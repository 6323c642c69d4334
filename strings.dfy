/** Go's `strings.Split` and `strings.Replace` with a count of -1 (replace every
    occurrence), the two `strings` functions the renderers call, restricted to
    the single-character separators they pass. `strings.Count` and
    `strings.Join` are modelled too because the contracts about the other two
    are stated with them. */
module GoStrings {

  /** Regrouping of three concatenated sequences. */
  lemma Append2<T>(a: seq<T>, b: seq<T>, c: seq<T>)
    ensures a + (b + c) == a + b + c
  {
  }

  /** Regrouping of four concatenated sequences. */
  lemma Append3<T>(a: seq<T>, b: seq<T>, c: seq<T>, d: seq<T>)
    ensures a + b + c + d == a + (b + c + d)
  {
  }

  /** Number of occurrences of `c` in `s` (`strings.Count` with a one-character separator). */
  function Count(s: string, c: char): (n: nat)
    ensures n <= |s|
  {
    if s == [] then 0
    else (if s[0] == c then 1 else 0) + Count(s[1..], c)
  }

  /** `strings.Split(s, "\n")`: the pieces between newlines. It always yields one
      piece more than there are newlines, so the empty string splits into `[""]`
      and a string ending in a newline has an empty last piece. */
  function Split(s: string): (pieces: seq<string>)
    ensures |pieces| == Count(s, '\n') + 1
  {
    if s == [] then [[]]
    else
      var rest := Split(s[1..]);
      if s[0] == '\n' then [[]] + rest
      else [[s[0]] + rest[0]] + rest[1..]
  }

  /** No piece contains a newline. */
  lemma {:induction false} SplitPieces(s: string)
    ensures forall k :: 0 <= k < |Split(s)| ==> '\n' !in Split(s)[k]
  {
    if s != [] {
      SplitPieces(s[1..]);
      var rest := Split(s[1..]);
      if s[0] != '\n' {
        assert '\n' !in [s[0]] + rest[0];
      }
    }
  }

  /** A character missing from the text is missing from every piece. */
  lemma {:induction false} SplitAvoids(s: string, c: char)
    requires c !in s
    ensures forall k :: 0 <= k < |Split(s)| ==> c !in Split(s)[k]
  {
    if s != [] {
      assert c !in s[1..] by {
        forall j | 0 <= j < |s[1..]| ensures s[1..][j] != c {
          assert s[1..][j] == s[j + 1];
        }
      }
      SplitAvoids(s[1..], c);
      var rest := Split(s[1..]);
      if s[0] != '\n' {
        assert c !in [s[0]] + rest[0];
      }
    }
  }

  /** `strings.Join(pieces, sep)`: the pieces with `sep` between neighbours. */
  function Join(pieces: seq<string>, sep: string): string
  {
    if pieces == [] then []
    else if |pieces| == 1 then pieces[0]
    else pieces[0] + sep + Join(pieces[1..], sep)
  }

  /** Joining one more piece on the right adds exactly one separator. */
  lemma {:induction false} JoinAppend(pieces: seq<string>, p: string, sep: string)
    requires pieces != []
    ensures Join(pieces + [p], sep) == Join(pieces, sep) + sep + p
  {
    if |pieces| > 1 {
      assert (pieces + [p])[1..] == pieces[1..] + [p];
      JoinAppend(pieces[1..], p, sep);
    } else {
      assert (pieces + [p])[1..] == [p];
    }
  }

  /** Splitting is undone by joining with the same separator. */
  lemma {:induction false} JoinSplit(s: string)
    ensures Join(Split(s), "\n") == s
  {
    if s != [] {
      var rest := Split(s[1..]);
      JoinSplit(s[1..]);
      if s[0] == '\n' {
        assert Split(s) == [[]] + rest;
        assert ([[]] + rest)[1..] == rest;
      } else {
        var ps := Split(s);
        assert ps == [[s[0]] + rest[0]] + rest[1..];
        if |rest| == 1 {
          assert Join(rest, "\n") == rest[0];
        } else {
          assert ps[1..] == rest[1..];
          assert Join(rest, "\n") == rest[0] + "\n" + Join(rest[1..], "\n");
        }
      }
    }
  }

  /** A piece free of newlines followed by a newline splits off as one piece. */
  lemma {:induction false} SplitLine(line: string, rest: string)
    requires '\n' !in line
    ensures Split(line + "\n" + rest) == [line] + Split(rest)
  {
    if line == [] {
      assert [] + "\n" + rest == "\n" + rest;
      assert ("\n" + rest)[1..] == rest;
    } else {
      var s := line + "\n" + rest;
      assert s[0] == line[0] && line[0] != '\n';
      assert s[1..] == line[1..] + "\n" + rest;
      assert '\n' !in line[1..] by {
        forall k | 0 <= k < |line[1..]| ensures line[1..][k] != '\n' {
          assert line[1..][k] == line[k + 1];
        }
      }
      SplitLine(line[1..], rest);
      var tail := Split(s[1..]);
      assert tail == [line[1..]] + Split(rest);
      assert Split(s) == [[s[0]] + tail[0]] + tail[1..];
      assert [line[0]] + line[1..] == line;
    }
  }

  /** A text ending in a newline splits with an empty last piece. */
  lemma {:induction false} SplitTrailingNewline(s: string)
    requires s != [] && s[|s| - 1] == '\n'
    ensures |Split(s)| >= 2 && Split(s)[|Split(s)| - 1] == []
  {
    var rest := Split(s[1..]);
    if |s| == 1 {
      assert s[1..] == [];
      assert Split(s) == [[], []];
    } else {
      assert s[1..][|s[1..]| - 1] == '\n';
      SplitTrailingNewline(s[1..]);
      if s[0] == '\n' {
        assert Split(s) == [[]] + rest;
      } else {
        assert Split(s) == [[s[0]] + rest[0]] + rest[1..];
      }
    }
  }

  /** A string without newlines is a single piece. */
  lemma {:induction false} SplitNoNewline(line: string)
    requires '\n' !in line
    ensures Split(line) == [line]
  {
    if line != [] {
      SplitNoNewline(line[1..]);
      assert [line[0]] + line[1..] == line;
    }
  }

  /** Joining newline-free pieces with newlines and splitting again gives the
      pieces back: the joined text has exactly one line per piece. */
  lemma {:induction false} SplitJoin(pieces: seq<string>)
    requires pieces != []
    requires forall k :: 0 <= k < |pieces| ==> '\n' !in pieces[k]
    ensures Split(Join(pieces, "\n")) == pieces
  {
    if |pieces| == 1 {
      SplitNoNewline(pieces[0]);
    } else {
      assert '\n' !in pieces[0];
      SplitJoin(pieces[1..]);
      SplitLine(pieces[0], Join(pieces[1..], "\n"));
      assert [pieces[0]] + pieces[1..] == pieces;
    }
  }

  /** `strings.Replace(s, target, repl, -1)` for a one-character `target`: every
      occurrence of `target` is replaced by `repl`. */
  function ReplaceAll(s: string, target: char, repl: string): string
  {
    if s == [] then []
    else (if s[0] == target then repl else [s[0]]) + ReplaceAll(s[1..], target, repl)
  }

  /** Replacing distributes over concatenation. */
  lemma {:induction false} ReplaceAllAppend(a: string, b: string, target: char, repl: string)
    ensures ReplaceAll(a + b, target, repl) == ReplaceAll(a, target, repl) + ReplaceAll(b, target, repl)
  {
    if a != [] {
      assert (a + b)[0] == a[0];
      assert (a + b)[1..] == a[1..] + b;
      ReplaceAllAppend(a[1..], b, target, repl);
    } else {
      assert a + b == b;
    }
  }

  /** Each occurrence of `target` changes the length by `|repl| - 1`. */
  lemma {:induction false} ReplaceAllLength(s: string, target: char, repl: string)
    ensures |ReplaceAll(s, target, repl)| == |s| + Count(s, target) * (|repl| - 1)
  {
    if s != [] {
      var n := Count(s[1..], target);
      ReplaceAllLength(s[1..], target, repl);
      if s[0] == target {
        assert (1 + n) * (|repl| - 1) == (|repl| - 1) + n * (|repl| - 1);
      }
    }
  }

  /** When `repl` does not contain `target`, no occurrence of `target` is left. */
  lemma {:induction false} ReplaceAllRemoves(s: string, target: char, repl: string)
    requires target !in repl
    ensures target !in ReplaceAll(s, target, repl)
  {
    if s != [] {
      ReplaceAllRemoves(s[1..], target, repl);
      var head := if s[0] == target then repl else [s[0]];
      assert target !in head;
      assert ReplaceAll(s, target, repl) == head + ReplaceAll(s[1..], target, repl);
    }
  }

  /** A string without `target` is left unchanged. */
  lemma {:induction false} ReplaceAllAbsent(s: string, target: char, repl: string)
    requires target !in s
    ensures ReplaceAll(s, target, repl) == s
  {
    if s != [] {
      ReplaceAllAbsent(s[1..], target, repl);
      assert [s[0]] + s[1..] == s;
    }
  }
}
