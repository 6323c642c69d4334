/** `DiffLinesPrettyText` of diffmatchpatch/pretty.go: a line-oriented report of
    a line-level diff list. Each segment's text is split on newlines; every kept
    piece becomes one row, marker + spacing + piece, and rows are separated by a
    single newline written before every row but the first. With colour on, an
    Insert or Delete segment is bracketed by one escape code and one reset.

    The model describes what the renderer writes as a sequence of events (a row
    or an escape code) and defines the output as the layout of those events;
    the method is proved to produce exactly that layout. */
module LinesPretty {
  import opened Diffs
  import GoStrings
  import Pretty

  /** `LinesPrettyConfig`: colour on or off, the text between a row's marker
      and its piece, and the number of context lines around a change. */
  datatype LinesPrettyConfig = LinesPrettyConfig(color: bool, spacing: string, context: int)

  /** The two kinds of terminal escape code the renderer writes: the colour
      that opens an Insert or a Delete segment, and the reset that closes it. */
  datatype Escape = ColorOn(op: Operation) | ColorOff

  /** What the renderer writes, in order: a row, or an escape code. */
  datatype Event = Line(row: string) | Code(esc: Escape)

  /** The lists joined end to end. */
  function Concat<T>(ss: seq<seq<T>>): seq<T>
  {
    if ss == [] then [] else Concat(ss[..|ss| - 1]) + ss[|ss| - 1]
  }

  function Marker(op: Operation): char
  {
    match op
    case Insert => '+'
    case Delete => '-'
    case Equal => ' '
  }

  /** The escape code that opens a coloured segment (Equal segments have none). */
  function ColorCode(op: Operation): string
  {
    match op
    case Insert => Pretty.Green
    case Delete => Pretty.Red
    case Equal => []
  }

  /** The characters an escape code writes. */
  function EscapeText(e: Escape): string
  {
    match e
    case ColorOn(op) => ColorCode(op)
    case ColorOff => Pretty.Reset
  }

  function Row(marker: char, spacing: string, line: string): string
  {
    [marker] + spacing + line
  }

  /** Whether piece `li` of the `count` pieces of segment `diffIdx` (of `n`) is
      written. The last piece of every segment but the final one is skipped.
      An Equal piece is written only inside the leading window (after a
      change: `diffIdx > 0 && li < context`) or the trailing window (before a
      change: `diffIdx < n - 1 && li >= count - context`). */
  predicate Shown(op: Operation, context: int, count: int, diffIdx: int, n: int, li: int)
  {
    !(li == count - 1 && diffIdx < n - 1) &&
    (op != Equal || (diffIdx > 0 && li < context) || (diffIdx < n - 1 && li >= count - context))
  }

  /** The rows written for the first `m` pieces of a segment. */
  function KeptRows(op: Operation, spacing: string, context: int, pieces: seq<string>,
                    diffIdx: int, n: int, m: nat): seq<string>
    requires m <= |pieces|
  {
    if m == 0 then []
    else
      KeptRows(op, spacing, context, pieces, diffIdx, n, m - 1) +
      (if Shown(op, context, |pieces|, diffIdx, n, m - 1)
       then [Row(Marker(op), spacing, pieces[m - 1])] else [])
  }

  /** The rows written for segment `diffIdx` of `n`. */
  function SegmentRows(config: LinesPrettyConfig, d: Diff, diffIdx: int, n: int): seq<string>
  {
    var pieces := GoStrings.Split(d.text);
    KeptRows(d.op, config.spacing, config.context, pieces, diffIdx, n, |pieces|)
  }

  function LineEvents(rows: seq<string>): seq<Event>
  {
    if rows == [] then [] else LineEvents(rows[..|rows| - 1]) + [Line(rows[|rows| - 1])]
  }

  /** The events of one segment: its rows, bracketed by the colour code and the
      reset when colour is on and the segment is an Insert or a Delete. */
  function SegmentEvents(config: LinesPrettyConfig, d: Diff, diffIdx: int, n: int): seq<Event>
  {
    var lines := LineEvents(SegmentRows(config, d, diffIdx, n));
    if config.color && d.op != Equal then [Code(ColorOn(d.op))] + lines + [Code(ColorOff)]
    else lines
  }

  /** The segments' event lists, one per diff, in order. */
  function SegmentEventLists(config: LinesPrettyConfig, diffs: seq<Diff>): seq<seq<Event>>
  {
    seq(|diffs|, i requires 0 <= i < |diffs| => SegmentEvents(config, diffs[i], i, |diffs|))
  }

  /** Everything the renderer writes for a diff list. */
  function Events(config: LinesPrettyConfig, diffs: seq<Diff>): seq<Event>
  {
    Concat(SegmentEventLists(config, diffs))
  }

  /** The rows among some events, in order. */
  function Rows(evs: seq<Event>): seq<string>
  {
    if evs == [] then []
    else
      var last := evs[|evs| - 1];
      Rows(evs[..|evs| - 1]) + (if last.Line? then [last.row] else [])
  }

  /** The escape codes among some events, in order. */
  function Codes(evs: seq<Event>): seq<Escape>
  {
    if evs == [] then []
    else
      var last := evs[|evs| - 1];
      Codes(evs[..|evs| - 1]) + (if last.Code? then [last.esc] else [])
  }

  /** What one event writes: a row is preceded by a newline unless it is the first row. */
  function Render(e: Event, first: bool): string
  {
    match e
    case Line(r) => (if first then [] else "\n") + r
    case Code(c) => EscapeText(c)
  }

  /** The text written for a sequence of events. */
  function Layout(evs: seq<Event>): string
  {
    if evs == [] then []
    else
      var init := evs[..|evs| - 1];
      Layout(init) + Render(evs[|evs| - 1], Rows(init) == [])
  }

  /** The segments' rows, one list per diff, in order. */
  function SegmentRowLists(config: LinesPrettyConfig, diffs: seq<Diff>): seq<seq<string>>
  {
    seq(|diffs|, i requires 0 <= i < |diffs| => SegmentRows(config, diffs[i], i, |diffs|))
  }

  /** The rows of the whole report, segment by segment. */
  function AllRows(config: LinesPrettyConfig, diffs: seq<Diff>): seq<string>
  {
    Concat(SegmentRowLists(config, diffs))
  }

  /** The escape codes one segment writes in colour mode: a colour and a reset
      around every Insert or Delete, nothing for an Equal. */
  function SegmentCodes(op: Operation): seq<Escape>
  {
    if op != Equal then [ColorOn(op), ColorOff] else []
  }

  /** The escape codes of the whole report in colour mode, segment by segment. */
  function ColorCodes(diffs: seq<Diff>): seq<Escape>
  {
    Concat(seq(|diffs|, i requires 0 <= i < |diffs| => SegmentCodes(diffs[i].op)))
  }

  // ---------------------------------------------------------------------------
  // Facts about events used by the renderer's proof
  // ---------------------------------------------------------------------------

  lemma PushEvent(evs: seq<Event>, e: Event)
    ensures Layout(evs + [e]) == Layout(evs) + Render(e, Rows(evs) == [])
    ensures Rows(evs + [e]) == Rows(evs) + (if e.Line? then [e.row] else [])
    ensures Codes(evs + [e]) == Codes(evs) + (if e.Code? then [e.esc] else [])
  {
    assert (evs + [e])[..|evs|] == evs;
  }

  lemma {:induction false} RowsCodesAppend(a: seq<Event>, b: seq<Event>)
    ensures Rows(a + b) == Rows(a) + Rows(b)
    ensures Codes(a + b) == Codes(a) + Codes(b)
  {
    if b == [] {
      assert a + b == a;
    } else {
      var init := b[..|b| - 1];
      var e := b[|b| - 1];
      RowsCodesAppend(a, init);
      assert b == init + [e];
      assert a + b == (a + init) + [e];
      PushEvent(a + init, e);
      PushEvent(init, e);
      GoStrings.Append2(Rows(a), Rows(init), if e.Line? then [e.row] else []);
      GoStrings.Append2(Codes(a), Codes(init), if e.Code? then [e.esc] else []);
    }
  }

  lemma LineEventsAppend(rows: seq<string>, r: string)
    ensures LineEvents(rows + [r]) == LineEvents(rows) + [Line(r)]
  {
    assert (rows + [r])[..|rows|] == rows;
  }

  lemma {:induction false} LineEventsContents(rows: seq<string>)
    ensures Rows(LineEvents(rows)) == rows
    ensures Codes(LineEvents(rows)) == []
  {
    if rows != [] {
      var init := rows[..|rows| - 1];
      LineEventsContents(init);
      assert init + [rows[|rows| - 1]] == rows;
      LineEventsAppend(init, rows[|rows| - 1]);
      PushEvent(LineEvents(init), Line(rows[|rows| - 1]));
    }
  }

  /** A piece that is not shown adds no row. */
  lemma KeptSkip(op: Operation, spacing: string, context: int, pieces: seq<string>,
                 diffIdx: int, n: int, li: nat)
    requires li < |pieces| && !Shown(op, context, |pieces|, diffIdx, n, li)
    ensures KeptRows(op, spacing, context, pieces, diffIdx, n, li + 1) ==
            KeptRows(op, spacing, context, pieces, diffIdx, n, li)
  {
  }

  /** A piece that is shown adds its row. */
  lemma KeptShow(op: Operation, spacing: string, context: int, pieces: seq<string>,
                 diffIdx: int, n: int, li: nat)
    requires li < |pieces| && Shown(op, context, |pieces|, diffIdx, n, li)
    ensures KeptRows(op, spacing, context, pieces, diffIdx, n, li + 1) ==
            KeptRows(op, spacing, context, pieces, diffIdx, n, li) + [Row(Marker(op), spacing, pieces[li])]
  {
  }

  /** Writing one more row after the rows so far appends one event. */
  lemma PushRow(evs: seq<Event>, rows: seq<string>, r: string)
    ensures evs + LineEvents(rows + [r]) == (evs + LineEvents(rows)) + [Line(r)]
  {
    LineEventsAppend(rows, r);
    GoStrings.Append2(evs, LineEvents(rows), [Line(r)]);
  }

  // ---------------------------------------------------------------------------
  // The renderer
  // ---------------------------------------------------------------------------

  /** `pushLine`: a newline unless this is the first row, then marker, spacing
      and line; the `firstLine` flag is cleared. */
  method PushLine(buff: string, firstLine: bool, marker: char, spacing: string, line: string,
                  ghost evs: seq<Event>)
    returns (buff': string, firstLine': bool)
    requires buff == Layout(evs) && firstLine == (Rows(evs) == [])
    ensures buff' == Layout(evs + [Line(Row(marker, spacing, line))])
    ensures !firstLine' && Rows(evs + [Line(Row(marker, spacing, line))]) != []
  {
    ghost var sep: string := if firstLine then [] else "\n";
    ghost var row := Row(marker, spacing, line);
    buff' := buff;
    if !firstLine {
      buff' := buff' + "\n";
    }
    assert buff' == buff + sep;
    firstLine' := false;
    buff' := buff' + [marker];
    buff' := buff' + spacing;
    buff' := buff' + line;
    PushEvent(evs, Line(row));
    assert Render(Line(row), firstLine) == sep + row;
    GoStrings.Append3(buff + sep, [marker], spacing, line);
    GoStrings.Append2(buff, sep, row);
  }

  /** `pushLine` for piece `li` of a segment when that piece is shown: the
      segment's rows grow by that piece's row. */
  method PushPiece(buff: string, firstLine: bool, op: Operation, marker: char, config: LinesPrettyConfig,
                   split: seq<string>, diffIdx: int, n: int, li: nat, ghost prefix: seq<Event>)
    returns (buff': string, firstLine': bool)
    requires marker == Marker(op)
    requires li < |split| && Shown(op, config.context, |split|, diffIdx, n, li)
    requires buff == Layout(prefix + LineEvents(KeptRows(op, config.spacing, config.context, split, diffIdx, n, li)))
    requires firstLine == (Rows(prefix + LineEvents(KeptRows(op, config.spacing, config.context, split, diffIdx, n, li))) == [])
    ensures buff' == Layout(prefix + LineEvents(KeptRows(op, config.spacing, config.context, split, diffIdx, n, li + 1)))
    ensures firstLine' == (Rows(prefix + LineEvents(KeptRows(op, config.spacing, config.context, split, diffIdx, n, li + 1))) == [])
  {
    ghost var rows := KeptRows(op, config.spacing, config.context, split, diffIdx, n, li);
    KeptShow(op, config.spacing, config.context, split, diffIdx, n, li);
    buff', firstLine' := PushLine(buff, firstLine, marker, config.spacing, split[li], prefix + LineEvents(rows));
    PushRow(prefix, rows, Row(marker, config.spacing, split[li]));
  }

  /** Writes an escape code into the buffer; it is not a row. */
  method WriteCode(buff: string, firstLine: bool, code: string, ghost esc: Escape, ghost evs: seq<Event>)
    returns (buff': string)
    requires code == EscapeText(esc)
    requires buff == Layout(evs) && firstLine == (Rows(evs) == [])
    ensures buff' == Layout(evs + [Code(esc)])
    ensures firstLine == (Rows(evs + [Code(esc)]) == [])
  {
    buff' := buff + code;
    PushEvent(evs, Code(esc));
  }

  /** The pieces loop of the `DiffInsert` and `DiffDelete` cases: one row per
      piece except a skipped last piece. */
  method WriteChangedLines(config: LinesPrettyConfig, op: Operation, marker: char, split: seq<string>,
                           diffIdx: int, n: int, buff: string, firstLine: bool, ghost prefix: seq<Event>)
    returns (buff': string, firstLine': bool)
    requires op != Equal && marker == Marker(op)
    requires buff == Layout(prefix + LineEvents(KeptRows(op, config.spacing, config.context, split, diffIdx, n, 0)))
    requires firstLine == (Rows(prefix + LineEvents(KeptRows(op, config.spacing, config.context, split, diffIdx, n, 0))) == [])
    ensures buff' == Layout(prefix + LineEvents(KeptRows(op, config.spacing, config.context, split, diffIdx, n, |split|)))
    ensures firstLine' == (Rows(prefix + LineEvents(KeptRows(op, config.spacing, config.context, split, diffIdx, n, |split|))) == [])
  {
    buff', firstLine' := buff, firstLine;
    for li := 0 to |split|
      invariant buff' == Layout(prefix + LineEvents(KeptRows(op, config.spacing, config.context, split, diffIdx, n, li)))
      invariant firstLine' == (Rows(prefix + LineEvents(KeptRows(op, config.spacing, config.context, split, diffIdx, n, li))) == [])
    {
      if li == |split| - 1 && diffIdx < n - 1 {
        KeptSkip(op, config.spacing, config.context, split, diffIdx, n, li);
        continue;
      }
      buff', firstLine' := PushPiece(buff', firstLine', op, marker, config, split, diffIdx, n, li, prefix);
    }
  }

  /** The `DiffInsert` and `DiffDelete` cases of the renderer's loop: the
      optional colour code, the segment's rows and the optional reset. */
  method WriteChangedSegment(config: LinesPrettyConfig, diff: Diff, diffIdx: nat, n: nat,
                             buff: string, firstLine: bool, ghost evs: seq<Event>)
    returns (buff': string, firstLine': bool)
    requires diff.op != Equal
    requires buff == Layout(evs) && firstLine == (Rows(evs) == [])
    ensures buff' == Layout(evs + SegmentEvents(config, diff, diffIdx, n))
    ensures firstLine' == (Rows(evs + SegmentEvents(config, diff, diffIdx, n)) == [])
  {
    var marker := if diff.op == Insert then '+' else '-';
    var code := if diff.op == Insert then "\U{1B}[32m" else "\U{1B}[31m";
    assert marker == Marker(diff.op) && code == ColorCode(diff.op);
    buff', firstLine' := buff, firstLine;
    if config.color {
      buff' := WriteCode(buff', firstLine', code, ColorOn(diff.op), evs);
    }
    ghost var afterOpen := if config.color then evs + [Code(ColorOn(diff.op))] else evs;
    var split := GoStrings.Split(diff.text);
    assert afterOpen + LineEvents(KeptRows(diff.op, config.spacing, config.context, split, diffIdx, n, 0)) == afterOpen;
    buff', firstLine' := WriteChangedLines(config, diff.op, marker, split, diffIdx, n, buff', firstLine', afterOpen);
    ghost var lines := LineEvents(SegmentRows(config, diff, diffIdx, n));
    if config.color {
      buff' := WriteCode(buff', firstLine', "\U{1B}[0m", ColorOff, afterOpen + lines);
      GoStrings.Append3(evs, [Code(ColorOn(diff.op))], lines, [Code(ColorOff)]);
    }
  }

  /** One pass of the pieces loop of the `DiffEqual` case: piece `li` is
      written when it is not a skipped last piece and lies in the leading or
      the trailing context window. */
  method WriteContextPiece(config: LinesPrettyConfig, split: seq<string>, diffIdx: int, n: int, li: nat,
                           buff: string, firstLine: bool, ghost prefix: seq<Event>)
    returns (buff': string, firstLine': bool)
    requires li < |split|
    requires buff == Layout(prefix + LineEvents(KeptRows(Equal, config.spacing, config.context, split, diffIdx, n, li)))
    requires firstLine == (Rows(prefix + LineEvents(KeptRows(Equal, config.spacing, config.context, split, diffIdx, n, li))) == [])
    ensures buff' == Layout(prefix + LineEvents(KeptRows(Equal, config.spacing, config.context, split, diffIdx, n, li + 1)))
    ensures firstLine' == (Rows(prefix + LineEvents(KeptRows(Equal, config.spacing, config.context, split, diffIdx, n, li + 1))) == [])
  {
    if li == |split| - 1 && diffIdx < n - 1 {
      KeptSkip(Equal, config.spacing, config.context, split, diffIdx, n, li);
      buff', firstLine' := buff, firstLine;
    } else if diffIdx > 0 && li < config.context {
      // context lines before the diff
      buff', firstLine' := PushPiece(buff, firstLine, Equal, ' ', config, split, diffIdx, n, li, prefix);
    } else if diffIdx < n - 1 && li >= |split| - config.context {
      // context lines after the diff
      buff', firstLine' := PushPiece(buff, firstLine, Equal, ' ', config, split, diffIdx, n, li, prefix);
    } else {
      KeptSkip(Equal, config.spacing, config.context, split, diffIdx, n, li);
      buff', firstLine' := buff, firstLine;
    }
  }

  /** The pieces loop of the `DiffEqual` case. */
  method WriteContextLines(config: LinesPrettyConfig, split: seq<string>, diffIdx: int, n: int,
                           buff: string, firstLine: bool, ghost prefix: seq<Event>)
    returns (buff': string, firstLine': bool)
    requires buff == Layout(prefix + LineEvents(KeptRows(Equal, config.spacing, config.context, split, diffIdx, n, 0)))
    requires firstLine == (Rows(prefix + LineEvents(KeptRows(Equal, config.spacing, config.context, split, diffIdx, n, 0))) == [])
    ensures buff' == Layout(prefix + LineEvents(KeptRows(Equal, config.spacing, config.context, split, diffIdx, n, |split|)))
    ensures firstLine' == (Rows(prefix + LineEvents(KeptRows(Equal, config.spacing, config.context, split, diffIdx, n, |split|))) == [])
  {
    buff', firstLine' := buff, firstLine;
    for li := 0 to |split|
      invariant buff' == Layout(prefix + LineEvents(KeptRows(Equal, config.spacing, config.context, split, diffIdx, n, li)))
      invariant firstLine' == (Rows(prefix + LineEvents(KeptRows(Equal, config.spacing, config.context, split, diffIdx, n, li))) == [])
    {
      buff', firstLine' := WriteContextPiece(config, split, diffIdx, n, li, buff', firstLine', prefix);
    }
  }

  /** The `DiffEqual` case of the renderer's loop: the context rows of the segment. */
  method WriteEqualSegment(config: LinesPrettyConfig, diff: Diff, diffIdx: nat, n: nat,
                           buff: string, firstLine: bool, ghost evs: seq<Event>)
    returns (buff': string, firstLine': bool)
    requires diff.op == Equal
    requires buff == Layout(evs) && firstLine == (Rows(evs) == [])
    ensures buff' == Layout(evs + SegmentEvents(config, diff, diffIdx, n))
    ensures firstLine' == (Rows(evs + SegmentEvents(config, diff, diffIdx, n)) == [])
  {
    var split := GoStrings.Split(diff.text);
    assert evs + LineEvents(KeptRows(Equal, config.spacing, config.context, split, diffIdx, n, 0)) == evs;
    buff', firstLine' := WriteContextLines(config, split, diffIdx, n, buff, firstLine, evs);
  }

  /** `DiffLinesPrettyText`, given the line-level diff list that `DiffLines`
      computes from the two texts. Its output is the layout of the events of
      every segment; without colour that is the rows joined by single newlines. */
  method DiffLinesPrettyText(config: LinesPrettyConfig, linesDiff: seq<Diff>) returns (out: string)
    ensures out == Layout(Events(config, linesDiff))
    ensures !config.color ==> out == GoStrings.Join(AllRows(config, linesDiff), "\n")
  {
    var buff: string := [];
    var firstLine := true;
    ghost var evs: seq<Event> := [];
    ghost var segments := SegmentEventLists(config, linesDiff);
    for diffIdx := 0 to |linesDiff|
      invariant evs == Concat(segments[..diffIdx])
      invariant buff == Layout(evs) && firstLine == (Rows(evs) == [])
    {
      var diff := linesDiff[diffIdx];
      match diff.op {
        case Insert =>
          buff, firstLine := WriteChangedSegment(config, diff, diffIdx, |linesDiff|, buff, firstLine, evs);
        case Delete =>
          buff, firstLine := WriteChangedSegment(config, diff, diffIdx, |linesDiff|, buff, firstLine, evs);
        case Equal =>
          buff, firstLine := WriteEqualSegment(config, diff, diffIdx, |linesDiff|, buff, firstLine, evs);
      }
      ConcatSnoc(segments, diffIdx);
      evs := evs + SegmentEvents(config, diff, diffIdx, |linesDiff|);
    }
    assert segments[..|linesDiff|] == segments;
    out := buff;
    if !config.color {
      PlainLayout(config, linesDiff);
    }
  }

  // ---------------------------------------------------------------------------
  // Row separation
  // ---------------------------------------------------------------------------

  /** Events without escape codes lay out as their rows joined by single
      newlines: no leading and no trailing separator. */
  lemma {:induction false} LayoutWithoutCodes(evs: seq<Event>)
    requires Codes(evs) == []
    ensures Layout(evs) == GoStrings.Join(Rows(evs), "\n")
  {
    if evs != [] {
      var init := evs[..|evs| - 1];
      var e := evs[|evs| - 1];
      assert evs == init + [e];
      PushEvent(init, e);
      LayoutWithoutCodes(init);
      assert e.Line?;
      if Rows(init) != [] {
        GoStrings.JoinAppend(Rows(init), e.row, "\n");
      } else {
        assert Rows(evs) == [e.row];
      }
    }
  }

  lemma SegmentEventsContents(config: LinesPrettyConfig, d: Diff, diffIdx: int, n: int)
    ensures Rows(SegmentEvents(config, d, diffIdx, n)) == SegmentRows(config, d, diffIdx, n)
    ensures Codes(SegmentEvents(config, d, diffIdx, n)) ==
            if config.color then SegmentCodes(d.op) else []
  {
    var rows := SegmentRows(config, d, diffIdx, n);
    var lines := LineEvents(rows);
    LineEventsContents(rows);
    if config.color && d.op != Equal {
      var open := [Code(ColorOn(d.op))];
      PushEvent([], Code(ColorOn(d.op)));
      assert [] + [Code(ColorOn(d.op))] == open;
      RowsCodesAppend(open, lines);
      PushEvent(open + lines, Code(ColorOff));
    }
  }

  lemma ConcatSnoc<T>(ss: seq<seq<T>>, i: nat)
    requires i < |ss|
    ensures Concat(ss[..i + 1]) == Concat(ss[..i]) + ss[i]
  {
    assert ss[..i + 1][..i] == ss[..i];
  }

  /** The rows of concatenated event lists are the concatenated rows of each list. */
  lemma {:induction false} RowsOfConcat(ss: seq<seq<Event>>)
    ensures Rows(Concat(ss)) == Concat(seq(|ss|, i requires 0 <= i < |ss| => Rows(ss[i])))
  {
    if ss != [] {
      var init := ss[..|ss| - 1];
      RowsOfConcat(init);
      RowsCodesAppend(Concat(init), ss[|ss| - 1]);
      var rs := seq(|ss|, i requires 0 <= i < |ss| => Rows(ss[i]));
      assert rs[..|ss| - 1] == seq(|init|, i requires 0 <= i < |init| => Rows(init[i]));
    }
  }

  /** The escape codes of concatenated event lists. */
  lemma {:induction false} CodesOfConcat(ss: seq<seq<Event>>)
    ensures Codes(Concat(ss)) == Concat(seq(|ss|, i requires 0 <= i < |ss| => Codes(ss[i])))
  {
    if ss != [] {
      var init := ss[..|ss| - 1];
      CodesOfConcat(init);
      RowsCodesAppend(Concat(init), ss[|ss| - 1]);
      var cs := seq(|ss|, i requires 0 <= i < |ss| => Codes(ss[i]));
      assert cs[..|ss| - 1] == seq(|init|, i requires 0 <= i < |init| => Codes(init[i]));
    }
  }

  /** Concatenating empty lists gives the empty list. */
  lemma {:induction false} ConcatEmpty<T>(ss: seq<seq<T>>)
    requires forall i :: 0 <= i < |ss| ==> ss[i] == []
    ensures Concat(ss) == []
  {
    if ss != [] {
      ConcatEmpty(ss[..|ss| - 1]);
    }
  }

  /** The rows of the events are the rows the window rules keep, segment by segment. */
  lemma EventsRows(config: LinesPrettyConfig, diffs: seq<Diff>)
    ensures Rows(Events(config, diffs)) == AllRows(config, diffs)
  {
    var segments := SegmentEventLists(config, diffs);
    RowsOfConcat(segments);
    forall i | 0 <= i < |diffs|
      ensures Rows(segments[i]) == SegmentRowLists(config, diffs)[i]
    {
      SegmentEventsContents(config, diffs[i], i, |diffs|);
    }
    assert seq(|segments|, i requires 0 <= i < |segments| => Rows(segments[i])) == SegmentRowLists(config, diffs);
  }

  /** With colour on, every Insert or Delete segment contributes exactly its
      colour code and one reset, in order, whether or not it writes any row,
      and Equal segments contribute none; with colour off there are no escape
      codes. */
  lemma ColorBracketing(config: LinesPrettyConfig, diffs: seq<Diff>)
    ensures Codes(Events(config, diffs)) == if config.color then ColorCodes(diffs) else []
  {
    var segments := SegmentEventLists(config, diffs);
    CodesOfConcat(segments);
    var cs := seq(|segments|, i requires 0 <= i < |segments| => Codes(segments[i]));
    forall i | 0 <= i < |diffs|
      ensures cs[i] == if config.color then SegmentCodes(diffs[i].op) else []
    {
      SegmentEventsContents(config, diffs[i], i, |diffs|);
    }
    if config.color {
      assert cs == seq(|diffs|, i requires 0 <= i < |diffs| => SegmentCodes(diffs[i].op));
    } else {
      ConcatEmpty(cs);
    }
  }

  /** Without colour the report is exactly the rows joined by single newlines;
      an empty diff list gives the empty string. */
  lemma PlainLayout(config: LinesPrettyConfig, diffs: seq<Diff>)
    requires !config.color
    ensures Layout(Events(config, diffs)) == GoStrings.Join(AllRows(config, diffs), "\n")
    ensures diffs == [] ==> Layout(Events(config, diffs)) == []
  {
    EventsRows(config, diffs);
    ColorBracketing(config, diffs);
    LayoutWithoutCodes(Events(config, diffs));
  }

  /** A row-only layout contains a character only if a row does (or it is the
      newline separator). */
  lemma {:induction false} LayoutAvoids(evs: seq<Event>, c: char)
    requires c != '\n' && Codes(evs) == []
    requires forall k :: 0 <= k < |Rows(evs)| ==> c !in Rows(evs)[k]
    ensures c !in Layout(evs)
  {
    if evs != [] {
      var init := evs[..|evs| - 1];
      var e := evs[|evs| - 1];
      assert evs == init + [e];
      PushEvent(init, e);
      assert forall k :: 0 <= k < |Rows(init)| ==> Rows(init)[k] == Rows(evs)[k];
      LayoutAvoids(init, c);
      assert e.Line? && Rows(evs)[|Rows(evs)| - 1] == e.row;
    }
  }

  lemma {:induction false} KeptRowsAvoid(op: Operation, spacing: string, context: int, pieces: seq<string>,
                                        diffIdx: int, n: int, m: nat, c: char)
    requires m <= |pieces| && c != Marker(op) && c !in spacing
    requires forall k :: 0 <= k < |pieces| ==> c !in pieces[k]
    ensures forall k :: 0 <= k < |KeptRows(op, spacing, context, pieces, diffIdx, n, m)| ==>
              c !in KeptRows(op, spacing, context, pieces, diffIdx, n, m)[k]
  {
    if m > 0 {
      KeptRowsAvoid(op, spacing, context, pieces, diffIdx, n, m - 1, c);
      assert c !in pieces[m - 1];
      assert c !in Row(Marker(op), spacing, pieces[m - 1]);
    }
  }

  /** A character in no piece, not in the spacing and not the marker is in no row. */
  lemma SegmentRowsAvoid(config: LinesPrettyConfig, d: Diff, diffIdx: int, n: int, c: char)
    requires c != Marker(d.op) && c !in config.spacing && (c == '\n' || c !in d.text)
    ensures forall k :: 0 <= k < |SegmentRows(config, d, diffIdx, n)| ==> c !in SegmentRows(config, d, diffIdx, n)[k]
  {
    var pieces := GoStrings.Split(d.text);
    if c == '\n' {
      GoStrings.SplitPieces(d.text);
    } else {
      GoStrings.SplitAvoids(d.text, c);
    }
    KeptRowsAvoid(d.op, config.spacing, config.context, pieces, diffIdx, n, |pieces|, c);
  }

  /** A property of every element of every list holds of every element of their concatenation. */
  lemma {:induction false} ConcatEvery<T>(ss: seq<seq<T>>, P: T -> bool)
    requires forall i, j :: 0 <= i < |ss| && 0 <= j < |ss[i]| ==> P(ss[i][j])
    ensures forall j :: 0 <= j < |Concat(ss)| ==> P(Concat(ss)[j])
  {
    if ss != [] {
      var init := ss[..|ss| - 1];
      var last := ss[|ss| - 1];
      ConcatEvery(init, P);
      var prefix := Concat(init);
      assert Concat(ss) == prefix + last;
      forall j | 0 <= j < |Concat(ss)|
        ensures P(Concat(ss)[j])
      {
        if j < |prefix| {
          assert Concat(ss)[j] == prefix[j];
        } else {
          assert Concat(ss)[j] == last[j - |prefix|];
        }
      }
    }
  }

  /** A character that no segment's text, the spacing or a marker has is in no row. */
  lemma AllRowsAvoid(config: LinesPrettyConfig, diffs: seq<Diff>, c: char)
    requires c != '+' && c != '-' && c != ' ' && c !in config.spacing
    requires c == '\n' || forall j :: 0 <= j < |diffs| ==> c !in diffs[j].text
    ensures forall j :: 0 <= j < |AllRows(config, diffs)| ==> c !in AllRows(config, diffs)[j]
  {
    var rs := SegmentRowLists(config, diffs);
    var avoids := (r: string) => c !in r;
    forall i, j | 0 <= i < |rs| && 0 <= j < |rs[i]|
      ensures avoids(rs[i][j])
    {
      SegmentRowsAvoid(config, diffs[i], i, |diffs|, c);
    }
    ConcatEvery(rs, avoids);
  }

  /** With colour off the renderer itself writes no escape character: one
      appears in the report only if the spacing or a segment's text has one. */
  lemma NoEscapeWithoutColor(config: LinesPrettyConfig, diffs: seq<Diff>)
    requires !config.color && '\U{1B}' !in config.spacing
    requires forall j :: 0 <= j < |diffs| ==> '\U{1B}' !in diffs[j].text
    ensures '\U{1B}' !in Layout(Events(config, diffs))
  {
    EventsRows(config, diffs);
    ColorBracketing(config, diffs);
    AllRowsAvoid(config, diffs, '\U{1B}');
    LayoutAvoids(Events(config, diffs), '\U{1B}');
  }

  /** Without colour, and with a spacing free of newlines, splitting the report
      on newlines gives back exactly its rows: one output line per row. */
  lemma OutputLines(config: LinesPrettyConfig, diffs: seq<Diff>)
    requires !config.color && '\n' !in config.spacing
    requires AllRows(config, diffs) != []
    ensures GoStrings.Split(Layout(Events(config, diffs))) == AllRows(config, diffs)
  {
    PlainLayout(config, diffs);
    AllRowsAvoid(config, diffs, '\n');
    GoStrings.SplitJoin(AllRows(config, diffs));
  }
}
