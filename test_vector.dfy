/** The line report of the repository's own test case for
    `DiffLinesPrettyText` (diffmatchpatch/pretty_test.go): a context of 4, a
    single space of spacing, no colour. */
module PrettyTestVector {
  import opened Diffs
  import GoStrings
  import opened LinesPretty
  import opened LinesRows

  const Config := LinesPrettyConfig(false, " ", 4)

  /** Newline-terminated lines, as the texts of a line diff are. */
  function Lines(ls: seq<string>): string
  {
    if ls == [] then [] else ls[0] + "\n" + Lines(ls[1..])
  }

  /** The line diff of the test's two texts: twelve segments, changes of one
      line with Equal runs of one to four lines between them. */
  const Vector: seq<Diff> := [
    Diff(Equal, Lines([""])),
    Diff(Delete, Lines(["foo"])),
    Diff(Equal, Lines(["line 1"])),
    Diff(Insert, Lines(["foo"])),
    Diff(Equal, Lines(["line 2"])),
    Diff(Delete, Lines(["bar"])),
    Diff(Equal, Lines(["line 3", "line 4", "line 5", "line 6"])),
    Diff(Delete, Lines(["baz"])),
    Diff(Equal, Lines(["line 7", "line 8", "line 9"])),
    Diff(Insert, Lines(["bar"])),
    Diff(Equal, Lines(["line 10", "line 11"])),
    Diff(Insert, Lines(["baz"]))
  ]

  /** The lines of the report the test expects: its expected raw string is
      these lines, each but the last followed by a newline. */
  const ExpectedLines: seq<string> := [
    "  ",
    "- foo",
    "  line 1",
    "+ foo",
    "  line 2",
    "- bar",
    "  line 3",
    "  line 4",
    "  line 5",
    "  line 6",
    "- baz",
    "  line 7",
    "  line 8",
    "  line 9",
    "+ bar",
    "  line 10",
    "  line 11",
    "+ baz",
    "+ "
  ]

  /** The same lines, grouped by the segment that writes them. */
  const ExpectedRows: seq<seq<string>> := [
    ["  "],
    ["- foo"],
    ["  line 1"],
    ["+ foo"],
    ["  line 2"],
    ["- bar"],
    ["  line 3", "  line 4", "  line 5", "  line 6"],
    ["- baz"],
    ["  line 7", "  line 8", "  line 9"],
    ["+ bar"],
    ["  line 10", "  line 11"],
    ["+ baz", "+ "]
  ]

  /** Newline-terminated lines split into the lines and an empty last piece. */
  lemma {:induction false} SplitLines(ls: seq<string>)
    requires forall k :: 0 <= k < |ls| ==> '\n' !in ls[k]
    ensures GoStrings.Split(Lines(ls)) == ls + [[]]
  {
    if ls != [] {
      SplitLines(ls[1..]);
      GoStrings.SplitLine(ls[0], Lines(ls[1..]));
      assert [ls[0]] + (ls[1..] + [[]]) == ls + [[]];
    }
  }

  /** A non-final Insert or Delete of one line writes that line. */
  lemma ChangedLine(op: Operation, line: string, i: int)
    requires op != Equal && '\n' !in line && i < 11
    ensures SegmentRows(Config, Diff(op, Lines([line])), i, 12) == [Row(Marker(op), " ", line)]
  {
    SplitLines([line]);
    ChangedRows(Config, Diff(op, Lines([line])), i, 12);
    assert PieceRows(op, " ", [line, []], 0, 1) == [Row(Marker(op), " ", line)];
  }

  /** A middle Equal segment of fewer lines than twice the context writes
      every line. */
  lemma EqualRun(ls: seq<string>, i: int)
    requires forall k :: 0 <= k < |ls| ==> '\n' !in ls[k]
    requires 0 < i < 11 && |ls| < 7
    ensures SegmentRows(Config, Diff(Equal, Lines(ls)), i, 12) == PieceRows(Equal, " ", ls + [[]], 0, |ls|)
  {
    SplitLines(ls);
    MiddleEqualRows(Config, Diff(Equal, Lines(ls)), i, 12);
  }

  /** The rows of segment 0 and of the final segment 11, the two ends of the
      report. */
  lemma Segment0()
    ensures SegmentRows(Config, Diff(Equal, Lines([""])), 0, 12) == [Row(' ', " ", "")]
  {
    SplitLines([""]);
    FirstEqualRows(Config, Diff(Equal, Lines([""])), 12);
  }

  lemma Segment11()
    ensures SegmentRows(Config, Diff(Insert, Lines(["baz"])), 11, 12) == [Row('+', " ", "baz"), Row('+', " ", "")]
  {
    SplitLines(["baz"]);
    ChangedRows(Config, Diff(Insert, Lines(["baz"])), 11, 12);
  }

  /** The rows of the segments in between. */
  lemma Segment1()
    ensures SegmentRows(Config, Diff(Delete, Lines(["foo"])), 1, 12) == [Row('-', " ", "foo")]
  {
    ChangedLine(Delete, "foo", 1);
  }

  lemma Segment2()
    ensures SegmentRows(Config, Diff(Equal, Lines(["line 1"])), 2, 12) == [Row(' ', " ", "line 1")]
  {
    EqualRun(["line 1"], 2);
  }

  lemma Segment3()
    ensures SegmentRows(Config, Diff(Insert, Lines(["foo"])), 3, 12) == [Row('+', " ", "foo")]
  {
    ChangedLine(Insert, "foo", 3);
  }

  lemma Segment4()
    ensures SegmentRows(Config, Diff(Equal, Lines(["line 2"])), 4, 12) == [Row(' ', " ", "line 2")]
  {
    EqualRun(["line 2"], 4);
  }

  lemma Segment5()
    ensures SegmentRows(Config, Diff(Delete, Lines(["bar"])), 5, 12) == [Row('-', " ", "bar")]
  {
    ChangedLine(Delete, "bar", 5);
  }

  lemma Segment6()
    ensures SegmentRows(Config, Diff(Equal, Lines(["line 3", "line 4", "line 5", "line 6"])), 6, 12) == [Row(' ', " ", "line 3"), Row(' ', " ", "line 4"), Row(' ', " ", "line 5"), Row(' ', " ", "line 6")]
  {
    EqualRun(["line 3", "line 4", "line 5", "line 6"], 6);
  }

  lemma Segment7()
    ensures SegmentRows(Config, Diff(Delete, Lines(["baz"])), 7, 12) == [Row('-', " ", "baz")]
  {
    ChangedLine(Delete, "baz", 7);
  }

  lemma Segment8()
    ensures SegmentRows(Config, Diff(Equal, Lines(["line 7", "line 8", "line 9"])), 8, 12) == [Row(' ', " ", "line 7"), Row(' ', " ", "line 8"), Row(' ', " ", "line 9")]
  {
    EqualRun(["line 7", "line 8", "line 9"], 8);
  }

  lemma Segment9()
    ensures SegmentRows(Config, Diff(Insert, Lines(["bar"])), 9, 12) == [Row('+', " ", "bar")]
  {
    ChangedLine(Insert, "bar", 9);
  }

  lemma Segment10()
    ensures SegmentRows(Config, Diff(Equal, Lines(["line 10", "line 11"])), 10, 12) == [Row(' ', " ", "line 10"), Row(' ', " ", "line 11")]
  {
    EqualRun(["line 10", "line 11"], 10);
  }

  /** The segments of the vector one by one. */
  lemma VectorShape()
    ensures |Vector| == 12
    ensures Vector[0] == Diff(Equal, Lines([""]))
    ensures Vector[1] == Diff(Delete, Lines(["foo"]))
    ensures Vector[2] == Diff(Equal, Lines(["line 1"]))
    ensures Vector[3] == Diff(Insert, Lines(["foo"]))
    ensures Vector[4] == Diff(Equal, Lines(["line 2"]))
    ensures Vector[5] == Diff(Delete, Lines(["bar"]))
    ensures Vector[6] == Diff(Equal, Lines(["line 3", "line 4", "line 5", "line 6"]))
    ensures Vector[7] == Diff(Delete, Lines(["baz"]))
    ensures Vector[8] == Diff(Equal, Lines(["line 7", "line 8", "line 9"]))
    ensures Vector[9] == Diff(Insert, Lines(["bar"]))
    ensures Vector[10] == Diff(Equal, Lines(["line 10", "line 11"]))
    ensures Vector[11] == Diff(Insert, Lines(["baz"]))
  {
  }

  /** The rows above, spelt out. */
  lemma RowTexts()
    ensures Row(' ', " ", "") == "  "
    ensures Row('-', " ", "foo") == "- foo" && Row('+', " ", "foo") == "+ foo"
    ensures Row('-', " ", "bar") == "- bar" && Row('+', " ", "bar") == "+ bar"
    ensures Row('-', " ", "baz") == "- baz" && Row('+', " ", "baz") == "+ baz" && Row('+', " ", "") == "+ "
    ensures Row(' ', " ", "line 1") == "  line 1" && Row(' ', " ", "line 2") == "  line 2"
    ensures Row(' ', " ", "line 3") == "  line 3" && Row(' ', " ", "line 4") == "  line 4"
    ensures Row(' ', " ", "line 5") == "  line 5" && Row(' ', " ", "line 6") == "  line 6"
    ensures Row(' ', " ", "line 7") == "  line 7" && Row(' ', " ", "line 8") == "  line 8"
    ensures Row(' ', " ", "line 9") == "  line 9" && Row(' ', " ", "line 10") == "  line 10"
    ensures Row(' ', " ", "line 11") == "  line 11"
  {
  }

  /** Segment `k` writes the rows the test expects of it. */
  lemma RowsAt(k: int)
    requires 0 <= k < 12
    ensures SegmentRowLists(Config, Vector)[k] == ExpectedRows[k]
  {
    VectorShape();
    RowTexts();
    if k == 0 { Segment0(); }
    else if k == 1 { Segment1(); }
    else if k == 2 { Segment2(); }
    else if k == 3 { Segment3(); }
    else if k == 4 { Segment4(); }
    else if k == 5 { Segment5(); }
    else if k == 6 { Segment6(); }
    else if k == 7 { Segment7(); }
    else if k == 8 { Segment8(); }
    else if k == 9 { Segment9(); }
    else if k == 10 { Segment10(); }
    else { Segment11(); }
  }

  /** Every segment writes the rows the test expects. */
  lemma VectorSegmentRows()
    ensures SegmentRowLists(Config, Vector) == ExpectedRows
  {
    VectorShape();
    forall k | 0 <= k < 12
      ensures SegmentRowLists(Config, Vector)[k] == ExpectedRows[k]
    {
      RowsAt(k);
    }
  }

  /** One more list continues a target list. */
  lemma ConcatOnto<T>(ss: seq<seq<T>>, target: seq<T>, k: nat, o: nat)
    requires k < |ss| && o + |ss[k]| <= |target|
    requires Concat(ss[..k]) == target[..o]
    requires ss[k] == target[o..o + |ss[k]|]
    ensures Concat(ss[..k + 1]) == target[..o + |ss[k]|]
  {
    ConcatSnoc(ss, k);
    assert target[..o] + target[o..o + |ss[k]|] == target[..o + |ss[k]|];
  }

  /** The rows of the segments, one after the other, are the expected lines. */
  lemma ExpectedConcat()
    ensures Concat(ExpectedRows) == ExpectedLines
  {
    assert ExpectedRows[..0] == [];
    ConcatOnto(ExpectedRows, ExpectedLines, 0, 0);
    ConcatOnto(ExpectedRows, ExpectedLines, 1, 1);
    ConcatOnto(ExpectedRows, ExpectedLines, 2, 2);
    ConcatOnto(ExpectedRows, ExpectedLines, 3, 3);
    ConcatOnto(ExpectedRows, ExpectedLines, 4, 4);
    ConcatOnto(ExpectedRows, ExpectedLines, 5, 5);
    ConcatOnto(ExpectedRows, ExpectedLines, 6, 6);
    ConcatOnto(ExpectedRows, ExpectedLines, 7, 10);
    ConcatOnto(ExpectedRows, ExpectedLines, 8, 11);
    ConcatOnto(ExpectedRows, ExpectedLines, 9, 14);
    ConcatOnto(ExpectedRows, ExpectedLines, 10, 15);
    ConcatOnto(ExpectedRows, ExpectedLines, 11, 17);
    assert ExpectedRows[..12] == ExpectedRows;
    assert ExpectedLines[..19] == ExpectedLines;
  }

  /** The report of the test vector is the expected lines, one per row. */
  lemma VectorReport()
    ensures Layout(Events(Config, Vector)) == GoStrings.Join(ExpectedLines, "\n")
    ensures AllRows(Config, Vector) == ExpectedLines
  {
    VectorSegmentRows();
    ExpectedConcat();
    PlainLayout(Config, Vector);
  }

  // ---------------------------------------------------------------------------
  // The two texts of the test
  // ---------------------------------------------------------------------------

  /** The text a diff list turns from: its Equal and Delete texts, in order. */
  function SourceText(diffs: seq<Diff>): string
  {
    Concat(seq(|diffs|, i requires 0 <= i < |diffs| => if diffs[i].op != Insert then diffs[i].text else []))
  }

  /** The text a diff list turns into: its Equal and Insert texts, in order. */
  function TargetText(diffs: seq<Diff>): string
  {
    Concat(seq(|diffs|, i requires 0 <= i < |diffs| => if diffs[i].op != Delete then diffs[i].text else []))
  }

  /** The lines of the test's first text `s1`. */
  const S1Lines: seq<string> := [
    "", "foo", "line 1", "line 2", "bar", "line 3", "line 4", "line 5", "line 6",
    "baz", "line 7", "line 8", "line 9", "line 10", "line 11"
  ]

  /** The lines of the test's second text `s2`. */
  const S2Lines: seq<string> := [
    "", "line 1", "foo", "line 2", "line 3", "line 4", "line 5", "line 6",
    "line 7", "line 8", "line 9", "bar", "line 10", "line 11", "baz"
  ]

  /** `s1` and `s2`: raw strings that open with a newline and end with one. */
  const S1: string := Lines(S1Lines)
  const S2: string := Lines(S2Lines)

  /** The lines each segment of the vector gives to `s1` and to `s2`. */
  const SourceParts: seq<seq<string>> := [
    [""], ["foo"], ["line 1"], [], ["line 2"], ["bar"],
    ["line 3", "line 4", "line 5", "line 6"], ["baz"],
    ["line 7", "line 8", "line 9"], [], ["line 10", "line 11"], []
  ]

  const TargetParts: seq<seq<string>> := [
    [""], [], ["line 1"], ["foo"], ["line 2"], [],
    ["line 3", "line 4", "line 5", "line 6"], [],
    ["line 7", "line 8", "line 9"], ["bar"], ["line 10", "line 11"], ["baz"]
  ]

  lemma {:induction false} LinesAppend(a: seq<string>, b: seq<string>)
    ensures Lines(a + b) == Lines(a) + Lines(b)
  {
    if a != [] {
      assert (a + b)[0] == a[0];
      assert (a + b)[1..] == a[1..] + b;
      LinesAppend(a[1..], b);
    } else {
      assert a + b == b;
    }
  }

  /** The lines of several groups, one group after the other. */
  lemma {:induction false} LinesConcat(lss: seq<seq<string>>)
    ensures Concat(seq(|lss|, i requires 0 <= i < |lss| => Lines(lss[i]))) == Lines(Concat(lss))
  {
    if lss != [] {
      var init := lss[..|lss| - 1];
      var texts := seq(|lss|, i requires 0 <= i < |lss| => Lines(lss[i]));
      LinesConcat(init);
      assert texts[..|lss| - 1] == seq(|init|, i requires 0 <= i < |init| => Lines(init[i]));
      LinesAppend(Concat(init), lss[|lss| - 1]);
    }
  }

  lemma SourcePartsConcat()
    ensures Concat(SourceParts) == S1Lines
  {
    assert SourceParts[..0] == [];
    ConcatOnto(SourceParts, S1Lines, 0, 0);
    ConcatOnto(SourceParts, S1Lines, 1, 1);
    ConcatOnto(SourceParts, S1Lines, 2, 2);
    ConcatOnto(SourceParts, S1Lines, 3, 3);
    ConcatOnto(SourceParts, S1Lines, 4, 3);
    ConcatOnto(SourceParts, S1Lines, 5, 4);
    ConcatOnto(SourceParts, S1Lines, 6, 5);
    ConcatOnto(SourceParts, S1Lines, 7, 9);
    ConcatOnto(SourceParts, S1Lines, 8, 10);
    ConcatOnto(SourceParts, S1Lines, 9, 13);
    ConcatOnto(SourceParts, S1Lines, 10, 13);
    ConcatOnto(SourceParts, S1Lines, 11, 15);
    assert SourceParts[..12] == SourceParts;
    assert S1Lines[..15] == S1Lines;
  }

  lemma TargetPartsConcat()
    ensures Concat(TargetParts) == S2Lines
  {
    assert TargetParts[..0] == [];
    ConcatOnto(TargetParts, S2Lines, 0, 0);
    ConcatOnto(TargetParts, S2Lines, 1, 1);
    ConcatOnto(TargetParts, S2Lines, 2, 1);
    ConcatOnto(TargetParts, S2Lines, 3, 2);
    ConcatOnto(TargetParts, S2Lines, 4, 3);
    ConcatOnto(TargetParts, S2Lines, 5, 4);
    ConcatOnto(TargetParts, S2Lines, 6, 4);
    ConcatOnto(TargetParts, S2Lines, 7, 8);
    ConcatOnto(TargetParts, S2Lines, 8, 8);
    ConcatOnto(TargetParts, S2Lines, 9, 11);
    ConcatOnto(TargetParts, S2Lines, 10, 12);
    ConcatOnto(TargetParts, S2Lines, 11, 14);
    assert TargetParts[..12] == TargetParts;
    assert S2Lines[..15] == S2Lines;
  }

  /** Segment by segment, the vector's texts are the lines of the parts above. */
  lemma VectorParts()
    ensures seq(12, i requires 0 <= i < 12 => if Vector[i].op != Insert then Vector[i].text else []) ==
            seq(12, i requires 0 <= i < 12 => Lines(SourceParts[i]))
    ensures seq(12, i requires 0 <= i < 12 => if Vector[i].op != Delete then Vector[i].text else []) ==
            seq(12, i requires 0 <= i < 12 => Lines(TargetParts[i]))
  {
    VectorShape();
  }

  /** The vector is a diff of the test's two texts: its Equal and Delete texts
      spell `s1`, its Equal and Insert texts spell `s2`. */
  lemma VectorTexts()
    ensures SourceText(Vector) == S1
    ensures TargetText(Vector) == S2
  {
    VectorShape();
    VectorParts();
    LinesConcat(SourceParts);
    LinesConcat(TargetParts);
    SourcePartsConcat();
    TargetPartsConcat();
  }

  /** Running the renderer on the test vector writes the expected report. */
  method RenderVector() returns (out: string)
    ensures out == GoStrings.Join(ExpectedLines, "\n")
  {
    out := DiffLinesPrettyText(Config, Vector);
    VectorReport();
  }
}
