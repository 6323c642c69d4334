/** Which rows one segment of `DiffLinesPrettyText` writes, stated piece range
    by piece range: the row counts of Insert and Delete segments, the empty
    final row, and the context windows of Equal segments (including their
    edges: a lone Equal segment, a non-positive context, and a trailing window
    that counts the skipped last piece). */
module LinesRows {
  import opened Diffs
  import GoStrings
  import opened LinesPretty

  /** The rows of pieces `a` up to (not including) `b`, with the marker of `op`. */
  function PieceRows(op: Operation, spacing: string, pieces: seq<string>, a: nat, b: nat): seq<string>
    requires a <= b <= |pieces|
  {
    seq(b - a, k requires 0 <= k < b - a => Row(Marker(op), spacing, pieces[a + k]))
  }

  /** Pieces that are not shown add no rows. */
  lemma {:induction false} KeptNone(op: Operation, spacing: string, context: int, pieces: seq<string>,
                                    diffIdx: int, n: int, a: nat, b: nat)
    requires a <= b <= |pieces|
    requires forall li :: a <= li < b ==> !Shown(op, context, |pieces|, diffIdx, n, li)
    ensures KeptRows(op, spacing, context, pieces, diffIdx, n, b) == KeptRows(op, spacing, context, pieces, diffIdx, n, a)
    decreases b
  {
    if a < b {
      KeptNone(op, spacing, context, pieces, diffIdx, n, a, b - 1);
      KeptSkip(op, spacing, context, pieces, diffIdx, n, b - 1);
    }
  }

  /** Pieces that are all shown add their rows, in order. */
  lemma {:induction false} KeptAll(op: Operation, spacing: string, context: int, pieces: seq<string>,
                                   diffIdx: int, n: int, a: nat, b: nat)
    requires a <= b <= |pieces|
    requires forall li :: a <= li < b ==> Shown(op, context, |pieces|, diffIdx, n, li)
    ensures KeptRows(op, spacing, context, pieces, diffIdx, n, b) ==
            KeptRows(op, spacing, context, pieces, diffIdx, n, a) + PieceRows(op, spacing, pieces, a, b)
    decreases b
  {
    if a < b {
      KeptAll(op, spacing, context, pieces, diffIdx, n, a, b - 1);
      KeptShow(op, spacing, context, pieces, diffIdx, n, b - 1);
      var row := Row(Marker(op), spacing, pieces[b - 1]);
      assert PieceRows(op, spacing, pieces, a, b) == PieceRows(op, spacing, pieces, a, b - 1) + [row];
      GoStrings.Append2(KeptRows(op, spacing, context, pieces, diffIdx, n, a), PieceRows(op, spacing, pieces, a, b - 1), [row]);
    } else {
      assert PieceRows(op, spacing, pieces, a, b) == [];
    }
  }

  // ---------------------------------------------------------------------------
  // Insert and Delete segments
  // ---------------------------------------------------------------------------

  /** An Insert or Delete segment writes one row per piece, marker + spacing +
      piece, except that the last piece is skipped unless the segment is the
      final one: a non-final segment writes as many rows as its text has
      newlines, the final segment one more. */
  lemma ChangedRows(config: LinesPrettyConfig, d: Diff, diffIdx: int, n: int)
    requires d.op != Equal
    ensures var pieces := GoStrings.Split(d.text);
            SegmentRows(config, d, diffIdx, n) ==
            PieceRows(d.op, config.spacing, pieces, 0, if diffIdx < n - 1 then |pieces| - 1 else |pieces|)
    ensures |SegmentRows(config, d, diffIdx, n)| == GoStrings.Count(d.text, '\n') + (if diffIdx < n - 1 then 0 else 1)
  {
    var pieces := GoStrings.Split(d.text);
    var last := |pieces| - 1;
    KeptAll(d.op, config.spacing, config.context, pieces, diffIdx, n, 0, last);
    if diffIdx < n - 1 {
      KeptSkip(d.op, config.spacing, config.context, pieces, diffIdx, n, last);
    } else {
      KeptAll(d.op, config.spacing, config.context, pieces, diffIdx, n, 0, last + 1);
    }
  }

  /** The final segment, when it is an Insert or a Delete whose text ends in a
      newline, ends the report with a row that is just marker + spacing. */
  lemma FinalEmptyRow(config: LinesPrettyConfig, d: Diff, n: int)
    requires d.op != Equal && d.text != [] && d.text[|d.text| - 1] == '\n'
    ensures var rows := SegmentRows(config, d, n - 1, n);
            rows != [] && rows[|rows| - 1] == [Marker(d.op)] + config.spacing
  {
    ChangedRows(config, d, n - 1, n);
    GoStrings.SplitTrailingNewline(d.text);
    var pieces := GoStrings.Split(d.text);
    assert PieceRows(d.op, config.spacing, pieces, 0, |pieces|)[|pieces| - 1] == Row(Marker(d.op), config.spacing, []);
  }

  /** So a diff list whose final segment is such an Insert or Delete ends the
      whole report with that row. */
  lemma FinalEmptyReportRow(config: LinesPrettyConfig, diffs: seq<Diff>)
    requires diffs != []
    requires var d := diffs[|diffs| - 1];
             d.op != Equal && d.text != [] && d.text[|d.text| - 1] == '\n'
    ensures var rows := AllRows(config, diffs);
            rows != [] && rows[|rows| - 1] == [Marker(diffs[|diffs| - 1].op)] + config.spacing
  {
    var n := |diffs|;
    var rs := SegmentRowLists(config, diffs);
    FinalEmptyRow(config, diffs[n - 1], n);
    assert rs[n - 1] == SegmentRows(config, diffs[n - 1], n - 1, n);
    assert AllRows(config, diffs) == Concat(rs[..n - 1]) + rs[n - 1];
  }

  // ---------------------------------------------------------------------------
  // Equal segments
  // ---------------------------------------------------------------------------

  /** A diff list of one Equal segment (two identical texts) writes no row. */
  lemma LoneEqual(config: LinesPrettyConfig, d: Diff)
    requires d.op == Equal
    ensures SegmentRows(config, d, 0, 1) == []
  {
    var pieces := GoStrings.Split(d.text);
    KeptNone(Equal, config.spacing, config.context, pieces, 0, 1, 0, |pieces|);
  }

  /** Identical texts give an empty report, with or without colour. */
  lemma LoneEqualReport(config: LinesPrettyConfig, t: string)
    ensures Layout(Events(config, [Diff(Equal, t)])) == []
  {
    var diffs := [Diff(Equal, t)];
    LoneEqual(config, diffs[0]);
    var segment := SegmentEvents(config, diffs[0], 0, 1);
    assert segment == LineEvents([]) == [];
    var segments := SegmentEventLists(config, diffs);
    assert segments == [segment];
    assert segments[..0] == [];
    assert Events(config, diffs) == Concat(segments[..0]) + segment == [];
  }

  /** With a context of zero or less no Equal piece is written. */
  lemma NoContext(config: LinesPrettyConfig, d: Diff, diffIdx: int, n: int)
    requires d.op == Equal && config.context <= 0
    ensures SegmentRows(config, d, diffIdx, n) == []
  {
    var pieces := GoStrings.Split(d.text);
    KeptNone(Equal, config.spacing, config.context, pieces, diffIdx, n, 0, |pieces|);
  }

  /** With a context of zero or less every row of the report is an Insert or a
      Delete row. */
  lemma NoContextReport(config: LinesPrettyConfig, diffs: seq<Diff>)
    requires config.context <= 0
    ensures forall j :: 0 <= j < |AllRows(config, diffs)| ==>
              AllRows(config, diffs)[j] != [] && AllRows(config, diffs)[j][0] in "+-"
  {
    var rs := SegmentRowLists(config, diffs);
    var changed := (r: string) => r != [] && r[0] in "+-";
    forall i, j | 0 <= i < |rs| && 0 <= j < |rs[i]|
      ensures changed(rs[i][j])
    {
      var d := diffs[i];
      if d.op == Equal {
        NoContext(config, d, i, |diffs|);
      } else {
        ChangedRows(config, d, i, |diffs|);
        assert rs[i][j][0] == Marker(d.op);
      }
    }
    ConcatEvery(rs, changed);
  }

  /** An Equal segment after the last change (the final segment, with a change
      before it) writes only its leading window: its first `Context` pieces,
      or all of them when there are fewer. */
  lemma FinalEqualRows(config: LinesPrettyConfig, d: Diff, n: int)
    requires d.op == Equal && n > 1 && config.context >= 0
    ensures var pieces := GoStrings.Split(d.text);
            var m := if config.context < |pieces| then config.context else |pieces|;
            SegmentRows(config, d, n - 1, n) == PieceRows(Equal, config.spacing, pieces, 0, m)
  {
    var pieces := GoStrings.Split(d.text);
    var m := if config.context < |pieces| then config.context else |pieces|;
    KeptAll(Equal, config.spacing, config.context, pieces, n - 1, n, 0, m);
    KeptNone(Equal, config.spacing, config.context, pieces, n - 1, n, m, |pieces|);
  }

  /** An Equal segment before the first change (the first segment, with a
      change after it) writes only its trailing window, the pieces from
      `len(split) - Context` on; but the window includes the skipped last
      piece, so it shows one piece fewer than `Context`. */
  lemma FirstEqualRows(config: LinesPrettyConfig, d: Diff, n: int)
    requires d.op == Equal && n > 1 && config.context >= 1
    ensures var pieces := GoStrings.Split(d.text);
            var lo := if config.context < |pieces| then |pieces| - config.context else 0;
            SegmentRows(config, d, 0, n) == PieceRows(Equal, config.spacing, pieces, lo, |pieces| - 1)
    ensures |SegmentRows(config, d, 0, n)| ==
            (if config.context < |GoStrings.Split(d.text)| then config.context else |GoStrings.Split(d.text)|) - 1
  {
    var pieces := GoStrings.Split(d.text);
    var lo := if config.context < |pieces| then |pieces| - config.context else 0;
    KeptNone(Equal, config.spacing, config.context, pieces, 0, n, 0, lo);
    KeptAll(Equal, config.spacing, config.context, pieces, 0, n, lo, |pieces| - 1);
    KeptSkip(Equal, config.spacing, config.context, pieces, 0, n, |pieces| - 1);
  }

  /** An Equal segment between two changes writes its leading and its trailing
      window and skips its last piece. When the windows do not overlap that is
      `Context` pieces after the previous change and `Context - 1` before the
      next one, `2 * Context - 1` rows in all; when they overlap every piece
      but the last is written. */
  lemma MiddleEqualRows(config: LinesPrettyConfig, d: Diff, diffIdx: int, n: int)
    requires d.op == Equal && 0 < diffIdx < n - 1 && config.context >= 1
    ensures var pieces := GoStrings.Split(d.text);
            2 * config.context <= |pieces| ==>
            SegmentRows(config, d, diffIdx, n) ==
            PieceRows(Equal, config.spacing, pieces, 0, config.context) +
            PieceRows(Equal, config.spacing, pieces, |pieces| - config.context, |pieces| - 1)
    ensures var pieces := GoStrings.Split(d.text);
            |pieces| < 2 * config.context ==>
            SegmentRows(config, d, diffIdx, n) == PieceRows(Equal, config.spacing, pieces, 0, |pieces| - 1)
    ensures 2 * config.context <= |GoStrings.Split(d.text)| ==>
            |SegmentRows(config, d, diffIdx, n)| == 2 * config.context - 1
  {
    var pieces := GoStrings.Split(d.text);
    var c := config.context;
    var last := |pieces| - 1;
    if 2 * c <= |pieces| {
      KeptAll(Equal, config.spacing, c, pieces, diffIdx, n, 0, c);
      KeptNone(Equal, config.spacing, c, pieces, diffIdx, n, c, |pieces| - c);
      KeptAll(Equal, config.spacing, c, pieces, diffIdx, n, |pieces| - c, last);
      GoStrings.Append2(KeptRows(Equal, config.spacing, c, pieces, diffIdx, n, 0),
                        PieceRows(Equal, config.spacing, pieces, 0, c),
                        PieceRows(Equal, config.spacing, pieces, |pieces| - c, last));
    } else {
      KeptAll(Equal, config.spacing, c, pieces, diffIdx, n, 0, last);
    }
    KeptSkip(Equal, config.spacing, c, pieces, diffIdx, n, last);
  }
}
