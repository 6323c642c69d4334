# go-diff report renderers in Dafny

A model of `diffmatchpatch/pretty.go` from go-diff: the three functions that
turn an already-computed diff list (each entry an operation — Insert, Delete or
Equal — and the text it applies to) into a report.

- `DiffPrettyHtml` writes, for every diff in order, an opening tag chosen by
  the operation (`<ins style=…>`, `<del style=…>` or `<span>`), the text
  HTML-escaped with every newline turned into `&para;<br>`, and the closing tag.
- `DiffPrettyText` writes Insert texts between `ESC[32m` and `ESC[0m`, Delete
  texts between `ESC[31m` and `ESC[0m`, and Equal texts unchanged.
- `DiffLinesPrettyText` writes a line report. It splits each segment's text on
  newlines, as `strings.Split` does, and skips the last piece of every segment
  but the final one. An Insert or Delete piece becomes `+` or `-`, then the
  configured spacing, then the piece. An Equal piece is written the same way
  with a space as its marker, but only inside the context windows: the first
  `Context` pieces after a change and the pieces from `len(split) - Context`
  on before one. A single newline goes before every row except the first. With
  colour on, each Insert or Delete segment is written between one colour code
  and one reset, however many rows it has.

Each function is a Dafny method that appends to a string buffer in the loops
of the original, with invariants tying the buffer to a specification
function. For the line renderer the loops also carry the `firstLine` flag. The
specification of the line renderer is a sequence of events, each a row or an
escape code, and the output is the layout of those events. The lemmas state
what the specifications promise: lengths, escaping, round trips, row counts,
context windows and colour bracketing. The repository's own test case for
`DiffLinesPrettyText` is proved as well.

The renderer names no header lines and groups nothing into hunks. Each Equal
segment decides on its own which of its pieces fall in a context window, and
the model does the same. So the trailing window of an Equal segment before a
change counts the skipped last piece: it shows `Context - 1` lines, while the
leading window shows `Context`. `LinesRows.FirstEqualRows` and
`LinesRows.MiddleEqualRows` state this.

Modules: `GoStrings` models `strings.Split` and `strings.Replace`, with
`strings.Count` and `strings.Join` for the contracts about them.
`GoHtml` models `html.EscapeString`. `Diffs` holds the diff record. `Pretty`
models the HTML and colour renderers. `LinesPretty` models the line renderer
and `LinesRows` the rows it writes per segment. `PrettyTestVector` holds the
repository's test case.

## Model

| member | source | states |
|---|---|---|
| `Pretty.DiffPrettyHtml` | diffmatchpatch/pretty.go:11-31 | the buffer ends up holding exactly the HTML report of the diff list, per-diff tag + escaped text + closing tag in order; an empty list gives the empty string |
| `Pretty.PrettyHtmlAppend` | diffmatchpatch/pretty.go:13-29 | the report of two diff lists one after the other is the two reports one after the other, so every diff's piece is independent of the others |
| `Pretty.HtmlTextNoNewline` | diffmatchpatch/pretty.go:14 | a segment's text, once escaped and with newlines replaced, contains no newline |
| `Pretty.PrettyHtmlNoNewline` | diffmatchpatch/pretty.go:13-30 | the whole HTML report contains no newline character |
| `Pretty.HtmlTextDecodes` | diffmatchpatch/pretty.go:14 | decoding the five entities and `&para;<br>` in a segment's rendered text gives back the original text, so every special character was escaped before the newline replacement and nothing raw survives |
| `GoHtml.EscapeChar` | diffmatchpatch/pretty.go:14 | `<`, `>`, `&`, `'` and `"` become an entity starting with `&`; every other character is kept as it is |
| `GoHtml.EscapeString` | diffmatchpatch/pretty.go:14 | `html.EscapeString`, each character replaced by its `GoHtml.EscapeChar` escape: the result is at least as long as the input and at most five times as long, and a text with none of the five special characters is returned unchanged; `GoHtml.EscapeStringSafe` proves what survives escaping |
| `GoHtml.EscapeStringSafe` | diffmatchpatch/pretty.go:14 | no raw `<`, `>`, `'` or `"` is left after escaping, and the escaped text has a newline exactly when the input has one |
| `Pretty.DiffPrettyText` | diffmatchpatch/pretty.go:34-54 | the buffer ends up holding exactly the colour report: Insert text between the green code and the reset, Delete text between the red code and the reset, Equal text unchanged, in order |
| `Pretty.PrettyTextAppend` | diffmatchpatch/pretty.go:36-51 | the colour report of two diff lists one after the other is the two reports one after the other |
| `Pretty.PrettyTextLength` | diffmatchpatch/pretty.go:34-54 | the report is as long as all the texts plus 9 characters per Insert or Delete |
| `Pretty.PrettyTextAllEqual` | diffmatchpatch/pretty.go:48-49 | a list of only Equal diffs renders as the plain concatenation of its texts |
| `Pretty.PrettyTextStripped` | diffmatchpatch/pretty.go:34-54 | when no text holds an escape character, removing the three codes from the report gives back the concatenated texts in order |
| `GoStrings.Split` | diffmatchpatch/pretty.go:85 | `strings.Split` on a newline yields one piece more than there are newlines, so the empty text yields one empty piece |
| `GoStrings.SplitPieces` | diffmatchpatch/pretty.go:85 | no piece contains a newline |
| `GoStrings.JoinSplit` | diffmatchpatch/pretty.go:85 | joining the pieces with newlines gives the text back |
| `GoStrings.SplitTrailingNewline` | diffmatchpatch/pretty.go:85 | a text ending in a newline has an empty last piece |
| `GoStrings.SplitJoin` | diffmatchpatch/pretty.go:69-78 | newline-free rows joined with newlines split back into exactly those rows |
| `GoStrings.ReplaceAll` | diffmatchpatch/pretty.go:14 | `strings.Replace(s, "\n", "&para;<br>", -1)` for a one-character target: every occurrence replaced, left to right; it has no contract of its own, and `GoStrings.ReplaceAllLength` and `GoStrings.ReplaceAllRemoves` state its length and that no occurrence is left |
| `GoStrings.ReplaceAllLength` | diffmatchpatch/pretty.go:14 | replacing every occurrence of a character changes the length by the replacement's length minus one per occurrence |
| `GoStrings.ReplaceAllRemoves` | diffmatchpatch/pretty.go:14 | when the replacement does not contain the character, no occurrence of it is left |
| `LinesPretty.PushLine` | diffmatchpatch/pretty.go:70-78 | writing one row adds a newline first unless no row was written yet, then marker + spacing + line; afterwards `firstLine` is false |
| `LinesPretty.PushPiece` | diffmatchpatch/pretty.go:86-125 | each `pushLine` call of the three piece loops, for a piece that is shown: the buffer becomes the layout of the segment's rows so far plus that piece's row, and `firstLine` stays tied to whether any row was written |
| `LinesPretty.WriteCode` | diffmatchpatch/pretty.go:82-108 | writing a colour code or a reset appends exactly its characters, adds an escape event and no row, so `firstLine` is unchanged |
| `LinesPretty.WriteChangedLines` | diffmatchpatch/pretty.go:86-91 | the piece loop of an Insert or Delete segment writes a row for every piece except the skipped last piece of a non-final segment |
| `LinesPretty.WriteChangedSegment` | diffmatchpatch/pretty.go:81-108 | an Insert or Delete segment writes its colour code (with colour on), its rows and its reset, and keeps `firstLine` true exactly when no row was written yet |
| `LinesPretty.WriteContextPiece` | diffmatchpatch/pretty.go:111-125 | one Equal piece is written when it is not the skipped last piece and lies in the leading window or the trailing window, and is skipped otherwise |
| `LinesPretty.WriteContextLines` | diffmatchpatch/pretty.go:110-126 | the piece loop of an Equal segment writes exactly the pieces in a context window |
| `LinesPretty.WriteEqualSegment` | diffmatchpatch/pretty.go:109-126 | an Equal segment writes its context rows and never an escape code |
| `LinesPretty.Shown` | diffmatchpatch/pretty.go:86-125 | the `continue` tests of the three piece loops: a piece is written unless it is the last piece of a non-final segment, and an Equal piece only when `diffIdx > 0 && li < Context` or `diffIdx < len - 1 && li >= len(split) - Context`; it has no contract of its own, and `LinesRows.ChangedRows`, `LinesRows.FirstEqualRows`, `LinesRows.FinalEqualRows` and `LinesRows.MiddleEqualRows` state the rows it selects |
| `LinesPretty.DiffLinesPrettyText` | diffmatchpatch/pretty.go:66-130 | the output is the layout of the events of every segment in order; without colour it is the rows joined by single newlines |
| `LinesPretty.Layout` | diffmatchpatch/pretty.go:69-78 | the text the buffer holds after a sequence of events: an escape code writes its characters, a row writes a newline first unless no row came before it; it has no contract of its own, and `LinesPretty.LayoutWithoutCodes`, `LinesPretty.PlainLayout` and `LinesPretty.OutputLines` state how it separates rows |
| `LinesPretty.LayoutWithoutCodes` | diffmatchpatch/pretty.go:69-78 | when no escape code is written, the newline-before-every-row-but-the-first rule lays the rows out as the rows joined by one newline, with none leading or trailing |
| `LinesPretty.SegmentEventsContents` | diffmatchpatch/pretty.go:79-127 | the rows a segment writes are its kept pieces; its escape codes are a colour code and a reset for an Insert or a Delete with colour on, and none otherwise |
| `LinesPretty.EventsRows` | diffmatchpatch/pretty.go:79-128 | the rows of the whole report are the segments' rows in order |
| `LinesPretty.ColorBracketing` | diffmatchpatch/pretty.go:82-108 | with colour on, the escape codes written are one colour code and one reset per Insert or Delete, in order, even for a segment that writes no row, and none for Equal; with colour off there are none |
| `LinesPretty.PlainLayout` | diffmatchpatch/pretty.go:69-79 | without colour the output is the rows joined by exactly one newline, and an empty diff list gives the empty string |
| `LinesPretty.AllRowsAvoid` | diffmatchpatch/pretty.go:70-78 | a character that is not a marker, not in the spacing and not in any text (or is the newline) appears in no row |
| `LinesPretty.NoEscapeWithoutColor` | diffmatchpatch/pretty.go:82-108 | with colour off, and no escape character in the spacing or the texts, the output holds no escape character |
| `LinesPretty.OutputLines` | diffmatchpatch/pretty.go:69-78 | without colour and with newline-free spacing, splitting the output on newlines gives back exactly the rows |
| `LinesRows.ChangedRows` | diffmatchpatch/pretty.go:85-91 | an Insert or Delete segment writes marker + spacing + piece for each piece but the last, and for the last too when it is the final segment: as many rows as its text has newlines, one more when final |
| `LinesRows.FinalEmptyRow` | diffmatchpatch/pretty.go:85-91 | the last row a final Insert or Delete segment writes, when its text ends in a newline, is just marker + spacing |
| `LinesRows.FinalEmptyReportRow` | diffmatchpatch/pretty_test.go:59-60 | a diff list whose final segment is an Insert or Delete ending in a newline ends the whole report with a row that is just marker + spacing, as the test's trailing `"+ "` row shows |
| `LinesRows.LoneEqual` | diffmatchpatch/pretty.go:109-126 | an Equal segment that is the only segment writes no row |
| `LinesRows.LoneEqualReport` | diffmatchpatch/pretty.go:66-130 | two identical texts, one Equal segment, give the empty report with colour on or off |
| `LinesRows.NoContext` | diffmatchpatch/pretty.go:116-125 | with a context of zero or less an Equal segment writes no row |
| `LinesRows.NoContextReport` | diffmatchpatch/pretty.go:79-128 | with a context of zero or less every row of the report starts with `+` or `-` |
| `LinesRows.FinalEqualRows` | diffmatchpatch/pretty.go:116-120 | a final Equal segment after a change writes its first `Context` pieces, or all of them when there are fewer |
| `LinesRows.FirstEqualRows` | diffmatchpatch/pretty.go:121-125 | a first Equal segment before a change writes the pieces from `len(split) - Context` up to the skipped last one, so `Context - 1` rows when the text is long enough |
| `LinesRows.MiddleEqualRows` | diffmatchpatch/pretty.go:111-125 | an Equal segment between changes writes `Context` pieces after the previous change and `Context - 1` before the next, `2 * Context - 1` rows in all when the windows do not meet, and otherwise every piece but the last |
| `PrettyTestVector.VectorReport` | diffmatchpatch/pretty_test.go:42-66 | the line diff of the test's two texts, with spacing `" "` and context 4, renders as the test's expected report, from its `"  "` first row to its `"+ baz"` and `"+ "` last rows |
| `PrettyTestVector.VectorTexts` | diffmatchpatch/pretty_test.go:10-41 | the Equal and Delete texts of the test's diff list spell the test's first text `s1`, and its Equal and Insert texts spell the second text `s2`, each line followed by a newline |
| `PrettyTestVector.RenderVector` | diffmatchpatch/pretty_test.go:61-66 | running the renderer method on that diff list returns the expected report |

## Left out

- `DiffLines` and the diff algorithm behind it: diff.go is not part of this model. `LinesPretty.DiffLinesPrettyText` takes the line-level diff list as its input, in place of the two texts.
- `PrettyTestVector.VectorReport`: the diff list is the one the expected output implies for the test's two texts, since `DiffLines` is not modelled; `PrettyTestVector.VectorTexts` proves that it rebuilds both texts, not that `DiffLines` would return it. The expected report is written as its list of lines joined by newlines, not as one string literal.
- Write errors of `bytes.Buffer`: the source discards them. The unused `*DiffMatchPatch` receiver is dropped too.
- UTF-8 and rune encoding: strings are sequences of characters, and `WriteRune` of an ASCII marker appends that one character.
- `Context` as a Go `int`: the model uses unbounded integers, so `len(split) - Context` cannot wrap around for extreme values.
- What ANSI escape codes do on a terminal: they are literal strings here.
- `GoHtml.EscapeString` covers only the five characters `html.EscapeString` replaces, not the rest of the `html` package.
- `LinesPretty.WriteChangedSegment` serves both the Insert and the Delete case of the switch. The two cases are the same code with a different marker and colour, so one method takes the operation as a parameter.
- `LinesPretty.WriteContextPiece`: the body of the Equal piece loop, with its `continue` branches, is its own method called from the loop in `LinesPretty.WriteContextLines`.
