/** `DiffPrettyHtml` and `DiffPrettyText` of diffmatchpatch/pretty.go: two
    renderers that write one piece of output per diff, in order, into a buffer.
    Each renderer is a method over a string accumulator, proved to compute a
    recursive specification function; the lemmas below state what that function
    promises. */
module Pretty {
  import opened Diffs
  import GoStrings
  import GoHtml

  datatype Option<T> = None | Some(value: T)

  /** The terminal escape codes the renderers write, taken literally. */
  const Green: string := "\U{1B}[32m"
  const Red: string := "\U{1B}[31m"
  const Reset: string := "\U{1B}[0m"

  /** What every newline of a segment's escaped text becomes in the HTML report. */
  const ParaBreak: string := "&para;<br>"

  predicate HasPrefix(s: string, p: string)
  {
    |p| <= |s| && s[..|p|] == p
  }

  // ---------------------------------------------------------------------------
  // DiffPrettyHtml
  // ---------------------------------------------------------------------------

  function OpenTag(op: Operation): string
  {
    match op
    case Insert => "<ins style=\"background:#e6ffe6;\">"
    case Delete => "<del style=\"background:#ffe6e6;\">"
    case Equal => "<span>"
  }

  function CloseTag(op: Operation): string
  {
    match op
    case Insert => "</ins>"
    case Delete => "</del>"
    case Equal => "</span>"
  }

  /** A segment's text as it appears in the report: HTML-escaped first, then
      every newline replaced by `&para;<br>`. */
  function HtmlText(t: string): string
  {
    GoStrings.ReplaceAll(GoHtml.EscapeString(t), '\n', ParaBreak)
  }

  function HtmlSegment(d: Diff): string
  {
    OpenTag(d.op) + HtmlText(d.text) + CloseTag(d.op)
  }

  /** The HTML report: the segments' renderings in order, with no outer element. */
  function PrettyHtml(diffs: seq<Diff>): string
  {
    if diffs == [] then [] else HtmlSegment(diffs[0]) + PrettyHtml(diffs[1..])
  }

  lemma PrettyHtmlAdvance(diffs: seq<Diff>, i: nat, done: string)
    requires i < |diffs|
    requires PrettyHtml(diffs) == done + PrettyHtml(diffs[i..])
    ensures PrettyHtml(diffs) == (done + HtmlSegment(diffs[i])) + PrettyHtml(diffs[i + 1..])
  {
    assert diffs[i..][1..] == diffs[i + 1..];
    assert PrettyHtml(diffs[i..]) == HtmlSegment(diffs[i]) + PrettyHtml(diffs[i + 1..]);
    GoStrings.Append2(done, HtmlSegment(diffs[i]), PrettyHtml(diffs[i + 1..]));
  }

  /** The loop of `DiffPrettyHtml`: each diff appends its opening tag, its
      escaped text and its closing tag to the buffer. */
  method DiffPrettyHtml(diffs: seq<Diff>) returns (html: string)
    ensures html == PrettyHtml(diffs)
    ensures diffs == [] ==> html == []
  {
    var buff: string := [];
    for i := 0 to |diffs|
      invariant PrettyHtml(diffs) == buff + PrettyHtml(diffs[i..])
    {
      var diff := diffs[i];
      ghost var before := buff;
      var text := GoStrings.ReplaceAll(GoHtml.EscapeString(diff.text), '\n', ParaBreak);
      match diff.op {
        case Insert =>
          buff := buff + "<ins style=\"background:#e6ffe6;\">";
          buff := buff + text;
          buff := buff + "</ins>";
        case Delete =>
          buff := buff + "<del style=\"background:#ffe6e6;\">";
          buff := buff + text;
          buff := buff + "</del>";
        case Equal =>
          buff := buff + "<span>";
          buff := buff + text;
          buff := buff + "</span>";
      }
      GoStrings.Append3(before, OpenTag(diff.op), text, CloseTag(diff.op));
      PrettyHtmlAdvance(diffs, i, before);
    }
    html := buff;
  }

  /** Rendering a list is rendering its two halves one after the other. */
  lemma {:induction false} PrettyHtmlAppend(a: seq<Diff>, b: seq<Diff>)
    ensures PrettyHtml(a + b) == PrettyHtml(a) + PrettyHtml(b)
  {
    if a == [] {
      assert a + b == b;
    } else {
      assert (a + b)[0] == a[0];
      assert (a + b)[1..] == a[1..] + b;
      PrettyHtmlAppend(a[1..], b);
    }
  }

  /** A segment's text never contributes a newline. */
  lemma HtmlTextNoNewline(t: string)
    ensures '\n' !in HtmlText(t)
  {
    GoStrings.ReplaceAllRemoves(GoHtml.EscapeString(t), '\n', ParaBreak);
  }

  lemma OpenTagNoNewline(op: Operation)
    ensures '\n' !in OpenTag(op)
  {
    var tag := OpenTag(op);
    forall k | 0 <= k < |tag| ensures tag[k] != '\n' {}
  }

  lemma CloseTagNoNewline(op: Operation)
    ensures '\n' !in CloseTag(op)
  {
    var tag := CloseTag(op);
    forall k | 0 <= k < |tag| ensures tag[k] != '\n' {}
  }

  /** The HTML report is a single line: every newline became `&para;<br>`. */
  lemma {:induction false} PrettyHtmlNoNewline(diffs: seq<Diff>)
    ensures '\n' !in PrettyHtml(diffs)
  {
    if diffs != [] {
      var d := diffs[0];
      HtmlTextNoNewline(d.text);
      PrettyHtmlNoNewline(diffs[1..]);
      OpenTagNoNewline(d.op);
      CloseTagNoNewline(d.op);
      assert HtmlSegment(d) == OpenTag(d.op) + HtmlText(d.text) + CloseTag(d.op);
      assert PrettyHtml(diffs) == HtmlSegment(d) + PrettyHtml(diffs[1..]);
    }
  }

  function PrependChar(c: char, o: Option<string>): Option<string>
  {
    match o
    case None => None
    case Some(s) => Some([c] + s)
  }

  /** A strict reader of a segment's HTML text: it accepts the five entities and
      `&para;<br>`, and rejects every raw `<`, `>`, `&`, `'`, `"` and newline. */
  function DecodeHtmlText(s: string): Option<string>
    decreases |s|
  {
    if s == [] then Some([])
    else if s[0] == '&' then
      if HasPrefix(s, ParaBreak) then PrependChar('\n', DecodeHtmlText(s[10..]))
      else if HasPrefix(s, "&lt;") then PrependChar('<', DecodeHtmlText(s[4..]))
      else if HasPrefix(s, "&gt;") then PrependChar('>', DecodeHtmlText(s[4..]))
      else if HasPrefix(s, "&amp;") then PrependChar('&', DecodeHtmlText(s[5..]))
      else if HasPrefix(s, "&#39;") then PrependChar('\'', DecodeHtmlText(s[5..]))
      else if HasPrefix(s, "&#34;") then PrependChar('"', DecodeHtmlText(s[5..]))
      else None
    else if s[0] == '<' || s[0] == '>' || s[0] == '\'' || s[0] == '"' || s[0] == '\n' then None
    else PrependChar(s[0], DecodeHtmlText(s[1..]))
  }

  /** What one character of a segment's text becomes. */
  function HtmlChar(c: char): string
  {
    if c == '\n' then ParaBreak else GoHtml.EscapeChar(c)
  }

  lemma HtmlTextCons(t: string)
    requires t != []
    ensures HtmlText(t) == HtmlChar(t[0]) + HtmlText(t[1..])
  {
    var e := GoHtml.EscapeChar(t[0]);
    GoStrings.ReplaceAllAppend(e, GoHtml.EscapeString(t[1..]), '\n', ParaBreak);
    if t[0] != '\n' {
      GoStrings.ReplaceAllAbsent(e, '\n', ParaBreak);
    }
  }

  lemma DecodeHtmlChar(c: char, rest: string)
    ensures DecodeHtmlText(HtmlChar(c) + rest) == PrependChar(c, DecodeHtmlText(rest))
  {
    var s := HtmlChar(c) + rest;
    var h := HtmlChar(c);
    assert s[..|h|] == h;
    assert s[|h|..] == rest;
    if GoHtml.IsSpecial(c) || c == '\n' {
      assert s[0] == '&';
      assert |s| >= 10 ==> s[..10][1] == s[1] == h[1];
      assert |s| >= 4 ==> s[..4][1] == s[1] == h[1];
      assert |s| >= 5 ==> s[..5][1] == s[1] == h[1] && s[..5][2] == s[2] == h[2];
    } else {
      assert s[0] == c;
    }
  }

  /** Decoding a segment's HTML text gives the segment's text back. Because the
      reader rejects raw special characters, this shows that escaping leaves no
      raw `<`, `>`, `&`, `'`, `"` or newline from the text, and that the
      rendering loses nothing. */
  lemma {:induction false} HtmlTextDecodes(t: string)
    ensures DecodeHtmlText(HtmlText(t)) == Some(t)
  {
    if t == [] {
    } else {
      HtmlTextCons(t);
      DecodeHtmlChar(t[0], HtmlText(t[1..]));
      HtmlTextDecodes(t[1..]);
      assert [t[0]] + t[1..] == t;
    }
  }

  // ---------------------------------------------------------------------------
  // DiffPrettyText
  // ---------------------------------------------------------------------------

  function TextSegment(d: Diff): string
  {
    match d.op
    case Insert => Green + d.text + Reset
    case Delete => Red + d.text + Reset
    case Equal => d.text
  }

  /** The coloured text report: the segments' renderings in order. */
  function PrettyText(diffs: seq<Diff>): string
  {
    if diffs == [] then [] else TextSegment(diffs[0]) + PrettyText(diffs[1..])
  }

  lemma PrettyTextAdvance(diffs: seq<Diff>, i: nat, done: string)
    requires i < |diffs|
    requires PrettyText(diffs) == done + PrettyText(diffs[i..])
    ensures PrettyText(diffs) == (done + TextSegment(diffs[i])) + PrettyText(diffs[i + 1..])
  {
    assert diffs[i..][1..] == diffs[i + 1..];
    assert PrettyText(diffs[i..]) == TextSegment(diffs[i]) + PrettyText(diffs[i + 1..]);
    GoStrings.Append2(done, TextSegment(diffs[i]), PrettyText(diffs[i + 1..]));
  }

  /** The loop of `DiffPrettyText`: Insert and Delete texts are bracketed by a
      colour code and a reset, Equal texts are copied. */
  method DiffPrettyText(diffs: seq<Diff>) returns (text: string)
    ensures text == PrettyText(diffs)
  {
    var buff: string := [];
    for i := 0 to |diffs|
      invariant PrettyText(diffs) == buff + PrettyText(diffs[i..])
    {
      var diff := diffs[i];
      ghost var before := buff;
      match diff.op {
        case Insert =>
          buff := buff + "\U{1B}[32m";
          buff := buff + diff.text;
          buff := buff + "\U{1B}[0m";
          GoStrings.Append3(before, Green, diff.text, Reset);
        case Delete =>
          buff := buff + "\U{1B}[31m";
          buff := buff + diff.text;
          buff := buff + "\U{1B}[0m";
          GoStrings.Append3(before, Red, diff.text, Reset);
        case Equal =>
          buff := buff + diff.text;
      }
      assert buff == before + TextSegment(diff);
      PrettyTextAdvance(diffs, i, before);
    }
    text := buff;
  }

  /** All segment texts, in order. */
  function Texts(diffs: seq<Diff>): string
  {
    if diffs == [] then [] else diffs[0].text + Texts(diffs[1..])
  }

  /** Number of Insert and Delete segments. */
  function ChangeCount(diffs: seq<Diff>): nat
  {
    if diffs == [] then 0 else (if diffs[0].op == Equal then 0 else 1) + ChangeCount(diffs[1..])
  }

  lemma {:induction false} PrettyTextAppend(a: seq<Diff>, b: seq<Diff>)
    ensures PrettyText(a + b) == PrettyText(a) + PrettyText(b)
  {
    if a == [] {
      assert a + b == b;
    } else {
      assert (a + b)[0] == a[0];
      assert (a + b)[1..] == a[1..] + b;
      PrettyTextAppend(a[1..], b);
    }
  }

  /** Each Insert or Delete segment adds nine characters of escape codes. */
  lemma {:induction false} PrettyTextLength(diffs: seq<Diff>)
    ensures |PrettyText(diffs)| == |Texts(diffs)| + 9 * ChangeCount(diffs)
  {
    if diffs != [] {
      PrettyTextLength(diffs[1..]);
    }
  }

  /** A list of Equal segments renders as its plain text. */
  lemma {:induction false} PrettyTextAllEqual(diffs: seq<Diff>)
    requires forall k :: 0 <= k < |diffs| ==> diffs[k].op == Equal
    ensures PrettyText(diffs) == Texts(diffs)
  {
    if diffs != [] {
      PrettyTextAllEqual(diffs[1..]);
    }
  }

  /** Removes the three escape codes the text renderer writes. */
  function StripColors(s: string): string
    decreases |s|
  {
    if s == [] then []
    else if s[0] != '\U{1B}' then [s[0]] + StripColors(s[1..])
    else if HasPrefix(s, Green) then StripColors(s[5..])
    else if HasPrefix(s, Red) then StripColors(s[5..])
    else if HasPrefix(s, Reset) then StripColors(s[4..])
    else [s[0]] + StripColors(s[1..])
  }

  lemma StripColorsCode(code: string, rest: string)
    requires code == Green || code == Red || code == Reset
    ensures StripColors(code + rest) == StripColors(rest)
  {
    var s := code + rest;
    assert s[..|code|] == code;
    assert s[|code|..] == rest;
    assert |s| >= 5 ==> s[..5][3] == s[3];
  }

  lemma {:induction false} StripColorsPlain(t: string, rest: string)
    requires '\U{1B}' !in t
    ensures StripColors(t + rest) == t + StripColors(rest)
  {
    if t == [] {
      assert t + rest == rest;
    } else {
      var s := t + rest;
      assert s[0] == t[0] && t[0] != '\U{1B}';
      assert s[1..] == t[1..] + rest;
      assert '\U{1B}' !in t[1..] by {
        forall k | 0 <= k < |t[1..]| ensures t[1..][k] != '\U{1B}' {
          assert t[1..][k] == t[k + 1];
        }
      }
      StripColorsPlain(t[1..], rest);
      assert [t[0]] + t[1..] == t;
    }
  }

  /** One segment, with its codes removed, leaves its text. */
  lemma StripColorsSegment(d: Diff, rest: string)
    requires '\U{1B}' !in d.text
    ensures StripColors(TextSegment(d) + rest) == d.text + StripColors(rest)
  {
    match d.op {
      case Insert =>
        GoStrings.Append3(Green, d.text, Reset, rest);
        GoStrings.Append2(d.text, Reset, rest);
        StripColorsCode(Green, d.text + (Reset + rest));
        StripColorsPlain(d.text, Reset + rest);
        StripColorsCode(Reset, rest);
      case Delete =>
        GoStrings.Append3(Red, d.text, Reset, rest);
        GoStrings.Append2(d.text, Reset, rest);
        StripColorsCode(Red, d.text + (Reset + rest));
        StripColorsPlain(d.text, Reset + rest);
        StripColorsCode(Reset, rest);
      case Equal =>
        StripColorsPlain(d.text, rest);
    }
  }

  /** With the escape codes removed, the text report is the segments' texts in
      order, provided the texts themselves contain no escape character. */
  lemma {:induction false} PrettyTextStripped(diffs: seq<Diff>)
    requires forall k :: 0 <= k < |diffs| ==> '\U{1B}' !in diffs[k].text
    ensures StripColors(PrettyText(diffs)) == Texts(diffs)
  {
    if diffs != [] {
      assert '\U{1B}' !in diffs[0].text;
      PrettyTextStripped(diffs[1..]);
      StripColorsSegment(diffs[0], PrettyText(diffs[1..]));
    }
  }
}
