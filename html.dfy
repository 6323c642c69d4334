/** Go's `html.EscapeString`: it replaces exactly the five characters
    `<`, `>`, `&`, `'` and `"` by `&lt;`, `&gt;`, `&amp;`, `&#39;` and `&#34;`
    and copies every other character. */
module GoHtml {

  /** The characters `html.EscapeString` rewrites. */
  predicate IsSpecial(c: char)
  {
    c == '<' || c == '>' || c == '&' || c == '\'' || c == '"'
  }

  /** A character that cannot open a tag or close an attribute value. */
  predicate Safe(c: char)
  {
    c != '<' && c != '>' && c != '\'' && c != '"'
  }

  /** The replacement of one character. */
  function EscapeChar(c: char): (r: string)
    ensures IsSpecial(c) ==> |r| > 1 && r[0] == '&'
    ensures !IsSpecial(c) ==> r == [c]
  {
    match c
    case '<' => "&lt;"
    case '>' => "&gt;"
    case '&' => "&amp;"
    case '\'' => "&#39;"
    case '"' => "&#34;"
    case _ => [c]
  }

  /** `html.EscapeString(s)`: each character replaced by its escape. */
  function EscapeString(s: string): (r: string)
    ensures |s| <= |r| <= 5 * |s|
    ensures (forall k :: 0 <= k < |s| ==> !IsSpecial(s[k])) ==> r == s
  {
    if s == [] then []
    else EscapeChar(s[0]) + EscapeString(s[1..])
  }

  /** No raw `<`, `>`, `'` or `"` is left, and a newline is copied exactly when
      the input has one. */
  lemma {:induction false} EscapeStringSafe(s: string)
    ensures forall k :: 0 <= k < |EscapeString(s)| ==> Safe(EscapeString(s)[k])
    ensures '\n' in EscapeString(s) <==> '\n' in s
  {
    if s != [] {
      EscapeStringSafe(s[1..]);
      var head := EscapeChar(s[0]);
      var rest := EscapeString(s[1..]);
      assert forall k :: 0 <= k < |head| ==> Safe(head[k]);
      assert '\n' in head <==> s[0] == '\n';
      assert EscapeString(s) == head + rest;
      assert s == [s[0]] + s[1..];
    }
  }
}
