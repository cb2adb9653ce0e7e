// `escapeHtml`: the text put into `innerHTML` with `& < > "` replaced by
// their character references, `null` and `undefined` read as "".

module Escape {
  import opened Wrappers

  /** The replacement table of the `replace` callback: the four special
      characters become references, every other character stays as it is, and
      each replacement is safe markup. */
  function EscapeChar(c: char): (r: string)
    ensures c !in "&<>\"" ==> r == [c]
    ensures Safe(r)
  {
    match c
    case '&' => "&amp;"
    case '<' => "&lt;"
    case '>' => "&gt;"
    case '"' => "&quot;"
    case _ => [c]
  }

  /** `s.replace(/[&<>"]/g, ...)`: each character replaced independently. */
  function EscapeText(s: string): (r: string)
    ensures |r| >= |s|
  {
    if s == [] then [] else EscapeChar(s[0]) + EscapeText(s[1..])
  }

  /** `escapeHtml(s)`: `(s || '')` turns a missing value into "". */
  function EscapeHtml(s: Option<string>): (r: string)
    ensures s.None? ==> r == ""
    ensures s.Some? ==> |r| >= |s.value|
  {
    match s
    case None => ""
    case Some(t) => EscapeText(t)
  }

  /** `s` begins with one of the four references the escaper writes. */
  predicate StartsReference(s: string)
  {
    "&amp;" <= s || "&lt;" <= s || "&gt;" <= s || "&quot;" <= s
  }

  /** Markup-safe text: no `<`, `>` or `"`, and every `&` opens a reference. */
  predicate Safe(r: string)
  {
    forall i :: 0 <= i < |r| ==>
      r[i] != '<' && r[i] != '>' && r[i] != '"' && (r[i] == '&' ==> StartsReference(r[i..]))
  }

  /** Decodes the four references back into their characters; any other
      character stands for itself. */
  function Unescape(s: string): string
    decreases |s|
  {
    if s == [] then []
    else if "&amp;" <= s then "&" + Unescape(s[5..])
    else if "&lt;" <= s then "<" + Unescape(s[4..])
    else if "&gt;" <= s then ">" + Unescape(s[4..])
    else if "&quot;" <= s then "\"" + Unescape(s[6..])
    else [s[0]] + Unescape(s[1..])
  }

  lemma SafeAppend(a: string, b: string)
    requires Safe(a) && Safe(b)
    ensures Safe(a + b)
  {
  }

  /** The output of the escaper is markup-safe. */
  lemma {:induction false} EscapeIsSafe(s: string)
    ensures Safe(EscapeText(s))
  {
    if s != [] {
      var e := EscapeChar(s[0]);
      EscapeIsSafe(s[1..]);
      SafeAppend(e, EscapeText(s[1..]));
    }
  }

  /** Decoding the references restores the text: the escaper loses nothing. */
  lemma {:induction false} UnescapeEscape(s: string)
    ensures Unescape(EscapeText(s)) == s
  {
    if s != [] {
      var rest := EscapeText(s[1..]);
      var e := EscapeChar(s[0]);
      UnescapeEscape(s[1..]);
      var r := e + rest;
      assert EscapeText(s) == r;
      assert r[|e|..] == rest;
      if s[0] == '&' {
        assert "&amp;" <= r;
      } else if s[0] == '<' {
        assert r[1] == 'l' && "&lt;" <= r;
      } else if s[0] == '>' {
        assert r[1] == 'g' && "&gt;" <= r;
      } else if s[0] == '"' {
        assert r[1] == 'q' && "&quot;" <= r;
      } else {
        assert r[0] == s[0];
      }
      assert s == [s[0]] + s[1..];
    }
  }

  /** Distinct texts escape to distinct markup. */
  lemma EscapeInjective(a: string, b: string)
    requires EscapeText(a) == EscapeText(b)
    ensures a == b
  {
    UnescapeEscape(a);
    UnescapeEscape(b);
  }

  /** `escapeHtml` of a missing value, and of "", is "". */
  lemma EscapeHtmlEmpty()
    ensures EscapeHtml(None) == "" && EscapeHtml(Some("")) == ""
  {
  }
}
