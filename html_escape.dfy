/**
 * `escapeHtml` (script.js:207-215): the five characters that are special in HTML
 * text and attribute values are replaced by entities; everything else is kept.
 */
module HtmlEscape {

  /** The characters `escapeHtml` rewrites. */
  predicate IsSpecial(c: char) {
    c == '&' || c == '<' || c == '>' || c == '"' || c == '\''
  }

  /** Characters that never appear raw in escaped output. */
  predicate IsMarkup(c: char) {
    c == '<' || c == '>' || c == '"' || c == '\''
  }

  predicate NoRawMarkup(s: string) {
    forall i :: 0 <= i < |s| ==> !IsMarkup(s[i])
  }

  /** The replacement table of the source's regular-expression callback. */
  function EscapeChar(c: char): (r: string)
    ensures |r| >= 1 && NoRawMarkup(r)
    ensures !IsSpecial(c) <==> r == [c]
  {
    if c == '&' then "&amp;"
    else if c == '<' then "&lt;"
    else if c == '>' then "&gt;"
    else if c == '"' then "&quot;"
    else if c == '\'' then "&#39;"
    else [c]
  }

  /** `escapeHtml(str)`: every character replaced by its table entry, left to right. */
  function EscapeHtml(s: string): (r: string)
    ensures |r| >= |s|
    ensures NoRawMarkup(r)
  {
    if |s| == 0 then "" else EscapeChar(s[0]) + EscapeHtml(s[1..])
  }

  /** Escaping distributes over concatenation. */
  lemma {:induction false} EscapeHtmlAppend(a: string, b: string)
    ensures EscapeHtml(a + b) == EscapeHtml(a) + EscapeHtml(b)
    decreases |a|
  {
    if |a| > 0 {
      assert (a + b)[0] == a[0] && (a + b)[1..] == a[1..] + b;
      EscapeHtmlAppend(a[1..], b);
    } else {
      assert a + b == b;
    }
  }

  /** Text without special characters passes through unchanged. */
  lemma {:induction false} EscapeHtmlIdentity(s: string)
    requires forall i :: 0 <= i < |s| ==> !IsSpecial(s[i])
    ensures EscapeHtml(s) == s
  {
    if |s| > 0 {
      EscapeHtmlIdentity(s[1..]);
    }
  }

  /** Decoder for exactly the five entities `escapeHtml` produces. */
  function UnescapeHtml(s: string): string
  {
    if |s| == 0 then ""
    else if "&amp;" <= s then "&" + UnescapeHtml(s[5..])
    else if "&lt;" <= s then "<" + UnescapeHtml(s[4..])
    else if "&gt;" <= s then ">" + UnescapeHtml(s[4..])
    else if "&quot;" <= s then "\"" + UnescapeHtml(s[6..])
    else if "&#39;" <= s then "'" + UnescapeHtml(s[5..])
    else [s[0]] + UnescapeHtml(s[1..])
  }

  /** Decoding an entity followed by more text: the character, then the decoded rest. */
  lemma UnescapeEntity(entity: string, c: char, rest: string)
    requires (entity, c) in {("&amp;", '&'), ("&lt;", '<'), ("&gt;", '>'), ("&quot;", '"'), ("&#39;", '\'')}
    ensures UnescapeHtml(entity + rest) == [c] + UnescapeHtml(rest)
  {
    var e := entity + rest;
    assert e[..|entity|] == entity && e[|entity|..] == rest;
    assert e[0] == '&' && e[1] == entity[1];
  }

  /** Decoding a plain character followed by more text. */
  lemma UnescapePlain(c: char, rest: string)
    requires !IsSpecial(c)
    ensures UnescapeHtml([c] + rest) == [c] + UnescapeHtml(rest)
  {
    var e := [c] + rest;
    assert e[0] == c && e[1..] == rest;
  }

  lemma UnescapeEscapeChar(c: char, rest: string)
    ensures UnescapeHtml(EscapeChar(c) + rest) == [c] + UnescapeHtml(rest)
  {
    if IsSpecial(c) {
      UnescapeEntity(EscapeChar(c), c, rest);
    } else {
      UnescapePlain(c, rest);
    }
  }

  /** Escaping is invertible: no information is lost. */
  lemma {:induction false} UnescapeEscape(s: string)
    ensures UnescapeHtml(EscapeHtml(s)) == s
  {
    if |s| > 0 {
      UnescapeEscapeChar(s[0], EscapeHtml(s[1..]));
      UnescapeEscape(s[1..]);
    }
  }

  /** Hence two texts with the same escaped form are the same text. */
  lemma EscapeHtmlInjective(a: string, b: string)
    requires EscapeHtml(a) == EscapeHtml(b)
    ensures a == b
  {
    UnescapeEscape(a);
    UnescapeEscape(b);
  }
}
