/**
 * The pieces of JavaScript's string semantics that the portfolio script relies on:
 * the whitespace set shared by `String.prototype.trim` and the regular-expression
 * class `\s`, the line terminators that `.` refuses, `trim`, `startsWith`,
 * `includes`, ASCII `toLowerCase` and the decimal rendering of a number in a
 * template literal.
 */
module JsText {

  /** ECMAScript WhiteSpace and LineTerminator code points: the set `trim` removes and `\s` matches. */
  predicate IsJsWhitespace(c: char) {
    c == '\t' || c == '\n' || c == '\U{000B}' || c == '\U{000C}' || c == '\r' || c == ' '
    || c == '\U{00A0}' || c == '\U{1680}' || ('\U{2000}' <= c <= '\U{200A}')
    || c == '\U{2028}' || c == '\U{2029}' || c == '\U{202F}' || c == '\U{205F}'
    || c == '\U{3000}' || c == '\U{FEFF}'
  }

  /** The code points the regular-expression `.` does not match (no `s` flag). */
  predicate IsLineTerminator(c: char) {
    c == '\n' || c == '\r' || c == '\U{2028}' || c == '\U{2029}'
  }

  predicate AllWhitespace(s: string) {
    forall i :: 0 <= i < |s| ==> IsJsWhitespace(s[i])
  }

  predicate NoLineTerminator(s: string) {
    forall i :: 0 <= i < |s| ==> !IsLineTerminator(s[i])
  }

  /** Length of the run of whitespace characters of `s` that starts at position `i`. */
  function WhitespaceSpan(s: string, i: nat): (n: nat)
    requires i <= |s|
    ensures i + n <= |s|
    ensures forall j :: i <= j < i + n ==> IsJsWhitespace(s[j])
    ensures i + n < |s| ==> !IsJsWhitespace(s[i + n])
    decreases |s| - i
  {
    if i < |s| && IsJsWhitespace(s[i]) then 1 + WhitespaceSpan(s, i + 1) else 0
  }

  /** The whitespace run at `i` is the only one that is whitespace throughout and not followed by whitespace. */
  lemma WhitespaceSpanUnique(s: string, i: nat, j: nat)
    requires i <= j <= |s|
    requires forall k :: i <= k < j ==> IsJsWhitespace(s[k])
    requires j < |s| ==> !IsJsWhitespace(s[j])
    ensures WhitespaceSpan(s, i) == j - i
  {
    var n := WhitespaceSpan(s, i);
    assert i + n < j ==> IsJsWhitespace(s[i + n]);
  }

  /** Number of leading whitespace characters of `s`. */
  function WhitespaceRun(s: string): (n: nat)
    ensures n <= |s|
    ensures AllWhitespace(s[..n])
    ensures n < |s| ==> !IsJsWhitespace(s[n])
  {
    WhitespaceSpan(s, 0)
  }

  /** `s` without its leading whitespace (the start half of `trim`). */
  function TrimStart(s: string): string {
    s[WhitespaceRun(s)..]
  }

  /** Number of trailing whitespace characters of `s`. */
  function TrailingWhitespaceRun(s: string): (n: nat)
    ensures n <= |s|
    ensures AllWhitespace(s[|s| - n..])
    ensures n < |s| ==> !IsJsWhitespace(s[|s| - n - 1])
  {
    if |s| > 0 && IsJsWhitespace(s[|s| - 1]) then
      var n := 1 + TrailingWhitespaceRun(s[..|s| - 1]);
      assert s[|s| - n..] == s[..|s| - 1][|s| - n..] + [s[|s| - 1]];
      n
    else 0
  }

  /** `String.prototype.trim`: leading and trailing whitespace removed. */
  function Trim(s: string): (r: string)
    ensures |r| <= |s|
    ensures |r| > 0 ==> !IsJsWhitespace(r[0]) && !IsJsWhitespace(r[|r| - 1])
    ensures exists a, b :: 0 <= a <= b <= |s| && r == s[a..b] && AllWhitespace(s[..a]) && AllWhitespace(s[b..])
  {
    var t := TrimStart(s);
    var a := WhitespaceRun(s);
    var b := a + |t| - TrailingWhitespaceRun(t);
    assert t[..|t| - TrailingWhitespaceRun(t)] == s[a..b];
    assert s[b..] == t[|t| - TrailingWhitespaceRun(t)..];
    t[..|t| - TrailingWhitespaceRun(t)]
  }

  /** `String.prototype.startsWith`. */
  predicate StartsWith(s: string, prefix: string) {
    prefix <= s
  }

  /** `String.prototype.includes`, by scanning every start position. */
  predicate Contains(s: string, sub: string)
    ensures sub <= s ==> Contains(s, sub)
    ensures Contains(s, sub) ==> |sub| <= |s|
    decreases |s|
  {
    sub <= s || (|s| > 0 && Contains(s[1..], sub))
  }

  /** `sub` occurs in `s` starting at position `i`. */
  predicate OccursAt(s: string, sub: string, i: int) {
    0 <= i <= |s| - |sub| && s[i..i + |sub|] == sub
  }

  /** `includes` holds exactly when `sub` occurs at some position of `s`. */
  lemma {:induction false} ContainsIff(s: string, sub: string)
    ensures Contains(s, sub) <==> exists i :: OccursAt(s, sub, i)
    decreases |s|
  {
    if sub <= s {
      assert OccursAt(s, sub, 0);
    } else if |s| == 0 {
      assert |sub| > 0;
    } else {
      ContainsIff(s[1..], sub);
      if Contains(s[1..], sub) {
        var i :| OccursAt(s[1..], sub, i);
        assert s[i + 1..i + 1 + |sub|] == s[1..][i..i + |sub|];
        assert OccursAt(s, sub, i + 1);
      } else {
        forall i: int ensures !OccursAt(s, sub, i) {
          if 1 <= i <= |s| - |sub| {
            var j := i - 1;
            assert !OccursAt(s[1..], sub, j);
            assert s[1..][j..j + |sub|] == s[i..i + |sub|];
          }
        }
      }
    }
  }

  /** `trim` yields the empty string exactly for strings made only of whitespace. */
  lemma TrimEmptyIff(s: string)
    ensures Trim(s) == "" <==> AllWhitespace(s)
  {
    var n := WhitespaceRun(s);
    var t := TrimStart(s);
    if n < |s| {
      assert t[0] == s[n];
      assert TrailingWhitespaceRun(t) < |t|;
      assert !AllWhitespace(s) by { assert !IsJsWhitespace(s[n]); }
    } else {
      assert s == s[..n];
    }
  }

  /** When a string is not all whitespace, `trim` keeps it from its first non-whitespace character on. */
  lemma TrimFirst(s: string)
    requires WhitespaceRun(s) < |s|
    ensures |Trim(s)| > 0 && Trim(s)[0] == s[WhitespaceRun(s)]
  {
    var t := TrimStart(s);
    assert t[0] == s[WhitespaceRun(s)];
    assert TrailingWhitespaceRun(t) < |t|;
  }

  /** ASCII case folding: the part of `toLowerCase` this model keeps. */
  function LowerChar(c: char): char {
    if 'A' <= c <= 'Z' then (c as int + 32) as char else c
  }

  function ToLower(s: string): (r: string)
    ensures |r| == |s|
    ensures forall i :: 0 <= i < |s| ==> r[i] == LowerChar(s[i])
  {
    if |s| == 0 then "" else [LowerChar(s[0])] + ToLower(s[1..])
  }

  function DigitChar(d: nat): (c: char)
    requires d < 10
    ensures '0' <= c <= '9'
  {
    (48 + d) as char
  }

  predicate IsDigit(c: char) { '0' <= c <= '9' }

  function DigitValue(c: char): nat
    requires IsDigit(c)
  {
    c as int - 48
  }

  /** Decimal rendering of a natural number, as `${n}` produces it. */
  function NatToString(n: nat): (r: string)
    ensures |r| >= 1
    ensures forall i :: 0 <= i < |r| ==> IsDigit(r[i])
    decreases n
  {
    if n < 10 then [DigitChar(n)] else NatToString(n / 10) + [DigitChar(n % 10)]
  }

  /** Reads a string of decimal digits back as a number. */
  function ParseNat(s: string): nat
    requires forall i :: 0 <= i < |s| ==> IsDigit(s[i])
  {
    if |s| == 0 then 0
    else ParseNat(s[..|s| - 1]) * 10 + DigitValue(s[|s| - 1])
  }

  /** Decimal rendering loses nothing: parsing it back gives the number. */
  lemma {:induction false} ParseNatToString(n: nat)
    ensures ParseNat(NatToString(n)) == n
    decreases n
  {
    var r := NatToString(n);
    if n >= 10 {
      ParseNatToString(n / 10);
      assert r[..|r| - 1] == NatToString(n / 10);
    }
  }

  /** Hence distinct numbers render as distinct strings. */
  lemma NatToStringInjective(m: nat, n: nat)
    requires NatToString(m) == NatToString(n)
    ensures m == n
  {
    ParseNatToString(m);
    ParseNatToString(n);
  }
}
