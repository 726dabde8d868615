/**
 * The line-level syntax of the recipe renderer (script.js:219, 243, 259, 266, 276):
 * CRLF normalisation, splitting into lines, and the two regular expressions that
 * recognise headings and list items, each stated both as a matcher and as the
 * shape of the strings the regular expression accepts.
 */
module MarkdownSyntax {
  import opened Wrappers
  import opened JsText

  /** `md.replace(/\r\n/g, '\n')`: left-to-right, non-overlapping replacement. */
  function NormalizeNewlines(s: string): (r: string)
    ensures |r| <= |s|
    decreases |s|
  {
    if |s| == 0 then ""
    else if "\r\n" <= s then "\n" + NormalizeNewlines(s[2..])
    else [s[0]] + NormalizeNewlines(s[1..])
  }

  /** A character that does not start `\r\n` is copied. */
  lemma NormalizeCons(c: char, t: string)
    requires !(c == '\r' && |t| > 0 && t[0] == '\n')
    ensures NormalizeNewlines([c] + t) == [c] + NormalizeNewlines(t)
  {
    var s := [c] + t;
    assert s[0] == c && s[1..] == t;
    assert !("\r\n" <= s) by { if |t| > 0 { assert s[1] == t[0]; } }
  }

  lemma ConcatAssoc(p: string, q: string, u: string, w: string)
    ensures p + (q + u + w) == p + q + u + w
  {}

  /** A leading `\r\n` becomes `\n`. */
  lemma NormalizeCrlfHead(t: string)
    ensures NormalizeNewlines("\r\n" + t) == "\n" + NormalizeNewlines(t)
  {
    assert ("\r\n" + t)[2..] == t;
  }

  /**
   * Every `\r\n` is replaced, whatever surrounds it: the scan never consumes the
   * `\r` of an occurrence as the second half of an earlier one.
   */
  lemma {:induction false} NormalizeAtCrlf(a: string, b: string)
    ensures NormalizeNewlines(a + "\r\n" + b) == NormalizeNewlines(a) + "\n" + NormalizeNewlines(b)
    decreases |a|
  {
    var s := a + "\r\n" + b;
    if |a| == 0 {
      assert s == "\r\n" + b;
      NormalizeCrlfHead(b);
    } else {
      var k := if a[0] == '\r' && |a| >= 2 && a[1] == '\n' then 2 else 1;
      var t := a[k..];
      var head := if k == 2 then "\n" else [a[0]];
      assert s == a[..k] + (t + "\r\n" + b) && a == a[..k] + t;
      if k == 2 {
        assert a[..k] == "\r\n";
        NormalizeCrlfHead(t + "\r\n" + b);
        NormalizeCrlfHead(t);
      } else {
        assert a[..k] == [a[0]];
        assert (t + "\r\n" + b)[0] == if |t| > 0 then t[0] else '\r';
        NormalizeCons(a[0], t + "\r\n" + b);
        NormalizeCons(a[0], t);
      }
      NormalizeAtCrlf(t, b);
      var x, y := NormalizeNewlines(t), NormalizeNewlines(b);
      calc {
        NormalizeNewlines(s);
        head + NormalizeNewlines(t + "\r\n" + b);
        head + (x + "\n" + y);
        { ConcatAssoc(head, x, "\n", y); }
        (head + x) + "\n" + y;
        NormalizeNewlines(a) + "\n" + y;
      }
    }
  }

  /** `split('\n')`: always at least one piece, none containing a newline. */
  function SplitLines(s: string): (r: seq<string>)
    ensures |r| >= 1
    ensures forall i :: 0 <= i < |r| ==> '\n' !in r[i]
    decreases |s|
  {
    if |s| == 0 then [""]
    else
      var rest := SplitLines(s[1..]);
      if s[0] == '\n' then [""] + rest else [[s[0]] + rest[0]] + rest[1..]
  }

  /** The inverse of splitting: the pieces glued back with a separator. */
  function JoinLines(lines: seq<string>, sep: string): string
  {
    if |lines| == 0 then ""
    else if |lines| == 1 then lines[0]
    else lines[0] + sep + JoinLines(lines[1..], sep)
  }

  /** Splitting loses nothing: joining the lines with `\n` gives the text back. */
  lemma {:induction false} JoinSplitLines(s: string)
    ensures JoinLines(SplitLines(s), "\n") == s
    decreases |s|
  {
    if |s| > 0 {
      var rest := SplitLines(s[1..]);
      JoinSplitLines(s[1..]);
      if s[0] == '\n' {
        assert s == "\n" + s[1..];
      } else if |rest| == 1 {
        assert s == [s[0]] + s[1..];
      } else {
        assert rest == [rest[0]] + rest[1..];
        assert JoinLines(rest, "\n") == rest[0] + "\n" + JoinLines(rest[1..], "\n");
        assert s == [s[0]] + s[1..];
      }
    }
  }

  /** Splitting text that starts with a newline-free piece extends that piece. */
  lemma {:induction false} SplitLinesPrefix(a: string, t: string)
    requires '\n' !in a
    ensures SplitLines(a + t) == [a + SplitLines(t)[0]] + SplitLines(t)[1..]
    decreases |a|
  {
    if |a| == 0 {
      assert a + t == t;
      assert a + SplitLines(t)[0] == SplitLines(t)[0];
      assert SplitLines(t) == [SplitLines(t)[0]] + SplitLines(t)[1..];
    } else {
      assert (a + t)[0] == a[0] && (a + t)[1..] == a[1..] + t;
      assert a[0] != '\n' by { assert a[0] in a; }
      SplitLinesPrefix(a[1..], t);
      assert [a[0]] + (a[1..] + SplitLines(t)[0]) == a + SplitLines(t)[0];
    }
  }

  /** Joining newline-free lines with `\n` and splitting again gives the same lines. */
  lemma {:induction false} SplitJoinLines(lines: seq<string>)
    requires |lines| >= 1
    requires forall i :: 0 <= i < |lines| ==> '\n' !in lines[i]
    ensures SplitLines(JoinLines(lines, "\n")) == lines
  {
    if |lines| == 1 {
      SplitLinesPrefix(lines[0], "");
      assert lines[0] + "" == lines[0];
    } else {
      var tail := JoinLines(lines[1..], "\n");
      SplitJoinLines(lines[1..]);
      assert "\n" + tail == "\n" + tail;
      assert SplitLines("\n" + tail) == [""] + SplitLines(tail) by {
        assert ("\n" + tail)[1..] == tail;
      }
      assert lines[0] + "\n" + tail == lines[0] + ("\n" + tail);
      SplitLinesPrefix(lines[0], "\n" + tail);
      assert lines[0] + "" == lines[0];
    }
  }

  /** A prefix without carriage returns is left alone by the normalisation. */
  lemma {:induction false} NormalizeNewlinesPrefix(a: string, t: string)
    requires '\r' !in a
    ensures NormalizeNewlines(a + t) == a + NormalizeNewlines(t)
    decreases |a|
  {
    if |a| == 0 {
      assert a + t == t;
    } else {
      var s := a + t;
      assert s[0] == a[0] && s[1..] == a[1..] + t;
      assert a[0] != '\r' by { assert a[0] in a; }
      assert !("\r\n" <= s);
      assert NormalizeNewlines(s) == [a[0]] + NormalizeNewlines(s[1..]);
      NormalizeNewlinesPrefix(a[1..], t);
      assert [a[0]] + (a[1..] + NormalizeNewlines(t)) == a + NormalizeNewlines(t);
    }
  }

  /** A CRLF document normalises to the same text with LF line ends. */
  lemma {:induction false} NormalizeCrlfDocument(lines: seq<string>)
    requires forall i :: 0 <= i < |lines| ==> '\r' !in lines[i]
    ensures NormalizeNewlines(JoinLines(lines, "\r\n")) == JoinLines(lines, "\n")
  {
    if |lines| == 1 {
      NormalizeNewlinesPrefix(lines[0], "");
      assert lines[0] + "" == lines[0];
    } else if |lines| > 1 {
      var tail := JoinLines(lines[1..], "\r\n");
      NormalizeCrlfDocument(lines[1..]);
      assert lines[0] + "\r\n" + tail == lines[0] + ("\r\n" + tail);
      NormalizeNewlinesPrefix(lines[0], "\r\n" + tail);
      assert ("\r\n" + tail)[2..] == tail;
      assert lines[0] + "\n" + JoinLines(lines[1..], "\n") == lines[0] + ("\n" + JoinLines(lines[1..], "\n"));
    }
  }

  /** Hence a CRLF document and its LF twin render from the same lines. */
  lemma CrlfDocumentLines(lines: seq<string>)
    requires |lines| >= 1
    requires forall i :: 0 <= i < |lines| ==> '\r' !in lines[i] && '\n' !in lines[i]
    ensures SplitLines(NormalizeNewlines(JoinLines(lines, "\r\n"))) == lines
  {
    NormalizeCrlfDocument(lines);
    SplitJoinLines(lines);
  }

  // ---------------------------------------------------------------------------
  // Line classes

  /** `line.trim().startsWith('```')`: a code fence. */
  predicate IsFence(line: string) {
    StartsWith(Trim(line), "```")
  }

  /** `line.trim() === ''`: a blank line, that is, one made only of whitespace. */
  predicate IsBlank(line: string)
    ensures IsBlank(line) <==> AllWhitespace(line)
  {
    TrimEmptyIff(line);
    Trim(line) == ""
  }

  function Repeat(c: char, n: nat): (r: string)
    ensures |r| == n && forall i :: 0 <= i < n ==> r[i] == c
  {
    if n == 0 then "" else [c] + Repeat(c, n - 1)
  }

  /** Number of leading `#` characters. */
  function HashRun(s: string, i: nat := 0): (n: nat)
    requires i <= |s|
    ensures i + n <= |s|
    ensures forall j :: i <= j < i + n ==> s[j] == '#'
    ensures i + n < |s| ==> s[i + n] != '#'
    decreases |s| - i
  {
    if i < |s| && s[i] == '#' then 1 + HashRun(s, i + 1) else 0
  }

  datatype HeadingMatch = HeadingMatch(level: nat, content: string)

  /** `line.match(/^(#{1,6})\s+(.*)$/)`: the level is `h[1].length`, the content `h[2]`. */
  function MatchHeading(line: string): (r: Option<HeadingMatch>)
    ensures r.Some? ==> (1 <= r.value.level <= 6 && r.value.level + 1 + |r.value.content| <= |line|
      && line[|line| - |r.value.content|..] == r.value.content && NoLineTerminator(r.value.content))
  {
    var k := HashRun(line);
    if 1 <= k <= 6 then
      var w := WhitespaceSpan(line, k);
      if w >= 1 && NoLineTerminator(line[k + w..]) then Some(HeadingMatch(k, line[k + w..])) else None
    else None
  }

  /** The strings `/^(#{1,6})\s+(.*)$/` accepts: one to six `#`, whitespace, then a rest without line terminators. */
  predicate HeadingShape(line: string, level: nat, ws: string, rest: string) {
    1 <= level <= 6 && |ws| >= 1 && AllWhitespace(ws) && NoLineTerminator(rest)
    && line == Repeat('#', level) + ws + rest
  }

  /** A match has the accepted shape, and its content starts after all the whitespace. */
  lemma MatchHeadingSound(line: string)
    requires MatchHeading(line).Some?
    ensures var h := MatchHeading(line).value;
      HeadingShape(line, h.level, line[h.level..|line| - |h.content|], h.content)
      && (h.content == [] || !IsJsWhitespace(h.content[0]))
  {
    var k := HashRun(line);
    var w := WhitespaceSpan(line, k);
    var ws := line[k..k + w];
    var rest := line[k + w..];
    assert MatchHeading(line).value == HeadingMatch(k, rest);
    assert line[k..|line| - |rest|] == ws;
    HeadingShapeOf(line, k, w);
    assert rest != [] ==> rest[0] == line[k + w];
  }

  lemma HeadingShapeOf(line: string, k: nat, w: nat)
    requires 1 <= k <= 6 && k == HashRun(line) && k <= |line| && w == WhitespaceSpan(line, k) && w >= 1
    requires NoLineTerminator(line[k + w..])
    ensures HeadingShape(line, k, line[k..k + w], line[k + w..])
  {
    HashPrefix(line);
    SpanIsWhitespace(line, k);
    SplitThree(line, k, k + w);
  }

  lemma HashPrefix(line: string)
    ensures line[..HashRun(line)] == Repeat('#', HashRun(line))
  {}

  lemma SpanIsWhitespace(s: string, i: nat)
    requires i <= |s|
    ensures AllWhitespace(s[i..i + WhitespaceSpan(s, i)])
  {
    var ws := s[i..i + WhitespaceSpan(s, i)];
    forall j | 0 <= j < |ws| ensures IsJsWhitespace(ws[j]) {
      assert ws[j] == s[i + j];
    }
  }

  lemma SplitThree<T>(s: seq<T>, i: nat, j: nat)
    requires i <= j <= |s|
    ensures s == s[..i] + s[i..j] + s[j..]
  {}

  /** A suffix of a string without line terminators has none either. */
  lemma NoLineTerminatorSuffix(s: string, n: nat)
    requires n <= |s| && NoLineTerminator(s)
    ensures NoLineTerminator(s[n..])
  {
    forall i | 0 <= i < |s| - n ensures !IsLineTerminator(s[n..][i]) {
      assert s[n..][i] == s[n + i];
    }
  }

  /**
   * In `line == prefix + ws + rest` with `ws` all whitespace, the whitespace run
   * at `|prefix|` covers `ws` and the leading whitespace of `rest`, and what
   * follows it is `TrimStart(rest)`.
   */
  lemma {:induction false} SpanAcross(line: string, prefix: string, ws: string, rest: string)
    requires AllWhitespace(ws) && line == prefix + ws + rest
    ensures WhitespaceSpan(line, |prefix|) == |ws| + WhitespaceRun(rest)
    ensures line[|prefix| + |ws| + WhitespaceRun(rest)..] == TrimStart(rest)
  {
    var p := |prefix| + |ws|;
    var m := WhitespaceRun(rest);
    forall k | p <= k < p + m ensures line[k] == rest[k - p] {}
    forall k | |prefix| <= k < p + m ensures IsJsWhitespace(line[k]) {
      if k < p { assert line[k] == ws[k - |prefix|]; } else { assert rest[..m][k - p] == rest[k - p]; }
    }
    if p + m < |line| {
      assert line[p + m] == rest[m];
    }
    WhitespaceSpanUnique(line, |prefix|, p + m);
    assert line[p + m..] == rest[m..];
  }

  /** Every string of the accepted shape is matched, at its level, with the whitespace stripped. */
  lemma MatchHeadingComplete(line: string, level: nat, ws: string, rest: string)
    requires HeadingShape(line, level, ws, rest)
    ensures MatchHeading(line) == Some(HeadingMatch(level, TrimStart(rest)))
  {
    var hashes := Repeat('#', level);
    assert line[level] == ws[0];
    assert HashRun(line) == level by {
      var n := HashRun(line);
      forall j | 0 <= j < level ensures line[j] == '#' {
        assert line[j] == hashes[j];
      }
    }
    SpanAcross(line, hashes, ws, rest);
    NoLineTerminatorSuffix(rest, WhitespaceRun(rest));
    assert MatchHeading(line).Some?;
  }

  predicate IsBullet(c: char) {
    c == '-' || c == '*'
  }

  /** `line.match(/^\s*[-*]\s+(.*)$/)`: the content is `li[1]`. */
  function MatchListItem(line: string): Option<string>
  {
    var a := WhitespaceSpan(line, 0);
    if a < |line| && IsBullet(line[a]) then
      var w := WhitespaceSpan(line, a + 1);
      if w >= 1 && NoLineTerminator(line[a + 1 + w..]) then Some(line[a + 1 + w..]) else None
    else None
  }

  /** The strings `/^\s*[-*]\s+(.*)$/` accepts. */
  predicate ListItemShape(line: string, lead: string, bullet: char, ws: string, rest: string) {
    AllWhitespace(lead) && IsBullet(bullet) && |ws| >= 1 && AllWhitespace(ws) && NoLineTerminator(rest)
    && line == lead + [bullet] + ws + rest
  }

  /** A match has the accepted shape, and its content starts after all the whitespace. */
  lemma {:induction false} MatchListItemSound(line: string)
    requires MatchListItem(line).Some?
    ensures var c := MatchListItem(line).value;
      (exists a :: 0 <= a < |line| - |c|
        && ListItemShape(line, line[..a], line[a], line[a + 1..|line| - |c|], c))
      && (c == [] || !IsJsWhitespace(c[0]))
  {
    var c := MatchListItem(line).value;
    var a := WhitespaceSpan(line, 0);
    var w := WhitespaceSpan(line, a + 1);
    assert line == line[..a] + [line[a]] + line[a + 1..a + 1 + w] + line[a + 1 + w..];
    assert ListItemShape(line, line[..a], line[a], line[a + 1..|line| - |c|], c);
  }

  /** Every string of the accepted shape is matched, with the whitespace after the bullet stripped. */
  lemma MatchListItemComplete(line: string, lead: string, bullet: char, ws: string, rest: string)
    requires ListItemShape(line, lead, bullet, ws, rest)
    ensures MatchListItem(line) == Some(TrimStart(rest))
  {
    var a := |lead|;
    assert line[a] == bullet;
    forall k | 0 <= k < a ensures IsJsWhitespace(line[k]) {
      assert line[k] == lead[k];
    }
    WhitespaceSpanUnique(line, 0, a);
    SpanAcross(line, lead + [bullet], ws, rest);
    NoLineTerminatorSuffix(rest, WhitespaceRun(rest));
    assert MatchListItem(line).Some?;
  }

  /**
   * The four line classes tested before the paragraph fallback are mutually
   * exclusive, so the order of the tests only decides against the paragraph case.
   */
  lemma LineClassesDisjoint(line: string)
    ensures MatchHeading(line).Some? ==> !IsFence(line) && !IsBlank(line) && MatchListItem(line).None?
    ensures MatchListItem(line).Some? ==> !IsFence(line) && !IsBlank(line)
    ensures IsFence(line) ==> !IsBlank(line)
  {
    if MatchHeading(line).Some? {
      assert line[0] == '#';
      assert WhitespaceRun(line) == 0;
      TrimFirst(line);
    }
    if MatchListItem(line).Some? {
      TrimFirst(line);
    }
  }
}
