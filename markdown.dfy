/**
 * `renderMarkdown` (script.js:218-290), the recipe viewer's renderer: a loop over
 * the lines of the document with two flags, `inCode` and `inList`, that appends
 * HTML to an accumulator.
 *
 * The output is described as a sequence of tokens, each of which stands for the
 * HTML text the source appends; `Html` turns tokens into that text.  `Step` is the
 * loop body on one line, `Run` the loop over a prefix of the lines and `Render`
 * the whole document including the closing tags at the end.  The method
 * `RenderMarkdown` is the loop itself, proved to produce `Html(Render(...))`.
 */
module Markdown {
  import opened Wrappers
  import opened JsText
  import opened HtmlEscape
  import opened MarkdownSyntax

  datatype Token =
    | ListOpen                        // <ul>
    | ListClose                       // </ul>
    | CodeOpen                        // <pre><code>
    | CodeClose                       // </code></pre>
    | CodeText(line: string)          // escaped line + newline
    | Heading(level: nat, text: string)
    | ListItem(text: string)
    | Break                           // <br>
    | Paragraph(text: string)

  /** The inline formatter: escaping only (the emphasis/link rewriting is not modelled). */
  function Inline(s: string): string {
    EscapeHtml(s)
  }

  /** The HTML text a token stands for; every token writes something. */
  function TokenHtml(t: Token): (r: string)
    ensures |r| > 0
  {
    match t
    case ListOpen => "<ul>"
    case ListClose => "</ul>"
    case CodeOpen => "<pre><code>"
    case CodeClose => "</code></pre>"
    case CodeText(line) => EscapeHtml(line) + "\n"
    case Heading(k, text) => "<h" + NatToString(k) + ">" + Inline(text) + "</h" + NatToString(k) + ">"
    case ListItem(text) => "<li>" + Inline(text) + "</li>"
    case Break => "<br>"
    case Paragraph(text) => "<p>" + Inline(text) + "</p>"
  }

  function Html(ts: seq<Token>): string {
    if |ts| == 0 then "" else TokenHtml(ts[0]) + Html(ts[1..])
  }

  lemma {:induction false} HtmlAppend(a: seq<Token>, b: seq<Token>)
    ensures Html(a + b) == Html(a) + Html(b)
  {
    if |a| == 0 {
      assert a + b == b;
    } else {
      assert (a + b)[0] == a[0] && (a + b)[1..] == a[1..] + b;
      HtmlAppend(a[1..], b);
    }
  }

  datatype RenderState = RenderState(inCode: bool, inList: bool)

  const Start := RenderState(false, false)

  /** What `closeList()` appends. */
  function CloseList(st: RenderState): seq<Token> {
    if st.inList then [ListClose] else []
  }

  datatype StepResult = StepResult(state: RenderState, out: seq<Token>)

  /** The loop body on one line, tests in the source's order. */
  function Step(st: RenderState, line: string): StepResult {
    if IsFence(line) then
      if !st.inCode then StepResult(st.(inCode := true), [CodeOpen])
      else StepResult(st.(inCode := false), [CodeClose])
    else if st.inCode then StepResult(st, [CodeText(line)])
    else if MatchHeading(line).Some? then
      var h := MatchHeading(line).value;
      StepResult(st.(inList := false), CloseList(st) + [Heading(h.level, h.content)])
    else if MatchListItem(line).Some? then
      var c := MatchListItem(line).value;
      if !st.inList then StepResult(st.(inList := true), [ListOpen, ListItem(c)])
      else StepResult(st, [ListItem(c)])
    else if IsBlank(line) then StepResult(st.(inList := false), CloseList(st) + [Break])
    else StepResult(st.(inList := false), CloseList(st) + [Paragraph(line)])
  }

  /** The loop over `lines`: the flags after it and everything appended so far. */
  function Run(lines: seq<string>): StepResult
  {
    if |lines| == 0 then StepResult(Start, [])
    else
      var before := Run(lines[..|lines| - 1]);
      var r := Step(before.state, lines[|lines| - 1]);
      StepResult(r.state, before.out + r.out)
  }

  /** What follows the loop: `closeList()`, then the closing of an unterminated fence. */
  function Finish(st: RenderState): seq<Token> {
    CloseList(st) + (if st.inCode then [CodeClose] else [])
  }

  function Render(lines: seq<string>): seq<Token> {
    var r := Run(lines);
    r.out + Finish(r.state)
  }

  /** `md.replace(/\r\n/g, '\n').split('\n')`. */
  function MarkdownLines(md: string): seq<string> {
    SplitLines(NormalizeNewlines(md))
  }

  method RenderMarkdown(md: string) returns (html: string)
    ensures html == Html(Render(MarkdownLines(md)))
  {
    var lines := MarkdownLines(md);
    html := "";
    var inCode := false;
    var inList := false;
    for i := 0 to |lines|
      invariant Run(lines[..i]).state == RenderState(inCode, inList)
      invariant html == Html(Run(lines[..i]).out)
    {
      RunSnoc(lines, i);
      HtmlAppend(Run(lines[..i]).out, Step(RenderState(inCode, inList), lines[i]).out);
      html, inCode, inList := RenderLine(html, inCode, inList, lines[i]);
    }
    assert lines[..|lines|] == lines;
    ghost var last := RenderState(inCode, inList);
    ghost var tail: seq<Token> := if inCode then [CodeClose] else [];
    HtmlAppend(Run(lines).out, Finish(last));
    HtmlAppend(CloseList(last), tail);
    HtmlSingle(CodeClose);
    html, inList := CloseListHtml(html, inList);
    AppendAssoc(Html(Run(lines).out), Html(CloseList(last)), Html(tail));
    if inCode {
      html := html + "</code></pre>";
    } else {
      assert html + Html(tail) == html;
    }
  }

  /** `Run` on one more line is `Step` after `Run`. */
  lemma RunSnoc(lines: seq<string>, i: nat)
    requires i < |lines|
    ensures var before := Run(lines[..i]);
      var r := Step(before.state, lines[i]);
      Run(lines[..i + 1]) == StepResult(r.state, before.out + r.out)
  {
    assert lines[..i + 1][..i] == lines[..i];
  }

  lemma HtmlSingle(t: Token)
    ensures Html([t]) == TokenHtml(t)
  {
    assert [t][1..] == [];
  }

  /** One pass of the loop body. */
  method RenderLine(html: string, inCode: bool, inList: bool, line: string)
    returns (html': string, inCode': bool, inList': bool)
    ensures var r := Step(RenderState(inCode, inList), line);
      RenderState(inCode', inList') == r.state && html' == html + Html(r.out)
  {
    ghost var st := RenderState(inCode, inList);
    html', inCode', inList' := html, inCode, inList;
    if IsFence(line) {
      HtmlSingle(if inCode then CodeClose else CodeOpen);
      if !inCode' {
        inCode' := true;
        html' := html' + "<pre><code>";
      } else {
        inCode' := false;
        html' := html' + "</code></pre>";
      }
    } else if inCode' {
      HtmlSingle(CodeText(line));
      html' := html' + EscapeHtml(line) + "\n";
    } else if MatchHeading(line).Some? {
      var h := MatchHeading(line).value;
      ghost var t := Heading(h.level, h.content);
      HtmlAppend(CloseList(st), [t]);
      HtmlSingle(t);
      html', inList' := CloseListHtml(html', inList');
      AppendAssoc(html, Html(CloseList(st)), TokenHtml(t));
      html' := html' + ("<h" + NatToString(h.level) + ">" + Inline(h.content) + "</h" + NatToString(h.level) + ">");
    } else if MatchListItem(line).Some? {
      var c := MatchListItem(line).value;
      HtmlAppend([ListOpen], [ListItem(c)]);
      HtmlSingle(ListOpen);
      HtmlSingle(ListItem(c));
      assert [ListOpen] + [ListItem(c)] == [ListOpen, ListItem(c)];
      AppendAssoc(html, "<ul>", TokenHtml(ListItem(c)));
      if !inList' {
        inList' := true;
        html' := html' + "<ul>";
      }
      html' := html' + ("<li>" + Inline(c) + "</li>");
    } else if Trim(line) == "" {
      HtmlAppend(CloseList(st), [Break]);
      HtmlSingle(Break);
      html', inList' := CloseListHtml(html', inList');
      AppendAssoc(html, Html(CloseList(st)), TokenHtml(Break));
      html' := html' + "<br>";
    } else {
      HtmlAppend(CloseList(st), [Paragraph(line)]);
      HtmlSingle(Paragraph(line));
      html', inList' := CloseListHtml(html', inList');
      AppendAssoc(html, Html(CloseList(st)), TokenHtml(Paragraph(line)));
      html' := html' + ("<p>" + Inline(line) + "</p>");
    }
  }

  lemma AppendAssoc<T>(a: seq<T>, b: seq<T>, c: seq<T>)
    ensures (a + b) + c == a + (b + c)
  {}

  /** The `closeList` closure: appends `</ul>` when a list is open and clears the flag. */
  method CloseListHtml(html: string, inList: bool) returns (html': string, inList': bool)
    ensures html' == html + Html(CloseList(RenderState(false, inList)))
    ensures !inList'
  {
    HtmlSingle(ListClose);
    html', inList' := html, inList;
    if inList' {
      html' := html' + "</ul>";
      inList' := false;
    }
  }
}
