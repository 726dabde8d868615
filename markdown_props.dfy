/**
 * Properties of the renderer of script.js:218-290, stated on the token model
 * of module Markdown: the order in which lines are classified, what each kind
 * of line produces, verbatim code blocks, list runs and the nesting of the
 * `<ul>` and `<pre><code>` tags in the output.
 */
module MarkdownProperties {
  import opened Wrappers
  import opened JsText
  import opened MarkdownSyntax
  import opened Markdown

  // ---------------------------------------------------------------------------
  // Nesting of the block tags

  /**
   * The nesting discipline of the output, one token at a time: code text only
   * inside `<pre><code>`, list items only inside `<ul>`, headings, breaks and
   * paragraphs only outside both, and every closing tag matching an open one.
   */
  function Accept(st: RenderState, t: Token): Option<RenderState> {
    match t
    case CodeOpen => if !st.inCode then Some(st.(inCode := true)) else None
    case CodeClose => if st.inCode then Some(st.(inCode := false)) else None
    case CodeText(_) => if st.inCode then Some(st) else None
    case ListOpen => if !st.inCode && !st.inList then Some(st.(inList := true)) else None
    case ListItem(_) => if !st.inCode && st.inList then Some(st) else None
    case ListClose => if st.inList then Some(st.(inList := false)) else None
    case _ => if !st.inCode && !st.inList then Some(st) else None
  }

  /** The state after a whole token sequence, or `None` if some token is out of place. */
  function Scan(st: RenderState, ts: seq<Token>): Option<RenderState>
    decreases |ts|
  {
    if |ts| == 0 then Some(st)
    else match Accept(st, ts[0])
      case None => None
      case Some(s) => Scan(s, ts[1..])
  }

  lemma {:induction false} ScanAppend(st: RenderState, a: seq<Token>, b: seq<Token>)
    ensures Scan(st, a + b) == match Scan(st, a) case None => None case Some(s) => Scan(s, b)
    decreases |a|
  {
    if |a| == 0 {
      assert a + b == b;
    } else {
      assert (a + b)[0] == a[0] && (a + b)[1..] == a[1..] + b;
      match Accept(st, a[0]) {
        case None =>
        case Some(s) => ScanAppend(s, a[1..], b);
      }
    }
  }

  lemma ScanPair(st: RenderState, t: Token, u: Token)
    ensures Scan(st, [t, u]) == match Accept(st, t) case None => None case Some(s) => Scan(s, [u])
  {
    assert [t, u][1..] == [u];
  }

  lemma ScanSingle(st: RenderState, t: Token)
    ensures Scan(st, [t]) == Accept(st, t)
  {
    assert [t][1..] == [];
  }

  /** A list closed (if open) and then one token allowed outside lists and code. */
  lemma ScanAfterClose(st: RenderState, t: Token)
    requires !st.inCode && (t.Heading? || t.Break? || t.Paragraph?)
    ensures Scan(st, CloseList(st) + [t]) == Some(st.(inList := false))
  {
    ScanAppend(st, CloseList(st), [t]);
    ScanSingle(st.(inList := false), t);
    if st.inList {
      ScanSingle(st, ListClose);
    }
  }

  /** Each pass of the loop body emits tokens in place and leaves the flags where the tokens leave them. */
  lemma StepScan(st: RenderState, line: string)
    ensures Scan(st, Step(st, line).out) == Some(Step(st, line).state)
  {
    if IsFence(line) {
      ScanSingle(st, if st.inCode then CodeClose else CodeOpen);
    } else if st.inCode {
      ScanSingle(st, CodeText(line));
    } else if MatchHeading(line).Some? {
      var h := MatchHeading(line).value;
      ScanAfterClose(st, Heading(h.level, h.content));
    } else if MatchListItem(line).Some? {
      var c := MatchListItem(line).value;
      if !st.inList {
        ScanPair(st, ListOpen, ListItem(c));
        ScanSingle(st.(inList := true), ListItem(c));
      } else {
        ScanSingle(st, ListItem(c));
      }
    } else if IsBlank(line) {
      ScanAfterClose(st, Break);
    } else {
      ScanAfterClose(st, Paragraph(line));
    }
  }

  /** Everything the loop has appended after any number of lines obeys the nesting discipline. */
  lemma {:induction false} RunScan(lines: seq<string>)
    ensures Scan(Start, Run(lines).out) == Some(Run(lines).state)
    decreases |lines|
  {
    if |lines| > 0 {
      var before := Run(lines[..|lines| - 1]);
      RunScan(lines[..|lines| - 1]);
      ScanAppend(Start, before.out, Step(before.state, lines[|lines| - 1]).out);
      StepScan(before.state, lines[|lines| - 1]);
    }
  }

  /** The closing tags after the loop close whatever is still open. */
  lemma FinishScan(st: RenderState)
    ensures Scan(st, Finish(st)) == Some(Start)
  {
    ScanAppend(st, CloseList(st), if st.inCode then [CodeClose] else []);
  }

  /**
   * The whole output is balanced: its `<ul>`/`</ul>` and `<pre><code>`/`</code></pre>`
   * tags pair up, no list item is outside a list, no code text is outside a code
   * block, and nothing is left open at the end.
   */
  lemma RenderBalanced(lines: seq<string>)
    ensures Scan(Start, Render(lines)) == Some(Start)
  {
    var r := Run(lines);
    RunScan(lines);
    ScanAppend(Start, r.out, Finish(r.state));
    FinishScan(r.state);
  }

  // ---------------------------------------------------------------------------
  // What each kind of line produces

  /** A fence toggles the code flag, emits the matching tag and leaves the list flag alone. */
  lemma FenceLine(st: RenderState, line: string)
    requires IsFence(line)
    ensures Step(st, line).state == RenderState(!st.inCode, st.inList)
    ensures Step(st, line).out == if st.inCode then [CodeClose] else [CodeOpen]
  {}

  /**
   * A heading line (one to six `#`, whitespace, a rest) outside code closes an
   * open list and becomes a heading of that level whose text is the rest
   * without its leading whitespace.
   */
  lemma HeadingLine(st: RenderState, line: string, level: nat, ws: string, rest: string)
    requires !st.inCode && HeadingShape(line, level, ws, rest)
    ensures Step(st, line) == StepResult(st.(inList := false), CloseList(st) + [Heading(level, TrimStart(rest))])
  {
    MatchHeadingComplete(line, level, ws, rest);
    LineClassesDisjoint(line);
  }

  /**
   * A list item line outside code becomes a list item; `<ul>` is emitted only
   * when no list is open, and the list is open afterwards.
   */
  lemma ListItemLine(st: RenderState, line: string, lead: string, bullet: char, ws: string, rest: string)
    requires !st.inCode && ListItemShape(line, lead, bullet, ws, rest)
    ensures Step(st, line) == StepResult(st.(inList := true),
      (if st.inList then [] else [ListOpen]) + [ListItem(TrimStart(rest))])
  {
    MatchListItemComplete(line, lead, bullet, ws, rest);
    ListStep(st, line);
  }

  /** The list item case of the loop body, for any line the list pattern matches. */
  lemma ListStep(st: RenderState, line: string)
    requires !st.inCode && MatchListItem(line).Some?
    ensures Step(st, line) == StepResult(st.(inList := true),
      (if st.inList then [] else [ListOpen]) + [ListItem(MatchListItem(line).value)])
  {
    LineClassesDisjoint(line);
    var c := MatchListItem(line).value;
    if !st.inList {
      assert [ListOpen] + [ListItem(c)] == [ListOpen, ListItem(c)];
    } else {
      assert [] + [ListItem(c)] == [ListItem(c)];
    }
  }

  /** A line of whitespace only, outside code, closes an open list and becomes `<br>`. */
  lemma BlankLine(st: RenderState, line: string)
    requires !st.inCode && AllWhitespace(line)
    ensures Step(st, line) == StepResult(st.(inList := false), CloseList(st) + [Break])
  {
    TrimEmptyIff(line);
    assert WhitespaceSpan(line, 0) == |line|;
    if |line| > 0 {
      assert HashRun(line) == 0;
    }
  }

  /**
   * Outside code, a line that is no fence, heading, list item or blank line
   * closes an open list and becomes a paragraph holding the whole line.
   */
  lemma ParagraphLine(st: RenderState, line: string)
    requires !st.inCode && !IsFence(line) && MatchHeading(line).None? && MatchListItem(line).None?
    requires !AllWhitespace(line)
    ensures Step(st, line) == StepResult(st.(inList := false), CloseList(st) + [Paragraph(line)])
  {
    assert !IsBlank(line);
  }

  /**
   * Outside code, an open list stays open exactly on fences and list items; on
   * every other line the first token emitted is `</ul>`.
   */
  lemma ListClosedBy(st: RenderState, line: string)
    requires st.inList && !st.inCode
    ensures Step(st, line).state.inList <==> IsFence(line) || MatchListItem(line).Some?
    ensures !Step(st, line).state.inList ==> Step(st, line).out[0] == ListClose
  {
    LineClassesDisjoint(line);
  }

  /** Inside code every line but a fence is emitted as code text, with no other interpretation. */
  lemma CodeLine(st: RenderState, line: string)
    requires st.inCode && !IsFence(line)
    ensures Step(st, line) == StepResult(st, [CodeText(line)])
  {}

  // ---------------------------------------------------------------------------
  // Runs of lines

  /** The code text tokens of a block body, one per line. */
  function CodeTexts(body: seq<string>): (r: seq<Token>)
    ensures |r| == |body| && forall i :: 0 <= i < |body| ==> r[i] == CodeText(body[i])
  {
    seq(|body|, i requires 0 <= i < |body| => CodeText(body[i]))
  }

  /** The list item tokens for the contents of a run of list lines, one per line. */
  function ListItems(contents: seq<string>): (r: seq<Token>)
    ensures |r| == |contents| && forall i :: 0 <= i < |contents| ==> r[i] == ListItem(contents[i])
  {
    seq(|contents|, i requires 0 <= i < |contents| => ListItem(contents[i]))
  }

  lemma CodeTextsSnoc(body: seq<string>)
    requires |body| > 0
    ensures CodeTexts(body) == CodeTexts(body[..|body| - 1]) + [CodeText(body[|body| - 1])]
  {}

  lemma ListItemsSnoc(contents: seq<string>)
    requires |contents| > 0
    ensures ListItems(contents) == ListItems(contents[..|contents| - 1]) + [ListItem(contents[|contents| - 1])]
  {}

  /** `Run` over a prefix followed by more lines. */
  lemma RunAppendLine(pre: seq<string>, more: seq<string>)
    requires |more| > 0
    ensures var before := Run(pre + more[..|more| - 1]);
      var r := Step(before.state, more[|more| - 1]);
      Run(pre + more) == StepResult(r.state, before.out + r.out)
  {
    assert (pre + more)[..|pre + more| - 1] == pre + more[..|more| - 1];
  }

  /**
   * Inside a code block, lines without a fence are copied one by one as code
   * text and the flags do not change.
   */
  lemma {:induction false} CodeBodyVerbatim(pre: seq<string>, body: seq<string>)
    requires Run(pre).state.inCode
    requires forall i :: 0 <= i < |body| ==> !IsFence(body[i])
    ensures Run(pre + body) == StepResult(Run(pre).state, Run(pre).out + CodeTexts(body))
    decreases |body|
  {
    if |body| == 0 {
      assert pre + body == pre;
      assert Run(pre).out + CodeTexts(body) == Run(pre).out;
    } else {
      var init := body[..|body| - 1];
      var last := body[|body| - 1];
      CodeBodyVerbatim(pre, init);
      RunAppendLine(pre, body);
      CodeLine(Run(pre).state, last);
      CodeTextsSnoc(body);
      AppendAssoc(Run(pre).out, CodeTexts(init), [CodeText(last)]);
    }
  }

  /**
   * A fenced block outside code becomes `<pre><code>`, its lines as code text,
   * and `</code></pre>`, and leaves the flags as they were (an open list stays open).
   */
  lemma FencedBlock(pre: seq<string>, open: string, body: seq<string>, close: string)
    requires !Run(pre).state.inCode && IsFence(open) && IsFence(close)
    requires forall i :: 0 <= i < |body| ==> !IsFence(body[i])
    ensures Run(pre + [open] + body + [close])
      == StepResult(Run(pre).state, Run(pre).out + [CodeOpen] + CodeTexts(body) + [CodeClose])
  {
    var st := Run(pre).state;
    RunAppendLine(pre, [open]);
    assert [open][..0] == [] && pre + [] == pre;
    CodeBodyVerbatim(pre + [open], body);
    RunAppendLine(pre + [open] + body, [close]);
    assert (pre + [open] + body) + [close][..0] == pre + [open] + body;
  }

  /**
   * A fence still open at the end of the input is closed after the list: the
   * output ends with the body's code text, then `</ul>` if a list was open
   * when the fence began, then `</code></pre>`.
   */
  lemma UnclosedFence(pre: seq<string>, open: string, body: seq<string>)
    requires !Run(pre).state.inCode && IsFence(open)
    requires forall i :: 0 <= i < |body| ==> !IsFence(body[i])
    ensures Render(pre + [open] + body)
      == Run(pre).out + [CodeOpen] + CodeTexts(body) + CloseList(Run(pre).state) + [CodeClose]
  {
    RunAppendLine(pre, [open]);
    assert [open][..0] == [] && pre + [] == pre;
    CodeBodyVerbatim(pre + [open], body);
  }

  /** One more list item line after a prefix outside code. */
  lemma ListSnoc(pre: seq<string>, items: seq<string>)
    requires |items| > 0 && MatchListItem(items[|items| - 1]).Some?
    requires !Run(pre + items[..|items| - 1]).state.inCode
    ensures var before := Run(pre + items[..|items| - 1]);
      Run(pre + items) == StepResult(before.state.(inList := true),
        before.out + (if before.state.inList then [] else [ListOpen]) + [ListItem(MatchListItem(items[|items| - 1]).value)])
  {
    var before := Run(pre + items[..|items| - 1]);
    RunAppendLine(pre, items);
    ListStep(before.state, items[|items| - 1]);
    AppendAssoc(before.out, if before.state.inList then [] else [ListOpen], [ListItem(MatchListItem(items[|items| - 1]).value)]);
  }

  /**
   * A run of list item lines outside code forms one list: `<ul>` once, before
   * the first item, unless a list was already open, then one item per line
   * holding what the list pattern captured.
   */
  lemma {:induction false} ListRun(pre: seq<string>, items: seq<string>, contents: seq<string>)
    requires !Run(pre).state.inCode && |items| >= 1 && |contents| == |items|
    requires forall i :: 0 <= i < |items| ==> MatchListItem(items[i]) == Some(contents[i])
    ensures Run(pre + items) == StepResult(Run(pre).state.(inList := true),
      Run(pre).out + (if Run(pre).state.inList then [] else [ListOpen]) + ListItems(contents))
    decreases |items|
  {
    if |items| == 1 {
      ListRunFirst(pre, items, contents);
    } else {
      ListRun(pre, items[..|items| - 1], contents[..|items| - 1]);
      ListRunNext(pre, items, contents);
    }
  }

  lemma ListRunFirst(pre: seq<string>, items: seq<string>, contents: seq<string>)
    requires !Run(pre).state.inCode && |items| == 1 && |contents| == 1
    requires MatchListItem(items[0]) == Some(contents[0])
    ensures Run(pre + items) == StepResult(Run(pre).state.(inList := true),
      Run(pre).out + (if Run(pre).state.inList then [] else [ListOpen]) + ListItems(contents))
  {
    assert pre + items[..0] == pre;
    ListSnoc(pre, items);
    assert ListItems(contents) == [ListItem(contents[0])];
  }

  lemma {:induction false} ListRunNext(pre: seq<string>, items: seq<string>, contents: seq<string>)
    requires !Run(pre).state.inCode && |items| >= 2 && |contents| == |items|
    requires MatchListItem(items[|items| - 1]) == Some(contents[|items| - 1])
    requires Run(pre + items[..|items| - 1]) == StepResult(Run(pre).state.(inList := true),
      Run(pre).out + (if Run(pre).state.inList then [] else [ListOpen]) + ListItems(contents[..|items| - 1]))
    ensures Run(pre + items) == StepResult(Run(pre).state.(inList := true),
      Run(pre).out + (if Run(pre).state.inList then [] else [ListOpen]) + ListItems(contents))
  {
    var base, before, after := Run(pre), Run(pre + items[..|items| - 1]), Run(pre + items);
    assert before.state == base.state.(inList := true);
    ListSnocOpen(pre, items, contents[|items| - 1]);
    assert after == StepResult(before.state, before.out + [ListItem(contents[|contents| - 1])]);
    ListJoin(base, before, after, contents);
  }

  /** The step of `ListRunNext` on the results alone. */
  lemma ListJoin(base: StepResult, before: StepResult, after: StepResult, contents: seq<string>)
    requires |contents| > 0
    requires before == StepResult(base.state.(inList := true),
      base.out + (if base.state.inList then [] else [ListOpen]) + ListItems(contents[..|contents| - 1]))
    requires after == StepResult(before.state, before.out + [ListItem(contents[|contents| - 1])])
    ensures after == StepResult(base.state.(inList := true),
      base.out + (if base.state.inList then [] else [ListOpen]) + ListItems(contents))
  {
    ListItemsSnoc(contents);
    AppendAssoc(base.out + (if base.state.inList then [] else [ListOpen]),
      ListItems(contents[..|contents| - 1]), [ListItem(contents[|contents| - 1])]);
  }

  /** One more list item line while a list is open outside code. */
  lemma {:induction false} ListSnocOpen(pre: seq<string>, items: seq<string>, c: string)
    requires |items| > 0 && MatchListItem(items[|items| - 1]) == Some(c)
    requires !Run(pre + items[..|items| - 1]).state.inCode && Run(pre + items[..|items| - 1]).state.inList
    ensures var before := Run(pre + items[..|items| - 1]);
      Run(pre + items) == StepResult(before.state, before.out + [ListItem(c)])
  {
    var before := Run(pre + items[..|items| - 1]);
    RunAppendLine(pre, items);
    ListStep(before.state, items[|items| - 1]);
    assert [] + [ListItem(c)] == [ListItem(c)];
  }
}
