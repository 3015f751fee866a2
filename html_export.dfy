/** `formatAsHTML`: a pass over the lines of the text that keeps at most one
    list open and writes a fixed document shell around the body. The body
    is described by the tokens it is made of, so that the shape of the
    emitted tags can be stated apart from the raw line text inside them
    (which is inserted without escaping). */
module HtmlExport {
  import opened Js
  import opened MarkdownLines

  datatype ListKind = Unordered | Ordered

  function TagName(kind: ListKind): string
  {
    if kind == Unordered then "ul" else "ol"
  }

  datatype Token =
    | OpenList(kind: ListKind)
    | CloseList(kind: ListKind)
    | Heading(level: nat, text: string)
    | Item(text: string)
    | LineBreak
    | Paragraph(text: string)

  /** The markup of one token, grouped as the template literals of the
      source build it. */
  function Render(t: Token): string
  {
    match t
    case OpenList(k) => if k == Unordered then "<ul>" else "<ol>"
    case CloseList(k) => "</" + TagName(k) + ">"
    case Heading(n, text) =>
      if n == 1 then "<h1>" + text + "</h1>"
      else if n == 2 then "<h2>" + text + "</h2>"
      else "<h3>" + text + "</h3>"
    case Item(text) => "<li>" + text + "</li>"
    case LineBreak => "<br>"
    case Paragraph(text) => "<p>" + text + "</p>"
  }

  function RenderAll(ts: seq<Token>): string
  {
    Concat(ts, Render)
  }

  const Shell: string :=
    "<!DOCTYPE html>\n"
    + "<html>\n"
    + "<head>\n"
    + "  <meta charset=\"UTF-8\">\n"
    + "  <meta name=\"viewport\" content=\"width=device-width, initial-scale=1.0\">\n"
    + "  <title>Analysis Report</title>\n"
    + "  <style>\n"
    + "    body { font-family: Arial, sans-serif; line-height: 1.6; color: #333; max-width: 800px; margin: 0 auto; padding: 20px; }\n"
    + "    h1 { color: #2563eb; border-bottom: 1px solid #e5e7eb; padding-bottom: 8px; }\n"
    + "    h2 { color: #4f46e5; margin-top: 24px; }\n"
    + "    h3 { color: #7e22ce; }\n"
    + "    p { margin-bottom: 16px; }\n"
    + "    ul, ol { margin-bottom: 16px; }\n"
    + "    pre { background-color: #f3f4f6; padding: 15px; border-radius: 5px; overflow-x: auto; }\n"
    + "    table { border-collapse: collapse; width: 100%; margin: 20px 0; }\n"
    + "    th, td { border: 1px solid #e5e7eb; padding: 8px 12px; text-align: left; }\n"
    + "    th { background-color: #f3f4f6; }\n"
    + "  </style>\n"
    + "</head>\n"
    + "<body>\n"
    + "  <h1>Analysis Report</h1>\n"

  /** The footer; `generatedOn` stands for `new Date().toLocaleString()`. */
  function Footer(generatedOn: string): string
  {
    "<footer>\n    <p><small>Generated on " + generatedOn + "</small></p>\n  </footer>\n</body></html>"
  }

  // ---------------------------------------------------------------------
  // What each line contributes

  /** The list a line belongs in: bullets in a `<ul>`, numbered items in an
      `<ol>`, headings and everything else in none. */
  function ListOf(line: string): Option<ListKind>
  {
    if HeadingLevel(line) > 0 then None
    else if IsBullet(line) then Some(Unordered)
    else if IsNumbered(line) then Some(Ordered)
    else None
  }

  /** The element a line becomes. */
  function Content(line: string): Token
  {
    if HeadingLevel(line) > 0 then Heading(HeadingLevel(line), HeadingTitle(line))
    else if IsBullet(line) then Item(BulletText(line))
    else if IsNumbered(line) then Item(NumberedText(line))
    else if Trim(line) == "" then LineBreak
    else Paragraph(line)
  }

  datatype ListState = NoList | InList(kind: ListKind)

  function StateFor(want: Option<ListKind>): ListState
  {
    if want.Some? then InList(want.value) else NoList
  }

  function CloseIfOpen(st: ListState): seq<Token>
  {
    if st.InList? then [CloseList(st.kind)] else []
  }

  /** The list tags between the state before a line and the state it needs:
      nothing when they agree, otherwise close the open list (if any) and
      open the wanted one (if any). */
  function Transition(st: ListState, want: Option<ListKind>): seq<Token>
  {
    if st == StateFor(want) then []
    else CloseIfOpen(st) + (if want.Some? then [OpenList(want.value)] else [])
  }

  function Step(st: ListState, line: string): (seq<Token>, ListState)
  {
    (Transition(st, ListOf(line)) + [Content(line)], StateFor(ListOf(line)))
  }

  /** The tokens written for `lines` and the list state afterwards. */
  function Run(lines: seq<string>): (seq<Token>, ListState)
    decreases |lines|
  {
    if |lines| == 0 then ([], NoList)
    else
      var before := Run(lines[..|lines| - 1]);
      var after := Step(before.1, lines[|lines| - 1]);
      (before.0 + after.0, after.1)
  }

  /** The body: every line's tokens, then the closing tag of a list still open. */
  function BodyTokens(lines: seq<string>): seq<Token>
  {
    Run(lines).0 + CloseIfOpen(Run(lines).1)
  }

  function HtmlDocument(markdownContent: string, generatedOn: string): string
  {
    Shell + RenderAll(BodyTokens(Split(markdownContent, '\n'))) + Footer(generatedOn)
  }

  // ---------------------------------------------------------------------
  // The converter

  /** The list state that the source's `inList` and `listType` stand for. */
  function StateOf(inList: bool, listType: string): ListState
  {
    if !inList then NoList else if listType == "ul" then InList(Unordered) else InList(Ordered)
  }

  lemma RenderAllAppend(a: seq<Token>, b: seq<Token>)
    ensures RenderAll(a + b) == RenderAll(a) + RenderAll(b)
  {
    ConcatAppend(a, b, Render);
  }

  lemma RenderOne(t: Token)
    ensures RenderAll([t]) == Render(t)
  {
    ConcatOne(t, Render);
  }

  function CloseTag(st: ListState): string
  {
    if st.InList? then "</" + TagName(st.kind) + ">" else ""
  }

  function OpenTag(want: Option<ListKind>): string
  {
    if want.Some? then Render(OpenList(want.value)) else ""
  }

  /** The list tags written before a line's element. */
  function TransitionTag(st: ListState, want: Option<ListKind>): string
  {
    if st == StateFor(want) then "" else CloseTag(st) + OpenTag(want)
  }

  lemma CloseRender(st: ListState)
    ensures RenderAll(CloseIfOpen(st)) == CloseTag(st)
  {
    if st.InList? {
      RenderOne(CloseList(st.kind));
    }
  }

  lemma StepRender(st: ListState, line: string)
    ensures RenderAll(Step(st, line).0) == TransitionTag(st, ListOf(line)) + Render(Content(line))
  {
    var want := ListOf(line);
    var opening: seq<Token> := if want.Some? then [OpenList(want.value)] else [];
    RenderAllAppend(Transition(st, want), [Content(line)]);
    RenderOne(Content(line));
    if st != StateFor(want) {
      RenderAllAppend(CloseIfOpen(st), opening);
      CloseRender(st);
      if want.Some? {
        RenderOne(OpenList(want.value));
      }
    }
  }

  /** `if (inList) { html += `</${listType}>`; inList = false; }`, which
      the callback runs before every element outside a list. */
  method CloseOpenList(html: string, inList: bool, listType: string) returns (html': string, inList': bool)
    requires inList ==> listType == "ul" || listType == "ol"
    ensures html' == html + CloseTag(StateOf(inList, listType)) && !inList'
  {
    html', inList' := html, inList;
    if inList' {
      html' := html' + ("</" + listType + ">");
      inList' := false;
    }
  }

  /** `if (!inList || listType !== want) { … }` before a list item: a list
      of the other kind is closed and one of kind `want` is opened, unless
      that list is already open. */
  method EnterList(html: string, inList: bool, listType: string, want: string)
      returns (html': string, inList': bool, listType': string)
    requires inList ==> listType == "ul" || listType == "ol"
    requires want == "ul" || want == "ol"
    ensures inList' && listType' == want
    ensures var kind := if want == "ul" then Unordered else Ordered;
            html' == html + TransitionTag(StateOf(inList, listType), Some(kind))
  {
    html', inList', listType' := html, inList, listType;
    ghost var closing := CloseTag(StateOf(inList, listType));
    assert closing == if inList then "</" + listType + ">" else "";
    if !inList' || listType' != want {
      if inList' {
        html' := html' + ("</" + listType' + ">");
      }
      html' := html' + ("<" + want + ">");
      inList' := true;
      listType' := want;
      Assoc(html, closing, "<" + want + ">");
    }
  }

  /** The callback `formatAsHTML` runs on each line: it appends the line's
      markup to `html` and updates the open-list flags. */
  method AddLine(html: string, inList: bool, listType: string, line: string)
      returns (html': string, inList': bool, listType': string)
    requires inList ==> listType == "ul" || listType == "ol"
    ensures inList' ==> listType' == "ul" || listType' == "ol"
    ensures StateOf(inList', listType') == Step(StateOf(inList, listType), line).1
    ensures html' == html + RenderAll(Step(StateOf(inList, listType), line).0)
  {
    ghost var st := StateOf(inList, listType);
    ghost var t := TransitionTag(st, ListOf(line));
    ghost var e := Render(Content(line));
    html', inList', listType' := html, inList, listType;
    if StartsWith(line, "# ") {
      html', inList' := CloseOpenList(html', inList', listType');
      assert ListOf(line) == None && Content(line) == Heading(1, line[2..]);
      assert html' == html + t;
      html' := html' + ("<h1>" + line[2..] + "</h1>");
    } else if StartsWith(line, "## ") {
      html', inList' := CloseOpenList(html', inList', listType');
      assert ListOf(line) == None && Content(line) == Heading(2, line[3..]);
      assert html' == html + t;
      html' := html' + ("<h2>" + line[3..] + "</h2>");
    } else if StartsWith(line, "### ") {
      html', inList' := CloseOpenList(html', inList', listType');
      assert ListOf(line) == None && Content(line) == Heading(3, line[4..]);
      assert html' == html + t;
      html' := html' + ("<h3>" + line[4..] + "</h3>");
    } else if StartsWith(line, "- ") || StartsWith(line, "* ") {
      assert ListOf(line) == Some(Unordered) && Content(line) == Item(BulletText(line));
      html', inList', listType' := EnterList(html', inList', listType', "ul");
      assert html' == html + t;
      html' := html' + ("<li>" + BulletText(line) + "</li>");
    } else if IsNumbered(line) {
      assert ListOf(line) == Some(Ordered) && Content(line) == Item(NumberedText(line));
      html', inList', listType' := EnterList(html', inList', listType', "ol");
      assert html' == html + t;
      html' := html' + ("<li>" + NumberedText(line) + "</li>");
    } else if Trim(line) == "" {
      assert ListOf(line) == None && Content(line) == LineBreak;
      html', inList' := CloseOpenList(html', inList', listType');
      assert html' == html + t;
      html' := html' + "<br>";
    } else {
      assert ListOf(line) == None && Content(line) == Paragraph(line);
      html', inList' := CloseOpenList(html', inList', listType');
      assert html' == html + t;
      html' := html' + ("<p>" + line + "</p>");
    }
    assert html' == html + t + e;
    StepRender(st, line);
    Assoc(html, t, e);
  }

  /** The markup of every line of `lines`, appended to `html`: the
      `forEach` of `formatAsHTML` and the closing of a list left open. */
  method AppendBody(html: string, lines: seq<string>) returns (html': string)
    ensures html' == html + RenderAll(BodyTokens(lines))
  {
    html' := html;
    var inList := false;
    var listType := "";
    for i := 0 to |lines|
      invariant inList ==> listType == "ul" || listType == "ol"
      invariant StateOf(inList, listType) == Run(lines[..i]).1
      invariant html' == html + RenderAll(Run(lines[..i]).0)
    {
      assert lines[..i + 1][..i] == lines[..i];
      ghost var before := Run(lines[..i]);
      ghost var step := Step(before.1, lines[i]);
      assert Run(lines[..i + 1]) == (before.0 + step.0, step.1);
      html', inList, listType := AddLine(html', inList, listType, lines[i]);
      RenderAllAppend(before.0, step.0);
      Assoc(html, RenderAll(before.0), RenderAll(step.0));
    }
    assert lines[..|lines|] == lines;
    ghost var body := Run(lines).0;
    ghost var closing := CloseIfOpen(Run(lines).1);
    CloseRender(Run(lines).1);
    if inList {
      html' := html' + ("</" + listType + ">");
    }
    RenderAllAppend(body, closing);
    Assoc(html, RenderAll(body), RenderAll(closing));
  }

  /** `formatAsHTML(markdownContent)`, with the footer's timestamp given. */
  method FormatAsHTML(markdownContent: string, generatedOn: string) returns (html: string)
    ensures html == HtmlDocument(markdownContent, generatedOn)
  {
    var lines := Split(markdownContent, '\n');
    html := Shell;
    html := AppendBody(html, lines);
    html := html + Footer(generatedOn);
  }

  // ---------------------------------------------------------------------
  // Well-formed lists

  /** The list state after token `t`, admitting only well-formed lists: a
      list opens when none is open and closes only the open one; items
      stand inside a list and every other element outside. None for a
      misplaced token. */
  function NestStep(t: Token, st: ListState): Option<ListState>
  {
    match t
    case OpenList(k) => if st == NoList then Some(InList(k)) else None
    case CloseList(k) => if st == InList(k) then Some(NoList) else None
    case Item(_) => if st.InList? then Some(st) else None
    case _ => if st == NoList then Some(st) else None
  }

  /** Reads tokens from list state `st`: the state reached, or None at the
      first misplaced token. */
  function Nest(ts: seq<Token>, st: ListState): Option<ListState>
    decreases |ts|
  {
    if |ts| == 0 then Some(st)
    else if NestStep(ts[0], st).None? then None
    else Nest(ts[1..], NestStep(ts[0], st).value)
  }

  /** Every emitted list is opened once and closed once, items sit inside
      lists, and nothing is left open. */
  predicate WellNested(ts: seq<Token>)
  {
    Nest(ts, NoList) == Some(NoList)
  }

  lemma {:induction false} NestAppend(a: seq<Token>, b: seq<Token>, st: ListState)
    requires Nest(a, st).Some?
    ensures Nest(a + b, st) == Nest(b, Nest(a, st).value)
    decreases |a|
  {
    if |a| == 0 {
      assert a + b == b;
    } else {
      assert (a + b)[0] == a[0];
      assert (a + b)[1..] == a[1..] + b;
      NestAppend(a[1..], b, NestStep(a[0], st).value);
    }
  }

  lemma NestOne(t: Token, st: ListState)
    ensures Nest([t], st) == NestStep(t, st)
  {
    assert [t][1..] == [];
  }

  function OpenIfWanted(want: Option<ListKind>): seq<Token>
  {
    if want.Some? then [OpenList(want.value)] else []
  }

  lemma StepNests(st: ListState, line: string)
    ensures Nest(Step(st, line).0, st) == Some(Step(st, line).1)
  {
    var want := ListOf(line);
    var c := Content(line);
    assert c.Item? <==> want.Some?;
    NestOne(c, StateFor(want));
    if st != StateFor(want) {
      var closing := CloseIfOpen(st);
      var opening := OpenIfWanted(want);
      assert Transition(st, want) == closing + opening;
      assert Nest(closing, st) == Some(NoList) by {
        if st.InList? {
          NestOne(CloseList(st.kind), st);
        }
      }
      assert Nest(opening, NoList) == Some(StateFor(want)) by {
        if want.Some? {
          NestOne(OpenList(want.value), NoList);
        }
      }
      NestAppend(closing, opening, st);
      NestAppend(closing + opening, [c], st);
    }
  }

  lemma {:induction false} RunNests(lines: seq<string>)
    ensures Nest(Run(lines).0, NoList) == Some(Run(lines).1)
    decreases |lines|
  {
    if |lines| > 0 {
      var before := Run(lines[..|lines| - 1]);
      RunNests(lines[..|lines| - 1]);
      StepNests(before.1, lines[|lines| - 1]);
      NestAppend(before.0, Step(before.1, lines[|lines| - 1]).0, NoList);
    }
  }

  /** The body of every document is well nested. */
  lemma BodyWellNested(lines: seq<string>)
    ensures WellNested(BodyTokens(lines))
  {
    RunNests(lines);
    var st := Run(lines).1;
    NestAppend(Run(lines).0, CloseIfOpen(st), NoList);
    if st.InList? {
      NestOne(CloseList(st.kind), st);
    }
  }

  function CountOpen(ts: seq<Token>, k: ListKind): nat
    decreases |ts|
  {
    if |ts| == 0 then 0 else (if ts[0] == OpenList(k) then 1 else 0) + CountOpen(ts[1..], k)
  }

  function CountClose(ts: seq<Token>, k: ListKind): nat
    decreases |ts|
  {
    if |ts| == 0 then 0 else (if ts[0] == CloseList(k) then 1 else 0) + CountClose(ts[1..], k)
  }

  function OpenCount(st: ListState, k: ListKind): nat
  {
    if st == InList(k) then 1 else 0
  }

  lemma {:induction false} NestCounts(ts: seq<Token>, st: ListState, k: ListKind)
    requires Nest(ts, st).Some?
    ensures CountOpen(ts, k) + OpenCount(st, k) == CountClose(ts, k) + OpenCount(Nest(ts, st).value, k)
    decreases |ts|
  {
    if |ts| > 0 {
      NestCounts(ts[1..], NestStep(ts[0], st).value, k);
    }
  }

  /** As many `<ul>` as `</ul>` tags, and as many `<ol>` as `</ol>`, are
      emitted for every input. */
  lemma BalancedTags(lines: seq<string>, k: ListKind)
    ensures CountOpen(BodyTokens(lines), k) == CountClose(BodyTokens(lines), k)
  {
    BodyWellNested(lines);
    NestCounts(BodyTokens(lines), NoList, k);
  }

  /** Two consecutive items of the same kind share one list: the second
      adds its `<li>` and no list tag. */
  lemma ConsecutiveItemsShareList(pre: seq<string>, a: string, b: string)
    requires ListOf(a).Some? && ListOf(a) == ListOf(b)
    ensures Run(pre + [a, b]).0 == Run(pre + [a]).0 + [Content(b)]
  {
    var lines := pre + [a, b];
    assert lines[..|lines| - 1] == pre + [a];
    assert (pre + [a])[..|pre + [a]| - 1] == pre;
  }

  predicate IsListTag(t: Token)
  {
    t.OpenList? || t.CloseList?
  }

  /** Non-list tokens of `ts`, in order. */
  function Elements(ts: seq<Token>): seq<Token>
    decreases |ts|
  {
    if |ts| == 0 then []
    else (if IsListTag(ts[0]) then [] else [ts[0]]) + Elements(ts[1..])
  }

  lemma {:induction false} ElementsAppend(a: seq<Token>, b: seq<Token>)
    ensures Elements(a + b) == Elements(a) + Elements(b)
    decreases |a|
  {
    if |a| == 0 {
      assert a + b == b;
    } else {
      assert (a + b)[0] == a[0];
      assert (a + b)[1..] == a[1..] + b;
      ElementsAppend(a[1..], b);
    }
  }

  lemma ListTagsNoElements(ts: seq<Token>)
    requires |ts| <= 2 && forall i :: 0 <= i < |ts| ==> IsListTag(ts[i])
    ensures Elements(ts) == []
  {
    if |ts| == 1 {
      assert ts[1..] == [];
    } else if |ts| == 2 {
      assert ts[1..][1..] == [];
    }
  }

  /** The element each line becomes, in input order. */
  function Contents(lines: seq<string>): (r: seq<Token>)
    ensures |r| == |lines|
    ensures forall i :: 0 <= i < |lines| ==> r[i] == Content(lines[i])
  {
    seq(|lines|, i requires 0 <= i < |lines| => Content(lines[i]))
  }

  lemma ContentsSnoc(lines: seq<string>)
    requires |lines| > 0
    ensures Contents(lines) == Contents(lines[..|lines| - 1]) + [Content(lines[|lines| - 1])]
  {
  }

  lemma StepElements(st: ListState, line: string)
    ensures Elements(Step(st, line).0) == [Content(line)]
  {
    var c := Content(line);
    var t := Transition(st, ListOf(line));
    ElementsAppend(t, [c]);
    ListTagsNoElements(t);
    assert [c][1..] == [];
  }

  lemma {:induction false} RunElements(lines: seq<string>)
    ensures Elements(Run(lines).0) == Contents(lines)
    decreases |lines|
  {
    if |lines| > 0 {
      var init := lines[..|lines| - 1];
      var before := Run(init);
      var step := Step(before.1, lines[|lines| - 1]);
      assert Run(lines).0 == before.0 + step.0;
      RunElements(init);
      ElementsAppend(before.0, step.0);
      StepElements(before.1, lines[|lines| - 1]);
      ContentsSnoc(lines);
    }
  }

  /** Every line yields exactly one element (heading, item, line break or
      paragraph), in input order; list tags are the only other tokens. */
  lemma OneElementPerLine(lines: seq<string>)
    ensures Elements(BodyTokens(lines)) == Contents(lines)
  {
    var st := Run(lines).1;
    ElementsAppend(Run(lines).0, CloseIfOpen(st));
    ListTagsNoElements(CloseIfOpen(st));
    RunElements(lines);
  }
}
