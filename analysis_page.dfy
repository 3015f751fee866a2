/** The analysis page: the state `handleFinish` leaves behind, what
    `renderAnalysisContent` shows for a state, and how it classifies each
    body line of a section. */
module AnalysisPage {
  import opened Js
  import opened MarkdownLines
  import PlainText
  import Segmenter
  import DocumentGeneration

  // ---------------------------------------------------------------------
  // Bold runs

  /** `s.includes("**")`. */
  predicate HasBold(s: string)
  {
    exists k :: 0 <= k < |s| - 1 && s[k] == '*' && s[k + 1] == '*'
  }

  /** The identity on parts: `Concat(parts, Id)` joins the parts back into
      one string. It is named rather than written `s => s` because two
      separate lambdas are not known to be equal, and the lemmas below must
      agree on the function they join with. */
  function Id(s: string): string
  {
    s
  }

  /** `s.split(/(\*\*.*?\*\*)/g)` continued from a text part `pending`
      already collected: the split tries a match at every position in
      turn; a match ends the text part and is kept as its own part (the
      pattern's capture group), and the text after the last match is the
      final part. */
  function BoldParts(s: string, pending: string): (parts: seq<string>)
    ensures |parts| % 2 == 1
    decreases |s|
  {
    if |s| == 0 then [pending]
    else if StartsWith(s, "**") && PlainText.FindOnLine(s, 2, "**").Some? then
      var q := PlainText.FindOnLine(s, 2, "**").value;
      [pending, s[..q + 2]] + BoldParts(s[q + 2..], "")
    else BoldParts(s[1..], pending + [s[0]])
  }

  /** A matched run: `**`, text on one line, `**`. */
  predicate IsBoldRun(x: string)
  {
    |x| >= 4 && StartsWith(x, "**") && x[|x| - 2..] == "**"
    && forall k :: 2 <= k < |x| - 2 ==> !IsLineTerminator(x[k])
  }

  /** `part.slice(2, -2)`: empty when the part is shorter than five. */
  function Inner(part: string): string
  {
    if |part| >= 4 then part[2..|part| - 2] else ""
  }

  /** What a part renders as. */
  datatype Piece = Text(text: string) | Strong(text: string)

  /** A part that starts and ends with `**` is shown in bold without them;
      any other part is shown as it is. */
  function ShowPart(part: string): (p: Piece)
    ensures p.Text? ==> p.text == part
    ensures p.Strong? <==> StartsWith(part, "**") && |part| >= 2 && part[|part| - 2..] == "**"
    ensures p.Strong? ==> p.text == Inner(part)
    ensures IsBoldRun(part) ==> p == Strong(Inner(part)) && "**" + p.text + "**" == part
  {
    if StartsWith(part, "**") && |part| >= 2 && part[|part| - 2..] == "**" then Strong(Inner(part))
    else Text(part)
  }

  function ShowParts(parts: seq<string>): (r: seq<Piece>)
    ensures |r| == |parts| && forall k :: 0 <= k < |parts| ==> r[k] == ShowPart(parts[k])
  {
    if |parts| == 0 then [] else [ShowPart(parts[0])] + ShowParts(parts[1..])
  }

  // ---------------------------------------------------------------------
  // Body lines

  /** How one body line is shown. */
  datatype Paragraph =
    | Bullet(text: string)
    | Numbered(number: string, text: string)
    | Rich(parts: seq<string>, pieces: seq<Piece>)
    | Plain(text: string)
    | Omitted

  /** The classifier of the section body's `map`, tests in the source's order. */
  function Classify(p: string): (r: Paragraph)
    ensures r.Bullet? <==> IsBullet(p)
    ensures r.Numbered? ==> |r.number| > 0 && (forall i :: 0 <= i < |r.number| ==> IsDigit(r.number[i]))
                            && r.number + ". " + r.text == p
    ensures r.Rich? ==> HasBold(p) && |r.pieces| == |r.parts|
                        && forall k :: 0 <= k < |r.parts| ==> r.pieces[k] == ShowPart(r.parts[k])
    ensures r.Plain? ==> r.text == p
    ensures IsBullet(p) ==> r == Bullet(BulletText(p))
    ensures !IsBullet(p) && IsNumbered(p) ==> r.Numbered? && |r.number| == DigitRun(p)
    ensures !IsBullet(p) && !IsNumbered(p) && HasBold(p) ==> r.Rich? && r.parts == BoldParts(p, "")
    ensures !IsBullet(p) && !IsNumbered(p) && !HasBold(p) ==> r == if Trim(p) != "" then Plain(p) else Omitted
  {
    if IsBullet(p) then Bullet(BulletText(p))
    else if IsNumbered(p) then
      var n := DigitRun(p);
      assert p[..n] + ". " + p[n + 2..] == p by {
        assert p[n..][..2] == ". ";
        assert p[n..n + 2] == ". ";
        assert p[..n] + p[n..n + 2] + p[n + 2..] == p;
      }
      Numbered(p[..n], NumberedText(p))
    else if HasBold(p) then
      var parts := BoldParts(p, "");
      Rich(parts, ShowParts(parts))
    else if Trim(p) != "" then Plain(p)
    else Omitted
  }

  lemma ClassifyBlank(p: string)
    ensures Classify(p).Omitted? <==> AllSpace(p)
  {
    TrimBlank(p);
    if AllSpace(p) {
      if |p| > 0 {
        assert IsSpace(p[0]);
        assert !IsBullet(p);
        assert !IsNumbered(p) by {
          assert !IsDigit(p[0]);
        }
        assert !HasBold(p);
      }
    }
  }

  /** Both bullet markers are written `- text` and `* text`. */
  lemma BulletOf(text: string)
    requires !StartsWith(text, "* ")
    ensures Classify("- " + text) == Bullet(text)
    ensures Classify("* " + text) == Bullet(text)
  {
    var a := "- " + text;
    var b := "* " + text;
    assert a[..2] == "- " && a[2..] == text;
    assert b[..2] == "* " && b[2..] == text;
    assert !StartsWith(b, "- ") by { assert b[0] == '*'; }
  }

  /** The parts of the split, concatenated, are the line again: the split
      drops no character because the matched runs are kept. */
  lemma {:induction false} BoldPartsJoin(s: string, pending: string)
    ensures Concat(BoldParts(s, pending), Id) == pending + s
    decreases |s|
  {
    if |s| == 0 {
      ConcatOne(pending, Id);
    } else if StartsWith(s, "**") && PlainText.FindOnLine(s, 2, "**").Some? {
      var q := PlainText.FindOnLine(s, 2, "**").value;
      BoldPartsJoin(s[q + 2..], "");
      JoinRun(s, pending, q);
    } else {
      BoldPartsJoin(s[1..], pending + [s[0]]);
      JoinPlain(s, pending);
    }
  }

  lemma JoinPlain(s: string, pending: string)
    requires |s| > 0 && !(StartsWith(s, "**") && PlainText.FindOnLine(s, 2, "**").Some?)
    requires Concat(BoldParts(s[1..], pending + [s[0]]), Id) == pending + [s[0]] + s[1..]
    ensures Concat(BoldParts(s, pending), Id) == pending + s
  {
    TakeDrop(s, 1);
    assert s[..1] == [s[0]];
    Assoc(pending, [s[0]], s[1..]);
  }

  predicate RunsAtOdd(parts: seq<string>)
  {
    forall k :: 0 <= k < |parts| && k % 2 == 1 ==> IsBoldRun(parts[k])
  }

  lemma JoinRun(s: string, pending: string, q: nat)
    requires StartsWith(s, "**") && PlainText.FindOnLine(s, 2, "**") == Some(q)
    requires Concat(BoldParts(s[q + 2..], ""), Id) == "" + s[q + 2..]
    ensures Concat(BoldParts(s, pending), Id) == pending + s
  {
    var m := s[..q + 2];
    var tail := s[q + 2..];
    var rest := BoldParts(tail, "");
    var parts := BoldParts(s, pending);
    assert parts == [pending, m] + rest by {
      BoldPartsMatch(s, pending, q);
    }
    assert Concat(parts, Id) == pending + m + Concat(rest, Id) by {
      ConcatPair(pending, m, rest);
    }
    assert Concat(rest, Id) == tail;
    assert pending + m + tail == pending + s by {
      Assoc(pending, m, tail);
      TakeDrop(s, q + 2);
    }
  }


  /** The split at a match: the pending text, the run, then the rest. */
  lemma BoldPartsMatch(s: string, pending: string, q: nat)
    requires StartsWith(s, "**") && PlainText.FindOnLine(s, 2, "**") == Some(q)
    ensures q + 2 <= |s|
    ensures BoldParts(s, pending) == [pending, s[..q + 2]] + BoldParts(s[q + 2..], "")
  {
  }

  lemma ConcatPair(a: string, b: string, rest: seq<string>)
    ensures Concat([a, b] + rest, Id) == a + b + Concat(rest, Id)
  {
    var head := [a, b];
    ConcatAppend(head, rest, Id);
    assert head == [a] + [b];
    ConcatAppend([a], [b], Id);
    ConcatOne(a, Id);
    ConcatOne(b, Id);
  }

  /** Every second part is a matched run, shown bold without its `**`. */
  lemma {:induction false} BoldPartsRuns(s: string, pending: string)
    ensures RunsAtOdd(BoldParts(s, pending))
    decreases |s|
  {
    if |s| == 0 {
    } else if StartsWith(s, "**") && PlainText.FindOnLine(s, 2, "**").Some? {
      var q := PlainText.FindOnLine(s, 2, "**").value;
      BoldPartsRuns(s[q + 2..], "");
      MatchIsRun(s, q);
      RunsPrepend(pending, s[..q + 2], BoldParts(s[q + 2..], ""));
    } else {
      BoldPartsRuns(s[1..], pending + [s[0]]);
    }
  }

  lemma MatchIsRun(s: string, q: nat)
    requires StartsWith(s, "**") && PlainText.FindOnLine(s, 2, "**") == Some(q)
    ensures IsBoldRun(s[..q + 2])
  {
    var m := s[..q + 2];
    assert m[q..] == s[q..q + 2];
    assert m[..2] == s[..2];
    forall k | 2 <= k < |m| - 2 ensures !IsLineTerminator(m[k]) {
      assert m[k] == s[k];
    }
  }

  lemma RunsPrepend(pending: string, m: string, rest: seq<string>)
    requires IsBoldRun(m) && RunsAtOdd(rest)
    ensures RunsAtOdd([pending, m] + rest)
  {
    var parts := [pending, m] + rest;
    forall k | 0 <= k < |parts| && k % 2 == 1 ensures IsBoldRun(parts[k]) {
      if k >= 2 {
        assert parts[k] == rest[k - 2];
        assert (k - 2) % 2 == 1;
      } else {
        assert parts[k] == m;
      }
    }
  }

  /** Text without `*` stays in the current text part. */
  lemma {:induction false} BoldPartsPlain(pre: string, rest: string, pending: string)
    requires '*' !in pre
    ensures BoldParts(pre + rest, pending) == BoldParts(rest, pending + pre)
    decreases |pre|
  {
    if |pre| == 0 {
      assert pre + rest == rest;
      assert pending + pre == pending;
    } else {
      var s := pre + rest;
      assert s[0] == pre[0];
      assert !StartsWith(s, "**");
      assert s[1..] == pre[1..] + rest;
      BoldPartsPlain(pre[1..], rest, pending + [s[0]]);
      assert pending + [s[0]] + pre[1..] == pending + pre;
    }
  }

  /** A run `**x**` on one line is one part of its own. */
  lemma BoldPartsRun(x: string, rest: string, pending: string)
    requires '*' !in x && PlainText.NoTerminator(x)
    ensures BoldParts("**" + x + "**" + rest, pending) == [pending, "**" + x + "**"] + BoldParts(rest, "")
  {
    var s := "**" + x + "**" + rest;
    var q := 2 + |x|;
    assert s[q..q + 2] == "**";
    forall k | 2 <= k < q ensures s[k] != '*' && !IsLineTerminator(s[k]) {
      assert s[k] == x[k - 2];
    }
    PlainText.FindAfter(s, 2, q, "**");
    assert s[..2] == "**";
    assert s[..q + 2] == "**" + x + "**";
    assert s[q + 2..] == rest;
  }

  /** A line `a**b**c` whose three texts hold no `*` shows `a`, then `b`
      in bold, then `c`. */
  lemma OneBoldRun(a: string, b: string, c: string)
    requires '*' !in a && '*' !in b && '*' !in c && PlainText.NoTerminator(b)
    requires !IsBullet(a + "**" + b + "**" + c) && !IsNumbered(a + "**" + b + "**" + c)
    ensures Classify(a + "**" + b + "**" + c) == Rich([a, "**" + b + "**", c], [Text(a), Strong(b), Text(c)])
  {
    var p := a + "**" + b + "**" + c;
    assert HasBold(p) by {
      assert p[|a|] == '*' && p[|a| + 1] == '*';
    }
    SplitOneRun(a, b, c, p);
    ShowOneRun(a, b, c);
  }

  /** The split of `a**b**c`. */
  lemma SplitOneRun(a: string, b: string, c: string, p: string)
    requires '*' !in a && '*' !in b && '*' !in c && PlainText.NoTerminator(b)
    requires p == a + "**" + b + "**" + c
    ensures BoldParts(p, "") == [a, "**" + b + "**", c]
  {
    var m := "**" + b + "**";
    RunShape(a, b, c);
    PlainHead(a, m + c, p);
    BoldPartsRun(b, c, a);
    PlainAll(c);
    assert [a, m] + [c] == [a, m, c];
  }

  lemma RunShape(a: string, b: string, c: string)
    ensures a + "**" + b + "**" + c == a + ("**" + b + "**" + c)
  {
  }

  lemma PlainHead(a: string, r: string, p: string)
    requires '*' !in a && p == a + r
    ensures BoldParts(p, "") == BoldParts(r, a)
  {
    BoldPartsPlain(a, r, "");
    assert "" + a == a;
  }

  lemma PlainAll(c: string)
    requires '*' !in c
    ensures BoldParts(c, "") == [c]
  {
    BoldPartsPlain(c, [], []);
    assert c + [] == c && [] + c == c;
  }

  lemma ShowOneRun(a: string, b: string, c: string)
    requires '*' !in a && '*' !in c
    ensures ShowParts([a, "**" + b + "**", c]) == [Text(a), Strong(b), Text(c)]
  {
    ShowRun(b);
    assert ShowPart(a) == Text(a) by { if |a| > 0 { assert a[0] != '*'; } }
    assert ShowPart(c) == Text(c) by { if |c| > 0 { assert c[0] != '*'; } }
  }

  /** `**x**` is shown as `x` in bold. */
  lemma ShowRun(x: string)
    ensures ShowPart("**" + x + "**") == Strong(x)
  {
    var m := "**" + x + "**";
    assert m[..2] == "**";
    assert m[|m| - 2..] == "**";
    assert m[2..|m| - 2] == x;
  }

  // ---------------------------------------------------------------------
  // The view

  function ClassifyAll(lines: seq<string>): (r: seq<Paragraph>)
    ensures |r| == |lines| && forall k :: 0 <= k < |lines| ==> r[k] == Classify(lines[k])
  {
    if |lines| == 0 then [] else [Classify(lines[0])] + ClassifyAll(lines[1..])
  }

  /** A section as shown: its title when truthy, with its level, and its
      classified body lines. */
  datatype Shown = Shown(heading: Option<(nat, string)>, paragraphs: seq<Paragraph>)

  function ShowSection(s: Segmenter.Section): (r: Shown)
    ensures r.heading.Some? <==> Segmenter.TitleTruthy(s)
    ensures |r.paragraphs| == |s.content|
    ensures forall k :: 0 <= k < |s.content| ==> r.paragraphs[k] == Classify(s.content[k])
  {
    Shown(if Segmenter.TitleTruthy(s) then Some((s.level, s.title.value)) else None,
          ClassifyAll(s.content))
  }

  function ShowAll(ss: seq<Segmenter.Section>): (r: seq<Shown>)
    ensures |r| == |ss| && forall k :: 0 <= k < |ss| ==> r[k] == ShowSection(ss[k])
  {
    if |ss| == 0 then [] else [ShowSection(ss[0])] + ShowAll(ss[1..])
  }

  /** What `renderAnalysisContent` returns. */
  datatype Screen =
    | Streaming(text: string)
    | NothingYet
    | Sections(sections: seq<Shown>)
    | Crashed(message: string)

  /** The page for a state, `stringify` standing for
      `JSON.stringify(value, null, 2)`: streaming text first, nothing
      without a result, else the sections of the selected content; a
      content that is not a string makes `content.split` throw. */
  function PageFor(analysisResult: Value, streamingMessage: string, stringify: Value -> string): Screen
  {
    if streamingMessage != "" then Streaming(streamingMessage)
    else if !Truthy(analysisResult) then NothingYet
    else
      match AsString(DocumentGeneration.AnalysisContent(analysisResult, stringify), "content", "split")
      case Thrown(m) => Crashed(m)
      case Ok(content) =>
        Sections(ShowAll(Segmenter.Sections(content)))
  }

  /** The result `handleFinish` stores. */
  function Finished(message: string): Value
  {
    Obj(map["analysis" := Str(message)])
  }

  /** The page state `renderAnalysisContent` reads. */
  class View {
    var analysisResult: Value
    var streamingMessage: string
    var loading: bool

    constructor()
      ensures analysisResult == Null && streamingMessage == "" && !loading
    {
      analysisResult := Null;
      streamingMessage := "";
      loading := false;
    }

    /** The stream's `onFinish`: the whole message becomes the result. */
    method HandleFinish(message: string)
      modifies this
      ensures analysisResult == Finished(message)
      ensures streamingMessage == "" && !loading
    {
      analysisResult := Finished(message);
      streamingMessage := "";
      loading := false;
    }

    /** `renderAnalysisContent()` for the current state. */
    method RenderAnalysisContent(stringify: Value -> string) returns (screen: Screen)
      ensures screen == PageFor(analysisResult, streamingMessage, stringify)
    {
      if streamingMessage != "" {
        return Streaming(streamingMessage);
      }
      if !Truthy(analysisResult) {
        return NothingYet;
      }
      var content := DocumentGeneration.AnalysisContent(analysisResult, stringify);
      var text := AsString(content, "content", "split");
      if text.Thrown? {
        return Crashed(text.message);
      }
      var sections := Segmenter.SplitSections(text.value);
      var shown: seq<Shown> := [];
      for i := 0 to |sections|
        invariant |shown| == i
        invariant forall k :: 0 <= k < i ==> shown[k] == ShowSection(sections[k])
      {
        shown := shown + [ShowSection(sections[i])];
      }
      ShownAll(sections, shown);
      screen := Sections(shown);
    }
  }

  lemma ShownAll(ss: seq<Segmenter.Section>, shown: seq<Shown>)
    requires |shown| == |ss| && forall k :: 0 <= k < |ss| ==> shown[k] == ShowSection(ss[k])
    ensures shown == ShowAll(ss)
  {
  }

  // ---------------------------------------------------------------------
  // Properties

  /** Once the stream has finished with a non-empty message, the page shows
      that message's sections, at least one of them. */
  lemma AfterFinish(message: string, stringify: Value -> string)
    requires message != ""
    ensures var s := PageFor(Finished(message), "", stringify);
            && s.Sections?
            && |s.sections| == |Segmenter.Sections(message)| >= 1
            && forall k :: 0 <= k < |s.sections| ==> s.sections[k] == ShowSection(Segmenter.Sections(message)[k])
  {
    FinishedContent(message, stringify);
    PageOfContent(Finished(message), stringify, message);
    Segmenter.AlwaysASection(message);
  }

  /** With no streaming text, a truthy result whose content is a string
      shows that string's sections. */
  lemma PageOfContent(v: Value, stringify: Value -> string, c: string)
    requires Truthy(v) && AsString(DocumentGeneration.AnalysisContent(v, stringify), "content", "split") == Ok(c)
    ensures PageFor(v, "", stringify) == Sections(ShowAll(Segmenter.Sections(c)))
  {
  }

  /** The content the page selects from a finished result: the message if
      it is truthy, else the JSON of the whole result. */
  lemma FinishedContent(message: string, stringify: Value -> string)
    ensures var c := if message != "" then message else stringify(Finished(message));
            AsString(DocumentGeneration.AnalysisContent(Finished(message), stringify), "content", "split") == Ok(c)
  {
    var v := Finished(message);
    assert Prop(v, "analysis") == Str(message);
  }

  /** An empty final message is falsy, so the page segments the JSON of
      `{analysis: ""}` instead. */
  lemma AfterEmptyFinish(stringify: Value -> string)
    ensures var c := stringify(Finished(""));
            PageFor(Finished(""), "", stringify)
            == Sections(ShowAll(Segmenter.Sections(c)))
  {
    FinishedContent("", stringify);
    assert Truthy(Finished(""));
    PageOfContent(Finished(""), stringify, stringify(Finished("")));
  }

  /** While text is streaming it is shown as it is, whatever the result. */
  lemma StreamingFirst(analysisResult: Value, streamingMessage: string, stringify: Value -> string)
    requires streamingMessage != ""
    ensures PageFor(analysisResult, streamingMessage, stringify) == Streaming(streamingMessage)
  {
  }

  /** A truthy `analysis` that is not a string breaks the page. */
  lemma NonStringAnalysis(fields: map<string, Value>, stringify: Value -> string)
    requires "analysis" in fields && Truthy(fields["analysis"]) && !fields["analysis"].Str?
    ensures PageFor(Obj(fields), "", stringify).Crashed?
  {
  }
}
