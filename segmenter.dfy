/** The section segmenter of the analysis page: it walks the lines of the
    analysis text, opens a section at every `# `, `## ` or `### ` heading
    and collects the other lines as that section's body. A section is kept
    when the next heading opens, under a rule that depends on that
    heading's level, and a fallback section covers a text that kept none. */
module Segmenter {
  import opened Js
  import opened MarkdownLines

  /** A section: its title (`null` for the one before the first heading),
      its level (0 where the source leaves it undefined) and its body. */
  datatype Section = Section(title: Option<string>, level: nat, content: seq<string>)

  /** `{ title: null, content: [] }`. */
  const Initial: Section := Section(None, 0, [])

  const FallbackTitle: string := "Comprehensive Analysis"

  /** `currentSection.title` is truthy: a non-empty string. */
  predicate TitleTruthy(s: Section)
  {
    s.title.Some? && |s.title.value| > 0
  }

  function WithLine(s: Section, line: string): Section
  {
    s.(content := s.content + [line])
  }

  function Last<T>(b: seq<T>): T
    requires |b| > 0
  {
    b[|b| - 1]
  }

  lemma SnocParts<T>(b: seq<T>, s: T)
    requires |b| > 0
    ensures (b + [s])[..|b|] == b && (b + [s])[|b| - 1] == Last(b) && Last(b + [s]) == s
  {
  }

  lemma ButLast<T>(b: seq<T>)
    requires |b| > 0
    ensures b[..|b| - 1] + [Last(b)] == b
  {
  }

  /** Every section the walk opens, in order, with its full body: the
      initial one, then one per heading line. */
  function Blocks(lines: seq<string>): (b: seq<Section>)
    ensures |b| >= 1
    decreases |lines|
  {
    if |lines| == 0 then [Initial] else Step(Blocks(lines[..|lines| - 1]), lines[|lines| - 1])
  }

  /** One line of the walk: a heading opens a new section, any other line
      joins the open one. */
  function Step(b: seq<Section>, line: string): (r: seq<Section>)
    requires |b| >= 1
    ensures |r| >= 1
  {
    if HeadingLevel(line) > 0 then b + [Section(Some(HeadingTitle(line)), HeadingLevel(line), [])]
    else b[..|b| - 1] + [WithLine(Last(b), line)]
  }

  /** Whether an open section is kept when a heading of `nextLevel` opens
      the next one: a `# ` heading keeps only a section with a body, a
      `## ` or `### ` heading also keeps one with a truthy title. */
  predicate KeptOnClose(s: Section, nextLevel: nat)
  {
    |s.content| > 0 || (nextLevel != 1 && TitleTruthy(s))
  }

  /** Whether the last section is kept at the end of the walk. */
  predicate KeptAtEnd(s: Section)
  {
    |s.content| > 0 || TitleTruthy(s)
  }

  /** The sections kept among all but the last of `b`, each judged when its
      successor opens. */
  function Closed(b: seq<Section>): seq<Section>
    decreases |b|
  {
    if |b| <= 1 then []
    else Closed(b[..|b| - 1]) + (if KeptOnClose(b[|b| - 2], b[|b| - 1].level) then [b[|b| - 2]] else [])
  }

  /** The sections the walk emits for `lines`. */
  function Segments(lines: seq<string>): seq<Section>
  {
    var b := Blocks(lines);
    Closed(b) + (if KeptAtEnd(Last(b)) then [Last(b)] else [])
  }

  /** The sections the page renders for `content`, the fallback included. */
  function Sections(content: string): seq<Section>
  {
    var lines := Split(content, '\n');
    var s := Segments(lines);
    if |s| == 0 && content != "" then [Section(Some(FallbackTitle), 1, lines)] else s
  }

  // ---------------------------------------------------------------------
  // The walk

  lemma ClosedInsideLast(b: seq<Section>, s: Section)
    requires |b| >= 1 && s.level == Last(b).level
    ensures Closed(b[..|b| - 1] + [s]) == Closed(b)
  {
    var b' := b[..|b| - 1] + [s];
    assert b'[..|b'| - 1] == b[..|b| - 1];
    if |b| >= 2 {
      assert b'[|b'| - 2] == b[|b| - 2];
    }
  }

  lemma ClosedSnoc(b: seq<Section>, c: seq<Section>, s: Section)
    requires |b| >= 1 && c == b + [s]
    ensures Closed(c) == Closed(b) + (if KeptOnClose(Last(b), s.level) then [Last(b)] else [])
  {
    SnocParts(b, s);
    ClosedUnfold(c, b, Last(b), s);
  }

  lemma ClosedUnfold(c: seq<Section>, init: seq<Section>, prev: Section, last: Section)
    requires |c| >= 2 && c[..|c| - 1] == init && c[|c| - 2] == prev && c[|c| - 1] == last
    ensures Closed(c) == Closed(init) + (if KeptOnClose(prev, last.level) then [prev] else [])
  {
  }

  lemma BlocksSnoc(lines: seq<string>, all: seq<string>, line: string)
    requires all == lines + [line]
    ensures Blocks(all) ==
      if HeadingLevel(line) > 0 then Blocks(lines) + [Section(Some(HeadingTitle(line)), HeadingLevel(line), [])]
      else Blocks(lines)[..|Blocks(lines)| - 1] + [WithLine(Last(Blocks(lines)), line)]
  {
    assert all[..|lines|] == lines;
  }

  /** One line of the walk: a heading closes the open section and opens
      its own, any other line joins the open section. */
  lemma WalkStep(lines: seq<string>, i: nat)
    requires i < |lines|
    ensures var pre, all, line := lines[..i], lines[..i + 1], lines[i];
            HeadingLevel(line) > 0 ==>
      && Closed(Blocks(all)) == Closed(Blocks(pre)) + (if KeptOnClose(Last(Blocks(pre)), HeadingLevel(line)) then [Last(Blocks(pre))] else [])
      && Last(Blocks(all)) == Section(Some(HeadingTitle(line)), HeadingLevel(line), [])
    ensures var pre, all, line := lines[..i], lines[..i + 1], lines[i];
            HeadingLevel(line) == 0 ==>
      && Closed(Blocks(all)) == Closed(Blocks(pre))
      && Last(Blocks(all)) == WithLine(Last(Blocks(pre)), line)
  {
    var pre, all, line := lines[..i], lines[..i + 1], lines[i];
    assert all == pre + [line];
    WalkSnoc(pre, all, line);
  }

  lemma WalkSnoc(pre: seq<string>, all: seq<string>, line: string)
    requires all == pre + [line]
    ensures HeadingLevel(line) > 0 ==>
      && Closed(Blocks(all)) == Closed(Blocks(pre)) + (if KeptOnClose(Last(Blocks(pre)), HeadingLevel(line)) then [Last(Blocks(pre))] else [])
      && Last(Blocks(all)) == Section(Some(HeadingTitle(line)), HeadingLevel(line), [])
    ensures HeadingLevel(line) == 0 ==>
      && Closed(Blocks(all)) == Closed(Blocks(pre))
      && Last(Blocks(all)) == WithLine(Last(Blocks(pre)), line)
  {
    var b := Blocks(pre);
    BlocksSnoc(pre, all, line);
    if HeadingLevel(line) > 0 {
      ClosedSnoc(b, Blocks(all), Section(Some(HeadingTitle(line)), HeadingLevel(line), []));
    } else {
      ClosedInsideLast(b, WithLine(Last(b), line));
    }
  }

  /** One turn of the segmenting `forEach`: a heading closes `current`,
      keeping it by the rule of the heading's level, and opens the next
      section; any other line joins the body of `current`. */
  method WalkLine(sections: seq<Section>, current: Section, line: string)
    returns (sections': seq<Section>, current': Section)
    ensures HeadingLevel(line) > 0 ==>
      && sections' == sections + (if KeptOnClose(current, HeadingLevel(line)) then [current] else [])
      && current' == Section(Some(HeadingTitle(line)), HeadingLevel(line), [])
    ensures HeadingLevel(line) == 0 ==> sections' == sections && current' == WithLine(current, line)
  {
    sections', current' := sections, current;
    if StartsWith(line, "# ") {
      assert HeadingLevel(line) == 1 && HeadingTitle(line) == line[2..];
      if |current.content| > 0 {
        sections' := sections + [current];
      }
      current' := Section(Some(line[2..]), 1, []);
    } else if StartsWith(line, "## ") {
      assert HeadingLevel(line) == 2 && HeadingTitle(line) == line[3..];
      if |current.content| > 0 || (current.title.Some? && current.title.value != "") {
        sections' := sections + [current];
      }
      current' := Section(Some(line[3..]), 2, []);
    } else if StartsWith(line, "### ") {
      assert HeadingLevel(line) == 3 && HeadingTitle(line) == line[4..];
      if |current.content| > 0 || (current.title.Some? && current.title.value != "") {
        sections' := sections + [current];
      }
      current' := Section(Some(line[4..]), 3, []);
    } else {
      assert HeadingLevel(line) == 0;
      current' := current.(content := current.content + [line]);
    }
  }

  /** The segmenting `forEach` of `renderAnalysisContent` and the pushes
      after it, for the text `content`. */
  method SplitSections(content: string) returns (sections: seq<Section>)
    ensures sections == Sections(content)
  {
    var lines := Split(content, '\n');
    sections := [];
    var current := Initial;
    assert lines[..0] == [];
    assert Blocks(lines[..0]) == [Initial];
    for i := 0 to |lines|
      invariant sections == Closed(Blocks(lines[..i]))
      invariant current == Last(Blocks(lines[..i]))
    {
      WalkStep(lines, i);
      sections, current := WalkLine(sections, current, lines[i]);
    }
    assert lines[..|lines|] == lines;
    sections := EndWalk(content, lines, sections, current);
  }

  /** The pushes after the walk: the open section, then the fallback. */
  method EndWalk(content: string, lines: seq<string>, closed: seq<Section>, current: Section)
    returns (sections: seq<Section>)
    requires lines == Split(content, '\n')
    requires closed == Closed(Blocks(lines)) && current == Last(Blocks(lines))
    ensures sections == Sections(content)
  {
    sections := closed;
    if |current.content| > 0 || (current.title.Some? && current.title.value != "") {
      sections := sections + [current];
    }
    if |sections| == 0 && content != "" {
      sections := sections + [Section(Some(FallbackTitle), 1, lines)];
    }
  }

  // ---------------------------------------------------------------------
  // What the sections hold

  /** The lines a section was read from: its heading line, then its body. */
  function Own(s: Section): seq<string>
  {
    (if s.title.Some? && 1 <= s.level <= 3 then [HeadingMarker(s.level) + s.title.value] else []) + s.content
  }

  function Unparse(b: seq<Section>): seq<string>
    decreases |b|
  {
    if |b| == 0 then [] else Unparse(b[..|b| - 1]) + Own(Last(b))
  }

  /** The initial section has no title and level 0; every other one has a
      title and a level in 1..3. */
  predicate WellFormed(b: seq<Section>)
  {
    |b| >= 1 && b[0].title.None? && b[0].level == 0
    && forall k :: 1 <= k < |b| ==> b[k].title.Some? && 1 <= b[k].level <= 3
  }

  /** No line is lost or invented: writing each section's heading back in
      front of its body gives the lines that were split. */
  lemma {:induction false} BlocksUnparse(lines: seq<string>)
    ensures WellFormed(Blocks(lines))
    ensures Unparse(Blocks(lines)) == lines
    decreases |lines|
  {
    if |lines| > 0 {
      var init := lines[..|lines| - 1];
      var line := lines[|lines| - 1];
      assert lines == init + [line];
      BlocksUnparse(init);
      BlocksSnoc(init, lines, line);
      if HeadingLevel(line) > 0 {
        UnparseHeading(Blocks(init), Blocks(lines), line);
      } else {
        UnparseBody(Blocks(init), Blocks(lines), line);
      }
    }
  }

  lemma UnparseHeading(b: seq<Section>, c: seq<Section>, line: string)
    requires WellFormed(b) && HeadingLevel(line) > 0
    requires c == b + [Section(Some(HeadingTitle(line)), HeadingLevel(line), [])]
    ensures WellFormed(c) && Unparse(c) == Unparse(b) + [line]
  {
    assert c[..|c| - 1] == b;
    HeadingRoundTrip(line);
    assert Own(Last(c)) == [line];
    assert forall k :: 1 <= k < |b| ==> c[k] == b[k];
  }

  lemma UnparseBody(b: seq<Section>, c: seq<Section>, line: string)
    requires WellFormed(b)
    requires c == b[..|b| - 1] + [WithLine(Last(b), line)]
    ensures WellFormed(c) && Unparse(c) == Unparse(b) + [line]
  {
    var n := |b|;
    var s := Last(c);
    var pre := b[..n - 1];
    assert c[..|c| - 1] == pre;
    assert Unparse(b) == Unparse(pre) + Own(Last(b));
    assert Own(s) == Own(Last(b)) + [line];
    assert c[0] == (if n == 1 then s else b[0]);
    assert forall k :: 1 <= k < n - 1 ==> c[k] == b[k];
  }

  /** The body lines of `lines`, in order: every line that is not a heading. */
  function BodyLines(lines: seq<string>): seq<string>
    decreases |lines|
  {
    if |lines| == 0 then []
    else BodyLines(lines[..|lines| - 1]) + (if HeadingLevel(lines[|lines| - 1]) > 0 then [] else [lines[|lines| - 1]])
  }

  function Bodies(b: seq<Section>): seq<string>
    decreases |b|
  {
    if |b| == 0 then [] else Bodies(b[..|b| - 1]) + Last(b).content
  }

  lemma {:induction false} BlocksBodies(lines: seq<string>)
    ensures Bodies(Blocks(lines)) == BodyLines(lines)
    decreases |lines|
  {
    if |lines| > 0 {
      BlocksBodies(lines[..|lines| - 1]);
      StepBodies(Blocks(lines[..|lines| - 1]), lines[|lines| - 1]);
    }
  }

  /** A step adds the line to the bodies unless it is a heading. */
  lemma StepBodies(b: seq<Section>, line: string)
    requires |b| >= 1
    ensures Bodies(Step(b, line)) == Bodies(b) + (if HeadingLevel(line) > 0 then [] else [line])
  {
    if HeadingLevel(line) > 0 {
      BodiesSnoc(b, Section(Some(HeadingTitle(line)), HeadingLevel(line), []));
    } else {
      LineBodies(b, line);
    }
  }

  lemma LineBodies(b: seq<Section>, line: string)
    requires |b| >= 1
    ensures Bodies(b[..|b| - 1] + [WithLine(Last(b), line)]) == Bodies(b) + [line]
  {
    var p := b[..|b| - 1];
    ButLast(b);
    BodiesSnoc(p, Last(b));
    BodiesSnoc(p, WithLine(Last(b), line));
    assert Bodies(p) + (Last(b).content + [line]) == (Bodies(p) + Last(b).content) + [line];
  }

  lemma BodiesSnoc(p: seq<Section>, s: Section)
    ensures Bodies(p + [s]) == Bodies(p) + s.content
  {
    assert (p + [s])[..|p|] == p;
  }

  /** A section that is not kept has no body. */
  lemma {:induction false} ClosedBodies(b: seq<Section>)
    requires |b| >= 1
    ensures Bodies(Closed(b)) == Bodies(b[..|b| - 1])
    decreases |b|
  {
    if |b| == 1 {
      assert b[..0] == [];
    } else {
      var n := |b|;
      ClosedBodies(b[..n - 1]);
      assert b[..n - 1][..n - 2] == b[..n - 2];
      assert b[..n - 1][n - 2] == b[n - 2];
      BodiesAppend(Closed(b[..n - 1]), if KeptOnClose(b[n - 2], b[n - 1].level) then [b[n - 2]] else []);
      BodiesOne(b[n - 2]);
    }
  }

  lemma {:induction false} BodiesAppend(a: seq<Section>, c: seq<Section>)
    ensures Bodies(a + c) == Bodies(a) + Bodies(c)
    decreases |c|
  {
    if |c| == 0 {
      assert a + c == a;
    } else {
      var ac := a + c;
      assert ac[..|ac| - 1] == a + c[..|c| - 1];
      assert Last(ac) == Last(c);
      BodiesAppend(a, c[..|c| - 1]);
    }
  }

  lemma BodiesOne(s: Section)
    ensures Bodies([s]) == s.content
  {
    assert [s][..0] == [];
  }

  /** The kept sections hold every body line, in order: a section is only
      ever dropped when it has no body. */
  lemma SegmentsKeepBodies(lines: seq<string>)
    ensures Bodies(Segments(lines)) == BodyLines(lines)
  {
    var b := Blocks(lines);
    BlocksBodies(lines);
    ClosedBodies(b);
    BodiesAppend(Closed(b), if KeptAtEnd(Last(b)) then [Last(b)] else []);
    BodiesOne(Last(b));
    assert b[..|b| - 1] + [Last(b)] == b;
    BodiesAppend(b[..|b| - 1], [Last(b)]);
  }

  lemma {:induction false} BodyLinesEmpty(lines: seq<string>)
    requires BodyLines(lines) == []
    ensures forall k :: 0 <= k < |lines| ==> HeadingLevel(lines[k]) > 0
    decreases |lines|
  {
    if |lines| > 0 {
      var init := lines[..|lines| - 1];
      BodyLinesEmpty(init);
      assert forall k :: 0 <= k < |lines| - 1 ==> lines[k] == init[k];
    }
  }

  /** Nothing is kept only when every line is a heading, so the fallback
      never hides a body line. */
  lemma FallbackOnlyForHeadings(lines: seq<string>)
    requires Segments(lines) == []
    ensures forall k :: 0 <= k < |lines| ==> HeadingLevel(lines[k]) > 0
  {
    SegmentsKeepBodies(lines);
    BodyLinesEmpty(lines);
  }

  /** The page always shows at least one section: an empty text is one
      empty body line, and a text that kept nothing gets the fallback. */
  lemma AlwaysASection(content: string)
    ensures |Sections(content)| >= 1
  {
    if |content| == 0 {
      assert Split(content, '\n') == [content];
      OneBodyLine(content);
    }
  }

  /** A single line that is not a heading is one untitled section. */
  lemma OneBodyLine(line: string)
    requires HeadingLevel(line) == 0
    ensures Segments([line]) == [Section(None, 0, [line])]
  {
    NoHeadingsOneSection([line]);
  }

  /** Every emitted section has a body or a truthy title. */
  lemma {:induction false} ClosedNonEmpty(b: seq<Section>)
    ensures forall k :: 0 <= k < |Closed(b)| ==> KeptAtEnd(Closed(b)[k])
    decreases |b|
  {
    if |b| > 1 {
      ClosedNonEmpty(b[..|b| - 1]);
      assert b[..|b| - 1][..|b| - 2] == b[..|b| - 2];
    }
  }

  lemma SegmentsNonEmpty(lines: seq<string>)
    ensures forall k :: 0 <= k < |Segments(lines)| ==> KeptAtEnd(Segments(lines)[k])
  {
    ClosedNonEmpty(Blocks(lines));
  }

  /** A text without headings is one untitled section holding all its lines. */
  lemma {:induction false} NoHeadingsOneSection(lines: seq<string>)
    requires forall k :: 0 <= k < |lines| ==> HeadingLevel(lines[k]) == 0
    ensures Blocks(lines) == [Section(None, 0, lines)]
    decreases |lines|
  {
    if |lines| > 0 {
      var init := lines[..|lines| - 1];
      assert forall k :: 0 <= k < |init| ==> init[k] == lines[k];
      NoHeadingsOneSection(init);
      assert init + [lines[|lines| - 1]] == lines;
    }
  }

  /** `c` keeps the sections of `b` that are already closed, and the open
      one's title. */
  predicate Extends(b: seq<Section>, c: seq<Section>)
  {
    |b| >= 1 && |c| >= |b| && c[..|b| - 1] == b[..|b| - 1] && c[|b| - 1].title == Last(b).title
  }

  lemma StepExtends(b: seq<Section>, line: string)
    requires |b| >= 1
    ensures Extends(b, Step(b, line))
  {
    var c := Step(b, line);
    assert c[..|b| - 1] == b[..|b| - 1];
  }

  lemma ExtendsTrans(a: seq<Section>, b: seq<Section>, c: seq<Section>)
    requires Extends(a, b) && Extends(b, c)
    ensures Extends(a, c)
  {
    var n, m := |a| - 1, |b| - 1;
    if n < m {
      assert c[..n] == c[..m][..n];
      assert b[..n] == b[..m][..n];
      assert c[n] == c[..m][n];
      assert b[n] == b[..m][n];
    }
  }

  /** Sections already closed are never changed by the lines that follow. */
  lemma {:induction false} ClosedBlocksStay(a: seq<string>, c: seq<string>)
    ensures Extends(Blocks(a), Blocks(a + c))
    decreases |c|
  {
    if |c| == 0 {
      assert a + c == a;
    } else {
      var ac := a + c;
      var c' := c[..|c| - 1];
      assert ac == (a + c') + [ac[|ac| - 1]];
      ClosedBlocksStay(a, c');
      LineExtends(a + c', ac, ac[|ac| - 1]);
      ExtendsTrans(Blocks(a), Blocks(a + c'), Blocks(ac));
    }
  }

  /** One more line leaves the closed sections and the open title as they are. */
  lemma LineExtends(lines: seq<string>, all: seq<string>, line: string)
    requires all == lines + [line]
    ensures Extends(Blocks(lines), Blocks(all))
  {
    assert all[..|all| - 1] == lines;
    StepExtends(Blocks(lines), line);
  }

  /** The lines before the first heading form the untitled first section. */
  lemma LeadingLines(pre: seq<string>, h: string, rest: seq<string>)
    requires forall k :: 0 <= k < |pre| ==> HeadingLevel(pre[k]) == 0
    requires HeadingLevel(h) > 0
    ensures Blocks(pre + [h] + rest)[0] == Section(None, 0, pre)
  {
    NoHeadingsOneSection(pre);
    var a := pre + [h];
    assert a[..|a| - 1] == pre;
    assert |Blocks(a)| == 2;
    ClosedBlocksStay(a, rest);
    assert Blocks(a + rest)[..1][0] == Blocks(a + rest)[0];
  }

  /** A `# ` heading drops a title-only section before it. */
  lemma TitleOnlyDroppedByLevel1()
    ensures Segments(["# A", "# B"]) == [Section(Some("B"), 1, [])]
  {
    TwoHeadings("# A", "# B", 1, 1);
  }

  /** A `## ` heading keeps a title-only section before it. */
  lemma TitleOnlyKeptByLevel2()
    ensures Segments(["# A", "## B"]) == [Section(Some("A"), 1, []), Section(Some("B"), 2, [])]
  {
    TwoHeadings("# A", "## B", 1, 2);
  }

  lemma TwoHeadings(h1: string, h2: string, l1: nat, l2: nat)
    requires HeadingLevel(h1) == l1 > 0 && HeadingLevel(h2) == l2 > 0 && |HeadingTitle(h2)| > 0
    ensures var a := Section(Some(HeadingTitle(h1)), l1, []);
            var c := Section(Some(HeadingTitle(h2)), l2, []);
            Segments([h1, h2]) == (if KeptOnClose(a, l2) then [a] else []) + [c]
  {
    var a := Section(Some(HeadingTitle(h1)), l1, []);
    var c := Section(Some(HeadingTitle(h2)), l2, []);
    assert [] + [h1] == [h1];
    BlocksSnoc([], [h1], h1);
    assert [h1] + [h2] == [h1, h2];
    BlocksSnoc([h1], [h1, h2], h2);
    var b1 := [Initial];
    var b2 := [Initial, a];
    var b3 := [Initial, a, c];
    assert b2 == b1 + [a];
    assert b3 == b2 + [c];
    ClosedSnoc(b1, b2, a);
    ClosedSnoc(b2, b3, c);
  }
}
