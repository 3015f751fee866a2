/** The line patterns the converters and the page share: the heading tests
    `/^# /`, `/^## /`, `/^### /` (or `startsWith` of the same prefixes),
    the bullet tests `/^- /`, `/^\* /`, and the numbered-item test `/^\d+\. /`.
    None of these patterns has the `m` flag, so `^` is the start of the line. */
module MarkdownLines {
  import opened Js

  /** 1, 2 or 3 for a line starting with `# `, `## ` or `### `, tested in
      that order; 0 for every other line. */
  function HeadingLevel(line: string): (level: nat)
    ensures level <= 3
    ensures level > 0 ==> |line| >= level + 1 && line[level - 1] == '#' && line[level] == ' '
    ensures level > 0 ==> line[..level + 1] == HeadingMarker(level)
    ensures level == 0 <==> !StartsWith(line, "# ") && !StartsWith(line, "## ") && !StartsWith(line, "### ")
  {
    if StartsWith(line, "# ") then 1
    else if StartsWith(line, "## ") then 2
    else if StartsWith(line, "### ") then 3
    else 0
  }

  /** The heading text: the line with exactly its `#`-and-space prefix removed. */
  function HeadingTitle(line: string): string
    requires HeadingLevel(line) > 0
  {
    line[HeadingLevel(line) + 1..]
  }

  /** The prefix each heading level is written with. */
  function HeadingMarker(level: nat): string
    requires 1 <= level <= 3
  {
    if level == 1 then "# " else if level == 2 then "## " else "### "
  }

  predicate IsBullet(line: string)
  {
    StartsWith(line, "- ") || StartsWith(line, "* ")
  }

  /** `s.replace(/^P/, "")`. */
  function DropPrefix(s: string, p: string): string
  {
    if StartsWith(s, p) then s[|p|..] else s
  }

  /** `line.replace(/^- /, "").replace(/^\* /, "")`: both prefixes go, in
      that order, so `- * x` becomes `x`. */
  function BulletText(line: string): string
  {
    DropPrefix(DropPrefix(line, "- "), "* ")
  }

  /** Length of the run of ASCII digits `line` starts with. */
  function DigitRun(line: string): (n: nat)
    ensures n <= |line|
    ensures forall i :: 0 <= i < n ==> IsDigit(line[i])
    ensures n < |line| ==> !IsDigit(line[n])
    decreases |line|
  {
    if |line| > 0 && IsDigit(line[0]) then 1 + DigitRun(line[1..]) else 0
  }

  /** `/^\d+\. /`: the greedy `\d+` takes the whole digit run, and giving a
      digit back cannot help since `.` is not a digit. */
  predicate IsNumbered(line: string)
  {
    DigitRun(line) > 0 && StartsWith(line[DigitRun(line)..], ". ")
  }

  /** `line.replace(/^\d+\. /, "")`. */
  function NumberedText(line: string): string
    requires IsNumbered(line)
  {
    line[DigitRun(line) + 2..]
  }

  /** Every heading line is recovered from its level and title. */
  lemma HeadingRoundTrip(line: string)
    requires HeadingLevel(line) > 0
    ensures HeadingMarker(HeadingLevel(line)) + HeadingTitle(line) == line
  {
    var n := HeadingLevel(line);
    assert line[..n + 1] == HeadingMarker(n);
  }

  /** Exactly the lines written `# t`, `## t`, `### t` are headings. */
  lemma HeadingOf(level: nat, title: string)
    requires 1 <= level <= 3
    ensures HeadingLevel(HeadingMarker(level) + title) == level
    ensures HeadingTitle(HeadingMarker(level) + title) == title
  {
    var line := HeadingMarker(level) + title;
    assert line[..|HeadingMarker(level)|] == HeadingMarker(level);
    if level > 1 {
      assert line[1] == '#';
    }
    if level > 2 {
      assert line[2] == '#';
    }
  }
}
