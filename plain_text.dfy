/** `formatAsPlainText`: seven regular-expression replacements applied in
    turn, each modelled as the exact left-to-right scan ECMAScript performs.
    In these patterns `.` matches anything but a line terminator, so every
    match stays within one line. */
module PlainText {
  import opened Js

  const Level1Suffix: string := "\n==============================\n"
  const Level2Suffix: string := "\n------------------------------\n"
  const Level3Suffix: string := "\n"

  /** The first line terminator at or after `i`, or the end of `s`. */
  function LineEnd(s: string, i: nat): (j: nat)
    requires i <= |s|
    ensures i <= j <= |s|
    ensures j < |s| ==> IsLineTerminator(s[j])
    ensures forall k :: i <= k < j ==> !IsLineTerminator(s[k])
    decreases |s| - i
  {
    if i == |s| || IsLineTerminator(s[i]) then i else LineEnd(s, i + 1)
  }

  predicate NoTerminator(s: string)
  {
    forall k :: 0 <= k < |s| ==> !IsLineTerminator(s[k])
  }

  /** One line under `/^M(.*$)/gm` replaced by `"$1" + suffix`. */
  function RewriteLine(line: string, marker: string, suffix: string): string
  {
    if StartsWith(line, marker) then line[|marker|..] + suffix else line
  }

  /** `s.replace(/^M(.*$)/gm, "$1" + suffix)`: `^` matches at the start of
      `s` and after every line terminator, and `(.*$)` takes the rest of
      that line. */
  function RewriteHeadings(s: string, marker: string, suffix: string): string
    decreases |s|
  {
    var j := LineEnd(s, 0);
    var out := RewriteLine(s[..j], marker, suffix);
    if j == |s| then out else out + [s[j]] + RewriteHeadings(s[j + 1..], marker, suffix)
  }

  /** Where the lazy `(.*?)` followed by `d` first succeeds: the first
      occurrence of `d` at or after `i` with no line terminator before it. */
  function FindOnLine(s: string, i: nat, d: string): (r: Option<nat>)
    requires i <= |s|
    ensures r.Some? ==> i <= r.value && r.value + |d| <= |s| && StartsWith(s[r.value..], d)
    ensures r.Some? ==> forall k :: i <= k < r.value ==> !IsLineTerminator(s[k])
    decreases |s| - i
  {
    if StartsWith(s[i..], d) then Some(i)
    else if i == |s| || IsLineTerminator(s[i]) then None
    else FindOnLine(s, i + 1, d)
  }

  /** `s.replace(/D(.*?)D/g, "$1")` for the delimiter `D` (`**` or `*`). */
  function StripDelimited(s: string, d: string): string
    requires |d| > 0
    decreases |s|
  {
    if |s| == 0 then ""
    else if StartsWith(s, d) && FindOnLine(s, |d|, d).Some? then
      var q := FindOnLine(s, |d|, d).value;
      s[|d|..q] + StripDelimited(s[q + |d|..], d)
    else [s[0]] + StripDelimited(s[1..], d)
  }

  /** The match of `(.*?)\]\((.*?)\)` from position `k`: the positions of
      the `](` that ends the first group and of the `)` that ends the
      second. The lazy first group is retried at every later `](` on the
      line, as backtracking does. */
  function BracketFrom(s: string, k: nat): (r: Option<(nat, nat)>)
    requires k <= |s|
    ensures r.Some? ==> k <= r.value.0 && r.value.0 + 2 <= r.value.1 < |s|
    decreases |s| - k
  {
    if StartsWith(s[k..], "](") && FindOnLine(s, k + 2, ")").Some?
    then Some((k, FindOnLine(s, k + 2, ")").value))
    else if k == |s| || IsLineTerminator(s[k]) then None
    else BracketFrom(s, k + 1)
  }

  /** `s.replace(/!\[(.*?)\]\((.*?)\)/g, "Image: $1")`. */
  function ReplaceImages(s: string): string
    decreases |s|
  {
    if |s| == 0 then ""
    else if StartsWith(s, "![") && BracketFrom(s, 2).Some? then
      var (k, m) := BracketFrom(s, 2).value;
      "Image: " + s[2..k] + ReplaceImages(s[m + 1..])
    else [s[0]] + ReplaceImages(s[1..])
  }

  /** `s.replace(/\[(.*?)\]\((.*?)\)/g, "$1 ($2)")`. */
  function ReplaceLinks(s: string): string
    decreases |s|
  {
    if |s| == 0 then ""
    else if StartsWith(s, "[") && BracketFrom(s, 1).Some? then
      var (k, m) := BracketFrom(s, 1).value;
      s[1..k] + " (" + s[k + 2..m] + ")" + ReplaceLinks(s[m + 1..])
    else [s[0]] + ReplaceLinks(s[1..])
  }

  /** The three heading rules, level 1 first. */
  function Headings(s: string): string
  {
    RewriteHeadings(RewriteHeadings(RewriteHeadings(s, "# ", Level1Suffix), "## ", Level2Suffix), "### ", Level3Suffix)
  }

  /** `formatAsPlainText(markdownContent)`. */
  function FormatAsPlainText(s: string): string
  {
    ReplaceLinks(ReplaceImages(StripDelimited(StripDelimited(Headings(s), "**"), "*")))
  }

  // ---------------------------------------------------------------------
  // Headings, line by line

  lemma {:induction false} LineEndOfJoin(lines: seq<string>)
    requires |lines| > 0
    requires forall i :: 0 <= i < |lines| ==> NoTerminator(lines[i])
    ensures LineEnd(Join(lines, '\n'), 0) == |lines[0]|
    ensures Join(lines, '\n')[..|lines[0]|] == lines[0]
    ensures |lines| > 1 ==> Join(lines, '\n')[|lines[0]|] == '\n'
    ensures |lines| > 1 ==> Join(lines, '\n')[|lines[0]| + 1..] == Join(lines[1..], '\n')
    ensures |lines| == 1 ==> |Join(lines, '\n')| == |lines[0]|
  {
    var s := Join(lines, '\n');
    var n := |lines[0]|;
    if |lines| > 1 {
      assert s == lines[0] + ['\n'] + Join(lines[1..], '\n');
      assert s[n] == '\n';
    }
    assert s[..n] == lines[0];
    assert forall k :: 0 <= k < n ==> s[k] == lines[0][k];
    LineEndAt(s, 0, n);
  }

  lemma {:induction false} LineEndAt(s: string, i: nat, n: nat)
    requires i <= n <= |s|
    requires forall k :: i <= k < n ==> !IsLineTerminator(s[k])
    requires n == |s| || IsLineTerminator(s[n])
    ensures LineEnd(s, i) == n
    decreases n - i
  {
    if i < n {
      LineEndAt(s, i + 1, n);
    }
  }

  /** Every line rewritten on its own. */
  function RewriteEach(lines: seq<string>, marker: string, suffix: string): (r: seq<string>)
    ensures |r| == |lines|
    ensures forall i :: 0 <= i < |lines| ==> r[i] == RewriteLine(lines[i], marker, suffix)
    decreases |lines|
  {
    if |lines| == 0 then [] else [RewriteLine(lines[0], marker, suffix)] + RewriteEach(lines[1..], marker, suffix)
  }

  /** On text made of terminator-free lines joined by `\n`, a heading rule
      rewrites each line on its own: a line that starts with the marker
      loses it and gains the suffix, every other line is kept. */
  lemma {:induction false} HeadingsByLine(lines: seq<string>, marker: string, suffix: string)
    requires |lines| > 0
    requires forall i :: 0 <= i < |lines| ==> NoTerminator(lines[i])
    ensures RewriteHeadings(Join(lines, '\n'), marker, suffix) == Join(RewriteEach(lines, marker, suffix), '\n')
    decreases |lines|
  {
    LineEndOfJoin(lines);
    if |lines| > 1 {
      HeadingsByLine(lines[1..], marker, suffix);
      JoinRewritten(lines, marker, suffix);
    }
  }

  lemma JoinRewritten(lines: seq<string>, marker: string, suffix: string)
    requires |lines| > 1
    ensures Join(RewriteEach(lines, marker, suffix), '\n')
         == RewriteLine(lines[0], marker, suffix) + ['\n'] + Join(RewriteEach(lines[1..], marker, suffix), '\n')
  {
    var r := RewriteEach(lines, marker, suffix);
    assert r[1..] == RewriteEach(lines[1..], marker, suffix);
  }

  /** No line of `s` starts with `marker`. */
  predicate NoLineStartsWith(s: string, marker: string)
  {
    forall i :: 0 <= i <= |s| && (i == 0 || IsLineTerminator(s[i - 1])) ==> !StartsWith(s[i..], marker)
  }

  lemma {:induction false} HeadingsUnchanged(s: string, marker: string, suffix: string)
    requires NoLineStartsWith(s, marker)
    ensures RewriteHeadings(s, marker, suffix) == s
    decreases |s|
  {
    var j := LineEnd(s, 0);
    assert !StartsWith(s[..j], marker) by {
      assert s[0..] == s;
      PrefixNoStart(s, j, marker);
    }
    if j < |s| {
      var rest := s[j + 1..];
      RestNoLineStart(s, j, marker);
      HeadingsUnchanged(rest, marker, suffix);
      Around(s, j);
    }
  }

  lemma PrefixNoStart(s: string, j: nat, marker: string)
    requires j <= |s| && !StartsWith(s, marker)
    ensures !StartsWith(s[..j], marker)
  {
    if |marker| <= j {
      assert s[..j][..|marker|] == s[..|marker|];
    }
  }

  /** The lines after a terminator are lines of `s`. */
  lemma RestNoLineStart(s: string, j: nat, marker: string)
    requires NoLineStartsWith(s, marker) && j < |s| && IsLineTerminator(s[j])
    ensures NoLineStartsWith(s[j + 1..], marker)
  {
    var rest := s[j + 1..];
    forall i | 0 <= i <= |rest| && (i == 0 || IsLineTerminator(rest[i - 1]))
      ensures !StartsWith(rest[i..], marker)
    {
      assert rest[i..] == s[j + 1 + i..];
      if i > 0 { assert rest[i - 1] == s[j + i]; }
    }
  }

  // ---------------------------------------------------------------------
  // Inline rules

  lemma {:induction false} StripUnchanged(s: string, d: string)
    requires |d| > 0 && d[0] !in s
    ensures StripDelimited(s, d) == s
    decreases |s|
  {
    if |s| > 0 {
      assert !StartsWith(s, d) by { assert s[0] != d[0]; }
      StripUnchanged(s[1..], d);
      assert [s[0]] + s[1..] == s;
    }
  }

  /** Text before the first delimiter character passes through untouched. */
  lemma {:induction false} StripPlainPrefix(pre: string, rest: string, d: string)
    requires |d| > 0 && d[0] !in pre
    ensures StripDelimited(pre + rest, d) == pre + StripDelimited(rest, d)
    decreases |pre|
  {
    if |pre| > 0 {
      var s := pre + rest;
      assert s[0] == pre[0];
      assert !StartsWith(s, d) by { assert s[0] != d[0]; }
      assert s[1..] == pre[1..] + rest;
      StripPlainPrefix(pre[1..], rest, d);
      assert pre == [pre[0]] + pre[1..];
    } else {
      assert pre + rest == rest;
    }
  }

  lemma {:induction false} FindAfter(s: string, i: nat, q: nat, d: string)
    requires |d| > 0 && i <= q && q + |d| <= |s| && s[q..q + |d|] == d
    requires forall k :: i <= k < q ==> s[k] != d[0] && !IsLineTerminator(s[k])
    ensures FindOnLine(s, i, d) == Some(q)
    decreases q - i
  {
    if i < q {
      assert s[i..][0] == s[i];
      FindAfter(s, i + 1, q, d);
    } else {
      assert s[i..][..|d|] == s[q..q + |d|];
    }
  }

  /** A delimited run `D x D` on one line becomes `x`. */
  lemma {:induction false} StripPair(x: string, rest: string, d: string)
    requires |d| > 0 && d[0] !in x && NoTerminator(x)
    ensures StripDelimited(d + x + d + rest, d) == x + StripDelimited(rest, d)
  {
    var s := d + x + d + rest;
    var q := |d| + |x|;
    assert s[q..q + |d|] == d;
    forall k | |d| <= k < q ensures s[k] != d[0] && !IsLineTerminator(s[k]) {
      assert s[k] == x[k - |d|];
    }
    FindAfter(s, |d|, q, d);
    assert StartsWith(s, d) by { assert s[..|d|] == d; }
    assert s[|d|..q] == x;
    assert s[q + |d|..] == rest;
  }

  lemma {:induction false} BracketAt(s: string, k: nat, m: nat)
    requires k + 2 <= m < |s| && s[k] == ']' && s[k + 1] == '(' && s[m] == ')'
    requires forall j :: k + 2 <= j < m ==> s[j] != ')' && !IsLineTerminator(s[j])
    ensures BracketFrom(s, k) == Some((k, m))
  {
    assert s[k..][..2] == "](";
    assert s[m..m + 1] == ")";
    FindAfter(s, k + 2, m, ")");
  }

  lemma {:induction false} BracketSkip(s: string, i: nat, k: nat)
    requires i <= k <= |s|
    requires forall j :: i <= j < k ==> s[j] != ']' && !IsLineTerminator(s[j])
    ensures BracketFrom(s, i) == BracketFrom(s, k)
    decreases k - i
  {
    if i < k {
      assert s[i..][0] == s[i];
      BracketSkip(s, i + 1, k);
    }
  }

  predicate Plain(x: string, avoid: char)
  {
    avoid !in x && NoTerminator(x)
  }

  /** `![alt](url)` on one line becomes `Image: alt`. */
  lemma {:induction false} ImagePair(alt: string, url: string, rest: string)
    requires Plain(alt, ']') && Plain(url, ')')
    ensures ReplaceImages("![" + alt + "](" + url + ")" + rest) == "Image: " + alt + ReplaceImages(rest)
  {
    var s := "![" + alt + "](" + url + ")" + rest;
    var k := 2 + |alt|;
    var m := k + 2 + |url|;
    forall j | 2 <= j < k ensures s[j] != ']' && !IsLineTerminator(s[j]) {
      assert s[j] == alt[j - 2];
    }
    forall j | k + 2 <= j < m ensures s[j] != ')' && !IsLineTerminator(s[j]) {
      assert s[j] == url[j - k - 2];
    }
    BracketSkip(s, 2, k);
    BracketAt(s, k, m);
    assert s[..2] == "![";
    assert s[2..k] == alt;
    assert s[m + 1..] == rest;
  }

  /** `[text](url)` on one line becomes `text (url)`. */
  lemma {:induction false} LinkPair(text: string, url: string, rest: string)
    requires Plain(text, ']') && Plain(url, ')')
    ensures ReplaceLinks("[" + text + "](" + url + ")" + rest) == text + " (" + url + ")" + ReplaceLinks(rest)
  {
    var s := "[" + text + "](" + url + ")" + rest;
    var k := 1 + |text|;
    var m := k + 2 + |url|;
    forall j | 1 <= j < k ensures s[j] != ']' && !IsLineTerminator(s[j]) {
      assert s[j] == text[j - 1];
    }
    forall j | k + 2 <= j < m ensures s[j] != ')' && !IsLineTerminator(s[j]) {
      assert s[j] == url[j - k - 2];
    }
    BracketSkip(s, 1, k);
    BracketAt(s, k, m);
    assert s[..1] == "[";
    assert s[1..k] == text;
    assert s[k + 2..m] == url;
    assert s[m + 1..] == rest;
  }

  lemma {:induction false} ImagesUnchanged(s: string)
    requires '[' !in s
    ensures ReplaceImages(s) == s
    decreases |s|
  {
    if |s| > 0 {
      assert !StartsWith(s, "![") by { if |s| >= 2 { assert s[1] != '['; } }
      ReplaceImagesStep(s);
      ImagesUnchanged(s[1..]);
    }
  }

  lemma ReplaceImagesStep(s: string)
    requires |s| > 0 && !StartsWith(s, "![")
    ensures ReplaceImages(s) == [s[0]] + ReplaceImages(s[1..])
  {
  }

  lemma {:induction false} LinksUnchanged(s: string)
    requires '[' !in s
    ensures ReplaceLinks(s) == s
    decreases |s|
  {
    if |s| > 0 {
      assert !StartsWith(s, "[") by { assert s[0] != '['; }
      LinksUnchanged(s[1..]);
      assert [s[0]] + s[1..] == s;
    }
  }

  /** Text with no `*`, no `[` and no line starting with `# `, `## ` or
      `### ` comes back unchanged; so on such text the converter is
      idempotent. */
  lemma PlainTextUnchanged(s: string)
    requires '*' !in s && '[' !in s
    requires NoLineStartsWith(s, "# ") && NoLineStartsWith(s, "## ") && NoLineStartsWith(s, "### ")
    ensures FormatAsPlainText(s) == s
    ensures FormatAsPlainText(FormatAsPlainText(s)) == FormatAsPlainText(s)
  {
    HeadingsUnchanged(s, "# ", Level1Suffix);
    HeadingsUnchanged(s, "## ", Level2Suffix);
    HeadingsUnchanged(s, "### ", Level3Suffix);
    StripUnchanged(s, "**");
    StripUnchanged(s, "*");
    ImagesUnchanged(s);
    LinksUnchanged(s);
  }

  /** A `## ` line is not a level-1 heading: its second character is `#`. */
  lemma Level2NotLevel1(line: string)
    requires StartsWith(line, "## ")
    ensures RewriteLine(line, "# ", Level1Suffix) == line
  {
    assert line[1] == '#';
  }
}
