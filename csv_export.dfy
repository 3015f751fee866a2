/** `formatAsCSV` and `escapeCSV`: one CSV record per non-blank body line,
    tagged with the heading it falls under, and a reader for the CSV
    dialect of RFC 4180 that recovers those records from the output. */
module CsvExport {
  import opened Js
  import opened MarkdownLines

  /** `value.replace(/"/g, '""')`: every double quote doubled. */
  function Quote(s: string): string
    decreases |s|
  {
    if |s| == 0 then "" else (if s[0] == '"' then "\"\"" else [s[0]]) + Quote(s[1..])
  }

  /** `escapeCSV(value)`: strings get their quotes doubled, every other
      value is returned as it is. The escaped string, closed by a quote, is
      read back as the original. */
  function EscapeCSV(value: Value): (r: Value)
    ensures r.Str? <==> value.Str?
    ensures !value.Str? ==> r == value
    ensures value.Str? ==> ReadQuoted(r.s + "\"") == Some((value.s, ""))
  {
    if value.Str? then
      QuotedRoundTrip(value.s, "");
      assert Quote(value.s) + "\"" + "" == Quote(value.s) + "\"";
      Str(Quote(value.s))
    else value
  }

  // ---------------------------------------------------------------------
  // What the converter emits

  /** The heading in force: `currentSection` and `currentLevel`. */
  datatype Context = Context(section: string, level: nat)

  const Initial: Context := Context("Summary", 1)

  /** One CSV record: the section and level of the heading in force and the
      line itself. */
  datatype Row = Row(section: string, level: nat, content: string)

  /** The context after reading `line` in context `c`. */
  function Next(c: Context, line: string): Context
  {
    if HeadingLevel(line) > 0 then Context(HeadingTitle(line), HeadingLevel(line)) else c
  }

  /** The records for `lines` read in context `c`: headings switch the
      context, blank lines are skipped, and every other line is a record. */
  function RowsFrom(c: Context, lines: seq<string>): seq<Row>
    decreases |lines|
  {
    if |lines| == 0 then []
    else if HeadingLevel(lines[0]) > 0 then RowsFrom(Next(c, lines[0]), lines[1..])
    else if Trim(lines[0]) == "" then RowsFrom(c, lines[1..])
    else [Row(c.section, c.level, lines[0])] + RowsFrom(c, lines[1..])
  }

  function After(c: Context, lines: seq<string>): Context
    decreases |lines|
  {
    if |lines| == 0 then c else After(Next(c, lines[0]), lines[1..])
  }

  /** The quoted template literal the converter appends for one record. */
  function RenderRow(r: Row): string
  {
    "\"" + Quote(r.section) + "\"," + NatToString(r.level) + ",\"" + Quote(r.content) + "\"\n"
  }

  function RenderRows(rows: seq<Row>): string
  {
    Concat(rows, RenderRow)
  }

  const Header: string := "Section,Level,Content\n"

  function CsvDocument(markdownContent: string): string
  {
    Header + RenderRows(RowsFrom(Initial, Split(markdownContent, '\n')))
  }

  lemma {:induction false} RowsSnoc(c: Context, lines: seq<string>, line: string)
    ensures RowsFrom(c, lines + [line]) == RowsFrom(c, lines) + RowsFrom(After(c, lines), [line])
    ensures After(c, lines + [line]) == Next(After(c, lines), line)
    decreases |lines|
  {
    if |lines| == 0 {
      assert lines + [line] == [line];
    } else {
      assert (lines + [line])[0] == lines[0];
      assert (lines + [line])[1..] == lines[1..] + [line];
      RowsSnoc(Next(c, lines[0]), lines[1..], line);
    }
  }

  lemma RenderRowsAppend(a: seq<Row>, b: seq<Row>)
    ensures RenderRows(a + b) == RenderRows(a) + RenderRows(b)
  {
    ConcatAppend(a, b, RenderRow);
  }

  lemma RenderRowsOne(r: Row)
    ensures RenderRows([r]) == RenderRow(r)
  {
    ConcatOne(r, RenderRow);
  }

  /** `formatAsCSV(markdownContent)`. */
  method FormatAsCSV(markdownContent: string) returns (csv: string)
    ensures csv == CsvDocument(markdownContent)
  {
    var lines := Split(markdownContent, '\n');
    csv := "";
    csv := csv + "Section,Level,Content\n";
    var currentSection := "Summary";
    var currentLevel: nat := 1;
    for i := 0 to |lines|
      invariant Context(currentSection, currentLevel) == After(Initial, lines[..i])
      invariant csv == Header + RenderRows(RowsFrom(Initial, lines[..i]))
    {
      RowsStep(lines, i, csv);
      csv, currentSection, currentLevel := ProcessLine(csv, currentSection, currentLevel, lines[i]);
    }
    assert lines[..|lines|] == lines;
  }

  /** The body of the converter's loop for one line: a heading switches
      `currentSection` and `currentLevel`, a non-blank body line appends
      its record, and a blank line changes nothing. */
  method ProcessLine(csv: string, currentSection: string, currentLevel: nat, line: string)
      returns (csv': string, section': string, level': nat)
    ensures Context(section', level') == Next(Context(currentSection, currentLevel), line)
    ensures csv' == csv + RenderRows(RowsFrom(Context(currentSection, currentLevel), [line]))
  {
    csv', section', level' := csv, currentSection, currentLevel;
    assert [line][1..] == [];
    if StartsWith(line, "# ") {
      section' := line[2..];
      level' := 1;
    } else if StartsWith(line, "## ") {
      section' := line[3..];
      level' := 2;
    } else if StartsWith(line, "### ") {
      section' := line[4..];
      level' := 3;
    } else if Trim(line) != "" {
      var escapedLine := Quote(line);
      var record := "\"" + ToString(EscapeCSV(Str(currentSection))) + "\"," + NatToString(currentLevel)
                    + ",\"" + escapedLine + "\"\n";
      RenderRowsOne(Row(currentSection, currentLevel, line));
      csv' := csv + record;
    } else {
      assert RowsFrom(Context(currentSection, currentLevel), [line]) == [];
    }
  }

  /** Reading one more line moves the context on and extends the output by
      that line's records read in the context before it. */
  lemma RowsStep(lines: seq<string>, i: nat, csv: string)
    requires i < |lines|
    requires csv == Header + RenderRows(RowsFrom(Initial, lines[..i]))
    ensures After(Initial, lines[..i + 1]) == Next(After(Initial, lines[..i]), lines[i])
    ensures csv + RenderRows(RowsFrom(After(Initial, lines[..i]), [lines[i]]))
         == Header + RenderRows(RowsFrom(Initial, lines[..i + 1]))
  {
    var pre, line := lines[..i], lines[i];
    assert lines[..i + 1] == pre + [line];
    RowsSnoc(Initial, pre, line);
    RenderRowsAppend(RowsFrom(Initial, pre), RowsFrom(After(Initial, pre), [line]));
    Assoc(Header, RenderRows(RowsFrom(Initial, pre)), RenderRows(RowsFrom(After(Initial, pre), [line])));
  }

  // ---------------------------------------------------------------------
  // Which records come out

  /** The lines that are neither headings nor blank. */
  function BodyLines(lines: seq<string>): seq<string>
    decreases |lines|
  {
    if |lines| == 0 then []
    else if HeadingLevel(lines[0]) > 0 || Trim(lines[0]) == "" then BodyLines(lines[1..])
    else [lines[0]] + BodyLines(lines[1..])
  }

  predicate NoHeadings(lines: seq<string>)
  {
    forall k :: 0 <= k < |lines| ==> HeadingLevel(lines[k]) == 0
  }

  /** Under one heading, every non-blank line becomes one record carrying
      that heading's title and level, in order. */
  lemma {:induction false} SectionRows(c: Context, lines: seq<string>)
    requires NoHeadings(lines)
    ensures RowsFrom(c, lines)
         == seq(|BodyLines(lines)|, k requires 0 <= k < |BodyLines(lines)| => Row(c.section, c.level, BodyLines(lines)[k]))
    decreases |lines|
  {
    if |lines| > 0 {
      assert NoHeadings(lines[1..]) by {
        forall k | 0 <= k < |lines[1..]| ensures HeadingLevel(lines[1..][k]) == 0 {
          assert lines[1..][k] == lines[k + 1];
        }
      }
      assert HeadingLevel(lines[0]) == 0;
      SectionRows(c, lines[1..]);
    }
  }

  /** A heading line `level` + title starts a section: the records after
      it carry its title and level until the next heading. */
  lemma HeadingStartsSection(c: Context, level: nat, title: string, body: seq<string>)
    requires 1 <= level <= 3
    ensures RowsFrom(c, [HeadingMarker(level) + title] + body) == RowsFrom(Context(title, level), body)
  {
    var lines := [HeadingMarker(level) + title] + body;
    HeadingOf(level, title);
    assert lines[0] == HeadingMarker(level) + title;
    assert lines[1..] == body;
  }

  /** A text without headings is one `Summary` section at level 1. */
  lemma NoHeadingsSummary(lines: seq<string>)
    requires NoHeadings(lines)
    ensures forall k :: 0 <= k < |RowsFrom(Initial, lines)| ==>
              RowsFrom(Initial, lines)[k].section == "Summary" && RowsFrom(Initial, lines)[k].level == 1
  {
    SectionRows(Initial, lines);
  }

  // ---------------------------------------------------------------------
  // Reading the CSV back (RFC 4180: quoted fields, doubled quotes inside)

  /** The rest of a quoted field after its opening quote: the field's value
      with doubled quotes undone, and the text after the closing quote. */
  function ReadQuoted(s: string): (r: Option<(string, string)>)
    ensures r.Some? ==> |r.value.1| < |s|
    decreases |s|
  {
    if |s| == 0 then None
    else if s[0] == '"' then
      if |s| > 1 && s[1] == '"' then
        match ReadQuoted(s[2..])
        case None => None
        case Some(p) => Some(("\"" + p.0, p.1))
      else Some(("", s[1..]))
    else
      match ReadQuoted(s[1..])
      case None => None
      case Some(p) => Some(([s[0]] + p.0, p.1))
  }

  /** An unquoted field: everything up to the next comma or line feed. */
  function ReadBare(s: string): (r: (string, string))
    ensures |r.1| <= |s|
    decreases |s|
  {
    if |s| == 0 || s[0] == ',' || s[0] == '\n' then ("", s)
    else
      var p := ReadBare(s[1..]);
      ([s[0]] + p.0, p.1)
  }

  function ReadField(s: string): (r: Option<(string, string)>)
    ensures r.Some? ==> |r.value.1| <= |s|
  {
    if |s| > 0 && s[0] == '"' then ReadQuoted(s[1..]) else Some(ReadBare(s))
  }

  /** One record: fields separated by commas, ended by a line feed or by
      the end of the text. */
  function ReadRecord(s: string): (r: Option<(seq<string>, string)>)
    ensures r.Some? && |s| > 0 ==> |r.value.1| < |s|
    decreases |s|
  {
    match ReadField(s)
    case None => None
    case Some(p) =>
      var rest := p.1;
      if |rest| == 0 then Some(([p.0], ""))
      else if rest[0] == '\n' then Some(([p.0], rest[1..]))
      else if rest[0] == ',' then
        match ReadRecord(rest[1..])
        case None => None
        case Some(q) => Some(([p.0] + q.0, q.1))
      else None
  }

  function ReadCsv(s: string): Option<seq<seq<string>>>
    decreases |s|
  {
    if |s| == 0 then Some([])
    else
      match ReadRecord(s)
      case None => None
      case Some(p) =>
        match ReadCsv(p.1)
        case None => None
        case Some(records) => Some([p.0] + records)
  }

  /** A quoted field reads back as the string that was escaped. */
  lemma {:induction false} QuotedRoundTrip(x: string, rest: string)
    requires |rest| == 0 || rest[0] != '"'
    ensures ReadQuoted(Quote(x) + "\"" + rest) == Some((x, rest))
    decreases |x|
  {
    var s := Quote(x) + "\"" + rest;
    if |x| == 0 {
      assert s == "\"" + rest;
      assert s[1..] == rest;
    } else {
      QuotedRoundTrip(x[1..], rest);
      var tail := Quote(x[1..]) + "\"" + rest;
      if x[0] == '"' {
        assert s == "\"\"" + tail;
        assert s[2..] == tail;
        assert "\"" + x[1..] == x;
      } else {
        assert s == [x[0]] + tail;
        assert s[1..] == tail;
        assert [x[0]] + x[1..] == x;
      }
    }
  }

  predicate Bare(x: string)
  {
    forall k :: 0 <= k < |x| ==> x[k] != ',' && x[k] != '\n' && x[k] != '"'
  }

  lemma {:induction false} BareRoundTrip(x: string, rest: string)
    requires Bare(x)
    requires |rest| > 0 && (rest[0] == ',' || rest[0] == '\n')
    ensures ReadField(x + rest) == Some((x, rest))
    ensures ReadBare(x + rest) == (x, rest)
    decreases |x|
  {
    if |x| == 0 {
      assert x + rest == rest;
    } else {
      assert (x + rest)[1..] == x[1..] + rest;
      assert Bare(x[1..]) by {
        forall k | 0 <= k < |x[1..]| ensures x[1..][k] != ',' && x[1..][k] != '\n' && x[1..][k] != '"' {
          assert x[1..][k] == x[k + 1];
        }
      }
      BareRoundTrip(x[1..], rest);
      assert [x[0]] + x[1..] == x;
    }
  }

  lemma DigitsBare(n: nat)
    ensures Bare(NatToString(n))
  {
  }

  /** The fields of one record. */
  function Fields(r: Row): seq<string>
  {
    [r.section, NatToString(r.level), r.content]
  }

  /** A field written between quotes. */
  function QuotedField(x: string): string
  {
    "\"" + Quote(x) + "\""
  }

  lemma QuotedFieldRead(x: string, rest: string)
    requires |rest| == 0 || rest[0] != '"'
    ensures ReadField(QuotedField(x) + rest) == Some((x, rest))
  {
    var s := QuotedField(x) + rest;
    assert s[1..] == Quote(x) + "\"" + rest;
    QuotedRoundTrip(x, rest);
  }

  /** A record is its two quoted fields around the bare level, comma
      separated and ended by a line feed. */
  lemma RowShape(r: Row, more: string)
    ensures RenderRow(r) + more
         == QuotedField(r.section) + ("," + (NatToString(r.level) + ("," + (QuotedField(r.content) + ("\n" + more)))))
  {
  }

  /** Every record the converter writes is read back field for field. */
  lemma RowRoundTrip(r: Row, more: string)
    ensures ReadRecord(RenderRow(r) + more) == Some((Fields(r), more))
  {
    var digits := NatToString(r.level);
    var t3 := QuotedField(r.content) + ("\n" + more);
    var t2 := digits + ("," + t3);
    var s := QuotedField(r.section) + ("," + t2);
    RowShape(r, more);
    QuotedFieldRead(r.content, "\n" + more);
    assert ("\n" + more)[1..] == more;
    assert ReadRecord(t3) == Some(([r.content], more));
    DigitsBare(r.level);
    BareRoundTrip(digits, "," + t3);
    assert ("," + t3)[1..] == t3;
    assert [digits] + [r.content] == [digits, r.content];
    assert ReadRecord(t2) == Some(([digits, r.content], more));
    QuotedFieldRead(r.section, "," + t2);
    assert ("," + t2)[1..] == t2;
    assert [r.section] + [digits, r.content] == Fields(r);
  }

  lemma HeaderRoundTrip(more: string)
    ensures ReadRecord(Header + more) == Some((["Section", "Level", "Content"], more))
  {
    assert Header + more == "Section" + ("," + ("Level" + ("," + ("Content" + ("\n" + more)))));
    BareRecord("Section", "Level", "Content", more);
  }

  /** Three bare fields, comma separated and ended by a line feed. */
  lemma BareRecord(a: string, b: string, c: string, more: string)
    requires Bare(a) && Bare(b) && Bare(c)
    ensures ReadRecord(a + ("," + (b + ("," + (c + ("\n" + more))))))
         == Some(([a, b, c], more))
  {
    var t3 := c + ("\n" + more);
    var t2 := b + ("," + t3);
    var s := a + ("," + t2);
    BareRoundTrip(a, "," + t2);
    assert ("," + t2)[1..] == t2;
    BareRoundTrip(b, "," + t3);
    assert ("," + t3)[1..] == t3;
    BareRoundTrip(c, "\n" + more);
    assert ("\n" + more)[1..] == more;
    assert ReadRecord(t3) == Some(([c], more));
    assert ReadRecord(t2) == Some(([b] + [c], more));
    assert [a] + ([b] + [c]) == [a, b, c];
  }

  function AllFields(rows: seq<Row>): seq<seq<string>>
  {
    seq(|rows|, k requires 0 <= k < |rows| => Fields(rows[k]))
  }

  lemma {:induction false} RowsRoundTrip(rows: seq<Row>)
    ensures ReadCsv(RenderRows(rows)) == Some(AllFields(rows))
    decreases |rows|
  {
    if |rows| > 0 {
      RenderRowsOne(rows[0]);
      RenderRowsAppend([rows[0]], rows[1..]);
      assert [rows[0]] + rows[1..] == rows;
      var s := RenderRows(rows);
      assert s == RenderRow(rows[0]) + RenderRows(rows[1..]);
      RowRoundTrip(rows[0], RenderRows(rows[1..]));
      assert |s| > 0 && ReadRecord(s) == Some((Fields(rows[0]), RenderRows(rows[1..])));
      RowsRoundTrip(rows[1..]);
      assert AllFields(rows) == [Fields(rows[0])] + AllFields(rows[1..]);
    } else {
      assert RenderRows(rows) == "";
      assert AllFields(rows) == [];
    }
  }

  /** Reading the converter's output as RFC 4180 CSV gives the header
      record and then the fields of every record, unchanged. */
  lemma CsvRoundTrip(markdownContent: string)
    ensures ReadCsv(CsvDocument(markdownContent))
         == Some([["Section", "Level", "Content"]] + AllFields(RowsFrom(Initial, Split(markdownContent, '\n'))))
  {
    var rows := RowsFrom(Initial, Split(markdownContent, '\n'));
    HeaderRoundTrip(RenderRows(rows));
    RowsRoundTrip(rows);
  }
}
