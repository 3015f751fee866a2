/** The image-analysis handler: it normalises the image into a `data:` URL,
    chooses the prompt, sends both to the vision service, checks the reply
    and rewrites every heading of the returned text to level 1. */
module ImageAnalysis {
  import opened Js
  import PlainText

  const NoImageError: string := "No image data provided."
  const InvalidFormatError: string := "Received invalid response format from the image analysis API"
  const CatchPrefix: string := "Failed to analyze image: "
  const SuccessMessage: string := "Comprehensive image analysis completed successfully."
  const JpegPrefix: string := "data:image/jpeg;base64,"
  const ThoroughSuffix: string := "\n\nPlease be extremely thorough and provide a comprehensive analysis with multiple sections covering all aspects of the image."
  const MaxTokens: nat := 4000

  /** The prompt used when no instructions are given. */
  const DefaultPrompt: string :=
    "\n"
    + "Provide an extremely detailed and comprehensive analysis of this image. Include:\n"
    + "\n"
    + "1. DETAILED VISUAL DESCRIPTION: Describe everything visible in the image with precision - objects, people, text, colors, lighting, perspective, and spatial relationships.\n"
    + "\n"
    + "2. CONTEXT ANALYSIS: Identify the setting, time period, purpose, and potential significance of the image.\n"
    + "\n"
    + "3. TECHNICAL ASSESSMENT: Evaluate image quality, composition, focal points, and any notable photographic or artistic techniques.\n"
    + "\n"
    + "4. TEXT EXTRACTION: Transcribe ALL text visible in the image verbatim, including small print, labels, signs, or watermarks.\n"
    + "\n"
    + "5. DATA INTERPRETATION: If charts, graphs, or data visualizations are present, provide detailed interpretation of the data, trends, and implications.\n"
    + "\n"
    + "6. OBJECT IDENTIFICATION: List and describe all distinct objects, brands, logos, or recognizable elements.\n"
    + "\n"
    + "7. SUBJECT ANALYSIS: For people or living subjects, describe expressions, attire, activities, and apparent relationships.\n"
    + "\n"
    + "8. CULTURAL/HISTORICAL CONTEXT: Note any cultural, historical, or social significance.\n"
    + "\n"
    + "9. ANOMALIES OR SPECIAL FEATURES: Highlight anything unusual, unique, or particularly noteworthy.\n"
    + "\n"
    + "10. PROFESSIONAL INSIGHTS: Provide domain-specific observations relevant to the image content (e.g., architectural details, scientific phenomena, artistic techniques).\n"
    + "\n"
    + "Format your response with clear section headings and bullet points where appropriate for maximum readability.\n"

  // ---------------------------------------------------------------------
  // The image

  lemma CommaParts(s: string)
    requires ',' in s
    ensures |Split(s, ',')| >= 2
  {
    SplitLength(s, ',');
    CountIn(s, ',');
  }

  lemma {:induction false} CountIn(s: string, c: char)
    requires c in s
    ensures Count(s, c) >= 1
    decreases |s|
  {
    if s[0] != c {
      assert c in s[1..] by {
        var k :| 0 <= k < |s| && s[k] == c;
        assert s[1..][k - 1] == c;
      }
      CountIn(s[1..], c);
    }
  }

  /** `base64Data`: an input that already starts with `data:image` as it is;
      otherwise the JPEG prefix followed by the text between the first and
      second comma when there is a comma, or by the input without its white
      space when there is none. */
  function Normalize(imageBase64: string): (url: string)
    ensures StartsWith(url, "data:image")
    ensures StartsWith(imageBase64, "data:image") ==> url == imageBase64
  {
    if StartsWith(imageBase64, "data:image") then imageBase64
    else
      var cleaned :=
        if ',' in imageBase64 then
          assert |Split(imageBase64, ',')| >= 2 by { CommaParts(imageBase64); }
          Split(imageBase64, ',')[1]
        else RemoveSpace(imageBase64);
      assert (JpegPrefix + cleaned)[..10] == "data:image";
      JpegPrefix + cleaned
  }

  /** Normalising twice changes nothing. */
  lemma NormalizeIdempotent(imageBase64: string)
    ensures Normalize(Normalize(imageBase64)) == Normalize(imageBase64)
  {
  }

  /** The data after the JPEG prefix: the second comma-separated field when
      the input has a comma, which then holds no comma itself, and
      otherwise the input with its white space removed. */
  lemma NormalizedData(imageBase64: string)
    requires !StartsWith(imageBase64, "data:image")
    ensures StartsWith(Normalize(imageBase64), JpegPrefix)
    ensures var data := Normalize(imageBase64)[|JpegPrefix|..];
            && (',' in imageBase64 ==> |Split(imageBase64, ',')| >= 2 && data == Split(imageBase64, ',')[1] && ',' !in data)
            && (',' !in imageBase64 ==> data == RemoveSpace(imageBase64))
  {
    var url := Normalize(imageBase64);
    assert url[..|JpegPrefix|] == JpegPrefix;
    var data := url[|JpegPrefix|..];
    if ',' in imageBase64 {
      CommaParts(imageBase64);
      SplitPartsFree(imageBase64, ',');
      assert data == Split(imageBase64, ',')[1];
    } else {
      assert data == RemoveSpace(imageBase64);
    }
  }

  /** An input with two or more commas keeps the text between the first
      and the second one. */
  lemma NormalizedBetween(a: string, b: string, rest: string)
    requires ',' !in a && ',' !in b && !StartsWith(a + "," + b + "," + rest, "data:image")
    ensures Normalize(a + "," + b + "," + rest) == JpegPrefix + b
  {
    var s := a + "," + b + "," + rest;
    assert s == a + [','] + (b + [','] + rest);
    assert s[|a|] == ',';
    SplitFirst(a, b + [','] + rest, ',');
    SplitFirst(b, rest, ',');
  }

  /** A `data:` URL with a header is cut down to the payload after its
      first comma, which then gets the JPEG header. */
  lemma HeaderReplaced(header: string, payload: string)
    requires ',' !in header && ',' !in payload && !StartsWith(header + "," + payload, "data:image")
    ensures Normalize(header + "," + payload) == JpegPrefix + payload
  {
    var s := header + "," + payload;
    assert s == header + [','] + payload;
    assert s[|header|] == ',';
    SplitFirst(header, payload, ',');
    SplitNone(payload, ',');
  }

  /** The first field of a split ends at the first separator. */
  lemma {:induction false} SplitFirst(a: string, t: string, c: char)
    requires c !in a
    ensures Split(a + [c] + t, c) == [a] + Split(t, c)
    decreases |a|
  {
    if |a| == 0 {
      assert a + [c] + t == [c] + t;
      assert ([c] + t)[1..] == t;
    } else {
      var s := a + [c] + t;
      assert s[1..] == a[1..] + [c] + t;
      SplitFirst(a[1..], t, c);
      assert [a[0]] + a[1..] == a;
    }
  }

  lemma {:induction false} SplitNone(s: string, c: char)
    requires c !in s
    ensures Split(s, c) == [s]
    decreases |s|
  {
    if |s| > 0 {
      SplitNone(s[1..], c);
      assert [s[0]] + s[1..] == s;
    }
  }

  /** Which prompt goes with the image: the default one, or the given
      instructions followed by the request for thoroughness. */
  datatype PromptChoice = DefaultChoice | Instructed(instructions: string)

  /** `instructions ? … : defaultPrompt`. */
  function ChoosePrompt(instructions: Value): (c: PromptChoice)
    ensures c.DefaultChoice? <==> !Truthy(instructions)
    ensures c.Instructed? ==> c.instructions == ToString(instructions)
  {
    if Truthy(instructions) then Instructed(ToString(instructions)) else DefaultChoice
  }

  /** The text of a prompt choice. */
  function PromptText(c: PromptChoice): string
  {
    match c
    case DefaultChoice => DefaultPrompt
    case Instructed(text) => text + ThoroughSuffix
  }

  /** The prompt text the handler sends for `instructions`. */
  function Prompt(instructions: Value): (p: string)
    ensures Truthy(instructions) ==> StartsWith(p, ToString(instructions)) && p[|ToString(instructions)|..] == ThoroughSuffix
    ensures !Truthy(instructions) ==> p == DefaultPrompt
  {
    PromptText(ChoosePrompt(instructions))
  }

  // ---------------------------------------------------------------------
  // Headings

  /** Length of the run of `#` that `s` starts with. */
  function HashRun(s: string): (n: nat)
    ensures n <= |s|
    ensures forall i :: 0 <= i < n ==> s[i] == '#'
    ensures n < |s| ==> s[n] != '#'
    decreases |s|
  {
    if |s| > 0 && s[0] == '#' then 1 + HashRun(s[1..]) else 0
  }

  /** Length of the run of white space (line terminators included) that `s`
      starts with. */
  function SpaceRun(s: string): (n: nat)
    ensures n <= |s|
    ensures forall i :: 0 <= i < n ==> IsSpace(s[i])
    ensures n < |s| ==> !IsSpace(s[n])
    decreases |s|
  {
    if |s| > 0 && IsSpace(s[0]) then 1 + SpaceRun(s[1..]) else 0
  }

  /** `s.replace(/^(#+)\s*(.*?)$/gm, (_, hashes, title) => `# ${title.trim()}`)`
      on the rest `s` of the text, `lineStart` telling whether `^` can match
      at its first character. At a line start, a match takes every `#`, then
      all the white space after them — line terminators included — and then
      the title up to the end of the line it has reached. */
  function FlattenFrom(s: string, lineStart: bool): string
    decreases |s|
  {
    if |s| == 0 then ""
    else if lineStart && s[0] == '#' then
      var w := HashRun(s) + SpaceRun(s[HashRun(s)..]);
      var e := PlainText.LineEnd(s, w);
      "# " + Trim(s[w..e]) + FlattenFrom(s[e..], false)
    else [s[0]] + FlattenFrom(s[1..], IsLineTerminator(s[0]))
  }

  function FlattenHeadings(content: string): string
  {
    FlattenFrom(content, true)
  }

  /** One line on its own: a line starting with `#` becomes `# ` and its
      trimmed text after the `#` run; any other line is unchanged. */
  function FlattenLine(line: string): (r: string)
    ensures |line| > 0 && line[0] == '#' ==> StartsWith(r, "# ") && r[2..] == Trim(line[HashRun(line)..])
    ensures !(|line| > 0 && line[0] == '#') ==> r == line
  {
    if |line| > 0 && line[0] == '#' then
      var r := "# " + Trim(line[HashRun(line)..]);
      assert r[..2] == "# ";
      r
    else line
  }

  function FlattenLines(lines: seq<string>): (r: seq<string>)
    ensures |r| == |lines| && forall k :: 0 <= k < |lines| ==> r[k] == FlattenLine(lines[k])
  {
    if |lines| == 0 then [] else [FlattenLine(lines[0])] + FlattenLines(lines[1..])
  }

  /** A heading line with text after its `#` run on the same line. */
  predicate HasTitle(line: string)
  {
    HashRun(line) + SpaceRun(line[HashRun(line)..]) < |line|
  }

  lemma {:induction false} TrimStartSkip(s: string, n: nat)
    requires n <= |s| && forall i :: 0 <= i < n ==> IsSpace(s[i])
    ensures TrimStart(s) == TrimStart(s[n..])
    decreases n
  {
    if n > 0 {
      assert s[1..][n - 1..] == s[n..];
      TrimStartSkip(s[1..], n - 1);
    }
  }

  lemma {:induction false} HashRunAppend(a: string, b: string)
    requires HashRun(a) < |a| || b == [] || b[0] != '#'
    ensures HashRun(a + b) == HashRun(a)
    decreases |a|
  {
    if |a| == 0 {
      assert a + b == b;
    } else {
      assert (a + b)[0] == a[0];
      if a[0] == '#' {
        assert (a + b)[1..] == a[1..] + b;
        HashRunAppend(a[1..], b);
      }
    }
  }

  lemma {:induction false} SpaceRunAppend(a: string, b: string)
    requires SpaceRun(a) < |a|
    ensures SpaceRun(a + b) == SpaceRun(a)
    decreases |a|
  {
    assert (a + b)[0] == a[0];
    if IsSpace(a[0]) {
      assert (a + b)[1..] == a[1..] + b;
      SpaceRunAppend(a[1..], b);
    }
  }

  /** The rest of a line, after a character that is not a line terminator. */
  lemma {:induction false} CopyTail(x: string, rest: string)
    requires PlainText.NoTerminator(x)
    ensures FlattenFrom(x + rest, false) == x + FlattenFrom(rest, false)
    decreases |x|
  {
    if |x| == 0 {
      assert x + rest == rest;
    } else {
      var s := x + rest;
      assert s[0] == x[0] && s[1..] == x[1..] + rest;
      CopyTail(x[1..], rest);
      assert [x[0]] + x[1..] == x;
    }
  }

  /** One match at a line start. */
  lemma FlattenAt(s: string, w: nat, e: nat)
    requires |s| > 0 && s[0] == '#'
    requires w == HashRun(s) + SpaceRun(s[HashRun(s)..]) && w <= |s| && e == PlainText.LineEnd(s, w)
    ensures FlattenFrom(s, true) == "# " + Trim(s[w..e]) + FlattenFrom(s[e..], false)
  {
  }

  /** A heading line followed by `\n` or by the end of the text. */
  lemma HeadingLineStep(line: string, rest: string, s: string)
    requires PlainText.NoTerminator(line) && |line| > 0 && line[0] == '#'
    requires rest == [] || rest[0] == '\n'
    requires rest != [] ==> HasTitle(line)
    requires s == line + rest
    ensures FlattenFrom(s, true) == FlattenLine(line) + FlattenFrom(rest, false)
  {
    var h := HashRun(line);
    var w := h + SpaceRun(line[h..]);
    HeadingRuns(line, rest, s);
    LineEndOfLine(line, rest, s, w);
    FlattenAt(s, w, |line|);
    SliceParts(line, rest, s, w);
    TrimAfterRun(line, h, w);
  }

  /** The `#` run and the white space after it end inside the line. */
  lemma HeadingRuns(line: string, rest: string, s: string)
    requires |line| > 0 && line[0] == '#'
    requires rest == [] || rest[0] == '\n'
    requires rest != [] ==> HasTitle(line)
    requires s == line + rest
    ensures HashRun(s) == HashRun(line)
    ensures SpaceRun(s[HashRun(line)..]) == SpaceRun(line[HashRun(line)..])
  {
    if rest == [] {
      assert s == line;
    } else {
      var h := HashRun(line);
      HashRunAppend(line, rest);
      DropAppend(line, rest, h);
      SpaceRunAppend(line[h..], rest);
    }
  }

  lemma DropAppend<T>(a: seq<T>, b: seq<T>, h: nat)
    requires h <= |a|
    ensures (a + b)[h..] == a[h..] + b
  {
  }

  lemma LineEndOfLine(line: string, rest: string, s: string, w: nat)
    requires PlainText.NoTerminator(line) && w <= |line|
    requires rest == [] || rest[0] == '\n'
    requires s == line + rest
    ensures PlainText.LineEnd(s, w) == |line|
  {
    forall k | w <= k < |line| ensures !IsLineTerminator(s[k]) {
      assert s[k] == line[k];
    }
    PlainText.LineEndAt(s, w, |line|);
  }

  lemma SliceParts(line: string, rest: string, s: string, w: nat)
    requires w <= |line| && s == line + rest
    ensures s[w..|line|] == line[w..] && s[|line|..] == rest
  {
  }

  lemma TrimAfterRun(line: string, h: nat, w: nat)
    requires h <= w <= |line| && forall i :: h <= i < w ==> IsSpace(line[i])
    ensures Trim(line[w..]) == Trim(line[h..])
  {
    TrimStartSkip(line[h..], w - h);
    assert line[h..][w - h..] == line[w..];
  }

  /** Any line followed by `\n` or by the end of the text. */
  lemma LineStep(line: string, rest: string)
    requires PlainText.NoTerminator(line)
    requires rest == [] || rest[0] == '\n'
    requires rest != [] && |line| > 0 && line[0] == '#' ==> HasTitle(line)
    ensures FlattenFrom(line + rest, true) == FlattenLine(line) + FlattenFrom(rest, false)
  {
    if |line| == 0 {
      EmptyLineStep(line, rest);
    } else if line[0] == '#' {
      HeadingLineStep(line, rest, line + rest);
    } else {
      PlainLineStep(line, rest, line + rest);
    }
  }

  /** An empty line: the `\n` after it is copied and ends no heading. */
  lemma EmptyLineStep(line: string, rest: string)
    requires line == [] && (rest == [] || rest[0] == '\n')
    ensures FlattenFrom(line + rest, true) == FlattenLine(line) + FlattenFrom(rest, false)
  {
    assert line + rest == rest;
    if rest != [] {
      assert FlattenFrom(rest, true) == [rest[0]] + FlattenFrom(rest[1..], true);
    }
  }

  /** A line that does not start with `#` is copied as it is. */
  lemma PlainLineStep(line: string, rest: string, s: string)
    requires PlainText.NoTerminator(line) && |line| > 0 && line[0] != '#'
    requires s == line + rest
    ensures FlattenFrom(s, true) == FlattenLine(line) + FlattenFrom(rest, false)
  {
    assert s[0] == line[0] && s[1..] == line[1..] + rest;
    assert !IsLineTerminator(s[0]);
    CopyTail(line[1..], rest);
    assert FlattenFrom(s, true) == [line[0]] + (line[1..] + FlattenFrom(rest, false));
    TakeDrop(line, 1);
    assert line[..1] == [line[0]];
    Assoc([line[0]], line[1..], FlattenFrom(rest, false));
  }

  /** On text made of terminator-free lines joined by `\n`, where every
      heading line but the last has text after its `#` run, each line is
      rewritten on its own. */
  lemma {:induction false} FlattenByLine(lines: seq<string>)
    requires |lines| > 0
    requires forall k :: 0 <= k < |lines| ==> PlainText.NoTerminator(lines[k])
    requires forall k :: 0 <= k < |lines| - 1 && |lines[k]| > 0 && lines[k][0] == '#' ==> HasTitle(lines[k])
    ensures FlattenHeadings(Join(lines, '\n')) == Join(FlattenLines(lines), '\n')
    decreases |lines|
  {
    var line := lines[0];
    if |lines| == 1 {
      LineStep(line, []);
      assert line + [] == line;
      assert FlattenLines(lines) == [FlattenLine(line)];
    } else {
      var tail := lines[1..];
      var rest := ['\n'] + Join(tail, '\n');
      assert Join(lines, '\n') == line + rest;
      LineStep(line, rest);
      assert rest[1..] == Join(tail, '\n');
      assert FlattenFrom(rest, false) == ['\n'] + FlattenFrom(Join(tail, '\n'), true);
      assert forall k :: 0 <= k < |tail| ==> tail[k] == lines[k + 1];
      FlattenByLine(tail);
      var out := FlattenLines(lines);
      assert out[1..] == FlattenLines(tail);
      assert Join(out, '\n') == out[0] + ['\n'] + Join(out[1..], '\n');
    }
  }

  /** A line that is only `#` takes the next line as its title, because the
      white space after the `#` run reaches across the line break. */
  lemma BareHashTakesNextLine(next: string)
    requires PlainText.NoTerminator(next) && |next| > 0 && !IsSpace(next[0])
    ensures FlattenHeadings("#\n" + next) == "# " + Trim(next)
  {
    var s := "#\n" + next;
    assert s[0] == '#' && s[1] == '\n';
    assert s[1..][1..] == s[2..];
    assert HashRun(s) == 1 by {
      assert HashRun(s[1..]) == 0;
    }
    assert s[2..] == next;
    assert SpaceRun(s[1..]) == 1 by {
      assert s[1..][1..] == next;
      assert SpaceRun(next) == 0;
    }
    forall k | 2 <= k < |s| ensures !IsLineTerminator(s[k]) {
      assert s[k] == next[k - 2];
    }
    PlainText.LineEndAt(s, 2, |s|);
    FlattenAt(s, 2, |s|);
    assert s[|s|..] == [];
    assert s[2..|s|] == next;
    assert FlattenHeadings(s) == "# " + Trim(next) + FlattenFrom([], false);
  }

  // ---------------------------------------------------------------------
  // The handler

  /** The request sent to the vision service: the prompt (as a choice whose
      text is `PromptText`), the image URL and the token limit (the sampling
      temperature is not modelled). */
  datatype VisionRequest = VisionRequest(prompt: PromptChoice, imageUrl: string, maxTokens: nat)

  /** What the call to the vision service gives back: a response that is
      not `ok`, with its status, status text and body; the parsed JSON body
      of an `ok` response; or an exception with its `message`. */
  datatype Reply =
    | NotOk(status: int, statusText: string, errorText: string)
    | Json(result: Value)
    | Rejected(message: string)

  /** What the handler returns. */
  datatype Response =
    | Failure(error: string)
    | Analyzed(analysis: string, imageUrl: string, message: string)

  /** `!result || !result.choices || !result.choices[0] || !result.choices[0].message`, negated. */
  predicate WellFormedReply(result: Value)
  {
    && Truthy(result)
    && Truthy(Prop(result, "choices"))
    && Truthy(Index(Prop(result, "choices"), 0))
    && Truthy(Prop(Index(Prop(result, "choices"), 0), "message"))
  }

  /** The `catch` block's message: `error.message || "Unknown error"`. */
  function Caught(message: string): string
  {
    CatchPrefix + (if message == "" then "Unknown error" else message)
  }

  /** The vision request the handler sends for an image given as text. */
  function RequestFor(image: string, instructions: Value): (r: VisionRequest)
    ensures r.imageUrl == Normalize(image) && r.prompt == ChoosePrompt(instructions) && r.maxTokens == 4000
  {
    VisionRequest(ChoosePrompt(instructions), Normalize(image), MaxTokens)
  }

  /** The response to a parsed reply. */
  function Answer(result: Value, imageUrl: string): Response
  {
    if !WellFormedReply(result) then Failure(InvalidFormatError)
    else
      var content := Prop(Prop(Index(Prop(result, "choices"), 0), "message"), "content");
      match AsString(content, "content", "replace")
      case Thrown(m) => Failure(Caught(m))
      case Ok(text) => Analyzed(FlattenHeadings(text), imageUrl, SuccessMessage)
  }

  /** `handler({imageBase64, instructions})`, the vision service being
      `vision`. */
  function Handle(imageBase64: Value, instructions: Value, vision: VisionRequest -> Reply): Response
  {
    if !Truthy(imageBase64) then Failure(NoImageError)
    else
      match AsString(imageBase64, "imageBase64", "startsWith")
      case Thrown(m) => Failure(Caught(m))
      case Ok(image) =>
        var request := RequestFor(image, instructions);
        match vision(request)
        case Rejected(m) => Failure(Caught(m))
        case NotOk(status, statusText, errorText) =>
          Failure("API error: " + IntToString(status) + " " + statusText + ". " + errorText)
        case Json(result) => Answer(result, request.imageUrl)
  }

  // ---------------------------------------------------------------------
  // Properties

  /** A falsy image is refused before the service is called. */
  lemma NoImage(imageBase64: Value, instructions: Value, vision: VisionRequest -> Reply)
    requires !Truthy(imageBase64)
    ensures Handle(imageBase64, instructions, vision) == Failure(NoImageError)
  {
  }

  /** The service is asked once, with the request for the image; two
      services that answer that request alike give the same response. */
  lemma OneRequest(image: string, instructions: Value, v1: VisionRequest -> Reply, v2: VisionRequest -> Reply)
    requires image != ""
    requires v1(RequestFor(image, instructions)) == v2(RequestFor(image, instructions))
    ensures Handle(Str(image), instructions, v1) == Handle(Str(image), instructions, v2)
  {
  }

  /** A successful response carries the flattened text of the reply's first
      choice, the normalised image URL and the fixed message. */
  lemma Success(imageBase64: Value, instructions: Value, vision: VisionRequest -> Reply)
    requires Handle(imageBase64, instructions, vision).Analyzed?
    ensures imageBase64.Str?
    ensures var r := Handle(imageBase64, instructions, vision);
            var reply := vision(RequestFor(imageBase64.s, instructions));
            && reply.Json? && WellFormedReply(reply.result)
            && r.analysis == FlattenHeadings(Prop(Prop(Index(Prop(reply.result, "choices"), 0), "message"), "content").s)
            && r.imageUrl == Normalize(imageBase64.s)
            && StartsWith(r.imageUrl, "data:image")
            && r.message == SuccessMessage
  {
  }

  /** A reply that is not `ok` is reported with its status, its status text
      and its body. */
  lemma ServiceError(image: string, instructions: Value, vision: VisionRequest -> Reply)
    requires image != "" && vision(RequestFor(image, instructions)).NotOk?
    ensures var reply := vision(RequestFor(image, instructions));
            Handle(Str(image), instructions, vision)
            == Failure("API error: " + IntToString(reply.status) + " " + reply.statusText + ". " + reply.errorText)
  {
  }

  /** A parsed reply without `choices[0].message` is reported as malformed. */
  lemma MalformedReply(image: string, instructions: Value, vision: VisionRequest -> Reply)
    requires image != ""
    requires vision(RequestFor(image, instructions)).Json?
    requires !WellFormedReply(vision(RequestFor(image, instructions)).result)
    ensures Handle(Str(image), instructions, vision) == Failure(InvalidFormatError)
  {
  }

  /** Every error raised inside the `try` is reported with the catch prefix,
      an empty message as `Unknown error`. */
  lemma CaughtErrors(message: string)
    ensures StartsWith(Caught(message), CatchPrefix)
    ensures message == "" ==> Caught(message) == CatchPrefix + "Unknown error"
    ensures message != "" ==> Caught(message)[|CatchPrefix|..] == message
  {
    var c := Caught(message);
    assert c[..|CatchPrefix|] == CatchPrefix;
  }

  /** A truthy image that is not a string makes `startsWith` throw. */
  lemma ImageNotString(imageBase64: Value, instructions: Value, vision: VisionRequest -> Reply)
    requires Truthy(imageBase64) && !imageBase64.Str?
    ensures Handle(imageBase64, instructions, vision) == Failure(Caught(NotAFunction("imageBase64.startsWith")))
  {
  }
}
