/** The document-generation handler: it picks the text to export, converts
    it for the requested format and returns it as a `data:` URL (RFC 2397,
    section 3) whose data is percent-encoded as `encodeURIComponent` does. */
module DocumentGeneration {
  import opened Js
  import Uri
  import PlainText
  import HtmlExport
  import CsvExport

  /** What the handler returns: an `error` object, or the generated file. */
  datatype Response =
    | Failure(error: string)
    | Generated(downloadUrl: string, fileName: string, message: string)

  const NoResultError: string := "No analysis result provided."
  const FailurePrefix: string := "Failed to generate document: "

  /** The text to export: a truthy `analysis` property, else the value
      itself when it is a string, else its JSON (`stringify`). Only objects
      have properties in this model, so arrays fall through to the JSON. */
  function AnalysisContent(analysisResult: Value, stringify: Value -> string): (r: Value)
    ensures Truthy(Prop(analysisResult, "analysis")) ==> r == Prop(analysisResult, "analysis")
    ensures !Truthy(Prop(analysisResult, "analysis")) ==> r.Str?
    ensures !Truthy(Prop(analysisResult, "analysis")) && analysisResult.Str? ==> r == analysisResult
    ensures !Truthy(Prop(analysisResult, "analysis")) && !analysisResult.Str? ==> r == Str(stringify(analysisResult))
  {
    if Truthy(Prop(analysisResult, "analysis")) then Prop(analysisResult, "analysis")
    else if analysisResult.Str? then analysisResult
    else Str(stringify(analysisResult))
  }

  /** `format.charAt(0).toUpperCase() + format.slice(1)`. */
  function Capitalize(format: string): (r: string)
    ensures |r| == |format|
    ensures |format| > 0 ==> r[0] == ToUpperChar(format[0]) && r[1..] == format[1..]
  {
    if |format| == 0 then "" else [ToUpperChar(format[0])] + format[1..]
  }

  const MessageSuffix: string := " document generated successfully."

  function SuccessMessage(format: string): string
  {
    Capitalize(format) + MessageSuffix
  }

  /** The `data:` URL of `content` with media type `mimeType`. */
  function DataUrl(mimeType: string, content: string): string
  {
    "data:" + mimeType + ";charset=utf-8," + Uri.EncodeURIComponent(content)
  }

  /** The file the `switch` selects for the lower-cased format: its name,
      media type and content, or the TypeError a converter throws when the
      content is not a string. */
  function FileFor(lower: string, content: Value, generatedOn: string): Outcome<(string, string, Value)>
  {
    if lower == "excel" then
      match AsString(content, "markdownContent", "split")
      case Thrown(m) => Thrown(m)
      case Ok(s) => Ok(("analysis_report.csv", "text/csv", Str(CsvExport.CsvDocument(s))))
    else if lower == "word" then
      match AsString(content, "markdownContent", "split")
      case Thrown(m) => Thrown(m)
      case Ok(s) => Ok(("analysis_report.html", "text/html", Str(HtmlExport.HtmlDocument(s, generatedOn))))
    else if lower == "markdown" then Ok(("analysis_report.md", "text/markdown", content))
    else if lower == "text" then
      match AsString(content, "markdownContent", "replace")
      case Thrown(m) => Thrown(m)
      case Ok(s) => Ok(("analysis_report.txt", "text/plain", Str(PlainText.FormatAsPlainText(s))))
    else Ok(("analysis_result.txt", "text/plain", content))
  }

  /** The handler's response; `generatedOn` is the HTML footer's timestamp
      and `stringify` stands for `JSON.stringify(value, null, 2)`. */
  function Export(analysisResult: Value, format: Value, stringify: Value -> string, generatedOn: string): Response
  {
    if !Truthy(analysisResult) then Failure(NoResultError)
    else
      match AsString(format, "format", "toLowerCase")
      case Thrown(m) => Failure(FailurePrefix + m)
      case Ok(f) =>
        match FileFor(ToLower(f), AnalysisContent(analysisResult, stringify), generatedOn)
        case Thrown(m) => Failure(FailurePrefix + m)
        case Ok(file) => Generated(DataUrl(file.1, ToString(file.2)), file.0, SuccessMessage(f))
  }

  /** `handler({analysisResult, format})`. */
  method Handler(analysisResult: Value, format: Value, stringify: Value -> string, generatedOn: string)
      returns (response: Response)
    ensures response == Export(analysisResult, format, stringify, generatedOn)
  {
    if !Truthy(analysisResult) {
      return Failure(NoResultError);
    }
    var analysisContent := AnalysisContent(analysisResult, stringify);
    var lowered := AsString(format, "format", "toLowerCase");
    if lowered.Thrown? {
      return Failure(FailurePrefix + lowered.message);
    }
    var file := SelectFile(ToLower(lowered.value), analysisContent, generatedOn);
    if file.Thrown? {
      return Failure(FailurePrefix + file.message);
    }
    var (fileName, mimeType, fileContent) := file.value;
    var dataUrl := "data:" + mimeType + ";charset=utf-8," + Uri.EncodeURIComponent(ToString(fileContent));
    response := Generated(dataUrl, fileName, Capitalize(lowered.value) + MessageSuffix);
  }

  /** The handler's `switch`: it assigns the file's name, content and media
      type, running the converters. */
  method SelectFile(lower: string, analysisContent: Value, generatedOn: string)
      returns (file: Outcome<(string, string, Value)>)
    ensures file == FileFor(lower, analysisContent, generatedOn)
  {
    var fileContent: Value := Str("");
    var fileName := "";
    var mimeType := "";
    if lower == "excel" {
      fileName := "analysis_report.csv";
      var text := AsString(analysisContent, "markdownContent", "split");
      if text.Thrown? {
        return Thrown(text.message);
      }
      var csv := CsvExport.FormatAsCSV(text.value);
      fileContent := Str(csv);
      mimeType := "text/csv";
    } else if lower == "word" {
      fileName := "analysis_report.html";
      var text := AsString(analysisContent, "markdownContent", "split");
      if text.Thrown? {
        return Thrown(text.message);
      }
      var html := HtmlExport.FormatAsHTML(text.value, generatedOn);
      fileContent := Str(html);
      mimeType := "text/html";
    } else if lower == "markdown" {
      fileName := "analysis_report.md";
      fileContent := analysisContent;
      mimeType := "text/markdown";
    } else if lower == "text" {
      fileName := "analysis_report.txt";
      var text := AsString(analysisContent, "markdownContent", "replace");
      if text.Thrown? {
        return Thrown(text.message);
      }
      fileContent := Str(PlainText.FormatAsPlainText(text.value));
      mimeType := "text/plain";
    } else {
      fileName := "analysis_result.txt";
      fileContent := analysisContent;
      mimeType := "text/plain";
    }
    file := Ok((fileName, mimeType, fileContent));
  }

  // ---------------------------------------------------------------------
  // Properties

  /** A falsy `analysisResult` is refused before anything else happens,
      whatever the format. */
  lemma NoResult(analysisResult: Value, format: Value, stringify: Value -> string, generatedOn: string)
    requires !Truthy(analysisResult)
    ensures Export(analysisResult, format, stringify, generatedOn) == Failure(NoResultError)
  {
  }

  /** A format that is not a string makes `toLowerCase` throw, and the
      error is reported with the handler's prefix. */
  lemma FormatNotString(analysisResult: Value, format: Value, stringify: Value -> string, generatedOn: string)
    requires Truthy(analysisResult) && !format.Str?
    ensures Export(analysisResult, format, stringify, generatedOn).Failure?
    ensures StartsWith(Export(analysisResult, format, stringify, generatedOn).error, FailurePrefix)
  {
    var m := AsString(format, "format", "toLowerCase").message;
    assert (FailurePrefix + m)[..|FailurePrefix|] == FailurePrefix;
  }

  /** The choice of file ignores the case of the format: two formats that
      lower-case alike give the same file name and the same URL (only the
      message echoes the format as given). */
  lemma CaseInsensitive(analysisResult: Value, f: string, g: string, stringify: Value -> string, generatedOn: string)
    requires ToLower(f) == ToLower(g)
    ensures var a := Export(analysisResult, Str(f), stringify, generatedOn);
            var b := Export(analysisResult, Str(g), stringify, generatedOn);
            a.Generated? == b.Generated?
            && (a.Generated? ==> a.downloadUrl == b.downloadUrl && a.fileName == b.fileName)
            && (a.Failure? ==> a == b)
  {
  }

  /** The dispatch table, for string content: file name, media type and
      content of each known format, and the unconverted text for any other. */
  lemma Dispatch(content: string, generatedOn: string, lower: string)
    ensures FileFor("excel", Str(content), generatedOn)
         == Ok(("analysis_report.csv", "text/csv", Str(CsvExport.CsvDocument(content))))
    ensures FileFor("word", Str(content), generatedOn)
         == Ok(("analysis_report.html", "text/html", Str(HtmlExport.HtmlDocument(content, generatedOn))))
    ensures FileFor("markdown", Str(content), generatedOn) == Ok(("analysis_report.md", "text/markdown", Str(content)))
    ensures FileFor("text", Str(content), generatedOn)
         == Ok(("analysis_report.txt", "text/plain", Str(PlainText.FormatAsPlainText(content))))
    ensures lower !in {"excel", "word", "markdown", "text"} ==>
              FileFor(lower, Str(content), generatedOn) == Ok(("analysis_result.txt", "text/plain", Str(content)))
  {
  }

  /** The converters that need a string (CSV, HTML, plain text) throw on any
      other content; markdown and unknown formats pass it through. */
  lemma NonStringContent(lower: string, content: Value, generatedOn: string)
    requires !content.Str?
    ensures FileFor(lower, content, generatedOn).Thrown? <==> lower in {"excel", "word", "text"}
  {
  }

  /** The URL is the media type and the percent-encoded content; decoding
      the data part gives the file content back exactly, and the data part
      holds only characters that need no quoting in a URL. */
  lemma DownloadDecodes(analysisResult: Value, format: string, stringify: Value -> string, generatedOn: string)
    requires Truthy(analysisResult)
    requires FileFor(ToLower(format), AnalysisContent(analysisResult, stringify), generatedOn).Ok?
    ensures var file := FileFor(ToLower(format), AnalysisContent(analysisResult, stringify), generatedOn).value;
            var prefix := "data:" + file.1 + ";charset=utf-8,";
            var r := Export(analysisResult, Str(format), stringify, generatedOn);
            && r == Generated(r.downloadUrl, file.0, SuccessMessage(format))
            && StartsWith(r.downloadUrl, prefix)
            && Uri.PercentDecode(r.downloadUrl[|prefix|..]) == Some(ToString(file.2))
            && forall i :: |prefix| <= i < |r.downloadUrl| ==> Uri.IsUriSafe(r.downloadUrl[i])
  {
    var file := FileFor(ToLower(format), AnalysisContent(analysisResult, stringify), generatedOn).value;
    var prefix := "data:" + file.1 + ";charset=utf-8,";
    var encoded := Uri.EncodeURIComponent(ToString(file.2));
    var url := prefix + encoded;
    assert url[..|prefix|] == prefix;
    assert url[|prefix|..] == encoded;
    Uri.DecodeEncode(ToString(file.2));
    Uri.EncodedIsSafe(ToString(file.2));
    forall i | |prefix| <= i < |url| ensures Uri.IsUriSafe(url[i]) {
      assert url[i] == encoded[i - |prefix|];
    }
  }

  /** The message is the format as given with its first character
      upper-cased, then the fixed suffix; an empty format leaves only the
      suffix, which starts with a space. */
  lemma MessageShape(format: string)
    ensures var m := SuccessMessage(format);
            && |m| == |format| + |MessageSuffix|
            && m[|format|..] == MessageSuffix
            && (|format| > 0 ==> m[0] == ToUpperChar(format[0]) && m[1..|format|] == format[1..])
  {
    var c := Capitalize(format);
    assert (c + MessageSuffix)[..|format|] == c;
    if |format| > 0 {
      assert (c + MessageSuffix)[1..|format|] == c[1..];
    }
  }
}
