# Data-Scanner text core in Dafny

Data-Scanner is a web application that sends text or images to an analysis
service and shows the reply as Markdown. Its logic that does not go through
the network or the screen is a set of line-oriented text transformers. This
project models four parts of it.

- **Document export** (`DocumentGeneration`, `PlainText`, `HtmlExport`,
  `CsvExport`, `Uri`). The handler selects the text to export and dispatches
  on the lower-cased format to one of three converters:
  - the seven regular-expression rewrites of the plain-text format;
  - the HTML converter, whose per-line loop keeps one open list;
  - the CSV converter, whose per-line loop tracks the heading in force.

  It then returns the file as a `data:` URL (RFC 2397, section 3), with the
  content percent-encoded as `encodeURIComponent` does (ECMAScript section
  19.2.6.5: UTF-8 bytes, RFC 3986 section 2.1 triplets).
- **Analysis page** (`Segmenter`, `AnalysisPage`, `MarkdownLines`).
  - The section segmenter splits the result into titled, levelled sections.
  - The line classifier renders bullets, numbered items, bold runs and plain
    paragraphs.
  - The page state is what `handleFinish` stores when the stream ends.
- **Image analysis** (`ImageAnalysis`). The handler normalises base64 or
  `data:` input into a JPEG `data:` URL, chooses the prompt, calls the vision
  service and rewrites every `#` heading of the reply to level 1.
- **Dashboard** (`Dashboard`). It computes summary figures for a result and
  filters and sorts the recent analyses.

JavaScript's loose values are one datatype, `Js.Value`. The module `Js` also
models the language operations the code depends on:
- truthiness and property access;
- `String(v)` and `split`;
- `trim`, with its white-space set;
- the TypeError messages thrown when a string method is called on a value
  that is not a string.

The HTML and CSV converters, the segmenter walk, the page render, the
summary statistics and the in-place sort are imperative methods proved
equal to specification functions. The plain-text converter is a chain of
`replace` calls in the source and is a function here. Lemmas about those functions state what the code
promises.

## Model

| member | source | states |
|---|---|---|
| DocumentGeneration.AnalysisContent | src/api/document-generation/route.js:14-19 | a truthy `analysis` property is exported; otherwise a string result is exported as is, and any other value as the string its JSON gives |
| DocumentGeneration.Handler | src/api/document-generation/route.js:1-72 | the handler's checks, file selection and URL give exactly the response `Export` defines |
| DocumentGeneration.SelectFile | src/api/document-generation/route.js:22-54 | the `switch` sets exactly the file name, media type and content of `FileFor`, or the error a converter throws |
| DocumentGeneration.NoResult | src/api/document-generation/route.js:2-4 | a falsy result gives exactly `{error: "No analysis result provided."}`, whatever the format |
| DocumentGeneration.FormatNotString | src/api/document-generation/route.js:21-71 | a format that is not a string throws in `toLowerCase`; the error carries the `Failed to generate document: ` prefix |
| DocumentGeneration.CaseInsensitive | src/api/document-generation/route.js:22 | two formats that lower-case alike give the same file name and URL, or the same error |
| DocumentGeneration.Dispatch | src/api/document-generation/route.js:22-54 | the file name, media type and converter of excel, word, markdown and text, and the unconverted text for any other format |
| DocumentGeneration.NonStringContent | src/api/document-generation/route.js:23-54 | for content that is not a string, the CSV, HTML and plain-text converters throw, while markdown and unknown formats pass the content through |
| DocumentGeneration.DownloadDecodes | src/api/document-generation/route.js:57-67 | the URL is `data:` + media type + `;charset=utf-8,` + the encoded content; percent-decoding its data part gives the content back; the data part holds only URL-safe characters; the message is the capitalised format |
| DocumentGeneration.Capitalize | src/api/document-generation/route.js:65 | the format keeps its length, its first character is upper-cased and the rest is unchanged |
| DocumentGeneration.MessageShape | src/api/document-generation/route.js:64-66 | the message is the format as given with its first character upper-cased, then ` document generated successfully.`; an empty format leaves only that suffix |
| Uri.DecodeEncode | src/api/document-generation/route.js:57-59 | percent-decoding undoes `encodeURIComponent` on every string |
| Uri.EncodedIsSafe | src/api/document-generation/route.js:57-59 | the encoding holds only unreserved characters and `%`, and every `%` is followed by two hexadecimal digits |
| Uri.EncodeUnescaped | src/api/document-generation/route.js:57-59 | a string of unreserved characters is its own encoding |
| Uri.Utf8 | src/api/document-generation/route.js:57-59 | each character encodes to one to four bytes |
| Uri.DecodeEncodeChar | src/api/document-generation/route.js:57-59 | decoding the triplets of one character gives that character back, for one-, two-, three- and four-byte sequences alike |
| PlainText.HeadingsByLine | src/api/document-generation/route.js:78-80 | on lines joined by `\n`, a heading rule rewrites each line starting with its marker to the title plus the rule's suffix, and leaves the other lines alone |
| PlainText.Level2NotLevel1 | src/api/document-generation/route.js:78-79 | a `## ` line is not rewritten by the `# ` rule |
| PlainText.HeadingsUnchanged | src/api/document-generation/route.js:78-80 | text with no line starting with the marker is unchanged by that heading rule |
| PlainText.StripPair | src/api/document-generation/route.js:81-82 | a delimited run `D x D` on one line becomes `x` |
| PlainText.StripUnchanged | src/api/document-generation/route.js:81-82 | text without the delimiter is unchanged |
| PlainText.ImagePair | src/api/document-generation/route.js:83 | `![alt](url)` on one line becomes `Image: alt` |
| PlainText.LinkPair | src/api/document-generation/route.js:84 | `[text](url)` on one line becomes `text (url)` |
| PlainText.PlainTextUnchanged | src/api/document-generation/route.js:75-85 | text with no `*`, no `[` and no line starting with `# `, `## ` or `### ` comes back unchanged, so the conversion is idempotent on it |
| PlainText.FindOnLine | src/api/document-generation/route.js:81-84 | the lazy `(.*?)` followed by a delimiter matches at a delimiter occurrence with no line terminator before it |
| HtmlExport.FormatAsHTML | src/api/document-generation/route.js:88-183 | the loop's output is the fixed shell, then every line's tags, then the closing tag of a list still open, then the footer |
| HtmlExport.AddLine | src/api/document-generation/route.js:117-169 | one line's callback appends exactly the tokens of `Step`, and the new `inList`/`listType` are the state `Step` reaches |
| HtmlExport.CloseOpenList | src/api/document-generation/route.js:120-123 | an open list gets its closing tag and is no longer open; with no list open nothing is written |
| HtmlExport.EnterList | src/api/document-generation/route.js:140-145 | before an item, a list of the other kind is closed and one of the item's kind opened, unless that kind is already open; afterwards that kind is open |
| HtmlExport.AppendBody | src/api/document-generation/route.js:117-175 | the `forEach` and the final close append exactly the body tokens |
| HtmlExport.StepRender | src/api/document-generation/route.js:119-169 | each line writes the list transition it needs, then its element |
| HtmlExport.BodyWellNested | src/api/document-generation/route.js:114-175 | every emitted list is opened once and closed once, items sit only inside an open list, and nothing is left open |
| HtmlExport.BalancedTags | src/api/document-generation/route.js:114-175 | the body has as many `<ul>` as `</ul>` and as many `<ol>` as `</ol>` tags |
| HtmlExport.ConsecutiveItemsShareList | src/api/document-generation/route.js:139-155 | a second item of the same list type adds only its `<li>`, without closing or opening a list |
| HtmlExport.OneElementPerLine | src/api/document-generation/route.js:117-170 | apart from list tags, the body is one element per input line, in order |
| CsvExport.FormatAsCSV | src/api/document-generation/route.js:186-217 | the loop builds the header row and the records of `RowsFrom` |
| CsvExport.ProcessLine | src/api/document-generation/route.js:198-213 | one line moves the heading in force as `Next` does and appends exactly that line's records |
| CsvExport.SectionRows | src/api/document-generation/route.js:197-213 | under one heading, each non-blank line gives one record with the heading's title and level, in order |
| CsvExport.HeadingStartsSection | src/api/document-generation/route.js:198-206 | a heading line writes no record; the records after it carry its title and level |
| CsvExport.NoHeadingsSummary | src/api/document-generation/route.js:194-195 | text without headings is one `Summary` section at level 1 |
| CsvExport.EscapeCSV | src/api/document-generation/route.js:220-223 | strings get their quotes doubled and read back exactly as a quoted field; any other value is returned unchanged |
| CsvExport.QuotedRoundTrip | src/api/document-generation/route.js:209-212 | a quoted field with doubled quotes reads back as the original text, as section 2 of RFC 4180 describes |
| CsvExport.RowRoundTrip | src/api/document-generation/route.js:210-212 | every record reads back field for field: title, level and line |
| CsvExport.HeaderRoundTrip | src/api/document-generation/route.js:192 | the header reads back as `Section`, `Level`, `Content` |
| CsvExport.CsvRoundTrip | src/api/document-generation/route.js:186-217 | reading the whole output as CSV gives the header and then the fields of every record |
| MarkdownLines.HeadingLevel | src/app/page.jsx:247-273 | a level of 1, 2 or 3 means the line begins with that level's marker `# `, `## ` or `### `; the level is 0 exactly when the line begins with none of them |
| MarkdownLines.HeadingRoundTrip | src/app/page.jsx:252-270 | a heading line is its marker followed by its title, so exactly the prefix is removed |
| MarkdownLines.HeadingOf | src/app/page.jsx:247-273 | a written `# t`, `## t` or `### t` reads back as level and title `t` |
| MarkdownLines.DigitRun | src/app/page.jsx:319-320 | the leading run of ASCII digits, and nothing more |
| Segmenter.SplitSections | src/app/page.jsx:243-289 | the `forEach` and the pushes give exactly `Sections(content)` |
| Segmenter.WalkStep | src/app/page.jsx:246-276 | a heading closes the open section, which is kept by its body or, below level 1, by its title, and opens a new one; any other line is appended to the open section |
| Segmenter.WalkLine | src/app/page.jsx:246-276 | one turn of the walk: a heading pushes the open section when the rule of its level keeps it and opens the next, any other line joins the open section |
| Segmenter.EndWalk | src/app/page.jsx:279-289 | pushing the open section and then the fallback completes `Sections(content)` |
| Segmenter.BlocksUnparse | src/app/page.jsx:243-277 | no line is lost or invented: writing every opened section back as heading line and body gives the input lines |
| Segmenter.SegmentsKeepBodies | src/app/page.jsx:248-279 | the emitted sections hold every non-heading line, in order, because a dropped section has no body |
| Segmenter.LeadingLines | src/app/page.jsx:244-276 | the lines before the first heading form the first section, whose title is `null` |
| Segmenter.NoHeadingsOneSection | src/app/page.jsx:244-276 | text without headings is one untitled section holding all its lines |
| Segmenter.ClosedBlocksStay | src/app/page.jsx:246-277 | sections already closed are never changed by later lines, and the open one keeps its title |
| Segmenter.TwoHeadings | src/app/page.jsx:247-259 | after a heading with no body, a `# ` heading drops it, while `## ` and `### ` keep it when its title is non-empty |
| Segmenter.TitleOnlyDroppedByLevel1 | src/app/page.jsx:247-250 | `# A` then `# B` emits only `B` |
| Segmenter.TitleOnlyKeptByLevel2 | src/app/page.jsx:256-259 | `# A` then `## B` emits both |
| Segmenter.SegmentsNonEmpty | src/app/page.jsx:248-279 | every emitted section has a body or a non-empty title |
| Segmenter.AlwaysASection | src/app/page.jsx:279-289 | the page always has at least one section |
| Segmenter.FallbackOnlyForHeadings | src/app/page.jsx:283-289 | the fallback section is used only when every line is a heading |
| AnalysisPage.Classify | src/app/page.jsx:309-348 | tested in the source's order: a line starting with `- ` or `* ` is exactly a bullet, shown with both markers stripped; otherwise a numbered line is split into its whole leading digit run, `. ` and the rest; otherwise a line with `**` is split into its bold parts, each shown by `ShowPart`; otherwise a line with text after trimming is plain and a blank line is omitted |
| AnalysisPage.ClassifyBlank | src/app/page.jsx:341-348 | a line renders as nothing exactly when it is blank after trimming |
| AnalysisPage.BulletOf | src/app/page.jsx:310-317 | `- t` and `* t` both show as the bullet `t` |
| AnalysisPage.BoldPartsJoin | src/app/page.jsx:328 | concatenating the parts of the split gives the line back |
| AnalysisPage.BoldPartsRuns | src/app/page.jsx:328-338 | every second part is a matched `**…**` run, shown in bold without its delimiters |
| AnalysisPage.BoldParts | src/app/page.jsx:328 | the split always yields an odd number of parts |
| AnalysisPage.ShowPart | src/app/page.jsx:331-337 | a part is shown in bold exactly when it starts and ends with `**` (so `**` itself is bold, with empty text), its text then being `slice(2, -2)`; a matched run shows its inside; any other part shows as it is |
| AnalysisPage.OneBoldRun | src/app/page.jsx:327-340 | the line `a**b**c` shows `a`, then `b` in bold, then `c` |
| AnalysisPage.View.RenderAnalysisContent | src/app/page.jsx:228-349 | the page for the current state: streaming text first, nothing without a result, otherwise the sections of the selected content |
| AnalysisPage.View.HandleFinish | src/app/page.jsx:19-23 | the result becomes `{analysis: message}`, the streaming text is cleared and loading stops |
| AnalysisPage.AfterFinish | src/app/page.jsx:237-289 | after a non-empty final message the page shows that message's sections, at least one of them |
| AnalysisPage.AfterEmptyFinish | src/app/page.jsx:237-241 | an empty final message is falsy, so the page segments the JSON of the stored result |
| AnalysisPage.FinishedContent | src/app/page.jsx:237-241 | a finished result selects its message when that is non-empty, else the JSON of the result |
| AnalysisPage.StreamingFirst | src/app/page.jsx:228-233 | streaming text is shown as it is, whatever the result |
| AnalysisPage.NonStringAnalysis | src/app/page.jsx:237-246 | a truthy `analysis` that is not a string makes `split` throw |
| ImageAnalysis.Normalize | src/api/image-analysis/route.js:9-20 | the URL always starts with `data:image`, and input that already does is passed through unchanged |
| ImageAnalysis.NormalizedData | src/api/image-analysis/route.js:13-19 | other input gets the JPEG prefix; with a comma the data is the second field of `split(",")`, which holds no comma, and without one it is `RemoveSpace` of the input |
| ImageAnalysis.NormalizedBetween | src/api/image-analysis/route.js:15-19 | an input with two or more commas gets the JPEG prefix followed by the text between its first and second comma |
| ImageAnalysis.SplitFirst | src/api/image-analysis/route.js:16 | the first field of `split(",")` ends at the first comma and the remaining fields are those of the rest |
| Js.RemoveSpaceAppend | src/api/image-analysis/route.js:18 | removing white space works piece by piece: the result for `a + b` is the result for `a` followed by the result for `b` |
| Js.RemoveSpaceKeeps | src/api/image-analysis/route.js:18 | text holding no white-space character is returned unchanged |
| ImageAnalysis.HeaderReplaced | src/api/image-analysis/route.js:14-19 | a non-image `data:` header is replaced by the JPEG prefix |
| ImageAnalysis.NormalizeIdempotent | src/api/image-analysis/route.js:9-20 | normalising twice changes nothing |
| ImageAnalysis.ChoosePrompt | src/api/image-analysis/route.js:48-50 | the default prompt is chosen exactly when the instructions are falsy; otherwise the instructions are used as text |
| ImageAnalysis.Prompt | src/api/image-analysis/route.js:22-50 | truthy instructions are followed by the thoroughness request; otherwise the fixed default prompt is used |
| ImageAnalysis.FlattenLine | src/api/image-analysis/route.js:109-114 | a line starting with `#` becomes `# ` and its trimmed title; any other line is unchanged |
| ImageAnalysis.FlattenByLine | src/api/image-analysis/route.js:109-114 | on lines joined by `\n`, where every heading line except the last has text, the rewrite acts line by line |
| ImageAnalysis.BareHashTakesNextLine | src/api/image-analysis/route.js:110 | because `\s*` crosses the line feed, a bare `#` line takes the next line as its title |
| ImageAnalysis.NoImage | src/api/image-analysis/route.js:2-4 | an empty or missing image gives exactly `{error: "No image data provided."}` |
| ImageAnalysis.OneRequest | src/api/image-analysis/route.js:54-120 | the response depends only on the service's reply to that one request |
| ImageAnalysis.ServiceError | src/api/image-analysis/route.js:84-90 | a reply that is not ok gives `API error: status statusText. body` |
| ImageAnalysis.MalformedReply | src/api/image-analysis/route.js:95-105 | a reply without `choices[0].message` gives the invalid-format error |
| ImageAnalysis.Success | src/api/image-analysis/route.js:107-120 | a success carries the flattened first choice, the normalised URL and the fixed message |
| ImageAnalysis.CaughtErrors | src/api/image-analysis/route.js:121-126 | thrown errors get the `Failed to analyze image: ` prefix, and `Unknown error` replaces an empty message |
| ImageAnalysis.ImageNotString | src/api/image-analysis/route.js:10 | a truthy image that is not a string makes `startsWith` throw |
| Dashboard.Confidence | src/app/_/dashboard/page.jsx:209 | the confidence is an integer from 75 to 98 for a random draw in [0, 1) |
| Dashboard.ConfidenceReachesAll | src/app/_/dashboard/page.jsx:209 | every value from 75 to 98 is drawn for some random number |
| Dashboard.Points | src/app/_/dashboard/page.jsx:205-207 | a string summary counts its `.` characters; any other truthy summary makes `split` throw |
| Dashboard.KeyInsights | src/app/_/dashboard/page.jsx:201-203 | the length of `key_points` when it is an array, and 0 otherwise |
| Dashboard.ExtractSummaryStats | src/app/_/dashboard/page.jsx:191-212 | filling in the record field by field gives `SummaryStats` |
| Dashboard.StatsMeaning | src/app/_/dashboard/page.jsx:194-211 | with a result, the figures are: the dot count of the summary (0 without one), the number of key points, a confidence from 75 to 98, and `0.8s` |
| Dashboard.StatsEdges | src/app/_/dashboard/page.jsx:192-206 | no result gives `null`; a truthy summary that is not a string throws |
| Dashboard.FilterKind | src/app/_/dashboard/page.jsx:217-219 | exactly the entries of the chosen type are kept |
| Dashboard.FilterKindCounts | src/app/_/dashboard/page.jsx:217-219 | each entry of the chosen type is kept as often as it occurs in the list, and any other entry not at all |
| Dashboard.FilterWithKey | src/app/_/dashboard/page.jsx:217-219 | filtering keeps the list order: the entries of one sort key are the same whether picked before or after filtering |
| Dashboard.SortPerm | src/app/_/dashboard/page.jsx:221-225 | the sort is a permutation |
| Dashboard.SortSorted | src/app/_/dashboard/page.jsx:221-225 | the sort orders the entries by key |
| Dashboard.SortStable | src/app/_/dashboard/page.jsx:221-225 | entries with equal keys keep their relative order |
| Dashboard.FilteredMeaning | src/app/_/dashboard/page.jsx:214-228 | measured against `recentAnalyses` itself: every entry of the chosen type (all of them for `all`) occurs as often as in the list and no other entry occurs; newest first for `newest`, otherwise oldest first; entries with equal times keep their list order |
| Dashboard.RecentList.GetFilteredAnalyses | src/app/_/dashboard/page.jsx:214-228 | the copy is filtered and then sorted in place; the result is `FilteredAnalyses`, and `recentAnalyses` is unchanged |
| Dashboard.Sort | src/app/_/dashboard/page.jsx:222-224 | sorting the array in place leaves it holding the stable sort of its old contents |

## Left out

- Numbers are `int`. This excludes `NaN`, infinities and fractions in values, but the dashboard's random draw is a `real`.
- Dashboard.Confidence: computes `random * 24` exactly, without floating-point rounding.
- Dashboard.Key: `new Date(timestamp)` is a parameter `time` from text to an integer. It is not parsed. An invalid date, which would give `NaN` and an inconsistent comparator, is not modelled. For the fixed `YYYY-MM-DDTHH:MM:SS` shape of the listed entries, lexicographic order is one valid choice of `time`'s order.
- Dashboard.RecentList: the five literal entries of `recentAnalyses` are not written out. The constructor takes any list.
- `JSON.stringify(value, null, 2)` is a parameter `stringify`.
- `new Date().toLocaleString()` in the HTML footer is a parameter `generatedOn`.
- `Math.random()` is a parameter `random` in [0, 1).
- The vision service call is a parameter `vision` from the request to the reply, and `response.json()` is part of that reply. The fixed `temperature: 0.7` is not part of the modelled request.
- Case mapping for `toLowerCase`/`toUpperCase` covers ASCII letters only.
- Strings are sequences of Unicode scalar values, not UTF-16 code units. `encodeURIComponent`'s URIError on a lone surrogate cannot arise.
- TypeError messages use V8's wording, e.g. `x.split is not a function`.
- The streaming helper `useHandleStreamResponse` (`../utilities/runtime-helpers`) is not part of this model. Only the state `handleFinish` leaves behind is.
- `src/api/data-analysis/route.js` is a single `fetch` and `JSON.parse` with a fixed fallback. It is not part of this model.
- The following are not modelled:
  - JSX markup, CSS classes, React state hooks other than those read by the modelled functions, the sidebar and tabs;
  - `console` logging, `FileReader` and the download link.
- Only objects have properties in `Js.Prop`. `"abc".length` and array properties other than indexing are not needed by the modelled code.
- ImageAnalysis.FlattenByLine: states by-line behaviour only when every heading line except the last has text on its own line. The other case is shown by `BareHashTakesNextLine`.
- Two behaviours of the code worth noting:
  - the plain-text format does not strip bullet markers;
  - a line `#### x` is a body line and not a level-1 heading.
