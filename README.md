# Search-debug front end: URL processing, parameter editor and debug analysis

This project models the logic inside three React components of a search
debugging front end. Everything around that logic is rendering.

- **`ApiUrlInput.processAndSearch`** turns a raw API URL into the URL that
  is searched. It appends a `?` when the URL has none. It parses the URL,
  under a `http://placeholder.com/` origin when the text does not start with
  `http`. It forces `findDebug=searchServiceDebug,solrDebugAll`. It merges
  `fl` so that the comma list holds `name` and `imageId`. Finally it
  serialises the URL and strips the placeholder origin again.
- **`ParameterEditor`** is a small state machine. Its state is `baseUrl`, an
  ordered list of parameter records `{id, key, value, originalKey,
  originalValue}`, and a `hasChanges` flag. The operations are:
  - `parseUrl`, with a manual `?`/`&`/`=` fallback when `new URL` throws;
  - `updateParameter`, `addParameter`, `removeParameter`, `resetChanges`
    and the base-URL input;
  - `handleSave`, which rebuilds the URL with `searchParams.set`, so the last
    write wins;
  - the four-way classifier `getParameterStatus`;
  - the preview line, a second serialiser that keeps duplicate keys.
- **`SearchDebugInfo`** has two parts:
  - `formatSearchRequest` splits the request URL of the debug payload into
    display rows;
  - `analyzeHybridSearch` runs an ordered chain of pattern extractions over
    the hybrid-search sentences. It fills a five-field record. There are two
    sentence formats and two fallbacks, each of which is tried only while
    its field is still `"Unknown"`.

The model keeps the source's form:
- `processAndSearch`, the extraction chain with its nested scanning loops,
  and `handleSave`'s loop are methods, each proved equal to a specification
  function.
- The editor is a class whose fields the methods update.
- `formatSearchRequest`, `getParameterStatus` and the preview are pure
  functions.
- The regular expressions are explicit scanners (module `Patterns`).
- `URLSearchParams` follows section 6.2 of the WHATWG URL Standard: `set`
  replaces the first pair with that name, drops the later ones, or appends.
- Query serialisation follows section 5.2 of the same standard
  (application/x-www-form-urlencoded).

Modules:
- `Wrappers`: `Option` and `Result`.
- `Strings`: `split`, `join`, `includes`, `indexOf`, `trim`.
- `Encoding`: form encoding and `encodeURIComponent`/`decodeURIComponent`.
- `Urls`: the URL record, `new URL`, `href` and `URLSearchParams`.
- `ManualQuery`: the hand-written `&`/`=` query splitting that two components
  share.
- `Patterns`: the regex scanners and the `parseFloat` range test.
- `ApiUrlInput`, `ParameterEditor` and `SearchDebugInfo`: the three
  components.

Where the code's comments or the expected behaviour differ from the code,
the model follows the code:
- `formatSearchRequest` and both manual query parsers destructure `split`
  results. So the query is the text between the first and second `?`, and a
  value is the text between the first and second `=`. Later text is dropped.
- When a decode throws inside `formatSearchRequest`, the whole result falls
  back to a single `{URL, url}` row. A partial list is never returned.
- `hybridSearchFlow` is the text between the first and second `" for "` of
  the flow line, not everything after the first one.
- In the `parseUrl` fallback, `decodeURIComponent` errors are not caught.
  The exception leaves the handler after `baseUrl` has been set, so the
  parameters and `hasChanges` stay as they were. `ParseUrl` reports this
  case as `ok == false`.
- `parseUrl` prefixes `https://`, not `http://`, to input without an `http`
  prefix.
- The new-format algorithm match overwrites `vectorAlgorithm` even when the
  old format found one.
- The `"Unknown"` sentinel is compared as text. A captured algorithm named
  `Unknown` would therefore let the fallback run anyway.
- The base-URL input sets `hasChanges` to true on every change.

## Model

| member | source | states |
|---|---|---|
| ApiUrlInput.EnsureQuestionMark | src/components/ApiUrlInput.jsx:26-31 | the result holds a `?`, begins with the input and is at most one longer; it equals the input exactly when the input already holds a `?` |
| ApiUrlInput.StripPlaceholder | src/components/ApiUrlInput.jsx:59-62 | when the href starts with `http://placeholder.com/`, the result is the href with exactly that prefix removed; otherwise the result is the href |
| ApiUrlInput.MergeFl | src/components/ApiUrlInput.jsx:45-53 | the old list is a prefix of the new one; `name` is appended exactly when it is not an element, then `imageId` exactly when it is not; both are elements afterwards; the length grows by the number appended |
| ApiUrlInput.InjectParams | src/components/ApiUrlInput.jsx:37-56 | the URL stays well formed; scheme, host, path and fragment are unchanged; the query is the serialisation of the new search params |
| ApiUrlInput.Inject | src/components/ApiUrlInput.jsx:37-56 | the step-by-step `set`/`split`/`push`/`join` sequence yields `InjectParams` of the parsed URL |
| ApiUrlInput.ProcessedUrl | src/components/ApiUrlInput.jsx:26-56 | a URL that parses yields a well-formed processed URL |
| ApiUrlInput.ProcessAndSearch | src/components/ApiUrlInput.jsx:24-66 | the method's result is `Process(urlToProcess)`: the stripped href, or `MalformedUrl` when `new URL` throws, so no partial URL reaches `onSearch` |
| ApiUrlInput.FindDebugForced | src/components/ApiUrlInput.jsx:37 | afterwards there is exactly one `findDebug` pair, valued `searchServiceDebug,solrDebugAll`, whatever values or duplicates were there before |
| ApiUrlInput.FlMerged | src/components/ApiUrlInput.jsx:40-56 | afterwards there is exactly one `fl` pair; it is `name,imageId` when `fl` was absent, and the merge of the first `fl` value when `fl` was present |
| ApiUrlInput.OthersKept | src/components/ApiUrlInput.jsx:36-56 | with `fl` and `findDebug` removed, the new params equal the old ones: the other pairs keep their values and their order |
| ApiUrlInput.MergeFlValueSplits | src/components/ApiUrlInput.jsx:45-55 | the joined merged value splits back on `,` into the merged list |
| ApiUrlInput.MergeFlIdempotent | src/components/ApiUrlInput.jsx:47-55 | merging an already merged `fl` value leaves it unchanged |
| ApiUrlInput.FlExampleAppendsBoth | src/components/ApiUrlInput.jsx:47-55 | `fl=foo` becomes `foo,name,imageId` |
| ApiUrlInput.FlExampleNoDuplicate | src/components/ApiUrlInput.jsx:47-55 | `fl=foo,name` becomes `foo,name,imageId`, with no second `name` |
| ApiUrlInput.DefaultFlComplete | src/components/ApiUrlInput.jsx:41 | the default `name,imageId` merges to itself |
| ApiUrlInput.ParsePlaceholder | src/components/ApiUrlInput.jsx:34 | any text parses under the placeholder origin, as scheme `http`, host `placeholder.com` and a path below `/` |
| ApiUrlInput.RelativeNeverFails | src/components/ApiUrlInput.jsx:34 | input without an `http` prefix never makes `new URL` throw |
| ApiUrlInput.RelativeTarget | src/components/ApiUrlInput.jsx:29-34 | without an `http` prefix the parsed text is the placeholder origin followed by the `?`-completed input |
| ApiUrlInput.AbsoluteTarget | src/components/ApiUrlInput.jsx:29-34 | with an `http` prefix the parsed text is the `?`-completed input itself |
| ApiUrlInput.RelativeOutput | src/components/ApiUrlInput.jsx:34-62 | for input without an `http` prefix, the placeholder origin followed by the output is the processed href; the output holds a `?` and does not begin with `http` |
| ApiUrlInput.AbsoluteOutput | src/components/ApiUrlInput.jsx:34-62 | for input with an `http` prefix whose href does not start with the placeholder origin, the output is the processed href; it begins with `http` and holds a `?` |
| ApiUrlInput.ProcessIdempotent | src/components/ApiUrlInput.jsx:24-66 | processing the output again gives the same output |
| ApiUrlInput.InjectIdempotent | src/components/ApiUrlInput.jsx:37-56 | injecting into an already processed URL changes nothing |
| ParameterEditor.GetParameterStatus | src/components/ParameterEditor.jsx:113-118 | `added` exactly when the original key is empty and the key is not; `removed` exactly in the reverse case; `unchanged` exactly when key and value equal the originals; `modified` otherwise |
| ParameterEditor.StatusExamples | src/components/ParameterEditor.jsx:113-118 | one record of each of the four statuses |
| ParameterEditor.BlankStatus | src/components/ParameterEditor.jsx:72-118 | a freshly added all-empty record is `unchanged`; once a key is typed it is `added` |
| ParameterEditor.Records | src/components/ParameterEditor.jsx:28-39 | one record per query pair, in order, numbered from a fresh id, each with `originalKey == key` and `originalValue == value` |
| ParameterEditor.RecordsSnoc | src/components/ParameterEditor.jsx:29-37 | pushing the record of pair `i` extends the records of the first `i` pairs to those of the first `i + 1` |
| ParameterEditor.FallbackPairs | src/components/ParameterEditor.jsx:48-59 | the fallback yields pairs exactly when every `&`-piece decodes, one pair per piece, in order |
| ParameterEditor.ParseKeepsIds | src/components/ParameterEditor.jsx:13-63 | parsing keeps every record id unique and below the next fresh id, and never moves that id back |
| ParameterEditor.ParseSucceeds | src/components/ParameterEditor.jsx:18-40 | after a successful `new URL`: `baseUrl` is protocol, `//`, host and path, with no `?`; the records carry exactly the search-param pairs in order; every record is `unchanged`; `hasChanges` is false |
| ParameterEditor.ParseFallback | src/components/ParameterEditor.jsx:41-62 | after the fallback, `baseUrl` is the text before the first `?` and `hasChanges` is untouched. With no query the records stay as they were. When a decode throws, the records stay and `ok` is false. Otherwise the records carry the decoded pairs |
| ParameterEditor.ResetDiscardsEdits | src/components/ParameterEditor.jsx:89-91 | when the prop parses, resetting yields the same base, pairs and flag whatever the edits before it |
| ParameterEditor.BaseNoQuery | src/components/ParameterEditor.jsx:24 | the composed base of a parsed URL holds no `?` |
| ParameterEditor.BaseIsHref | src/components/ParameterEditor.jsx:24 | the base is the href of the URL without query and fragment |
| ParameterEditor.ParseBaseReparses | src/components/ParameterEditor.jsx:24 | the base parses back to the same scheme, host and path, with no query, which is what `handleSave` starts from |
| ParameterEditor.Updated | src/components/ParameterEditor.jsx:66-68 | only the named field of the records with that id changes; ids, originals, the other records and the length stay |
| ParameterEditor.Remaining | src/components/ParameterEditor.jsx:85 | the filtered list is no longer than the original |
| ParameterEditor.RemainingMembers | src/components/ParameterEditor.jsx:85 | every kept record comes from the list and has a different id; every record with a different id is kept |
| ParameterEditor.RemainingAppend | src/components/ParameterEditor.jsx:85 | the filter distributes over concatenation, so the kept records stay in order |
| ParameterEditor.RemoveAt | src/components/ParameterEditor.jsx:85 | with distinct ids, removing the id of record `k` yields the list without exactly that record |
| ParameterEditor.RemainingKeepsIds | src/components/ParameterEditor.jsx:85 | removal keeps ids unique and below the next fresh id |
| ParameterEditor.AddKeepsIds | src/components/ParameterEditor.jsx:73-80 | a blank record with the next fresh id keeps ids unique |
| ParameterEditor.TrimmedKeyKept | src/components/ParameterEditor.jsx:98 | `key.trim()` is non-empty exactly when the key is not all whitespace |
| ParameterEditor.NonBlank | src/components/ParameterEditor.jsx:98 | every kept record has a non-blank key; the list is empty exactly when no record has one |
| ParameterEditor.EntriesKept | src/components/ParameterEditor.jsx:97-101 | the pairs that are set are those of the records with a non-blank key, in order, with the key trimmed and the value as it is |
| ParameterEditor.SetAllUntouched | src/components/ParameterEditor.jsx:97-101 | a name that no record sets keeps its value and its number of pairs |
| ParameterEditor.SetAllLastWins | src/components/ParameterEditor.jsx:97-101 | a record whose trimmed key no later record repeats decides that key's value, and the key then occurs once |
| ParameterEditor.SetAllDistinct | src/components/ParameterEditor.jsx:97-101 | a key that occurs at most once still occurs at most once after all the sets, so the saved query has distinct keys |
| ParameterEditor.SaveUrl | src/components/ParameterEditor.jsx:95-103 | the URL stays well formed; its params are those after all the sets; origin, path and fragment are unchanged; the query is reserialised once anything is set |
| ParameterEditor.StripScheme | src/components/ParameterEditor.jsx:107 | the result is the input with nothing, `http://` or `https://` removed from its front, and the input itself when it starts with neither |
| ParameterEditor.SaveReparse | src/components/ParameterEditor.jsx:93-110 | for a prop with the `http` prefix, the saved URL parses back into records whose pairs are exactly the pairs the save set |
| ParameterEditor.SaveReparseSchemeless | src/components/ParameterEditor.jsx:93-110 | for a prop without the `http` prefix, an `https` base whose host does not begin with `http`: the saved URL, re-parsed with `https://` in front, gives records whose pairs are exactly the pairs the save set |
| ParameterEditor.StripSchemeOf | src/components/ParameterEditor.jsx:107 | `http://` or `https://` in front of any text is removed |
| ParameterEditor.SaveStripsScheme | src/components/ParameterEditor.jsx:103-108 | for a prop without the `http` prefix, the saved URL is the href without its `http://` or `https://` |
| ParameterEditor.PreviewBare | src/components/ParameterEditor.jsx:269-275 | with no non-blank key the preview is the base alone, with no `?` |
| ParameterEditor.PreviewKeepsAll | src/components/ParameterEditor.jsx:269-275 | with a non-blank key, the preview is the base, `?` and the joined query. The query has one `&`-piece per non-blank record, duplicates included, and decodes back to exactly those records' keys and values in order |
| ParameterEditor.Editor.constructor | src/components/ParameterEditor.jsx:5-7 | the initial state is an empty base, no records and a cleared flag |
| ParameterEditor.Editor.ParseUrl | src/components/ParameterEditor.jsx:13-63 | the new state and `ok` are those of `ParseInto` on the old state; ids stay valid |
| ParameterEditor.Editor.LoadParsed | src/components/ParameterEditor.jsx:23-40 | the `forEach` push loop yields `ParsedState`: the base, one record per pair, and a cleared flag |
| ParameterEditor.Editor.LoadFallback | src/components/ParameterEditor.jsx:44-61 | the fallback branch yields `FallbackInto` of the old state |
| ParameterEditor.Editor.ResetChanges | src/components/ParameterEditor.jsx:89-91 | the prop is parsed again into the current state |
| ParameterEditor.Editor.UpdateParameter | src/components/ParameterEditor.jsx:65-70 | the records become `Updated(...)` and `hasChanges` is true; base and fresh id are unchanged |
| ParameterEditor.Editor.AddParameter | src/components/ParameterEditor.jsx:72-82 | exactly one blank record with a fresh id is appended, the earlier records are unchanged, and `hasChanges` is true |
| ParameterEditor.Editor.RemoveParameter | src/components/ParameterEditor.jsx:84-87 | the records become `Remaining(old, id)` and `hasChanges` is true |
| ParameterEditor.Editor.EditBaseUrl | src/components/ParameterEditor.jsx:165-168 | `baseUrl` becomes the typed value and `hasChanges` is true; the records are unchanged |
| ParameterEditor.Editor.HandleSave | src/components/ParameterEditor.jsx:93-111 | the loop of `set` calls yields `Compose(url, baseUrl, parameters)`: the saved URL, or `MalformedUrl` when `new URL(baseUrl)` throws |
| ParameterEditor.Editor.Preview | src/components/ParameterEditor.jsx:269-275 | the preview starts with the base URL |
| SearchDebugInfo.FormatSearchRequest | src/components/SearchDebugInfo.jsx:19-41 | the result is empty exactly when the URL is |
| SearchDebugInfo.FormatWithoutQuery | src/components/SearchDebugInfo.jsx:24-25 | a non-empty URL without `?` gives the single row `{URL, url}` |
| SearchDebugInfo.FormatEmptyQuery | src/components/SearchDebugInfo.jsx:24-25 | an empty text after the first `?` gives the single row `{URL, base}` |
| SearchDebugInfo.QueryPieces | src/components/SearchDebugInfo.jsx:24 | the destructured base and query are the texts before the first `?` and between the first and second `?` |
| SearchDebugInfo.FormatRecords | src/components/SearchDebugInfo.jsx:24-36 | when every piece decodes: first `{Base URL, base}`, then exactly one row per `&`-piece, in order, which is the decoded piece |
| SearchDebugInfo.FormatDegrades | src/components/SearchDebugInfo.jsx:28-39 | if any piece fails to decode, the result is the single row `{URL, url}` and never a partial list |
| SearchDebugInfo.FormatInverse | src/components/SearchDebugInfo.jsx:19-36 | formatting a base and encoded rows gives back `{Base URL, base}` followed by exactly those rows |
| SearchDebugInfo.FormatExample | src/components/SearchDebugInfo.jsx:19-36 | `host/path?a=1&b=two%20words` gives `Base URL`, `a = 1`, `b = two words` |
| SearchDebugInfo.FindFrom | src/components/SearchDebugInfo.jsx:60-90 | `find` gives the first line of its kind: that line qualifies and no earlier one does |
| SearchDebugInfo.NameIndexFrom | src/components/SearchDebugInfo.jsx:118-133 | the first identifier, in priority order, that occurs in the line; none of the earlier ones occurs |
| SearchDebugInfo.LineAlgorithmFound | src/components/SearchDebugInfo.jsx:126-133 | a line's identifier is a known one that occurs in it; there is none exactly when no known identifier occurs |
| SearchDebugInfo.LineThresholdFound | src/components/SearchDebugInfo.jsx:143-152 | a line's threshold is its first digit/dot token that holds a `.` and whose value lies in [0, 1]; there is none exactly when no token qualifies |
| SearchDebugInfo.FirstFound | src/components/SearchDebugInfo.jsx:125-156 | the outer scan gives the result of the first line that has one, and nothing exactly when no line has one |
| SearchDebugInfo.FirstAlgorithmStep | src/components/SearchDebugInfo.jsx:125-136 | one iteration of the outer loop: stop with this line's identifier, or go on with the next line |
| SearchDebugInfo.FirstThresholdStep | src/components/SearchDebugInfo.jsx:141-156 | one iteration of the outer loop: stop with this line's threshold, or go on with the next line |
| SearchDebugInfo.NamesAreKnown | src/components/SearchDebugInfo.jsx:118-135 | no identifier is the sentinel `Unknown`, so the scan stops once one is stored |
| SearchDebugInfo.AnalyzeHybridSearch | src/components/SearchDebugInfo.jsx:46-160 | the record built field by field equals `Analyze(hybridSearch)` |
| SearchDebugInfo.ExtractFlow | src/components/SearchDebugInfo.jsx:60-66 | the flow step as the component does it equals `FlowStep` |
| SearchDebugInfo.ExtractOldFormat | src/components/SearchDebugInfo.jsx:69-85 | the old-format step equals `OldFormatStep` |
| SearchDebugInfo.ExtractNewFormat | src/components/SearchDebugInfo.jsx:88-114 | the new-format step equals `NewFormatStep` |
| SearchDebugInfo.ScanAlgorithms | src/components/SearchDebugInfo.jsx:116-137 | the nested loops with their `break`s equal `AlgorithmFallback` |
| SearchDebugInfo.ScanThresholds | src/components/SearchDebugInfo.jsx:139-157 | the loop with its `break` equals `ThresholdFallback` |
| SearchDebugInfo.NumberNotUnknown | src/components/SearchDebugInfo.jsx:81-106 | a digit capture is never the sentinel `Unknown` |
| SearchDebugInfo.FlowStepFrame | src/components/SearchDebugInfo.jsx:60-66 | the flow step changes no field but `hybridSearchFlow` |
| SearchDebugInfo.OldFormatStepFrame | src/components/SearchDebugInfo.jsx:69-85 | the old-format step changes no field but the algorithm and minReturn |
| SearchDebugInfo.ApplyOldFormatValues | src/components/SearchDebugInfo.jsx:75-84 | each old-format capture, when present, replaces its field; other fields stay |
| SearchDebugInfo.ApplyNewFormatValues | src/components/SearchDebugInfo.jsx:94-113 | top count and threshold are set when captured; minReturn takes the threshold only while it is `Unknown`; the algorithm is overwritten whenever captured; the flow stays |
| SearchDebugInfo.NewFormatStepFrame | src/components/SearchDebugInfo.jsx:88-114 | the new-format step leaves the flow alone and changes nothing without a new-format line |
| SearchDebugInfo.FallbacksFrame | src/components/SearchDebugInfo.jsx:116-157 | each fallback changes only its own field, keeps a value that is not `Unknown`, and otherwise stores the first scan hit or leaves `Unknown` |
| SearchDebugInfo.ExtractedParts | src/components/SearchDebugInfo.jsx:47-114 | after the flow step, algorithm and minReturn are still `Unknown`; after the old format, top count and threshold are still `null` |
| SearchDebugInfo.AnalyzeFallbacks | src/components/SearchDebugInfo.jsx:116-157 | the fallbacks never overwrite a value the format steps found; they fill only a field still `Unknown`, and leave the other three fields alone |
| SearchDebugInfo.AnalyzeNothingFound | src/components/SearchDebugInfo.jsx:47-57 | with no marker line and no scan hit (the empty list included), the result is three `Unknown`s and two `null`s |
| SearchDebugInfo.AnalyzeFlow | src/components/SearchDebugInfo.jsx:60-66 | the flow is the second `" for "`-piece of the first flow line; it is `Unknown` when there is no flow line or the line has one piece |
| SearchDebugInfo.ExtractedValues | src/components/SearchDebugInfo.jsx:69-114 | the fields after the format steps, each in terms of the captures of the first old-format and first new-format line |
| SearchDebugInfo.AnalyzeOldMinReturn | src/components/SearchDebugInfo.jsx:81-84 | a captured old-format minReturn is the final minReturn |
| SearchDebugInfo.AnalyzeOldAlgorithm | src/components/SearchDebugInfo.jsx:75-113 | a captured old-format algorithm is final unless the new format captures one |
| SearchDebugInfo.AnalyzeNewAlgorithm | src/components/SearchDebugInfo.jsx:110-113 | a captured new-format algorithm always wins |
| SearchDebugInfo.AnalyzeNewFields | src/components/SearchDebugInfo.jsx:88-102 | top count and threshold are non-null only from the first new-format line, and then are its captures |
| SearchDebugInfo.AnalyzeNewMinReturn | src/components/SearchDebugInfo.jsx:100-106 | without an old-format minReturn, the new-format threshold becomes minReturn |
| ManualQuery.DecodePieces | src/components/SearchDebugInfo.jsx:28-31 | the decoded list exists exactly when every piece decodes, and then has one decoded piece per piece, in order |
| ManualQuery.PieceWithoutValue | src/components/SearchDebugInfo.jsx:29-30 | a piece without `=` decodes to the decoded key and the value `""` |
| ManualQuery.PieceValue | src/components/SearchDebugInfo.jsx:29-30 | only the text between the first and a second `=` is the value |
| ManualQuery.EncodePiece | src/components/ParameterEditor.jsx:273 | an encoded `key=value` holds no `&` and no `?` |
| ManualQuery.DecodeEncodePiece | src/components/ParameterEditor.jsx:273 | decoding an encoded row gives it back |
| ManualQuery.DecodeJoinPieces | src/components/ParameterEditor.jsx:271-274 | a non-empty joined list of encoded rows splits back into its pieces and decodes to exactly those rows |
| Urls.Get | src/components/ApiUrlInput.jsx:44 | `get` finds a value exactly when some pair has the name, and then it is the value of the first pair with that name |
| Urls.GetFirst | src/components/ApiUrlInput.jsx:44 | when the name occurs, `get` returns the value of the pair at `FirstIndex`, the same pair `set` replaces |
| Urls.FirstIndex | src/components/ApiUrlInput.jsx:37 | the index of the first pair with the name |
| Urls.SetSemantics | src/components/ApiUrlInput.jsx:37 | after `set` the name occurs once with the new value, in the place of its first pair, or appended when absent; the pairs of other names are unchanged |
| Urls.SetOther | src/components/ApiUrlInput.jsx:37-55 | `set` leaves the value, count and presence of every other name alone |
| Urls.SetUnchanged | src/components/ApiUrlInput.jsx:37-55 | setting a name that occurs once, to the value it has, changes nothing |
| Urls.FormRoundTrip | src/components/ApiUrlInput.jsx:59 | parsing the serialised search params gives them back |
| Urls.Parse | src/components/ApiUrlInput.jsx:34 | every URL `new URL` accepts is well formed |
| Urls.ParseToString | src/components/ApiUrlInput.jsx:34-59 | the href of a well-formed URL parses back to that URL |
| Urls.SetParam | src/components/ApiUrlInput.jsx:37 | `searchParams.set` keeps the URL well formed and reserialises the query; origin, path and fragment stay |
| Urls.ParsedSchemePrefix | src/components/ApiUrlInput.jsx:34 | text that starts with `http` parses to a scheme that starts with `http` |
| Strings.TrimProperties | src/components/ParameterEditor.jsx:98 | `trim` is empty exactly on all-whitespace text, and otherwise starts and ends with a non-space |
| Strings.JoinSplit | src/components/ApiUrlInput.jsx:45-55 | joining a split with its separator gives the text back |
| Strings.SplitJoin | src/components/ApiUrlInput.jsx:45-55 | splitting a join of separator-free pieces gives the pieces back |
| Strings.SplitOnSecondPiece | src/components/SearchDebugInfo.jsx:62-64 | the second `" for "`-piece is the text after the first separator up to the next one |
| Encoding.FormDecodeEncode | src/components/ApiUrlInput.jsx:59 | form decoding undoes form encoding |
| Encoding.DecodeEncodeUriComponent | src/components/ParameterEditor.jsx:273 | `decodeURIComponent` undoes `encodeURIComponent` |
| Patterns.RunSpan | src/components/SearchDebugInfo.jsx:75-110 | the greedy `\s+`, `\w+`, `\d+` or `[\d.]+` run is a run of its class and the character after it is not of that class |
| Patterns.RunLongest | src/components/SearchDebugInfo.jsx:75-110 | no run of the class at a position is longer than the greedy one |
| Patterns.MatchAtSound | src/components/SearchDebugInfo.jsx:75-110 | a match the scanner finds at a position is a match of the expression there: the lead, a non-empty `\s` run, a non-empty run of the class followed by the trail when there is one; the capture is that whole run, and the character after it is not of the class |
| Patterns.MatchAtComplete | src/components/SearchDebugInfo.jsx:75-110 | whenever the expression matches at a position, the scanner finds a match there, over the same `\s` run, capturing at least as much, and exactly the same run when a trail follows |
| Patterns.FirstMatchFrom | src/components/SearchDebugInfo.jsx:75-110 | the leftmost matching position: it matches and no earlier one does |
| Patterns.Capture | src/components/SearchDebugInfo.jsx:75-110 | `match(...)[1]` exists exactly when some position matches, and then is the capture at the leftmost matching position |
| Patterns.TokenStartsAreStarts | src/components/SearchDebugInfo.jsx:143 | every listed position begins a maximal run of digits and dots |
| Patterns.TokenStartsComplete | src/components/SearchDebugInfo.jsx:143 | every position that begins a maximal run of digits and dots is listed |
| Patterns.TokenStartsIncreasing | src/components/SearchDebugInfo.jsx:143 | the listed positions are in increasing order |
| Patterns.TokensFromRuns | src/components/SearchDebugInfo.jsx:143 | the `[\d.]+` tokens are the maximal runs of digits and dots at the listed positions, in order |
| Patterns.TokensFromChars | src/components/SearchDebugInfo.jsx:143 | every token is a non-empty string of digits and dots |
| Patterns.ReasonableTokens | src/components/SearchDebugInfo.jsx:146-149 | the filtered tokens all pass the filter and come from the list; the list is empty exactly when no token passes; its head is the first token that passes |
| Patterns.UnitIntervalExact | src/components/SearchDebugInfo.jsx:147-148 | the digit test decides the same as `0 <= value <= 1` for the exact decimal that `parseFloat` reads |

## Left out

- Rendering, icons, tabs, expand state, the status colours (`getStatusColor`) and the `alert` of `ApiUrlInput` are not modelled. They are presentation only.
- `onSearch`, `onSave`, `console.log` and `console.error` are not modelled: they are I/O. `ProcessAndSearch` and `HandleSave` return the string handed to the callback, or the error `new URL` throws.
- React hook scheduling is not modelled. State updates take effect at once, the mount effect is `ResetChanges`, and the initial `useState` values are the constructor.
- Ids are not random strings: `Math.random` is replaced by a counter `nextId`, and ids are proved distinct instead of being unlikely to collide.
- `Urls.Parse` covers only `scheme://host/path?query#fragment`, with the host up to the first `/`, `?` or `#`. It does not model userinfo, ports, IP or IDNA hosts, percent-encoding of the path, dot-segment removal or default-port elision. It throws on a missing `:`, an invalid scheme, a missing `//` or an empty or invalid host, and on nothing else. So URLs without `//`, such as `mailto:`, are rejected although the standard accepts them. Four behaviours of the standard's parser are not modelled either: the host is kept as written, not lower-cased (`HTTP://API.COM/s` keeps `API.COM`); `\` is not read as `/`; the slash rules of special schemes are not applied, so `http:x` and `http:///x` are rejected instead of repaired; and characters of the query and fragment are not percent-encoded.
- Percent escapes are one character per `%HH`, for characters below U+0080. UTF-8 multi-byte sequences are not modelled. The encoders pass characters from U+0080 up through unchanged. `decodeURIComponent` fails only on a `%` not followed by two hex digits, not on invalid UTF-8.
- `Patterns.UnitIntervalExact`: `parseFloat` is decided on the digit string, not computed in floating point, so values that round to 1.0 in binary floating point are not modelled.
- The `pattern.test` then `item.match` pair of the algorithm fallback is one `Contains` check. The two always agree on a literal pattern.
- `ParameterEditor.SaveReparseSchemeless`: the round trip of a scheme-less save is proved only for an `https` base whose host does not begin with `http`. When it does, the saved text keeps `http` at its front: `https://httpbin.org/get` saves as `httpbin.org/get?...`, which the next `parseUrl` hands to `new URL` unchanged; that throws, and the fallback's `decodeURIComponent` does not turn `+` back into a space, so a value with a space comes back with `+` in its place.
- `ParameterEditor.Field` has only the key and the value: `updateParameter` is only called with `'key'` or `'value'`.
- `SearchDebugInfo.FormatSearchRequest`: its own contract states only the empty case. The other cases are the lemmas `FormatWithoutQuery`, `FormatEmptyQuery`, `FormatRecords` and `FormatDegrades`.
- The `hybridSearch || []` and `searchRequest || ''` defaults of the component are not modelled: the functions take a list and a string.
