/** The two text extractions of the search debug panel
    (src/components/SearchDebugInfo.jsx): the request URL split into
    display rows (`formatSearchRequest`) and the ordered chain of pattern
    extractions over the hybrid-search sentences (`analyzeHybridSearch`). */
module SearchDebugInfo {
  import opened Wrappers
  import opened Strings
  import opened Encoding
  import opened Patterns
  import opened ManualQuery

  // ---- formatSearchRequest ----

  const UrlKey: string := "URL"
  const BaseUrlKey: string := "Base URL"

  /** `formatSearchRequest(url)`. The destructuring `[baseUrl, paramsString]`
      of `url.split('?')` keeps the text between the first and the second `?`
      as the query; the `catch` turns a decode error into the single row
      holding the whole URL. */
  function FormatSearchRequest(url: string): (r: seq<KeyValue>)
    ensures r == [] <==> url == []
  {
    if url == [] then []
    else
      var parts := Split(url, '?');
      var baseUrl := parts[0];
      var paramsString := if |parts| > 1 then parts[1] else "";
      if paramsString == [] then [KeyValue(UrlKey, baseUrl)]
      else
        match DecodePieces(Split(paramsString, '&'))
        case None => [KeyValue(UrlKey, url)]
        case Some(params) => [KeyValue(BaseUrlKey, baseUrl)] + params
  }

  /** The `?`-pieces of `base?query` followed by text that is empty or starts
      with another `?`. */
  lemma {:induction false} QueryPieces(base: string, query: string, t: string)
    requires '?' !in base && '?' !in query
    requires t == [] || t[0] == '?'
    ensures var parts := Split(base + "?" + query + t, '?');
      |parts| > 1 && parts[0] == base && parts[1] == query
  {
    assert base + "?" + query + t == base + ['?'] + (query + t);
    SplitAfterPiece(base, '?', query + t);
    if t == [] {
      assert query + t == query;
      SplitNoSeparator(query, '?');
    } else {
      assert query + t == query + ['?'] + t[1..];
      SplitAfterPiece(query, '?', t[1..]);
    }
  }

  /** A URL without `?` is shown as one `URL` row. */
  lemma {:induction false} FormatWithoutQuery(url: string)
    requires url != [] && '?' !in url
    ensures FormatSearchRequest(url) == [KeyValue(UrlKey, url)]
  {
    SplitNoSeparator(url, '?');
  }

  /** An empty query (nothing, or another `?`, after the first `?`) is shown as
      one `URL` row holding the text before the `?`. */
  lemma {:induction false} FormatEmptyQuery(base: string, t: string)
    requires '?' !in base
    requires t == [] || t[0] == '?'
    ensures FormatSearchRequest(base + "?" + t) == [KeyValue(UrlKey, base)]
  {
    QueryPieces(base, [], t);
    assert base + "?" + [] + t == base + "?" + t;
  }

  /** With a non-empty query whose pieces all decode: the `Base URL` row, then
      one row per `&`-piece, in order. */
  lemma {:induction false} FormatRecords(base: string, query: string, t: string)
    requires '?' !in base && '?' !in query && query != []
    requires t == [] || t[0] == '?'
    requires forall k :: 0 <= k < |Split(query, '&')| ==> DecodePiece(Split(query, '&')[k]).Some?
    ensures var r := FormatSearchRequest(base + "?" + query + t);
      var pieces := Split(query, '&');
      |r| == 1 + |pieces| && r[0] == KeyValue(BaseUrlKey, base)
      && forall k :: 0 <= k < |pieces| ==> r[k + 1] == DecodePiece(pieces[k]).value
  {
    QueryPieces(base, query, t);
    var pieces := Split(query, '&');
    var d := DecodePieces(pieces);
    assert d.Some?;
    assert FormatSearchRequest(base + "?" + query + t) == [KeyValue(BaseUrlKey, base)] + d.value;
  }

  /** One piece that fails to decode degrades the whole result to the single
      `URL` row holding the whole URL. */
  lemma {:induction false} FormatDegrades(base: string, query: string, t: string, k: nat)
    requires '?' !in base && '?' !in query && query != []
    requires t == [] || t[0] == '?'
    requires k < |Split(query, '&')| && DecodePiece(Split(query, '&')[k]).None?
    ensures FormatSearchRequest(base + "?" + query + t) == [KeyValue(UrlKey, base + "?" + query + t)]
  {
    QueryPieces(base, query, t);
  }

  /** Splitting a serialized request gives back the base and every row. */
  lemma {:induction false} FormatInverse(base: string, params: seq<KeyValue>)
    requires '?' !in base && |params| >= 1
    ensures FormatSearchRequest(base + "?" + JoinPieces(params))
      == [KeyValue(BaseUrlKey, base)] + params
  {
    var query := JoinPieces(params);
    JoinNoChar(EncodePieces(params), "&", '?');
    DecodeJoinPieces(params);
    QueryPieces(base, query, []);
    assert base + "?" + query + [] == base + "?" + query;
  }

  // ---- a worked request ----

  lemma {:induction false} DecodeTwoWords()
    ensures DecodeUriComponent("two%20words") == Some("two words")
  {
    DecodeUriComponentPlain("words");
    DecodeUriComponentEscape('2', '0', "words");
    assert Unescape('2', '0') == ' ';
    DecodeUriComponentAfterPlain("two", ['%', '2', '0'] + "words");
    assert "two" + (['%', '2', '0'] + "words") == "two%20words";
    assert "two" + ([' '] + "words") == "two words";
  }

  lemma {:induction false} DecodeFirstPair()
    ensures DecodePiece("a=1") == Some(KeyValue("a", "1"))
  {
    DecodeUriComponentPlain("a");
    DecodeUriComponentPlain("1");
    PieceValue("a", "1", []);
    assert "a" + "=" + "1" + [] == "a=1";
  }

  lemma {:induction false} DecodeSecondPair()
    ensures DecodePiece("b=two%20words") == Some(KeyValue("b", "two words"))
  {
    DecodeUriComponentPlain("b");
    DecodeTwoWords();
    CharAbsent("two%20words", '=');
    PieceValue("b", "two%20words", []);
    SecondPieceText();
  }

  lemma {:induction false} SecondPieceText()
    ensures "b" + "=" + "two%20words" + [] == "b=two%20words"
  {
  }

  lemma {:induction false} SplitExampleQuery()
    ensures Split("a=1&b=two%20words", '&') == ["a=1", "b=two%20words"]
  {
    CharAbsent("a=1", '&');
    CharAbsent("b=two%20words", '&');
    SplitTwo("a=1", "b=two%20words", '&');
    assert "a=1" + ['&'] + "b=two%20words" == "a=1&b=two%20words";
  }

  /** A query of two pieces that both decode gives three rows. */
  lemma {:induction false} FormatTwoPieces(base: string, query: string, p1: KeyValue, p2: KeyValue)
    requires '?' !in base && '?' !in query
    requires |Split(query, '&')| == 2
    requires DecodePiece(Split(query, '&')[0]) == Some(p1)
    requires DecodePiece(Split(query, '&')[1]) == Some(p2)
    ensures FormatSearchRequest(base + "?" + query) == [KeyValue(BaseUrlKey, base), p1, p2]
  {
    var pieces := Split(query, '&');
    QueryPieces(base, query, []);
    var url := base + "?" + query + [];
    assert url == base + "?" + query;
    assert Split(url, '?')[1] == query;
    SplitFirstPiece(query, '&');
    assert DecodePieces(pieces) == Some([p1, p2]) by {
      var d := DecodePieces(pieces);
      assert d.Some? && |d.value| == 2;
      assert d.value[0] == p1 && d.value[1] == p2;
      assert d.value == [p1, p2];
    }
  }

  lemma {:induction false} ExampleParts()
    ensures '?' !in "host/path" && '?' !in "a=1&b=two%20words"
    ensures "host/path" + "?" + "a=1&b=two%20words" == "host/path?a=1&b=two%20words"
  {
    CharAbsent("host/path", '?');
    CharAbsent("a=1&b=two%20words", '?');
  }

  /** `host/path?a=1&b=two%20words` gives the base row and the two decoded pairs. */
  lemma {:induction false} FormatExample()
    ensures FormatSearchRequest("host/path?a=1&b=two%20words")
      == [KeyValue(BaseUrlKey, "host/path"), KeyValue("a", "1"), KeyValue("b", "two words")]
  {
    SplitExampleQuery();
    DecodeFirstPair();
    DecodeSecondPair();
    ExampleParts();
    FormatTwoPieces("host/path", "a=1&b=two%20words", KeyValue("a", "1"), KeyValue("b", "two words"));
  }

  // ---- analyzeHybridSearch ----

  /** The sentinel every string field starts from; it is compared as text, so
      a captured word `Unknown` counts as not found. */
  const Unknown: string := "Unknown"

  /** The `analysis` record; `null` is `None`. */
  datatype Analysis = Analysis(
    hybridSearchFlow: string,
    vectorAlgorithm: string,
    minReturnValue: string,
    topResults: Option<string>,
    similarityThreshold: Option<string>)

  const Defaults: Analysis := Analysis(Unknown, Unknown, Unknown, None, None)

  const FlowMarker: string := "Hybrid search is executed for"
  const FlowSeparator: string := " for "
  const OldAlgoMarker: string := "Vector search based on the algo"
  const OldMinReturnMarker: string := "with minReturn as"
  const NewThresholdMarker: string := "results with similarity above"
  const NewPickedMarker: string := "will be picked from"

  /** `/algo\s+(\w+)/` */
  const AlgoPattern: Pattern := Pattern("algo", Word, None)
  /** `/minReturn as\s+([\d.]+)/` */
  const MinReturnPattern: Pattern := Pattern("minReturn as", DigitOrDot, None)
  /** `/Top\s+(\d+)\s+results/` */
  const TopPattern: Pattern := Pattern("Top", Digit, Some("results"))
  /** `/similarity above\s+([\d.]+)/` */
  const SimilarityPattern: Pattern := Pattern("similarity above", DigitOrDot, None)
  /** `/from\s+(\w+)\s+Vector search/` */
  const NewAlgoPattern: Pattern := Pattern("from", Word, Some("Vector search"))

  /** The fallback's identifiers, in the order they are tried on each line. */
  const AlgorithmNames: seq<string> :=
    ["RR_VECTOR_SIMILARITY", "RR_KNN_SIMILARITY", "VECTOR_SIMILARITY", "KNN_SIMILARITY"]

  /** The three `find` predicates. */
  datatype LineKind = FlowLine | OldFormatLine | NewFormatLine

  predicate IsLine(line: string, kind: LineKind) {
    match kind
    case FlowLine => Contains(line, FlowMarker)
    case OldFormatLine => Contains(line, OldAlgoMarker) && Contains(line, OldMinReturnMarker)
    case NewFormatLine => Contains(line, NewThresholdMarker) && Contains(line, NewPickedMarker)
  }

  /** `lines.find(...)`, as the index of the first line of that kind. */
  function FindFrom(lines: seq<string>, kind: LineKind, from: nat): (r: Option<nat>)
    requires from <= |lines|
    ensures r.Some? ==> from <= r.value < |lines| && IsLine(lines[r.value], kind)
    ensures forall j :: from <= j < |lines| && (r.None? || j < r.value) ==> !IsLine(lines[j], kind)
    decreases |lines| - from
  {
    if from == |lines| then None
    else if IsLine(lines[from], kind) then Some(from)
    else FindFrom(lines, kind, from + 1)
  }

  function Find(lines: seq<string>, kind: LineKind): Option<nat> {
    FindFrom(lines, kind, 0)
  }

  /** Step 1: the second `" for "`-piece of the first flow line. */
  function FlowStep(lines: seq<string>, a: Analysis): Analysis {
    match Find(lines, FlowLine)
    case None => a
    case Some(i) =>
      var flowMatch := SplitOn(lines[i], FlowSeparator);
      if |flowMatch| > 1 then a.(hybridSearchFlow := flowMatch[1]) else a
  }

  /** The old format's updates, given its two captures. */
  function ApplyOldFormat(a: Analysis, algo: Option<string>, minReturn: Option<string>): Analysis {
    var a1 := if algo.Some? then a.(vectorAlgorithm := algo.value) else a;
    if minReturn.Some? then a1.(minReturnValue := minReturn.value) else a1
  }

  /** Step 2: algorithm and minReturn from the first old-format line. */
  function OldFormatStep(lines: seq<string>, a: Analysis): Analysis {
    match Find(lines, OldFormatLine)
    case None => a
    case Some(i) => ApplyOldFormat(a, Capture(lines[i], AlgoPattern), Capture(lines[i], MinReturnPattern))
  }

  /** The new format's updates, given its three captures: the threshold also
      fills minReturn while that is `Unknown`, the algorithm is overwritten. */
  function ApplyNewFormat(a: Analysis, top: Option<string>, sim: Option<string>, algo: Option<string>): Analysis {
    var a1 := if top.Some? then a.(topResults := top) else a;
    var a2 :=
      if sim.Some? then
        a1.(similarityThreshold := sim,
            minReturnValue := if a1.minReturnValue == Unknown then sim.value else a1.minReturnValue)
      else a1;
    if algo.Some? then a2.(vectorAlgorithm := algo.value) else a2
  }

  /** Step 3: top count, threshold and algorithm from the first new-format
      line. */
  function NewFormatStep(lines: seq<string>, a: Analysis): Analysis {
    match Find(lines, NewFormatLine)
    case None => a
    case Some(i) =>
      ApplyNewFormat(a, Capture(lines[i], TopPattern), Capture(lines[i], SimilarityPattern),
                     Capture(lines[i], NewAlgoPattern))
  }

  /** The index of the first identifier, from position `from` of the priority
      list, that occurs in `line`. */
  function NameIndexFrom(line: string, from: nat): (r: Option<nat>)
    requires from <= |AlgorithmNames|
    ensures r.Some? ==> from <= r.value < |AlgorithmNames| && Contains(line, AlgorithmNames[r.value])
    ensures forall k :: from <= k < |AlgorithmNames| && (r.None? || k < r.value) ==> !Contains(line, AlgorithmNames[k])
    decreases |AlgorithmNames| - from
  {
    if from == |AlgorithmNames| then None
    else if Contains(line, AlgorithmNames[from]) then Some(from)
    else NameIndexFrom(line, from + 1)
  }

  function NameIndex(line: string): Option<nat> {
    NameIndexFrom(line, 0)
  }

  /** The identifier the inner loop finds on one line. */
  function LineAlgorithm(line: string): Option<string> {
    match NameIndex(line)
    case None => None
    case Some(j) => Some(AlgorithmNames[j])
  }

  /** The first reasonable threshold token of one line. */
  function LineThreshold(line: string): Option<string> {
    var reasonable := ReasonableTokens(Tokens(line));
    if |reasonable| > 0 then Some(reasonable[0]) else None
  }

  /** A line's identifier is a known one that occurs in it; there is none
      exactly when no known identifier occurs. */
  lemma {:induction false} LineAlgorithmFound(line: string)
    ensures var r := LineAlgorithm(line);
      && (r.Some? ==> r.value in AlgorithmNames && Contains(line, r.value))
      && (r.None? <==> forall k :: 0 <= k < |AlgorithmNames| ==> !Contains(line, AlgorithmNames[k]))
  {
  }

  /** A line's threshold is a reasonable token of it, and the first one;
      there is none exactly when no token is reasonable. */
  lemma {:induction false} LineThresholdFound(line: string)
    ensures var r := LineThreshold(line);
      && (r.Some? ==> Reasonable(r.value) && r.value in Tokens(line))
      && (r.Some? ==> exists k :: FirstReasonableAt(Tokens(line), k) && Tokens(line)[k] == r.value)
      && (r.None? <==> forall k :: 0 <= k < |Tokens(line)| ==> !Reasonable(Tokens(line)[k]))
  {
  }

  /** `i` is the first line on which the per-line search `find` of a
      fallback succeeds. */
  predicate FirstLineFound(find: string -> Option<string>, lines: seq<string>, i: int) {
    0 <= i < |lines| && find(lines[i]).Some? && forall k :: 0 <= k < i ==> find(lines[k]).None?
  }

  /** The fallbacks' outer loop: what `find` gives on the first line where
      it succeeds, or `None` when it succeeds on no line. */
  function FirstFound(find: string -> Option<string>, lines: seq<string>): (r: Option<string>)
    ensures r.Some? ==> exists i :: FirstLineFound(find, lines, i) && r == find(lines[i])
    ensures r.None? <==> forall i :: 0 <= i < |lines| ==> find(lines[i]).None?
    decreases |lines|
  {
    if lines == [] then None
    else if find(lines[0]).Some? then
      assert FirstLineFound(find, lines, 0);
      find(lines[0])
    else
      var r := FirstFound(find, lines[1..]);
      assert r.Some? ==> exists i :: FirstLineFound(find, lines, i) && r == find(lines[i]) by {
        if r.Some? {
          var i :| FirstLineFound(find, lines[1..], i) && r == find(lines[1..][i]);
          assert lines[1..][i] == lines[i + 1];
          assert FirstLineFound(find, lines, i + 1);
        }
      }
      assert r.None? ==> forall i :: 0 <= i < |lines| ==> find(lines[i]).None? by {
        if r.None? {
          forall i | 0 < i < |lines|
            ensures find(lines[i]).None?
          {
            assert lines[i] == lines[1..][i - 1];
          }
        }
      }
      r
  }

  /** The identifier the algorithm fallback finds: the highest-priority one on
      the first line that holds any. */
  function FirstAlgorithm(lines: seq<string>): Option<string> {
    FirstFound(LineAlgorithm, lines)
  }

  /** The token the threshold fallback finds: the first reasonable one of the
      first line that has one. */
  function FirstThreshold(lines: seq<string>): Option<string> {
    FirstFound(LineThreshold, lines)
  }

  /** No identifier is the sentinel, so the scan stops once one is stored. */
  lemma {:induction false} NamesAreKnown()
    ensures forall k :: 0 <= k < |AlgorithmNames| ==> AlgorithmNames[k] != Unknown
  {
    forall k | 0 <= k < |AlgorithmNames|
      ensures AlgorithmNames[k] != Unknown
    {
      assert AlgorithmNames[k][0] != Unknown[0];
    }
  }

  /** One step of the fallbacks' line scan. */
  lemma {:induction false} FirstAlgorithmStep(lines: seq<string>, i: nat)
    requires i < |lines|
    ensures FirstAlgorithm(lines[i..])
      == if LineAlgorithm(lines[i]).Some? then LineAlgorithm(lines[i]) else FirstAlgorithm(lines[i + 1..])
  {
    assert lines[i..][0] == lines[i] && lines[i..][1..] == lines[i + 1..];
  }

  lemma {:induction false} FirstThresholdStep(lines: seq<string>, i: nat)
    requires i < |lines|
    ensures FirstThreshold(lines[i..])
      == if LineThreshold(lines[i]).Some? then LineThreshold(lines[i]) else FirstThreshold(lines[i + 1..])
  {
    assert lines[i..][0] == lines[i] && lines[i..][1..] == lines[i + 1..];
  }

  /** Step 4: only while the algorithm is still `Unknown`. */
  function AlgorithmFallback(lines: seq<string>, a: Analysis): Analysis {
    if a.vectorAlgorithm != Unknown then a
    else
      match FirstAlgorithm(lines)
      case None => a
      case Some(name) => a.(vectorAlgorithm := name)
  }

  /** Step 5: only while minReturn is still `Unknown`. */
  function ThresholdFallback(lines: seq<string>, a: Analysis): Analysis {
    if a.minReturnValue != Unknown then a
    else
      match FirstThreshold(lines)
      case None => a
      case Some(t) => a.(minReturnValue := t)
  }

  /** The record after the three format-specific steps. */
  function Extracted(lines: seq<string>): Analysis {
    NewFormatStep(lines, OldFormatStep(lines, FlowStep(lines, Defaults)))
  }

  /** `analyzeHybridSearch(hybridSearch)` */
  function Analyze(lines: seq<string>): Analysis {
    if |lines| == 0 then Defaults
    else ThresholdFallback(lines, AlgorithmFallback(lines, Extracted(lines)))
  }

  /** The component's analysis: the record is updated field by field, and the
      two fallbacks scan with nested loops that stop at the first hit. */
  method AnalyzeHybridSearch(hybridSearch: seq<string>) returns (analysis: Analysis)
    ensures analysis == Analyze(hybridSearch)
  {
    analysis := Defaults;
    if |hybridSearch| == 0 {
      return;
    }
    analysis := ExtractFlow(hybridSearch, analysis);
    analysis := ExtractOldFormat(hybridSearch, analysis);
    analysis := ExtractNewFormat(hybridSearch, analysis);
    if analysis.vectorAlgorithm == Unknown {
      analysis := ScanAlgorithms(hybridSearch, analysis);
    }
    if analysis.minReturnValue == Unknown {
      analysis := ScanThresholds(hybridSearch, analysis);
    }
  }

  method ExtractFlow(hybridSearch: seq<string>, a: Analysis) returns (analysis: Analysis)
    ensures analysis == FlowStep(hybridSearch, a)
  {
    analysis := a;
    var flowItem := Find(hybridSearch, FlowLine);
    if flowItem.Some? {
      var flowMatch := SplitOn(hybridSearch[flowItem.value], FlowSeparator);
      if |flowMatch| > 1 {
        analysis := analysis.(hybridSearchFlow := flowMatch[1]);
      }
    }
  }

  method ExtractOldFormat(hybridSearch: seq<string>, a: Analysis) returns (analysis: Analysis)
    ensures analysis == OldFormatStep(hybridSearch, a)
  {
    analysis := a;
    var oldFormatItem := Find(hybridSearch, OldFormatLine);
    if oldFormatItem.Some? {
      var item := hybridSearch[oldFormatItem.value];
      var algoMatch := Capture(item, AlgoPattern);
      if algoMatch.Some? {
        analysis := analysis.(vectorAlgorithm := algoMatch.value);
      }
      var minReturnMatch := Capture(item, MinReturnPattern);
      if minReturnMatch.Some? {
        analysis := analysis.(minReturnValue := minReturnMatch.value);
      }
    }
  }

  method ExtractNewFormat(hybridSearch: seq<string>, a: Analysis) returns (analysis: Analysis)
    ensures analysis == NewFormatStep(hybridSearch, a)
  {
    analysis := a;
    var newFormatItem := Find(hybridSearch, NewFormatLine);
    if newFormatItem.Some? {
      var item := hybridSearch[newFormatItem.value];
      var topResultsMatch := Capture(item, TopPattern);
      if topResultsMatch.Some? {
        analysis := analysis.(topResults := topResultsMatch);
      }
      var similarityMatch := Capture(item, SimilarityPattern);
      if similarityMatch.Some? {
        analysis := analysis.(similarityThreshold := similarityMatch);
        if analysis.minReturnValue == Unknown {
          analysis := analysis.(minReturnValue := similarityMatch.value);
        }
      }
      var newAlgoMatch := Capture(item, NewAlgoPattern);
      if newAlgoMatch.Some? {
        analysis := analysis.(vectorAlgorithm := newAlgoMatch.value);
      }
    }
  }

  /** The algorithm fallback's loops: lines in order, identifiers in priority
      order on each line, stopping at the first identifier found. */
  method ScanAlgorithms(hybridSearch: seq<string>, a: Analysis) returns (analysis: Analysis)
    requires a.vectorAlgorithm == Unknown
    ensures analysis == AlgorithmFallback(hybridSearch, a)
  {
    analysis := a;
    NamesAreKnown();
    var i := 0;
    while i < |hybridSearch|
      invariant 0 <= i <= |hybridSearch|
      invariant analysis == a
      invariant FirstAlgorithm(hybridSearch) == FirstAlgorithm(hybridSearch[i..])
    {
      var item := hybridSearch[i];
      FirstAlgorithmStep(hybridSearch, i);
      var j := 0;
      while j < |AlgorithmNames|
        invariant 0 <= j <= |AlgorithmNames|
        invariant analysis == a
        invariant NameIndex(item) == NameIndexFrom(item, j)
      {
        var pattern := AlgorithmNames[j];
        if Contains(item, pattern) {
          analysis := analysis.(vectorAlgorithm := pattern);
          break;
        }
        j := j + 1;
      }
      assert analysis == a ==> LineAlgorithm(item).None?;
      if analysis.vectorAlgorithm != Unknown {
        break;
      }
      i := i + 1;
    }
  }

  /** The threshold fallback's loop: the first line with a reasonable token
      gives its first such token. */
  method ScanThresholds(hybridSearch: seq<string>, a: Analysis) returns (analysis: Analysis)
    requires a.minReturnValue == Unknown
    ensures analysis == ThresholdFallback(hybridSearch, a)
  {
    analysis := a;
    var i := 0;
    while i < |hybridSearch|
      invariant 0 <= i <= |hybridSearch|
      invariant analysis == a
      invariant FirstThreshold(hybridSearch) == FirstThreshold(hybridSearch[i..])
    {
      var item := hybridSearch[i];
      FirstThresholdStep(hybridSearch, i);
      var thresholdMatches := Tokens(item);
      if |thresholdMatches| > 0 {
        var reasonableThresholds := ReasonableTokens(thresholdMatches);
        if |reasonableThresholds| > 0 {
          analysis := analysis.(minReturnValue := reasonableThresholds[0]);
          break;
        }
      }
      i := i + 1;
    }
  }

  // ---- what the analysis promises ----

  /** A captured number is never the sentinel. */
  lemma {:induction false} NumberNotUnknown(s: string, p: Pattern)
    requires p.capture == Digit || p.capture == DigitOrDot
    requires Capture(s, p).Some?
    ensures Capture(s, p).value != Unknown
  {
    var i :| 0 <= i <= |s| && MatchAt(s, i, p) == Capture(s, p);
    assert InClass(Capture(s, p).value[0], p.capture);
    assert !InClass(Unknown[0], p.capture);
  }

  // Each step changes only its own fields.

  lemma {:induction false} FlowStepFrame(lines: seq<string>, a: Analysis)
    ensures FlowStep(lines, a) == a.(hybridSearchFlow := FlowStep(lines, a).hybridSearchFlow)
  {
  }

  lemma {:induction false} OldFormatStepFrame(lines: seq<string>, a: Analysis)
    ensures var r := OldFormatStep(lines, a);
      r == a.(vectorAlgorithm := r.vectorAlgorithm, minReturnValue := r.minReturnValue)
  {
  }

  lemma {:induction false} ApplyOldFormatValues(a: Analysis, algo: Option<string>, minReturn: Option<string>)
    ensures var r := ApplyOldFormat(a, algo, minReturn);
      r == a.(vectorAlgorithm := r.vectorAlgorithm, minReturnValue := r.minReturnValue)
      && r.vectorAlgorithm == (if algo.Some? then algo.value else a.vectorAlgorithm)
      && r.minReturnValue == (if minReturn.Some? then minReturn.value else a.minReturnValue)
  {
  }

  lemma {:induction false} ApplyNewFormatValues(a: Analysis, top: Option<string>, sim: Option<string>, algo: Option<string>)
    ensures var r := ApplyNewFormat(a, top, sim, algo);
      r.hybridSearchFlow == a.hybridSearchFlow
      && r.topResults == (if top.Some? then top else a.topResults)
      && r.similarityThreshold == (if sim.Some? then sim else a.similarityThreshold)
      && r.minReturnValue == (if sim.Some? && a.minReturnValue == Unknown then sim.value else a.minReturnValue)
      && r.vectorAlgorithm == (if algo.Some? then algo.value else a.vectorAlgorithm)
  {
  }

  lemma {:induction false} NewFormatStepFrame(lines: seq<string>, a: Analysis)
    ensures NewFormatStep(lines, a).hybridSearchFlow == a.hybridSearchFlow
    ensures Find(lines, NewFormatLine).None? ==> NewFormatStep(lines, a) == a
  {
    var f := Find(lines, NewFormatLine);
    if f.Some? {
      var line := lines[f.value];
      ApplyNewFormatValues(a, Capture(line, TopPattern), Capture(line, SimilarityPattern), Capture(line, NewAlgoPattern));
    }
  }

  lemma {:induction false} FallbacksFrame(lines: seq<string>, a: Analysis)
    ensures var b := AlgorithmFallback(lines, a);
      b == a.(vectorAlgorithm := b.vectorAlgorithm)
      && b.vectorAlgorithm == if a.vectorAlgorithm != Unknown then a.vectorAlgorithm else FirstAlgorithm(lines).GetOr(Unknown)
    ensures var c := ThresholdFallback(lines, a);
      c == a.(minReturnValue := c.minReturnValue)
      && c.minReturnValue == if a.minReturnValue != Unknown then a.minReturnValue else FirstThreshold(lines).GetOr(Unknown)
  {
  }

  /** The state the fallbacks start from. */
  lemma {:induction false} ExtractedParts(lines: seq<string>)
    ensures var f := FlowStep(lines, Defaults);
      var o := OldFormatStep(lines, f);
      Extracted(lines) == NewFormatStep(lines, o)
      && f.vectorAlgorithm == Unknown && f.minReturnValue == Unknown
      && o.topResults.None? && o.similarityThreshold.None? && o.hybridSearchFlow == f.hybridSearchFlow
  {
    var f := FlowStep(lines, Defaults);
    FlowStepFrame(lines, Defaults);
    OldFormatStepFrame(lines, f);
  }

  /** The fallbacks never overwrite a found value, store what their scans
      find when they run, and change no other field. */
  lemma {:induction false} AnalyzeFallbacks(lines: seq<string>)
    requires |lines| > 0
    ensures var e := Extracted(lines);
      var r := Analyze(lines);
      r.hybridSearchFlow == e.hybridSearchFlow && r.topResults == e.topResults
      && r.similarityThreshold == e.similarityThreshold
      && r.vectorAlgorithm == (if e.vectorAlgorithm != Unknown then e.vectorAlgorithm else FirstAlgorithm(lines).GetOr(Unknown))
      && r.minReturnValue == (if e.minReturnValue != Unknown then e.minReturnValue else FirstThreshold(lines).GetOr(Unknown))
  {
    var e := Extracted(lines);
    FallbacksFrame(lines, e);
    FallbacksFrame(lines, AlgorithmFallback(lines, e));
  }

  /** Without any marker, identifier or reasonable token (in particular with
      no sentences at all) every field keeps its default. */
  lemma {:induction false} AnalyzeNothingFound(lines: seq<string>)
    requires forall i, kind :: 0 <= i < |lines| ==> !IsLine(lines[i], kind)
    requires forall i :: 0 <= i < |lines| ==> LineAlgorithm(lines[i]).None? && LineThreshold(lines[i]).None?
    ensures Analyze(lines) == Defaults
  {
    if |lines| > 0 {
      assert Find(lines, FlowLine).None? && Find(lines, OldFormatLine).None? && Find(lines, NewFormatLine).None?;
      ExtractedParts(lines);
      NewFormatStepFrame(lines, OldFormatStep(lines, FlowStep(lines, Defaults)));
      assert Extracted(lines) == Defaults;
      assert FirstAlgorithm(lines).None? && FirstThreshold(lines).None?;
      AnalyzeFallbacks(lines);
    }
  }

  /** The flow is the second `" for "`-piece of the first line holding the
      flow marker (the text between the first and the second `" for "`),
      and stays `Unknown` without such a line or such a piece. */
  lemma {:induction false} AnalyzeFlow(lines: seq<string>)
    ensures Find(lines, FlowLine).None? ==> Analyze(lines).hybridSearchFlow == Unknown
    ensures Find(lines, FlowLine).Some? ==>
      var line := lines[Find(lines, FlowLine).value];
      Analyze(lines).hybridSearchFlow
        == if Contains(line, FlowSeparator) then SplitOn(line, FlowSeparator)[1] else Unknown
  {
    if |lines| > 0 {
      AnalyzeFallbacks(lines);
      ExtractedParts(lines);
      var fl := FlowStep(lines, Defaults);
      NewFormatStepFrame(lines, OldFormatStep(lines, fl));
      var f := Find(lines, FlowLine);
      if f.Some? {
        SplitOnCount(lines[f.value], FlowSeparator);
      }
    }
  }

  /** Shorthands for the captures of the first old- and new-format lines. */
  function OldCapture(lines: seq<string>, p: Pattern): Option<string> {
    match Find(lines, OldFormatLine)
    case None => None
    case Some(i) => Capture(lines[i], p)
  }

  function NewCapture(lines: seq<string>, p: Pattern): Option<string> {
    match Find(lines, NewFormatLine)
    case None => None
    case Some(i) => Capture(lines[i], p)
  }

  /** The record after the format steps, field by field. */
  lemma {:induction false} ExtractedValues(lines: seq<string>)
    ensures var e := Extracted(lines);
      var o := OldFormatStep(lines, FlowStep(lines, Defaults));
      o.vectorAlgorithm == OldCapture(lines, AlgoPattern).GetOr(Unknown)
      && o.minReturnValue == OldCapture(lines, MinReturnPattern).GetOr(Unknown)
      && e.topResults == NewCapture(lines, TopPattern)
      && e.similarityThreshold == NewCapture(lines, SimilarityPattern)
      && e.minReturnValue
        == (if NewCapture(lines, SimilarityPattern).Some? && o.minReturnValue == Unknown
            then NewCapture(lines, SimilarityPattern).value else o.minReturnValue)
      && e.vectorAlgorithm
        == (if NewCapture(lines, NewAlgoPattern).Some? then NewCapture(lines, NewAlgoPattern).value
            else o.vectorAlgorithm)
  {
    ExtractedParts(lines);
    var fl := FlowStep(lines, Defaults);
    var o := OldFormatStep(lines, fl);
    var fo := Find(lines, OldFormatLine);
    if fo.Some? {
      ApplyOldFormatValues(fl, Capture(lines[fo.value], AlgoPattern), Capture(lines[fo.value], MinReturnPattern));
    }
    var fn := Find(lines, NewFormatLine);
    if fn.Some? {
      var line := lines[fn.value];
      ApplyNewFormatValues(o, Capture(line, TopPattern), Capture(line, SimilarityPattern), Capture(line, NewAlgoPattern));
    } else {
      NewFormatStepFrame(lines, o);
    }
  }

  /** The old format's minReturn, once captured, survives every later step. */
  lemma {:induction false} AnalyzeOldMinReturn(lines: seq<string>)
    requires OldCapture(lines, MinReturnPattern).Some?
    ensures Analyze(lines).minReturnValue == OldCapture(lines, MinReturnPattern).value
  {
    var i := Find(lines, OldFormatLine).value;
    NumberNotUnknown(lines[i], MinReturnPattern);
    ExtractedValues(lines);
    AnalyzeFallbacks(lines);
  }

  /** The old format's algorithm survives unless the new format's algorithm
      match replaces it (or it is the word `Unknown` itself). */
  lemma {:induction false} AnalyzeOldAlgorithm(lines: seq<string>)
    requires OldCapture(lines, AlgoPattern).Some? && OldCapture(lines, AlgoPattern).value != Unknown
    requires NewCapture(lines, NewAlgoPattern).None?
    ensures Analyze(lines).vectorAlgorithm == OldCapture(lines, AlgoPattern).value
  {
    ExtractedValues(lines);
    AnalyzeFallbacks(lines);
  }

  /** The new format's algorithm match overwrites whatever the old format
      found. */
  lemma {:induction false} AnalyzeNewAlgorithm(lines: seq<string>)
    requires NewCapture(lines, NewAlgoPattern).Some? && NewCapture(lines, NewAlgoPattern).value != Unknown
    ensures Analyze(lines).vectorAlgorithm == NewCapture(lines, NewAlgoPattern).value
  {
    ExtractedValues(lines);
    AnalyzeFallbacks(lines);
  }

  /** `topResults` and `similarityThreshold` are set only from the first
      new-format line, and exactly when their pattern matches there. */
  lemma {:induction false} AnalyzeNewFields(lines: seq<string>)
    ensures Analyze(lines).topResults == NewCapture(lines, TopPattern)
    ensures Analyze(lines).similarityThreshold == NewCapture(lines, SimilarityPattern)
  {
    if |lines| > 0 {
      ExtractedValues(lines);
      AnalyzeFallbacks(lines);
    }
  }

  /** The threshold doubles as minReturn only when the old format left that
      `Unknown`. */
  lemma {:induction false} AnalyzeNewMinReturn(lines: seq<string>)
    requires NewCapture(lines, SimilarityPattern).Some?
    requires OldCapture(lines, MinReturnPattern).None?
    ensures Analyze(lines).minReturnValue == NewCapture(lines, SimilarityPattern).value
  {
    var i := Find(lines, NewFormatLine).value;
    NumberNotUnknown(lines[i], SimilarityPattern);
    ExtractedValues(lines);
    AnalyzeFallbacks(lines);
  }
}
