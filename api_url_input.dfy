/** `processAndSearch` of the URL input form: a raw URL gets a `?` if it has
    none, is parsed (under a placeholder origin when it has no `http` prefix),
    has `findDebug` forced to `searchServiceDebug,solrDebugAll` and `fl`
    merged so that it lists `name` and `imageId`, and is turned back into a
    string with the placeholder origin stripped. */
module ApiUrlInput {
  import opened Wrappers
  import opened Strings
  import opened Urls

  const Placeholder: string := "http://placeholder.com/"
  const FindDebug: string := "findDebug"
  const FindDebugValue: string := "searchServiceDebug,solrDebugAll"
  const Fl: string := "fl"
  const DefaultFl: string := "name,imageId"

  /** The input with a `?` appended when it has none. */
  function EnsureQuestionMark(s: string): (r: string)
    ensures '?' in r
    ensures StartsWith(r, s) && |r| <= |s| + 1
    ensures r == s <==> '?' in s
  {
    if '?' in s then s else s + "?"
  }

  /** The string handed to `new URL`. */
  function ParseTarget(s: string): string {
    if StartsWith(s, "http") then s else Placeholder + s
  }

  /** The output with the placeholder origin removed whenever it starts with it. */
  function StripPlaceholder(s: string): (r: string)
    ensures StartsWith(s, Placeholder) ==> s == Placeholder + r
    ensures !StartsWith(s, Placeholder) ==> r == s
  {
    if StartsWith(s, Placeholder) then s[|Placeholder|..] else s
  }

  /** The comma-split `fl` list with `name`, then `imageId`, appended when
      not already an element. */
  function MergeFl(parts: seq<string>): (r: seq<string>)
    ensures |r| == |parts| + (if "name" in parts then 0 else 1) + (if "imageId" in parts then 0 else 1)
    ensures r[..|parts|] == parts
    ensures "name" in r && "imageId" in r
    ensures "name" !in parts ==> r[|parts|] == "name"
    ensures "imageId" !in parts ==> r[|r| - 1] == "imageId"
  {
    var withName := if "name" in parts then parts else parts + ["name"];
    if "imageId" in withName then withName else withName + ["imageId"]
  }

  /** The new `fl` value made from the present one. */
  function MergeFlValue(fl: string): string {
    Join(MergeFl(Split(fl, ',')), ",")
  }

  /** The URL object after lines 37-56. */
  function InjectParams(u: Url): (r: Url)
    requires WellFormed(u)
    ensures WellFormed(r)
    ensures r.scheme == u.scheme && r.host == u.host && r.path == u.path && r.fragment == u.fragment
    ensures r.query == Some(FormSerialize(r.params))
  {
    var u1 := SetParam(u, FindDebug, FindDebugValue);
    if !Has(u1.params, Fl) then SetParam(u1, Fl, DefaultFl)
    else SetParam(u1, Fl, MergeFlValue(Get(u1.params, Fl).value))
  }

  /** The processed URL object, or `None` where `new URL` throws. */
  function ProcessedUrl(raw: string): (r: Option<Url>)
    ensures r.Some? ==> WellFormed(r.value)
  {
    match Parse(ParseTarget(EnsureQuestionMark(raw)))
    case None => None
    case Some(u) => Some(InjectParams(u))
  }

  /** What `processAndSearch` hands to `onSearch`. */
  function Process(raw: string): Result<string, UrlError> {
    match ProcessedUrl(raw)
    case None => Failure(MalformedUrl)
    case Some(u) => Success(StripPlaceholder(ToString(u)))
  }

  /** `processAndSearch(urlToProcess)`, step by step as the component does it. */
  method ProcessAndSearch(urlToProcess: string) returns (r: Result<string, UrlError>)
    ensures r == Process(urlToProcess)
  {
    var urlToUse := urlToProcess;
    if '?' !in urlToUse {
      urlToUse := urlToUse + "?";
    }
    assert urlToUse == EnsureQuestionMark(urlToProcess);
    var parsed := Parse(if StartsWith(urlToUse, "http") then urlToUse else Placeholder + urlToUse);
    if parsed.None? {
      return Failure(MalformedUrl);
    }
    var url := Inject(parsed.value);
    assert ProcessedUrl(urlToProcess) == Some(url);
    var finalUrl := ToString(url);
    if StartsWith(finalUrl, Placeholder) {
      finalUrl := finalUrl[|Placeholder|..];
    }
    assert finalUrl == StripPlaceholder(ToString(url));
    r := Success(finalUrl);
  }

  /** Lines 37-56: force `findDebug`, then add or merge `fl`. */
  method Inject(origin: Url) returns (url: Url)
    requires WellFormed(origin)
    ensures url == InjectParams(origin)
  {
    url := SetParam(origin, FindDebug, FindDebugValue);
    if !Has(url.params, Fl) {
      url := SetParam(url, Fl, DefaultFl);
    } else {
      var currentFl := Get(url.params, Fl).value;
      var flParams := Split(currentFl, ',');
      if "name" !in flParams {
        flParams := flParams + ["name"];
      }
      if "imageId" !in flParams {
        flParams := flParams + ["imageId"];
      }
      assert flParams == MergeFl(Split(currentFl, ','));
      url := SetParam(url, Fl, Join(flParams, ","));
    }
  }

  // ---- properties of the injected parameters ----

  /** `findDebug` ends up exactly once, with the fixed value, whatever was there. */
  lemma {:induction false} FindDebugForced(u: Url)
    requires WellFormed(u)
    ensures Count(InjectParams(u).params, FindDebug) == 1
    ensures Get(InjectParams(u).params, FindDebug) == Some(FindDebugValue)
  {
    var l1 := Set(u.params, FindDebug, FindDebugValue);
    SetSemantics(u.params, FindDebug, FindDebugValue);
    var v := if !Has(l1, Fl) then DefaultFl else MergeFlValue(Get(l1, Fl).value);
    SetOther(l1, Fl, v, FindDebug);
  }

  /** `fl` ends up exactly once: `name,imageId` when it was absent, and the
      merge of its first value when it was present. */
  lemma {:induction false} FlMerged(u: Url)
    requires WellFormed(u)
    ensures Count(InjectParams(u).params, Fl) == 1
    ensures !Has(u.params, Fl) ==> Get(InjectParams(u).params, Fl) == Some(DefaultFl)
    ensures Has(u.params, Fl) ==>
      Get(InjectParams(u).params, Fl) == Some(MergeFlValue(Get(u.params, Fl).value))
  {
    var l1 := Set(u.params, FindDebug, FindDebugValue);
    SetOther(u.params, FindDebug, FindDebugValue, Fl);
    var v := if !Has(l1, Fl) then DefaultFl else MergeFlValue(Get(l1, Fl).value);
    SetSemantics(l1, Fl, v);
  }

  /** Every other parameter keeps its value and its place relative to the others. */
  lemma {:induction false} OthersKept(u: Url)
    requires WellFormed(u)
    ensures Without(Without(InjectParams(u).params, Fl), FindDebug)
         == Without(Without(u.params, Fl), FindDebug)
  {
    var l1 := Set(u.params, FindDebug, FindDebugValue);
    var v := if !Has(l1, Fl) then DefaultFl else MergeFlValue(Get(l1, Fl).value);
    SetSemantics(l1, Fl, v);
    SetSemantics(u.params, FindDebug, FindDebugValue);
    WithoutOther(l1, Fl, FindDebug);
    WithoutOther(u.params, Fl, FindDebug);
  }

  /** The merged `fl` string splits back into the merged list. */
  lemma {:induction false} MergeFlValueSplits(fl: string)
    ensures Split(MergeFlValue(fl), ',') == MergeFl(Split(fl, ','))
  {
    var parts := Split(fl, ',');
    var merged := MergeFl(parts);
    forall k | 0 <= k < |merged| ensures ',' !in merged[k] {
      if k < |parts| {
        assert merged[k] == merged[..|parts|][k];
      }
    }
    SplitJoin(merged, ',');
  }

  /** Merging is idempotent: a merged `fl` value merges to itself. */
  lemma {:induction false} MergeFlIdempotent(fl: string)
    ensures MergeFlValue(MergeFlValue(fl)) == MergeFlValue(fl)
  {
    MergeFlValueSplits(fl);
    var m := MergeFl(Split(fl, ','));
    assert MergeFl(m) == m;
  }

  // The splits of the `fl` values in the worked examples below; helpers for
  // those examples, not properties of the component.

  lemma {:induction false} SplitFoo()
    ensures Split("foo", ',') == ["foo"]
  {
    CharAbsent("foo", ',');
    SplitNoSeparator("foo", ',');
  }

  lemma {:induction false} SplitFooName()
    ensures Split("foo,name", ',') == ["foo", "name"]
  {
    CharAbsent("foo", ',');
    CharAbsent("name", ',');
    SplitTwo("foo", "name", ',');
    assert "foo,name" == "foo" + [','] + "name";
  }

  lemma {:induction false} SplitDefaultFl()
    ensures Split(DefaultFl, ',') == ["name", "imageId"]
  {
    CharAbsent("name", ',');
    CharAbsent("imageId", ',');
    SplitTwo("name", "imageId", ',');
    assert DefaultFl == "name" + [','] + "imageId";
  }

  lemma {:induction false} JoinDefaultFl()
    ensures Join(["name", "imageId"], ",") == DefaultFl
  {
  }

  lemma {:induction false} JoinFooNameImageId()
    ensures Join(["foo", "name", "imageId"], ",") == "foo,name,imageId"
  {
  }

  /** `fl=foo` becomes `foo,name,imageId`. */
  lemma {:induction false} FlExampleAppendsBoth()
    ensures MergeFlValue("foo") == "foo,name,imageId"
  {
    SplitFoo();
    assert MergeFl(["foo"]) == ["foo", "name", "imageId"];
    JoinFooNameImageId();
  }

  /** `fl=foo,name` becomes `foo,name,imageId`, with no second `name`. */
  lemma {:induction false} FlExampleNoDuplicate()
    ensures MergeFlValue("foo,name") == "foo,name,imageId"
  {
    SplitFooName();
    assert MergeFl(["foo", "name"]) == ["foo", "name", "imageId"];
    JoinFooNameImageId();
  }

  /** The default list is already complete. */
  lemma {:induction false} DefaultFlComplete()
    ensures MergeFlValue(DefaultFl) == DefaultFl
  {
    SplitDefaultFl();
    assert MergeFl(["name", "imageId"]) == ["name", "imageId"];
    JoinDefaultFl();
  }

  // ---- the placeholder origin ----

  /** The placeholder origin, piece by piece. */
  lemma {:induction false} PlaceholderParts(t: string)
    ensures Placeholder + t == "http" + "://" + "placeholder.com" + ("/" + t)
  {
    assert Placeholder == "http" + "://" + "placeholder.com" + "/";
  }

  lemma {:induction false} PlaceholderSchemeValid()
    ensures ValidScheme("http") && AsciiLower("http") == "http"
  {
  }

  lemma {:induction false} PlaceholderHostValid()
    ensures ValidHost("placeholder.com")
  {
    var h := "placeholder.com";
    assert forall k :: 0 <= k < |h| ==> !IsForbiddenHostChar(h[k]);
  }

  lemma {:induction false} ParseBelowPlaceholder(t: string)
    ensures Parse("http" + "://" + "placeholder.com" + ("/" + t)).Some?
    ensures var u := Parse("http" + "://" + "placeholder.com" + ("/" + t)).value;
      u.scheme == "http" && u.host == "placeholder.com" && u.path == "/" + t[..FirstOf(t, "?#")]
  {
    PlaceholderSchemeValid();
    PlaceholderHostValid();
    ParseBelowOrigin("http", "placeholder.com", t);
  }

  /** Any text parses under the placeholder origin, as a path below it. */
  lemma {:induction false} ParsePlaceholder(t: string)
    ensures Parse(Placeholder + t).Some?
    ensures var u := Parse(Placeholder + t).value;
      u.scheme == "http" && u.host == "placeholder.com" && u.path == "/" + t[..FirstOf(t, "?#")]
  {
    PlaceholderParts(t);
    ParseBelowPlaceholder(t);
  }

  /** Input without the `http` prefix never makes `new URL` throw. */
  lemma {:induction false} RelativeNeverFails(raw: string)
    requires !StartsWith(raw, "http")
    ensures Process(raw).Success?
  {
    var t := EnsureQuestionMark(raw);
    assert !StartsWith(t, "http");
    ParsePlaceholder(t);
  }

  /** The href of a URL on the placeholder origin. */
  lemma {:induction false} PlaceholderHref(u: Url, p: string)
    requires u.scheme == "http" && u.host == "placeholder.com" && u.path == "/" + p
    ensures ToString(u) == Placeholder + (p + (QueryText(u.query) + FragmentText(u.fragment)))
  {
    PlaceholderParts(p + (QueryText(u.query) + FragmentText(u.fragment)));
  }

  /** Cutting a string short before a `?` never creates an `http` prefix. */
  lemma {:induction false} CutNotHttp(t: string, k: nat, rest: string)
    requires k <= |t| && !StartsWith(t, "http")
    requires |rest| > 0 && rest[0] == '?'
    ensures !StartsWith(t[..k] + rest, "http")
    ensures '?' in t[..k] + rest
  {
    var out := t[..k] + rest;
    assert out[k] == '?';
    if k >= 4 {
      assert out[..4] == t[..4];
    }
  }

  /** A URL parsed from a string beginning with `http` has a scheme
      beginning with `http`. */
  lemma {:induction false} ParsedSchemeOfHttp(t: string)
    requires StartsWith(t, "http") && Parse(t).Some?
    ensures StartsWith(Parse(t).value.scheme, "http")
  {
    HttpLower();
    ParsedSchemePrefix(t, "http");
  }

  lemma {:induction false} HttpLower()
    ensures ':' !in "http"
    ensures forall k :: 0 <= k < |"http"| ==> !('A' <= "http"[k] <= 'Z')
  {
    CharAbsent("http", ':');
  }

  /** The processed href of text below the placeholder origin. */
  lemma {:induction false} HrefBelowPlaceholder(t: string)
    ensures Parse(Placeholder + t).Some?
    ensures var u2 := InjectParams(Parse(Placeholder + t).value);
      && u2.query.Some?
      && ToString(u2) == Placeholder + (t[..FirstOf(t, "?#")] + (QueryText(u2.query) + FragmentText(u2.fragment)))
  {
    ParsePlaceholder(t);
    var u2 := InjectParams(Parse(Placeholder + t).value);
    var k := FirstOf(t, "?#");
    PlaceholderHref(u2, t[..k]);
  }

  /** An href below the placeholder origin, stripped. */
  lemma {:induction false} StrippedHref(h: string, p: string, rest: string)
    requires h == Placeholder + (p + rest)
    requires rest != [] && rest[0] == '?'
    requires !StartsWith(p + rest, "http")
    ensures Placeholder + StripPlaceholder(h) == h
    ensures '?' in StripPlaceholder(h)
    ensures !StartsWith(StripPlaceholder(h), "http")
  {
    StripAfterPlaceholder(p + rest);
    assert (p + rest)[|p|] == '?';
  }

  lemma {:induction false} StripAfterPlaceholder(x: string)
    ensures StripPlaceholder(Placeholder + x) == x
  {
    assert (Placeholder + x)[..|Placeholder|] == Placeholder;
  }

  /** Without the `http` prefix the target is below the placeholder origin. */
  lemma {:induction false} RelativeTarget(raw: string)
    requires !StartsWith(raw, "http")
    ensures !StartsWith(EnsureQuestionMark(raw), "http")
    ensures ParseTarget(EnsureQuestionMark(raw)) == Placeholder + EnsureQuestionMark(raw)
  {
    var t := EnsureQuestionMark(raw);
    if |raw| >= 4 {
      assert t[..4] == raw[..4];
    }
  }

  /** Input without the `http` prefix: the output is the processed URL's href
      with exactly the placeholder origin cut off, it holds a `?`, and it does
      not itself begin with `http`, so the placeholder cannot show through. */
  lemma {:induction false} RelativeOutput(raw: string)
    requires !StartsWith(raw, "http")
    ensures Process(raw).Success? && ProcessedUrl(raw).Some?
    ensures Placeholder + Process(raw).value == ToString(ProcessedUrl(raw).value)
    ensures '?' in Process(raw).value
    ensures !StartsWith(Process(raw).value, "http")
  {
    var t := EnsureQuestionMark(raw);
    RelativeTarget(raw);
    HrefBelowPlaceholder(t);
    var u2 := InjectParams(Parse(Placeholder + t).value);
    var k := FirstOf(t, "?#");
    var rest := QueryText(u2.query) + FragmentText(u2.fragment);
    CutNotHttp(t, k, rest);
    StrippedHref(ToString(u2), t[..k], rest);
  }

  /** Input with the `http` prefix whose href does not begin with the
      placeholder origin: the output is the href itself. */
  lemma {:induction false} AbsoluteOutput(raw: string)
    requires StartsWith(raw, "http")
    requires ProcessedUrl(raw).Some?
    requires !StartsWith(ToString(ProcessedUrl(raw).value), Placeholder)
    ensures Process(raw) == Success(ToString(ProcessedUrl(raw).value))
    ensures StartsWith(Process(raw).value, "http")
    ensures '?' in Process(raw).value
  {
    var t := EnsureQuestionMark(raw);
    AbsoluteTarget(raw);
    ParsedSchemeOfHttp(t);
    var u2 := InjectParams(Parse(t).value);
    HrefStartsWithScheme(u2, "http");
    HrefHasQueryMark(u2);
  }

  /** With the `http` prefix the target is the input itself. */
  lemma {:induction false} AbsoluteTarget(raw: string)
    requires StartsWith(raw, "http")
    ensures StartsWith(EnsureQuestionMark(raw), "http")
    ensures ParseTarget(EnsureQuestionMark(raw)) == EnsureQuestionMark(raw)
  {
    assert EnsureQuestionMark(raw)[..4] == raw[..4];
  }

  /** The output of processing, processed again, comes back unchanged
      (whenever the placeholder origin was added by the processing itself or
      not present at all). */
  lemma {:induction false} ProcessIdempotent(raw: string)
    requires Process(raw).Success?
    requires StartsWith(raw, "http") ==> !StartsWith(ToString(ProcessedUrl(raw).value), Placeholder)
    ensures Process(Process(raw).value) == Process(raw)
  {
    var u2 := ProcessedUrl(raw).value;
    var out := Process(raw).value;
    if StartsWith(raw, "http") {
      AbsoluteOutput(raw);
      assert ParseTarget(out) == out == ToString(u2);
    } else {
      RelativeOutput(raw);
      assert ParseTarget(out) == ToString(u2);
    }
    assert EnsureQuestionMark(out) == out;
    ParseToString(u2);
    assert ProcessedUrl(out) == Some(InjectParams(u2));
    InjectIdempotent(raw);
  }

  /** Injecting into an already processed URL changes nothing. */
  lemma {:induction false} InjectIdempotent(raw: string)
    requires ProcessedUrl(raw).Some?
    ensures InjectParams(ProcessedUrl(raw).value) == ProcessedUrl(raw).value
  {
    var u := Parse(ParseTarget(EnsureQuestionMark(raw))).value;
    var u2 := InjectParams(u);
    var l2 := u2.params;
    FindDebugForced(u);
    FlMerged(u);
    SetUnchanged(l2, FindDebug, FindDebugValue);
    var u3 := SetParam(u2, FindDebug, FindDebugValue);
    assert u3 == u2;
    var fl := Get(l2, Fl).value;
    if Has(u.params, Fl) {
      MergeFlIdempotent(Get(u.params, Fl).value);
    } else {
      DefaultFlComplete();
    }
    assert MergeFlValue(fl) == fl;
    SetUnchanged(l2, Fl, fl);
  }
}
