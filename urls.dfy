/** The parts of the WHATWG URL Standard the components lean on: `new URL(s)`
    as a simplified parse that may fail, `url.toString()`, and the
    `URLSearchParams` list with `has`, `get` and `set` (section 6.2), kept in
    step with the URL's query through the application/x-www-form-urlencoded
    parser (section 5.1) and serializer (section 5.2). */
module Urls {
  import opened Wrappers
  import opened Strings
  import opened Encoding

  /** One name/value pair of a query. */
  type Pair = (string, string)

  /** A URL object: the URL record's components plus its `searchParams` list.
      `query` and `fragment` are `None` when the URL has no `?` / `#`. */
  datatype Url = Url(
    scheme: string, host: string, path: string,
    query: Option<string>, fragment: Option<string>,
    params: seq<Pair>)

  /** `new URL(...)` threw; the code around it does not catch it. */
  datatype UrlError = MalformedUrl

  // ---- URLSearchParams ----

  /** `params.get(name)`: the value of the first pair with that name. */
  function Get(list: seq<Pair>, name: string): (r: Option<string>)
    ensures r.Some? <==> exists i :: 0 <= i < |list| && list[i].0 == name
    ensures r.Some? ==> exists i :: 0 <= i < |list| && list[i] == (name, r.value) &&
                          forall j :: 0 <= j < i ==> list[j].0 != name
    decreases |list|
  {
    if list == [] then None
    else if list[0].0 == name then Some(list[0].1)
    else
      var r := Get(list[1..], name);
      assert r.Some? ==> exists i :: 0 <= i < |list| && list[i] == (name, r.value) &&
                                     forall j :: 0 <= j < i ==> list[j].0 != name by {
        if r.Some? {
          var i :| 0 <= i < |list[1..]| && list[1..][i] == (name, r.value) &&
                   forall j :: 0 <= j < i ==> list[1..][j].0 != name;
          assert forall j :: 0 <= j < i + 1 ==> list[j].0 != name by {
            forall j | 0 <= j < i + 1 ensures list[j].0 != name {
              if j > 0 { assert list[j] == list[1..][j - 1]; }
            }
          }
          assert list[i + 1] == (name, r.value);
        }
      }
      r
  }

  /** `params.has(name)` */
  predicate Has(list: seq<Pair>, name: string) {
    Get(list, name).Some?
  }

  /** The number of pairs with the given name. */
  function Count(list: seq<Pair>, name: string): nat
    decreases |list|
  {
    if list == [] then 0
    else (if list[0].0 == name then 1 else 0) + Count(list[1..], name)
  }

  /** The list without the pairs of the given name, in order. */
  function Without(list: seq<Pair>, name: string): (r: seq<Pair>)
    ensures forall i :: 0 <= i < |r| ==> r[i].0 != name
    decreases |list|
  {
    if list == [] then []
    else (if list[0].0 == name then [] else [list[0]]) + Without(list[1..], name)
  }

  /** The index of the first pair with the given name. */
  function FirstIndex(list: seq<Pair>, name: string): (i: nat)
    requires Has(list, name)
    ensures i < |list| && list[i].0 == name
    ensures forall j :: 0 <= j < i ==> list[j].0 != name
    decreases |list|
  {
    if list[0].0 == name then 0 else 1 + FirstIndex(list[1..], name)
  }

  /** `get` returns the value of the pair `FirstIndex` points at. */
  lemma {:induction false} GetFirst(list: seq<Pair>, name: string)
    requires Has(list, name)
    ensures Get(list, name) == Some(list[FirstIndex(list, name)].1)
    decreases |list|
  {
    if list[0].0 != name {
      GetFirst(list[1..], name);
    }
  }

  /** `params.set(name, value)`: the first pair with that name gets the value
      and the others are removed; without such a pair, the pair is appended. */
  function Set(list: seq<Pair>, name: string, value: string): seq<Pair> {
    if Has(list, name) then
      var i := FirstIndex(list, name);
      list[..i] + [(name, value)] + Without(list[i + 1..], name)
    else list + [(name, value)]
  }

  lemma {:induction false} WithoutAppend(a: seq<Pair>, b: seq<Pair>, name: string)
    ensures Without(a + b, name) == Without(a, name) + Without(b, name)
    decreases |a|
  {
    if a == [] {
      assert a + b == b;
    } else {
      WithoutAppend(a[1..], b, name);
      assert (a + b)[1..] == a[1..] + b;
    }
  }

  lemma {:induction false} CountAppend(a: seq<Pair>, b: seq<Pair>, name: string)
    ensures Count(a + b, name) == Count(a, name) + Count(b, name)
    decreases |a|
  {
    if a == [] {
      assert a + b == b;
    } else {
      CountAppend(a[1..], b, name);
      assert (a + b)[1..] == a[1..] + b;
    }
  }

  lemma {:induction false} CountWithout(list: seq<Pair>, name: string)
    ensures Count(Without(list, name), name) == 0
    decreases |list|
  {
    if list != [] {
      CountWithout(list[1..], name);
      CountAppend(if list[0].0 == name then [] else [list[0]], Without(list[1..], name), name);
    }
  }

  lemma {:induction false} WithoutOther(list: seq<Pair>, name: string, other: string)
    requires other != name
    ensures Without(Without(list, name), other) == Without(Without(list, other), name)
    decreases |list|
  {
    if list != [] {
      WithoutOther(list[1..], name, other);
      var h := if list[0].0 == name then [] else [list[0]];
      WithoutAppend(h, Without(list[1..], name), other);
      var g := if list[0].0 == other then [] else [list[0]];
      WithoutAppend(g, Without(list[1..], other), name);
    }
  }

  lemma {:induction false} CountZeroIffAbsent(list: seq<Pair>, name: string)
    ensures Count(list, name) == 0 <==> !Has(list, name)
    decreases |list|
  {
    if list != [] {
      CountZeroIffAbsent(list[1..], name);
    }
  }

  lemma WithoutAbsent(list: seq<Pair>, name: string)
    requires !Has(list, name)
    ensures Without(list, name) == list
  {
    if list != [] {
      WithoutAbsent(list[1..], name);
      assert list == [list[0]] + list[1..];
    }
  }

  /** The shape of `set` when the name is present: the first pair of that
      name takes the value in place and the later ones are dropped. */
  lemma {:induction false} SetSplit(list: seq<Pair>, name: string, value: string)
    requires Has(list, name)
    ensures var i := FirstIndex(list, name);
      && list == list[..i] + [list[i]] + list[i + 1..]
      && !Has(list[..i], name)
      && Set(list, name, value) == list[..i] + ([(name, value)] + Without(list[i + 1..], name))
  {
    var i := FirstIndex(list, name);
    assert list == list[..i] + [list[i]] + list[i + 1..];
    assert forall j :: 0 <= j < |list[..i]| ==> list[..i][j].0 != name;
    var pre, mid, post := list[..i], [(name, value)], Without(list[i + 1..], name);
    assert pre + mid + post == pre + (mid + post);
  }

  /** After `set`, exactly one pair carries the name. */
  lemma {:induction false} SetCount(list: seq<Pair>, name: string, value: string)
    ensures Count(Set(list, name, value), name) == 1
  {
    if Has(list, name) {
      SetSplit(list, name, value);
      var i := FirstIndex(list, name);
      var pre, post := list[..i], list[i + 1..];
      CountZeroIffAbsent(pre, name);
      CountWithout(post, name);
      CountAppend(pre, [(name, value)] + Without(post, name), name);
      CountAppend([(name, value)], Without(post, name), name);
    } else {
      CountZeroIffAbsent(list, name);
      CountAppend(list, [(name, value)], name);
    }
  }

  /** After `set`, `get` returns the value just set. */
  lemma {:induction false} SetGet(list: seq<Pair>, name: string, value: string)
    ensures Get(Set(list, name, value), name) == Some(value)
  {
    if Has(list, name) {
      SetSplit(list, name, value);
      var i := FirstIndex(list, name);
      GetAfterAbsent(list[..i], [(name, value)] + Without(list[i + 1..], name), name);
    } else {
      GetAfterAbsent(list, [(name, value)], name);
    }
  }

  /** `set` leaves every pair of another name as it was, in order. */
  lemma {:induction false} SetWithout(list: seq<Pair>, name: string, value: string)
    ensures Without(Set(list, name, value), name) == Without(list, name)
  {
    if Has(list, name) {
      SetSplit(list, name, value);
      var i := FirstIndex(list, name);
      var pre, post := list[..i], list[i + 1..];
      var wp := Without(post, name);
      assert list == pre + ([list[i]] + post);
      WithoutAfterFirst(pre, list[i], post, name);
      WithoutAfterFirst(pre, (name, value), wp, name);
      CountWithout(post, name);
      CountZeroIffAbsent(wp, name);
      WithoutAbsent(wp, name);
    } else {
      WithoutAppend(list, [(name, value)], name);
    }
  }

  lemma {:induction false} WithoutAfterFirst(pre: seq<Pair>, p: Pair, post: seq<Pair>, name: string)
    requires p.0 == name
    ensures Without(pre + ([p] + post), name) == Without(pre, name) + Without(post, name)
  {
    WithoutAppend(pre, [p] + post, name);
    assert ([p] + post)[1..] == post;
  }

  /** What `set` promises: afterwards exactly one pair has the name and it
      carries the value; every pair of another name keeps its value and its
      place relative to the others; a pair that was there keeps its position. */
  lemma {:induction false} SetSemantics(list: seq<Pair>, name: string, value: string)
    ensures Count(Set(list, name, value), name) == 1
    ensures Get(Set(list, name, value), name) == Some(value)
    ensures Without(Set(list, name, value), name) == Without(list, name)
    ensures Has(list, name) ==> Set(list, name, value)[FirstIndex(list, name)] == (name, value)
    ensures !Has(list, name) ==> Set(list, name, value) == list + [(name, value)]
  {
    SetCount(list, name, value);
    SetGet(list, name, value);
    SetWithout(list, name, value);
    if Has(list, name) {
      SetSplit(list, name, value);
    }
  }

  lemma {:induction false} GetAfterAbsent(a: seq<Pair>, b: seq<Pair>, name: string)
    requires !Has(a, name)
    ensures Get(a + b, name) == Get(b, name)
    decreases |a|
  {
    if a == [] {
      assert a + b == b;
    } else {
      GetAfterAbsent(a[1..], b, name);
      assert (a + b)[1..] == a[1..] + b;
    }
  }

  lemma {:induction false} GetWithout(list: seq<Pair>, name: string, other: string)
    requires other != name
    ensures Get(Without(list, name), other) == Get(list, other)
    ensures Count(Without(list, name), other) == Count(list, other)
    decreases |list|
  {
    if list != [] {
      GetWithout(list[1..], name, other);
      var h := if list[0].0 == name then [] else [list[0]];
      CountAppend(h, Without(list[1..], name), other);
      if list[0].0 == name {
        assert Without(list, name) == Without(list[1..], name);
      } else {
        assert Without(list, name) == [list[0]] + Without(list[1..], name);
        assert ([list[0]] + Without(list[1..], name))[1..] == Without(list[1..], name);
      }
    }
  }

  /** `set` on one name does not change `get` or the count of another. */
  lemma {:induction false} SetOther(list: seq<Pair>, name: string, value: string, other: string)
    requires other != name
    ensures Get(Set(list, name, value), other) == Get(list, other)
    ensures Count(Set(list, name, value), other) == Count(list, other)
    ensures Has(Set(list, name, value), other) == Has(list, other)
  {
    SetWithout(list, name, value);
    GetWithout(Set(list, name, value), name, other);
    GetWithout(list, name, other);
  }

  /** Setting the value a name already has, on its only pair, changes nothing. */
  lemma {:induction false} SetUnchanged(list: seq<Pair>, name: string, value: string)
    requires Count(list, name) == 1 && Get(list, name) == Some(value)
    ensures Set(list, name, value) == list
  {
    SetSplit(list, name, value);
    var i := FirstIndex(list, name);
    var pre, post := list[..i], list[i + 1..];
    assert list == pre + ([list[i]] + post);
    CountZeroIffAbsent(pre, name);
    CountAppend(pre, [list[i]] + post, name);
    CountAppend([list[i]], post, name);
    assert Count([list[i]], name) == 1;
    assert Count(post, name) == 0;
    CountZeroIffAbsent(post, name);
    WithoutAbsent(post, name);
    GetAfterAbsent(pre, [list[i]] + post, name);
    assert list[i] == (name, value);
    assert Set(list, name, value) == pre + [list[i]] + post;
  }

  // ---- application/x-www-form-urlencoded ----

  /** One `&`-separated piece: split at the first `=`; a piece without `=`
      is a name with the empty value. */
  function ParsePair(piece: string): Pair {
    var i := FirstOf(piece, "=");
    if i < |piece| then (FormDecode(piece[..i]), FormDecode(piece[i + 1..]))
    else (FormDecode(piece), "")
  }

  /** The pairs of the pieces, empty pieces skipped. */
  function ParsePieces(pieces: seq<string>): seq<Pair>
    decreases |pieces|
  {
    if pieces == [] then []
    else (if pieces[0] == [] then [] else [ParsePair(pieces[0])]) + ParsePieces(pieces[1..])
  }

  /** The form parser: a query string to its list of pairs. */
  function FormParse(q: string): seq<Pair> {
    ParsePieces(Split(q, '&'))
  }

  function SerializePair(p: Pair): (r: string)
    ensures '&' !in r && r != []
  {
    FormEncode(p.0) + "=" + FormEncode(p.1)
  }

  function SerializePairs(list: seq<Pair>): (r: seq<string>)
    ensures |r| == |list|
    ensures forall k :: 0 <= k < |r| ==> r[k] == SerializePair(list[k])
    decreases |list|
  {
    if list == [] then [] else [SerializePair(list[0])] + SerializePairs(list[1..])
  }

  /** The form serializer: `name=value` pairs joined by `&`. */
  function FormSerialize(list: seq<Pair>): string {
    Join(SerializePairs(list), "&")
  }

  lemma {:induction false} ParseSerializedPair(p: Pair)
    ensures ParsePair(SerializePair(p)) == p
  {
    var a, b := FormEncode(p.0), FormEncode(p.1);
    var s := a + "=" + b;
    assert s == a + ("=" + b);
    assert forall k :: 0 <= k < |a| ==> a[k] !in "=";
    FirstOfAppend(a, "=" + b, "=");
    assert FirstOf("=" + b, "=") == 0;
    assert s[..|a|] == a;
    assert s[|a| + 1..] == b;
    FormDecodeEncode(p.0);
    FormDecodeEncode(p.1);
  }

  lemma {:induction false} ParsePiecesSerialized(list: seq<Pair>)
    ensures ParsePieces(SerializePairs(list)) == list
    decreases |list|
  {
    if list != [] {
      ParsePiecesSerialized(list[1..]);
      ParseSerializedPair(list[0]);
      assert SerializePairs(list)[1..] == SerializePairs(list[1..]);
      assert list == [list[0]] + list[1..];
    }
  }

  /** The form parser undoes the form serializer, duplicates and order
      included. */
  lemma {:induction false} FormRoundTrip(list: seq<Pair>)
    ensures FormParse(FormSerialize(list)) == list
  {
    var parts := SerializePairs(list);
    if list == [] {
      assert Split([], '&') == [[]];
    } else {
      SplitJoin(parts, '&');
      ParsePiecesSerialized(list);
    }
  }

  /** The serialization of a non-empty list is not empty. */
  lemma {:induction false} SerializeNonEmpty(list: seq<Pair>)
    requires list != []
    ensures FormSerialize(list) != []
  {
    var parts := SerializePairs(list);
    if |parts| > 1 {
      assert FormSerialize(list) == parts[0] + "&" + Join(parts[1..], "&");
    }
  }

  /** The serialization holds no `#`, so it cannot run into a fragment. */
  lemma {:induction false} SerializeNoHash(list: seq<Pair>)
    ensures '#' !in FormSerialize(list)
    decreases |list|
  {
    if |list| > 1 {
      SerializeNoHash(list[1..]);
      assert SerializePairs(list)[1..] == SerializePairs(list[1..]);
    }
  }

  // ---- new URL(s) and url.toString() ----

  predicate IsAsciiAlpha(c: char) {
    'a' <= c <= 'z' || 'A' <= c <= 'Z'
  }

  predicate IsSchemeChar(c: char) {
    IsAsciiAlphanumeric(c) || c == '+' || c == '-' || c == '.'
  }

  predicate SchemeChars(s: string): (b: bool)
    ensures b <==> forall k :: 0 <= k < |s| ==> IsSchemeChar(s[k])
    decreases |s|
  {
    s == [] || (IsSchemeChar(s[0]) && SchemeChars(s[1..]))
  }

  predicate ValidScheme(s: string) {
    |s| >= 1 && IsAsciiAlpha(s[0]) && SchemeChars(s)
  }

  function LowerChar(c: char): char {
    if 'A' <= c <= 'Z' then (c as int - 'A' as int + 'a' as int) as char else c
  }

  function AsciiLower(s: string): (r: string)
    ensures |r| == |s| && forall k :: 0 <= k < |s| ==> r[k] == LowerChar(s[k])
  {
    seq(|s|, k requires 0 <= k < |s| => LowerChar(s[k]))
  }

  /** Characters the model refuses in a host: controls, space, the URL
      delimiters, and `<`, `>`, `\`, `^`, `|`, `%`. */
  predicate IsForbiddenHostChar(c: char) {
    c < ' ' || c == ' ' || c == '#' || c == '/' || c == '<' || c == '>' || c == '?'
    || c == '\\' || c == '^' || c == '|' || c == '%' || c == '\U{7F}'
  }

  predicate HostChars(h: string): (b: bool)
    ensures b <==> forall k :: 0 <= k < |h| ==> !IsForbiddenHostChar(h[k])
    decreases |h|
  {
    h == [] || (!IsForbiddenHostChar(h[0]) && HostChars(h[1..]))
  }

  predicate ValidHost(h: string) {
    h != [] && HostChars(h)
  }

  /** The search-params list is the form parse of the query. */
  predicate InSync(u: Url) {
    u.params == FormParse(u.query.GetOr(""))
  }

  /** What every successfully parsed URL looks like. */
  predicate WellFormed(u: Url) {
    && ValidScheme(u.scheme) && AsciiLower(u.scheme) == u.scheme
    && ValidHost(u.host)
    && |u.path| >= 1 && u.path[0] == '/' && '?' !in u.path && '#' !in u.path
    && (u.query.Some? ==> '#' !in u.query.value)
    && InSync(u)
  }

  /** The scheme before the first `:` and the text after it. */
  function SplitScheme(s: string): Option<(string, string)> {
    var colon := FirstOf(s, ":");
    if colon == |s| then None else Some((s[..colon], s[colon + 1..]))
  }

  /** The host, up to the first `/`, `?` or `#`, and what follows it. */
  function SplitHost(auth: string): (r: (string, string))
    ensures r.1 == [] || r.1[0] in "/?#"
  {
    var e := FirstOf(auth, "/?#");
    (auth[..e], auth[e..])
  }

  /** The path, up to the first `?` or `#` and `/` when empty, and what
      follows it. */
  function SplitPath(tail: string): (r: (string, string))
    requires tail == [] || tail[0] in "/?#"
    ensures |r.0| >= 1 && r.0[0] == '/' && '?' !in r.0 && '#' !in r.0
    ensures r.1 == [] || r.1[0] in "?#"
  {
    var e := FirstOf(tail, "?#");
    var path := if e == 0 then "/" else tail[..e];
    assert forall k :: 0 <= k < |path| ==> path[k] !in "?#";
    (path, tail[e..])
  }

  /** The query after a leading `?` and the fragment after the first `#`. */
  function SplitQuery(rest: string): (r: (Option<string>, Option<string>))
    ensures r.0.Some? ==> '#' !in r.0.value
  {
    var hash := FirstOf(rest, "#");
    var query := if rest != [] && rest[0] == '?' then Some(rest[1..hash]) else None;
    var fragment := if hash < |rest| then Some(rest[hash + 1..]) else None;
    assert query.Some? ==> forall k :: 0 <= k < |query.value| ==> query.value[k] == rest[k + 1];
    (query, fragment)
  }

  /** `new URL(s)` for an absolute `scheme://host/path?query#fragment`;
      `None` where the constructor throws. The scheme is lower-cased. */
  function Parse(s: string): (r: Option<Url>)
    ensures r.Some? ==> WellFormed(r.value)
  {
    match SplitScheme(s)
    case None => None
    case Some((scheme, rest)) =>
      if !ValidScheme(scheme) || !StartsWith(rest, "//") then None
      else
        var (host, tail) := SplitHost(rest[2..]);
        if !ValidHost(host) then None
        else
          var (path, qf) := SplitPath(tail);
          var (query, fragment) := SplitQuery(qf);
          var lower := AsciiLower(scheme);
          assert ValidScheme(lower) && AsciiLower(lower) == lower;
          Some(Url(lower, host, path, query, fragment, FormParse(query.GetOr(""))))
  }

  /** The parsed scheme is the lower-cased text before the first `:`. */
  lemma {:induction false} ParseScheme(s: string)
    requires Parse(s).Some?
    ensures SplitScheme(s).Some? && Parse(s).value.scheme == AsciiLower(SplitScheme(s).value.0)
  {
  }

  /** A prefix free of `:` and upper-case letters survives into the scheme. */
  lemma {:induction false} ParsedSchemePrefix(s: string, p: string)
    requires Parse(s).Some? && StartsWith(s, p) && ':' !in p
    requires forall k :: 0 <= k < |p| ==> !('A' <= p[k] <= 'Z')
    ensures StartsWith(Parse(s).value.scheme, p)
  {
    ParseScheme(s);
    var colon := FirstOf(s, ":");
    assert forall k :: 0 <= k < |p| ==> s[k] == p[k];
    assert colon >= |p|;
    AsciiLowerPrefix(SplitScheme(s).value.0, p);
  }

  /** `url.protocol` */
  function Protocol(u: Url): string {
    u.scheme + ":"
  }

  function QueryText(q: Option<string>): string {
    if q.Some? then "?" + q.value else ""
  }

  function FragmentText(f: Option<string>): string {
    if f.Some? then "#" + f.value else ""
  }

  /** `url.toString()` (the href). */
  function ToString(u: Url): string {
    u.scheme + "://" + u.host + u.path + QueryText(u.query) + FragmentText(u.fragment)
  }

  /** A URL with a query has a `?` in its href. */
  lemma {:induction false} HrefHasQueryMark(u: Url)
    requires u.query.Some?
    ensures '?' in ToString(u)
  {
    var pre := u.scheme + "://" + u.host + u.path;
    assert ToString(u) == pre + ("?" + u.query.value + FragmentText(u.fragment));
    assert ToString(u)[|pre|] == '?';
  }

  /** The href starts with the scheme. */
  lemma {:induction false} HrefStartsWithScheme(u: Url, p: string)
    requires StartsWith(u.scheme, p)
    ensures StartsWith(ToString(u), p)
  {
    var rest := "://" + u.host + u.path + QueryText(u.query) + FragmentText(u.fragment);
    assert ToString(u) == u.scheme + rest;
    StartsWithAppend(u.scheme, rest, p);
  }

  /** Lower-casing keeps an already lower-case prefix. */
  lemma {:induction false} AsciiLowerPrefix(s: string, p: string)
    requires StartsWith(s, p)
    requires forall k :: 0 <= k < |p| ==> !('A' <= p[k] <= 'Z')
    ensures StartsWith(AsciiLower(s), p)
  {
    forall k | 0 <= k < |p| ensures AsciiLower(s)[k] == p[k] {
      assert s[k] == p[k];
    }
  }

  /** Writing the list back to the URL, as the update steps of
      `URLSearchParams` do: the query becomes its serialization, or goes away
      when the list is empty. */
  function WithParams(u: Url, list: seq<Pair>): (r: Url)
    requires WellFormed(u)
    ensures WellFormed(r) && r.params == list
    ensures r.query == if list == [] then None else Some(FormSerialize(list))
    ensures r.scheme == u.scheme && r.host == u.host && r.path == u.path && r.fragment == u.fragment
  {
    FormRoundTrip(list);
    SerializeNoHash(list);
    if list == [] then u.(params := list, query := None)
    else u.(params := list, query := Some(FormSerialize(list)))
  }

  /** `url.searchParams.set(name, value)` */
  function SetParam(u: Url, name: string, value: string): (r: Url)
    requires WellFormed(u)
    ensures WellFormed(r) && r.params == Set(u.params, name, value)
    ensures r.query == Some(FormSerialize(r.params))
    ensures r.scheme == u.scheme && r.host == u.host && r.path == u.path && r.fragment == u.fragment
  {
    var l := Set(u.params, name, value);
    SetSemantics(u.params, name, value);
    assert l != [];
    WithParams(u, l)
  }

  lemma {:induction false} NoCharsOf(s: string, cs: string)
    requires forall c :: c in cs ==> c !in s
    ensures forall k :: 0 <= k < |s| ==> s[k] !in cs
  {
  }

  lemma {:induction false} SplitSchemeInverse(scheme: string, rest: string)
    requires ':' !in scheme
    ensures SplitScheme(scheme + ":" + rest) == Some((scheme, rest))
  {
    var s := scheme + ":" + rest;
    assert s == scheme + (":" + rest);
    NoCharsOf(scheme, ":");
    FirstOfAppend(scheme, ":" + rest, ":");
    assert FirstOf(":" + rest, ":") == 0;
    assert s[..|scheme|] == scheme;
    assert s[|scheme| + 1..] == rest;
  }

  lemma {:induction false} SplitHostInverse(host: string, tail: string)
    requires forall k :: 0 <= k < |host| ==> host[k] !in "/?#"
    requires tail != [] && tail[0] == '/'
    ensures SplitHost(host + tail) == (host, tail)
  {
    FirstOfAppend(host, tail, "/?#");
    assert FirstOf(tail, "/?#") == 0;
    assert (host + tail)[..|host|] == host;
    assert (host + tail)[|host|..] == tail;
  }

  lemma {:induction false} SplitPathInverse(path: string, rest: string)
    requires |path| >= 1 && path[0] == '/' && '?' !in path && '#' !in path
    requires rest == [] || rest[0] in "?#"
    ensures SplitPath(path + rest) == (path, rest)
  {
    NoCharsOf(path, "?#");
    FirstOfAppend(path, rest, "?#");
    if rest != [] {
      assert FirstOf(rest, "?#") == 0;
    }
    assert (path + rest)[..|path|] == path;
    assert (path + rest)[|path|..] == rest;
  }

  lemma {:induction false} SplitQueryInverse(q: Option<string>, f: Option<string>)
    requires q.Some? ==> '#' !in q.value
    ensures SplitQuery(QueryText(q) + FragmentText(f)) == (q, f)
  {
    if q.Some? {
      SplitQueryWithQuery(q.value, f);
    } else {
      SplitQueryFragmentOnly(f);
    }
  }

  lemma {:induction false} SplitQueryFragmentOnly(f: Option<string>)
    ensures SplitQuery(QueryText(None) + FragmentText(f)) == (None, f)
  {
    var rest := QueryText(None) + FragmentText(f);
    assert rest == FragmentText(f);
    if f.Some? {
      assert rest == "#" + f.value;
      assert FirstOf(rest, "#") == 0;
      assert rest[1..] == f.value;
    }
  }

  lemma {:induction false} SplitQueryWithQuery(q: string, f: Option<string>)
    requires '#' !in q
    ensures SplitQuery(QueryText(Some(q)) + FragmentText(f)) == (Some(q), f)
  {
    var ft := FragmentText(f);
    var rest := "?" + (q + ft);
    assert QueryText(Some(q)) + ft == rest;
    var hash := 1 + |q|;
    QueryEnd(q, ft);
    QuerySlices(q, ft);
    SplitQueryAt(rest, hash);
    if f.Some? {
      assert ft[1..] == f.value;
    }
  }

  lemma {:induction false} SplitQueryAt(rest: string, hash: nat)
    requires rest != [] && rest[0] == '?' && FirstOf(rest, "#") == hash
    ensures hash < |rest| ==> SplitQuery(rest) == (Some(rest[1..hash]), Some(rest[hash + 1..]))
    ensures hash == |rest| ==> SplitQuery(rest) == (Some(rest[1..hash]), None)
  {
  }

  lemma {:induction false} QuerySlices(q: string, ft: string)
    ensures ("?" + (q + ft))[1..1 + |q|] == q
    ensures ("?" + (q + ft))[1 + |q|..] == ft
    ensures ft != [] ==> ("?" + (q + ft))[2 + |q|..] == ft[1..]
  {
  }

  lemma {:induction false} QueryEnd(q: string, ft: string)
    requires '#' !in q
    requires ft == [] || ft[0] == '#'
    ensures FirstOf("?" + (q + ft), "#") == 1 + |q|
  {
    NoCharsOf(q, "#");
    FirstOfAppend(q, ft, "#");
    FirstOfAppend("?", q + ft, "#");
  }

  /** `new URL` on text assembled from a valid scheme, a valid host and a
      tail beginning with `/`. */
  lemma {:induction false} ParseAssembled(scheme: string, host: string, tail: string)
    requires ValidScheme(scheme) && ValidHost(host)
    requires tail != [] && tail[0] == '/'
    ensures var (path, qf) := SplitPath(tail);
      var (query, fragment) := SplitQuery(qf);
      Parse(scheme + "://" + host + tail)
        == Some(Url(AsciiLower(scheme), host, path, query, fragment, FormParse(query.GetOr(""))))
  {
    var after := host + tail;
    assert scheme + "://" + host + tail == scheme + ":" + ("//" + after);
    assert ':' !in scheme;
    SplitSchemeInverse(scheme, "//" + after);
    assert ("//" + after)[2..] == after;
    assert StartsWith("//" + after, "//");
    SplitHostInverse(host, tail);
  }

  /** Any text after `scheme://host/` parses, the text up to its first `?`
      or `#` becoming the path below `/`. */
  lemma {:induction false} ParseBelowOrigin(scheme: string, host: string, t: string)
    requires ValidScheme(scheme) && ValidHost(host)
    ensures Parse(scheme + "://" + host + ("/" + t)).Some?
    ensures var u := Parse(scheme + "://" + host + ("/" + t)).value;
      u.scheme == AsciiLower(scheme) && u.host == host && u.path == "/" + t[..FirstOf(t, "?#")]
  {
    ParseAssembled(scheme, host, "/" + t);
    SplitPathBelow(t);
  }

  lemma {:induction false} SplitPathBelow(t: string)
    ensures SplitPath("/" + t).0 == "/" + t[..FirstOf(t, "?#")]
  {
    FirstOfAppend("/", t, "?#");
    var k := FirstOf(t, "?#");
    assert ("/" + t)[..1 + k] == "/" + t[..k];
  }

  /** Parsing the href of a well-formed URL gives the URL back. */
  lemma {:induction false} ParseToString(u: Url)
    requires WellFormed(u)
    ensures Parse(ToString(u)) == Some(u)
  {
    var qf := QueryText(u.query) + FragmentText(u.fragment);
    var tail := u.path + qf;
    assert ToString(u) == u.scheme + "://" + u.host + tail;
    ParseAssembled(u.scheme, u.host, tail);
    QueryFragmentStart(u.query, u.fragment);
    SplitPathInverse(u.path, qf);
    SplitQueryInverse(u.query, u.fragment);
    assert AsciiLower(u.scheme) == u.scheme;
    assert u.params == FormParse(u.query.GetOr(""));
  }

  lemma {:induction false} QueryFragmentStart(q: Option<string>, f: Option<string>)
    ensures var qf := QueryText(q) + FragmentText(f);
      qf == [] || qf[0] in "?#"
  {
  }
}
