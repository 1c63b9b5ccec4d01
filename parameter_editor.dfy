/** The parameter editor: one URL held as a base and an ordered list of
    editable key/value records, the edits on that list, the four-way status
    of a record against what the URL held, and the two ways back to text:
    the saved URL (through `URLSearchParams.set`, last write wins) and the
    live preview (every kept record, duplicates included). */
module ParameterEditor {
  import opened Wrappers
  import opened Strings
  import opened Encoding
  import opened Urls
  import opened ManualQuery

  /** One editable record. `originalKey`/`originalValue` are what the URL
      held, `""` for a record added in the editor. The id stands for the
      random token the editor draws; only its uniqueness matters. */
  datatype Param = Param(id: nat, key: string, value: string, originalKey: string, originalValue: string)

  datatype Status = Added | Removed | Modified | Unchanged

  /** `getParameterStatus`: the first two tests win over the comparison, so
      a record is `unchanged` exactly when it equals its originals, and
      `modified` only when its key and original key are both empty or both
      non-empty. */
  function GetParameterStatus(p: Param): (s: Status)
    ensures s == Added <==> p.originalKey == [] && p.key != []
    ensures s == Removed <==> p.originalKey != [] && p.key == []
    ensures s == Modified <==> (p.originalKey == [] <==> p.key == []) && (p.key, p.value) != (p.originalKey, p.originalValue)
    ensures s == Unchanged <==> p.key == p.originalKey && p.value == p.originalValue
  {
    if p.originalKey == [] && p.key != [] then Added
    else if p.originalKey != [] && p.key == [] then Removed
    else if p.key != p.originalKey || p.value != p.originalValue then Modified
    else Unchanged
  }

  /** One record of each of the four statuses. */
  lemma {:induction false} StatusExamples()
    ensures GetParameterStatus(Param(0, "x", "", "", "")) == Added
    ensures GetParameterStatus(Param(0, "", "", "x", "")) == Removed
    ensures GetParameterStatus(Param(0, "x", "2", "x", "1")) == Modified
    ensures GetParameterStatus(Param(0, "x", "1", "x", "1")) == Unchanged
  {
  }

  /** The record `addParameter` appends. */
  function Blank(id: nat): Param {
    Param(id, "", "", "", "")
  }

  /** A fresh row is `unchanged`, and becomes `added` once a key is typed. */
  lemma {:induction false} BlankStatus(id: nat, key: string)
    ensures GetParameterStatus(Blank(id)) == Unchanged
    ensures key != [] ==> GetParameterStatus(UpdateField(Blank(id), KeyField, key)) == Added
  {
  }

  // ---- ids ----

  predicate IdsBelow(ps: seq<Param>, next: nat) {
    forall k :: 0 <= k < |ps| ==> ps[k].id < next
  }

  predicate DistinctIds(ps: seq<Param>) {
    forall i, j :: 0 <= i < j < |ps| ==> ps[i].id != ps[j].id
  }

  /** The editor's three pieces of state, plus the next fresh id. */
  datatype EditorState = EditorState(baseUrl: string, parameters: seq<Param>, hasChanges: bool, nextId: nat)

  /** Every record has its own id, drawn before `nextId`. */
  predicate IdsOk(s: EditorState) {
    IdsBelow(s.parameters, s.nextId) && DistinctIds(s.parameters)
  }

  // ---- parseUrl ----

  /** The key/value pairs of a list of records, in order. */
  function Pairs(ps: seq<Param>): (r: seq<Pair>)
    ensures |r| == |ps| && forall k :: 0 <= k < |ps| ==> r[k] == (ps[k].key, ps[k].value)
  {
    seq(|ps|, k requires 0 <= k < |ps| => (ps[k].key, ps[k].value))
  }

  /** A record read from a URL: its originals are its key and value. */
  function Original(id: nat, key: string, value: string): Param {
    Param(id, key, value, key, value)
  }

  /** The records built from a list of pairs, numbered from `firstId`: one
      per pair, in order, each equal to its originals. */
  function Records(pairs: seq<Pair>, firstId: nat): (r: seq<Param>)
    ensures Pairs(r) == pairs
    ensures forall k :: 0 <= k < |r| ==> r[k].id == firstId + k
    ensures forall k :: 0 <= k < |r| ==> r[k].originalKey == r[k].key && r[k].originalValue == r[k].value
  {
    seq(|pairs|, k requires 0 <= k < |pairs| => Original(firstId + k, pairs[k].0, pairs[k].1))
  }

  /** A list numbered and built pair by pair is `Records`. */
  lemma {:induction false} RecordsByElement(ps: seq<Param>, pairs: seq<Pair>, firstId: nat)
    requires |ps| == |pairs|
    requires forall k :: 0 <= k < |ps| ==> ps[k] == Original(firstId + k, pairs[k].0, pairs[k].1)
    ensures ps == Records(pairs, firstId)
  {
  }

  /** Numbering one more pair appends one more record. */
  lemma {:induction false} RecordsSnoc(pairs: seq<Pair>, firstId: nat, i: nat)
    requires i < |pairs|
    ensures Records(pairs[..i + 1], firstId) ==
      Records(pairs[..i], firstId) + [Original(firstId + i, pairs[i].0, pairs[i].1)]
  {
    var longer := Records(pairs[..i], firstId) + [Original(firstId + i, pairs[i].0, pairs[i].1)];
    RecordsByElement(longer, pairs[..i + 1], firstId);
  }

  /** What `new URL` is given: the text itself when it starts with `http`,
      otherwise the text under `https://`. */
  function FullUrl(s: string): string {
    if StartsWith(s, "http") then s else "https://" + s
  }

  /** `${protocol}//${host}${pathname}` */
  function ParseBase(u: Url): string {
    Protocol(u) + "//" + u.host + u.path
  }

  /** The fallback's `const [base, queryString] = urlString.split('?')`. */
  function FallbackBase(s: string): string {
    Split(s, '?')[0]
  }

  /** The fallback's query: the text between the first and the second `?`,
      `""` when there is no `?`. */
  function FallbackQuery(s: string): string {
    var parts := Split(s, '?');
    if |parts| > 1 then parts[1] else ""
  }

  /** The fallback's decoded `{ key, value }` pieces as name/value pairs, in
      order: the same list `Pairs` yields for records, so both parse paths
      feed one `Records` step. */
  function AsPairs(kvs: seq<KeyValue>): (r: seq<Pair>)
    ensures |r| == |kvs| && forall k :: 0 <= k < |kvs| ==> r[k] == (kvs[k].key, kvs[k].value)
  {
    seq(|kvs|, k requires 0 <= k < |kvs| => (kvs[k].key, kvs[k].value))
  }

  /** The fallback's `.map(...)` over the `&`-pieces: one pair per piece,
      in order, or `None` when a `decodeURIComponent` throws. */
  function FallbackPairs(pieces: seq<string>): (r: Option<seq<Pair>>)
    ensures r.Some? <==> forall k :: 0 <= k < |pieces| ==> DecodePiece(pieces[k]).Some?
    ensures r.Some? ==> |r.value| == |pieces| && forall k :: 0 <= k < |pieces| ==>
      r.value[k] == (DecodePiece(pieces[k]).value.key, DecodePiece(pieces[k]).value.value)
  {
    var d := DecodePieces(pieces);
    if d.None? then None else Some(AsPairs(d.value))
  }

  /** The state after `new URL` succeeds on `u`: the base is protocol,
      host and path, the records are the URL's pairs with fresh ids, and the
      edit flag is cleared. */
  function ParsedState(s: EditorState, u: Url): EditorState {
    EditorState(ParseBase(u), Records(u.params, s.nextId), false, s.nextId + |u.params|)
  }

  /** The `catch` branch of `parseUrl`: the base is set first; then the
      query, if any, is decoded, which may throw. */
  function FallbackInto(s: EditorState, urlString: string): (EditorState, bool) {
    var s1 := s.(baseUrl := FallbackBase(urlString));
    var q := FallbackQuery(urlString);
    if q == [] then (s1, true)
    else
      match FallbackPairs(Split(q, '&'))
      case None => (s1, false)
      case Some(pairs) => (s1.(parameters := Records(pairs, s.nextId), nextId := s.nextId + |pairs|), true)
  }

  /** `parseUrl(urlString)` on state `s`: the new state, and `false` when the
      fallback's decode throws (after `baseUrl` has been set). */
  function ParseInto(s: EditorState, urlString: string): (EditorState, bool) {
    if urlString == [] then (s, true)
    else
      match Parse(FullUrl(urlString))
      case Some(u) => (ParsedState(s, u), true)
      case None => FallbackInto(s, urlString)
  }

  /** A parse keeps every id unique and below `nextId`. */
  lemma {:induction false} ParseKeepsIds(s: EditorState, urlString: string)
    requires IdsOk(s)
    ensures IdsOk(ParseInto(s, urlString).0)
    ensures ParseInto(s, urlString).0.nextId >= s.nextId
  {
  }

  /** A successful parse: the base is protocol, host and path, the records
      are the URL's pairs in order, every one `unchanged`, and the edit flag
      is cleared. */
  lemma {:induction false} ParseSucceeds(s: EditorState, urlString: string)
    requires urlString != [] && Parse(FullUrl(urlString)).Some?
    ensures var u := Parse(FullUrl(urlString)).value;
      var (r, ok) := ParseInto(s, urlString);
      && ok && r.baseUrl == ParseBase(u) && '?' !in r.baseUrl
      && Pairs(r.parameters) == u.params
      && (forall k :: 0 <= k < |r.parameters| ==> GetParameterStatus(r.parameters[k]) == Unchanged)
      && !r.hasChanges
  {
    var u := Parse(FullUrl(urlString)).value;
    ParseBaseReparses(u);
  }

  /** The fallback never touches the edit flag; without a query it keeps the
      records, and when a decode throws it keeps them too but has already
      replaced the base. */
  lemma {:induction false} ParseFallback(s: EditorState, urlString: string)
    requires urlString != [] && Parse(FullUrl(urlString)).None?
    ensures var (r, ok) := ParseInto(s, urlString);
      && r.baseUrl == FallbackBase(urlString) && '?' !in r.baseUrl
      && r.hasChanges == s.hasChanges
      && (FallbackQuery(urlString) == [] ==> ok && r.parameters == s.parameters)
      && (FallbackQuery(urlString) != [] && FallbackPairs(Split(FallbackQuery(urlString), '&')).None? ==>
            !ok && r.parameters == s.parameters)
      && (FallbackQuery(urlString) != [] && FallbackPairs(Split(FallbackQuery(urlString), '&')).Some? ==>
            ok && Pairs(r.parameters) == FallbackPairs(Split(FallbackQuery(urlString), '&')).value)
  {
  }

  /** `resetChanges`: whatever was edited, parsing the same text again gives
      the same base, the same pairs and the same flag. */
  lemma {:induction false} ResetDiscardsEdits(s: EditorState, t: EditorState, urlString: string)
    requires urlString != [] && Parse(FullUrl(urlString)).Some?
    ensures var (a, _) := ParseInto(s, urlString);
      var (b, _) := ParseInto(t, urlString);
      a.baseUrl == b.baseUrl && Pairs(a.parameters) == Pairs(b.parameters) && a.hasChanges == b.hasChanges
  {
  }

  /** The parsed base is the href of the same URL without query, fragment
      or parameters. */
  lemma {:induction false} BaseIsHref(u: Url)
    ensures ParseBase(u) == ToString(Url(u.scheme, u.host, u.path, None, None, []))
  {
    assert Protocol(u) + "//" == u.scheme + "://" by {
      AppendAssoc(u.scheme, ":", "//");
      assert ":" + "//" == "://";
    }
  }

  lemma {:induction false} BaseNoQuery(u: Url)
    requires WellFormed(u)
    ensures '?' !in ParseBase(u)
  {
    assert forall k :: 0 <= k < |u.scheme| ==> IsSchemeChar(u.scheme[k]);
    assert forall k :: 0 <= k < |u.host| ==> !IsForbiddenHostChar(u.host[k]);
    assert '?' !in u.scheme && '?' !in u.host;
    BaseIsHref(u);
    assert ParseBase(u) == u.scheme + "://" + u.host + u.path;
  }

  /** The parsed base has no query or fragment: parsing it again gives the
      same scheme, host and path with an empty parameter list. */
  lemma {:induction false} ParseBaseReparses(u: Url)
    requires WellFormed(u)
    ensures '?' !in ParseBase(u)
    ensures Parse(ParseBase(u)) == Some(Url(u.scheme, u.host, u.path, None, None, []))
  {
    var v := Url(u.scheme, u.host, u.path, None, None, []);
    assert FormParse("") == [];
    assert WellFormed(v);
    ParseToString(v);
    BaseIsHref(u);
    BaseNoQuery(u);
  }

  // ---- updateParameter, addParameter, removeParameter ----

  /** The two fields the editor's inputs update. */
  datatype Field = KeyField | ValueField

  /** `{ ...param, [field]: value }` */
  function UpdateField(p: Param, field: Field, v: string): Param {
    match field
    case KeyField => p.(key := v)
    case ValueField => p.(value := v)
  }

  /** `prev.map(...)` of `updateParameter`: only the named field of the
      records with that id changes; ids, originals, every other record and
      the length stay. */
  function Updated(ps: seq<Param>, id: nat, field: Field, v: string): (r: seq<Param>)
    ensures |r| == |ps|
    ensures forall k :: 0 <= k < |ps| ==>
      r[k].id == ps[k].id && r[k].originalKey == ps[k].originalKey && r[k].originalValue == ps[k].originalValue
    ensures forall k :: 0 <= k < |ps| && ps[k].id != id ==> r[k] == ps[k]
    ensures forall k :: 0 <= k < |ps| && ps[k].id == id ==>
      if field == KeyField then r[k].key == v && r[k].value == ps[k].value
      else r[k].value == v && r[k].key == ps[k].key
  {
    seq(|ps|, k requires 0 <= k < |ps| => if ps[k].id == id then UpdateField(ps[k], field, v) else ps[k])
  }

  /** `prev.filter(param => param.id !== id)` */
  function Remaining(ps: seq<Param>, id: nat): (r: seq<Param>)
    ensures |r| <= |ps|
    decreases |ps|
  {
    if ps == [] then []
    else (if ps[0].id == id then [] else [ps[0]]) + Remaining(ps[1..], id)
  }

  /** The records kept are exactly those with another id. */
  lemma {:induction false} RemainingMembers(ps: seq<Param>, id: nat)
    ensures var r := Remaining(ps, id);
      forall k :: 0 <= k < |r| ==> r[k].id != id && r[k] in ps
    ensures var r := Remaining(ps, id);
      forall k :: 0 <= k < |ps| && ps[k].id != id ==> ps[k] in r
    decreases |ps|
  {
    if ps != [] {
      RemainingMembers(ps[1..], id);
      var r := Remaining(ps, id);
      var rest := Remaining(ps[1..], id);
      var h: seq<Param> := if ps[0].id == id then [] else [ps[0]];
      assert r == h + rest;
      assert forall k :: 1 <= k < |ps| ==> ps[k] == ps[1..][k - 1];
    }
  }

  /** Removing distributes over concatenation: the kept records stay in order. */
  lemma {:induction false} RemainingAppend(a: seq<Param>, b: seq<Param>, id: nat)
    ensures Remaining(a + b, id) == Remaining(a, id) + Remaining(b, id)
    decreases |a|
  {
    if a == [] {
      assert a + b == b;
    } else {
      RemainingAppend(a[1..], b, id);
      assert (a + b)[0] == a[0] && (a + b)[1..] == a[1..] + b;
      var h: seq<Param> := if a[0].id == id then [] else [a[0]];
      assert Remaining(a + b, id) == h + Remaining(a[1..] + b, id);
      assert Remaining(a, id) == h + Remaining(a[1..], id);
      AppendAssoc(h, Remaining(a[1..], id), Remaining(b, id));
    }
  }

  /** A list without the id is kept whole. */
  lemma {:induction false} RemainingAbsent(ps: seq<Param>, id: nat)
    requires forall k :: 0 <= k < |ps| ==> ps[k].id != id
    ensures Remaining(ps, id) == ps
    decreases |ps|
  {
    if ps != [] {
      RemainingAbsent(ps[1..], id);
      assert ps == [ps[0]] + ps[1..];
    }
  }

  /** With unique ids, removing a record's id drops exactly that record. */
  lemma {:induction false} RemoveAt(ps: seq<Param>, k: nat)
    requires DistinctIds(ps) && k < |ps|
    ensures Remaining(ps, ps[k].id) == ps[..k] + ps[k + 1..]
  {
    var id := ps[k].id;
    var before, after := ps[..k], ps[k + 1..];
    forall j | 0 <= j < |before| ensures before[j].id != id {
      assert before[j] == ps[j] && ps[j].id != ps[k].id;
    }
    forall j | 0 <= j < |after| ensures after[j].id != id {
      assert after[j] == ps[k + 1 + j] && ps[k].id != ps[k + 1 + j].id;
    }
    var rest := [ps[k]] + after;
    SplitAround(ps, k);
    RemainingAppend(before, rest, id);
    RemainingAppend([ps[k]], after, id);
    RemainingAbsent(before, id);
    RemainingAbsent(after, id);
    assert Remaining([ps[k]], id) == [] by {
      assert [ps[k]][1..] == [];
    }
    assert Remaining(rest, id) == after;
    assert Remaining(ps, id) == before + after;
  }

  /** Removing keeps ids unique and below the counter. */
  lemma {:induction false} RemainingKeepsIds(ps: seq<Param>, id: nat, next: nat)
    requires IdsBelow(ps, next) && DistinctIds(ps)
    ensures IdsBelow(Remaining(ps, id), next) && DistinctIds(Remaining(ps, id))
    decreases |ps|
  {
    if ps != [] {
      var rest := Remaining(ps[1..], id);
      RemainingKeepsIds(ps[1..], id, next);
      RemainingMembers(ps[1..], id);
      forall j | 0 <= j < |rest| ensures rest[j].id != ps[0].id {
        var m :| 0 <= m < |ps[1..]| && ps[1..][m] == rest[j];
        assert ps[m + 1] == rest[j];
      }
      var h: seq<Param> := if ps[0].id == id then [] else [ps[0]];
      assert Remaining(ps, id) == h + rest;
    }
  }

  /** Appending a blank row with a fresh id keeps ids unique. */
  lemma {:induction false} AddKeepsIds(ps: seq<Param>, next: nat)
    requires IdsBelow(ps, next) && DistinctIds(ps)
    ensures IdsBelow(ps + [Blank(next)], next + 1) && DistinctIds(ps + [Blank(next)])
  {
  }

  // ---- handleSave ----

  /** `param.key.trim()` is truthy: the key has a character `trim` keeps
      (`TrimmedKeyKept` shows the two agree). */
  predicate KeyKept(p: Param) {
    !AllWhitespace(p.key)
  }

  lemma {:induction false} TrimmedKeyKept(p: Param)
    ensures Trim(p.key) != [] <==> KeyKept(p)
  {
    TrimProperties(p.key);
  }

  /** The records whose trimmed key is non-empty, in order. */
  function NonBlank(ps: seq<Param>): (r: seq<Param>)
    ensures forall k :: 0 <= k < |r| ==> KeyKept(r[k])
    ensures r == [] <==> forall k :: 0 <= k < |ps| ==> !KeyKept(ps[k])
    decreases |ps|
  {
    if ps == [] then []
    else (if KeyKept(ps[0]) then [ps[0]] else []) + NonBlank(ps[1..])
  }

  /** The `(key.trim(), value)` pair the save loop sets for a record. */
  function Entry(p: Param): Pair {
    (Trim(p.key), p.value)
  }

  /** The pairs the save loop sets: one per record with a non-blank key, in
      order. */
  function Entries(ps: seq<Param>): seq<Pair>
    decreases |ps|
  {
    if ps == [] then []
    else (if KeyKept(ps[0]) then [Entry(ps[0])] else []) + Entries(ps[1..])
  }

  /** `set` applied to each pair in turn. */
  function SetAll(list: seq<Pair>, es: seq<Pair>): seq<Pair>
    decreases |es|
  {
    if es == [] then list else SetAll(Set(list, es[0].0, es[0].1), es[1..])
  }

  /** The URL object after the save loop: only its search params, and with
      them its query, change, and the query is rewritten only when some
      record was set. */
  function SaveUrl(u: Url, ps: seq<Param>): (r: Url)
    requires WellFormed(u)
    ensures WellFormed(r) && r.params == SetAll(u.params, Entries(ps))
    ensures r.scheme == u.scheme && r.host == u.host && r.path == u.path && r.fragment == u.fragment
    ensures r.query == if Entries(ps) == [] then u.query else Some(FormSerialize(r.params))
    decreases |ps|
  {
    if ps == [] then u
    else
      var es := Entries(ps);
      assert KeyKept(ps[0]) ==> es[0] == Entry(ps[0]) && es[1..] == Entries(ps[1..]);
      assert !KeyKept(ps[0]) ==> es == Entries(ps[1..]);
      SaveUrl(if KeyKept(ps[0]) then SetParam(u, Trim(ps[0].key), ps[0].value) else u, ps[1..])
  }

  /** `finalUrl.replace(/^https?:\/\//, '')` */
  function StripScheme(s: string): (r: string)
    ensures s == r || s == "http://" + r || s == "https://" + r
    ensures !StartsWith(s, "http://") && !StartsWith(s, "https://") ==> r == s
  {
    if StartsWith(s, "http://") then s[7..]
    else if StartsWith(s, "https://") then s[8..]
    else s
  }

  /** `handleSave` for the `url` prop, the base and the records: `new URL`
      on the base may throw; otherwise the href after the save loop, with a
      leading `http://` or `https://` removed when the prop has no `http`
      prefix. */
  function Compose(url: string, baseUrl: string, ps: seq<Param>): Result<string, UrlError> {
    match Parse(baseUrl)
    case None => Failure(MalformedUrl)
    case Some(u) =>
      var href := ToString(SaveUrl(u, ps));
      Success(if StartsWith(url, "http") then href else StripScheme(href))
  }

  /** The pairs set are those of the records with a non-blank key, in
      order, each key trimmed and each value as it is. */
  lemma {:induction false} EntriesKept(ps: seq<Param>)
    ensures |Entries(ps)| == |NonBlank(ps)|
    ensures forall i :: 0 <= i < |Entries(ps)| ==> Entries(ps)[i] == Entry(NonBlank(ps)[i])
    decreases |ps|
  {
    if ps != [] {
      EntriesKept(ps[1..]);
      var e, n := Entries(ps[1..]), NonBlank(ps[1..]);
      if KeyKept(ps[0]) {
        assert Entries(ps) == [Entry(ps[0])] + e;
        assert NonBlank(ps) == [ps[0]] + n;
      } else {
        assert Entries(ps) == e;
        assert NonBlank(ps) == n;
      }
    }
  }

  /** A name no pair sets keeps its value and its count. */
  lemma {:induction false} SetAllUntouched(list: seq<Pair>, es: seq<Pair>, name: string)
    requires forall j :: 0 <= j < |es| ==> es[j].0 != name
    ensures Get(SetAll(list, es), name) == Get(list, name)
    ensures Count(SetAll(list, es), name) == Count(list, name)
    decreases |es|
  {
    if es != [] {
      SetOther(list, es[0].0, es[0].1, name);
      SetAllUntouched(Set(list, es[0].0, es[0].1), es[1..], name);
    }
  }

  /** Last write wins: the last pair with a name gives that name its value,
      and the name then occurs exactly once. */
  lemma {:induction false} SetAllLastWins(list: seq<Pair>, es: seq<Pair>, k: nat)
    requires k < |es|
    requires forall j :: k < j < |es| ==> es[j].0 != es[k].0
    ensures Get(SetAll(list, es), es[k].0) == Some(es[k].1)
    ensures Count(SetAll(list, es), es[k].0) == 1
    decreases k
  {
    var name := es[k].0;
    var next := Set(list, es[0].0, es[0].1);
    if k == 0 {
      SetSemantics(list, name, es[0].1);
      SetAllUntouched(next, es[1..], name);
    } else {
      SetAllLastWins(next, es[1..], k - 1);
    }
  }

  /** A name that was unique before the save is unique after it; in
      particular a save onto a base without a query never repeats a key. */
  lemma {:induction false} SetAllDistinct(list: seq<Pair>, es: seq<Pair>, name: string)
    requires Count(list, name) <= 1
    ensures Count(SetAll(list, es), name) <= 1
    decreases |es|
  {
    if es != [] {
      if es[0].0 == name {
        SetCount(list, name, es[0].1);
      } else {
        SetOther(list, es[0].0, es[0].1, name);
      }
      SetAllDistinct(Set(list, es[0].0, es[0].1), es[1..], name);
    }
  }

  /** Saving with an `http` prop and re-parsing the result, as the editor
      does on its next mount, gives back exactly the saved list. */
  lemma {:induction false} SaveReparse(s: EditorState, url: string, baseUrl: string, ps: seq<Param>)
    requires StartsWith(url, "http")
    requires Parse(baseUrl).Some? && StartsWith(Parse(baseUrl).value.scheme, "http")
    ensures Compose(url, baseUrl, ps).Success?
    ensures var (r, ok) := ParseInto(s, Compose(url, baseUrl, ps).value);
      ok && Pairs(r.parameters) == SetAll(Parse(baseUrl).value.params, Entries(ps))
  {
    var u := Parse(baseUrl).value;
    var v := SaveUrl(u, ps);
    var href := ToString(v);
    HrefStartsWithScheme(v, "http");
    ParseToString(v);
    assert FullUrl(href) == href;
  }

  /** Saving with a scheme-less prop onto an `https` base whose host does
      not itself begin with `http`, then re-parsing the result as the editor
      does on its next mount: the missing scheme comes back as `https://`
      and the saved list is read back exactly. */
  lemma {:induction false} SaveReparseSchemeless(s: EditorState, url: string, baseUrl: string, ps: seq<Param>)
    requires !StartsWith(url, "http")
    requires Parse(baseUrl).Some? && Parse(baseUrl).value.scheme == "https"
    requires !StartsWith(Parse(baseUrl).value.host, "http")
    ensures Compose(url, baseUrl, ps).Success?
    ensures var (r, ok) := ParseInto(s, Compose(url, baseUrl, ps).value);
      ok && Pairs(r.parameters) == SetAll(Parse(baseUrl).value.params, Entries(ps))
  {
    var u := Parse(baseUrl).value;
    var v := SaveUrl(u, ps);
    var rest := v.host + v.path + QueryText(v.query) + FragmentText(v.fragment);
    SaveStripsScheme(url, baseUrl, ps);
    HostFirst(v.host, v.path, QueryText(v.query), FragmentText(v.fragment));
    HrefParts(v);
    assert FullUrl(rest) == ToString(v);
    ParseToString(v);
    assert ParseInto(s, rest) == (ParsedState(s, v), true);
  }

  /** A host that does not begin with `http`, followed by a path, does not
      begin with `http` either: the path's `/` comes within four characters. */
  lemma {:induction false} HostFirst(host: string, path: string, q: string, f: string)
    requires |path| >= 1 && path[0] == '/' && !StartsWith(host, "http")
    ensures !StartsWith(host + path + q + f, "http")
  {
    var rest := host + path + q + f;
    if |host| >= 4 {
      assert rest[..4] == host[..4];
    } else {
      assert rest[|host|] == '/';
    }
  }

  /** The regular expression removes exactly `http://` or `https://`. */
  lemma {:induction false} StripSchemeOf(scheme: string, rest: string)
    requires scheme == "http" || scheme == "https"
    ensures StripScheme(scheme + "://" + rest) == rest
  {
    var s := scheme + "://" + rest;
    if scheme == "http" {
      assert s == "http://" + rest;
    } else {
      assert s == "https://" + rest;
      assert s[4] == 's';
    }
  }

  /** The href of a URL as its scheme, `://` and the rest. */
  lemma {:induction false} HrefParts(u: Url)
    ensures ToString(u) == u.scheme + "://" + (u.host + u.path + QueryText(u.query) + FragmentText(u.fragment))
  {
    var a, h, p, q, f := u.scheme + "://", u.host, u.path, QueryText(u.query), FragmentText(u.fragment);
    AppendAssoc(a, h, p);
    AppendAssoc(a, h + p, q);
    AppendAssoc(a, h + p + q, f);
  }

  /** With a scheme-less prop, an `http`/`https` URL is saved without its
      scheme. */
  lemma {:induction false} SaveStripsScheme(url: string, baseUrl: string, ps: seq<Param>)
    requires !StartsWith(url, "http")
    requires Parse(baseUrl).Some? && Parse(baseUrl).value.scheme in {"http", "https"}
    ensures var v := SaveUrl(Parse(baseUrl).value, ps);
      Compose(url, baseUrl, ps) == Success(v.host + v.path + QueryText(v.query) + FragmentText(v.fragment))
  {
    var v := SaveUrl(Parse(baseUrl).value, ps);
    HrefParts(v);
    StripSchemeOf(v.scheme, v.host + v.path + QueryText(v.query) + FragmentText(v.fragment));
  }

  // ---- the preview ----

  /** The `{ key, value }` pairs of a list of records. */
  function KeyValues(ps: seq<Param>): (r: seq<KeyValue>)
    ensures |r| == |ps| && forall k :: 0 <= k < |ps| ==> r[k] == KeyValue(ps[k].key, ps[k].value)
  {
    seq(|ps|, k requires 0 <= k < |ps| => KeyValue(ps[k].key, ps[k].value))
  }

  /** The preview line: the base, `?` when some record has a non-blank key,
      then `encodeURIComponent(key)=encodeURIComponent(value)` of each such
      record, untrimmed key included, joined by `&`. */
  function PreviewUrl(baseUrl: string, ps: seq<Param>): string {
    var mark := if exists k :: 0 <= k < |ps| && KeyKept(ps[k]) then "?" else "";
    baseUrl + mark + JoinPieces(KeyValues(NonBlank(ps)))
  }

  /** Without a non-blank key the preview is the base alone. */
  lemma {:induction false} PreviewBare(baseUrl: string, ps: seq<Param>)
    requires forall k :: 0 <= k < |ps| ==> !KeyKept(ps[k])
    ensures PreviewUrl(baseUrl, ps) == baseUrl
  {
    assert NonBlank(ps) == [];
    assert EncodePieces([]) == [];
  }

  /** With one, the preview is the base, `?` and a query in which every kept
      record, in order and with duplicates, decodes back to its own key and
      value. */
  lemma {:induction false} PreviewKeepsAll(baseUrl: string, ps: seq<Param>)
    requires exists k :: 0 <= k < |ps| && KeyKept(ps[k])
    ensures var query := JoinPieces(KeyValues(NonBlank(ps)));
      && PreviewUrl(baseUrl, ps) == baseUrl + "?" + query
      && |Split(query, '&')| == |NonBlank(ps)|
      && DecodePieces(Split(query, '&')) == Some(KeyValues(NonBlank(ps)))
  {
    var kept := NonBlank(ps);
    assert kept != [];
    DecodeJoinPieces(KeyValues(kept));
  }

  // ---- the component ----

  class Editor {
    /** The `url` prop the editor was opened on. */
    const url: string
    var baseUrl: string
    var parameters: seq<Param>
    var hasChanges: bool
    /** The next fresh record id. */
    var nextId: nat

    function State(): EditorState
      reads this
    {
      EditorState(baseUrl, parameters, hasChanges, nextId)
    }

    predicate Valid()
      reads this
    {
      IdsOk(State())
    }

    /** The `useState` initial values; mounting then runs `ResetChanges`. */
    constructor (url: string)
      ensures this.url == url && State() == EditorState("", [], false, 0) && Valid()
    {
      this.url := url;
      baseUrl := "";
      parameters := [];
      hasChanges := false;
      nextId := 0;
    }

    /** `parseUrl(urlString)`; `ok` is `false` when the fallback's decode
        throws out of it. */
    method ParseUrl(urlString: string) returns (ok: bool)
      requires Valid()
      modifies this
      ensures Valid()
      ensures (State(), ok) == ParseInto(old(State()), urlString)
    {
      ParseKeepsIds(State(), urlString);
      ok := true;
      if urlString == [] {
        return;
      }
      var fullUrl := urlString;
      if !StartsWith(fullUrl, "http") {
        fullUrl := "https://" + fullUrl;
      }
      assert fullUrl == FullUrl(urlString);
      var parsed := Parse(fullUrl);
      if parsed.Some? {
        LoadParsed(parsed.value);
      } else {
        ok := LoadFallback(urlString);
      }
    }

    /** The `try` branch after `new URL` succeeded: the base, then one
        record per search param, in order, then the cleared flag. */
    method LoadParsed(urlObj: Url)
      modifies this
      ensures State() == ParsedState(old(State()), urlObj)
    {
      var first := nextId;
      var params: seq<Param> := [];
      var i := 0;
      while i < |urlObj.params|
        invariant 0 <= i <= |urlObj.params|
        invariant params == Records(urlObj.params[..i], first)
      {
        var pair := urlObj.params[i];
        RecordsSnoc(urlObj.params, first, i);
        params := params + [Original(first + i, pair.0, pair.1)];
        i := i + 1;
      }
      assert urlObj.params[..i] == urlObj.params;
      baseUrl := ParseBase(urlObj);
      parameters := params;
      nextId := first + |urlObj.params|;
      hasChanges := false;
    }

    /** The `catch` branch: split at `?`, set the base, then decode the
        `&`-pieces of the query, if there is one; `false` when a decode
        throws. */
    method LoadFallback(urlString: string) returns (ok: bool)
      modifies this
      ensures (State(), ok) == FallbackInto(old(State()), urlString)
    {
      var parts := Split(urlString, '?');
      baseUrl := parts[0];
      var queryString := if |parts| > 1 then parts[1] else "";
      assert queryString == FallbackQuery(urlString);
      ok := true;
      if queryString != [] {
        var pairs := FallbackPairs(Split(queryString, '&'));
        if pairs.None? {
          ok := false;
          return;
        }
        parameters := Records(pairs.value, nextId);
        nextId := nextId + |pairs.value|;
      }
    }

    /** `resetChanges`, and the mount effect: parse the prop again. */
    method ResetChanges() returns (ok: bool)
      requires Valid()
      modifies this
      ensures Valid()
      ensures (State(), ok) == ParseInto(old(State()), url)
    {
      ok := ParseUrl(url);
    }

    /** `updateParameter(id, field, value)` */
    method UpdateParameter(id: nat, field: Field, value: string)
      requires Valid()
      modifies this
      ensures Valid()
      ensures State() == old(State()).(parameters := Updated(old(parameters), id, field, value), hasChanges := true)
    {
      parameters := Updated(parameters, id, field, value);
      hasChanges := true;
    }

    /** `addParameter`: a blank row with a fresh id at the end. */
    method AddParameter()
      requires Valid()
      modifies this
      ensures Valid()
      ensures State() == old(State()).(parameters := old(parameters) + [Blank(old(nextId))],
        hasChanges := true, nextId := old(nextId) + 1)
    {
      AddKeepsIds(parameters, nextId);
      parameters := parameters + [Blank(nextId)];
      nextId := nextId + 1;
      hasChanges := true;
    }

    /** `removeParameter(id)` */
    method RemoveParameter(id: nat)
      requires Valid()
      modifies this
      ensures Valid()
      ensures State() == old(State()).(parameters := Remaining(old(parameters), id), hasChanges := true)
    {
      RemainingKeepsIds(parameters, id, nextId);
      parameters := Remaining(parameters, id);
      hasChanges := true;
    }

    /** The base URL input's `onChange`. */
    method EditBaseUrl(value: string)
      requires Valid()
      modifies this
      ensures Valid()
      ensures State() == old(State()).(baseUrl := value, hasChanges := true)
    {
      baseUrl := value;
      hasChanges := true;
    }

    /** `handleSave`: what is handed to `onSave`, or the error of `new URL`. */
    method HandleSave() returns (r: Result<string, UrlError>)
      ensures r == Compose(url, baseUrl, parameters)
    {
      var parsed := Parse(baseUrl);
      if parsed.None? {
        return Failure(MalformedUrl);
      }
      var urlObj := parsed.value;
      ghost var start := urlObj;
      var i := 0;
      while i < |parameters|
        invariant 0 <= i <= |parameters|
        invariant WellFormed(urlObj)
        invariant SaveUrl(urlObj, parameters[i..]) == SaveUrl(start, parameters)
      {
        var param := parameters[i];
        assert parameters[i..][0] == param && parameters[i..][1..] == parameters[i + 1..];
        TrimmedKeyKept(param);
        if Trim(param.key) != [] {
          urlObj := SetParam(urlObj, Trim(param.key), param.value);
        }
        i := i + 1;
      }
      assert parameters[i..] == [];
      var finalUrl := ToString(urlObj);
      if !StartsWith(url, "http") {
        finalUrl := StripScheme(finalUrl);
      }
      r := Success(finalUrl);
    }

    /** The preview line under the editor. */
    function Preview(): (r: string)
      reads this
      ensures StartsWith(r, baseUrl)
    {
      StartsWithAppend(baseUrl, PreviewUrl(baseUrl, parameters)[|baseUrl|..], baseUrl);
      PreviewUrl(baseUrl, parameters)
    }
  }
}
