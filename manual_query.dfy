/** The hand-rolled query handling the debug panel and the parameter
    editor share: a query string cut with `split('&')`, each piece cut with
    `split('=')` and both halves passed through `decodeURIComponent`; and, the
    other way, `encodeURIComponent(key) + '=' + encodeURIComponent(value)`. */
module ManualQuery {
  import opened Wrappers
  import opened Strings
  import opened Encoding

  /** One row of the request table, `{ key, value }`. */
  datatype KeyValue = KeyValue(key: string, value: string)

  /** One `&`-piece: `const [key, value] = param.split('=')`, both sides passed
      through `decodeURIComponent` (a missing value is `''`); `None` where a
      decode throws. Text after a second `=` is dropped by the destructuring. */
  function DecodePiece(piece: string): Option<KeyValue> {
    var kv := Split(piece, '=');
    var value := if |kv| > 1 then kv[1] else "";
    match (DecodeUriComponent(kv[0]), DecodeUriComponent(value))
    case (Some(k), Some(v)) => Some(KeyValue(k, v))
    case _ => None
  }

  /** `paramsString.split('&').map(...)`: `None` when any piece throws, so a
      partial list never escapes. */
  function DecodePieces(pieces: seq<string>): (r: Option<seq<KeyValue>>)
    ensures r.Some? <==> forall k :: 0 <= k < |pieces| ==> DecodePiece(pieces[k]).Some?
    ensures r.Some? ==> |r.value| == |pieces|
    ensures r.Some? ==> forall k :: 0 <= k < |pieces| ==> r.value[k] == DecodePiece(pieces[k]).value
    decreases |pieces|
  {
    if pieces == [] then Some([])
    else
      match (DecodePiece(pieces[0]), DecodePieces(pieces[1..]))
      case (Some(p), Some(ps)) => Some([p] + ps)
      case _ => None
  }

  /** A piece without `=` has the value `""`. */
  lemma {:induction false} PieceWithoutValue(piece: string)
    requires '=' !in piece
    ensures DecodePiece(piece).Some? <==> DecodeUriComponent(piece).Some?
    ensures DecodePiece(piece).Some? ==> DecodePiece(piece).value == KeyValue(DecodeUriComponent(piece).value, "")
  {
    SplitNoSeparator(piece, '=');
  }

  /** The value is the text between the first and the second `=`; whatever
      follows a second `=` is dropped. */
  lemma {:induction false} PieceValue(key: string, value: string, t: string)
    requires '=' !in key && '=' !in value
    requires t == [] || t[0] == '='
    ensures DecodePiece(key + "=" + value + t).Some?
      <==> DecodeUriComponent(key).Some? && DecodeUriComponent(value).Some?
    ensures DecodePiece(key + "=" + value + t).Some? ==>
      DecodePiece(key + "=" + value + t).value
        == KeyValue(DecodeUriComponent(key).value, DecodeUriComponent(value).value)
  {
    assert key + "=" + value + t == key + ['='] + (value + t);
    SplitAfterPiece(key, '=', value + t);
    if t == [] {
      assert value + t == value;
      SplitNoSeparator(value, '=');
    } else {
      assert value + t == value + ['='] + t[1..];
      SplitAfterPiece(value, '=', t[1..]);
    }
  }

  // ---- the other direction: pairs to `k=v` pieces ----

  function EncodePiece(p: KeyValue): (r: string)
    ensures '&' !in r && '?' !in r
  {
    EncodeUriComponent(p.key) + "=" + EncodeUriComponent(p.value)
  }

  function EncodePieces(params: seq<KeyValue>): (r: seq<string>)
    ensures |r| == |params|
    ensures forall k :: 0 <= k < |params| ==> r[k] == EncodePiece(params[k])
    decreases |params|
  {
    if params == [] then [] else [EncodePiece(params[0])] + EncodePieces(params[1..])
  }

  /** A query string of `encodeURIComponent`-escaped pairs. */
  function JoinPieces(params: seq<KeyValue>): string {
    Join(EncodePieces(params), "&")
  }

  lemma {:induction false} JoinNoChar(parts: seq<string>, sep: string, c: char)
    requires c !in sep
    requires forall k :: 0 <= k < |parts| ==> c !in parts[k]
    ensures c !in Join(parts, sep)
    decreases |parts|
  {
    if |parts| > 1 {
      JoinNoChar(parts[1..], sep, c);
    }
  }

  lemma {:induction false} DecodeEncodePiece(p: KeyValue)
    ensures DecodePiece(EncodePiece(p)) == Some(p)
  {
    DecodeEncodeUriComponent(p.key);
    DecodeEncodeUriComponent(p.value);
    PieceValue(EncodeUriComponent(p.key), EncodeUriComponent(p.value), []);
    assert EncodePiece(p) == EncodeUriComponent(p.key) + "=" + EncodeUriComponent(p.value) + [];
  }

  /** Splitting a non-empty list of encoded pieces on `&` and decoding each
      gives the pairs back, in order and with every duplicate. */
  lemma {:induction false} DecodeJoinPieces(params: seq<KeyValue>)
    requires |params| >= 1
    ensures JoinPieces(params) != []
    ensures Split(JoinPieces(params), '&') == EncodePieces(params)
    ensures DecodePieces(Split(JoinPieces(params), '&')) == Some(params)
  {
    var parts := EncodePieces(params);
    var query := JoinPieces(params);
    SplitJoin(parts, '&');
    forall k | 0 <= k < |parts|
      ensures DecodePiece(parts[k]) == Some(params[k])
    {
      DecodeEncodePiece(params[k]);
    }
    assert query != [] by {
      assert parts[0] == EncodePiece(params[0]);
      if |parts| == 1 {
        assert query == parts[0];
      } else {
        assert query == parts[0] + "&" + Join(parts[1..], "&");
      }
    }
    var d := DecodePieces(parts);
    assert d.Some? && d.value == params;
  }
}
