/** Percent-encoding and -decoding, as an encode/decode pair whose exact bytes
    do not matter: only ASCII characters are escaped (as `%HH`, upper-case hex),
    non-ASCII characters pass through unchanged, and every escape decodes to
    the one character with that code. The pair covers
    - the application/x-www-form-urlencoded parser (section 5.1) and serializer
      (section 5.2) of the WHATWG URL Standard, used by `URLSearchParams`, and
    - `encodeURIComponent` / `decodeURIComponent` of ECMAScript, whose decoder
      throws on a malformed escape. */
module Encoding {
  import opened Wrappers

  predicate IsAsciiAlphanumeric(c: char) {
    'a' <= c <= 'z' || 'A' <= c <= 'Z' || '0' <= c <= '9'
  }

  predicate IsHexDigit(c: char) {
    '0' <= c <= '9' || 'a' <= c <= 'f' || 'A' <= c <= 'F'
  }

  function HexValue(c: char): (v: nat)
    requires IsHexDigit(c)
    ensures v < 16
  {
    if '0' <= c <= '9' then c as int - '0' as int
    else if 'a' <= c <= 'f' then c as int - 'a' as int + 10
    else c as int - 'A' as int + 10
  }

  function HexDigit(d: nat): (c: char)
    requires d < 16
    ensures IsHexDigit(c) && HexValue(c) == d
  {
    if d < 10 then ('0' as int + d) as char else ('A' as int + d - 10) as char
  }

  /** The three-character escape `%HH` of an ASCII character. */
  function Escape(c: char): (e: string)
    requires c < '\U{80}'
    ensures |e| == 3 && e[0] == '%' && IsHexDigit(e[1]) && IsHexDigit(e[2])
  {
    ['%', HexDigit(c as int / 16), HexDigit(c as int % 16)]
  }

  /** The character an escape `%hl` stands for. */
  function Unescape(h: char, l: char): char
    requires IsHexDigit(h) && IsHexDigit(l)
  {
    (16 * HexValue(h) + HexValue(l)) as char
  }

  lemma {:induction false} UnescapeEscape(c: char)
    requires c < '\U{80}'
    ensures Unescape(Escape(c)[1], Escape(c)[2]) == c
  {
    var n := c as int;
    assert 16 * (n / 16) + n % 16 == n;
  }

  /** None of the characters that delimit a URL's query or its pairs. */
  predicate NoDelimiters(s: string) {
    '&' !in s && '=' !in s && '?' !in s && '#' !in s
  }

  // ---- application/x-www-form-urlencoded ----

  /** The characters the form serializer leaves as they are. */
  predicate IsFormUnreserved(c: char) {
    IsAsciiAlphanumeric(c) || c == '*' || c == '-' || c == '.' || c == '_'
  }

  function FormEncodeChar(c: char): (e: string)
    ensures NoDelimiters(e)
  {
    if IsFormUnreserved(c) then [c]
    else if c == ' ' then "+"
    else if c < '\U{80}' then Escape(c)
    else [c]
  }

  /** The form serializer on one name or value: a space becomes `+`. */
  function FormEncode(s: string): (r: string)
    ensures NoDelimiters(r)
    decreases |s|
  {
    if s == [] then [] else FormEncodeChar(s[0]) + FormEncode(s[1..])
  }

  /** The form parser's decoding of one name or value: `+` becomes a space and
      a well-formed escape its character; anything else is kept, so this
      decoder never fails. */
  function FormDecode(s: string): string
    decreases |s|
  {
    if s == [] then []
    else if s[0] == '+' then " " + FormDecode(s[1..])
    else if s[0] == '%' && |s| >= 3 && IsHexDigit(s[1]) && IsHexDigit(s[2]) then
      [Unescape(s[1], s[2])] + FormDecode(s[3..])
    else [s[0]] + FormDecode(s[1..])
  }

  lemma {:induction false} FormDecodeChar(c: char, t: string)
    ensures FormDecode(FormEncodeChar(c) + t) == [c] + FormDecode(t)
  {
    var e := FormEncodeChar(c);
    var s := e + t;
    if !IsFormUnreserved(c) && c != ' ' && c < '\U{80}' {
      assert s[0] == '%' && s[1] == e[1] && s[2] == e[2];
      assert s[3..] == t;
      UnescapeEscape(c);
    } else {
      assert s[1..] == t;
    }
  }

  /** Decoding undoes the form serializer. */
  lemma {:induction false} FormDecodeEncode(s: string)
    ensures FormDecode(FormEncode(s)) == s
    decreases |s|
  {
    if s != [] {
      FormDecodeEncode(s[1..]);
      FormDecodeChar(s[0], FormEncode(s[1..]));
      assert s == [s[0]] + s[1..];
    }
  }

  // ---- encodeURIComponent / decodeURIComponent ----

  /** The characters `encodeURIComponent` leaves as they are. */
  predicate IsUriUnreserved(c: char) {
    IsAsciiAlphanumeric(c) || c == '-' || c == '_' || c == '.' || c == '!'
    || c == '~' || c == '*' || c == '\'' || c == '(' || c == ')'
  }

  function UriEncodeChar(c: char): (e: string)
    ensures NoDelimiters(e)
  {
    if IsUriUnreserved(c) || c >= '\U{80}' then [c] else Escape(c)
  }

  /** `encodeURIComponent(s)`; a space becomes `%20`. */
  function EncodeUriComponent(s: string): (r: string)
    ensures NoDelimiters(r)
    decreases |s|
  {
    if s == [] then [] else UriEncodeChar(s[0]) + EncodeUriComponent(s[1..])
  }

  /** `decodeURIComponent(s)`: `None` where it throws, on a `%` that is not
      followed by two hex digits. `+` is kept. */
  function DecodeUriComponent(s: string): Option<string>
    decreases |s|
  {
    if s == [] then Some([])
    else if s[0] == '%' then
      if |s| >= 3 && IsHexDigit(s[1]) && IsHexDigit(s[2]) then
        match DecodeUriComponent(s[3..])
        case Some(r) => Some([Unescape(s[1], s[2])] + r)
        case None => None
      else None
    else
      match DecodeUriComponent(s[1..])
      case Some(r) => Some([s[0]] + r)
      case None => None
  }

  /** Text without `%` decodes to itself. */
  lemma {:induction false} DecodeUriComponentPlain(s: string)
    requires '%' !in s
    ensures DecodeUriComponent(s) == Some(s)
    decreases |s|
  {
    if s != [] {
      DecodeUriComponentPlain(s[1..]);
      assert s == [s[0]] + s[1..];
    }
  }

  /** A prefix without `%` is copied in front of the decoded rest. */
  lemma {:induction false} DecodeUriComponentAfterPlain(a: string, b: string)
    requires '%' !in a
    ensures DecodeUriComponent(a + b).Some? <==> DecodeUriComponent(b).Some?
    ensures DecodeUriComponent(b).Some? ==> DecodeUriComponent(a + b) == Some(a + DecodeUriComponent(b).value)
    decreases |a|
  {
    if a == [] {
      assert a + b == b;
      if DecodeUriComponent(b).Some? {
        assert a + DecodeUriComponent(b).value == DecodeUriComponent(b).value;
      }
    } else {
      DecodeUriComponentAfterPlain(a[1..], b);
      assert (a + b)[0] == a[0] && (a + b)[1..] == a[1..] + b;
      if DecodeUriComponent(b).Some? {
        var d := DecodeUriComponent(b).value;
        assert a + d == [a[0]] + (a[1..] + d);
      }
    }
  }

  /** A well-formed escape decodes to its character in front of the decoded rest. */
  lemma {:induction false} DecodeUriComponentEscape(h: char, l: char, b: string)
    requires IsHexDigit(h) && IsHexDigit(l)
    ensures DecodeUriComponent(['%', h, l] + b).Some? <==> DecodeUriComponent(b).Some?
    ensures DecodeUriComponent(b).Some? ==>
      DecodeUriComponent(['%', h, l] + b) == Some([Unescape(h, l)] + DecodeUriComponent(b).value)
  {
    assert (['%', h, l] + b)[3..] == b;
  }

  /** Decoding undoes `encodeURIComponent`: it never throws on its output. */
  lemma {:induction false} DecodeEncodeUriComponent(s: string)
    ensures DecodeUriComponent(EncodeUriComponent(s)) == Some(s)
    decreases |s|
  {
    if s != [] {
      DecodeEncodeUriComponent(s[1..]);
      var c, t := s[0], EncodeUriComponent(s[1..]);
      var e := UriEncodeChar(c);
      var x := e + t;
      if IsUriUnreserved(c) || c >= '\U{80}' {
        assert x[1..] == t;
      } else {
        assert x[0] == '%' && x[1] == e[1] && x[2] == e[2];
        assert x[3..] == t;
        UnescapeEscape(c);
      }
      assert s == [s[0]] + s[1..];
    }
  }
}
