/**
 * `encodeURIComponent` as the image proxy link uses it: every character outside the
 * unreserved set A-Z a-z 0-9 - _ . ! ~ * ' ( ) is written as the UTF-8 bytes of its code
 * point, each byte as `%` and two upper-case hexadecimal digits (section 15.1.3.4 of
 * ECMA-262, 5th edition). Its partner is percent-decoding, which turns the encoded text
 * back into the UTF-8 bytes of the original.
 */
module UriEncoding {
  import opened Wrappers

  type Byte = b: int | 0 <= b < 256

  // ----- UTF-8 -----

  /** The UTF-8 bytes of one code point (section 3 of RFC 3629). */
  function Utf8Char(c: char): (r: seq<Byte>)
    ensures 1 <= |r| <= 4
    ensures |r| == 1 <==> (c as int) < 0x80
    ensures |r| == 1 ==> r[0] == c as int
    ensures |r| > 1 ==> 0xC0 <= r[0] < 0xF8 && forall i :: 1 <= i < |r| ==> 0x80 <= r[i] < 0xC0
  {
    var n := c as int;
    if n < 0x80 then [n]
    else if n < 0x800 then [0xC0 + n / 64, 0x80 + n % 64]
    else if n < 0x10000 then [0xE0 + n / 4096, 0x80 + (n / 64) % 64, 0x80 + n % 64]
    else [0xF0 + n / 262144, 0x80 + (n / 4096) % 64, 0x80 + (n / 64) % 64, 0x80 + n % 64]
  }

  /** The UTF-8 bytes of a string, character by character. */
  function Utf8(s: string): (r: seq<Byte>)
    ensures |r| >= |s|
    decreases |s|
  {
    if s == [] then [] else Utf8Char(s[0]) + Utf8(s[1..])
  }

  // ----- hexadecimal -----

  /** An upper-case hexadecimal digit. */
  function HexDigit(d: nat): (c: char)
    requires d < 16
    ensures '0' <= c <= '9' || 'A' <= c <= 'F'
  {
    if d < 10 then ('0' as int + d) as char else ('A' as int + d - 10) as char
  }

  predicate IsHex(c: char) {
    '0' <= c <= '9' || 'A' <= c <= 'F' || 'a' <= c <= 'f'
  }

  function HexValue(c: char): (d: nat)
    requires IsHex(c)
    ensures d < 16
  {
    if '0' <= c <= '9' then c as int - '0' as int
    else if 'A' <= c <= 'F' then c as int - 'A' as int + 10
    else c as int - 'a' as int + 10
  }

  lemma HexRoundTrip(d: nat)
    requires d < 16
    ensures IsHex(HexDigit(d)) && HexValue(HexDigit(d)) == d
  {
  }

  // ----- encoding -----

  /** The characters `encodeURIComponent` leaves as they are. */
  predicate Unreserved(c: char) {
    || 'A' <= c <= 'Z' || 'a' <= c <= 'z' || '0' <= c <= '9'
    || c == '-' || c == '_' || c == '.' || c == '!' || c == '~' || c == '*' || c == '\'' || c == '(' || c == ')'
  }

  /** Text made only of unreserved characters and `%`: safe inside a query parameter. */
  predicate UriSafe(r: string) {
    forall i :: 0 <= i < |r| ==> Unreserved(r[i]) || r[i] == '%'
  }

  /** Safe texts stay safe when joined. */
  lemma UriSafeConcat(a: string, b: string)
    requires UriSafe(a) && UriSafe(b)
    ensures UriSafe(a + b)
  {
    forall i | 0 <= i < |a + b| ensures Unreserved((a + b)[i]) || (a + b)[i] == '%' {
      if i >= |a| {
        assert (a + b)[i] == b[i - |a|];
      }
    }
  }

  /** One byte as `%XY`. */
  function PercentByte(b: Byte): (r: string)
    ensures |r| == 3 && r[0] == '%' && Unreserved(r[1]) && Unreserved(r[2])
  {
    ['%', HexDigit(b / 16), HexDigit(b % 16)]
  }

  /** Bytes as consecutive `%XY` triples. */
  function PercentBytes(bs: seq<Byte>): (r: string)
    ensures |r| == 3 * |bs|
    decreases |bs|
  {
    if bs == [] then [] else PercentByte(bs[0]) + PercentBytes(bs[1..])
  }

  lemma {:induction false} PercentBytesSafe(bs: seq<Byte>)
    ensures UriSafe(PercentBytes(bs))
    decreases |bs|
  {
    if bs != [] {
      PercentBytesSafe(bs[1..]);
      UriSafeConcat(PercentByte(bs[0]), PercentBytes(bs[1..]));
    }
  }

  /** One character as `encodeURIComponent` writes it. */
  function EncodeChar(c: char): (r: string)
    ensures Unreserved(c) ==> r == [c]
    ensures !Unreserved(c) ==> |r| >= 3 && r[0] == '%'
  {
    if Unreserved(c) then [c] else PercentBytes(Utf8Char(c))
  }

  /**
   * `encodeURIComponent(s)`: each character encoded in turn, so the result is at least as
   * long as `s`.
   */
  function EncodeUriComponent(s: string): (r: string)
    ensures |r| >= |s|
    decreases |s|
  {
    if s == [] then [] else EncodeChar(s[0]) + EncodeUriComponent(s[1..])
  }

  /**
   * The encoded text is safe inside a query parameter: it holds only unreserved characters
   * and `%`, so no `&`, `=`, `#`, `?`, `/` or space.
   */
  lemma {:induction false} EncodeSafe(s: string)
    ensures UriSafe(EncodeUriComponent(s))
    decreases |s|
  {
    if s != [] {
      EncodeSafe(s[1..]);
      if !Unreserved(s[0]) {
        PercentBytesSafe(Utf8Char(s[0]));
      }
      UriSafeConcat(EncodeChar(s[0]), EncodeUriComponent(s[1..]));
    }
  }

  /** Encoding works character by character, so it distributes over concatenation. */
  lemma {:induction false} EncodeAppend(a: string, b: string)
    ensures EncodeUriComponent(a + b) == EncodeUriComponent(a) + EncodeUriComponent(b)
    decreases |a|
  {
    if a == [] {
      assert a + b == b;
    } else {
      EncodeStep(a, b);
      EncodeAppend(a[1..], b);
      Regroup(EncodeChar(a[0]), EncodeUriComponent(a[1..]), EncodeUriComponent(b));
    }
  }

  /** Encoding `a + b` starts with the encoding of `a`'s first character. */
  lemma EncodeStep(a: string, b: string)
    requires a != []
    ensures EncodeUriComponent(a + b) == EncodeChar(a[0]) + EncodeUriComponent(a[1..] + b)
    ensures EncodeUriComponent(a) == EncodeChar(a[0]) + EncodeUriComponent(a[1..])
  {
    var c := a + b;
    assert c[0] == a[0] && c[1..] == a[1..] + b;
  }

  lemma Regroup(e: string, x: string, y: string)
    ensures e + (x + y) == (e + x) + y
  {
  }

  /** A string of unreserved characters is its own encoding. */
  lemma {:induction false} EncodeUnreservedIsIdentity(s: string)
    requires forall i :: 0 <= i < |s| ==> Unreserved(s[i])
    ensures EncodeUriComponent(s) == s
    decreases |s|
  {
    if s != [] {
      EncodeUnreservedIsIdentity(s[1..]);
      assert [s[0]] + s[1..] == s;
    }
  }

  // ----- decoding -----

  /** Puts `bs` in front of a decoded byte sequence; a failed decode stays failed. */
  function Prepend(bs: seq<Byte>, o: Option<seq<Byte>>): Option<seq<Byte>> {
    match o
    case None => None
    case Some(rest) => Some(bs + rest)
  }

  /**
   * Percent-decoding to bytes: `%XY` is the byte XY, an ASCII character is its own code,
   * and a stray `%` or a character beyond ASCII is an error.
   */
  function PercentDecode(t: string): (r: Option<seq<Byte>>)
    ensures r.Some? ==> |r.value| <= |t|
    decreases |t|
  {
    if t == [] then Some([])
    else if t[0] == '%' then
      if 3 <= |t| && IsHex(t[1]) && IsHex(t[2]) then
        Prepend([HexValue(t[1]) * 16 + HexValue(t[2])], PercentDecode(t[3..]))
      else None
    else if (t[0] as int) < 0x80 then Prepend([t[0] as int], PercentDecode(t[1..]))
    else None
  }

  /** One `%XY` triple decodes to its byte. */
  lemma {:induction false} DecodePercentByte(b: Byte, rest: string)
    ensures PercentDecode(PercentByte(b) + rest) == Prepend([b], PercentDecode(rest))
  {
    var t := PercentByte(b) + rest;
    HexRoundTrip(b / 16);
    HexRoundTrip(b % 16);
    assert t[1] == HexDigit(b / 16) && t[2] == HexDigit(b % 16);
    assert t[3..] == rest;
  }

  /** Prepending twice is prepending the concatenation. */
  lemma {:induction false} PrependTwice(a: seq<Byte>, b: seq<Byte>, o: Option<seq<Byte>>)
    ensures Prepend(a, Prepend(b, o)) == Prepend(a + b, o)
  {
    match o
    case None =>
    case Some(x) => assert a + (b + x) == (a + b) + x;
  }

  lemma {:induction false} DecodePercentBytes(bs: seq<Byte>, rest: string)
    ensures PercentDecode(PercentBytes(bs) + rest) == Prepend(bs, PercentDecode(rest))
    decreases |bs|
  {
    if bs == [] {
      assert PercentBytes(bs) + rest == rest;
      match PercentDecode(rest)
      case None =>
      case Some(x) => assert bs + x == x;
    } else {
      var tail := PercentBytes(bs[1..]) + rest;
      assert PercentBytes(bs) + rest == PercentByte(bs[0]) + tail;
      DecodePercentByte(bs[0], tail);
      DecodePercentBytes(bs[1..], rest);
      PrependTwice([bs[0]], bs[1..], PercentDecode(rest));
      assert [bs[0]] + bs[1..] == bs;
    }
  }

  lemma {:induction false} DecodeEncodedChar(c: char, rest: string)
    ensures PercentDecode(EncodeChar(c) + rest) == Prepend(Utf8Char(c), PercentDecode(rest))
  {
    if Unreserved(c) {
      var t := [c] + rest;
      assert t[0] == c && t[1..] == rest;
    } else {
      DecodePercentBytes(Utf8Char(c), rest);
    }
  }

  /** Decoding the encoded text gives back the UTF-8 bytes of the original string. */
  lemma {:induction false} DecodeEncode(s: string)
    ensures PercentDecode(EncodeUriComponent(s)) == Some(Utf8(s))
    decreases |s|
  {
    if s != [] {
      DecodeEncode(s[1..]);
      DecodeEncodedChar(s[0], EncodeUriComponent(s[1..]));
    }
  }
}
