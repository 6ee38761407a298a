/**
 * The application/x-www-form-urlencoded encoding of section 17.13.4.1 of
 * the HTML 4.01 specification, as `URLEncoder.encode(value, "UTF-8")`
 * applies it to a path-variable value: letters, digits and `.-*_` stay,
 * a space becomes `+`, every other character becomes the `%XY` escapes
 * of its UTF-8 bytes (upper-case hexadecimal). FormDecode is its inverse.
 */
module UrlForm {
  import opened Types

  /** Characters URLEncoder leaves as they are. */
  predicate Unreserved(c: char) {
    ('a' <= c <= 'z') || ('A' <= c <= 'Z') || ('0' <= c <= '9')
    || c == '.' || c == '-' || c == '*' || c == '_'
  }

  /** Characters that can occur in an encoded value. */
  predicate UrlSafe(c: char) {
    Unreserved(c) || c == '+' || c == '%'
  }

  /** Upper-case hexadecimal digit of a value below 16. */
  function HexDigit(v: int): (c: char)
    requires 0 <= v < 16
    ensures '0' <= c <= '9' || 'A' <= c <= 'F'
    ensures Unreserved(c)
  {
    if v < 10 then ('0' as int + v) as char else ('A' as int + v - 10) as char
  }

  /** Value of a hexadecimal digit of either case, or -1. */
  function HexValue(c: char): int {
    if '0' <= c <= '9' then c as int - '0' as int
    else if 'A' <= c <= 'F' then c as int - 'A' as int + 10
    else if 'a' <= c <= 'f' then c as int - 'a' as int + 10
    else -1
  }

  /** The UTF-8 encoding of one Unicode scalar value. */
  function Utf8(c: char): (bs: seq<Byte>)
    ensures 1 <= |bs| <= 4
  {
    var n := c as int;
    if n < 0x80 then [n]
    else if n < 0x800 then [0xC0 + n / 0x40, 0x80 + n % 0x40]
    else if n < 0x10000 then [0xE0 + n / 0x1000, 0x80 + (n / 0x40) % 0x40, 0x80 + n % 0x40]
    else [0xF0 + n / 0x40000, 0x80 + (n / 0x1000) % 0x40, 0x80 + (n / 0x40) % 0x40, 0x80 + n % 0x40]
  }

  /** `%XY` for every byte. */
  function Percent(bs: seq<Byte>): (r: string)
    ensures |r| == 3 * |bs|
    ensures forall i :: 0 <= i < |r| ==> UrlSafe(r[i])
  {
    if bs == [] then ""
    else ['%', HexDigit(bs[0] / 16), HexDigit(bs[0] % 16)] + Percent(bs[1..])
  }

  function EncodeChar(c: char): string {
    if Unreserved(c) then [c]
    else if c == ' ' then "+"
    else Percent(Utf8(c))
  }

  /** `URLEncoder.encode(s, "UTF-8")`. */
  function FormEncode(s: string): (r: string)
    ensures forall i :: 0 <= i < |r| ==> UrlSafe(r[i])
  {
    if s == [] then ""
    else EncodeChar(s[0]) + FormEncode(s[1..])
  }

  // ---------------------------------------------------------------------
  // The inverse

  /** The byte written as `%XY` at position i of t, if there is one. */
  function EscapedByte(t: string, i: nat): Option<Byte> {
    if i + 3 <= |t| && t[i] == '%' && HexValue(t[i + 1]) >= 0 && HexValue(t[i + 2]) >= 0
    then Some(HexValue(t[i + 1]) * 16 + HexValue(t[i + 2]))
    else None
  }

  /** The low six bits of a UTF-8 continuation byte escaped at position i. */
  function Continuation(t: string, i: nat): Option<int> {
    match EscapedByte(t, i)
    case Some(b) => if 0x80 <= b < 0xC0 then Some(b - 0x80) else None
    case None => None
  }

  predicate IsScalar(n: int) {
    (0 <= n < 0xD800) || (0xE000 <= n < 0x110000)
  }

  function Scalar(n: int, width: nat): Option<(char, nat)> {
    if IsScalar(n) then Some((n as char, width)) else None
  }

  /** Decodes the escaped UTF-8 sequence at the front of t: the character and the length it used. */
  function DecodeEscape(t: string): (r: Option<(char, nat)>)
    ensures r.Some? ==> 3 <= r.value.1 <= |t|
  {
    match EscapedByte(t, 0)
    case None => None
    case Some(b0) =>
      if b0 < 0x80 then Some((b0 as char, 3))
      else if 0xC0 <= b0 < 0xE0 then
        match Continuation(t, 3)
        case None => None
        case Some(x1) => Scalar((b0 - 0xC0) * 0x40 + x1, 6)
      else if 0xE0 <= b0 < 0xF0 then
        match (Continuation(t, 3), Continuation(t, 6))
        case (Some(x1), Some(x2)) => Scalar((b0 - 0xE0) * 0x1000 + x1 * 0x40 + x2, 9)
        case _ => None
      else if 0xF0 <= b0 < 0xF8 then
        match (Continuation(t, 3), Continuation(t, 6), Continuation(t, 9))
        case (Some(x1), Some(x2), Some(x3)) =>
          Scalar((b0 - 0xF0) * 0x40000 + x1 * 0x1000 + x2 * 0x40 + x3, 12)
        case _ => None
      else None
  }

  function Prepend(c: char, r: Option<string>): Option<string> {
    match r
    case Some(s) => Some([c] + s)
    case None => None
  }

  /** The form decoding: `+` is a space, `%XY…` escapes are UTF-8; None for a malformed escape. */
  function FormDecode(t: string): Option<string>
    decreases |t|
  {
    if t == [] then Some("")
    else if t[0] == '+' then Prepend(' ', FormDecode(t[1..]))
    else if t[0] == '%' then
      match DecodeEscape(t)
      case None => None
      case Some(e) => Prepend(e.0, FormDecode(t[e.1..]))
    else Prepend(t[0], FormDecode(t[1..]))
  }

  // ---------------------------------------------------------------------
  // Round trip

  lemma HexRoundTrip(v: int)
    requires 0 <= v < 16
    ensures HexValue(HexDigit(v)) == v
  {
  }

  /** The i-th escape of Percent(bs), followed by anything, reads back as bs[i]. */
  lemma {:induction false} EscapedByteOfPercent(bs: seq<Byte>, rest: string, i: nat)
    requires i < |bs|
    ensures EscapedByte(Percent(bs) + rest, 3 * i) == Some(bs[i])
  {
    if i == 0 {
      var t := Percent(bs) + rest;
      var b := bs[0];
      assert t[0] == '%' && t[1] == HexDigit(b / 16) && t[2] == HexDigit(b % 16);
      HexRoundTrip(b / 16);
      HexRoundTrip(b % 16);
    } else {
      EscapedByteOfPercent(bs[1..], rest, i - 1);
      var head := ['%', HexDigit(bs[0] / 16), HexDigit(bs[0] % 16)];
      assert Percent(bs) + rest == head + (Percent(bs[1..]) + rest);
      var t := Percent(bs) + rest;
      var u := Percent(bs[1..]) + rest;
      assert t[3 * i..] == u[3 * (i - 1)..];
      assert t[3 * i] == u[3 * (i - 1)] && t[3 * i + 1] == u[3 * (i - 1) + 1] && t[3 * i + 2] == u[3 * (i - 1) + 2];
    }
  }

  lemma DecodeTwo(t: string, b0: Byte, b1: Byte)
    requires EscapedByte(t, 0) == Some(b0) && EscapedByte(t, 3) == Some(b1)
    requires 0xC0 <= b0 < 0xE0 && 0x80 <= b1 < 0xC0
    ensures DecodeEscape(t) == Scalar((b0 - 0xC0) * 0x40 + (b1 - 0x80), 6)
  {
  }

  lemma DecodeThree(t: string, b0: Byte, b1: Byte, b2: Byte)
    requires EscapedByte(t, 0) == Some(b0) && EscapedByte(t, 3) == Some(b1) && EscapedByte(t, 6) == Some(b2)
    requires 0xE0 <= b0 < 0xF0 && 0x80 <= b1 < 0xC0 && 0x80 <= b2 < 0xC0
    ensures DecodeEscape(t) == Scalar((b0 - 0xE0) * 0x1000 + (b1 - 0x80) * 0x40 + (b2 - 0x80), 9)
  {
  }

  lemma DecodeFour(t: string, b0: Byte, b1: Byte, b2: Byte, b3: Byte)
    requires EscapedByte(t, 0) == Some(b0) && EscapedByte(t, 3) == Some(b1)
    requires EscapedByte(t, 6) == Some(b2) && EscapedByte(t, 9) == Some(b3)
    requires 0xF0 <= b0 < 0xF8 && 0x80 <= b1 < 0xC0 && 0x80 <= b2 < 0xC0 && 0x80 <= b3 < 0xC0
    ensures DecodeEscape(t) == Scalar((b0 - 0xF0) * 0x40000 + (b1 - 0x80) * 0x1000 + (b2 - 0x80) * 0x40 + (b3 - 0x80), 12)
  {
  }

  lemma Arith2(n: int)
    requires 0x80 <= n < 0x800
    ensures 0xC0 <= 0xC0 + n / 0x40 < 0xE0
    ensures (n / 0x40) * 0x40 + n % 0x40 == n
  {
  }

  lemma Arith3(n: int)
    requires 0x800 <= n < 0x10000
    ensures 0xE0 <= 0xE0 + n / 0x1000 < 0xF0
    ensures (n / 0x1000) * 0x1000 + ((n / 0x40) % 0x40) * 0x40 + n % 0x40 == n
  {
    assert n == (n / 0x40) * 0x40 + n % 0x40;
    assert n / 0x40 == (n / 0x1000) * 0x40 + (n / 0x40) % 0x40;
  }

  lemma Arith4(n: int)
    requires 0x10000 <= n < 0x110000
    ensures 0xF0 <= 0xF0 + n / 0x40000 < 0xF8
    ensures (n / 0x40000) * 0x40000 + ((n / 0x1000) % 0x40) * 0x1000 + ((n / 0x40) % 0x40) * 0x40 + n % 0x40 == n
  {
    assert n == (n / 0x40) * 0x40 + n % 0x40;
    assert n / 0x40 == (n / 0x1000) * 0x40 + (n / 0x40) % 0x40;
    assert n / 0x1000 == (n / 0x40000) * 0x40 + (n / 0x1000) % 0x40;
  }

  /** An escaped character decodes to itself and consumes exactly its escapes. */
  lemma DecodeEscapeOfChar(c: char, rest: string)
    ensures DecodeEscape(Percent(Utf8(c)) + rest) == Some((c, 3 * |Utf8(c)|))
  {
    var n := c as int;
    if n < 0x80 {
      EscapedByteOfPercent(Utf8(c), rest, 0);
    } else if n < 0x800 {
      DecodeEscapeOfTwo(c, rest);
    } else if n < 0x10000 {
      DecodeEscapeOfThree(c, rest);
    } else {
      DecodeEscapeOfFour(c, rest);
    }
  }

  lemma DecodeEscapeOfTwo(c: char, rest: string)
    requires 0x80 <= c as int < 0x800
    ensures DecodeEscape(Percent(Utf8(c)) + rest) == Some((c, 6))
  {
    var bs := Utf8(c);
    var t := Percent(bs) + rest;
    EscapedByteOfPercent(bs, rest, 0);
    EscapedByteOfPercent(bs, rest, 1);
    Arith2(c as int);
    DecodeTwo(t, bs[0], bs[1]);
  }

  lemma DecodeEscapeOfThree(c: char, rest: string)
    requires 0x800 <= c as int < 0x10000
    ensures DecodeEscape(Percent(Utf8(c)) + rest) == Some((c, 9))
  {
    var bs := Utf8(c);
    var t := Percent(bs) + rest;
    EscapedByteOfPercent(bs, rest, 0);
    EscapedByteOfPercent(bs, rest, 1);
    EscapedByteOfPercent(bs, rest, 2);
    Arith3(c as int);
    DecodeThree(t, bs[0], bs[1], bs[2]);
  }

  lemma DecodeEscapeOfFour(c: char, rest: string)
    requires 0x10000 <= c as int
    ensures DecodeEscape(Percent(Utf8(c)) + rest) == Some((c, 12))
  {
    var bs := Utf8(c);
    var t := Percent(bs) + rest;
    EscapedByteOfPercent(bs, rest, 0);
    EscapedByteOfPercent(bs, rest, 1);
    EscapedByteOfPercent(bs, rest, 2);
    EscapedByteOfPercent(bs, rest, 3);
    Arith4(c as int);
    DecodeFour(t, bs[0], bs[1], bs[2], bs[3]);
  }

  lemma {:induction false} DecodeEncodedChar(c: char, rest: string)
    ensures FormDecode(EncodeChar(c) + rest) == Prepend(c, FormDecode(rest))
  {
    var t := EncodeChar(c) + rest;
    if Unreserved(c) {
      assert t[0] == c && t[1..] == rest;
    } else if c == ' ' {
      assert t[0] == '+' && t[1..] == rest;
    } else {
      DecodeEscapeOfChar(c, rest);
      assert t[0] == '%';
      assert t[3 * |Utf8(c)|..] == rest;
    }
  }

  /** Decoding undoes URLEncoder's encoding. */
  lemma {:induction false} FormRoundTrip(s: string)
    ensures FormDecode(FormEncode(s)) == Some(s)
  {
    if s != [] {
      DecodeEncodedChar(s[0], FormEncode(s[1..]));
      FormRoundTrip(s[1..]);
      assert [s[0]] + s[1..] == s;
    }
  }

  /** Distinct values give distinct encodings. */
  lemma FormEncodeInjective(s: string, s': string)
    requires FormEncode(s) == FormEncode(s')
    ensures s == s'
  {
    FormRoundTrip(s);
    FormRoundTrip(s');
  }

  /** Letters, digits and `.-*_` pass through unchanged, so an already unreserved value is sent as it is. */
  lemma {:induction false} FormEncodeUnreserved(s: string)
    requires forall i :: 0 <= i < |s| ==> Unreserved(s[i])
    ensures FormEncode(s) == s
  {
    if s != [] {
      FormEncodeUnreserved(s[1..]);
      assert [s[0]] + s[1..] == s;
    }
  }

  /** Spaces become `+` and nothing else changes in a value of unreserved characters and spaces. */
  lemma {:induction false} FormEncodeSpaces(s: string)
    requires forall i :: 0 <= i < |s| ==> Unreserved(s[i]) || s[i] == ' '
    ensures |FormEncode(s)| == |s|
    ensures forall i :: 0 <= i < |s| ==> FormEncode(s)[i] == (if s[i] == ' ' then '+' else s[i])
  {
    if s != [] {
      FormEncodeSpaces(s[1..]);
    }
  }
}
