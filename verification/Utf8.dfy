/** UTF-8 as in section 3 of RFC 3629, on integers in 0..255. */
module Utf8 {
  import opened Wrappers
  import Text

  type Byte = b: int | 0 <= b < 256

  function EncodeChar(c: char): (bytes: seq<Byte>)
    ensures 1 <= |bytes| <= 4
  {
    var v := c as int;
    if v < 0x80 then [v]
    else if v < 0x800 then [0xC0 + v / 64, 0x80 + v % 64]
    else if v < 0x10000 then [0xE0 + v / 64 / 64, 0x80 + v / 64 % 64, 0x80 + v % 64]
    else [0xF0 + v / 64 / 64 / 64, 0x80 + v / 64 / 64 % 64, 0x80 + v / 64 % 64, 0x80 + v % 64]
  }

  function Encode(s: string): seq<Byte> {
    if s == [] then [] else EncodeChar(s[0]) + Encode(s[1..])
  }

  predicate IsTail(b: Byte) {
    0x80 <= b < 0xC0
  }

  predicate IsScalar(v: int) {
    0 <= v < 0xD800 || 0xE000 <= v < 0x110000
  }

  function Join2(a: int, b: int): int {
    (a - 0xC0) * 64 + (b - 0x80)
  }

  function Join3(a: int, b: int, c: int): int {
    ((a - 0xE0) * 64 + (b - 0x80)) * 64 + (c - 0x80)
  }

  function Join4(a: int, b: int, c: int, d: int): int {
    (((a - 0xF0) * 64 + (b - 0x80)) * 64 + (c - 0x80)) * 64 + (d - 0x80)
  }

  /** The first character of `bytes` and the octets it takes, or `None` for a
      truncated, overlong, surrogate or out-of-range sequence. */
  function DecodeChar(bytes: seq<Byte>): (r: Option<(char, nat)>)
    ensures r.Some? ==> 1 <= r.value.1 <= |bytes|
  {
    if |bytes| == 0 then None
    else if bytes[0] < 0x80 then Some((bytes[0] as char, 1))
    else if 0xC0 <= bytes[0] < 0xE0 && |bytes| >= 2 && IsTail(bytes[1]) then
      var v := Join2(bytes[0], bytes[1]);
      if v < 0x80 then None else Some((v as char, 2))
    else if 0xE0 <= bytes[0] < 0xF0 && |bytes| >= 3 && IsTail(bytes[1]) && IsTail(bytes[2]) then
      var v := Join3(bytes[0], bytes[1], bytes[2]);
      if v < 0x800 || !IsScalar(v) then None else Some((v as char, 3))
    else if 0xF0 <= bytes[0] < 0xF8 && |bytes| >= 4
            && IsTail(bytes[1]) && IsTail(bytes[2]) && IsTail(bytes[3]) then
      var v := Join4(bytes[0], bytes[1], bytes[2], bytes[3]);
      if v < 0x10000 || !IsScalar(v) then None else Some((v as char, 4))
    else None
  }

  /** `String::from_utf8`. */
  function Decode(bytes: seq<Byte>): Option<string> {
    if bytes == [] then Some([])
    else
      match DecodeChar(bytes)
      case None => None
      case Some((c, n)) =>
        match Decode(bytes[n..])
        case None => None
        case Some(rest) => Some([c] + rest)
  }

  lemma DecodeCharOfEncoded(c: char, rest: seq<Byte>)
    ensures DecodeChar(EncodeChar(c) + rest) == Some((c, |EncodeChar(c)|))
  {
  }

  lemma DivMod64(q: int, r: int)
    requires 0 <= r < 64
    ensures (q * 64 + r) / 64 == q && (q * 64 + r) % 64 == r
  {
  }

  lemma Split3(a: int, b: int, c: int)
    requires 0x80 <= b < 0xC0 && 0x80 <= c < 0xC0
    ensures var v := Join3(a, b, c);
            a == 0xE0 + v / 64 / 64 && b == 0x80 + v / 64 % 64 && c == 0x80 + v % 64
  {
    DivMod64((a - 0xE0) * 64 + (b - 0x80), c - 0x80);
    DivMod64(a - 0xE0, b - 0x80);
  }

  lemma Split4(a: int, b: int, c: int, d: int)
    requires 0x80 <= b < 0xC0 && 0x80 <= c < 0xC0 && 0x80 <= d < 0xC0
    ensures var v := Join4(a, b, c, d);
            && a == 0xF0 + v / 64 / 64 / 64 && b == 0x80 + v / 64 / 64 % 64
            && c == 0x80 + v / 64 % 64 && d == 0x80 + v % 64
  {
    DivMod64(((a - 0xF0) * 64 + (b - 0x80)) * 64 + (c - 0x80), d - 0x80);
    DivMod64((a - 0xF0) * 64 + (b - 0x80), c - 0x80);
    DivMod64(a - 0xF0, b - 0x80);
  }

  lemma EncodeOfDecodedChar(bytes: seq<Byte>)
    requires DecodeChar(bytes).Some?
    ensures EncodeChar(DecodeChar(bytes).value.0) == bytes[..DecodeChar(bytes).value.1]
  {
    var (c, n) := DecodeChar(bytes).value;
    if n == 3 {
      Split3(bytes[0], bytes[1], bytes[2]);
    } else if n == 4 {
      Split4(bytes[0], bytes[1], bytes[2], bytes[3]);
    }
  }

  lemma DecodeCons(c: char, rest: seq<Byte>)
    requires Decode(rest).Some?
    ensures Decode(EncodeChar(c) + rest) == Some([c] + Decode(rest).value)
  {
    DecodeCharOfEncoded(c, rest);
    assert (EncodeChar(c) + rest)[|EncodeChar(c)|..] == rest;
  }

  /** Decoding undoes encoding, for every string. */
  lemma {:induction false} DecodeEncode(s: string)
    ensures Decode(Encode(s)) == Some(s)
  {
    if s != [] {
      DecodeEncode(s[1..]);
      DecodeCons(s[0], Encode(s[1..]));
      assert s == [s[0]] + s[1..];
    }
  }

  /** Decoding accepts nothing but encodings: octets decode to a string exactly
      when they are that string's encoding. */
  lemma {:induction false} DecodeIffEncoding(bytes: seq<Byte>, s: string)
    ensures Decode(bytes) == Some(s) <==> bytes == Encode(s)
  {
    DecodeEncode(s);
    if Decode(bytes) == Some(s) {
      EncodeDecode(bytes);
    }
  }

  lemma {:induction false} EncodeDecode(bytes: seq<Byte>)
    requires Decode(bytes).Some?
    ensures Encode(Decode(bytes).value) == bytes
  {
    if bytes != [] {
      var (c, n) := DecodeChar(bytes).value;
      EncodeDecode(bytes[n..]);
      EncodeOfDecodedChar(bytes);
      var s := Decode(bytes).value;
      assert s[0] == c && s[1..] == Decode(bytes[n..]).value;
    }
  }

  /** `str::len`, the number of octets. */
  function ByteLen(s: string): nat {
    |Encode(s)|
  }

  lemma {:induction false} EncodeAppend(a: string, b: string)
    ensures Encode(a + b) == Encode(a) + Encode(b)
  {
    if a == [] {
      assert a + b == b;
    } else {
      EncodeAppend(a[1..], b);
      assert (a + b)[1..] == a[1..] + b;
      Text.ConcatAssoc(EncodeChar(a[0]), Encode(a[1..]), Encode(b));
    }
  }

  /** The octets of each character, by its code point, add up. */
  lemma ByteLenIs(c: char, s: string)
    ensures ByteLen([]) == 0
    ensures ByteLen([c] + s) == (if c as int < 0x80 then 1 else if c as int < 0x800 then 2
                                 else if c as int < 0x10000 then 3 else 4) + ByteLen(s)
  {
    assert ([c] + s)[1..] == s;
  }
}
