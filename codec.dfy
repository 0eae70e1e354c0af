/**
 * The two encodings behind the hidden payload of a question notebook:
 * `codecs.encode(s, 'utf8')` / `codecs.decode(b, 'utf8')` and
 * `codecs.encode(b, 'hex')` / `codecs.decode(h, 'hex')`.
 */
module Codec {
  import opened Wrappers

  newtype byte = x: int | 0 <= x < 0x100

  // ---------------------------------------------------------------- UTF-8

  /** The UTF-8 form of one Unicode scalar value (one to four bytes): the value is cut into
      6-bit groups, the last ones each carried by a continuation byte. */
  function EncodeChar(c: char): (r: seq<byte>)
    ensures 1 <= |r| <= 4
  {
    var n := c as int;
    var a := n / 0x40;
    var b := a / 0x40;
    if n < 0x80 then
      [n as byte]
    else if n < 0x800 then
      [(0xC0 + a) as byte, (0x80 + n % 0x40) as byte]
    else if n < 0x1_0000 then
      [(0xE0 + b) as byte, (0x80 + a % 0x40) as byte, (0x80 + n % 0x40) as byte]
    else
      [(0xF0 + b / 0x40) as byte, (0x80 + b % 0x40) as byte,
       (0x80 + a % 0x40) as byte, (0x80 + n % 0x40) as byte]
  }

  /** `codecs.encode(s, 'utf8')`. */
  function Utf8Encode(s: string): seq<byte> {
    if s == [] then [] else EncodeChar(s[0]) + Utf8Encode(s[1..])
  }

  predicate IsContinuation(b: byte) {
    0x80 <= b < 0xC0
  }

  /** The strict decoder's reading of the first character of `bs`: the character and the number
      of bytes it takes, or None for a malformed, overlong, surrogate or out-of-range sequence. */
  function DecodeChar(bs: seq<byte>): (r: Option<(char, nat)>)
    ensures r.Some? ==> 1 <= r.value.1 <= |bs|
  {
    if |bs| == 0 then None
    else
      var b0 := bs[0] as int;
      if b0 < 0x80 then
        Some((b0 as char, 1))
      else if 0xC0 <= b0 < 0xE0 then
        if |bs| < 2 || !IsContinuation(bs[1]) then None
        else
          var n := (b0 - 0xC0) * 0x40 + (bs[1] as int - 0x80);
          if n < 0x80 then None else Some((n as char, 2))
      else if 0xE0 <= b0 < 0xF0 then
        if |bs| < 3 || !IsContinuation(bs[1]) || !IsContinuation(bs[2]) then None
        else
          var n := ((b0 - 0xE0) * 0x40 + (bs[1] as int - 0x80)) * 0x40 + (bs[2] as int - 0x80);
          if n < 0x800 || 0xD800 <= n < 0xE000 then None else Some((n as char, 3))
      else if 0xF0 <= b0 < 0xF8 then
        if |bs| < 4 || !IsContinuation(bs[1]) || !IsContinuation(bs[2]) || !IsContinuation(bs[3]) then None
        else
          var n := (((b0 - 0xF0) * 0x40 + (bs[1] as int - 0x80)) * 0x40
                    + (bs[2] as int - 0x80)) * 0x40 + (bs[3] as int - 0x80);
          if n < 0x1_0000 || 0x11_0000 <= n then None else Some((n as char, 4))
      else
        None
  }

  /** `codecs.decode(bs, 'utf8')`; None where Python raises UnicodeDecodeError. */
  function Utf8Decode(bs: seq<byte>): Option<string>
    decreases |bs|
  {
    if bs == [] then Some("")
    else
      match DecodeChar(bs)
      case None => None
      case Some((c, k)) =>
        match Utf8Decode(bs[k..])
        case None => None
        case Some(s) => Some([c] + s)
  }

  /** Euclidean division by 64 is determined by any quotient/remainder pair. */
  lemma DivMod64(n: int, q: int, r: int)
    requires n == q * 0x40 + r && 0 <= r < 0x40
    ensures n / 0x40 == q && n % 0x40 == r
  {
  }

  lemma DecodeEncodeChar(c: char, rest: seq<byte>)
    ensures DecodeChar(EncodeChar(c) + rest) == Some((c, |EncodeChar(c)|))
  {
    var n := c as int;
    var a := n / 0x40;
    var b := a / 0x40;
    DivMod64(n, a, n % 0x40);
    DivMod64(a, b, a % 0x40);
    DivMod64(b, b / 0x40, b % 0x40);
    var bs := EncodeChar(c) + rest;
    if n < 0x80 {
    } else if n < 0x800 {
      assert bs[0] as int == 0xC0 + a && bs[1] as int == 0x80 + n % 0x40;
    } else if n < 0x1_0000 {
      assert bs[0] as int == 0xE0 + b && bs[1] as int == 0x80 + a % 0x40;
      assert bs[2] as int == 0x80 + n % 0x40;
    } else {
      assert bs[0] as int == 0xF0 + b / 0x40 && bs[1] as int == 0x80 + b % 0x40;
      assert bs[2] as int == 0x80 + a % 0x40 && bs[3] as int == 0x80 + n % 0x40;
    }
  }

  lemma EncodeDecodeChar(bs: seq<byte>)
    requires DecodeChar(bs).Some?
    ensures EncodeChar(DecodeChar(bs).value.0) == bs[..DecodeChar(bs).value.1]
  {
    var b0 := bs[0] as int;
    if b0 < 0x80 {
    } else if b0 < 0xE0 {
      var n := (b0 - 0xC0) * 0x40 + (bs[1] as int - 0x80);
      DivMod64(n, b0 - 0xC0, bs[1] as int - 0x80);
    } else if b0 < 0xF0 {
      var a := (b0 - 0xE0) * 0x40 + (bs[1] as int - 0x80);
      var n := a * 0x40 + (bs[2] as int - 0x80);
      DivMod64(n, a, bs[2] as int - 0x80);
      DivMod64(a, b0 - 0xE0, bs[1] as int - 0x80);
    } else {
      var b := (b0 - 0xF0) * 0x40 + (bs[1] as int - 0x80);
      var a := b * 0x40 + (bs[2] as int - 0x80);
      var n := a * 0x40 + (bs[3] as int - 0x80);
      DivMod64(n, a, bs[3] as int - 0x80);
      DivMod64(a, b, bs[2] as int - 0x80);
      DivMod64(b, b0 - 0xF0, bs[1] as int - 0x80);
    }
  }

  /** Decoding the UTF-8 bytes of a string gives the string back. */
  lemma {:induction false} Utf8RoundTrip(s: string)
    ensures Utf8Decode(Utf8Encode(s)) == Some(s)
  {
    if s != [] {
      var e := EncodeChar(s[0]);
      var rest := Utf8Encode(s[1..]);
      DecodeEncodeChar(s[0], rest);
      Utf8RoundTrip(s[1..]);
      assert (e + rest)[|e|..] == rest;
      assert [s[0]] + s[1..] == s;
    }
  }

  /** A successful decoding is a first character, whose UTF-8 form starts the bytes, followed
      by the decoding of the rest. */
  lemma Utf8DecodeFirst(bs: seq<byte>) returns (c: char, k: nat)
    requires bs != [] && Utf8Decode(bs).Some?
    ensures 1 <= k <= |bs| && EncodeChar(c) == bs[..k] && Utf8Decode(bs[k..]).Some?
    ensures Utf8Decode(bs).value == [c] + Utf8Decode(bs[k..]).value
  {
    c, k := DecodeChar(bs).value.0, DecodeChar(bs).value.1;
    EncodeDecodeChar(bs);
  }

  lemma Utf8EncodeFirst(c: char, s: string)
    ensures Utf8Encode([c] + s) == EncodeChar(c) + Utf8Encode(s)
  {
    assert ([c] + s)[1..] == s;
  }

  /** Whatever the strict decoder accepts is the UTF-8 form of what it returns. */
  lemma {:induction false} Utf8DecodeInverse(bs: seq<byte>)
    requires Utf8Decode(bs).Some?
    ensures Utf8Encode(Utf8Decode(bs).value) == bs
    decreases |bs|
  {
    if bs != [] {
      var c, k := Utf8DecodeFirst(bs);
      var tail := Utf8Decode(bs[k..]).value;
      Utf8EncodeFirst(c, tail);
      Utf8DecodeInverse(bs[k..]);
      assert bs == bs[..k] + bs[k..];
    }
  }

  // ---------------------------------------------------------------- hex

  const HexDigits: string := "0123456789abcdef"

  /** `codecs.encode(bs, 'hex')`: two lowercase hex digits per byte, high nibble first. */
  function HexEncode(bs: seq<byte>): (r: string)
    ensures |r| == 2 * |bs|
  {
    if bs == [] then ""
    else [HexDigits[bs[0] as int / 16], HexDigits[bs[0] as int % 16]] + HexEncode(bs[1..])
  }

  /** The hex form is made of lowercase hex digits only, so it fits in a bytes literal. */
  lemma {:induction false} HexEncodeDigits(bs: seq<byte>)
    ensures forall i :: 0 <= i < |HexEncode(bs)| ==> HexEncode(bs)[i] in HexDigits
  {
    if bs != [] {
      HexEncodeDigits(bs[1..]);
      var h := HexEncode(bs);
      assert forall i :: 2 <= i < |h| ==> h[i] == HexEncode(bs[1..])[i - 2];
    }
  }

  /** The value of one hex digit; `codecs.decode(h, 'hex')` accepts both cases. */
  function HexValue(c: char): (r: Option<nat>)
    ensures r.Some? ==> r.value < 16
  {
    if '0' <= c <= '9' then Some(c as int - '0' as int)
    else if 'a' <= c <= 'f' then Some(c as int - 'a' as int + 10)
    else if 'A' <= c <= 'F' then Some(c as int - 'A' as int + 10)
    else None
  }

  /** `codecs.decode(h, 'hex')`; None for an odd length or a non-hex character. */
  function HexDecode(h: string): Option<seq<byte>> {
    if h == [] then Some([])
    else if |h| == 1 then None
    else if HexValue(h[0]).None? || HexValue(h[1]).None? then None
    else
      match HexDecode(h[2..])
      case None => None
      case Some(rest) => Some([(HexValue(h[0]).value * 16 + HexValue(h[1]).value) as byte] + rest)
  }

  lemma HexDigitValue(v: nat)
    requires v < 16
    ensures HexValue(HexDigits[v]) == Some(v)
  {
  }

  /** Decoding reads the first two digits as one byte, then goes on with the rest. */
  lemma HexDecodePair(hi: nat, lo: nat, rest: string)
    requires hi < 16 && lo < 16
    ensures HexDecode([HexDigits[hi], HexDigits[lo]] + rest)
         == match HexDecode(rest) case None => None case Some(r) => Some([(hi * 16 + lo) as byte] + r)
  {
    var h := [HexDigits[hi], HexDigits[lo]] + rest;
    HexDigitValue(hi);
    HexDigitValue(lo);
    assert h[2..] == rest;
  }

  /** Decoding the hex form gives the bytes back. */
  lemma {:induction false} HexRoundTrip(bs: seq<byte>)
    ensures HexDecode(HexEncode(bs)) == Some(bs)
  {
    if bs != [] {
      var hi, lo := bs[0] as int / 16, bs[0] as int % 16;
      HexDecodePair(hi, lo, HexEncode(bs[1..]));
      HexRoundTrip(bs[1..]);
      assert (hi * 16 + lo) as byte == bs[0];
      assert [bs[0]] + bs[1..] == bs;
    }
  }
}
