/**
 * Byte encodings the request signing relies on: `str.encode('utf-8')`
 * (UTF-8 as RFC 3629 defines it) and the lowercase hexadecimal rendering of
 * a digest (`hexdigest()`). Each comes with a decoder and a round-trip lemma,
 * so that neither step can merge two different inputs.
 */
module Encoding {
  import opened Wrappers

  type byte = x: int | 0 <= x < 256

  // ---- UTF-8 ----

  /** A Unicode scalar value: a code point that is not a surrogate. */
  predicate IsScalar(x: int) {
    0 <= x < 0xD800 || 0xE000 <= x < 0x11_0000
  }

  predicate IsContinuation(b: byte) {
    0x80 <= b < 0xC0
  }

  /** The UTF-8 bytes of one character: one to four bytes, by the size of its code point. */
  function EncodeChar(c: char): (r: seq<byte>)
    ensures 1 <= |r| <= 4
    ensures (|r| == 1) == (c as int < 0x80)
    ensures forall k :: 1 <= k < |r| ==> IsContinuation(r[k])
  {
    var n := c as int;
    if n < 0x80 then [n]
    else if n < 0x800 then [0xC0 + n / 64, 0x80 + n % 64]
    else if n < 0x1_0000 then [0xE0 + n / 4096, 0x80 + (n / 64) % 64, 0x80 + n % 64]
    else [0xF0 + n / 262144, 0x80 + (n / 4096) % 64, 0x80 + (n / 64) % 64, 0x80 + n % 64]
  }

  /** `s.encode('utf-8')` */
  function Utf8(s: string): (r: seq<byte>)
    ensures |s| <= |r| <= 4 * |s|
  {
    if s == [] then [] else EncodeChar(s[0]) + Utf8(s[1..])
  }

  function ScalarChar(x: int, n: nat): Option<(char, nat)> {
    if IsScalar(x) then Some((x as char, n)) else None
  }

  /** Reads one character off the front of `b`, with the number of bytes it took. */
  function DecodeChar(b: seq<byte>): (r: Option<(char, nat)>)
    requires |b| > 0
    ensures r.Some? ==> 1 <= r.value.1 <= |b|
  {
    var b0 := b[0] as int;
    if b0 < 0x80 then Some((b0 as char, 1))
    else if 0xC0 <= b0 < 0xE0 && |b| >= 2 && IsContinuation(b[1]) then
      ScalarChar((b0 - 0xC0) * 64 + (b[1] as int - 0x80), 2)
    else if 0xE0 <= b0 < 0xF0 && |b| >= 3 && IsContinuation(b[1]) && IsContinuation(b[2]) then
      ScalarChar((b0 - 0xE0) * 4096 + (b[1] as int - 0x80) * 64 + (b[2] as int - 0x80), 3)
    else if 0xF0 <= b0 < 0xF8 && |b| >= 4 && IsContinuation(b[1]) && IsContinuation(b[2]) && IsContinuation(b[3]) then
      ScalarChar((b0 - 0xF0) * 262144 + (b[1] as int - 0x80) * 4096 + (b[2] as int - 0x80) * 64 + (b[3] as int - 0x80), 4)
    else None
  }

  /** `b.decode('utf-8')`, as far as encoded text needs it (overlong forms are not rejected). */
  function DecodeUtf8(b: seq<byte>): Option<string>
    decreases |b|
  {
    if b == [] then Some([])
    else match DecodeChar(b)
      case None => None
      case Some(p) =>
        match DecodeUtf8(b[p.1..])
        case None => None
        case Some(rest) => Some([p.0] + rest)
  }

  lemma DecodeEncodedChar(c: char, rest: seq<byte>)
    ensures DecodeChar(EncodeChar(c) + rest) == Some((c, |EncodeChar(c)|))
  {
    var n := c as int;
    var b := EncodeChar(c) + rest;
    if n < 0x80 {
    } else if n < 0x800 {
      assert (n / 64) * 64 + n % 64 == n;
    } else if n < 0x1_0000 {
      assert n / 64 == (n / 4096) * 64 + (n / 64) % 64;
      assert (n / 4096) * 4096 + ((n / 64) % 64) * 64 + n % 64 == n;
    } else {
      assert n / 64 == (n / 4096) * 64 + (n / 64) % 64;
      assert n / 4096 == (n / 262144) * 64 + (n / 4096) % 64;
      assert (n / 262144) * 262144 + ((n / 4096) % 64) * 4096 + ((n / 64) % 64) * 64 + n % 64 == n;
    }
  }

  /** Decoding the UTF-8 bytes of a string gives the string back. */
  lemma {:induction false} Utf8RoundTrip(s: string)
    ensures DecodeUtf8(Utf8(s)) == Some(s)
  {
    if s != [] {
      var e := EncodeChar(s[0]);
      DecodeEncodedChar(s[0], Utf8(s[1..]));
      assert Utf8(s)[|e|..] == Utf8(s[1..]);
      Utf8RoundTrip(s[1..]);
      assert s == [s[0]] + s[1..];
    }
  }

  /** Hence two different strings never encode to the same bytes (the HMAC key and message keep them apart). */
  lemma Utf8Injective(s: string, t: string)
    requires Utf8(s) == Utf8(t)
    ensures s == t
  {
    Utf8RoundTrip(s);
    Utf8RoundTrip(t);
  }

  /** A character below 128 encodes as the single byte of its code. */
  lemma {:induction false} Utf8Ascii(s: string)
    requires forall k :: 0 <= k < |s| ==> s[k] as int < 0x80
    ensures |Utf8(s)| == |s|
    ensures forall k :: 0 <= k < |s| ==> Utf8(s)[k] == s[k] as int
  {
    if s != [] {
      Utf8Ascii(s[1..]);
    }
  }

  // ---- lowercase hexadecimal ----

  const HexDigits := "0123456789abcdef"

  predicate IsLowerHex(ch: char) {
    '0' <= ch <= '9' || 'a' <= ch <= 'f'
  }

  /** The two lowercase hex digits of a byte, high nibble first. */
  function HexByte(x: byte): string {
    [HexDigits[x / 16], HexDigits[x % 16]]
  }

  /** `hexdigest()`: two lowercase hex digits per byte. */
  function Hex(bs: seq<byte>): (r: string)
    ensures |r| == 2 * |bs|
    ensures forall k :: 0 <= k < |r| ==> IsLowerHex(r[k])
  {
    if bs == [] then "" else HexByte(bs[0]) + Hex(bs[1..])
  }

  function NibbleValue(ch: char): Option<nat> {
    if '0' <= ch <= '9' then Some(ch as int - '0' as int)
    else if 'a' <= ch <= 'f' then Some(ch as int - 'a' as int + 10)
    else None
  }

  /** `bytes.fromhex(s)` restricted to lowercase digits. */
  function Unhex(s: string): Option<seq<byte>>
    decreases |s|
  {
    if s == [] then Some([])
    else if |s| == 1 then None
    else
      match (NibbleValue(s[0]), NibbleValue(s[1]), Unhex(s[2..]))
      case (Some(hi), Some(lo), Some(rest)) =>
        if hi < 16 && lo < 16 then Some([hi * 16 + lo] + rest) else None
      case _ => None
  }

  lemma NibbleOfDigit(d: nat)
    requires d < 16
    ensures NibbleValue(HexDigits[d]) == Some(d)
  {
  }

  /** Reading the hex digits back gives the digest: the rendering loses nothing. */
  lemma {:induction false} HexRoundTrip(bs: seq<byte>)
    ensures Unhex(Hex(bs)) == Some(bs)
  {
    if bs != [] {
      var h := Hex(bs);
      var x := bs[0];
      assert h[2..] == Hex(bs[1..]);
      HexRoundTrip(bs[1..]);
      NibbleOfDigit(x / 16);
      NibbleOfDigit(x % 16);
      assert (x / 16) * 16 + x % 16 == x;
      assert bs == [x] + bs[1..];
    }
  }
}
