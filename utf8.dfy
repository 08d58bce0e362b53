/** UTF-8 as Rust's `core::str::from_utf8` accepts it and `str::bytes` produces it:
    the well-formed byte sequences of Table 3-7 of the Unicode Standard (no overlong
    forms, no surrogates, nothing above U+10FFFF). */
module Utf8 {
  import opened Text

  predicate IsContinuation(b: byte) {
    0x80 <= b <= 0xBF
  }

  /** The bytes `str::bytes` yields for one character. */
  function EncodeChar(c: char): (bs: seq<byte>)
    ensures 1 <= |bs| <= 4
    ensures (|bs| == 1) == (c as int < 0x80)
  {
    var cp := c as int;
    if cp < 0x80 then [cp]
    else if cp < 0x800 then [0xC0 + cp / 64, 0x80 + cp % 64]
    else if cp < 0x10000 then [0xE0 + cp / 4096, 0x80 + cp / 64 % 64, 0x80 + cp % 64]
    else [0xF0 + cp / 262144, 0x80 + cp / 4096 % 64, 0x80 + cp / 64 % 64, 0x80 + cp % 64]
  }

  /** The UTF-8 encoding of a whole string. */
  function Encode(s: string): seq<byte> {
    if s == [] then [] else EncodeChar(s[0]) + Encode(s[1..])
  }

  lemma TwoByteValue(b0: int, b1: int)
    requires 0xC2 <= b0 <= 0xDF && 0x80 <= b1 <= 0xBF
    ensures var cp := (b0 - 0xC0) * 64 + (b1 - 0x80);
      0x80 <= cp < 0x800 && cp / 64 == b0 - 0xC0 && cp % 64 == b1 - 0x80
  {
  }

  lemma ThreeByteValue(b0: int, b1: int, b2: int)
    requires 0xE0 <= b0 <= 0xEF && 0x80 <= b1 <= 0xBF && 0x80 <= b2 <= 0xBF
    ensures var cp := (b0 - 0xE0) * 4096 + (b1 - 0x80) * 64 + (b2 - 0x80);
      && cp < 0x10000
      && cp / 4096 == b0 - 0xE0 && cp / 64 % 64 == b1 - 0x80 && cp % 64 == b2 - 0x80
  {
    var cp := (b0 - 0xE0) * 4096 + (b1 - 0x80) * 64 + (b2 - 0x80);
    var hi := (b0 - 0xE0) * 64 + (b1 - 0x80);
    assert cp == hi * 64 + (b2 - 0x80);
    assert cp / 64 == hi;
  }

  lemma FourByteValue(b0: int, b1: int, b2: int, b3: int)
    requires 0xF0 <= b0 <= 0xF4 && 0x80 <= b1 <= 0xBF && 0x80 <= b2 <= 0xBF && 0x80 <= b3 <= 0xBF
    ensures var cp := (b0 - 0xF0) * 262144 + (b1 - 0x80) * 4096 + (b2 - 0x80) * 64 + (b3 - 0x80);
      && cp / 262144 == b0 - 0xF0 && cp / 4096 % 64 == b1 - 0x80
      && cp / 64 % 64 == b2 - 0x80 && cp % 64 == b3 - 0x80
  {
    var cp := (b0 - 0xF0) * 262144 + (b1 - 0x80) * 4096 + (b2 - 0x80) * 64 + (b3 - 0x80);
    var mid := (b0 - 0xF0) * 4096 + (b1 - 0x80) * 64 + (b2 - 0x80);
    var top := (b0 - 0xF0) * 64 + (b1 - 0x80);
    assert cp == mid * 64 + (b3 - 0x80);
    assert cp / 64 == mid;
    assert mid == top * 64 + (b2 - 0x80);
    assert mid / 64 == top;
    assert cp / 4096 == top;
  }

  /** Decodes the character at the start of `bytes`: the character and how many
      bytes it took, or `None` when the bytes there are not well-formed UTF-8.
      Whatever it decodes is exactly the encoding of that character. */
  function DecodeFirst(bytes: seq<byte>): (r: Option<(char, nat)>)
    requires bytes != []
    ensures r.Some? ==> 1 <= r.value.1 <= |bytes| && EncodeChar(r.value.0) == bytes[..r.value.1]
  {
    var b0 := bytes[0] as int;
    if b0 < 0x80 then
      Some((b0 as char, 1))
    else if 0xC2 <= b0 <= 0xDF then
      if |bytes| >= 2 && IsContinuation(bytes[1]) then
        TwoByteValue(b0, bytes[1]);
        var cp := (b0 - 0xC0) * 64 + (bytes[1] as int - 0x80);
        Some((cp as char, 2))
      else None
    else if 0xE0 <= b0 <= 0xEF then
      var lo1 := if b0 == 0xE0 then 0xA0 else 0x80;
      var hi1 := if b0 == 0xED then 0x9F else 0xBF;
      if |bytes| >= 3 && lo1 <= bytes[1] <= hi1 && IsContinuation(bytes[2]) then
        ThreeByteValue(b0, bytes[1], bytes[2]);
        var cp := (b0 - 0xE0) * 4096 + (bytes[1] as int - 0x80) * 64 + (bytes[2] as int - 0x80);
        Some((cp as char, 3))
      else None
    else if 0xF0 <= b0 <= 0xF4 then
      var lo1 := if b0 == 0xF0 then 0x90 else 0x80;
      var hi1 := if b0 == 0xF4 then 0x8F else 0xBF;
      if |bytes| >= 4 && lo1 <= bytes[1] <= hi1 && IsContinuation(bytes[2]) && IsContinuation(bytes[3]) then
        FourByteValue(b0, bytes[1], bytes[2], bytes[3]);
        var cp := (b0 - 0xF0) * 262144 + (bytes[1] as int - 0x80) * 4096 + (bytes[2] as int - 0x80) * 64 + (bytes[3] as int - 0x80);
        Some((cp as char, 4))
      else None
    else None
  }

  /** `core::str::from_utf8`: the string the bytes spell, or `None` when they are
      not well-formed UTF-8. */
  function Decode(bytes: seq<byte>): (r: Option<string>)
    ensures r.Some? ==> Encode(r.value) == bytes
  {
    if bytes == [] then Some([])
    else match DecodeFirst(bytes)
      case None => None
      case Some((c, n)) =>
        match Decode(bytes[n..])
        case None => None
        case Some(rest) =>
          assert [c] + rest != [] && ([c] + rest)[1..] == rest;
          assert bytes == bytes[..n] + bytes[n..];
          Some([c] + rest)
  }

  /** A code point is rebuilt from its 6-bit groups. */
  lemma SixBitGroups(cp: nat)
    ensures cp == cp / 64 * 64 + cp % 64
    ensures cp == cp / 4096 * 4096 + cp / 64 % 64 * 64 + cp % 64
    ensures cp == cp / 262144 * 262144 + cp / 4096 % 64 * 4096 + cp / 64 % 64 * 64 + cp % 64
  {
    var q := cp / 64;
    assert q == q / 64 * 64 + q % 64;
    assert q / 64 == cp / 4096;
    var p := cp / 4096;
    assert p == p / 64 * 64 + p % 64;
    assert p / 64 == cp / 262144;
  }

  /** Every character's encoding decodes back to it. */
  lemma DecodeFirstOfEncoding(c: char, rest: seq<byte>)
    ensures DecodeFirst(EncodeChar(c) + rest) == Some((c, |EncodeChar(c)|))
  {
    var bs := EncodeChar(c) + rest;
    var cp := c as int;
    SixBitGroups(cp);
    if cp < 0x80 {
    } else if cp < 0x800 {
      assert 0xC2 <= bs[0] <= 0xDF;
      assert (bs[0] as int - 0xC0) * 64 + (bs[1] as int - 0x80) == cp;
    } else if cp < 0x10000 {
      assert bs[0] == 0xE0 + cp / 4096;
      assert bs[0] == 0xE0 ==> bs[1] >= 0xA0;
      assert bs[0] == 0xED ==> bs[1] <= 0x9F;
      assert (bs[0] as int - 0xE0) * 4096 + (bs[1] as int - 0x80) * 64 + (bs[2] as int - 0x80) == cp;
    } else {
      assert bs[0] == 0xF0 + cp / 262144;
      assert bs[0] <= 0xF4;
      assert bs[0] == 0xF0 ==> bs[1] >= 0x90;
      assert bs[0] == 0xF4 ==> bs[1] <= 0x8F;
      assert (bs[0] as int - 0xF0) * 262144 + (bs[1] as int - 0x80) * 4096 + (bs[2] as int - 0x80) * 64 + (bs[3] as int - 0x80) == cp;
    }
  }

  /** Round trip: decoding an encoding gives the string back. */
  lemma {:induction false} DecodeEncode(s: string)
    ensures Decode(Encode(s)) == Some(s)
  {
    if s != [] {
      var e := EncodeChar(s[0]);
      DecodeFirstOfEncoding(s[0], Encode(s[1..]));
      assert Encode(s)[|e|..] == Encode(s[1..]);
      DecodeEncode(s[1..]);
      assert s == [s[0]] + s[1..];
    }
  }

  /** Bytes below 0x80 are ASCII: they decode one character per byte, each the
      character with that code. */
  lemma {:induction false} DecodeAscii(bytes: seq<byte>)
    requires forall k :: 0 <= k < |bytes| ==> bytes[k] < 0x80
    ensures Decode(bytes).Some?
    ensures |Decode(bytes).value| == |bytes|
    ensures forall k :: 0 <= k < |bytes| ==> Decode(bytes).value[k] as int == bytes[k]
  {
    if bytes != [] {
      DecodeAscii(bytes[1..]);
    }
  }
}
