/** The length-prefixed integers of the binary format: the first byte tells how many follow. */
module Varint {
  import opened ListLog

  type Byte = x: int | 0 <= x < 256

  type Bytes = seq<Byte>

  const U32: nat := 0x1_0000_0000
  const U64: nat := 0x1_0000_0000_0000_0000

  /** The first value that takes more than n bytes. */
  const ENC_1: nat := 0x80
  const ENC_2: nat := 0x4000 + ENC_1
  const ENC_3: nat := 0x20_0000 + ENC_2
  const ENC_4: nat := 0x1000_0000 + ENC_3
  const ENC_5: nat := 0x8_0000_0000 + ENC_4
  const ENC_6: nat := 0x400_0000_0000 + ENC_5
  const ENC_7: nat := 0x2_0000_0000_0000 + ENC_6
  const ENC_8: nat := 0x40_0000_0000_0000 + ENC_7

  // ---- Big-endian digits ----

  /** `v >> 8 * n`. */
  function Shifted(v: nat, n: nat): nat {
    if n == 0 then v else Shifted(v / 256, n - 1)
  }

  /** The n lowest bytes of `v`, the highest first. */
  function ToBytes(v: nat, n: nat): (r: Bytes)
    ensures |r| == n
  {
    if n == 0 then [] else ToBytes(v / 256, n - 1) + [v % 256]
  }

  /** What the decoder's loop makes of the bytes that follow `top`. */
  function FromBytes(top: nat, bs: Bytes): nat {
    if bs == [] then top else FromBytes(top, bs[..|bs| - 1]) * 256 + bs[|bs| - 1]
  }

  lemma {:induction false} BytesBack(v: nat, n: nat)
    ensures FromBytes(Shifted(v, n), ToBytes(v, n)) == v
  {
    if n > 0 {
      BytesBack(v / 256, n - 1);
      var bs := ToBytes(v, n);
      assert bs == ToBytes(v / 256, n - 1) + [v % 256] && bs[..n - 1] == ToBytes(v / 256, n - 1);
      assert FromBytes(Shifted(v, n), bs) == v / 256 * 256 + v % 256;
    }
  }

  lemma {:induction false} SingleByte(top: nat, b: Byte)
    ensures FromBytes(top, [b]) == top * 256 + b
  {
    assert [b][..0] == [];
  }

  lemma {:induction false} BytesForth(top: nat, bs: Bytes)
    ensures Shifted(FromBytes(top, bs), |bs|) == top && ToBytes(FromBytes(top, bs), |bs|) == bs
  {
    if bs != [] {
      var k := |bs| - 1;
      var w := FromBytes(top, bs[..k]);
      BytesForth(top, bs[..k]);
      assert (w * 256 + bs[k]) / 256 == w;
      assert bs == bs[..k] + [bs[k]];
    }
  }

  /** `b << 8 * n`. */
  function Scaled(b: nat, n: nat): nat {
    if n == 0 then b else 256 * Scaled(b, n - 1)
  }

  lemma {:induction false} ShiftedBelow(v: nat, n: nat, b: nat)
    ensures v < Scaled(b, n) <==> Shifted(v, n) < b
  {
    if n > 0 { ShiftedBelow(v / 256, n - 1, b); }
  }

  /** What is left for the first byte, at each length. */
  lemma {:induction false} TopBits(v: nat)
    ensures v < 0x4000 <==> Shifted(v, 1) < 64
    ensures v < 0x20_0000 <==> Shifted(v, 2) < 32
    ensures v < 0x1000_0000 <==> Shifted(v, 3) < 16
    ensures v < 0x8_0000_0000 <==> Shifted(v, 4) < 8
    ensures v < 0x400_0000_0000 <==> Shifted(v, 5) < 4
    ensures v < 0x2_0000_0000_0000 <==> Shifted(v, 6) < 2
    ensures v < 0x100_0000_0000_0000 <==> Shifted(v, 7) < 1
    ensures v < U64 <==> Shifted(v, 8) < 1
    ensures v < U32 <==> Shifted(v, 4) < 1
  {
    hide Shifted;
    ShiftedBelow(v, 1, 64);
    ShiftedBelow(v, 2, 32);
    ShiftedBelow(v, 3, 16);
    ShiftedBelow(v, 4, 8);
    ShiftedBelow(v, 5, 4);
    ShiftedBelow(v, 6, 2);
    ShiftedBelow(v, 7, 1);
    ShiftedBelow(v, 8, 1);
    ShiftedBelow(v, 4, 1);
  }

  // ---- Encoding ----

  /** `prefix` in the first byte, over the bits of `v` that the n bytes after it do not hold. */
  function Prefixed(prefix: nat, v: nat, n: nat): (r: Bytes)
    requires prefix + Shifted(v, n) < 256
    ensures |r| == n + 1
  {
    [prefix + Shifted(v, n)] + ToBytes(v, n)
  }

  function EncodeU64(v: nat): (r: Bytes)
    requires v < U64
    ensures 1 <= |r| <= 9
  {
    if v < ENC_1 then [v]
    else if v < ENC_2 then (TopBits(v - ENC_1); Prefixed(0x80, v - ENC_1, 1))
    else if v < ENC_3 then (TopBits(v - ENC_2); Prefixed(0xC0, v - ENC_2, 2))
    else if v < ENC_4 then (TopBits(v - ENC_3); Prefixed(0xE0, v - ENC_3, 3))
    else if v < ENC_5 then (TopBits(v - ENC_4); Prefixed(0xF0, v - ENC_4, 4))
    else if v < ENC_6 then (TopBits(v - ENC_5); Prefixed(0xF8, v - ENC_5, 5))
    else if v < ENC_7 then (TopBits(v - ENC_6); Prefixed(0xFC, v - ENC_6, 6))
    else if v < ENC_8 then (TopBits(v - ENC_7); Prefixed(0xFE, v - ENC_7, 7))
    else [0xFF] + ToBytes(v - ENC_8, 8)
  }

  function EncodeU32(v: nat): Bytes
    requires v < U32
  {
    if v < ENC_1 then [v]
    else if v < ENC_2 then (TopBits(v - ENC_1); Prefixed(0x80, v - ENC_1, 1))
    else if v < ENC_3 then (TopBits(v - ENC_2); Prefixed(0xC0, v - ENC_2, 2))
    else if v < ENC_4 then (TopBits(v - ENC_3); Prefixed(0xE0, v - ENC_3, 3))
    else [0xF0] + ToBytes(v - ENC_4, 4)
  }

  /** The 32-bit writer and the 64-bit writer agree, so a 64-bit reader reads either. */
  lemma {:induction false} WritersAgree(v: nat)
    requires v < U32
    ensures EncodeU32(v) == EncodeU64(v)
  {
    if v >= ENC_4 {
      TopBits(v - ENC_4);
    }
  }

  // ---- Decoding ----

  /** How many bits at the top of the byte are set. */
  function LeadingOnes(b: Byte): nat {
    if b < 0x80 then 0 else if b < 0xC0 then 1 else if b < 0xE0 then 2 else if b < 0xF0 then 3
    else if b < 0xF8 then 4 else if b < 0xFC then 5 else if b < 0xFE then 6 else if b < 0xFF then 7 else 8
  }

  /** What the bits below the leading ones say. */
  function LowBits(b: Byte): nat {
    if b < 0x80 then b else if b < 0xC0 then b - 0x80 else if b < 0xE0 then b - 0xC0 else if b < 0xF0 then b - 0xE0
    else if b < 0xF8 then b - 0xF0 else if b < 0xFC then b - 0xF8 else if b < 0xFE then b - 0xFC else 0
  }

  /** The first value of the encodings with `n` bytes after the first. */
  function Base(n: nat): nat {
    match n
    case 0 => 0
    case 1 => ENC_1
    case 2 => ENC_2
    case 3 => ENC_3
    case 4 => ENC_4
    case 5 => ENC_5
    case 6 => ENC_6
    case 7 => ENC_7
    case _ => ENC_8
  }

  datatype Number = Number(value: nat, size: nat)

  function DecodeU64(buf: Bytes): (r: Option<Number>)
    ensures r.Some? ==> r.value.value < U64 && 1 <= r.value.size <= |buf|
  {
    if buf == [] then None
    else
      var n := LeadingOnes(buf[0]);
      if |buf| < n + 1 then None
      else Some(Number((FromBytes(LowBits(buf[0]), buf[1..n + 1]) + Base(n)) % U64, n + 1))
  }

  lemma {:induction false} NoByte(first: nat, buf: Bytes)
    requires 1 <= |buf|
    ensures FromBytes(first, buf[1..1]) == first
  {
    assert buf[1..1] == [];
  }

  lemma {:induction false} NextByte(first: nat, buf: Bytes, i: nat)
    requires 1 <= i < |buf|
    ensures FromBytes(first, buf[1..i + 1]) == FromBytes(first, buf[1..i]) * 256 + buf[i]
  {
    assert buf[1..i + 1][..i - 1] == buf[1..i];
  }

  /** `decode_prefix_varint_u64`. */
  method DecodePrefixVarintU64(buf: Bytes) returns (r: Option<Number>)
    ensures r == DecodeU64(buf)
  {
    hide FromBytes;
    if |buf| == 0 { return None; }
    var b0 := buf[0];
    NoByte(LowBits(b0), buf);
    if b0 <= 0x7F {
      return Some(Number(b0, 1));
    } else if b0 <= 0xBF {
      if |buf| < 2 { return None; }
      SingleByte(LowBits(b0), buf[1]);
      assert buf[1..2] == [buf[1]];
      return Some(Number((b0 - 0x80) * 256 + buf[1] + ENC_1, 2));
    } else {
      var idx := LeadingOnes(b0) - 1;
      var byteLen := idx + 2;
      if |buf| < byteLen { return None; }
      var val := LowBits(b0);
      var i := 1;
      while i < byteLen
        invariant 1 <= i <= byteLen
        invariant val == FromBytes(LowBits(b0), buf[1..i])
      {
        NextByte(LowBits(b0), buf, i);
        val := val * 256 + buf[i];
        i := i + 1;
      }
      return Some(Number((val + Base(idx + 1)) % U64, byteLen));
    }
  }

  // ---- Round trips ----

  /** The bits that announce n more bytes. */
  function Announced(n: nat): nat {
    match n
    case 0 => 0
    case 1 => 0x80
    case 2 => 0xC0
    case 3 => 0xE0
    case 4 => 0xF0
    case 5 => 0xF8
    case 6 => 0xFC
    case 7 => 0xFE
    case _ => 0xFF
  }

  /** How many bytes follow the first. */
  function Extra(v: nat): nat {
    if v < ENC_1 then 0 else if v < ENC_2 then 1 else if v < ENC_3 then 2 else if v < ENC_4 then 3
    else if v < ENC_5 then 4 else if v < ENC_6 then 5 else if v < ENC_7 then 6 else if v < ENC_8 then 7 else 8
  }

  /** Every encoding is an announcement over a payload. */
  lemma {:induction false} EncodedAs(v: nat) returns (n: nat)
    requires v < U64
    ensures n == Extra(v) <= 8 && Base(n) <= v && Announced(n) + Shifted(v - Base(n), n) < 256
    ensures EncodeU64(v) == Prefixed(Announced(n), v - Base(n), n)
    ensures LeadingOnes(Announced(n) + Shifted(v - Base(n), n)) == n
    ensures LowBits(Announced(n) + Shifted(v - Base(n), n)) == Shifted(v - Base(n), n)
  {
    hide ToBytes;
    n := Extra(v);
    TopBits(v - Base(n));
    if n == 0 {
      NoBytes(v);
    }
    hide Shifted;
  }

  lemma {:induction false} NoBytes(v: nat)
    ensures Shifted(v, 0) == v && ToBytes(v, 0) == []
  {
  }

  /** Reading undoes writing, whatever follows. */
  lemma {:induction false} DecodeEncoded(v: nat, rest: Bytes)
    requires v < U64
    ensures DecodeU64(EncodeU64(v) + rest) == Some(Number(v, |EncodeU64(v)|))
  {
    hide EncodeU64, Shifted, FromBytes, ToBytes, Base, Announced, LeadingOnes, LowBits;
    var n := EncodedAs(v);
    var payload := v - Base(n);
    BytesBack(payload, n);
    var buf := EncodeU64(v) + rest;
    assert buf[1..n + 1] == ToBytes(payload, n);
    assert buf[0] == Announced(n) + Shifted(payload, n);
  }

  // ---- How many encodings a number has ----

  lemma {:induction false} FirstDigit(bs: Bytes)
    requires bs != []
    ensures FromBytes(0, bs) == FromBytes(bs[0], bs[1..])
  {
    var k := |bs| - 1;
    if k == 0 {
      SingleByte(0, bs[0]);
      assert bs == [bs[0]];
    } else {
      FirstDigit(bs[..k]);
      assert bs[..k][1..] == bs[1..][..k - 1];
    }
  }

  /** A number does not determine its bytes: an 8-byte and a 9-byte encoding of `ENC_8`. */
  lemma {:induction false} TwoEncodings()
    ensures var a, b := [0xFE, 0x40, 0, 0, 0, 0, 0, 0], [0xFF, 0, 0, 0, 0, 0, 0, 0, 0];
            a != b && DecodeU64(a) == Some(Number(ENC_8, |a|)) && DecodeU64(b) == Some(Number(ENC_8, |b|))
  {
    var a, b := [0xFE, 0x40, 0, 0, 0, 0, 0, 0], [0xFF, 0, 0, 0, 0, 0, 0, 0, 0];
    SingleByte(0, 0x40);
    assert a[1..2] == [0x40];
    ZeroBytes(0, a, 2);
    assert a[1..8] == a[1..] && Scaled(0x40, 6) == 0x40_0000_0000_0000;
    ZeroBytes(0, b, 1);
    assert b[1..1] == [] && b[1..9] == b[1..] && Scaled(0, 8) == 0;
  }

  /** Zeros after the first `from` bytes only shift what those say. */
  lemma {:induction false} ZeroBytes(top: nat, buf: Bytes, from: nat)
    requires 1 <= from <= |buf| && forall i | from <= i < |buf| :: buf[i] == 0
    ensures FromBytes(top, buf[1..]) == Scaled(FromBytes(top, buf[1..from]), |buf| - from)
    decreases |buf|
  {
    if from < |buf| {
      var k := |buf| - 1;
      ZeroBytes(top, buf[..k], from);
      assert buf[1..][..k - 1] == buf[..k][1..] && buf[..k][1..from] == buf[1..from];
    } else {
      assert buf[1..] == buf[1..from];
    }
  }

  /** A complete encoding is the one the writer makes, unless it is an 8-byte one of a number from
      `ENC_8` on or a 9-byte one that overflows. */
  lemma {:induction false} CanonicalExactly(buf: Bytes, v: nat)
    requires DecodeU64(buf) == Some(Number(v, |buf|))
    ensures EncodeU64(v) == buf <==> !(buf[0] == 0xFE && buf[1] >= 0x40) && !(buf[0] == 0xFF && FromBytes(0, buf[1..]) + ENC_8 >= U64)
  {
    hide Shifted, ToBytes, FromBytes, EncodeU64, Base, Announced, Extra, LowBits, LeadingOnes;
    var n := LeadingOnes(buf[0]);
    var tail := buf[1..n + 1];
    assert buf == [buf[0]] + tail && buf[1..] == tail;
    var payload := FromBytes(LowBits(buf[0]), tail);
    BytesForth(LowBits(buf[0]), tail);
    FirstByte(buf[0]);
    assert buf == Prefixed(Announced(n), payload, n);
    if n == 7 {
      FirstDigit(tail);
      BytesForth(tail[0], tail[1..]);
      ShiftedBelow(payload, 6, 64);
      assert Scaled(64, 6) == 0x40_0000_0000_0000;
    }
    PayloadSize(buf[0], payload);
    var m := EncodedAs(v);
  }

  lemma {:induction false} FirstByte(b: Byte)
    ensures LeadingOnes(b) <= 8 && b == Announced(LeadingOnes(b)) + LowBits(b)
    ensures (LeadingOnes(b) == 7 <==> b == 0xFE) && (LeadingOnes(b) == 8 <==> b == 0xFF)
    ensures LeadingOnes(b) >= 7 ==> LowBits(b) == 0
  {
  }

  /** Which length the writer takes for what was read. */
  lemma {:induction false} PayloadSize(b: Byte, payload: nat)
    requires Shifted(payload, LeadingOnes(b)) == LowBits(b)
    ensures var n := LeadingOnes(b); var v := (payload + Base(n)) % U64;
            if n < 7 || (n == 7 && payload < 0x40_0000_0000_0000) || (n == 8 && payload + ENC_8 < U64)
            then Extra(v) == n && v - Base(n) == payload else Extra(v) != n
  {
    hide Shifted;
    TopBits(payload);
    NoShift(payload);
  }

  lemma {:induction false} NoShift(v: nat)
    ensures Shifted(v, 0) == v
  {
  }
}
