/**
 * The factory trimming parameters (section 4.2.2 of the Bosch BME280
 * datasheet), read as a 26-byte block at 0x88 and a 7-byte block at 0xE1.
 */
module Calibration {
  import opened JsNumber
  import opened Bytes

  /** dig_T1..dig_T3, dig_P1..dig_P9 and dig_H1: the content of the 26-byte block. */
  datatype TempPressTrim = TempPressTrim(
    t1: int, t2: int, t3: int,
    p1: int, p2: int, p3: int, p4: int, p5: int, p6: int, p7: int, p8: int, p9: int,
    h1: int)

  /** dig_H2..dig_H6: the content of the 7-byte block. */
  datatype HumidityTrim = HumidityTrim(h2: int, h3: int, h4: int, h5: int, h6: int)

  predicate IsUInt16(v: int) { 0 <= v < 65536 }
  predicate IsInt16(v: int) { -32768 <= v < 32768 }
  predicate IsInt12(v: int) { -2048 <= v < 2048 }

  /** The datasheet's types: T1 and P1 unsigned 16-bit, H1 unsigned 8-bit, the rest signed 16-bit. */
  predicate ValidTempPress(c: TempPressTrim)
  {
    IsUInt16(c.t1) && IsInt16(c.t2) && IsInt16(c.t3) &&
    IsUInt16(c.p1) && IsInt16(c.p2) && IsInt16(c.p3) && IsInt16(c.p4) && IsInt16(c.p5) &&
    IsInt16(c.p6) && IsInt16(c.p7) && IsInt16(c.p8) && IsInt16(c.p9) &&
    0 <= c.h1 < 256
  }

  /** H2 signed 16-bit, H3 unsigned 8-bit, H4 and H5 signed 12-bit, H6 signed 8-bit. */
  predicate ValidHumidity(h: HumidityTrim)
  {
    IsInt16(h.h2) && 0 <= h.h3 < 256 && IsInt12(h.h4) && IsInt12(h.h5) && -128 <= h.h6 < 128
  }

  /**
   * `_initDig`, first block: twelve little-endian 16-bit fields in bytes
   * 0..23, byte 24 skipped, dig_H1 in byte 25.
   */
  function DecodeTempPress(d: seq<Byte>): (c: TempPressTrim)
    requires |d| == 26
    ensures ValidTempPress(c)
    ensures c.h1 == d[25]
  {
    TempPressTrim(
      ReadUInt16LE(d, 0), ReadInt16LE(d, 2), ReadInt16LE(d, 4),
      ReadUInt16LE(d, 6), ReadInt16LE(d, 8), ReadInt16LE(d, 10), ReadInt16LE(d, 12),
      ReadInt16LE(d, 14), ReadInt16LE(d, 16), ReadInt16LE(d, 18), ReadInt16LE(d, 20),
      ReadInt16LE(d, 22),
      d[25])
  }

  /** The 26 bytes a sensor holding trimming values c presents, with `filler` as the unused byte 24. */
  function EncodeTempPress(c: TempPressTrim, filler: Byte): (d: seq<Byte>)
    requires ValidTempPress(c)
    ensures |d| == 26 && d[24] == filler
  {
    TempBytes(c) + (PressLowBytes(c) + PressHighBytes(c, filler))
  }

  /** Bytes 0..5: dig_T1..dig_T3. */
  function TempBytes(c: TempPressTrim): (d: seq<Byte>)
    requires ValidTempPress(c)
    ensures |d| == 6
  {
    UInt16LE(c.t1) + (Int16LE(c.t2) + Int16LE(c.t3))
  }

  /** Bytes 6..13: dig_P1..dig_P4. */
  function PressLowBytes(c: TempPressTrim): (d: seq<Byte>)
    requires ValidTempPress(c)
    ensures |d| == 8
  {
    UInt16LE(c.p1) + (Int16LE(c.p2) + (Int16LE(c.p3) + Int16LE(c.p4)))
  }

  /** Bytes 14..25: dig_P5..dig_P9, the unused byte and dig_H1. */
  function PressHighBytes(c: TempPressTrim, filler: Byte): (d: seq<Byte>)
    requires ValidTempPress(c)
    ensures |d| == 12 && d[10] == filler
  {
    Int16LE(c.p5) + (Int16LE(c.p6) + (Int16LE(c.p7) + (Int16LE(c.p8) +
    (Int16LE(c.p9) + [filler, c.h1]))))
  }

  /** Decoding recovers every trimming value of the first block. */
  lemma DecodeEncodeTempPress(c: TempPressTrim, filler: Byte)
    requires ValidTempPress(c)
    ensures DecodeTempPress(EncodeTempPress(c, filler)) == c
  {
  }

  /** The bytes of every 26-byte block are exactly the encoding of what it decodes to. */
  lemma EncodeDecodeTempPress(d: seq<Byte>)
    requires |d| == 26
    ensures EncodeTempPress(DecodeTempPress(d), d[24]) == d
  {
    TempBytesOfRead(d);
    PressLowBytesOfRead(d);
    PressHighBytesOfRead(d);
    assert d == d[..6] + (d[6..14] + d[14..]);
  }

  lemma TempBytesOfRead(d: seq<Byte>)
    requires |d| == 26
    ensures TempBytes(DecodeTempPress(d)) == d[..6]
  {
    UInt16LEOfRead(d, 0);
    Int16LEOfRead(d, 2);
    Int16LEOfRead(d, 4);
    assert d[..6] == d[0..2] + (d[2..4] + d[4..6]);
  }

  lemma PressLowBytesOfRead(d: seq<Byte>)
    requires |d| == 26
    ensures PressLowBytes(DecodeTempPress(d)) == d[6..14]
  {
    UInt16LEOfRead(d, 6);
    Int16LEOfRead(d, 8);
    Int16LEOfRead(d, 10);
    Int16LEOfRead(d, 12);
    assert d[6..14] == d[6..8] + (d[8..10] + (d[10..12] + d[12..14]));
  }

  lemma PressHighBytesOfRead(d: seq<Byte>)
    requires |d| == 26
    ensures PressHighBytes(DecodeTempPress(d), d[24]) == d[14..]
  {
    Int16LEOfRead(d, 14);
    Int16LEOfRead(d, 16);
    Int16LEOfRead(d, 18);
    Int16LEOfRead(d, 20);
    Int16LEOfRead(d, 22);
    assert d[14..] == d[14..16] + (d[16..18] + (d[18..20] + (d[20..22] + (d[22..24] + [d[24], d[25]]))));
  }

  /** Byte 24 of the first block influences no trimming value. */
  lemma SkippedByteIgnored(d: seq<Byte>, x: Byte)
    requires |d| == 26
    ensures DecodeTempPress(d[24 := x]) == DecodeTempPress(d)
  {
  }

  // ---------------------------------------------------------------------
  // Second block: dig_H4 and dig_H5 share byte 4 (0xE5) nibble by nibble
  // ---------------------------------------------------------------------

  /**
   * `(readInt8(3) << 4) | (readInt8(4) & 0xF)`: dig_H4 is the signed byte 3
   * as bits 11..4 over the low nibble of byte 4.
   */
  function H4(b3: Byte, b4: Byte): (r: int)
    ensures r == Int8(b3) * 16 + b4 % 16
    ensures IsInt12(r)
  {
    Pow2Values();
    ShlInRange(Int8(b3), 4);
    AndLowBits(Int8(b4), 4);
    Int8LowNibble(b4);
    OrNibbleBelow(Int8(b3), b4 % 16);
    BitOr(Shl(Int8(b3), 4), BitAnd(Int8(b4), 0xF))
  }

  /**
   * `(readInt8(5) << 4) | (readInt8(4) >> 4)` as the driver writes it.
   * Byte 4 is read signed, so for byte 4 >= 0x80 the shift yields a
   * negative number whose set high bits swallow byte 5.
   */
  function H5AsWritten(b4: Byte, b5: Byte): (r: int)
    ensures b4 < 0x80 ==> r == Int8(b5) * 16 + b4 / 16
    ensures b4 >= 0x80 ==> r == b4 / 16 - 16
  {
    H5Operands(b4, b5);
    if b4 < 0x80 then
      OrNibbleBelow(Int8(b5), b4 / 16);
      BitOr(Shl(Int8(b5), 4), Shr(Int8(b4), 4))
    else
      OrNegativeNibble(Int8(b5), b4 / 16 - 16);
      BitOr(Shl(Int8(b5), 4), Shr(Int8(b4), 4))
  }

  /** The two operands of the driver's dig_H5 expression. */
  lemma H5Operands(b4: Byte, b5: Byte)
    ensures Shl(Int8(b5), 4) == Int8(b5) * 16
    ensures Shr(Int8(b4), 4) == if b4 < 0x80 then b4 / 16 else b4 / 16 - 16
  {
    Pow2Values();
    ShlInRange(Int8(b5), 4);
    ShrInRange(Int8(b4), 4);
    if b4 >= 0x80 {
      assert Int8(b4) == (b4 / 16 - 16) * 16 + b4 % 16;
      ModUnique(Int8(b4), 16, b4 / 16 - 16, b4 % 16);
    }
  }

  /**
   * dig_H5 as section 4.2.2 of the datasheet packs it: the signed byte 5 as
   * bits 11..4 over the high nibble of the unsigned byte 4.
   */
  function H5(b4: Byte, b5: Byte): (r: int)
    ensures r == Int8(b5) * 16 + b4 / 16
    ensures IsInt12(r)
  {
    Pow2Values();
    ShlInRange(Int8(b5), 4);
    ShrInRange(b4, 4);
    OrNibbleBelow(Int8(b5), b4 / 16);
    BitOr(Shl(Int8(b5), 4), Shr(b4, 4))
  }

  /**
   * The two agree exactly when the high bit of byte 4 is clear, or when
   * byte 5 is 0xFF (whose set bits the sign extension reproduces).
   */
  lemma H5AsWrittenAgreement(b4: Byte, b5: Byte)
    ensures H5AsWritten(b4, b5) == H5(b4, b5) <==> b4 < 0x80 || b5 == 0xFF
  {
    var asWritten, intended := H5AsWritten(b4, b5), H5(b4, b5);
    if b4 >= 0x80 {
      assert intended - asWritten == 16 * (Int8(b5) + 1);
    }
  }

  /** Byte 4 = 0x80, byte 5 = 0: the datasheet value is 8, the driver computes -8. */
  lemma H5SignExtensionExample()
    ensures H5(0x80, 0) == 8 && H5AsWritten(0x80, 0) == -8
  {
  }

  /**
   * `_initDig`, second block: dig_H2 little-endian signed in bytes 0..1,
   * dig_H3 unsigned in byte 2, dig_H4 and dig_H5 nibble-packed in bytes
   * 3..5, dig_H6 signed in byte 6.
   */
  function DecodeHumidity(d: seq<Byte>): (h: HumidityTrim)
    requires |d| == 7
    ensures ValidHumidity(h)
  {
    HumidityTrim(ReadInt16LE(d, 0), d[2], H4(d[3], d[4]), H5(d[4], d[5]), Int8(d[6]))
  }

  /**
   * The second block as the driver decodes it, with dig_H5 from the
   * sign-extending expression.  It is the datasheet decoding exactly when
   * the two H5s agree.
   */
  function DecodeHumidityAsWritten(d: seq<Byte>): (h: HumidityTrim)
    requires |d| == 7
    ensures ValidHumidity(h)
    ensures h == DecodeHumidity(d) <==> d[4] < 0x80 || d[5] == 0xFF
  {
    H5AsWrittenAgreement(d[4], d[5]);
    HumidityTrim(ReadInt16LE(d, 0), d[2], H4(d[3], d[4]), H5AsWritten(d[4], d[5]), Int8(d[6]))
  }

  /** As written, byte 5 is lost whenever the high bit of byte 4 is set. */
  lemma AsWrittenLosesByte5(d: seq<Byte>, x: Byte)
    requires |d| == 7 && d[4] >= 0x80
    ensures DecodeHumidityAsWritten(d[5 := x]) == DecodeHumidityAsWritten(d)
  {
    var e := d[5 := x];
    assert e[..2] == d[..2];
    assert ReadInt16LE(e, 0) == ReadInt16LE(d, 0) by {
      Int16LEOfRead(e, 0);
      Int16LEOfRead(d, 0);
      assert ReadInt16LE(e, 0) == ReadInt16LE(e[..2], 0) && ReadInt16LE(d, 0) == ReadInt16LE(d[..2], 0);
    }
  }

  /**
   * The blocks 00 00 00 00 80 00 00 and 00 00 00 00 80 12 00 decode to the
   * same record as written, although the datasheet decodings differ.
   */
  lemma AsWrittenCollision()
    ensures DecodeHumidityAsWritten([0, 0, 0, 0, 0x80, 0, 0]) == DecodeHumidityAsWritten([0, 0, 0, 0, 0x80, 0x12, 0])
    ensures DecodeHumidity([0, 0, 0, 0, 0x80, 0, 0]) != DecodeHumidity([0, 0, 0, 0, 0x80, 0x12, 0])
  {
    var a: seq<Byte> := [0, 0, 0, 0, 0x80, 0, 0];
    var b: seq<Byte> := [0, 0, 0, 0, 0x80, 0x12, 0];
    assert a[5 := 0x12] == b;
    AsWrittenLosesByte5(a, 0x12);
    assert DecodeHumidity(a).h5 != DecodeHumidity(b).h5 by {
      assert a[4] == b[4] && a[5] != b[5];
      assert Int8(a[5]) != Int8(b[5]);
    }
  }

  /** The 7 bytes a sensor holding trimming values h presents. */
  function EncodeHumidity(h: HumidityTrim): (d: seq<Byte>)
    requires ValidHumidity(h)
    ensures |d| == 7
  {
    Int16LE(h.h2) +
    [h.h3, Int8Byte(h.h4 / 16), h.h4 % 16 + 16 * (h.h5 % 16), Int8Byte(h.h5 / 16), Int8Byte(h.h6)]
  }

  /** Decoding recovers every trimming value of the second block... */
  lemma DecodeEncodeHumidity(h: HumidityTrim)
    requires ValidHumidity(h)
    ensures DecodeHumidity(EncodeHumidity(h)) == h
  {
    var d := EncodeHumidity(h);
    assert d[..2] == Int16LE(h.h2);
    var b3, b4, b5 := Int8Byte(h.h4 / 16), h.h4 % 16 + 16 * (h.h5 % 16), Int8Byte(h.h5 / 16);
    assert d[3] == b3 && d[4] == b4 && d[5] == b5;
    DivModUnique(b4, 16, h.h5 % 16, h.h4 % 16);
    DivModUnique(h.h4, 16, h.h4 / 16, h.h4 % 16);
    DivModUnique(h.h5, 16, h.h5 / 16, h.h5 % 16);
    assert H4(b3, b4) == h.h4;
    assert H5(b4, b5) == h.h5;
    assert Int8(Int8Byte(h.h6)) == h.h6;
  }

  /** ...and every 7-byte block is the encoding of what it decodes to. */
  lemma EncodeDecodeHumidity(d: seq<Byte>)
    requires |d| == 7
    ensures EncodeHumidity(DecodeHumidity(d)) == d
  {
    var h := DecodeHumidity(d);
    var e := EncodeHumidity(h);
    assert e[0] == d[0] && e[1] == d[1] by {
      Int16LEOfRead(d, 0);
      assert e[..2] == d[..2];
    }
    assert e[3] == d[3] && e[4] == d[4] && e[5] == d[5] by {
      NibbleBytes(d[3], d[4], d[5]);
    }
    assert e[6] == d[6] by {
      Int8ByteOfInt8(d[6]);
    }
    SameSeven(e, d);
  }

  /** Re-encoding dig_H4 and dig_H5 gives back bytes 3, 4 and 5 of the block. */
  lemma NibbleBytes(b3: Byte, b4: Byte, b5: Byte)
    ensures Int8Byte(H4(b3, b4) / 16) == b3
    ensures H4(b3, b4) % 16 + 16 * (H5(b4, b5) % 16) == b4
    ensures Int8Byte(H5(b4, b5) / 16) == b5
  {
    SplitNibble(Int8(b3), b4 % 16);
    SplitNibble(Int8(b5), b4 / 16);
    Int8ByteOfInt8(b3);
    Int8ByteOfInt8(b5);
  }

  lemma Int8LowNibble(b: Byte)
    ensures Int8(b) % 16 == b % 16
  {
  }

  lemma SplitNibble(hi: int, lo: int)
    requires 0 <= lo < 16
    ensures (hi * 16 + lo) / 16 == hi && (hi * 16 + lo) % 16 == lo
  {
    ModUnique(hi * 16 + lo, 16, hi, lo);
  }

  lemma SameSeven(e: seq<Byte>, d: seq<Byte>)
    requires |e| == 7 && |d| == 7
    requires e[0] == d[0] && e[1] == d[1] && e[2] == d[2] && e[3] == d[3]
    requires e[4] == d[4] && e[5] == d[5] && e[6] == d[6]
    ensures e == d
  {
  }
}
