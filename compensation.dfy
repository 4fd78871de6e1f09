/**
 * The integer part of `readSensorData`: cutting the 8-byte burst into the
 * three ADC values, the "no new data" guard, and the 32-bit fixed-point
 * temperature compensation of section 4.2.3 of the Bosch BME280 datasheet.
 */
module Compensation {
  import opened Outcomes
  import opened JsNumber
  import opened Bytes
  import opened Calibration

  /** Raw pressure, temperature and humidity ADC values of one burst. */
  datatype RawSample = RawSample(adcP: int, adcT: int, adcH: int)

  predicate ValidRaw(r: RawSample)
  {
    0 <= r.adcP < 0x10_0000 && 0 <= r.adcT < 0x10_0000 && 0 <= r.adcH < 0x1_0000
  }

  /**
   * Bytes 0..2 and 3..5 are 24-bit big-endian pressure and temperature
   * words whose low nibble is dropped (`>> 4`); bytes 6..7 are the 16-bit
   * big-endian humidity value.
   */
  function ExtractRaw(d: seq<Byte>): (r: RawSample)
    requires |d| == 8
    ensures ValidRaw(r)
    ensures r.adcP == ReadUInt24BE(d, 0) / 16 && r.adcT == ReadUInt24BE(d, 3) / 16
    ensures r.adcH / 256 == d[6] && r.adcH % 256 == d[7]
  {
    Pow2Values();
    ShrInRange(ReadUInt24BE(d, 0), 4);
    ShrInRange(ReadUInt24BE(d, 3), 4);
    RawSample(Shr(ReadUInt24BE(d, 0), 4), Shr(ReadUInt24BE(d, 3), 4), ReadUInt16BE(d, 6))
  }

  /** The burst a sensor presents for a raw sample, with the unused low nibbles zero. */
  function EncodeRaw(r: RawSample): (d: seq<Byte>)
    requires ValidRaw(r)
    ensures |d| == 8 && d[2] % 16 == 0 && d[5] % 16 == 0
  {
    Word24ClearNibble(r.adcP);
    Word24ClearNibble(r.adcT);
    Word24(r.adcP * 16) + Word24(r.adcT * 16) + [r.adcH / 256, r.adcH % 256]
  }

  /** A 20-bit value shifted into a 24-bit word leaves the low nibble of its last byte clear. */
  lemma Word24ClearNibble(v: int)
    requires 0 <= v < 0x10_0000
    ensures Word24(v * 16)[2] % 16 == 0
  {
    var n := v % 16;
    assert v * 16 == 256 * (v / 16) + n * 16;
    DivModUnique(v * 16, 256, v / 16, n * 16);
    DivModUnique(n * 16, 16, n, 0);
  }

  /** The three big-endian bytes of a 24-bit word. */
  function Word24(w: int): (b: seq<Byte>)
    requires 0 <= w < 0x100_0000
    ensures |b| == 3 && ReadUInt24BE(b, 0) == w
  {
    [w / 65536, (w / 256) % 256, w % 256]
  }

  lemma ExtractEncodeRaw(r: RawSample)
    requires ValidRaw(r)
    ensures ExtractRaw(EncodeRaw(r)) == r
  {
    var d := EncodeRaw(r);
    assert d[0..3] == Word24(r.adcP * 16) && d[3..6] == Word24(r.adcT * 16);
  }

  /** Extraction loses only the two unused low nibbles. */
  lemma EncodeExtractRaw(d: seq<Byte>)
    requires |d| == 8 && d[2] % 16 == 0 && d[5] % 16 == 0
    ensures EncodeRaw(ExtractRaw(d)) == d
  {
    var r := ExtractRaw(d);
    assert Word24(r.adcP * 16) == d[0..3] by {
      WordOfBytes24(d[0..3]);
    }
    assert Word24(r.adcT * 16) == d[3..6] by {
      WordOfBytes24(d[3..6]);
    }
    assert [r.adcH / 256, r.adcH % 256] == d[6..8];
    assert d == d[0..3] + d[3..6] + d[6..8];
  }

  /** With a clear low nibble, dropping and restoring it gives back the three bytes. */
  lemma WordOfBytes24(b: seq<Byte>)
    requires |b| == 3 && b[2] % 16 == 0
    ensures Word24(ReadUInt24BE(b, 0) / 16 * 16) == b
  {
    var w := ReadUInt24BE(b, 0);
    assert w / 16 * 16 == w;
  }

  /** The raw triple the sensor reports while no measurement has completed. */
  predicate IsSentinel(r: RawSample)
  {
    r.adcT == 0 && r.adcP == 524288 && r.adcH == 0
  }

  /** The burst 80 00 00 00 00 00 00 00 is the sentinel triple (524288, 0, 0). */
  lemma SentinelBurst()
    ensures ExtractRaw([0x80, 0, 0, 0, 0, 0, 0, 0]) == RawSample(524288, 0, 0)
  {
  }

  /** Exactly the bursts 80 00 0x 00 00 0y 00 00 (x and y any nibbles) are taken for "no data". */
  lemma SentinelBytes(d: seq<Byte>)
    requires |d| == 8
    ensures IsSentinel(ExtractRaw(d)) <==>
      d[0] == 0x80 && d[1] == 0 && d[2] < 16 && d[3] == 0 && d[4] == 0 && d[5] < 16 &&
      d[6] == 0 && d[7] == 0
  {
  }

  // ---------------------------------------------------------------------
  // Temperature
  // ---------------------------------------------------------------------

  const TFineBound: int := 0x12_0000   // 2^20 + 2^17

  /**
   * t_fine: `tvar1 = (((adc_T >> 3) - (T1 << 1)) * T2) >> 11`,
   * `tvar2 = (((((adc_T >> 4) - T1) * ((adc_T >> 4) - T1)) >> 12) * T3) >> 14`,
   * with every shift wrapping its operand to 32 bits first.  Whatever the
   * inputs, tvar1 lies in [-2^20, 2^20) and tvar2 in [-2^17, 2^17).
   */
  function TFine(adcT: int, t1: int, t2: int, t3: int): (r: int)
    ensures -TFineBound <= r < TFineBound
  {
    var p1 := (Shr(adcT, 3) - Shl(t1, 1)) * t2;
    var p2 := Shr((Shr(adcT, 4) - t1) * (Shr(adcT, 4) - t1), 12) * t3;
    ShrTermBounds(p1, p2);
    Shr(p1, 11) + Shr(p2, 14)
  }

  /** Any 32-bit value shifted right by 11 lies in [-2^20, 2^20), and by 14 in [-2^17, 2^17). */
  lemma ShrTermBounds(x: int, y: int)
    ensures -0x10_0000 <= Shr(x, 11) < 0x10_0000
    ensures -0x2_0000 <= Shr(y, 14) < 0x2_0000
  {
    Pow2Values();
    var a, b := ToInt32(x), ToInt32(y);
    assert Shr(x, 11) == a / 2048 && a == 2048 * (a / 2048) + a % 2048;
    assert Shr(y, 14) == b / 16384 && b == 16384 * (b / 16384) + b % 16384;
  }

  /**
   * `(t_fine * 5 + 128) >> 8`: the temperature in hundredths of a degree,
   * t_fine * 5 / 256 rounded to the nearest integer (halves upwards).
   */
  function CentiCelsius(tFine: int): (c: int)
    ensures -TFineBound <= tFine < TFineBound ==>
      256 * c - 128 <= 5 * tFine < 256 * c + 128 && -23040 <= c <= 23040
  {
    Pow2Values();
    if -TFineBound <= tFine < TFineBound then
      ShrInRange(tFine * 5 + 128, 8);
      Shr(tFine * 5 + 128, 8)
    else
      Shr(tFine * 5 + 128, 8)
  }

  /** The reported temperature in degrees Celsius (`... / 100`), as an exact rational. */
  function Celsius(centi: int): (t: real)
    ensures t * 100.0 == centi as real
  {
    centi as real / 100.0
  }

  /**
   * The datasheet's fixed-point formula in unbounded arithmetic, with `>>`
   * as floor division and no 32-bit wrap-around.
   */
  function ReferenceTFine(adcT: int, t1: int, t2: int, t3: int): int
  {
    var v1 := ((adcT / 8 - t1 * 2) * t2) / 2048;
    var dt := adcT / 16 - t1;
    var v2 := ((dt * dt) / 4096 * t3) / 16384;
    v1 + v2
  }

  /** The three products of the formula stay in the signed 32-bit range. */
  predicate NoWrap(adcT: int, t1: int, t2: int, t3: int)
  {
    var dt := adcT / 16 - t1;
    -Two31 <= (adcT / 8 - t1 * 2) * t2 < Two31 &&
    dt * dt < Two31 &&
    -Two31 <= (dt * dt) / 4096 * t3 < Two31
  }

  /** While no product wraps, the driver's t_fine is the datasheet's. */
  lemma TFineMatchesReference(adcT: int, t1: int, t2: int, t3: int)
    requires 0 <= adcT < 0x10_0000 && IsUInt16(t1)
    requires NoWrap(adcT, t1, t2, t3)
    ensures TFine(adcT, t1, t2, t3) == ReferenceTFine(adcT, t1, t2, t3)
  {
    Pow2Values();
    ShrInRange(adcT, 3);
    ShrInRange(adcT, 4);
    ShlInRange(t1, 1);
    var dt := adcT / 16 - t1;
    ShrInRange((adcT / 8 - t1 * 2) * t2, 11);
    ShrInRange(dt * dt, 12);
    ShrInRange((dt * dt) / 4096 * t3, 14);
  }

  /** T1 = 27504, T2 = 26435, T3 = -1000 and adc_T = 519888 give t_fine = 128422, i.e. 25.08 degrees. */
  lemma TemperatureExample()
    ensures TFine(519888, 27504, 26435, -1000) == 128422
    ensures CentiCelsius(128422) == 2508 && Celsius(2508) == 25.08
  {
    assert 519888 / 8 == 64986 && 519888 / 16 == 32493;
    assert (64986 - 27504 * 2) * 26435 == 263768430;
    assert 263768430 / 2048 == 128793;
    assert (32493 - 27504) * (32493 - 27504) == 24890121;
    assert 24890121 / 4096 == 6076 && 6076 * -1000 == -6076000 && -6076000 / 16384 == -371;
    assert NoWrap(519888, 27504, 26435, -1000);
    assert ReferenceTFine(519888, 27504, 26435, -1000) == 128422;
    TFineMatchesReference(519888, 27504, 26435, -1000);
    assert (128422 * 5 + 128) / 256 == 2508;
  }

  // ---------------------------------------------------------------------
  // One burst to one reading
  // ---------------------------------------------------------------------

  datatype Reading = Reading(tFine: int, centiCelsius: int)

  /**
   * The integer part of `readSensorData` after the burst has arrived: the
   * sentinel is rejected before any compensation; otherwise the reading is
   * the temperature of the burst's adc_T under the trimming values T1..T3.
   */
  function Measure(d: seq<Byte>, trim: TempPressTrim): (r: Result<Reading>)
    requires |d| == 8
    ensures r.Err? <==> IsSentinel(ExtractRaw(d))
    ensures r.Err? ==> r.error == DataNotReady
    ensures r.Ok? ==> r.value.tFine == TFine(ReadUInt24BE(d, 3) / 16, trim.t1, trim.t2, trim.t3)
    ensures r.Ok? ==> 256 * r.value.centiCelsius - 128 <= 5 * r.value.tFine < 256 * r.value.centiCelsius + 128
  {
    var raw := ExtractRaw(d);
    if IsSentinel(raw) then Err(DataNotReady)
    else
      var tFine := TFine(raw.adcT, trim.t1, trim.t2, trim.t3);
      Ok(Reading(tFine, CentiCelsius(tFine)))
  }

  /**
   * The temperature depends on nothing but the temperature bytes of the
   * burst and T1..T3: not on the pressure or humidity bytes, nor on any
   * pressure or humidity coefficient.
   */
  lemma TemperatureDependsOnTemperatureInputsOnly(d1: seq<Byte>, d2: seq<Byte>, c1: TempPressTrim, c2: TempPressTrim)
    requires |d1| == 8 && |d2| == 8 && d1[3..6] == d2[3..6]
    requires c1.t1 == c2.t1 && c1.t2 == c2.t2 && c1.t3 == c2.t3
    requires Measure(d1, c1).Ok? && Measure(d2, c2).Ok?
    ensures Measure(d1, c1) == Measure(d2, c2)
  {
    assert d1[3] == d2[3] && d1[4] == d2[4] && d1[5] == d2[5] by {
      assert d1[3..6][0] == d1[3] && d1[3..6][1] == d1[4] && d1[3..6][2] == d1[5];
    }
  }
}
