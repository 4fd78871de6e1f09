/**
 * The BME280 register map and the encoding of the two control registers
 * (section 5.4 of the Bosch BME280 datasheet): `ctrl_hum` (0xF2) carries
 * the humidity oversampling code in bits 2..0, `ctrl_meas` (0xF4) the
 * temperature code in bits 7..5, the pressure code in bits 4..2 and the
 * power mode in bits 1..0.
 */
module Registers {
  import opened Outcomes
  import opened JsNumber

  const DeviceAddress: int := 0x76   // 7-bit I2C address (0x77 with SDO high)

  const RegData: int := 0xF7         // 8-byte burst: press[3], temp[3], hum[2]
  const RegConfig: int := 0xF5
  const RegCtrlMeas: int := 0xF4
  const RegStatus: int := 0xF3
  const RegCtrlHum: int := 0xF2
  const RegHwId: int := 0xD0
  const RegReset: int := 0xE0
  const RegCalibLow: int := 0x88     // 26 bytes of trimming parameters
  const RegCalibHigh: int := 0xE1    // 7 bytes of trimming parameters

  const ChipId: int := 0x60

  const ModeSleep: int := 0
  const ModeForced: int := 1
  const ModeNormal: int := 3

  /**
   * The oversampling lookup table: a factor of 0 (skipped), 1, 2, 4, 8 or
   * 16 samples maps to the 3-bit register code 0..5; any other factor has
   * no entry.
   */
  function OversamplingCode(factor: int): (r: Option<int>)
    ensures r.Some? <==> factor in {0, 1, 2, 4, 8, 16}
    ensures r.Some? ==> 0 <= r.value <= 5 && OversamplingFactor(r.value) == factor
  {
    Pow2Values();
    if factor == 0 then Some(0)
    else if factor == 1 then Some(1)
    else if factor == 2 then Some(2)
    else if factor == 4 then Some(3)
    else if factor == 8 then Some(4)
    else if factor == 16 then Some(5)
    else None
  }

  /** The number of samples a register code 0..5 stands for: none, then 2^(code-1). */
  function OversamplingFactor(code: int): int
    requires 0 <= code <= 5
  {
    if code == 0 then 0 else Pow2(code - 1)
  }

  /** The table is onto the codes 0..5: every code is the entry of its own factor. */
  lemma OversamplingCodeOfFactor(code: int)
    requires 0 <= code <= 5
    ensures OversamplingCode(OversamplingFactor(code)) == Some(code)
  {
    Pow2Values();
  }

  /** The three fields of a `ctrl_meas` byte. */
  datatype MeasConfig = MeasConfig(osrsT: int, osrsP: int, mode: int)

  /** Reads `ctrl_meas` back: bits 7..5, bits 4..2 and bits 1..0. */
  function MeasFields(b: int): MeasConfig
  {
    MeasConfig(Shr(b, 5), BitAnd(Shr(b, 2), 7), BitAnd(b, 3))
  }

  /**
   * `(osrs_t << 5) + (osrs_p << 2) + MODE_NORMAL`: a byte whose fields are
   * exactly the two codes and normal mode.
   */
  function CtrlMeas(osrsT: int, osrsP: int): (r: int)
    requires 0 <= osrsT < 8 && 0 <= osrsP < 8
    ensures 0 <= r < 256
    ensures MeasFields(r) == MeasConfig(osrsT, osrsP, ModeNormal)
  {
    ShlSmall(osrsT, osrsP);
    FieldsOfPacked(osrsT, osrsP);
    Shl(osrsT, 5) + Shl(osrsP, 2) + ModeNormal
  }

  lemma ShlSmall(osrsT: int, osrsP: int)
    requires 0 <= osrsT < 8 && 0 <= osrsP < 8
    ensures Shl(osrsT, 5) == 32 * osrsT && Shl(osrsP, 2) == 4 * osrsP
  {
    Pow2Values();
    ShlInRange(osrsT, 5);
    ShlInRange(osrsP, 2);
  }

  lemma FieldsOfPacked(osrsT: int, osrsP: int)
    requires 0 <= osrsT < 8 && 0 <= osrsP < 8
    ensures MeasFields(32 * osrsT + 4 * osrsP + 3) == MeasConfig(osrsT, osrsP, 3)
  {
    var r := 32 * osrsT + 4 * osrsP + 3;
    Pow2Values();
    assert Shr(r, 5) == osrsT by {
      ShrInRange(r, 5);
      ModUnique(r, 32, osrsT, 4 * osrsP + 3);
    }
    var q := 8 * osrsT + osrsP;
    assert Shr(r, 2) == q by {
      ShrInRange(r, 2);
      ModUnique(r, 4, q, 3);
    }
    assert BitAnd(q, 7) == osrsP by {
      AndLowBits(q, 3);
      ModUnique(q, 8, osrsT, osrsP);
    }
    assert BitAnd(r, 3) == 3 by {
      AndLowBits(r, 2);
      ModUnique(r, 4, q, 3);
    }
  }

  /**
   * The settings the driver hard-codes (8x oversampling for all three
   * quantities, normal mode) give `ctrl_meas` = 0x93 and `ctrl_hum` = 4;
   * 1x oversampling would give the distinct bytes 0x27 and 1.
   */
  lemma DriverControlBytes()
    ensures OversamplingCode(8) == Some(4) && CtrlMeas(4, 4) == 0x93
    ensures OversamplingCode(1) == Some(1) && CtrlMeas(1, 1) == 0x27
  {
    Pow2Values();
    ShlInRange(4, 5);
    ShlInRange(4, 2);
    ShlInRange(1, 5);
    ShlInRange(1, 2);
  }
}
