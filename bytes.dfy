/**
 * The Node.js Buffer accessors the driver uses to take integers out of the
 * bytes read from the sensor, with the encoders that put them back.
 */
module Bytes {
  import opened JsNumber

  type Byte = b: int | 0 <= b < 256

  /** Two's-complement reading of an 8-bit value. */
  function Int8(b: Byte): (r: int)
    ensures -128 <= r < 128 && (b - r) % 256 == 0
  {
    if b < 128 then b else b - 256
  }

  /** Two's-complement reading of a 16-bit value. */
  function Int16(u: int): (r: int)
    requires 0 <= u < 65536
    ensures -32768 <= r < 32768 && (u - r) % 65536 == 0
  {
    if u < 32768 then u else u - 65536
  }

  /** `buf.readUInt16LE(i)`: the low byte comes first. */
  function ReadUInt16LE(d: seq<Byte>, i: nat): (r: int)
    requires i + 2 <= |d|
    ensures 0 <= r < 65536 && r % 256 == d[i] && r / 256 == d[i + 1]
  {
    d[i] as int + 256 * d[i + 1] as int
  }

  /** `buf.readInt16LE(i)`. */
  function ReadInt16LE(d: seq<Byte>, i: nat): (r: int)
    requires i + 2 <= |d|
    ensures -32768 <= r < 32768
  {
    Int16(ReadUInt16LE(d, i))
  }

  /** `buf.readUInt16BE(i)`: the high byte comes first. */
  function ReadUInt16BE(d: seq<Byte>, i: nat): (r: int)
    requires i + 2 <= |d|
    ensures 0 <= r < 65536 && r / 256 == d[i] && r % 256 == d[i + 1]
  {
    256 * d[i] as int + d[i + 1] as int
  }

  /** `buf.readUIntBE(i, 3)`: a 24-bit big-endian value. */
  function ReadUInt24BE(d: seq<Byte>, i: nat): (r: int)
    requires i + 3 <= |d|
    ensures 0 <= r < 0x100_0000
    ensures r / 65536 == d[i] && (r / 256) % 256 == d[i + 1] && r % 256 == d[i + 2]
  {
    var x, y, z := d[i] as int, d[i + 1] as int, d[i + 2] as int;
    DivModUnique(65536 * x + 256 * y + z, 256, 256 * x + y, z);
    DivModUnique(256 * x + y, 256, x, y);
    DivModUnique(65536 * x + 256 * y + z, 65536, x, 256 * y + z);
    65536 * x + 256 * y + z
  }

  /** The two bytes, low first, of an unsigned 16-bit value. */
  function UInt16LE(v: int): (r: seq<Byte>)
    requires 0 <= v < 65536
    ensures |r| == 2 && ReadUInt16LE(r, 0) == v
  {
    [v % 256, v / 256]
  }

  /** The two bytes, low first, of a signed 16-bit value. */
  function Int16LE(v: int): (r: seq<Byte>)
    requires -32768 <= v < 32768
    ensures |r| == 2 && ReadInt16LE(r, 0) == v
  {
    UInt16LE(v % 65536)
  }

  /** The byte holding a signed 8-bit value. */
  function Int8Byte(v: int): (r: Byte)
    requires -128 <= v < 128
    ensures Int8(r) == v
  {
    v % 256
  }

  lemma Int8ByteOfInt8(b: Byte)
    ensures Int8Byte(Int8(b)) == b
  {
  }

  lemma Int16LEOfRead(d: seq<Byte>, i: nat)
    requires i + 2 <= |d|
    ensures Int16LE(ReadInt16LE(d, i)) == d[i..i + 2]
  {
  }

  lemma UInt16LEOfRead(d: seq<Byte>, i: nat)
    requires i + 2 <= |d|
    ensures UInt16LE(ReadUInt16LE(d, i)) == d[i..i + 2]
  {
  }
}
