/**
 * CRC-32 as `zlib.crc32` computes it (ISO 3309 / ITU-T V.42, section 8 of
 * RFC 1952): reflected polynomial 0xEDB88320, register preset to all ones,
 * result complemented. Bytes are processed least significant bit first.
 */
module Crc32 {
  import opened Json
  import Hex

  const Polynomial: bv32 := 0xEDB8_8320

  /** `k` shift steps of the reflected CRC register. */
  function ShiftBits(c: bv32, k: nat): bv32
    decreases k
  {
    if k == 0 then c
    else ShiftBits(if c & 1 == 1 then (c >> 1) ^ Polynomial else c >> 1, k - 1)
  }

  /** Feeds bytes into the register. */
  function Update(c: bv32, bytes: seq<bv8>): bv32
    decreases |bytes|
  {
    if bytes == [] then c else Update(ShiftBits(c ^ (bytes[0] as bv32), 8), bytes[1..])
  }

  function Octets(bytes: seq<byte>): (r: seq<bv8>)
    ensures |r| == |bytes|
    ensures forall i :: 0 <= i < |bytes| ==> r[i] == bytes[i] as int as bv8
  {
    seq(|bytes|, i requires 0 <= i < |bytes| => bytes[i] as int as bv8)
  }

  /** The CRC-32 of a byte string, as an unsigned 32-bit value. */
  function Crc(bytes: seq<byte>): bv32 {
    Update(0xFFFF_FFFF, Octets(bytes)) ^ 0xFFFF_FFFF
  }

  /** The checksum as eight upper-case hex digits, zero-padded. */
  function Format(crc: bv32): (r: string)
    ensures |r| == 8
    ensures forall i :: 0 <= i < 8 ==> Hex.IsHexChar(r[i], true)
  {
    Hex.Digits(crc as int, 8, true)
  }

  /** The eight digits read back give the checksum: formatting loses nothing. */
  lemma FormatRoundTrip(crc: bv32)
    ensures Hex.Parse(Format(crc)) == crc as int
  {
    Hex.DigitsRoundTrip(crc as int, 8, true);
    Pow16Eight();
    Hex.DivModUnique(crc as int, 0x1_0000_0000, 0, crc as int);
  }

  lemma Pow16Eight()
    ensures Hex.Pow16(8) == 0x1_0000_0000
  {
    assert Hex.Pow16(2) == 0x100;
    assert Hex.Pow16(4) == 0x1_0000;
    assert Hex.Pow16(6) == 0x100_0000;
  }

  lemma FormatInjective(a: bv32, b: bv32)
    requires Format(a) == Format(b)
    ensures a == b
  {
    FormatRoundTrip(a);
    FormatRoundTrip(b);
    WordFromInt(a);
    WordFromInt(b);
  }

  lemma WordFromInt(w: bv32)
    ensures (w as int) as bv32 == w
  {
  }

  lemma UpdateStep(c: bv32, bytes: seq<bv8>, c': bv32)
    requires bytes != [] && ShiftBits(c ^ (bytes[0] as bv32), 8) == c'
    ensures Update(c, bytes) == Update(c', bytes[1..])
  {
  }

  lemma Byte1() ensures ShiftBits(0xffffffff ^ 0x31, 8) == 0x7c231048 { }
  lemma Byte2() ensures ShiftBits(0x7c231048 ^ 0x32, 8) == 0xb0acbb32 { }
  lemma Byte3() ensures ShiftBits(0xb0acbb32 ^ 0x33, 8) == 0x77b79c2d { }
  lemma Byte4() ensures ShiftBits(0x77b79c2d ^ 0x34, 8) == 0x641c1f5c { }
  lemma Byte5() ensures ShiftBits(0x641c1f5c ^ 0x35, 8) == 0x340ac5e3 { }
  lemma Byte6() ensures ShiftBits(0x340ac5e3 ^ 0x36, 8) == 0xf68d2c9e { }
  lemma Byte7() ensures ShiftBits(0xf68d2c9e ^ 0x37, 8) == 0xaffc9660 { }
  lemma Byte8() ensures ShiftBits(0xaffc9660 ^ 0x38, 8) == 0x651f2550 { }
  lemma Byte9() ensures ShiftBits(0x651f2550 ^ 0x39, 8) == 0x340bc6d9 { }

  lemma CheckOctets(s: seq<bv8>)
    requires |s| == 9 && s[0] == 0x31 && s[1] == 0x32 && s[2] == 0x33 && s[3] == 0x34
    requires s[4] == 0x35 && s[5] == 0x36 && s[6] == 0x37 && s[7] == 0x38 && s[8] == 0x39
    ensures Update(0xffffffff, s) ^ 0xffffffff == 0xCBF4_3926
  {
    Byte1(); UpdateStep(0xffffffff, s[0..], 0x7c231048); assert s[0..][1..] == s[1..];
    Byte2(); UpdateStep(0x7c231048, s[1..], 0xb0acbb32); assert s[1..][1..] == s[2..];
    Byte3(); UpdateStep(0xb0acbb32, s[2..], 0x77b79c2d); assert s[2..][1..] == s[3..];
    Byte4(); UpdateStep(0x77b79c2d, s[3..], 0x641c1f5c); assert s[3..][1..] == s[4..];
    Byte5(); UpdateStep(0x641c1f5c, s[4..], 0x340ac5e3); assert s[4..][1..] == s[5..];
    Byte6(); UpdateStep(0x340ac5e3, s[5..], 0xf68d2c9e); assert s[5..][1..] == s[6..];
    Byte7(); UpdateStep(0xf68d2c9e, s[6..], 0xaffc9660); assert s[6..][1..] == s[7..];
    Byte8(); UpdateStep(0xaffc9660, s[7..], 0x651f2550); assert s[7..][1..] == s[8..];
    Byte9(); UpdateStep(0x651f2550, s[8..], 0x340bc6d9); assert s[8..][1..] == s[9..];
  }

  lemma OctetOf(b: byte, n: bv8)
    requires b as int == n as int
    ensures b as int as bv8 == n
  {
  }

  /**
   * The standard check value: the CRC-32 of the ASCII bytes of "123456789"
   * is CBF43926, so this is the zlib polynomial, preset and final XOR.
   */
  lemma CheckValue()
    ensures Crc([0x31, 0x32, 0x33, 0x34, 0x35, 0x36, 0x37, 0x38, 0x39]) == 0xCBF4_3926
  {
    var b: seq<byte> := [0x31, 0x32, 0x33, 0x34, 0x35, 0x36, 0x37, 0x38, 0x39];
    var o := Octets(b);
    OctetOf(b[0], 0x31); OctetOf(b[1], 0x32); OctetOf(b[2], 0x33);
    OctetOf(b[3], 0x34); OctetOf(b[4], 0x35); OctetOf(b[5], 0x36);
    OctetOf(b[6], 0x37); OctetOf(b[7], 0x38); OctetOf(b[8], 0x39);
    CheckOctets(o);
  }
}
