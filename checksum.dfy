/** The checksum field of an outbound frame (src/backends/rcon.cpp:84-103,
    153-172).

    The client computes a CRC-32 over the payload, prints it as eight
    zero-padded lower-case hex digits, and reads the digits back two at a time
    from the right, so that the checksum goes on the wire least significant
    octet first. */
module Checksum {
  import opened Bytes

  /** 2 to the power `n`. */
  function Pow2(n: nat): nat
  {
    if n == 0 then 1 else 2 * Pow2(n - 1)
  }

  /** Bitwise exclusive or of the low `n` bits of `a` and `b`. */
  function XorBits(a: nat, b: nat, n: nat): (r: nat)
    ensures r < Pow2(n)
  {
    if n == 0 then 0 else 2 * XorBits(a / 2, b / 2, n - 1) + (a + b) % 2
  }

  lemma Pow2Of32()
    ensures Pow2(32) == 0x1_0000_0000
  {
    assert Pow2(4) == 16;
    assert Pow2(8) == 256;
    assert Pow2(12) == 0x1000;
    assert Pow2(16) == 0x1_0000;
    assert Pow2(20) == 0x10_0000;
    assert Pow2(24) == 0x100_0000;
    assert Pow2(28) == 0x1000_0000;
  }

  /** Exclusive or of two 32-bit values. */
  function Xor32(a: nat, b: nat): (r: nat)
    ensures r < 0x1_0000_0000
  {
    Pow2Of32();
    XorBits(a, b, 32)
  }

  /** `n` reflected CRC-32 shift steps (polynomial 0xEDB88320). */
  function CrcBits(reg: nat, n: nat): (r: nat)
    requires reg < 0x1_0000_0000
    ensures r < 0x1_0000_0000
    decreases n
  {
    if n == 0 then reg
    else if reg % 2 == 1 then CrcBits(Xor32(reg / 2, 0xEDB8_8320), n - 1)
    else CrcBits(reg / 2, n - 1)
  }

  /** The CRC register after feeding it `data`, one octet at a time. */
  function CrcRegister(reg: nat, data: seq<Byte>): (r: nat)
    requires reg < 0x1_0000_0000
    ensures r < 0x1_0000_0000
    decreases |data|
  {
    if data == [] then reg
    else CrcRegister(CrcBits(Xor32(reg, data[0]), 8), data[1..])
  }

  /** The standard CRC-32 (reflected polynomial 0xEDB88320, initial value
      and final xor 0xFFFFFFFF), as a number below 2^32. Nothing proved in
      this project depends on which 32-bit checksum this is. */
  function Crc32(data: seq<Byte>): (crc: nat)
    ensures crc < 0x1_0000_0000
  {
    Xor32(CrcRegister(0xFFFF_FFFF, data), 0xFFFF_FFFF)
  }

  /** The lower-case hex digit `std::hex` prints for `d`. */
  function HexDigit(d: int): char
    requires 0 <= d < 16
  {
    if d < 10 then ('0' as int + d) as char else ('a' as int + d - 10) as char
  }

  /** The value `std::hex` reads back from one hex digit (either case). */
  function HexValue(c: char): (d: int)
    ensures 0 <= d < 16
  {
    if '0' <= c <= '9' then c as int - '0' as int
    else if 'a' <= c <= 'f' then c as int - 'a' as int + 10
    else if 'A' <= c <= 'F' then c as int - 'A' as int + 10
    else 0
  }

  /** `v` printed in hex, zero-padded to `width` digits, most significant
      digit first (`std::setfill('0') << std::setw(width) << std::hex`, for a
      value that fits in `width` digits). */
  function ToHex(v: nat, width: nat): (s: string)
    ensures |s| == width
  {
    if width == 0 then [] else ToHex(v / 16, width - 1) + [HexDigit(v % 16)]
  }

  /** The value of a two-digit hex string. */
  function ParseHexPair(s: string): (x: int)
    requires |s| == 2
    ensures 0 <= x < 256
  {
    16 * HexValue(s[0]) + HexValue(s[1])
  }

  /** The last two printed digits are the low octet, and the rest is the
      printing of what is left after dropping that octet. */
  lemma ToHexLastPair(v: nat, width: nat)
    requires width >= 2
    ensures ToHex(v, width) == ToHex(v / 256, width - 2) + [HexDigit((v / 16) % 16), HexDigit(v % 16)]
  {
    assert (v / 16) / 16 == v / 256;
  }

  /** Reading a pair of printed digits gives back the octet they print. */
  lemma ParseHexDigits(w: nat)
    ensures ParseHexPair([HexDigit((w / 16) % 16), HexDigit(w % 16)]) == w % 256
  {
    var hi, lo := (w / 16) % 16, w % 16;
    assert HexValue(HexDigit(hi)) == hi;
    assert HexValue(HexDigit(lo)) == lo;
    var q := w / 256;
    assert w == 256 * q + 16 * hi + lo;
  }

  /** Octet `i` of `v`, counted from the least significant. */
  function OctetAt(v: nat, i: nat): Byte
  {
    if i == 0 then v % 256 else OctetAt(v / 256, i - 1)
  }

  /** The octets of a 32-bit value are its `LeBytes`. */
  lemma OctetAtIsLeByte(v: nat, i: nat)
    requires v < 0x1_0000_0000 && i < 4
    ensures OctetAt(v, i) == LeBytes(v)[i]
  {
    assert (v / 256) / 256 == v / 0x1_0000;
    assert (v / 0x1_0000) / 256 == v / 0x100_0000;
  }

  /** Pair `i` counted from the right of a printing is octet `i` of the
      value. */
  lemma {:induction false} HexPairIsOctet(v: nat, width: nat, i: nat)
    requires 2 * i + 2 <= width
    ensures ParseHexPair(ToHex(v, width)[width - 2 - 2 * i .. width - 2 * i]) == OctetAt(v, i)
  {
    ToHexLastPair(v, width);
    if i == 0 {
      ParseHexDigits(v);
    } else {
      var s, t := ToHex(v, width), ToHex(v / 256, width - 2);
      assert s[width - 2 - 2 * i .. width - 2 * i] == t[(width - 2) - 2 - 2 * (i - 1) .. (width - 2) - 2 * (i - 1)];
      HexPairIsOctet(v / 256, width - 2, i - 1);
    }
  }

  /** The four checksum octets, obtained as the client does: print the
      checksum as eight hex digits, then read the digit pairs from the right.
      The result is the checksum least significant octet first. */
  method ReverseCrc(crcVal: nat) returns (reversed: seq<Byte>)
    requires crcVal < 0x1_0000_0000
    ensures reversed == LeBytes(crcVal)
    ensures LeValue(reversed) == crcVal
  {
    var crcAsHex := ToHex(crcVal, 8);
    reversed := [];
    var i := 0;
    while i < 4
      invariant 0 <= i <= 4
      invariant |reversed| == i
      invariant reversed == LeBytes(crcVal)[..i]
    {
      var x := ParseHexPair(crcAsHex[6 - 2 * i .. 8 - 2 * i]);
      HexPairIsOctet(crcVal, 8, i);
      OctetAtIsLeByte(crcVal, i);
      assert LeBytes(crcVal)[..i + 1] == LeBytes(crcVal)[..i] + [x];
      reversed := reversed + [x];
      i := i + 1;
    }
    LeValueOfLeBytes(crcVal);
  }
}
