/** The checksums at known values: what the digits 1 to 9 give, and the residue every message leaves together with its
    own CRC-32. */
module CrcCheck {
  import opened Bytes
  import Gf2
  import Crc32
  import Crc32Laws
  import Crc16

  const NINE_DIGITS: seq<byte> := [0x31, 0x32, 0x33, 0x34, 0x35, 0x36, 0x37, 0x38, 0x39]

  // ---------- CRC-32 ----------

  lemma Two32(a: bv32, n: nat)
    ensures Crc32.Bits(a, n + 2) == Crc32.Bits(Crc32.Bit(Crc32.Bit(a)), n)
    ensures Crc32.Bits(a, 0) == a
  {
    hide Crc32.Bit;
    assert Crc32.Bits(a, n + 2) == Crc32.Bits(Crc32.Bit(a), n + 1);
  }

  lemma Eight32(a: bv32, b: bv32, c: bv32, d: bv32, e: bv32)
    requires Crc32.Bit(Crc32.Bit(a)) == b && Crc32.Bit(Crc32.Bit(b)) == c
    requires Crc32.Bit(Crc32.Bit(c)) == d && Crc32.Bit(Crc32.Bit(d)) == e
    ensures Crc32.Bits(a, 8) == e
  {
    hide Crc32.Bit;
    Two32(a, 6);
    Two32(b, 4);
    Two32(c, 2);
    Two32(d, 0);
  }

  /** The register behind digit k from the register in front of it, two bit steps at a time. */
  lemma Digit32(k: nat, c: bv32, v0: bv32, v2: bv32, v4: bv32, v6: bv32, v8: bv32)
    requires k < 9 && Crc32.Fold(0xFFFFFFFF, NINE_DIGITS[..k]) == c
    requires Gf2.Xor(c, Gf2.Low(NINE_DIGITS[k])) == v0
    requires Crc32.Bit(Crc32.Bit(v0)) == v2 && Crc32.Bit(Crc32.Bit(v2)) == v4
    requires Crc32.Bit(Crc32.Bit(v4)) == v6 && Crc32.Bit(Crc32.Bit(v6)) == v8
    ensures Crc32.Fold(0xFFFFFFFF, NINE_DIGITS[..k + 1]) == v8
  {
    hide Crc32.Bit, Crc32.Bits, Crc32.Fold;
    Eight32(v0, v2, v4, v6, v8);
    Crc32.FoldNext(0xFFFFFFFF, NINE_DIGITS, k);
  }

  lemma FirstDigits32()
    ensures Crc32.Fold(0xFFFFFFFF, NINE_DIGITS[..3]) == 0x77B79C2D
  {
    hide Crc32.Fold;
    Crc32Start();
    Digit32(0, 0xFFFFFFFF, 0xFFFFFFCE, 0xD2477CD3, 0xAFF51D84, 0x2BFD4761, 0x7C231048);
    Digit32(1, 0x7C231048, 0x7C23107A, 0xF2B0473E, 0xD11492EF, 0xAF21E60B, 0xB0ACBB32);
    Digit32(2, 0xB0ACBB32, 0xB0ACBB01, 0x5AF76F50, 0x16BDDBD4, 0x05AF76F5, 0x77B79C2D);
  }

  lemma MiddleDigits32()
    requires Crc32.Fold(0xFFFFFFFF, NINE_DIGITS[..3]) == 0x77B79C2D
    ensures Crc32.Fold(0xFFFFFFFF, NINE_DIGITS[..6]) == 0xF68D2C9E
  {
    hide Crc32.Fold;
    Digit32(3, 0x77B79C2D, 0x77B79C19, 0x6B31A696, 0xF774EA85, 0x4B017B31, 0x641C1F5C);
    Digit32(4, 0x641C1F5C, 0x641C1F69, 0x6FDB464A, 0xF64E52B2, 0xD02B178C, 0x340AC5E3);
    Digit32(5, 0x340AC5E3, 0x340AC5D5, 0x7BDEF0E5, 0x682BFDA9, 0x6CD6BEFA, 0xF68D2C9E);
  }

  lemma LastDigits32()
    requires Crc32.Fold(0xFFFFFFFF, NINE_DIGITS[..6]) == 0xF68D2C9E
    ensures Crc32.Fold(0xFFFFFFFF, NINE_DIGITS[..9]) == 0x340BC6D9
  {
    hide Crc32.Fold;
    Digit32(6, 0xF68D2C9E, 0xF68D2CA9, 0x4B7F0ABA, 0xFF67418E, 0xD2615343, 0xAFFC9660);
    Digit32(7, 0xAFFC9660, 0xAFFC9658, 0x2BFF2596, 0xE7474A45, 0x4F0D9301, 0x651F2550);
    Digit32(8, 0x651F2550, 0x651F2569, 0x6F9B88CA, 0xF65E6112, 0xD02F1B64, 0x340BC6D9);
  }

  lemma Crc32Start()
    ensures Crc32.Fold(0xFFFFFFFF, NINE_DIGITS[..0]) == 0xFFFFFFFF
  {}

  // ---------- CRC-16 ----------

  lemma Two16(a: bv16, n: nat)
    ensures Crc16.Bits(a, n + 2) == Crc16.Bits(Crc16.Bit(Crc16.Bit(a)), n)
    ensures Crc16.Bits(a, 0) == a
  {
    hide Crc16.Bit;
    assert Crc16.Bits(a, n + 2) == Crc16.Bits(Crc16.Bit(a), n + 1);
  }

  lemma Eight16(a: bv16, b: bv16, c: bv16, d: bv16, e: bv16)
    requires Crc16.Bit(Crc16.Bit(a)) == b && Crc16.Bit(Crc16.Bit(b)) == c
    requires Crc16.Bit(Crc16.Bit(c)) == d && Crc16.Bit(Crc16.Bit(d)) == e
    ensures Crc16.Bits(a, 8) == e
  {
    hide Crc16.Bit;
    Two16(a, 6);
    Two16(b, 4);
    Two16(c, 2);
    Two16(d, 0);
  }

  /** The register behind digit k from the register in front of it, two bit steps at a time. */
  lemma Digit16(k: nat, c: bv16, v0: bv16, v2: bv16, v4: bv16, v6: bv16, v8: bv16)
    requires k < 9 && Crc16.Fold(0xFFFF, NINE_DIGITS[..k]) == c
    requires Crc16.Xor(c, Crc16.Lift(NINE_DIGITS[k])) == v0
    requires Crc16.Bit(Crc16.Bit(v0)) == v2 && Crc16.Bit(Crc16.Bit(v2)) == v4
    requires Crc16.Bit(Crc16.Bit(v4)) == v6 && Crc16.Bit(Crc16.Bit(v6)) == v8
    ensures Crc16.Fold(0xFFFF, NINE_DIGITS[..k + 1]) == v8
  {
    hide Crc16.Bit, Crc16.Bits, Crc16.Fold;
    Eight16(v0, v2, v4, v6, v8);
    Crc16.FoldNext(0xFFFF, NINE_DIGITS, k);
  }

  lemma FirstDigits16()
    ensures Crc16.Fold(0xFFFF, NINE_DIGITS[..3]) == 0x5BCE
  {
    hide Crc16.Fold;
    Crc16Start();
    Digit16(0, 0xFFFF, 0xCEFF, 0x0B9F, 0x2E7C, 0xB9F0, 0xC782);
    Digit16(1, 0xC782, 0xF582, 0xE66B, 0xA9CF, 0x877E, 0x3DBA);
    Digit16(2, 0x3DBA, 0x0EBA, 0x3AE8, 0xEBA0, 0x9EE3, 0x5BCE);
  }

  lemma MiddleDigits16()
    requires Crc16.Fold(0xFFFF, NINE_DIGITS[..3]) == 0x5BCE
    ensures Crc16.Fold(0xFFFF, NINE_DIGITS[..6]) == 0x2EF4
  {
    hide Crc16.Fold;
    Digit16(3, 0x5BCE, 0x6FCE, 0xAF19, 0x9C26, 0x50DA, 0x5349);
    Digit16(4, 0x5349, 0x6649, 0x8905, 0x0456, 0x1158, 0x4560);
    Digit16(5, 0x4560, 0x7360, 0xDDA1, 0x46E7, 0x0BBD, 0x2EF4);
  }

  lemma LastDigits16()
    requires Crc16.Fold(0xFFFF, NINE_DIGITS[..6]) == 0x2EF4
    ensures Crc16.Fold(0xFFFF, NINE_DIGITS[..9]) == 0x29B1
  {
    hide Crc16.Fold;
    Digit16(6, 0x2EF4, 0x19F4, 0x67D0, 0x8F61, 0x1DC6, 0x7718);
    Digit16(7, 0x7718, 0x4F18, 0x2C41, 0xB104, 0xE452, 0xA12B);
    Digit16(8, 0xA12B, 0x982B, 0x40EE, 0x1399, 0x4E64, 0x29B1);
  }

  lemma Crc16Start()
    ensures Crc16.Fold(0xFFFF, NINE_DIGITS[..0]) == 0xFFFF
  {}

  /** The check values of the two checksums: the digits 1 to 9 give 0xCBF43926 and 0x29B1. */
  lemma CheckValues()
    ensures Crc32.Checksum(NINE_DIGITS) == 0xCBF43926
    ensures Crc16.Checksum(NINE_DIGITS) == 0x29B1
  {
    hide Crc32.Fold, Crc16.Fold;
    FirstDigits32();
    MiddleDigits32();
    LastDigits32();
    FirstDigits16();
    MiddleDigits16();
    LastDigits16();
    assert NINE_DIGITS[..9] == NINE_DIGITS;
  }

  // ---------- the residue ----------

  lemma AllOnesDivided()
    ensures Crc32.Bits(0xFFFFFFFF, 32) == 0xDEBB20E3
  {
    hide Crc32.Bit, Crc32.Bits;
    FirstHalfDivided();
    SecondHalfDivided();
    Crc32.BitsSplit(0xFFFFFFFF, 16, 16);
  }

  lemma FirstHalfDivided()
    ensures Crc32.Bits(0xFFFFFFFF, 16) == 0xBE26ED00
  {
    hide Crc32.Bits;
    Eight32(0xFFFFFFFF, 0xA49B3D4F, 0xB2420DE3, 0xB7F441C8, 0x2DFD1072);
    Eight32(0x2DFD1072, 0xE6C7C73C, 0x39B1F1CF, 0x9508BEC3, 0xBE26ED00);
    Crc32.BitsSplit(0xFFFFFFFF, 8, 8);
  }

  lemma SecondHalfDivided()
    ensures Crc32.Bits(0xBE26ED00, 16) == 0xDEBB20E3
  {
    hide Crc32.Bits;
    Eight32(0xBE26ED00, 0x2F89BB40, 0x0BE26ED0, 0x02F89BB4, 0x00BE26ED);
    Eight32(0x00BE26ED, 0x76F3C82B, 0x86D830BA, 0xCC0E8F0E, 0xDEBB20E3);
    Crc32.BitsSplit(0xBE26ED00, 8, 8);
  }

  lemma ComplementsMeet(c: bv32, w: seq<byte>)
    requires w == LeWord(c ^ 0xFFFFFFFF)
    ensures Gf2.Xor(c, Gf2.Word(w[0], w[1], w[2], w[3])) == 0xFFFFFFFF
  {}

  /** Whatever the message, its CRC-32 stored behind it in little-endian order brings the register to one value. */
  lemma Residue(message: seq<byte>)
    ensures Crc32.Fold(0xFFFFFFFF, message + LeWord(Crc32.Checksum(message))) == 0xDEBB20E3
  {
    hide Crc32.Fold, Crc32.Bits, Gf2.Word, LeWord;
    var c, w := Crc32.Fold(0xFFFFFFFF, message), LeWord(Crc32.Checksum(message));
    Crc32Laws.FoldConcat(0xFFFFFFFF, message, w);
    Crc32Laws.WordFold(c, w);
    ComplementsMeet(c, w);
    AllOnesDivided();
  }
}
