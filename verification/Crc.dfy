/** The CRC-32 of RFC 1952, and crc32_combine of crc32.c. */
module Crc {
  import opened Bits
  import opened Gf2
  import opened GfMultiply
  import opened PowersOfX

  /** The register after the bytes of buf, one bit at a time (section 8 of RFC 1952). */
  function CrcFrom(c: bv32, buf: seq<bv8>): bv32
    decreases |buf|
  {
    if buf == [] then c else Steps(Xor(CrcFrom(c, buf[..|buf| - 1]), buf[|buf| - 1] as bv32), 8)
  }

  /** The CRC-32 of buf. */
  function Crc32Of(buf: seq<bv8>): bv32 { Xor(CrcFrom(0xffffffff, buf), 0xffffffff) }

  // ----- properties of the register -----

  lemma {:induction false} CrcConcat(c: bv32, x: seq<bv8>, y: seq<bv8>)
    ensures CrcFrom(c, x + y) == CrcFrom(CrcFrom(c, x), y)
    decreases |y|
  {
    hide Xor, Steps;
    if y == [] {
      assert x + y == x;
    } else {
      CrcConcat(c, x, y[..|y| - 1]);
      assert (x + y)[..|x + y| - 1] == x + y[..|y| - 1];
    }
  }

  /** What was in the register before is shifted out, whatever the bytes are. */
  lemma {:induction false} CrcSplit(c: bv32, buf: seq<bv8>)
    ensures CrcFrom(c, buf) == Xor(Steps(c, 8 * |buf|), CrcFrom(0, buf))
    decreases |buf|
  {
    hide Xor;
    if buf == [] {
      XorLaws(c, 0, 0);
    } else {
      var init, b := buf[..|buf| - 1], buf[|buf| - 1] as bv32;
      CrcSplit(c, init);
      var s, z := Steps(c, 8 * |init|), CrcFrom(0, init);
      XorLaws(s, z, b);
      StepsXor(s, Xor(z, b), 8);
      StepsAdd(c, 8 * |init|, 8);
    }
  }

  /** The CRC of two buffers from those of each. */
  lemma Combined(x: seq<bv8>, y: seq<bv8>)
    ensures Crc32Of(x + y) == Xor(Steps(Crc32Of(x), 8 * |y|), Crc32Of(y))
  {
    hide Xor, Steps, CrcFrom;
    var f: bv32 := 0xffffffff;
    var a, n, z := CrcFrom(f, x), 8 * |y|, CrcFrom(0, y);
    CrcConcat(f, x, y);
    CrcSplit(a, y);
    CrcSplit(f, y);
    StepsXor(a, f, n);
    var s, t := Steps(a, n), Steps(f, n);
    XorCancel(s, t, z, f);
  }

  lemma XorCancel(s: bv32, t: bv32, z: bv32, f: bv32)
    ensures Xor(Xor(s, t), Xor(Xor(t, z), f)) == Xor(Xor(s, z), f)
  {
    hide Xor;
    XorLaws(s, t, Xor(Xor(t, z), f));
    XorLaws(Xor(t, z), f, 0);
    XorLaws(t, z, f);
    XorLaws(t, Xor(z, f), 0);
    XorLaws(s, z, f);
  }

  // ----- crc32_combine -----

  /** crc32_combine_gen64: what multiplies the CRC of what comes before len2 bytes; 0 for a negative
      length. */
  method CombineGen(table: array<bv32>, len2: int) returns (op: bv32)
    requires Powers(table[..])
    ensures op == if len2 < 0 then 0 else Power(8 * len2)
    ensures len2 >= 0 ==> op != 0
  {
    hide Power;
    if len2 < 0 { return 0; }
    assert Pow2(3) == 8;
    PowerNonzero(8 * len2);
    op := X2nmodp(table, len2, 3);
  }

  /** crc32_combine_op */
  method CombineOp(crc1: bv32, crc2: bv32, op: bv32) returns (crc: bv32)
    ensures crc == if op == 0 then 0 else Xor(Mul(op, crc1), crc2)
  {
    hide Xor, Mul;
    if op == 0 { return 0; }
    var p := Multmodp(op, crc1);
    crc := Xor(p, crc2);
  }

  /** crc32_combine64, for the CRCs of any two buffers. */
  method Combine(table: array<bv32>, crc1: bv32, crc2: bv32, len2: int, ghost x: seq<bv8>,
                 ghost y: seq<bv8>) returns (crc: bv32)
    requires Powers(table[..])
    requires len2 >= 0 ==> crc1 == Crc32Of(x) && crc2 == Crc32Of(y) && |y| == len2
    ensures crc == if len2 >= 0 then Crc32Of(x + y) else 0
  {
    hide Power, Mul, Crc32Of, Xor, Steps;
    var op := CombineGen(table, len2);
    crc := CombineOp(crc1, crc2, op);
    if len2 >= 0 {
      MulPower(8 * len2, crc1);
      Combined(x, y);
    }
  }

  // ----- the check value -----

  /** The digits 1 to 9. */
  const DIGITS: seq<bv8> := [49, 50, 51, 52, 53, 54, 55, 56, 57]

  lemma DigitNext(i: nat, before: bv32, mixed: bv32, after: bv32)
    requires i < 9 && CrcFrom(0xffffffff, DIGITS[..i]) == before
    requires Xor(before, DIGITS[i] as bv32) == mixed && Steps(mixed, 8) == after
    ensures CrcFrom(0xffffffff, DIGITS[..i + 1]) == after
  {
    hide Xor, Steps;
    assert DIGITS[..i + 1][..i] == DIGITS[..i];
  }

  lemma Digits3()
    ensures CrcFrom(0xffffffff, DIGITS[..3]) == 0x77b79c2d
  {
    hide CrcFrom;
    Digits0();
    DigitNext(0, 0xffffffff, 0xffffffce, 0x7c231048);
    DigitNext(1, 0x7c231048, 0x7c23107a, 0xb0acbb32);
    DigitNext(2, 0xb0acbb32, 0xb0acbb01, 0x77b79c2d);
  }

  lemma Digits6()
    ensures CrcFrom(0xffffffff, DIGITS[..6]) == 0xf68d2c9e
  {
    hide CrcFrom;
    Digits3();
    DigitNext(3, 0x77b79c2d, 0x77b79c19, 0x641c1f5c);
    DigitNext(4, 0x641c1f5c, 0x641c1f69, 0x340ac5e3);
    DigitNext(5, 0x340ac5e3, 0x340ac5d5, 0xf68d2c9e);
  }

  lemma Digits9()
    ensures CrcFrom(0xffffffff, DIGITS[..9]) == 0x340bc6d9
  {
    hide CrcFrom;
    Digits6();
    DigitNext(6, 0xf68d2c9e, 0xf68d2ca9, 0xaffc9660);
    DigitNext(7, 0xaffc9660, 0xaffc9658, 0x651f2550);
    DigitNext(8, 0x651f2550, 0x651f2569, 0x340bc6d9);
  }

  lemma Digits0()
    ensures CrcFrom(0xffffffff, DIGITS[..0]) == 0xffffffff
  {
  }

  /** The CRC of the nine digits, which is published as the check value of this CRC. */
  lemma CheckValue()
    ensures Crc32Of(DIGITS) == 0xcbf43926
  {
    hide CrcFrom;
    Digits9();
    assert DIGITS[..9] == DIGITS;
  }
}
