/** Polynomials over GF(2) modulo the CRC-32 polynomial p, as crc32.c represents them: 32 bits with
    the coefficient of x^0 in the most significant one. */
module Gf2 {

  /** p without x^32: x^26+x^23+x^22+x^16+x^12+x^11+x^10+x^8+x^7+x^5+x^4+x^2+x+1. */
  const POLY: bv32 := 0xedb88320
  const ONE: bv32 := 0x80000000

  /** The sum of two residues. */
  function Xor(a: bv32, b: bv32): bv32 { a ^ b }

  /** Multiplication by x modulo p. */
  function Step(c: bv32): bv32 { if c & 1 == 1 then (c >> 1) ^ 0xedb88320 else c >> 1 }

  /** Multiplication by x^n. */
  function Steps(c: bv32, n: nat): bv32
    decreases n
  {
    if n == 0 then c else Steps(Step(c), n - 1)
  }

  /** x^n */
  function Power(n: nat): bv32 { Steps(ONE, n) }

  /** A polynomial of any degree, the coefficient of x^0 first. */
  type Poly = seq<bool>

  /** The sum of two polynomials. */
  function Plus(f: Poly, g: Poly): Poly {
    if f == [] then g else if g == [] then f else [f[0] != g[0]] + Plus(f[1..], g[1..])
  }

  /** The product of two polynomials. */
  function Product(f: Poly, g: Poly): Poly {
    if f == [] then [] else Plus(if f[0] then g else [], [false] + Product(f[1..], g))
  }

  /** f times b modulo p. */
  function Times(f: Poly, b: bv32): bv32
    decreases |f|
  {
    if f == [] then 0 else Xor(if f[0] then b else 0, Step(Times(f[1..], b)))
  }

  /** f modulo p. */
  function Residue(f: Poly): bv32 { Times(f, ONE) }

  /** The coefficient of x^0. */
  predicate Constant(a: bv32) { a & 0x80000000 != 0 }

  function Left(a: bv32): bv32 { a << 1 }

  /** The coefficients in the n most significant bits of a. */
  function Coeffs(a: bv32, n: nat): (f: Poly)
    ensures |f| == n
    decreases n
  {
    if n == 0 then [] else [Constant(a)] + Coeffs(Left(a), n - 1)
  }

  /** The product of two residues. */
  function Mul(a: bv32, b: bv32): bv32 { Times(Coeffs(a, 32), b) }

  /** x^n as a polynomial. */
  function Monomial(n: nat): Poly { if n == 0 then [true] else [false] + Monomial(n - 1) }

  // ----- addition -----

  lemma XorComm(a: bv32, b: bv32)
    ensures Xor(a, b) == Xor(b, a)
  {
  }

  lemma XorAssoc(a: bv32, b: bv32, c: bv32)
    ensures Xor(Xor(a, b), c) == Xor(a, Xor(b, c))
  {
  }

  lemma XorNone(a: bv32)
    ensures Xor(a, 0) == a && Xor(0, a) == a && Xor(a, a) == 0
  {
  }

  lemma XorLaws(a: bv32, b: bv32, c: bv32)
    ensures Xor(a, b) == Xor(b, a) && Xor(Xor(a, b), c) == Xor(a, Xor(b, c))
    ensures Xor(a, 0) == a && Xor(0, a) == a && Xor(a, a) == 0 && Xor(a, Xor(a, b)) == b
  {
    hide Xor;
    XorComm(a, b);
    XorAssoc(a, b, c);
    XorAssoc(a, a, b);
    XorNone(a);
    XorNone(b);
  }

  lemma XorPairs(a: bv32, b: bv32, c: bv32, d: bv32)
    ensures Xor(Xor(a, b), Xor(c, d)) == Xor(Xor(a, c), Xor(b, d))
  {
    hide Xor;
    XorAssoc(a, b, Xor(c, d));
    XorAssoc(b, c, d);
    XorComm(b, c);
    XorAssoc(c, b, d);
    XorAssoc(a, c, Xor(b, d));
  }

  lemma LowXor(a: bv32, b: bv32)
    ensures (a ^ b) >> 1 == (a >> 1) ^ (b >> 1) && (a ^ b) & 1 == (a & 1) ^ (b & 1) && (a & 1 == 0 || a & 1 == 1)
  {
  }

  lemma XorShift(x: bv32, y: bv32, p: bv32)
    ensures (x ^ p) ^ (y ^ p) == x ^ y && (x ^ p) ^ y == (x ^ y) ^ p && x ^ (y ^ p) == (x ^ y) ^ p
  {
  }

  lemma StepXor(a: bv32, b: bv32)
    ensures Step(Xor(a, b)) == Xor(Step(a), Step(b))
  {
    LowXor(a, b);
    LowXor(b, a);
    XorShift(a >> 1, b >> 1, 0xedb88320);
  }

  lemma StepZero()
    ensures Step(0) == 0
  {
  }

  lemma {:induction false} StepsXor(a: bv32, b: bv32, n: nat)
    ensures Steps(Xor(a, b), n) == Xor(Steps(a, n), Steps(b, n))
    decreases n
  {
    hide Step, Xor;
    if n > 0 {
      StepXor(a, b);
      StepsXor(Step(a), Step(b), n - 1);
    }
  }

  lemma {:induction false} StepsAdd(a: bv32, m: nat, n: nat)
    ensures Steps(Steps(a, m), n) == Steps(a, m + n)
    decreases m
  {
    hide Step;
    if m > 0 { StepsAdd(Step(a), m - 1, n); }
  }

  lemma {:induction false} StepsNone(n: nat)
    ensures Steps(0, n) == 0
  {
    hide Step;
    if n > 0 {
      StepZero();
      StepsNone(n - 1);
    }
  }

  lemma StepLast(a: bv32, n: nat)
    ensures Step(Steps(a, n)) == Steps(a, n + 1) == Steps(Step(a), n)
  {
    hide Step;
    StepsAdd(a, n, 1);
    assert Steps(Steps(a, n), 1) == Step(Steps(a, n));
  }

  /** p has a constant term, so nothing but 0 becomes 0 by multiplication by x. */
  lemma StepNonzero(a: bv32)
    requires a != 0
    ensures Step(a) != 0
  {
  }

  lemma {:induction false} StepsNonzero(a: bv32, n: nat)
    requires a != 0
    ensures Steps(a, n) != 0
    decreases n
  {
    hide Step;
    if n > 0 {
      StepNonzero(a);
      StepsNonzero(Step(a), n - 1);
    }
  }

  // ----- multiplication -----

  lemma {:induction false} TimesXor(f: Poly, a: bv32, b: bv32)
    ensures Times(f, Xor(a, b)) == Xor(Times(f, a), Times(f, b))
    decreases |f|
  {
    hide Step, Xor;
    XorLaws(0, 0, 0);
    if f != [] {
      TimesXor(f[1..], a, b);
      var s, t := Times(f[1..], a), Times(f[1..], b);
      StepXor(s, t);
      XorPairs(a, b, Step(s), Step(t));
      XorPairs(0, 0, Step(s), Step(t));
    }
  }

  lemma {:induction false} TimesStep(f: Poly, b: bv32)
    ensures Times(f, Step(b)) == Step(Times(f, b))
    decreases |f|
  {
    hide Step, Xor;
    StepZero();
    if f != [] {
      TimesStep(f[1..], b);
      StepXor(if f[0] then b else 0, Step(Times(f[1..], b)));
    }
  }

  lemma {:induction false} TimesZero(f: Poly)
    ensures Times(f, 0) == 0
  {
    hide Step, Xor;
    if f != [] {
      StepZero();
      XorLaws(0, 0, 0);
      TimesZero(f[1..]);
    }
  }

  /** Multiplications commute. */
  lemma {:induction false} TimesTimes(f: Poly, g: Poly, b: bv32)
    ensures Times(f, Times(g, b)) == Times(g, Times(f, b))
    decreases |f|
  {
    hide Step, Xor;
    TimesZero(g);
    if f != [] {
      TimesTimes(f[1..], g, b);
      TimesStep(g, Times(f[1..], b));
      TimesXor(g, if f[0] then b else 0, Step(Times(f[1..], b)));
    }
  }

  lemma {:induction false} TimesPlus(f: Poly, g: Poly, b: bv32)
    ensures Times(Plus(f, g), b) == Xor(Times(f, b), Times(g, b))
    decreases |f|
  {
    hide Step, Xor;
    XorLaws(Times(f, b), 0, 0);
    XorLaws(Times(g, b), 0, 0);
    if f != [] && g != [] {
      TimesPlus(f[1..], g[1..], b);
      var s, t := Times(f[1..], b), Times(g[1..], b);
      StepXor(s, t);
      PlusHead(f, g);
      XorLaws(b, 0, 0);
      XorLaws(0, b, 0);
      XorPairs(if f[0] then b else 0, Step(s), if g[0] then b else 0, Step(t));
    }
  }

  lemma PlusHead(f: Poly, g: Poly)
    requires f != [] && g != []
    ensures Plus(f, g) != [] && Plus(f, g)[0] == (f[0] != g[0]) && Plus(f, g)[1..] == Plus(f[1..], g[1..])
  {
  }

  /** Multiplying by a product is multiplying by one factor after the other. */
  lemma {:induction false} TimesProduct(f: Poly, g: Poly, b: bv32)
    ensures Times(Product(f, g), b) == Times(f, Times(g, b))
    decreases |f|
  {
    hide Step, Xor, Plus;
    if f != [] {
      var rest := Product(f[1..], g);
      TimesProduct(f[1..], g, b);
      TimesPlus(if f[0] then g else [], [false] + rest, b);
      assert ([false] + rest)[1..] == rest;
      XorLaws(Step(Times(rest, b)), 0, 0);
    }
  }

  // ----- residues and their representation -----

  /** Shifting a to the left n times leaves nothing. */
  predicate ShiftedOut(a: bv32, n: nat)
    decreases n
  {
    if n == 0 then a == 0 else ShiftedOut(Left(a), n - 1)
  }

  function Left8(a: bv32): bv32 { Left(Left(Left(Left(Left(Left(Left(Left(a)))))))) }

  lemma AllShiftedOut(a: bv32)
    ensures ShiftedOut(a, 32)
  {
    hide Left8, Left;
    var b := Left8(a);
    var c := Left8(b);
    var d := Left8(c);
    OutByEight(a, 24);
    OutByEight(b, 16);
    OutByEight(c, 8);
    OutByEight(d, 0);
    NoneLeft(a);
  }

  lemma NoneLeft(a: bv32)
    ensures Left8(Left8(Left8(Left8(a)))) == 0
  {
    assert forall b :: Left8(b) == b << 8;
  }

  lemma OutByEight(a: bv32, n: nat)
    ensures ShiftedOut(Left8(a), n) ==> ShiftedOut(a, n + 8)
  {
    hide Left;
    var b := Left(Left(Left(Left(a))));
    OutByFour(b, n);
    OutByFour(a, n + 4);
  }

  lemma OutByFour(a: bv32, n: nat)
    ensures ShiftedOut(Left(Left(Left(Left(a)))), n) ==> ShiftedOut(a, n + 4)
  {
    hide Left;
    assert ShiftedOut(a, n + 4) == ShiftedOut(Left(a), n + 3) == ShiftedOut(Left(Left(a)), n + 2) ==
           ShiftedOut(Left(Left(Left(a))), n + 1);
  }

  function Rest(a: bv32): bv32 { a & 0x7fffffff }

  lemma StepLeft(a: bv32)
    ensures Step(Left(a)) == Rest(a)
  {
    assert (a << 1) & 1 != 1 && (a << 1) >> 1 == a & 0x7fffffff;
  }

  lemma TopBit(a: bv32)
    ensures if a & 0x80000000 != 0 then 0x80000000 ^ (a & 0x7fffffff) == a else a & 0x7fffffff == a
  {
  }

  lemma WithConstant(a: bv32)
    ensures Xor(if Constant(a) then ONE else 0, Rest(a)) == a
  {
    TopBit(a);
    if !Constant(a) { XorNone(a); }
  }

  lemma ShiftBack(a: bv32)
    ensures Xor(if Constant(a) then ONE else 0, Step(Left(a))) == a
  {
    hide Step, Left, Xor, Rest, Constant;
    StepLeft(a);
    WithConstant(a);
  }

  lemma {:induction false} CoeffsResidue(a: bv32, n: nat)
    requires ShiftedOut(a, n)
    ensures Residue(Coeffs(a, n)) == a
    decreases n
  {
    hide Step, Xor, Left, Constant;
    if n > 0 {
      CoeffsResidue(Left(a), n - 1);
      assert Coeffs(a, n)[1..] == Coeffs(Left(a), n - 1);
      ShiftBack(a);
    }
  }

  /** A residue stands for itself. */
  lemma OwnResidue(a: bv32)
    ensures Residue(Coeffs(a, 32)) == a
  {
    AllShiftedOut(a);
    CoeffsResidue(a, 32);
  }

  /** Multiplication depends on a polynomial only by its residue. */
  lemma ByResidue(f: Poly, b: bv32)
    ensures Times(f, b) == Mul(Residue(f), b)
  {
    hide Times, Coeffs;
    var g, h := Coeffs(b, 32), Coeffs(Residue(f), 32);
    OwnResidue(b);
    OwnResidue(Residue(f));
    TimesTimes(f, g, ONE);
    TimesTimes(h, g, ONE);
  }

  /** The product of residues is the residue of the product. */
  lemma MulIsProduct(a: bv32, b: bv32)
    ensures Mul(a, b) == Residue(Product(Coeffs(a, 32), Coeffs(b, 32)))
  {
    hide Times, Coeffs, Product;
    TimesProduct(Coeffs(a, 32), Coeffs(b, 32), ONE);
    OwnResidue(b);
  }

  /** p itself is 0 modulo p. */
  lemma PolyVanishes()
    ensures Residue(Coeffs(POLY, 32) + [true]) == 0
  {
    hide Times, Coeffs, Xor;
    TimesLonger(Coeffs(POLY, 32), ONE);
    OwnResidue(POLY);
    PowerOfDegree();
    XorLaws(POLY, 0, 0);
  }

  lemma {:induction false} TimesLonger(f: Poly, b: bv32)
    ensures Times(f + [true], b) == Xor(Times(f, b), Steps(b, |f|))
    decreases |f|
  {
    hide Step, Xor;
    StepZero();
    XorLaws(b, 0, 0);
    if f != [] {
      TimesLonger(f[1..], b);
      assert (f + [true])[1..] == f[1..] + [true];
      var s, t := Times(f[1..], b), Steps(b, |f| - 1);
      StepXor(s, t);
      StepLast(b, |f| - 1);
      XorLaws(if f[0] then b else 0, Step(s), Step(t));
    }
  }

  function Step8(b: bv32): bv32 { Step(Step(Step(Step(Step(Step(Step(Step(b)))))))) }

  lemma ByteStep(c: bv32, n: nat)
    ensures Steps(c, n + 8) == Steps(Step8(c), n)
  {
    hide Step;
    StepFour(c, n + 4);
    StepFour(Step(Step(Step(Step(c)))), n);
  }

  lemma StepFour(c: bv32, n: nat)
    ensures Steps(c, n + 4) == Steps(Step(Step(Step(Step(c)))), n)
  {
    hide Step;
    assert Steps(c, n + 4) == Steps(Step(c), n + 3) == Steps(Step(Step(c)), n + 2) == Steps(Step(Step(Step(c))), n + 1);
  }

  /** Bits that are far from the end are just shifted. */
  lemma ByteDown(c: bv32)
    ensures c & 0xff == 0 ==> Step8(c) == c >> 8
  {
  }

  lemma PowerOfDegree()
    ensures Power(32) == POLY
  {
    hide Step8;
    ByteStep(0x80000000, 24);
    ByteDown(0x80000000);
    ByteStep(0x00800000, 16);
    ByteDown(0x00800000);
    ByteStep(0x00008000, 8);
    ByteDown(0x00008000);
    ByteStep(0x00000080, 0);
    LastByte();
  }

  lemma LastByte()
    ensures Step8(0x80) == POLY
  {
  }

  // ----- powers of x -----

  lemma {:induction false} MonomialTimes(n: nat, b: bv32)
    ensures Times(Monomial(n), b) == Steps(b, n)
    decreases n
  {
    hide Step, Xor;
    StepZero();
    XorLaws(b, 0, 0);
    if n > 0 {
      MonomialTimes(n - 1, b);
      assert Monomial(n)[1..] == Monomial(n - 1);
      StepLast(b, n - 1);
      XorLaws(Steps(b, n), 0, 0);
    }
  }

  /** Multiplying by x^n is n multiplications by x. */
  lemma MulPower(n: nat, b: bv32)
    ensures Mul(Power(n), b) == Steps(b, n)
  {
    hide Times, Coeffs, Monomial, Step, Xor;
    MonomialTimes(n, b);
    MonomialTimes(n, ONE);
    ByResidue(Monomial(n), b);
  }

  lemma PowerSum(m: nat, n: nat)
    ensures Mul(Power(m), Power(n)) == Power(m + n)
  {
    hide Steps, Mul;
    MulPower(m, Power(n));
    StepsAdd(ONE, n, m);
  }
}
