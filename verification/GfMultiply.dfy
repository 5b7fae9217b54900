/** multmodp of crc32.c: multiplication modulo the CRC polynomial, from the first coefficient on. */
module GfMultiply {
  import opened Gf2

  /** a without its first i bits. */
  function From(a: bv32, i: bv32): bv32
    requires i <= 32
  {
    a << i
  }

  /** The mask of bit i, counted from the most significant one. */
  function Mask(i: bv32): bv32
    requires i <= 32
  {
    0x80000000 >> i
  }

  predicate Set(a: bv32, m: bv32) { a & m != 0 }

  predicate NoneBelow(a: bv32, m: bv32) { a & (m - 1) == 0 }

  function Half(m: bv32): bv32 { m >> 1 }

  lemma MaskBit(a: bv32, i: bv32)
    requires i < 32
    ensures Set(a, Mask(i)) == Constant(From(a, i))
  {
  }

  lemma MaskBelow(a: bv32, i: bv32)
    requires i < 32
    ensures NoneBelow(a, Mask(i)) == (Left(From(a, i)) == 0)
  {
  }

  lemma NextBit(a: bv32, i: bv32)
    requires i < 32
    ensures Left(From(a, i)) == From(a, i + 1)
  {
  }

  lemma NextMask(i: bv32)
    requires i < 32
    ensures Half(Mask(i)) == Mask(i + 1)
  {
  }

  lemma BitsLeft(a: bv32, i: bv32)
    requires i < 32
    ensures Left(From(a, i)) != 0 ==> i < 31
    ensures From(a, i) != 0 && !Constant(From(a, i)) ==> Left(From(a, i)) != 0
  {
  }

  lemma FirstBit(a: bv32)
    ensures From(a, 0) == a && Mask(0) == 0x80000000
  {
  }

  /** One coefficient of a product. */
  lemma MulStep(x: bv32, n: nat, b: bv32, p: bv32)
    requires n > 0
    ensures Xor(p, Times(Coeffs(x, n), b)) ==
            Xor(if Constant(x) then Xor(p, b) else p, Times(Coeffs(Left(x), n - 1), Step(b)))
  {
    hide Xor, Step, Left, Constant;
    assert Coeffs(x, n)[1..] == Coeffs(Left(x), n - 1);
    var t := Times(Coeffs(Left(x), n - 1), b);
    TimesStep(Coeffs(Left(x), n - 1), b);
    XorLaws(p, b, Step(t));
    XorLaws(Step(t), 0, 0);
  }

  lemma {:induction false} NoCoeffs(n: nat, b: bv32)
    ensures Times(Coeffs(0, n), b) == 0
  {
    hide Step, Xor;
    if n > 0 {
      StepZero();
      XorNone(0);
      assert Left(0) == 0 && !Constant(0);
      assert Coeffs(0, n)[1..] == Coeffs(0, n - 1);
      NoCoeffs(n - 1, b);
    }
  }

  /** m is the mask of the first coefficient of x, which is what is left of a. */
  ghost predicate Facing(a: bv32, m: bv32, x: bv32, n: nat) {
    x != 0 && ShiftedOut(x, n) && exists i: bv32 :: i < 32 && m == Mask(i) && x == From(a, i)
  }

  lemma FaceFirst(a: bv32)
    requires a != 0
    ensures Facing(a, 0x80000000, a, 32)
  {
    hide From, Mask, ShiftedOut;
    FirstBit(a);
    AllShiftedOut(a);
    var i: bv32 := 0;
    assert i < 32 && 0x80000000 == Mask(i) && a == From(a, i);
  }

  /** What the tests of m tell, and how to go on. */
  lemma FaceNext(a: bv32, m: bv32, x: bv32, n: nat)
    requires Facing(a, m, x, n)
    ensures n > 0 && (Set(a, m) <==> Constant(x)) && (NoneBelow(a, m) <==> Left(x) == 0)
    ensures !(Set(a, m) && NoneBelow(a, m)) ==> Facing(a, Half(m), Left(x), n - 1)
  {
    hide From, Mask, Left, Constant, Set, NoneBelow, Half;
    var i: bv32 :| i < 32 && m == Mask(i) && x == From(a, i);
    MaskBit(a, i);
    MaskBelow(a, i);
    NextBit(a, i);
    NextMask(i);
    BitsLeft(a, i);
    var j := i + 1;
    if Left(x) != 0 {
      assert j < 32 && Half(m) == Mask(j) && Left(x) == From(a, j);
    }
  }

  /** multmodp: a must not be zero. */
  method Multmodp(a: bv32, b: bv32) returns (p: bv32)
    requires a != 0
    ensures p == Mul(a, b)
  {
    hide Xor, Step, Left, Constant, Facing, Times, Coeffs, Set, NoneBelow, Half;
    var m: bv32 := 0x80000000;
    p := 0;
    var c := b;
    ghost var x := a;
    ghost var n: nat := 32;
    FaceFirst(a);
    XorNone(Mul(a, b));
    while true
      invariant Facing(a, m, x, n) && Xor(p, Times(Coeffs(x, n), c)) == Mul(a, b)
      decreases n
    {
      FaceNext(a, m, x, n);
      MulStep(x, n, c, p);
      if Set(a, m) {
        p := Xor(p, c);
        if NoneBelow(a, m) {
          NoCoeffs(n - 1, Step(c));
          XorNone(p);
          break;
        }
      }
      m := Half(m);
      c := Step(c);
      x := Left(x);
      n := n - 1;
    }
  }
}
