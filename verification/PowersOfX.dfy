/** The table of powers of x of crc32.c and x2nmodp, which wraps its index into the table: right,
    because x^(2^32) is x modulo the CRC polynomial. */
module PowersOfX {
  import opened Bits
  import opened Gf2
  import opened GfMultiply

  /** x^(2^k) in the table, which has an entry for each of 32 values of k. */
  ghost predicate Powers(t: seq<bv32>) {
    |t| == 32 && forall k: nat :: k < 32 ==> t[k] == Power(Pow2(k))
  }

  /** The x^2^n mod p(x) table of make_crc_table. */
  method MakePowers() returns (t: array<bv32>)
    ensures fresh(t) && Powers(t[..])
  {
    hide Steps, Mul, Power, Pow2;
    t := new bv32[32];
    var p: bv32 := 0x40000000;
    FirstPower();
    t[0] := p;
    var n: nat := 1;
    while n < 32
      invariant 1 <= n <= 32 && p == Power(Pow2(n - 1))
      invariant forall k: nat :: k < n ==> t[k] == Power(Pow2(k))
    {
      PowerSum(Pow2(n - 1), Pow2(n - 1));
      PowerNonzero(Pow2(n - 1));
      Doubled(n);
      p := Multmodp(p, p);
      t[n] := p;
      n := n + 1;
    }
  }

  lemma Doubled(n: nat)
    requires n > 0
    ensures Pow2(n - 1) + Pow2(n - 1) == Pow2(n)
  {
  }

  lemma FirstPower()
    ensures Power(Pow2(0)) == 0x40000000
  {
    assert Step(ONE) == 0x40000000;
    assert Steps(ONE, 1) == Steps(Step(ONE), 0);
  }

  lemma PowerNonzero(n: nat)
    ensures Power(n) != 0
  {
    StepsNonzero(ONE, n);
  }

  // ----- x^(2^32) is x -----

  function Left4(x: bv32): bv32 { Left(Left(Left(Left(x)))) }

  function Step4(b: bv32): bv32 { Step(Step(Step(Step(b)))) }

  function Term(x: bv32, b: bv32): bv32 { if Constant(x) then b else 0 }

  /** The first four terms of a product. */
  function Quad(a: bv32, b: bv32): bv32 {
    var b1 := Step(b);
    var b2 := Step(b1);
    var b3 := Step(b2);
    (if a & 0x80000000 != 0 then b else 0) ^ (if a & 0x40000000 != 0 then b1 else 0) ^
    (if a & 0x20000000 != 0 then b2 else 0) ^ (if a & 0x10000000 != 0 then b3 else 0)
  }

  /** The first eight terms. */
  function Octet(a: bv32, b: bv32): bv32 { Quad(a, b) ^ Quad(a << 4, Step4(b)) }

  /** The first sixteen terms. */
  function Sixteen(a: bv32, b: bv32): bv32 { Octet(a, b) ^ Octet(a << 8, Step8(b)) }

  /** A product, spelled out. */
  function Spelled(a: bv32, b: bv32): bv32 { Sixteen(a, b) ^ Sixteen(a << 16, Step8(Step8(b))) }

  lemma Term0(a: bv32, b: bv32)
    ensures Term(a, b) == if a & 0x80000000 != 0 then b else 0
  {
  }

  lemma Term1(a: bv32, b: bv32)
    ensures Term(Left(a), b) == if a & 0x40000000 != 0 then b else 0
  {
  }

  lemma Term2(a: bv32, b: bv32)
    ensures Term(Left(Left(a)), b) == if a & 0x20000000 != 0 then b else 0
  {
  }

  lemma Term3(a: bv32, b: bv32)
    ensures Term(Left(Left(Left(a))), b) == if a & 0x10000000 != 0 then b else 0
  {
  }

  lemma QuadXor(a: bv32, b: bv32, s: bv32, t: bv32, u: bv32, v: bv32)
    requires s == (if a & 0x80000000 != 0 then b else 0) && t == (if a & 0x40000000 != 0 then Step(b) else 0)
    requires u == (if a & 0x20000000 != 0 then Step(Step(b)) else 0)
    requires v == (if a & 0x10000000 != 0 then Step(Step(Step(b))) else 0)
    ensures Quad(a, b) == s ^ t ^ u ^ v
  {
    hide Step;
  }

  lemma XorThree(b: bv32, c: bv32, d: bv32)
    ensures b ^ c ^ d == Xor(b, Xor(c, d))
  {
  }

  lemma XorFirst(a: bv32, x: bv32, b: bv32, c: bv32, d: bv32)
    requires x == b ^ c ^ d
    ensures Xor(a, x) == a ^ b ^ c ^ d
  {
  }

  lemma QuadTerms(a: bv32, b: bv32)
    ensures Quad(a, b) == Xor(Term(a, b),
                          Xor(Term(Left(a), Step(b)),
                              Xor(Term(Left(Left(a)), Step(Step(b))), Term(Left(Left(Left(a))), Step(Step(Step(b)))))))
  {
    hide *;
    var b1 := Step(b);
    var b2 := Step(b1);
    var b3 := Step(b2);
    var s, t, u, v := Term(a, b), Term(Left(a), b1), Term(Left(Left(a)), b2), Term(Left(Left(Left(a))), b3);
    Term0(a, b);
    Term1(a, b1);
    Term2(a, b2);
    Term3(a, b3);
    QuadXor(a, b, s, t, u, v);
    XorThree(t, u, v);
    XorFirst(s, t ^ u ^ v, t, u, v);
  }

  lemma MulTerm(x: bv32, n: nat, b: bv32)
    ensures Times(Coeffs(x, n + 1), b) == Xor(Term(x, b), Times(Coeffs(Left(x), n), Step(b)))
  {
    hide Xor, Step, Left, Constant;
    assert Coeffs(x, n + 1)[1..] == Coeffs(Left(x), n);
    TimesStep(Coeffs(Left(x), n), b);
  }

  lemma MulQuad(x: bv32, n: nat, b: bv32)
    ensures Times(Coeffs(x, n + 4), b) == Xor(Quad(x, b), Times(Coeffs(Left4(x), n), Step4(b)))
  {
    hide Xor, Step, Left, Constant, Times, Coeffs, Term, Quad;
    var x1, b1 := Left(x), Step(b);
    var x2, b2 := Left(x1), Step(b1);
    var x3, b3 := Left(x2), Step(b2);
    MulTerm(x, n + 3, b);
    MulTerm(x1, n + 2, b1);
    MulTerm(x2, n + 1, b2);
    MulTerm(x3, n, b3);
    QuadTerms(x, b);
    var rest := Times(Coeffs(Left(x3), n), Step(b3));
    XorAssoc(Term(x2, b2), Term(x3, b3), rest);
    XorAssoc(Term(x1, b1), Xor(Term(x2, b2), Term(x3, b3)), rest);
    XorAssoc(Term(x, b), Xor(Term(x1, b1), Xor(Term(x2, b2), Term(x3, b3))), rest);
  }

  function Left8(a: bv32): bv32 { a << 8 }

  function Left16(a: bv32): bv32 { a << 16 }

  lemma XorIs(a: bv32, b: bv32)
    ensures a ^ b == Xor(a, b)
  {
  }

  lemma FourLeft(a: bv32)
    ensures Left4(a) == a << 4
  {
  }

  lemma LeftIs(a: bv32)
    ensures Left8(a) == a << 8 && Left16(a) == a << 16
  {
  }

  lemma OctetRaw(a: bv32, x: bv32, b: bv32)
    requires x == a << 4
    ensures Octet(a, b) == Quad(a, b) ^ Quad(x, Step4(b))
  {
    hide Step4, Quad;
  }

  lemma SixteenRaw(a: bv32, x: bv32, b: bv32)
    requires x == a << 8
    ensures Sixteen(a, b) == Octet(a, b) ^ Octet(x, Step8(b))
  {
    hide Step8, Octet;
  }

  lemma SpelledRaw(a: bv32, x: bv32, b: bv32)
    requires x == a << 16
    ensures Spelled(a, b) == Sixteen(a, b) ^ Sixteen(x, Step8(Step8(b)))
  {
    hide Step8, Sixteen;
  }

  lemma OctetIs(a: bv32, b: bv32)
    ensures Octet(a, b) == Xor(Quad(a, b), Quad(Left4(a), Step4(b)))
  {
    hide *;
    FourLeft(a);
    OctetRaw(a, Left4(a), b);
    XorIs(Quad(a, b), Quad(Left4(a), Step4(b)));
  }

  lemma SixteenIs(a: bv32, b: bv32)
    ensures Sixteen(a, b) == Xor(Octet(a, b), Octet(Left8(a), Step8(b)))
  {
    hide *;
    LeftIs(a);
    SixteenRaw(a, Left8(a), b);
    XorIs(Octet(a, b), Octet(Left8(a), Step8(b)));
  }

  lemma SpelledIs(a: bv32, b: bv32)
    ensures Spelled(a, b) == Xor(Sixteen(a, b), Sixteen(Left16(a), Step8(Step8(b))))
  {
    hide *;
    LeftIs(a);
    SpelledRaw(a, Left16(a), b);
    XorIs(Sixteen(a, b), Sixteen(Left16(a), Step8(Step8(b))));
  }

  lemma EightSteps(b: bv32)
    ensures Step8(b) == Step4(Step4(b))
  {
    hide Step;
  }

  lemma EightLeft(a: bv32)
    ensures Left8(a) == Left4(Left4(a))
  {
  }

  lemma SixteenLeft(a: bv32)
    ensures Left16(a) == Left8(Left8(a))
  {
  }

  lemma MulEight(a: bv32, n: nat, b: bv32)
    ensures Times(Coeffs(a, n + 8), b) == Xor(Octet(a, b), Times(Coeffs(Left8(a), n), Step8(b)))
  {
    hide *;
    var y, c := Left4(a), Step4(b);
    MulQuad(a, n + 4, b);
    MulQuad(y, n, c);
    EightSteps(b);
    EightLeft(a);
    OctetIs(a, b);
    XorAssoc(Quad(a, b), Quad(y, c), Times(Coeffs(Left8(a), n), Step8(b)));
  }

  lemma MulSixteen(a: bv32, n: nat, b: bv32)
    ensures Times(Coeffs(a, n + 16), b) == Xor(Sixteen(a, b), Times(Coeffs(Left16(a), n), Step8(Step8(b))))
  {
    hide *;
    var y, c := Left8(a), Step8(b);
    MulEight(a, n + 8, b);
    MulEight(y, n, c);
    SixteenLeft(a);
    SixteenIs(a, b);
    XorAssoc(Octet(a, b), Octet(y, c), Times(Coeffs(Left16(a), n), Step8(c)));
  }

  lemma NoTerms(a: bv32, b: bv32)
    ensures Times(Coeffs(a, 0), b) == 0
  {
  }

  lemma MulSpelled(a: bv32, b: bv32)
    ensures Times(Coeffs(a, 32), b) == Spelled(a, b)
  {
    hide *;
    var y, c := Left16(a), Step8(Step8(b));
    MulSixteen(a, 16, b);
    MulSixteen(y, 0, c);
    SpelledIs(a, b);
    NoTerms(Left16(y), Step8(Step8(c)));
    XorNone(Sixteen(y, c));
  }

  /** The next entry of the table of powers. */
  lemma Square(n: nat, a: bv32, b: bv32)
    requires Spelled(a, a) == b
    ensures Power(Pow2(n)) == a ==> Power(Pow2(n + 1)) == b
  {
    hide Power, Spelled, Pow2, Times, Coeffs;
    MulSpelled(a, a);
    PowerSum(Pow2(n), Pow2(n));
    Doubled(n + 1);
  }

  lemma Squares0()
    ensures Power(Pow2(0)) == 0x40000000 ==> Power(Pow2(2)) == 0x08000000
  {
    hide Power, Pow2;
    Square(0, 0x40000000, 0x20000000);
    Square(1, 0x20000000, 0x08000000);
  }

  lemma Squares1()
    ensures Power(Pow2(2)) == 0x08000000 ==> Power(Pow2(4)) == 0x00008000
  {
    hide Power, Pow2;
    Square(2, 0x08000000, 0x00800000);
    Square(3, 0x00800000, 0x00008000);
  }

  lemma Squares2()
    ensures Power(Pow2(4)) == 0x00008000 ==> Power(Pow2(6)) == 0xb1e6b092
  {
    hide Power, Pow2;
    Square(4, 0x00008000, 0xedb88320);
    Square(5, 0xedb88320, 0xb1e6b092);
  }

  lemma Squares3()
    ensures Power(Pow2(6)) == 0xb1e6b092 ==> Power(Pow2(8)) == 0xed627dae
  {
    hide Power, Pow2;
    Square(6, 0xb1e6b092, 0xa06a2517);
    Square(7, 0xa06a2517, 0xed627dae);
  }

  lemma Squares4()
    ensures Power(Pow2(8)) == 0xed627dae ==> Power(Pow2(10)) == 0xd7bbfe6a
  {
    hide Power, Pow2;
    Square(8, 0xed627dae, 0x88d14467);
    Square(9, 0x88d14467, 0xd7bbfe6a);
  }

  lemma Squares5()
    ensures Power(Pow2(10)) == 0xd7bbfe6a ==> Power(Pow2(12)) == 0x8e7ea170
  {
    hide Power, Pow2;
    Square(10, 0xd7bbfe6a, 0xec447f11);
    Square(11, 0xec447f11, 0x8e7ea170);
  }

  lemma Squares6()
    ensures Power(Pow2(12)) == 0x8e7ea170 ==> Power(Pow2(14)) == 0x4d47bae0
  {
    hide Power, Pow2;
    Square(12, 0x8e7ea170, 0x6427800e);
    Square(13, 0x6427800e, 0x4d47bae0);
  }

  lemma Squares7()
    ensures Power(Pow2(14)) == 0x4d47bae0 ==> Power(Pow2(16)) == 0x83852d0f
  {
    hide Power, Pow2;
    Square(14, 0x4d47bae0, 0x09fe548f);
    Square(15, 0x09fe548f, 0x83852d0f);
  }

  lemma Squares8()
    ensures Power(Pow2(16)) == 0x83852d0f ==> Power(Pow2(18)) == 0x7b5a9cc3
  {
    hide Power, Pow2;
    Square(16, 0x83852d0f, 0x30362f1a);
    Square(17, 0x30362f1a, 0x7b5a9cc3);
  }

  lemma Squares9()
    ensures Power(Pow2(18)) == 0x7b5a9cc3 ==> Power(Pow2(20)) == 0x9fec022a
  {
    hide Power, Pow2;
    Square(18, 0x7b5a9cc3, 0x31fec169);
    Square(19, 0x31fec169, 0x9fec022a);
  }

  lemma Squares10()
    ensures Power(Pow2(20)) == 0x9fec022a ==> Power(Pow2(22)) == 0x15d6874d
  {
    hide Power, Pow2;
    Square(20, 0x9fec022a, 0x6c8dedc4);
    Square(21, 0x6c8dedc4, 0x15d6874d);
  }

  lemma Squares11()
    ensures Power(Pow2(22)) == 0x15d6874d ==> Power(Pow2(24)) == 0xbad90e37
  {
    hide Power, Pow2;
    Square(22, 0x15d6874d, 0x5fde7a4e);
    Square(23, 0x5fde7a4e, 0xbad90e37);
  }

  lemma Squares12()
    ensures Power(Pow2(24)) == 0xbad90e37 ==> Power(Pow2(26)) == 0x4eaba214
  {
    hide Power, Pow2;
    Square(24, 0xbad90e37, 0x2e4e5eef);
    Square(25, 0x2e4e5eef, 0x4eaba214);
  }

  lemma Squares13()
    ensures Power(Pow2(26)) == 0x4eaba214 ==> Power(Pow2(28)) == 0x429a969e
  {
    hide Power, Pow2;
    Square(26, 0x4eaba214, 0xa8a472c0);
    Square(27, 0xa8a472c0, 0x429a969e);
  }

  lemma Squares14()
    ensures Power(Pow2(28)) == 0x429a969e ==> Power(Pow2(30)) == 0xc40ba6d0
  {
    hide Power, Pow2;
    Square(28, 0x429a969e, 0x148d302a);
    Square(29, 0x148d302a, 0xc40ba6d0);
  }

  lemma Squares15()
    ensures Power(Pow2(30)) == 0xc40ba6d0 ==> Power(Pow2(32)) == 0x40000000
  {
    hide Power, Pow2;
    Square(30, 0xc40ba6d0, 0xc4e22c3c);
    Square(31, 0xc4e22c3c, 0x40000000);
  }

  /** x^(2^32) is x: that the index into the table of powers wraps is right. */
  lemma FullTurn()
    ensures Power(Pow2(32)) == Power(Pow2(0))
  {
    hide Power, Pow2;
    FirstPower();
    Squares0();
    Squares1();
    Squares2();
    Squares3();
    Squares4();
    Squares5();
    Squares6();
    Squares7();
    Squares8();
    Squares9();
    Squares10();
    Squares11();
    Squares12();
    Squares13();
    Squares14();
    Squares15();
  }

  // ----- x2nmodp -----

  /** The index into the table can be taken modulo 32. */
  lemma {:induction false} PowerTurn(k: nat)
    ensures Power(Pow2(k + 32)) == Power(Pow2(k))
  {
    hide Power, Pow2, Mul;
    if k == 0 {
      FullTurn();
    } else {
      PowerTurn(k - 1);
      Doubled(k);
      Doubled(k + 32);
      PowerSum(Pow2(k - 1), Pow2(k - 1));
      PowerSum(Pow2(k + 31), Pow2(k + 31));
    }
  }

  lemma {:induction false} PowerIndex(k: nat)
    ensures Power(Pow2(k)) == Power(Pow2(k % 32))
  {
    hide Power, Pow2;
    if k >= 32 {
      PowerIndex(k - 32);
      PowerTurn(k - 32);
    }
  }

  lemma ShlHalf(n: nat, k: nat)
    ensures Shl(n, k) == Shl(n / 2, k + 1) + if n % 2 == 1 then Pow2(k) else 0
  {
    ShlInto(n / 2, k);
    ShlAdd(2 * (n / 2), n % 2, k);
    ShlOne(k);
    ShlZero(k);
  }

  lemma ShlNone(k: nat)
    ensures Shl(0, k) == 0
  {
    ShlZero(k);
  }

  /** x2nmodp: x^(n * 2^k) */
  method X2nmodp(table: array<bv32>, n: nat, k: nat) returns (p: bv32)
    requires Powers(table[..])
    ensures p == Power(n * Pow2(k))
  {
    hide Power, Pow2, Mul, Shl, Steps;
    p := 0x80000000;
    PowerNone();
    var m, j := n, k;
    ghost var done: nat := 0;
    while m > 0
      invariant done + Shl(m, j) == Shl(n, k) && p == Power(done)
    {
      ShlHalf(m, j);
      if m % 2 == 1 {
        PowerIndex(j);
        PowerSum(Pow2(j), done);
        PowerNonzero(Pow2(j));
        p := Multmodp(TableAt(table, j), p);
        done := done + Pow2(j);
      }
      m := m / 2;
      j := j + 1;
    }
    ShlNone(j);
    ShlMul(n, k);
  }

  /** x2n_table[k & 31] */
  function TableAt(table: array<bv32>, k: nat): (p: bv32)
    requires Powers(table[..])
    reads table
    ensures p == Power(Pow2(k % 32))
  {
    table[..][k % 32]
  }

  lemma PowerNone()
    ensures Power(0) == 0x80000000
  {
  }
}
