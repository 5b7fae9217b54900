/** adler32.c: the checksum with deferred reductions, and combining two checksums. */
module Adler {
  import opened Bits
  import opened BitWriter

  const BASE: nat := 65521
  const NMAX: nat := 5552

  /** The two sums of section 8.2 of RFC 1950, each byte reduced, from initial sums a and b. */
  function Sums(a: nat, b: nat, buf: seq<Byte>): (nat, nat) {
    if buf == [] then (a, b)
    else
      var (s1, s2) := Sums(a, b, buf[..|buf| - 1]);
      var t1 := (s1 + buf[|buf| - 1]) % BASE;
      (t1, (s2 + t1) % BASE)
  }

  function Pack(s1: nat, s2: nat): nat { s2 * 65536 + s1 }

  /** The halves of a packed checksum. */
  function Half1(adler: nat): nat { adler % 65536 }

  function Half2(adler: nat): nat { adler / 65536 % 65536 }

  /** Both halves are reduced, as in every checksum. */
  predicate Reduced(adler: nat) { Half1(adler) < BASE && Half2(adler) < BASE }

  lemma PackHalves(s1: nat, s2: nat)
    requires s1 < BASE && s2 < BASE
    ensures Half1(Pack(s1, s2)) == s1 && Half2(Pack(s1, s2)) == s2 && Reduced(Pack(s1, s2))
  {
  }

  /** The Adler-32 checksum of buf, as a 32-bit number. */
  function Adler32Of(buf: seq<Byte>): nat {
    Pack(Sums(1, 0, buf).0, Sums(1, 0, buf).1)
  }

  // ----- the same sums without reductions -----

  function Raw1(a: nat, buf: seq<Byte>): nat {
    if buf == [] then a else Raw1(a, buf[..|buf| - 1]) + buf[|buf| - 1]
  }

  function Raw2(a: nat, b: nat, buf: seq<Byte>): nat {
    if buf == [] then b else Raw2(a, b, buf[..|buf| - 1]) + Raw1(a, buf)
  }

  lemma ModAdd(x: nat, y: nat)
    ensures (x % BASE + y) % BASE == (x + y) % BASE
  {
  }

  lemma {:induction false} SumsAreRaw(a: nat, b: nat, buf: seq<Byte>)
    ensures Sums(a % BASE, b % BASE, buf) == (Raw1(a, buf) % BASE, Raw2(a, b, buf) % BASE)
  {
    if buf != [] {
      var init := buf[..|buf| - 1];
      SumsAreRaw(a, b, init);
      ModAdd(Raw1(a, init), buf[|buf| - 1]);
      ModAdd(Raw2(a, b, init), Raw1(a, buf) % BASE);
      ModAdd(Raw1(a, buf), Raw2(a, b, init));
    }
  }

  lemma SumsRaw(a: nat, b: nat, buf: seq<Byte>)
    requires a < BASE && b < BASE
    ensures Sums(a, b, buf) == (Raw1(a, buf) % BASE, Raw2(a, b, buf) % BASE)
  {
    hide Sums, Raw1, Raw2;
    SumsAreRaw(a, b, buf);
  }

  /** Starting from other sums shifts the results. */
  lemma {:induction false} RawShift(a: nat, b: nat, buf: seq<Byte>)
    ensures Raw1(a, buf) == a + Raw1(0, buf)
    ensures Raw2(a, b, buf) == b + |buf| * a + Raw2(0, 0, buf)
  {
    if buf != [] {
      RawShift(a, b, buf[..|buf| - 1]);
      MulSum(|buf| - 1, 1, a);
    }
  }

  lemma {:induction false} SumsConcat(a: nat, b: nat, x: seq<Byte>, y: seq<Byte>)
    ensures Sums(a, b, x + y) == Sums(Sums(a, b, x).0, Sums(a, b, x).1, y)
  {
    if y == [] {
      assert x + y == x;
    } else {
      SumsConcat(a, b, x, y[..|y| - 1]);
      assert (x + y)[..|x + y| - 1] == x + y[..|y| - 1];
    }
  }

  lemma SumsReduced(a: nat, b: nat, buf: seq<Byte>)
    requires a < BASE && b < BASE
    ensures Sums(a, b, buf).0 < BASE && Sums(a, b, buf).1 < BASE
  {
  }

  /** n bytes cannot push the sums beyond these bounds. */
  lemma {:induction false} RawBounds(a: nat, b: nat, buf: seq<Byte>)
    ensures Raw1(a, buf) <= a + 255 * |buf|
    ensures 2 * Raw2(a, b, buf) <= 2 * b + 2 * (|buf| * a) + 255 * (|buf| * (|buf| + 1))
  {
    var n := |buf|;
    if n > 0 {
      RawBounds(a, b, buf[..n - 1]);
      MulSum(n - 1, 1, a);
      assert (n - 1) * n + 2 * n == n * (n + 1);
    }
  }

  /** NMAX bytes fit 32 bits, even if the sums do not start reduced. */
  lemma NoOverflow(a: nat, b: nat, buf: seq<Byte>)
    requires a < 65536 && b < 65536 && |buf| <= NMAX
    ensures Raw1(a, buf) < 0x1_0000_0000 && Raw2(a, b, buf) < 0x1_0000_0000
  {
    RawBounds(a, b, buf);
    var n := |buf|;
    MulMono(n, NMAX, a);
    MulMono(a, 65535, NMAX);
    MulMono(n, NMAX, n + 1);
    MulMono(n + 1, NMAX + 1, NMAX);
  }

  /** Add the bytes buf[from..to] to the sums without reduction (the unrolled DO16 and the byte
      loops); the 32-bit sums do not overflow. */
  method Accumulate(adler: nat, sum2: nat, buf: seq<Byte>, from: nat, to: nat) returns (a: nat, s: nat)
    requires from <= to <= |buf| && to - from <= NMAX && adler < 65536 && sum2 < 65536
    ensures a == Raw1(adler, buf[from..to]) < 0x1_0000_0000
    ensures s == Raw2(adler, sum2, buf[from..to]) < 0x1_0000_0000
  {
    a, s := adler, sum2;
    for i := from to to
      invariant a == Raw1(adler, buf[from..i]) && s == Raw2(adler, sum2, buf[from..i])
    {
      assert buf[from..i + 1][..i - from] == buf[from..i];
      NoOverflow(adler, sum2, buf[from..i + 1]);
      a := (a + buf[i]) % 0x1_0000_0000;
      s := (s + a) % 0x1_0000_0000;
    }
    NoOverflow(adler, sum2, buf[from..to]);
  }

  /** One more piece: the sums of the bytes so far, reduced or not, and of the next piece. */
  lemma Piece(a0: nat, b0: nat, buf: seq<Byte>, from: nat, to: nat, a: nat, b: nat)
    requires from <= to <= |buf| && (a % BASE, b % BASE) == Sums(a0, b0, buf[..from])
    ensures Sums(a0, b0, buf[..to]) == (Raw1(a, buf[from..to]) % BASE, Raw2(a, b, buf[from..to]) % BASE)
  {
    assert buf[..from] + buf[from..to] == buf[..to];
    SumsConcat(a0, b0, buf[..from], buf[from..to]);
    SumsAreRaw(a, b, buf[from..to]);
  }

  lemma OneByte(a: nat, b: nat, buf: seq<Byte>)
    requires |buf| == 1
    ensures var t := (a + buf[0]) % BASE; Sums(a % BASE, b % BASE, buf) == (t, (b + t) % BASE)
  {
    assert buf[..0] == [];
    ModAdd(a, buf[0]);
    ModAdd(b, (a + buf[0]) % BASE);
  }

  /** A sum of two reduced terms needs at most one subtraction. */
  lemma Subtract(x: nat)
    requires x < 2 * BASE
    ensures x % BASE == if x >= BASE then x - BASE else x
  {
  }

  /** A sum of two 16-bit terms may stay unreduced, but is right modulo BASE. */
  lemma SubtractOnce(x: nat)
    requires x < BASE + 65535
    ensures x >= BASE ==> x - BASE < 65536 && (x - BASE) % BASE == x % BASE && (x - BASE < BASE <==> x < 2 * BASE)
  {
  }

  /** One byte alone is added without a division: that leaves the second sum reduced just when it is less
      than twice BASE before the subtraction, as it always is from reduced sums. */
  ghost predicate Settles(adler: nat, buf: seq<Byte>) {
    |buf| == 1 ==> Half2(adler) + (Half1(adler) + buf[0]) % BASE < 2 * BASE
  }

  /** The sums of adler, taken modulo BASE, extended over buf. */
  function Extended(adler: nat, buf: seq<Byte>): (nat, nat) {
    Sums(Half1(adler) % BASE, Half2(adler) % BASE, buf)
  }

  lemma HalvesFit(adler: nat)
    ensures Half1(adler) < 65536 && Half2(adler) < 65536
  {
  }

  /** The 32-bit number r holds the extended sums, the second of them modulo BASE. */
  ghost predicate Extends(r: nat, adler: nat, buf: seq<Byte>) {
    r < 0x1_0000_0000 && Half1(r) == Extended(adler, buf).0 && Half2(r) % BASE == Extended(adler, buf).1
  }

  lemma ExtendsIn(r: nat, adler: nat, buf: seq<Byte>)
    requires Extends(r, adler, buf)
    ensures r % 65536 == Extended(adler, buf).0 && r / 65536 % 65521 == Extended(adler, buf).1
    ensures Half1(adler) == adler % 65536 && Half2(adler) == adler / 65536 % 65536
  {
    hide Extended;
  }

  lemma Packed(a: nat, s: nat, adler: nat, buf: seq<Byte>)
    requires s < 65536 && (a, s % BASE) == Extended(adler, buf)
    ensures Extends(Pack(a, s), adler, buf)
    ensures Pack(a, s) == Pack(Extended(adler, buf).0, Extended(adler, buf).1) <==> s < BASE
  {
    hide Sums;
    SumsReduced(Half1(adler) % BASE, Half2(adler) % BASE, buf);
  }

  lemma ReducedSettles(adler: nat, buf: seq<Byte>)
    requires Reduced(adler)
    ensures Settles(adler, buf) && Extended(adler, buf) == Sums(Half1(adler), Half2(adler), buf)
  {
    hide Sums;
  }

  /** One byte alone is added without a division. */
  method AddOne(adler: nat, sum2: nat, buf: seq<Byte>) returns (a: nat, s: nat)
    requires adler < 65536 && sum2 < 65536 && |buf| == 1
    ensures (a, s % BASE) == Sums(adler % BASE, sum2 % BASE, buf) && s < 65536
    ensures s < BASE <==> sum2 + (adler + buf[0]) % BASE < 2 * BASE
  {
    hide Sums;
    OneByte(adler, sum2, buf);
    Subtract(adler + buf[0]);
    a := adler + buf[0];
    if a >= BASE { a := a - BASE; }
    SubtractOnce(sum2 + a);
    s := sum2 + a;
    if s >= BASE { s := s - BASE; }
  }

  /** A short buffer leaves the first sum less than twice BASE. */
  method AddFew(adler: nat, sum2: nat, buf: seq<Byte>) returns (a: nat, s: nat)
    requires adler < 65536 && sum2 < 65536 && |buf| < 16
    ensures (a, s) == Sums(adler % BASE, sum2 % BASE, buf) && s < BASE
  {
    hide Sums, Raw1, Raw2;
    SumsAreRaw(adler, sum2, buf);
    RawBounds(adler, sum2, buf);
    assert buf[0..|buf|] == buf;
    a, s := Accumulate(adler, sum2, buf, 0, |buf|);
    Subtract(a);
    if a >= BASE { a := a - BASE; }
    s := s % BASE;
  }

  /** Blocks of NMAX bytes need just one reduction each. */
  method AddMany(adler: nat, sum2: nat, buf: seq<Byte>) returns (a: nat, s: nat)
    requires adler < 65536 && sum2 < 65536 && |buf| > 0
    ensures (a, s) == Sums(adler % BASE, sum2 % BASE, buf) && s < BASE
  {
    hide Sums, Raw1, Raw2;
    a, s := adler, sum2;
    ghost var a0: nat, b0: nat := a % BASE, s % BASE;
    SumsNone(a0, b0);
    assert buf[..0] == [] && buf[..|buf|] == buf;
    var i := 0;
    while |buf| - i >= NMAX
      invariant i <= |buf| && (a % BASE, s % BASE) == Sums(a0, b0, buf[..i]) && a < 65536 && s < 65536
      invariant i > 0 ==> a < BASE && s < BASE
    {
      Piece(a0, b0, buf, i, i + NMAX, a, s);
      a, s := Accumulate(a, s, buf, i, i + NMAX);
      a, s := a % BASE, s % BASE;
      i := i + NMAX;
    }
    if i < |buf| {
      Piece(a0, b0, buf, i, |buf|, a, s);
      a, s := Accumulate(a, s, buf, i, |buf|);
      a, s := a % BASE, s % BASE;
    }
  }

  /** adler32_z for a buffer, from any number: the sums of adler extended over buf. They are right
      modulo BASE, and reduced except after one byte from sums that are not. */
  method Adler32z(adler: nat, buf: seq<Byte>) returns (r: nat)
    ensures Extends(r, adler, buf)
    ensures r % 65536 == (adler % 65536 + Total(buf)) % 65521
    ensures r / 65536 % 65521 == (adler / 65536 % 65536 + |buf| * (adler % 65536) + Weighted(buf)) % 65521
    ensures r == Pack(Extended(adler, buf).0, Extended(adler, buf).1) <==> Settles(adler, buf)
    ensures Reduced(adler) ==>
              r == Pack(Sums(Half1(adler), Half2(adler), buf).0, Sums(Half1(adler), Half2(adler), buf).1)
  {
    hide Sums, Half1, Half2, Reduced, Extends, Pack;
    var a, s := Half1(adler), Half2(adler);
    HalvesFit(adler);
    if Reduced(adler) { ReducedSettles(adler, buf); }
    if |buf| == 1 {
      a, s := AddOne(a, s, buf);
    } else if |buf| < 16 {
      a, s := AddFew(a, s, buf);
    } else {
      a, s := AddMany(a, s, buf);
    }
    Packed(a, s, adler, buf);
    r := Pack(a, s);
    ExtendedIs(adler, buf);
    ExtendsIn(r, adler, buf);
  }

  lemma SumsNone(a: nat, b: nat)
    ensures Sums(a, b, []) == (a, b)
  {
  }

  // ----- the checksum in numbers -----

  /** The sum of all bytes. */
  function Total(buf: seq<Byte>): nat {
    if buf == [] then 0 else buf[0] + Total(buf[1..])
  }

  /** The sum of all bytes, each times the number of bytes from it to the end. */
  function Weighted(buf: seq<Byte>): nat {
    if buf == [] then 0 else |buf| * buf[0] + Weighted(buf[1..])
  }

  lemma {:induction false} TotalPush(buf: seq<Byte>, x: Byte)
    ensures Total(buf + [x]) == Total(buf) + x
    ensures Weighted(buf + [x]) == Weighted(buf) + Total(buf) + x
  {
    var all := buf + [x];
    if buf == [] {
      assert all[1..] == [];
    } else {
      TotalPush(buf[1..], x);
      assert all[1..] == buf[1..] + [x];
      MulSum(|buf|, 1, buf[0]);
    }
  }

  lemma {:induction false} RawTotals(buf: seq<Byte>)
    ensures Raw1(0, buf) == Total(buf) && Raw2(0, 0, buf) == Weighted(buf)
  {
    if buf != [] {
      var init, x := buf[..|buf| - 1], buf[|buf| - 1];
      RawTotals(init);
      TotalPush(init, x);
      assert init + [x] == buf;
    }
  }

  /** Any checksum: the first sum is that of the bytes, the second adds each byte once for itself and every one
      that follows. */
  lemma ExtendedIs(adler: nat, buf: seq<Byte>)
    ensures Extended(adler, buf).0 == (Half1(adler) + Total(buf)) % 65521
    ensures Extended(adler, buf).1 == (Half2(adler) + |buf| * Half1(adler) + Weighted(buf)) % 65521
  {
    hide Sums, Raw1, Raw2, Half1, Half2, Total, Weighted;
    SumsAreRaw(Half1(adler), Half2(adler), buf);
    RawShift(Half1(adler), Half2(adler), buf);
    RawTotals(buf);
  }

  /** The checksum of a buffer, as section 8.2 of RFC 1950 has it: its low 16 bits are one more than the bytes' sum,
      the high ones the sum of all values that the first sum takes on, both modulo 65521. */
  lemma ChecksumIs(buf: seq<Byte>)
    ensures Adler32Of(buf) % 65536 == (1 + Total(buf)) % 65521
    ensures Adler32Of(buf) / 65536 == (|buf| + Weighted(buf)) % 65521
  {
    hide Sums, Raw1, Raw2, Total, Weighted;
    SumsRaw(1, 0, buf);
    RawShift(1, 0, buf);
    RawTotals(buf);
  }

  lemma Triangle(n: nat, x: nat)
    requires n > 0
    ensures (n - 1) * n * x + 2 * (n * x) == n * (n + 1) * x
  {
    var a, b := (n - 1) * n, 2 * n;
    assert a + b == n * (n + 1);
    MulSum(a, b, x);
    assert b * x == 2 * (n * x);
  }

  lemma {:induction false} SameBytes(n: nat, x: Byte)
    ensures Total(seq(n, i => x)) == n * x && 2 * Weighted(seq(n, i => x)) == n * (n + 1) * x
  {
    var s := seq(n, i => x);
    if n > 0 {
      SameBytes(n - 1, x);
      assert s[1..] == seq(n - 1, i => x);
      MulSum(n - 1, 1, x);
      Triangle(n, x);
    }
  }

  /** A buffer for which both sums wrap around. */
  lemma WrapValue()
    ensures Adler32Of(seq(257, i => 255)) == 0x080f000f
  {
    hide Adler32Of, Total, Weighted;
    SameBytes(257, 255);
    ChecksumIs(seq(257, i => 255));
  }

  /** The sums of a concatenation, as adler32_combine_ computes them from the parts' sums. */
  function CombineSums(a: nat, b: nat, c: nat, d: nat, n: nat): (nat, nat)
    requires a < BASE && b < BASE && c < BASE && d < BASE
  {
    ((a + c + BASE - 1) % BASE, (n % BASE * a + b + d + BASE - n % BASE) % BASE)
  }

  /** adler32_combine_ on reduced halves. */
  method Adler32Combine(adler1: nat, adler2: nat, len2: int) returns (r: nat)
    requires Reduced(adler1) && Reduced(adler2)
    ensures len2 < 0 ==> r == 0xffffffff
    ensures len2 >= 0 ==>
              r == var (s1, s2) := CombineSums(Half1(adler1), Half2(adler1), Half1(adler2), Half2(adler2),
                                               len2); Pack(s1, s2)
  {
    hide Half1, Half2, Pack;
    if len2 < 0 { return 0xffffffff; }
    var rem: nat := len2 % BASE;
    var sum1 := Half1(adler1);
    Product(rem, sum1);
    var sum2: nat := rem * sum1;
    sum2 := sum2 % BASE;
    ModAdd(rem * sum1, Half2(adler1) + Half2(adler2) + BASE - rem);
    sum1 := sum1 + Half1(adler2) + BASE - 1;
    sum2 := sum2 + Half2(adler1) + Half2(adler2) + BASE - rem;
    SubtractTwice(sum1);
    if sum1 >= BASE { sum1 := sum1 - BASE; }
    if sum1 >= BASE { sum1 := sum1 - BASE; }
    SubtractTwice(sum2);
    if sum2 >= 2 * BASE { sum2 := sum2 - 2 * BASE; }
    if sum2 >= BASE { sum2 := sum2 - BASE; }
    r := Pack(sum1, sum2);
  }

  lemma SubtractTwice(x: nat)
    requires x < 4 * BASE
    ensures x % BASE == if x >= 3 * BASE then x - 3 * BASE else if x >= 2 * BASE then x - 2 * BASE
                        else if x >= BASE then x - BASE else x
  {
  }

  /** The product of two reduced numbers fits 32 bits. */
  lemma Product(x: nat, y: nat)
    requires x < BASE && y < BASE
    ensures 0 <= x * y < 0x1_0000_0000
  {
    MulMono(x, BASE - 1, y);
    MulMono(y, BASE - 1, BASE - 1);
    MulMono(0, x, y);
  }

  /** What adler32_combine_ computes from the checksums of x and y is the checksum of x followed by y. */
  lemma CombineIsConcat(x: seq<Byte>, y: seq<Byte>)
    ensures Reduced(Adler32Of(x)) && Reduced(Adler32Of(y))
    ensures Sums(1, 0, x + y) ==
            CombineSums(Half1(Adler32Of(x)), Half2(Adler32Of(x)), Half1(Adler32Of(y)), Half2(Adler32Of(y)), |y|)
  {
    hide Sums, Raw1, Raw2, Half1, Half2, Pack, Reduced;
    var (a, b) := Sums(1, 0, x);
    SumsReduced(1, 0, x);
    SumsReduced(1, 0, y);
    PackHalves(a, b);
    PackHalves(Sums(1, 0, y).0, Sums(1, 0, y).1);
    SumsConcat(1, 0, x, y);
    SumsRaw(a, b, y);
    SumsRaw(1, 0, y);
    RawShift(a, b, y);
    RawShift(1, 0, y);
    CombineMod(a, b, |y|, Raw1(0, y), Raw2(0, 0, y));
  }

  lemma CombineMod(a: nat, b: nat, n: nat, u: nat, v: nat)
    requires a < BASE && b < BASE
    ensures (a + u) % BASE == (a + (1 + u) % BASE + BASE - 1) % BASE
    ensures (b + n * a + v) % BASE == (n % BASE * a + b + (n * 1 + v) % BASE + BASE - n % BASE) % BASE
  {
    ModAdd(1 + u, a + BASE - 1);
    var q, r := n / BASE, n % BASE;
    assert n * a == q * a * BASE + r * a by {
      assert (q * BASE + r) * a == q * BASE * a + r * a;
      assert q * BASE * a == q * a * BASE;
    }
    ModAdd(n + v, r * a + b + BASE - r);
    var z := b + r * a + v;
    assert n + v + (r * a + b + BASE - r) == z + (q + 1) * BASE;
    Multiple(z, q + 1);
    Multiple(z, q * a);
  }

  lemma Multiple(z: nat, k: nat)
    ensures (z + k * BASE) % BASE == z % BASE
  {
    DivModUnique(z + k * BASE, BASE, z / BASE + k, z % BASE);
  }

  /** Going on from the checksum of x gives the checksum of x followed by y. */
  lemma CheckMore(x: seq<Byte>, y: seq<Byte>)
    ensures Reduced(Adler32Of(x))
    ensures var (a, b) := Sums(Half1(Adler32Of(x)), Half2(Adler32Of(x)), y); Pack(a, b) == Adler32Of(x + y)
  {
    hide Sums, Half1, Half2, Pack, Reduced;
    var (a, b) := Sums(1, 0, x);
    SumsReduced(1, 0, x);
    PackHalves(a, b);
    SumsConcat(1, 0, x, y);
  }

  /** Hence combining is exact for every pair of buffers. */
  method CombineBuffers(x: seq<Byte>, y: seq<Byte>) returns (r: nat)
    ensures r == Adler32Of(x + y)
  {
    hide Sums, Half1, Half2, Reduced;
    PackHalves(1, 0);
    var a := Adler32z(1, x);
    var b := Adler32z(1, y);
    CombineIsConcat(x, y);
    r := Adler32Combine(a, b, |y|);
  }

  /** Bring the check value of what has been read up to date. */
  method AdlerMore(adler: nat, ghost before: seq<Byte>, buf: seq<Byte>) returns (r: nat)
    requires adler == Adler32Of(before)
    ensures r == Adler32Of(before + buf)
  {
    hide *;
    CheckMore(before, buf);
    r := Adler32z(adler, buf);
  }
}
