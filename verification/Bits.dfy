/** Bit sequences, least significant bit first (section 3.1.1 of RFC 1951), and the shifts
    and masks of C on natural numbers. */
module Bits {

  function Pow2(n: nat): (p: nat)
    ensures p >= 1
  {
    if n == 0 then 1 else 2 * Pow2(n - 1)
  }

  /** x << n */
  function Shl(x: nat, n: nat): nat {
    if n == 0 then x else 2 * Shl(x, n - 1)
  }

  /** x >> n */
  function High(x: nat, n: nat): nat {
    if n == 0 then x else High(x / 2, n - 1)
  }

  /** x & ((1 << n) - 1) */
  function Low(x: nat, n: nat): (r: nat)
    ensures r < Pow2(n)
  {
    if n == 0 then 0 else x % 2 + 2 * Low(x / 2, n - 1)
  }

  // ----- multiplication, one fact at a time -----

  lemma MulAssoc(a: int, b: int, c: int)
    ensures a * (c * b) == a * b * c
  {
  }

  lemma MulComm(a: int, b: int)
    ensures a * b == b * a
  {
  }

  lemma MulSum(a: int, b: int, m: int)
    ensures (a + b) * m == a * m + b * m
  {
  }

  lemma MulMono(a: int, b: int, m: int)
    requires a <= b && m >= 0
    ensures a * m <= b * m
  {
  }

  lemma MulBounds(d: int, m: int)
    requires m > 0
    ensures d >= 1 ==> d * m >= m
    ensures d <= -1 ==> d * m <= -m
  {
  }

  /** Quotient and remainder are the only decomposition with a small remainder. */
  lemma DivModUnique(x: int, m: int, q: int, r: int)
    requires m > 0 && 0 <= r < m && x == q * m + r
    ensures x / m == q && x % m == r
  {
    var d := x / m - q;
    assert x == x / m * m + x % m;
    assert d * m == x / m * m - q * m;
    MulBounds(d, m);
  }

  // ----- powers of two and shifts -----

  lemma {:induction false} Pow2Add(a: nat, b: nat)
    ensures Pow2(a + b) == Pow2(a) * Pow2(b)
  {
    if a > 0 {
      Pow2Add(a - 1, b);
      MulAssoc(Pow2(b), Pow2(a - 1), 2);
      MulComm(Pow2(a - 1), Pow2(b));
      MulComm(Pow2(a), Pow2(b));
    }
  }

  lemma {:induction false} Pow2Mono(a: nat, b: nat)
    requires a <= b
    ensures Pow2(a) <= Pow2(b)
    decreases b
  {
    if a < b { Pow2Mono(a, b - 1); }
  }

  lemma {:induction false} Pow2Strict(a: nat, b: nat)
    requires a < b
    ensures 2 * Pow2(a) <= Pow2(b)
  {
    Pow2Mono(a + 1, b);
  }

  lemma {:induction false} ShlMul(x: nat, n: nat)
    ensures Shl(x, n) == x * Pow2(n)
  {
    if n > 0 {
      ShlMul(x, n - 1);
      MulAssoc(x, Pow2(n - 1), 2);
    }
  }

  lemma {:induction false} ShlAdd(x: nat, y: nat, n: nat)
    ensures Shl(x + y, n) == Shl(x, n) + Shl(y, n)
  {
    if n > 0 { ShlAdd(x, y, n - 1); }
  }

  lemma {:induction false} ShlShl(x: nat, a: nat, b: nat)
    ensures Shl(Shl(x, a), b) == Shl(x, a + b)
  {
    if b > 0 { ShlShl(x, a, b - 1); }
  }

  lemma {:induction false} ShlOne(n: nat)
    ensures Shl(1, n) == Pow2(n)
  {
    if n > 0 { ShlOne(n - 1); }
  }

  lemma {:induction false} ShlInto(x: nat, n: nat)
    ensures Shl(x, n + 1) == Shl(2 * x, n)
  {
    if n > 0 { ShlInto(x, n - 1); }
  }

  lemma {:induction false} ShlMono(x: nat, y: nat, n: nat)
    requires x <= y
    ensures Shl(x, n) <= Shl(y, n)
    ensures x < y ==> Shl(x, n) + Pow2(n) <= Shl(y, n)
  {
    if n > 0 { ShlMono(x, y, n - 1); }
  }

  /** Whatever is above n bits and whatever is in them can be told apart. */
  lemma {:induction false} LowHighOf(q: nat, r: nat, n: nat)
    requires r < Pow2(n)
    ensures Low(Shl(q, n) + r, n) == r && High(Shl(q, n) + r, n) == q
  {
    if n > 0 {
      var x := Shl(q, n) + r;
      assert x / 2 == Shl(q, n - 1) + r / 2 && x % 2 == r % 2;
      LowHighOf(q, r / 2, n - 1);
    }
  }

  lemma {:induction false} Split(x: nat, n: nat)
    ensures x == Shl(High(x, n), n) + Low(x, n)
  {
    if n > 0 { Split(x / 2, n - 1); }
  }

  lemma LowSmall(x: nat, n: nat)
    requires x < Pow2(n)
    ensures Low(x, n) == x && High(x, n) == 0
  {
    ShlZero(n);
    LowHighOf(0, x, n);
  }

  lemma {:induction false} ShlZero(n: nat)
    ensures Shl(0, n) == 0
  {
    if n > 0 { ShlZero(n - 1); }
  }

  /** The C forms agree with remainder and quotient by a power of two. */
  lemma LowHighMod(x: nat, n: nat)
    ensures Low(x, n) == x % Pow2(n) && High(x, n) == x / Pow2(n)
  {
    Split(x, n);
    ShlMul(High(x, n), n);
    DivModUnique(x, Pow2(n), High(x, n), Low(x, n));
  }

  /** Masking twice: the narrower mask wins. */
  lemma {:induction false} LowLow(x: nat, a: nat, b: nat)
    requires a <= b
    ensures Low(Low(x, b), a) == Low(x, a)
  {
    if a > 0 {
      LowLow(x / 2, a - 1, b - 1);
      assert Low(x, b) / 2 == Low(x / 2, b - 1);
    }
  }

  /** The b bits above the a lowest are the same whether the top is masked first or not. */
  lemma {:induction false} HighOfLow(x: nat, a: nat, b: nat)
    ensures High(Low(x, a + b), a) == Low(High(x, a), b)
  {
    if a > 0 {
      HighOfLow(x / 2, a - 1, b);
      assert Low(x, a + b) / 2 == Low(x / 2, a + b - 1);
    }
  }

  lemma {:induction false} HighHigh(x: nat, a: nat, b: nat)
    ensures High(High(x, a), b) == High(x, a + b)
  {
    if a > 0 { HighHigh(x / 2, a - 1, b); }
  }

  lemma {:induction false} HighBelow(x: nat, a: nat, b: nat)
    requires x < Pow2(a + b)
    ensures High(x, a) < Pow2(b)
  {
    if a > 0 { HighBelow(x / 2, a - 1, b); }
  }

  lemma {:induction false} HighMono(x: nat, y: nat, n: nat)
    requires x <= y
    ensures High(x, n) <= High(y, n)
  {
    if n > 0 { HighMono(x / 2, y / 2, n - 1); }
  }

  /** a | b */
  function Or(a: nat, b: nat): nat {
    if a == 0 then b else (if a % 2 == 1 || b % 2 == 1 then 1 else 0) + 2 * Or(a / 2, b / 2)
  }

  /** Putting bits where there are none is addition. */
  lemma {:induction false} OrAbove(a: nat, b: nat, n: nat)
    requires a < Pow2(n)
    ensures Or(a, Shl(b, n)) == Shl(b, n) + a
  {
    if a > 0 { OrAbove(a / 2, b, n - 1); }
  }

  lemma {:induction false} OrZero(a: nat)
    ensures Or(a, 0) == a
  {
    if a > 0 { OrZero(a / 2); }
  }

  // ----- bit sequences -----

  /** The n low bits of v, least significant first. */
  function ToBits(v: nat, n: nat): (s: seq<bool>)
    ensures |s| == n
  {
    if n == 0 then [] else [v % 2 == 1] + ToBits(v / 2, n - 1)
  }

  /** The number whose bits, least significant first, are s. */
  function FromBits(s: seq<bool>): (v: nat)
    ensures v < Pow2(|s|)
  {
    if s == [] then 0 else (if s[0] then 1 else 0) + 2 * FromBits(s[1..])
  }

  lemma {:induction false} FromToBits(v: nat, n: nat)
    ensures FromBits(ToBits(v, n)) == Low(v, n)
  {
    if n > 0 {
      FromToBits(v / 2, n - 1);
      assert ToBits(v, n)[1..] == ToBits(v / 2, n - 1);
    }
  }

  lemma {:induction false} ToFromBits(s: seq<bool>)
    ensures ToBits(FromBits(s), |s|) == s
  {
    if s != [] {
      ToFromBits(s[1..]);
      assert FromBits(s) / 2 == FromBits(s[1..]);
      assert s == [s[0]] + s[1..];
    }
  }

  /** Only the low n bits matter. */
  lemma ToBitsLow(v: nat, n: nat)
    ensures ToBits(Low(v, n), n) == ToBits(v, n)
  {
    FromToBits(v, n);
    ToFromBits(ToBits(v, n));
  }

  /** Bits can be taken in two portions. */
  lemma {:induction false} ToBitsSplit(v: nat, k: nat, n: nat)
    ensures ToBits(v, k + n) == ToBits(v, k) + ToBits(High(v, k), n)
  {
    if k == 0 {
      assert ToBits(v, 0) + ToBits(v, n) == ToBits(v, n);
    } else {
      ToBitsSplit(v / 2, k - 1, n);
    }
  }

  /** Putting b above the k bits of a concatenates the bit sequences. */
  lemma ToBitsConcat(a: nat, k: nat, b: nat, n: nat)
    requires a < Pow2(k)
    ensures ToBits(Shl(b, k) + a, k + n) == ToBits(a, k) + ToBits(b, n)
  {
    LowHighOf(b, a, k);
    ToBitsSplit(Shl(b, k) + a, k, n);
    ToBitsLow(Shl(b, k) + a, k);
  }

  /** What a decoder that has the bits s and then t in hand sees in the low |s| bits and above. */
  lemma {:induction false} FromBitsConcat(s: seq<bool>, t: seq<bool>)
    ensures Low(FromBits(s + t), |s|) == FromBits(s) && High(FromBits(s + t), |s|) == FromBits(t)
    ensures FromBits(s + t) == FromBits(s) + Shl(FromBits(t), |s|)
  {
    if s == [] {
      assert s + t == t;
    } else {
      FromBitsConcat(s[1..], t);
      assert (s + t)[1..] == s[1..] + t;
      assert FromBits(s + t) / 2 == FromBits(s[1..] + t);
    }
  }

  // ----- reversal -----

  /** The n low bits of c in the opposite order. */
  function Rev(c: nat, n: nat): (h: nat)
    ensures h < Pow2(n)
  {
    if n == 0 then 0 else Shl(c % 2, n - 1) + (ShlOne(n - 1); ShlZero(n - 1); Rev(c / 2, n - 1))
  }

  /** Low-order zeros of a code disappear when the code is reversed. */
  lemma {:induction false} RevShift(c: nat, d: nat, n: nat)
    ensures Rev(Shl(c, d), n + d) == Rev(c, n)
    decreases d
  {
    if d > 0 {
      RevShift(c, d - 1, n);
      ShlZero(n + d - 1);
    }
  }

  /** Masking a reversed code to its low l bits keeps the l leading bits of the code. */
  lemma {:induction false} RevPrefix(c: nat, d: nat, l: nat)
    ensures Low(Rev(c, l + d), l) == Rev(High(c, d), l)
    decreases d
  {
    if d == 0 {
      LowSmall(Rev(c, l), l);
    } else {
      RevPrefix(c / 2, d - 1, l);
      LowIgnores(c % 2, d - 1, l, Rev(c / 2, l + d - 1));
    }
  }

  lemma LowIgnores(b: nat, d: nat, l: nat, y: nat)
    ensures Low(Shl(b, d + l) + y, l) == Low(y, l)
  {
    Split(y, l);
    ShlShl(b, d, l);
    ShlAdd(Shl(b, d), High(y, l), l);
    LowHighOf(Shl(b, d) + High(y, l), Low(y, l), l);
  }

  lemma {:induction false} RevInjective(a: nat, b: nat, n: nat)
    requires a < Pow2(n) && b < Pow2(n) && Rev(a, n) == Rev(b, n)
    ensures a == b
  {
    if n > 0 {
      ShlOne(n - 1);
      ShlZero(n - 1);
      assert Rev(a / 2, n - 1) < Pow2(n - 1) && Rev(b / 2, n - 1) < Pow2(n - 1);
      assert a % 2 == b % 2;
      RevInjective(a / 2, b / 2, n - 1);
    }
  }

  /** The reversal's own low bit is the code's top bit. */
  lemma {:induction false} RevLow(c: nat, n: nat)
    requires n > 0 && c < Pow2(n)
    ensures Rev(c, n) == High(c, n - 1) + 2 * Rev(Low(c, n - 1), n - 1)
  {
    if n > 1 {
      RevLow(c / 2, n - 1);
      var m := Low(c, n - 1);
      assert m % 2 == c % 2 && m / 2 == Low(c / 2, n - 2);
    }
  }

  lemma {:induction false} RevRev(c: nat, n: nat)
    requires c < Pow2(n)
    ensures Rev(Rev(c, n), n) == c
  {
    if n > 0 {
      RevRev(c / 2, n - 1);
      RevLow(Rev(c, n), n);
      LowHighOf(c % 2, Rev(c / 2, n - 1), n - 1);
    }
  }

  // ----- portions -----

  /** Portions one after the other. */
  function Joined<T>(xs: seq<seq<T>>): seq<T> {
    if xs == [] then [] else Joined(xs[..|xs| - 1]) + xs[|xs| - 1]
  }

  lemma NonePortion<T>()
    ensures Joined<T>([]) == []
  {
  }

  lemma NextPortion<T>(xs: seq<seq<T>>, i: nat)
    requires i < |xs|
    ensures Joined(xs[..i + 1]) == Joined(xs[..i]) + xs[i]
  {
    assert xs[..i + 1][..i] == xs[..i];
  }
}
