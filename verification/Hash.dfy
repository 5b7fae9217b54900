/** UPDATE_HASH of deflate.c: the rolling hash of three bytes. */
module Hash {
  import opened Bits

  /** a ^ b */
  function Xor(a: nat, b: nat): nat {
    if a == 0 then b else (if a % 2 == b % 2 then 0 else 1) + 2 * Xor(a / 2, b / 2)
  }

  /** hash_bits and hash_shift, as deflateInit2_ chooses them. */
  datatype Params = Params(bits: nat, shift: nat)

  predicate ValidParams(p: Params) { 8 <= p.bits <= 16 && 3 * p.shift >= p.bits }

  /** The hash after the next byte. */
  function Update(p: Params, h: nat, c: nat): (r: nat)
    ensures r < Pow2(p.bits)
  {
    Low(Xor(Shl(h, p.shift), c), p.bits)
  }

  /** The hash of three bytes. */
  function Hash3(p: Params, a: nat, b: nat, c: nat): (r: nat)
    ensures r < Pow2(p.bits)
  {
    Update(p, Update(p, Update(p, 0, a), b), c)
  }

  lemma {:induction false} XorLow(x: nat, y: nat, n: nat)
    ensures Low(Xor(x, y), n) == Low(Xor(Low(x, n), y), n)
  {
    hide Xor, Low;
    if n > 0 {
      var l := Low(x, n);
      XorHalves(x, y);
      XorHalves(l, y);
      LowHalf(x, n);
      LowHalf(Xor(x, y), n);
      LowHalf(Xor(l, y), n);
      XorLow(x / 2, y / 2, n - 1);
    } else {
      LowNone(Xor(x, y));
      LowNone(Xor(Low(x, n), y));
    }
  }

  lemma LowHalf(x: nat, n: nat)
    requires n > 0
    ensures Low(x, n) % 2 == x % 2 && Low(x, n) / 2 == Low(x / 2, n - 1)
  {
  }

  lemma XorNone(y: nat)
    ensures Xor(0, y) == y
  {
  }

  lemma XorHalves(x: nat, y: nat)
    ensures Xor(x, y) % 2 == (if x % 2 == y % 2 then 0 else 1) && Xor(x, y) / 2 == Xor(x / 2, y / 2)
  {
    if x == 0 { XorNone(y); XorNone(y / 2); }
  }

  lemma {:induction false} LowShl(x: nat, s: nat, n: nat)
    ensures Low(Shl(x, s), n) == if s <= n then Shl(Low(x, n - s), s) else 0
  {
    if n > 0 && s > 0 { LowShl(x, s - 1, n - 1); }
    if n == 0 { ShlZero(s); }
  }

  /** Two hashes that agree in their k low bits agree, after the next byte, in shift more. */
  lemma UpdateAgrees(p: Params, g: nat, h: nat, c: nat, k: nat, m: nat)
    requires Low(g, k) == Low(h, k) && m <= k + p.shift && m <= p.bits
    ensures Low(Update(p, g, c), m) == Low(Update(p, h, c), m)
  {
    hide Low, Shl, Xor;
    var x, y := Shl(g, p.shift), Shl(h, p.shift);
    LowLow(Xor(x, c), m, p.bits);
    LowLow(Xor(y, c), m, p.bits);
    XorLow(x, c, m);
    XorLow(y, c, m);
    LowShl(g, p.shift, m);
    LowShl(h, p.shift, m);
    if p.shift <= m {
      LowLow(g, m - p.shift, k);
      LowLow(h, m - p.shift, k);
    }
  }

  /** insH is ready for the string that starts with a and b: it agrees with their hash in the bits
      that will not be shifted out. */
  ghost predicate Rolling(p: Params, insH: nat, a: nat, b: nat) {
    insH < Pow2(p.bits) &&
    (p.shift <= p.bits ==> Low(insH, p.bits - p.shift) == Low(Update(p, Update(p, 0, a), b), p.bits - p.shift))
  }

  lemma LowNone(x: nat)
    ensures Low(x, 0) == 0
  {
  }

  /** Rolling on by one byte gives the hash of the three bytes, ready for the next string. */
  lemma RollOn(p: Params, insH: nat, a: nat, b: nat, c: nat)
    requires ValidParams(p) && Rolling(p, insH, a, b)
    ensures Update(p, insH, c) == Hash3(p, a, b, c) && Rolling(p, Update(p, insH, c), b, c)
  {
    hide Low, Update, Pow2;
    var two := Update(p, Update(p, 0, a), b);
    var k := if p.shift <= p.bits then p.bits - p.shift else 0;
    LowNone(insH);
    LowNone(two);
    UpdateAgrees(p, insH, two, c, k, p.bits);
    UpdateFits(p, insH, c);
    UpdateFits(p, two, c);
    // the first byte is gone after two more
    var k1 := if p.bits >= 2 * p.shift then p.bits - 2 * p.shift else 0;
    LowNone(Update(p, 0, a));
    LowNone(0);
    UpdateAgrees(p, Update(p, 0, a), 0, b, 0, k1);
    UpdateAgrees(p, two, Update(p, 0, b), c, k1, k);
  }

  lemma UpdateFits(p: Params, h: nat, c: nat)
    ensures Low(Update(p, h, c), p.bits) == Update(p, h, c) < Pow2(p.bits)
  {
    LowSmall(Update(p, h, c), p.bits);
  }

  /** The start of a new hash. */
  lemma RollStart(p: Params, a: nat, b: nat)
    requires ValidParams(p) && a < 256
    ensures Rolling(p, Update(p, a, b), a, b)
  {
    hide Low, Shl, Pow2;
    Pow2Mono(8, p.bits);
    assert Pow2(8) == 256 by { EightBits(); }
    ShlZero(p.shift);
    LowSmall(a, p.bits);
  }

  lemma EightBits()
    ensures Pow2(8) == 256
  {
  }

  lemma {:induction false} XorInjective(x: nat, c: nat, d: nat, n: nat)
    requires Low(Xor(x, c), n) == Low(Xor(x, d), n)
    ensures Low(c, n) == Low(d, n)
  {
    hide Xor, Low;
    if n == 0 {
      LowNone(c);
      LowNone(d);
    } else {
      XorHalves(x, c);
      XorHalves(x, d);
      LowHalf(Xor(x, c), n);
      LowHalf(Xor(x, d), n);
      XorInjective(x / 2, c / 2, d / 2, n - 1);
      LowHalf(c, n);
      LowHalf(d, n);
    }
  }

  /** Strings that begin with the same two bytes and have the same hash have the same third byte. */
  lemma ThirdByte(p: Params, a: nat, b: nat, c: nat, d: nat)
    requires ValidParams(p) && c < 256 && d < 256 && Hash3(p, a, b, c) == Hash3(p, a, b, d)
    ensures c == d
  {
    hide Low, Shl, Pow2, Xor;
    XorInjective(Shl(Update(p, Update(p, 0, a), b), p.shift), c, d, p.bits);
    EightBits();
    Pow2Mono(8, p.bits);
    LowSmall(c, p.bits);
    LowSmall(d, p.bits);
  }
}
