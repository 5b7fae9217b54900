/** The fixed codes, and why a fixed-code block never overwrites the symbols it is made from. */
module Fixed {
  import opened Bits
  import opened Canonical
  import opened Format
  import opened Codec
  import opened Compress
  import GenCodes

  function FixedCodes(): Codes { Codes(FixedLl(), FixedDl()) }

  function Clamp(x: int, hi: nat): nat { if x < 0 then 0 else if x > hi then hi else x }

  /** How many of the first n literal/length codes have length b. */
  lemma {:induction false} FixedCounts(n: nat)
    requires n <= 288
    ensures Count(FixedLl()[..n], 7) == Clamp(n - 256, 24)
    ensures Count(FixedLl()[..n], 8) == Clamp(n, 144) + Clamp(n - 280, 8)
    ensures Count(FixedLl()[..n], 9) == Clamp(n - 144, 112)
    ensures forall b :: b != 7 && b != 8 && b != 9 ==> Count(FixedLl()[..n], b) == 0
  {
    hide Seg;
    GenCodes.CountsZero(FixedLl());
    if n == 0 {
      assert FixedLl()[..0] == [];
    } else {
      FixedCounts(n - 1);
      GenCodes.CountNext(FixedLl(), n - 1);
      forall b | b != 7 && b != 8 && b != 9 ensures Count(FixedLl()[..n], b) == 0 {
        assert Count(FixedLl()[..n - 1 + 1], b) == Count(FixedLl()[..n - 1], b);
      }
    }
  }

  lemma {:induction false} FixedDistCounts(n: nat)
    requires n <= 32
    ensures Count(FixedDl()[..n], 5) == n && forall b :: b != 5 ==> Count(FixedDl()[..n], b) == 0
  {
    hide Seg;
    GenCodes.CountsZero(FixedDl());
    if n == 0 {
      assert FixedDl()[..0] == [];
    } else {
      FixedDistCounts(n - 1);
      GenCodes.CountNext(FixedDl(), n - 1);
      forall b | b != 5 ensures Count(FixedDl()[..n], b) == 0 {
        assert Count(FixedDl()[..n - 1 + 1], b) == Count(FixedDl()[..n - 1], b);
      }
    }
  }

  lemma {:induction false} KraftGap(lens: seq<nat>, a: nat, b: nat)
    requires a <= b <= MAXBITS && forall l :: a < l <= b ==> Count(lens, l) == 0
    ensures KraftTo(lens, b) == KraftTo(lens, a)
    decreases b
  {
    if a < b {
      KraftGap(lens, a, b - 1);
      ShlZero(MAXBITS - b);
    }
  }

  /** Both fixed codes fill the code space exactly. */
  lemma FixedComplete()
    ensures Kraft(FixedLl()) == Pow2(MAXBITS) && Kraft(FixedDl()) == Pow2(MAXBITS)
  {
    hide Count, Shl, Pow2, FixedLl, FixedDl;
    FixedCounts(288);
    FixedDistCounts(32);
    assert FixedLl()[..288] == FixedLl() && FixedDl()[..32] == FixedDl();
    var l, d := FixedLl(), FixedDl();
    KraftGap(l, 0, 6);
    KraftGap(l, 9, MAXBITS);
    KraftGap(d, 0, 4);
    KraftGap(d, 5, MAXBITS);
    FixedSums();
  }

  lemma FixedSums()
    ensures Shl(24, 8) + Shl(152, 7) + Shl(112, 6) == Pow2(15) && Shl(32, 10) == Pow2(15)
  {
    hide Shl;
    ShlMul(24, 8);
    ShlMul(152, 7);
    ShlMul(112, 6);
    ShlMul(32, 10);
    assert Pow2(6) == 64 && Pow2(7) == 128 && Pow2(8) == 256 && Pow2(10) == 1024 && Pow2(15) == 32768;
  }

  /** No codes are shorter than the shortest. */
  lemma {:induction false} NoFirstCode(lens: seq<nat>, b: nat)
    requires forall l: nat :: l < b ==> Count(lens, l) == 0
    ensures FirstCode(lens, b) == 0
  {
    if b > 1 { NoFirstCode(lens, b - 1); }
  }

  /** The codes as section 3.2.6 of RFC 1951 lists them: 00110000 to 10111111 for 0 to 143, 110010000 to 111111111
      for 144 to 255, 0000000 to 0010111 for 256 to 279, and 11000000 to 11000111 for 280 to 287. */
  lemma FixedCodesAre(s: nat)
    requires s < 288
    ensures FixedLl()[s] == if s < 144 then 8 else if s < 256 then 9 else if s < 280 then 7 else 8
    ensures CodeOf(FixedLl(), s) ==
            if s < 144 then 48 + s else if s < 256 then 256 + s else if s < 280 then s - 256 else s - 88
    ensures s < 32 ==> FixedDl()[s] == 5 && CodeOf(FixedDl(), s) == s
  {
    hide Count;
    var l, d := FixedLl(), FixedDl();
    FixedCounts(288);
    FixedCounts(s);
    FixedDistCounts(32);
    assert l[..288] == l && d[..32] == d;
    NoFirstCode(l, 7);
    NoFirstCode(d, 5);
    if s < 32 { FixedDistCounts(s); }
    assert FirstCode(l, 8) == 48 && FirstCode(l, 9) == 400;
  }

  lemma FixedUsable()
    ensures UsableCodes(FixedCodes())
  {
    hide Kraft, Pow2;
    FixedComplete();
  }

  /** Every token can be sent with the fixed codes, in at most 31 bits. */
  lemma FixedTokenBits(t: Token)
    requires ValidToken(t)
    ensures Coded(FixedCodes(), t) && |TokBits(FixedCodes(), t)| <= 31
  {
    hide Pow2, Kraft, LengthCode, DistCode, RevCode;
    if t.Match? {
      LengthParts(t.len - 3);
      DistParts(t.dist - 1);
      LengthBases(LengthCode(t.len - 3));
      DistBases(DistCode(t.dist - 1));
    }
  }

  lemma {:induction false} FixedTokensBits(ts: seq<Token>)
    requires forall t :: t in ts ==> ValidToken(t)
    ensures AllCoded(FixedCodes(), ts) && |TokensBits(FixedCodes(), ts)| <= 31 * |ts|
  {
    hide Coded, TokBits, ValidToken, FixedCodes;
    forall t | t in ts ensures Coded(FixedCodes(), t) { FixedTokenBits(t); }
    if ts != [] {
      FixedTokensBits(ts[..|ts| - 1]);
      FixedTokenBits(ts[|ts| - 1]);
    }
  }

  /** A fixed-code block of fewer than litBufsize symbols, started with at most 7 buffered bits and
      its 3 header bits, never writes at or beyond the next unread symbol. */
  lemma FixedNoOverlay(start: nat, litBufsize: nat, ts: seq<Token>)
    requires start <= 10 && |ts| < litBufsize && forall t :: t in ts ==> ValidToken(t)
    ensures AllCoded(FixedCodes(), ts) && NoOverlay(start, litBufsize, FixedCodes(), ts)
  {
    hide Coded, TokBits, ValidToken, FixedCodes, TokensBits;
    FixedTokensBits(ts);
    forall n | 0 < n <= |ts| ensures start + |TokensBits(FixedCodes(), ts[..n])| < 8 * (litBufsize + 3 * n) + 8 {
      FixedTokensBits(ts[..n]);
    }
  }
}
