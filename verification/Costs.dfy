/** What blocks cost: the statistics that tallying keeps, and why the lengths that build_tree adds up
    are exactly the bits that are sent. */
module Costs {
  import opened Bits
  import opened Canonical
  import opened Format
  import opened Codec
  import opened Rle
  import opened TreeHeader
  import opened GenBitLen
  import opened BuildTree
  import opened CodeCost
  import opened GenCodes

  const L_CODES: nat := 286
  const BL_CODES: nat := 19
  const EXTRA_BLBITS: seq<nat> := [0, 0, 0, 0, 0, 0, 0, 0, 0, 0, 0, 0, 0, 0, 0, 0, 2, 3, 7]

  function LDesc(): TreeDesc { TreeDesc(FixedLl(), EXTRA_LBITS, 257, L_CODES, 15) }
  function DDesc(): TreeDesc { TreeDesc(FixedDl(), EXTRA_DBITS, 0, D_CODES, 15) }
  function BlDesc(): TreeDesc { TreeDesc([], EXTRA_BLBITS, 0, BL_CODES, 7) }

  lemma ValidDescs()
    ensures ValidDesc(LDesc()) && ValidDesc(DDesc()) && ValidDesc(BlDesc())
  {
    hide Pow2;
    assert Pow2(7) == 128 && Pow2(15) == 32768 by { SevenFifteen(); }
  }

  lemma SevenFifteen()
    ensures Pow2(7) == 128 && Pow2(15) == 32768
  {
    assert Pow2(7) == 128;
  }

  // ----- statistics of tokens -----

  /** The literal/length symbol of a token. */
  function LlSym(t: Token): (s: nat)
    requires ValidToken(t)
    ensures s < L_CODES && s != END_BLOCK
  {
    match t
    case Lit(b) => b
    case Match(_, len) => 257 + LengthCode(len - 3)
  }

  predicate AllValid(ts: seq<Token>) { forall t :: t in ts ==> ValidToken(t) }

  function Bumped(freq: seq<nat>, y: nat): seq<nat>
    requires y < |freq|
  {
    freq[y := freq[y] + 1]
  }

  /** Frequencies of the literal/length symbols of a block: its tokens and the end of the block. */
  function LFreq(ts: seq<Token>): (f: seq<nat>)
    requires AllValid(ts)
    ensures |f| == L_CODES
  {
    if ts == [] then seq(L_CODES, y => if y == END_BLOCK then 1 else 0)
    else Bumped(LFreq(ts[..|ts| - 1]), LlSym(ts[|ts| - 1]))
  }

  /** Frequencies of its distance symbols. */
  function DFreq(ts: seq<Token>): (f: seq<nat>)
    requires AllValid(ts)
    ensures |f| == D_CODES
  {
    if ts == [] then seq(D_CODES, y => 0)
    else
      var f, t := DFreq(ts[..|ts| - 1]), ts[|ts| - 1];
      assert t in ts;
      if t.Match? then Bumped(f, DistCode(t.dist - 1)) else f
  }

  lemma {:induction false} FreqBound(ts: seq<Token>)
    requires AllValid(ts)
    ensures forall y :: 0 <= y < L_CODES ==> LFreq(ts)[y] <= |ts| + 1
    ensures forall y :: 0 <= y < D_CODES ==> DFreq(ts)[y] <= |ts|
    ensures LFreq(ts)[END_BLOCK] == 1
  {
    if ts != [] { FreqBound(ts[..|ts| - 1]); }
  }

  /** Whatever a token needs has been counted. */
  lemma {:induction false} FreqCovers(ts: seq<Token>, t: Token)
    requires AllValid(ts) && t in ts
    ensures LFreq(ts)[LlSym(t)] > 0 && (t.Match? ==> DFreq(ts)[DistCode(t.dist - 1)] > 0)
  {
    var n := |ts| - 1;
    if t != ts[n] {
      assert t in ts[..n];
      FreqCovers(ts[..n], t);
    }
  }

  // ----- totals -----

  /** As many literal/length symbols as tokens, and the end of the block. */
  lemma {:induction false} LTotal(ts: seq<Token>)
    requires AllValid(ts)
    ensures Total(LFreq(ts), L_CODES) == |ts| + 1 && Total(DFreq(ts), D_CODES) <= |ts|
  {
    hide Total, LlSym;
    if ts == [] {
      NoTotal();
    } else {
      var n := |ts| - 1;
      LTotal(ts[..n]);
      TotalBump(LFreq(ts[..n]), LlSym(ts[n]), L_CODES);
      if ts[n].Match? { TotalBump(DFreq(ts[..n]), DistCode(ts[n].dist - 1), D_CODES); }
    }
  }

  lemma NoTotal()
    ensures Total(LFreq([]), L_CODES) == 1 && Total(DFreq([]), D_CODES) == 0
  {
    hide Total;
    var zero := seq(L_CODES, y => 0);
    assert LFreq([]) == zero[END_BLOCK := zero[END_BLOCK] + 1];
    TotalAtMost(zero, L_CODES, 0);
    TotalBump(zero, END_BLOCK, L_CODES);
    TotalAtMost(DFreq([]), D_CODES, 0);
  }

  lemma {:induction false} TotalAtMost(freq: seq<nat>, n: nat, m: nat)
    requires n <= |freq| && forall y :: 0 <= y < n ==> freq[y] <= m
    ensures Total(freq, n) <= n * m
  {
    if n > 0 { TotalAtMost(freq, n - 1, m); }
  }

  // ----- bits of counted symbols -----

  lemma {:induction false} BitsZero(d: TreeDesc, freq: seq<nat>, lens: seq<nat>, n: nat)
    requires n <= |freq| && n <= |lens| && forall y :: 0 <= y < n ==> freq[y] == 0
    ensures BitsBelow(d, freq, lens, n) == 0
  {
    if n > 0 { BitsZero(d, freq, lens, n - 1); }
  }

  lemma {:induction false} BitsBump(d: TreeDesc, freq: seq<nat>, lens: seq<nat>, y: nat, n: nat)
    requires n <= |freq| && n <= |lens| && y < |freq|
    ensures BitsBelow(d, Bumped(freq, y), lens, n) ==
            BitsBelow(d, freq, lens, n) + if y < n then lens[y] + XBits(d, y) else 0
  {
    hide XBits;
    if n > 0 {
      BitsBump(d, freq, lens, y, n - 1);
      if y == n - 1 { MulSum(freq[y], 1, lens[y] + XBits(d, y)); }
    }
  }

  lemma {:induction false} BitsCongr(d: TreeDesc, freq: seq<nat>, freq': seq<nat>, lens: seq<nat>, lens': seq<nat>,
                                     n: nat)
    requires n <= |freq| && n <= |lens| && n <= |freq'| && n <= |lens'|
    requires forall y :: 0 <= y < n ==> freq[y] == freq'[y] && (freq[y] > 0 ==> lens[y] == lens'[y])
    ensures BitsBelow(d, freq, lens, n) == BitsBelow(d, freq', lens', n)
  {
    hide XBits;
    if n > 0 { BitsCongr(d, freq, freq', lens, lens', n - 1); }
  }

  /** Lengths that lens begins with. */
  predicate Begins(c: seq<nat>, lens: seq<nat>) { |c| <= |lens| && forall i :: 0 <= i < |c| ==> c[i] == lens[i] }

  lemma MatchCost(c: Codes, t: Token, ll: seq<nat>, dl: seq<nat>)
    requires t.Match? && Coded(c, t) && Begins(c.ll, ll) && Begins(c.dl, dl)
    ensures LlSym(t) < |ll| && DistCode(t.dist - 1) < |dl|
    ensures |TokBits(c, t)| == ll[LlSym(t)] + XBits(LDesc(), LlSym(t)) + dl[DistCode(t.dist - 1)] +
            XBits(DDesc(), DistCode(t.dist - 1))
  {
    hide LengthCode, DistCode, ToBits, RevCode, FromBits, Low, Pow2, LenExtra, DistExtra;
    LengthParts(t.len - 3);
    DistParts(t.dist - 1);
  }

  /** A token takes the bits of its symbols and their extra bits. */
  lemma TokenCost(c: Codes, t: Token, ll: seq<nat>, dl: seq<nat>)
    requires Coded(c, t) && Begins(c.ll, ll) && Begins(c.dl, dl)
    ensures LlSym(t) < |ll| && (t.Match? ==> DistCode(t.dist - 1) < |dl|)
    ensures |TokBits(c, t)| == ll[LlSym(t)] + XBits(LDesc(), LlSym(t)) +
                               if t.Match? then dl[DistCode(t.dist - 1)] + XBits(DDesc(), DistCode(t.dist - 1)) else 0
  {
    if t.Match? {
      hide *;
      MatchCost(c, t, ll, dl);
    } else {
      hide LengthCode, DistCode, ToBits, RevCode, FromBits, Low, Pow2;
    }
  }

  lemma {:induction false} TokensCost(c: Codes, ts: seq<Token>, ll: seq<nat>, dl: seq<nat>)
    requires AllCoded(c, ts) && AllValid(ts) && Begins(c.ll, ll) && Begins(c.dl, dl) && |ll| >= L_CODES
    requires |dl| >= D_CODES
    ensures |TokensBits(c, ts)| + ll[END_BLOCK] ==
            BitsBelow(LDesc(), LFreq(ts), ll, L_CODES) + BitsBelow(DDesc(), DFreq(ts), dl, D_CODES)
  {
    hide TokBits, Coded, XBits, BitsBelow, LlSym, Begins, LDesc, DDesc;
    if ts == [] {
      NoTokensCost(ll, dl);
    } else {
      var n := |ts| - 1;
      TokensCost(c, ts[..n], ll, dl);
      TokenCost(c, ts[n], ll, dl);
      BitsBump(LDesc(), LFreq(ts[..n]), ll, LlSym(ts[n]), L_CODES);
      if ts[n].Match? { BitsBump(DDesc(), DFreq(ts[..n]), dl, DistCode(ts[n].dist - 1), D_CODES); }
    }
  }

  lemma NoTokensCost(ll: seq<nat>, dl: seq<nat>)
    requires |ll| >= L_CODES && |dl| >= D_CODES
    ensures ll[END_BLOCK] == BitsBelow(LDesc(), LFreq([]), ll, L_CODES) + BitsBelow(DDesc(), DFreq([]), dl, D_CODES)
  {
    hide BitsBelow;
    var zero := seq(L_CODES, y => 0);
    assert LFreq([]) == Bumped(zero, END_BLOCK);
    BitsZero(LDesc(), zero, ll, L_CODES);
    BitsBump(LDesc(), zero, ll, END_BLOCK, L_CODES);
    BitsZero(DDesc(), DFreq([]), dl, D_CODES);
  }

  /** The bits of a block, from the frequencies alone. */
  lemma BlockCost(c: Codes, ts: seq<Token>, ll: seq<nat>, dl: seq<nat>)
    requires UsableCodes(c) && AllCoded(c, ts) && AllValid(ts)
    requires Begins(c.ll, ll) && Begins(c.dl, dl) && |ll| >= L_CODES && |dl| >= D_CODES
    ensures |BlockBits(c, ts)| == BitsBelow(LDesc(), LFreq(ts), ll, L_CODES) +
            BitsBelow(DDesc(), DFreq(ts), dl, D_CODES)
  {
    hide BitsBelow, TokensBits, LFreq, DFreq, Coded, LDesc, DDesc, Kraft;
    TokensCost(c, ts, ll, dl);
  }

  // ----- bits of a header -----

  /** How often each code-length symbol occurs. */
  function RFreq(rs: seq<RCode>): (f: seq<nat>)
    ensures |f| == BL_CODES
  {
    seq(BL_CODES, y requires 0 <= y => Freq(rs, y))
  }

  lemma RFreqFirst(r: RCode, rs: seq<RCode>)
    requires r.sym < BL_CODES
    ensures RFreq([r] + rs) == Bumped(RFreq(rs), r.sym)
  {
    forall y | 0 <= y < BL_CODES ensures RFreq([r] + rs)[y] == Bumped(RFreq(rs), r.sym)[y] {
      FreqConcat([r], rs, y);
      FreqOne(r, y);
    }
  }

  lemma RCost(cl: seq<nat>, r: RCode)
    requires ValidCode(r) && HasCode(cl, r.sym)
    ensures |RBits(cl, r)| == cl[r.sym] + XBits(BlDesc(), r.sym)
  {
  }

  lemma {:induction false} RlesCost(cl: seq<nat>, rs: seq<RCode>)
    requires Sendable(cl, rs) && |cl| >= BL_CODES
    ensures |RlesBits(cl, rs)| == BitsBelow(BlDesc(), RFreq(rs), cl, BL_CODES)
  {
    hide BitsBelow, RBits, XBits, RFreq, Freq, BlDesc;
    if rs == [] {
      NoneFreq();
      BitsZero(BlDesc(), RFreq([]), cl, BL_CODES);
    } else {
      RlesCost(cl, rs[1..]);
      assert rs == [rs[0]] + rs[1..];
      RFreqFirst(rs[0], rs[1..]);
      BitsBump(BlDesc(), RFreq(rs[1..]), cl, rs[0].sym, BL_CODES);
      RCost(cl, rs[0]);
    }
  }

  lemma NoneFreq()
    ensures forall y :: 0 <= y < BL_CODES ==> RFreq([])[y] == 0
  {
  }

  lemma {:induction false} FreqAtMost(rs: seq<RCode>, y: nat)
    ensures Freq(rs, y) <= |rs|
  {
    if rs != [] { FreqAtMost(rs[..|rs| - 1], y); }
  }

  /** The codes of both trees. */
  function BothTrees(c: Codes): seq<RCode>
    requires c.ll != [] && c.dl != []
  {
    RleOf(c.ll) + RleOf(c.dl)
  }

  /** The bits of a header. */
  lemma HeaderCost(c: Codes, cl: seq<nat>, ncode: nat)
    requires UsableHeader(c, cl, ncode)
    ensures |HeaderBits(c, cl, ncode)| == 14 + 3 * ncode + BitsBelow(BlDesc(), RFreq(BothTrees(c)), cl, BL_CODES)
  {
    hide BitsBelow, RFreq, RlesBits, Kraft, RleOf, BlDesc, HeaderBits, ValidCode, HasCode;
    HeaderParts(c, cl, ncode);
    assert Sendable(cl, BothTrees(c));
    RlesBitsConcat(cl, RleOf(c.ll), RleOf(c.dl));
    RlesCost(cl, BothTrees(c));
  }

  // ----- code lengths beyond the last symbol in use -----

  /** Zero lengths at the end do not change the code. */
  lemma {:induction false} TrailingCount(lens: seq<nat>, n: nat, b: nat)
    requires n <= |lens| && b > 0 && forall i :: n <= i < |lens| ==> lens[i] == 0
    ensures Count(lens, b) == Count(lens[..n], b)
    decreases |lens|
  {
    hide Count;
    var k := |lens|;
    if n < k {
      CountNext(lens, k - 1);
      assert lens[..k] == lens && lens[..k - 1][..n] == lens[..n];
      TrailingCount(lens[..k - 1], n, b);
    } else {
      assert lens[..n] == lens;
    }
  }

  lemma {:induction false} TrailingKraft(lens: seq<nat>, n: nat, b: nat)
    requires n <= |lens| && b <= MAXBITS && forall i :: n <= i < |lens| ==> lens[i] == 0
    ensures KraftTo(lens, b) == KraftTo(lens[..n], b)
  {
    hide Count, Shl;
    if b > 0 {
      TrailingKraft(lens, n, b - 1);
      TrailingCount(lens, n, b);
    }
  }

  lemma {:induction false} TrailingFirst(lens: seq<nat>, n: nat, b: nat)
    requires n <= |lens| && forall i :: n <= i < |lens| ==> lens[i] == 0
    ensures FirstCode(lens, b) == FirstCode(lens[..n], b)
  {
    hide Count;
    if b > 1 {
      TrailingFirst(lens, n, b - 1);
      TrailingCount(lens, n, b - 1);
    }
  }

  lemma TrailingCode(lens: seq<nat>, n: nat, s: nat)
    requires s < n <= |lens| && forall i :: n <= i < |lens| ==> lens[i] == 0
    ensures RevCode(lens, s) == RevCode(lens[..n], s)
  {
    hide Count, FirstCode, Rev;
    TrailingFirst(lens, n, lens[s]);
    assert lens[..n][..s] == lens[..s];
  }
}
