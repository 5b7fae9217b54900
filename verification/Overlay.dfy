/** Why a block with codes of its own does not overtake its symbols: sym_buf is the upper three quarters
    of pending_buf, and the codes are the cheapest ones. deflateInit2_'s comment argues from an average;
    these are bounds for every prefix of the block. */
module Overlay {
  import opened Bits
  import opened Canonical
  import opened Format
  import opened Codec
  import opened Compress
  import opened Fixed
  import opened Rle
  import opened TreeHeader
  import opened BuildTree
  import opened CodeCost
  import opened Costs
  import opened Blocks
  import opened FlushBlock
  import GenCodes
  import InflateTable
  import MergeTree

  // ----- the codes of a block are the cheapest -----

  /** What has been counted is what the tokens need. */
  lemma {:induction false} FreqCoded(ts: seq<Token>, c: Codes)
    requires AllValid(ts) && AllCoded(c, ts) && HasCode(c.ll, END_BLOCK)
    ensures forall y :: 0 <= y < L_CODES && LFreq(ts)[y] > 0 ==> HasCode(c.ll, y)
    ensures forall y :: 0 <= y < D_CODES && DFreq(ts)[y] > 0 ==> HasCode(c.dl, y)
  {
    hide LengthCode, DistCode;
    if ts != [] {
      FreqCoded(ts[..|ts| - 1], c);
      assert Coded(c, ts[|ts| - 1]);
    }
  }

  lemma CodePossible(ts: seq<Token>, c: Codes)
    requires AllValid(ts) && UsableCodes(c) && AllCoded(c, ts)
    ensures Possible(LFreq(ts), Extended(c.ll, L_CODES), L_CODES)
    ensures Possible(DFreq(ts), Extended(c.dl, D_CODES), D_CODES)
  {
    hide Kraft, Pow2, LFreq, DFreq, Possible, Coded;
    FreqCoded(ts, c);
    var l, d := Extended(c.ll, L_CODES), Extended(c.dl, D_CODES);
    assert forall n :: 0 <= n < |c.ll| ==> l[n] == l[..|c.ll|][n];
    assert forall n :: 0 <= n < |c.dl| ==> d[n] == d[..|c.dl|][n];
    PossibleCode(LFreq(ts), c.ll, l, L_CODES);
    PossibleCode(DFreq(ts), c.dl, d, D_CODES);
  }

  lemma ExtendedCost(ts: seq<Token>, c: Codes)
    requires AllValid(ts) && UsableCodes(c) && AllCoded(c, ts)
    ensures |BlockBits(c, ts)| == BitsBelow(LDesc(), LFreq(ts), Extended(c.ll, L_CODES), L_CODES) +
                                  BitsBelow(DDesc(), DFreq(ts), Extended(c.dl, D_CODES), D_CODES)
  {
    hide Kraft, BlockBits, LFreq, DFreq, BitsBelow, LDesc, DDesc, Coded;
    var l, d := Extended(c.ll, L_CODES), Extended(c.dl, D_CODES);
    assert forall n :: 0 <= n < |c.ll| ==> l[n] == l[..|c.ll|][n];
    assert forall n :: 0 <= n < |c.dl| ==> d[n] == d[..|c.dl|][n];
    BlockCost(c, ts, l, d);
  }

  /** Unless a Huffman tree for its symbols is too deep, no codes that can send a block take fewer bits
      for its data than those that build_tree gives it. */
  lemma CheapestBlock(ts: seq<Token>, c: Codes, other: Codes)
    requires AllValid(ts) && ThriftyCodes(ts, c) && UsableCodes(c) && AllCoded(c, ts)
    requires UsableCodes(other) && AllCoded(other, ts)
    ensures Deep(LFreq(ts), LDesc()) || Deep(DFreq(ts), DDesc()) || |BlockBits(c, ts)| <= |BlockBits(other, ts)|
  {
    hide Kraft, BlockBits, LFreq, DFreq, BitsBelow, UsableCodes, AllCoded, Possible, Deep;
    ExtendedCost(ts, c);
    ExtendedCost(ts, other);
    CodePossible(ts, other);
    DescSizes();
  }

  // ----- bits of tokens -----

  function Matches(ts: seq<Token>): nat {
    if ts == [] then 0 else Matches(ts[..|ts| - 1]) + if ts[|ts| - 1].Match? then 1 else 0
  }

  /** The extra bits of a token, which are the same in all codes. */
  function Extra(t: Token): nat
    requires ValidToken(t)
  {
    if t.Lit? then 0 else EXTRA_LBITS[LengthCode(t.len - 3)] + EXTRA_DBITS[DistCode(t.dist - 1)]
  }

  lemma ExtraBound(t: Token)
    requires ValidToken(t)
    ensures Extra(t) <= if t.Lit? then 0 else 18
  {
    hide LengthCode, DistCode;
    if t.Match? {
      LengthCodeRange(t.len - 3);
      DistCodeRange(t.dist - 1);
    }
  }

  /** A token takes the bits of its codes and its extra bits. */
  lemma TokenSize(c: Codes, t: Token)
    requires Coded(c, t) && ValidLens(c.ll) && ValidLens(c.dl)
    ensures t.Lit? ==> |TokBits(c, t)| == c.ll[t.b]
    ensures t.Match? ==> |TokBits(c, t)| == c.ll[257 + LengthCode(t.len - 3)] + c.dl[DistCode(t.dist - 1)] + Extra(t)
    ensures (if t.Lit? then 1 else 2) + Extra(t) <= |TokBits(c, t)| <= (if t.Lit? then 15 else 30) + Extra(t)
  {
    hide LengthCode, DistCode, ToBits, RevCode, Pow2, LenExtra, DistExtra;
    if t.Match? {
      LengthParts(t.len - 3);
      DistParts(t.dist - 1);
    }
  }

  /** No token takes more than 48 bits, and a literal no more than 15. */
  lemma {:induction false} TokensAtMost(c: Codes, ts: seq<Token>)
    requires AllCoded(c, ts) && ValidLens(c.ll) && ValidLens(c.dl)
    ensures |TokensBits(c, ts)| <= 15 * |ts| + 33 * Matches(ts) && Matches(ts) <= |ts|
  {
    hide TokBits, Coded, Extra;
    if ts != [] {
      var n := |ts| - 1;
      TokensAtMost(c, ts[..n]);
      TokenSize(c, ts[n]);
      CodedValid(c, ts[n]);
      ExtraBound(ts[n]);
    }
  }

  lemma CodedValid(c: Codes, t: Token)
    requires Coded(c, t)
    ensures ValidToken(t)
  {
  }

  // ----- a code to compare with -----

  /** Six bits for every length, nine for every literal and the end of the block, five for every distance. */
  function Plain(): (c: Codes)
    ensures |c.ll| == 286 && |c.dl| == 30
  {
    Codes(seq(286, i => if i >= 257 then 6 else 9), seq(30, i => 5))
  }

  lemma {:induction false} PlainCounts(n: nat)
    requires n <= 286
    ensures Count(Plain().ll[..n], 9) == Clamp(n, 257) && Count(Plain().ll[..n], 6) == Clamp(n - 257, 29)
    ensures forall b :: b != 6 && b != 9 ==> Count(Plain().ll[..n], b) == 0
  {
    hide Seg;
    var l := Plain().ll;
    GenCodes.CountsZero(l);
    if n == 0 {
      assert l[..0] == [];
    } else {
      PlainCounts(n - 1);
      GenCodes.CountNext(l, n - 1);
      forall b | b != 6 && b != 9 ensures Count(l[..n], b) == 0 {
        assert Count(l[..n - 1 + 1], b) == Count(l[..n - 1], b);
      }
    }
  }

  lemma {:induction false} PlainDistCounts(n: nat)
    requires n <= 30
    ensures Count(Plain().dl[..n], 5) == n && forall b :: b != 5 ==> Count(Plain().dl[..n], b) == 0
  {
    hide Seg;
    var d := Plain().dl;
    GenCodes.CountsZero(d);
    if n == 0 {
      assert d[..0] == [];
    } else {
      PlainDistCounts(n - 1);
      GenCodes.CountNext(d, n - 1);
      forall b | b != 5 ensures Count(d[..n], b) == 0 {
        assert Count(d[..n - 1 + 1], b) == Count(d[..n - 1], b);
      }
    }
  }

  lemma PlainKraft()
    ensures Kraft(Plain().ll) <= Pow2(MAXBITS) && Kraft(Plain().dl) <= Pow2(MAXBITS)
  {
    hide Count, Shl, Pow2, Plain;
    var l, d := Plain().ll, Plain().dl;
    PlainCounts(286);
    PlainDistCounts(30);
    assert l[..286] == l && d[..30] == d;
    KraftGap(l, 0, 5);
    KraftGap(l, 6, 8);
    KraftGap(l, 9, MAXBITS);
    KraftGap(d, 0, 4);
    KraftGap(d, 5, MAXBITS);
    PlainSums();
  }

  lemma PlainSums()
    ensures Shl(29, 9) + Shl(257, 6) <= Pow2(15) && Shl(30, 10) <= Pow2(15)
  {
    hide Shl;
    ShlMul(29, 9);
    ShlMul(257, 6);
    ShlMul(30, 10);
    assert Pow2(6) == 64 && Pow2(9) == 512 && Pow2(10) == 1024 && Pow2(15) == 32768;
  }

  lemma PlainToken(t: Token)
    requires ValidToken(t)
    ensures Coded(Plain(), t) && |TokBits(Plain(), t)| == (if t.Lit? then 9 else 11) + Extra(t)
  {
    hide LengthCode, DistCode, TokBits, Extra;
    if t.Match? {
      var k, j := LengthCode(t.len - 3), DistCode(t.dist - 1);
      LengthCodeRange(t.len - 3);
      DistCodeRange(t.dist - 1);
      assert Plain().ll[257 + k] == 6 && Plain().dl[j] == 5;
    } else {
      assert Plain().ll[t.b] == 9;
      ExtraBound(t);
    }
    TokenSize(Plain(), t);
  }

  lemma PlainCodes(ts: seq<Token>)
    requires AllValid(ts)
    ensures UsableCodes(Plain()) && AllCoded(Plain(), ts) && |BlockBits(Plain(), ts)| == |TokensBits(Plain(), ts)| + 9
  {
    hide Kraft, Coded, TokensBits, ValidToken;
    PlainKraft();
    forall t | t in ts ensures Coded(Plain(), t) { PlainToken(t); }
  }

  lemma {:induction false} PlainAtMost(ts: seq<Token>)
    requires AllValid(ts) && AllCoded(Plain(), ts)
    ensures |TokensBits(Plain(), ts)| <= 9 * |ts| + 20 * Matches(ts)
  {
    hide TokBits, Coded, Extra, Plain, ValidToken;
    if ts != [] {
      var n := |ts| - 1;
      PlainAtMost(ts[..n]);
      PlainToken(ts[n]);
      ExtraBound(ts[n]);
    }
  }

  /** After the first n tokens, a code saves at most eight bits a literal and nine a match. */
  lemma {:induction false} SavedAfter(c: Codes, ts: seq<Token>, n: nat)
    requires AllValid(ts) && AllCoded(c, ts) && AllCoded(Plain(), ts) && ValidLens(c.ll) && ValidLens(c.dl) && n <= |ts|
    ensures Matches(ts[..n]) <= Matches(ts) <= Matches(ts[..n]) + |ts| - n
    ensures |TokensBits(Plain(), ts)| - |TokensBits(Plain(), ts[..n])| <=
            |TokensBits(c, ts)| - |TokensBits(c, ts[..n])| + 8 * (|ts| - n) + Matches(ts) - Matches(ts[..n])
    decreases |ts|
  {
    hide TokBits, Coded, Extra, Plain, ValidToken;
    if n == |ts| {
      assert ts[..n] == ts;
    } else {
      var k := |ts| - 1;
      SavedAfter(c, ts[..k], n);
      assert ts[..k][..n] == ts[..n];
      PlainToken(ts[k]);
      TokenSize(c, ts[k]);
    }
  }

  /** The first n tokens of a block in its own codes. */
  lemma PrefixAtMost(c: Codes, ts: seq<Token>, n: nat)
    requires AllValid(ts) && ThriftyCodes(ts, c) && UsableCodes(c) && AllCoded(c, ts) && n <= |ts|
    requires !Deep(LFreq(ts), LDesc()) && !Deep(DFreq(ts), DDesc())
    ensures AllCoded(c, ts[..n]) && |TokensBits(c, ts[..n])| <= 8 + 20 * Matches(ts[..n]) + 9 * |ts|
  {
    hide Kraft, TokensBits, LFreq, DFreq, ThriftyCodes, Deep, Coded, ValidToken, Plain;
    PlainCodes(ts);
    CheapestBlock(ts, c, Plain());
    EndCode(c, ts);
    SavedAfter(c, ts, n);
    PlainAtMost(ts[..n]);
  }

  // ----- the header -----

  /** A repeat code takes no more than seven bits for each length it stands for. */
  lemma RunSize(cl: seq<nat>, r: RCode, got: seq<nat>)
    requires HasCode(cl, r.sym) && cl[r.sym] < 8 && ValidCode(r) && (r.sym == REP_3_6 ==> got != [])
    ensures |RBits(cl, r)| <= 7 * (|ApplyCode(got, r)| - |got|)
  {
    hide ToBits, RevCode, Pow2;
  }

  lemma {:induction false} RunsSize(cl: seq<nat>, rs: seq<RCode>, got: seq<nat>, want: seq<nat>)
    requires Sendable(cl, rs) && Undoes(got, rs, want) && forall i :: 0 <= i < |cl| ==> cl[i] < 8
    ensures |RlesBits(cl, rs)| <= 7 * (|want| - |got|)
    decreases |rs|
  {
    hide RBits, ValidCode, ApplyCode;
    if rs != [] {
      UndoesFirst(got, rs, want);
      RunSize(cl, rs[0], got);
      RunsSize(cl, rs[1..], ApplyCode(got, rs[0]), want);
    }
  }

  lemma TreeSize(cl: seq<nat>, lens: seq<nat>)
    requires lens != [] && ValidLens(lens) && Sendable(cl, RleOf(lens)) && forall i :: 0 <= i < |cl| ==> cl[i] < 8
    ensures |RlesBits(cl, RleOf(lens))| <= 7 * |lens|
  {
    hide RleOf, Undoes, Sendable, RlesBits;
    LensFit(lens);
    TreeUndone([], lens);
    assert [] + lens == lens;
    RunsSize(cl, RleOf(lens), [], lens);
  }

  /** The header of a dynamic block. */
  lemma HeaderSize(c: Codes, cl: seq<nat>, ncode: nat)
    requires UsableHeader(c, cl, ncode)
    ensures |HeaderBits(c, cl, ncode)| <= 2283
  {
    hide RleOf, RlesBits, Sendable, Kraft;
    TreeSize(cl, c.ll);
    TreeSize(cl, c.dl);
    CountSize(|c.ll|, |c.dl|, ncode);
    LensBitsSize(cl, ncode);
  }

  // ----- room -----

  /** Blocks of so few matches have room in any codes. */
  lemma FewMatches(ts: seq<Token>, c: Codes, start: nat, litBufsize: nat)
    requires AllCoded(c, ts) && ValidLens(c.ll) && ValidLens(c.dl) && start + 24 * Matches(ts) < 8 * litBufsize + 8
    ensures NoOverlay(start, litBufsize, c, ts)
  {
    hide TokensBits, Coded, Matches;
    forall n | 0 < n <= |ts| ensures start + |TokensBits(c, ts[..n])| < 8 * (litBufsize + 3 * n) + 8 {
      TokensAtMost(c, ts[..n]);
      MatchesUpTo(ts, n);
    }
  }

  lemma {:induction false} MatchesUpTo(ts: seq<Token>, n: nat)
    requires n <= |ts|
    ensures Matches(ts[..n]) <= Matches(ts)
    decreases |ts|
  {
    if n == |ts| {
      assert ts[..n] == ts;
    } else {
      MatchesUpTo(ts[..|ts| - 1], n);
      assert ts[..|ts| - 1][..n] == ts[..n];
    }
  }

  /** Where many of the first n tokens are matches, their codes are short enough. */
  lemma Room(ts: seq<Token>, c: Codes, start: nat, litBufsize: nat)
    requires AllValid(ts) && ThriftyCodes(ts, c) && UsableCodes(c) && AllCoded(c, ts)
    requires !Deep(LFreq(ts), LDesc()) && !Deep(DFreq(ts), DDesc())
    requires start <= 2293 && |ts| < litBufsize && 8192 <= litBufsize
    ensures NoOverlay(start, litBufsize, c, ts)
  {
    hide TokensBits, Coded, Matches, LFreq, DFreq, ThriftyCodes, Deep, Kraft;
    forall n | 0 < n <= |ts| ensures start + |TokensBits(c, ts[..n])| < 8 * (litBufsize + 3 * n) + 8 {
      TokensAtMost(c, ts[..n]);
      PrefixAtMost(c, ts, n);
      Balance(start, litBufsize, |ts|, n, Matches(ts[..n]), |TokensBits(c, ts[..n])|);
    }
  }

  /** Few matches take little whatever their codes; with many, what the others save is not enough. */
  lemma Balance(start: nat, litBufsize: nat, size: nat, n: nat, p: nat, bits: nat)
    requires start <= 2293 && size < litBufsize && 8192 <= litBufsize && p <= n <= size
    requires bits <= 15 * n + 33 * p && bits <= 8 + 20 * p + 9 * size
    ensures start + bits < 8 * (litBufsize + 3 * n) + 8
  {
  }

  /** With memLevel 7 or more (deflateInit's is 8) a block has room unless a Huffman tree for its
      symbols is too deep. */
  lemma RoomUnlessDeep(ts: seq<Token>, litBufsize: nat)
    requires AllValid(ts) && |ts| < litBufsize && 8192 <= litBufsize
    requires !Deep(LFreq(ts), LDesc()) && !Deep(DFreq(ts), DDesc())
    ensures RoomFor(ts, litBufsize)
  {
    hide Deep, LFreq, DFreq, ThriftyCodes, SoundTrees, AllCoded, BlockBits, FixedBits, HeaderBits, RoomWith;
    forall c, cl, ncode | Fitting(c, cl, ncode, ts) ensures RoomWith(c, cl, ncode, ts, litBufsize) {
      FittingHasRoom(c, cl, ncode, ts, litBufsize);
    }
  }

  lemma FittingHasRoom(c: Codes, cl: seq<nat>, ncode: nat, ts: seq<Token>, litBufsize: nat)
    requires Fitting(c, cl, ncode, ts) && |ts| < litBufsize && 8192 <= litBufsize
    requires !Deep(LFreq(ts), LDesc()) && !Deep(DFreq(ts), DDesc())
    ensures RoomWith(c, cl, ncode, ts, litBufsize)
  {
    hide Deep, LFreq, DFreq, ThriftyCodes, Kraft, Coded, BlockBits, FixedBits, HeaderBits, NoOverlay,
         InflateTable.Acceptable, Sendable;
    HeaderSize(c, cl, ncode);
    Room(ts, c, 10 + |HeaderBits(c, cl, ncode)|, litBufsize);
  }

  /** A third of the buffer in matches, less the header, always has room. */
  lemma RoomForFew(ts: seq<Token>, litBufsize: nat)
    requires AllValid(ts) && 2285 + 24 * Matches(ts) < 8 * litBufsize && 512 <= litBufsize
    ensures RoomFor(ts, litBufsize)
  {
    hide LFreq, DFreq, ThriftyCodes, Kraft, Coded, BlockBits, FixedBits, HeaderBits, NoOverlay, InflateTable.Acceptable,
         Matches;
    forall c, cl, ncode | Fitting(c, cl, ncode, ts) ensures RoomWith(c, cl, ncode, ts, litBufsize) {
      HeaderSize(c, cl, ncode);
      FewMatches(ts, c, 10 + |HeaderBits(c, cl, ncode)|, litBufsize);
    }
  }

  // ----- the strategies that use few symbols -----

  lemma {:induction false} NoMatches(ts: seq<Token>)
    requires LiteralsOnly(ts)
    ensures Matches(ts) == 0
  {
    if ts != [] {
      assert ts[|ts| - 1] in ts;
      NoMatches(ts[..|ts| - 1]);
    }
  }

  /** Blocks of literals, as deflate_huff makes them, always have room. */
  lemma RoomForLiterals(ts: seq<Token>, litBufsize: nat)
    requires AllValid(ts) && LiteralsOnly(ts) && 512 <= litBufsize
    ensures RoomFor(ts, litBufsize)
  {
    hide RoomFor;
    NoMatches(ts);
    RoomForFew(ts, litBufsize);
  }

  lemma FirstDistance()
    ensures DistCode(0) == 0 && EXTRA_DBITS[0] == 0
  {
    hide DistCode, Pow2;
    DistCodeRange(0);
    OnlyFirst(DistCode(0));
  }

  lemma OnlyFirst(k: nat)
    requires k < D_CODES && BASE_DIST[k] <= 0
    ensures k == 0
  {
  }

  lemma {:induction false} OneDistance(ts: seq<Token>)
    requires AllValid(ts) && RunsOnly(ts)
    ensures forall y :: 1 <= y < D_CODES ==> DFreq(ts)[y] == 0
  {
    hide LengthCode, DistCode;
    if ts != [] {
      assert ts[|ts| - 1] in ts;
      FirstDistance();
      OneDistance(ts[..|ts| - 1]);
    }
  }

  /** The only distance code of runs has one bit. */
  lemma RunDistance(ts: seq<Token>, c: Codes, t: Token)
    requires AllValid(ts) && RunsOnly(ts) && ThriftyCodes(ts, c) && AllCoded(c, ts) && t in ts && t.Match?
    ensures t.dist == 1 && |c.dl| > 0 && c.dl[0] == 1
  {
    hide Deep, Cheapest, LFreq, DFreq, LengthCode, DistCode, BitsBelow, Thrifty;
    FirstDistance();
    OneDistance(ts);
    FreqCovers(ts, t);
    DescSizes();
    OneBitOnly(DFreq(ts), Extended(c.dl, D_CODES));
    assert Coded(c, t);
    assert Extended(c.dl, D_CODES)[..|c.dl|][0] == c.dl[0];
  }

  lemma OneBitOnly(freq: seq<nat>, dl: seq<nat>)
    requires Thrifty(freq, dl, DDesc()) && |freq| == D_CODES && freq[0] > 0
    requires forall y :: 1 <= y < D_CODES ==> freq[y] == 0
    ensures |dl| > 0 && dl[0] == 1
  {
    hide Deep, Cheapest;
    var f := MergeTree.Leaves(freq, D_CODES);
    assert f == {0};
  }

  lemma RunExtra(t: Token)
    requires ValidToken(t) && (t.Match? ==> t.dist == 1)
    ensures Extra(t) <= 5
  {
    hide LengthCode, DistCode;
    FirstDistance();
    if t.Match? { LengthCodeRange(t.len - 3); }
  }

  lemma RunToken(ts: seq<Token>, c: Codes, t: Token)
    requires AllValid(ts) && RunsOnly(ts) && ThriftyCodes(ts, c) && AllCoded(c, ts) && t in ts
    requires ValidLens(c.ll) && ValidLens(c.dl)
    ensures |TokBits(c, t)| <= 21
  {
    hide ThriftyCodes, TokBits, LengthCode, DistCode, Extra;
    TokenSize(c, t);
    FirstDistance();
    if t.Match? { RunDistance(ts, c, t); }
    RunExtra(t);
  }

  lemma {:induction false} RunsAtMost(ts: seq<Token>, c: Codes, n: nat)
    requires AllValid(ts) && RunsOnly(ts) && ThriftyCodes(ts, c) && AllCoded(c, ts) && n <= |ts|
    requires ValidLens(c.ll) && ValidLens(c.dl)
    ensures |TokensBits(c, ts[..n])| <= 21 * n
  {
    hide ThriftyCodes, TokBits, Coded;
    if n > 0 {
      RunsAtMost(ts, c, n - 1);
      assert ts[..n][..n - 1] == ts[..n - 1];
      RunToken(ts, c, ts[n - 1]);
    }
  }

  /** Blocks of literals and runs of one byte, as deflate_rle makes them, always have room. */
  lemma RoomForRuns(ts: seq<Token>, litBufsize: nat)
    requires AllValid(ts) && RunsOnly(ts) && 512 <= litBufsize
    ensures RoomFor(ts, litBufsize)
  {
    hide LFreq, DFreq, ThriftyCodes, SoundTrees, AllCoded, BlockBits, FixedBits, HeaderBits, RoomWith, RunsOnly;
    forall c, cl, ncode | Fitting(c, cl, ncode, ts) ensures RoomWith(c, cl, ncode, ts, litBufsize) {
      RunsHaveRoom(c, cl, ncode, ts, litBufsize);
    }
  }

  lemma RunsHaveRoom(c: Codes, cl: seq<nat>, ncode: nat, ts: seq<Token>, litBufsize: nat)
    requires Fitting(c, cl, ncode, ts) && RunsOnly(ts) && 512 <= litBufsize
    ensures RoomWith(c, cl, ncode, ts, litBufsize)
  {
    hide LFreq, DFreq, ThriftyCodes, Kraft, Coded, BlockBits, FixedBits, HeaderBits, InflateTable.Acceptable, Sendable,
         RunsOnly, TokensBits;
    HeaderSize(c, cl, ncode);
    var start := 10 + |HeaderBits(c, cl, ncode)|;
    forall n | 0 < n <= |ts| ensures start + |TokensBits(c, ts[..n])| < 8 * (litBufsize + 3 * n) + 8 {
      RunsAtMost(ts, c, n);
    }
  }
}
