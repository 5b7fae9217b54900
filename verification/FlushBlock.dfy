/** _tr_tally, build_bl_tree, _tr_stored_block and _tr_flush_block of trees.c. */
module FlushBlock {
  import opened Bits
  import opened Canonical
  import opened DecodeTable
  import opened BitWriter
  import opened Format
  import opened Codec
  import opened Compress
  import opened Fixed
  import opened Rle
  import opened TreeHeader
  import opened GenBitLen
  import opened BuildTree
  import opened CodeCost
  import opened Costs
  import opened Blocks
  import InflateTable
  import HuffTree
  import MergeTree

  // ----- one tree -----

  /** fc and dl hold a complete code for the symbols with these frequencies; it is the cheapest one,
      unless a Huffman tree for them is too deep. */
  ghost predicate TreeFor(fc: seq<nat>, dl: seq<nat>, freq: seq<nat>, d: TreeDesc, maxCode: int) {
    |freq| == d.elems <= |fc| == |dl| && 0 <= maxCode < d.elems &&
    (forall n :: 0 <= n < d.elems && freq[n] != 0 ==> n <= maxCode && 0 < dl[n]) &&
    (forall n :: 0 <= n < d.elems ==> dl[n] <= d.maxLength) &&
    (forall n :: maxCode < n < d.elems ==> dl[n] == 0) && dl[maxCode] > 0 &&
    CodesOf(fc[..maxCode + 1], dl[..maxCode + 1]) && Kraft(dl[..maxCode + 1]) == Pow2(MAXBITS) &&
    Thrifty(freq, dl, d)
  }

  /** The lengths are the cheapest, unless a Huffman tree is too deep; a symbol that occurs with no more
      than one other has one bit. */
  ghost predicate Thrifty(freq: seq<nat>, dl: seq<nat>, d: TreeDesc) {
    |freq| == d.elems <= |dl| && (Deep(freq, d) || Cheapest(freq, dl, d)) &&
    (|MergeTree.Leaves(freq, d.elems)| <= 2 ==> forall n :: 0 <= n < d.elems && freq[n] > 0 ==> dl[n] == 1)
  }

  /** build_tree, for the frequencies freq of the symbols. */
  method MakeTree(fc: array<nat>, dl: array<nat>, heap: array<nat>, depth: array<nat>, bl: array<nat>, d: TreeDesc,
                  opt: int, stat: int, ghost freq: seq<nat>)
    returns (maxCode: int, optLen: int, staticLen: int)
    requires fc != dl && fc != heap && fc != depth && dl != heap && dl != depth && heap != depth
    requires bl != fc && bl != dl && bl != heap && bl != depth && bl.Length == MAXBITS + 1
    requires ValidDesc(d) && fc.Length == dl.Length == 2 * d.elems + 1 <= depth.Length
    requires heap.Length == MergeTree.HEAP_SIZE
    requires fc[..d.elems] == freq && Total(freq, d.elems) <= 65533
    modifies fc, dl, heap, depth, bl
    ensures TreeFor(fc[..], dl[..], freq, d, maxCode) && |freq| == d.elems && 0 <= maxCode < d.elems
    ensures optLen - opt == BitsBelow(d, freq, dl[..], d.elems)
    ensures staticLen - stat == if d.stree != [] then BitsBelow(d, freq, d.stree, d.elems) else 0
  {
    hide BitsBelow, Kraft, Pow2, RevCode, Built, ValidDesc, MergeTree.Leaves, Enough, Optimal, Thrifty, Total,
         HuffTree.TooDeep, HuffTree.Greedy, HuffTree.ValidMerges, HuffTree.Sum;
    ghost var f0: seq<nat> := fc[..];
    MergeTreeFacts(d);
    ghost var cut, forced, ms, wts;
    maxCode, optLen, staticLen, cut, forced, ms, wts := BuildTree.BuildTree(fc, dl, heap, depth, bl, d, opt, stat);
    ghost var l: seq<nat> := dl[..];
    BuiltCode(f0, l, d, maxCode);
    BuiltBounds(f0, l, d, maxCode, freq);
    EnoughParts(f0, forced, d.elems);
    BuiltThrifty(f0, forced, ms, wts, l, freq, d, cut);
    forall n | 0 <= n < d.elems ensures f0[n] == freq[n] { assert f0[..d.elems][n] == freq[n]; }
    BitsCongr(d, f0, freq, l, l, d.elems);
    if d.stree != [] { BitsCongr(d, f0, freq, d.stree, d.stree, d.elems); }
  }

  /** Lengths, with zeros for the symbols beyond the last that has a code. */
  function Extended(lens: seq<nat>, n: nat): (r: seq<nat>)
    ensures |r| >= n && |r| >= |lens| && r[..|lens|] == lens
  {
    if |lens| >= n then lens else lens + seq(n - |lens|, i => 0)
  }

  /** Both codes of a block are thrifty. */
  ghost predicate ThriftyCodes(ts: seq<Token>, c: Codes)
    requires AllValid(ts)
  {
    Thrifty(LFreq(ts), Extended(c.ll, L_CODES), LDesc()) && Thrifty(DFreq(ts), Extended(c.dl, D_CODES), DDesc())
  }

  /** Only the lengths of symbols that occur matter. */
  lemma ThriftyFor(freq: seq<nat>, a: seq<nat>, b: seq<nat>, d: TreeDesc)
    requires Thrifty(freq, a, d) && d.elems <= |b| && forall n :: 0 <= n < d.elems && freq[n] > 0 ==> a[n] == b[n]
    ensures Thrifty(freq, b, d)
  {
    hide Deep, BitsBelow, Possible, MergeTree.Leaves;
    BitsCongr(d, freq, freq, a, b, d.elems);
  }

  lemma BlThrifty(bfc: seq<nat>, bdl: seq<nat>, freq: seq<nat>, bMax: int)
    requires TreeFor(bfc, bdl, freq, BlDesc(), bMax)
    ensures Thrifty(freq, bdl[..BL_CODES], BlDesc())
  {
    hide Thrifty, CodesOf, Kraft, Pow2;
    ThriftyFor(freq, bdl, bdl[..BL_CODES], BlDesc());
  }

  lemma TreesThrifty(lfc: seq<nat>, ldl: seq<nat>, dfc: seq<nat>, ddl: seq<nat>, lMax: int, dMax: int, ts: seq<Token>)
    requires AllValid(ts) && TreeFor(lfc, ldl, LFreq(ts), LDesc(), lMax) && TreeFor(dfc, ddl, DFreq(ts), DDesc(), dMax)
    ensures ThriftyCodes(ts, Codes(ldl[..lMax + 1], ddl[..dMax + 1]))
  {
    hide Kraft, Pow2, RevCode, LFreq, DFreq, Thrifty;
    ThriftyFor(LFreq(ts), ldl, Extended(ldl[..lMax + 1], L_CODES), LDesc());
    ThriftyFor(DFreq(ts), ddl, Extended(ddl[..dMax + 1], D_CODES), DDesc());
  }

  lemma DescSizes()
    ensures LDesc().elems == L_CODES && DDesc().elems == D_CODES
  {
  }

  /** The repeat codes of both trees are few. */
  lemma HeaderTotal(c: Codes)
    requires 0 < |c.ll| <= 286 && 0 < |c.dl| <= 30 && ValidLens(c.ll) && ValidLens(c.dl)
    ensures Total(RFreq(BothTrees(c)), BL_CODES) <= 65533
  {
    hide RleOf, Freq, ValidCode, Total;
    LensFit(c.ll);
    LensFit(c.dl);
    TreeCodes(c.ll);
    TreeCodes(c.dl);
    var rs := BothTrees(c);
    forall y | 0 <= y < BL_CODES ensures RFreq(rs)[y] <= 316 { FreqAtMost(rs, y); }
    TotalAtMost(RFreq(rs), BL_CODES, 316);
  }

  lemma BuiltThrifty(f0: seq<nat>, f1: seq<nat>, ms: seq<HuffTree.Pair>, w: seq<nat>, dl: seq<nat>, freq: seq<nat>,
                     d: TreeDesc, cut: bool)
    requires Enough(f0, f1, d.elems) && freq == f0[..d.elems] && |dl| == |f1| == |w| && Total(freq, d.elems) <= 65533
    requires w[..d.elems] == f1[..d.elems]
    requires var l1 := MergeTree.Leaves(f1, d.elems);
             var small := HuffTree.Sum(l1, HuffTree.WeightOf(f1), |f1|) < 65536;
             (!cut && small ==> Optimal(l1, f1, dl)) && (small ==> HuffTree.Greedy(l1, ms, d.elems, w)) &&
             (cut <==> HuffTree.TooDeep(l1, ms, d.elems, d.maxLength)) &&
             (|l1| == 2 ==> forall n :: n in l1 ==> n < |dl| && dl[n] == 1)
    ensures Thrifty(freq, dl, d)
  {
    hide Deep, Cheapest, Optimal, Total, HuffTree.TooDeep, HuffTree.Greedy, HuffTree.Sum;
    TotalSame(freq, f0, d.elems);
    ForcedTotal(f0, f1, d.elems);
    if cut { CutIsDeep(d, f0, f1, ms, w, freq); } else { OptimalIsCheapest(d, f0, f1, dl, freq); }
    var l0 := MergeTree.Leaves(f0, d.elems);
    assert MergeTree.Leaves(freq, d.elems) == l0;
    forall n | |l0| <= 2 && 0 <= n < d.elems && freq[n] > 0 ensures dl[n] == 1 {
      assert n in l0;
    }
  }

  lemma MergeTreeFacts(d: TreeDesc)
    requires ValidDesc(d)
    ensures d.stree != [] ==> d.elems <= |d.stree|
    ensures 2 <= d.maxLength <= MAXBITS
  {
    hide Pow2;
    DescFacts(d);
  }

  lemma BuiltBounds(f0: seq<nat>, dl: seq<nat>, d: TreeDesc, maxCode: int, freq: seq<nat>)
    requires Built(f0, dl, d, maxCode) && |f0| >= d.elems && f0[..d.elems] == freq
    ensures forall n :: 0 <= n < d.elems && freq[n] != 0 ==> n <= maxCode && 0 < dl[n]
    ensures forall n :: 0 <= n < d.elems ==> dl[n] <= d.maxLength
    ensures 0 <= maxCode < |dl| && dl[maxCode] > 0
  {
    forall n | 0 <= n < d.elems && freq[n] != 0 ensures n <= maxCode && 0 < dl[n] { assert f0[n] == freq[n]; }
  }

  // ----- what the trees are good for -----

  /** The codes for a block's tokens. */
  lemma TreesCode(lfc: seq<nat>, ldl: seq<nat>, dfc: seq<nat>, ddl: seq<nat>, lMax: int, dMax: int, ts: seq<Token>)
    requires AllValid(ts) && TreeFor(lfc, ldl, LFreq(ts), LDesc(), lMax) && TreeFor(dfc, ddl, DFreq(ts), DDesc(), dMax)
    ensures var c := Codes(ldl[..lMax + 1], ddl[..dMax + 1]);
            257 <= |c.ll| <= 286 && 1 <= |c.dl| <= 30 && UsableCodes(c) && AllCoded(c, ts)
  {
    hide Kraft, Pow2, RevCode, LFreq, DFreq, LengthCode, DistCode;
    FreqBound(ts);
    var c := Codes(ldl[..lMax + 1], ddl[..dMax + 1]);
    forall t | t in ts ensures Coded(c, t) {
      FreqCovers(ts, t);
      assert ldl[LlSym(t)] > 0;
    }
  }

  /** The bits of the block with these trees are what build_tree added up. */
  lemma TreesCost(c: Codes, ts: seq<Token>, ldl: seq<nat>, ddl: seq<nat>, lMax: int, dMax: int)
    requires AllValid(ts) && UsableCodes(c) && AllCoded(c, ts) && |ldl| >= L_CODES && |ddl| >= D_CODES
    requires 0 <= lMax < |ldl| && 0 <= dMax < |ddl| && c == Codes(ldl[..lMax + 1], ddl[..dMax + 1])
    ensures |BlockBits(c, ts)| == BitsBelow(LDesc(), LFreq(ts), ldl, L_CODES) +
            BitsBelow(DDesc(), DFreq(ts), ddl, D_CODES)
  {
    hide Kraft, BlockBits, LFreq, DFreq, BitsBelow, UsableCodes, Coded, LDesc, DDesc;
    BlockCost(c, ts, ldl, ddl);
  }

  lemma FixedCost(ts: seq<Token>)
    requires AllValid(ts)
    ensures UsableCodes(FixedCodes()) && AllCoded(FixedCodes(), ts)
    ensures |FixedBits(ts)| ==
            BitsBelow(LDesc(), LFreq(ts), FixedLl(), L_CODES) + BitsBelow(DDesc(), DFreq(ts), FixedDl(), D_CODES)
  {
    hide Kraft, BlockBits, LFreq, DFreq, BitsBelow, UsableCodes, Coded, LDesc, DDesc;
    FixedEncodes(ts);
    BlockCost(FixedCodes(), ts, FixedLl(), FixedDl());
  }

  // ----- the code-length code -----

  /** All codes of a run are valid if they undo it. */
  lemma {:induction false} UndoesValid(got: seq<nat>, rs: seq<RCode>, want: seq<nat>)
    requires Undoes(got, rs, want)
    ensures forall r :: r in rs ==> ValidCode(r)
    decreases |rs|
  {
    hide ValidCode, ApplyCode;
    if rs != [] {
      UndoesFirst(got, rs, want);
      UndoesValid(ApplyCode(got, rs[0]), rs[1..], want);
      forall r | r in rs ensures ValidCode(r) { assert r == rs[0] || r in rs[1..]; }
    }
  }

  lemma UndoesFirst(got: seq<nat>, rs: seq<RCode>, want: seq<nat>)
    requires Undoes(got, rs, want) && rs != []
    ensures ValidCode(rs[0]) && (rs[0].sym == REP_3_6 ==> got != []) && Undoes(ApplyCode(got, rs[0]), rs[1..], want)
  {
  }

  lemma TreeCodes(lens: seq<nat>)
    requires lens != [] && ValidLens(lens)
    ensures |RleOf(lens)| <= |lens| && forall r :: r in RleOf(lens) ==> ValidCode(r)
  {
    hide RleOf, Undoes, ValidCode;
    LensFit(lens);
    TreeUndone([], lens);
    assert [] + lens == lens;
    UndoesValid([], RleOf(lens), lens);
    UndoesGrows([], RleOf(lens), lens);
  }

  lemma {:induction false} FreqOccurs(rs: seq<RCode>, r: RCode)
    requires r in rs
    ensures Freq(rs, r.sym) > 0
  {
    var n := |rs| - 1;
    if r != rs[n] {
      assert r in rs[..n];
      FreqOccurs(rs[..n], r);
    }
  }

  /** A code for the code-length symbols that occur can send both trees. */
  lemma HeaderUsable(c: Codes, cl: seq<nat>, bfc: seq<nat>, bdl: seq<nat>, bMax: int, ncode: nat)
    requires 257 <= |c.ll| <= 286 && 1 <= |c.dl| <= 30 && ValidLens(c.ll) && ValidLens(c.dl)
    requires TreeFor(bfc, bdl, RFreq(BothTrees(c)), BlDesc(), bMax) && cl == bdl[..BL_CODES]
    requires 4 <= ncode <= 19 && forall i :: ncode <= i < 19 ==> ORDER[i] < 19 && cl[ORDER[i]] == 0
    ensures UsableHeader(c, cl, ncode) && InflateTable.Acceptable(CODES, cl) && CodesOf(bfc[..BL_CODES], cl)
  {
    hide Pow2, RevCode, RleOf, Freq, KraftTo;
    TreeCodes(c.ll);
    TreeCodes(c.dl);
    var rs := BothTrees(c);
    forall r | r in rs ensures ValidCode(r) && HasCode(cl, r.sym) {
      FreqOccurs(rs, r);
      assert r in RleOf(c.ll) || r in RleOf(c.dl);
      assert RFreq(rs)[r.sym] > 0;
    }
    forall r | r in RleOf(c.ll) || r in RleOf(c.dl) ensures r in rs { }
    TrailingKraft(cl, bMax + 1, MAXBITS);
    assert cl[..bMax + 1] == bdl[..bMax + 1];
    forall s | 0 <= s < BL_CODES && cl[s] > 0 ensures bfc[..BL_CODES][s] == RevCode(cl, s) {
      TrailingCode(cl, bMax + 1, s);
      assert bfc[..bMax + 1][s] == RevCode(bdl[..bMax + 1], s);
    }
  }

  /** Without a code for a nonzero length, all lengths are zero. */
  lemma {:induction false} OnlyZeros(got: seq<nat>, rs: seq<RCode>, want: seq<nat>)
    requires Undoes(got, rs, want) && (forall r :: r in rs ==> r.sym == 0 || r.sym > 15)
    requires forall i :: 0 <= i < |got| ==> got[i] == 0
    ensures forall i :: 0 <= i < |want| ==> want[i] == 0
    decreases |rs|
  {
    if rs != [] {
      var next := ApplyCode(got, rs[0]);
      assert forall i :: 0 <= i < |next| ==> next[i] == 0;
      OnlyZeros(next, rs[1..], want);
    }
  }

  /** The length of the end-of-block code needs a code-length code that is not among the first three. */
  lemma FourCodes(c: Codes, bfc: seq<nat>, bdl: seq<nat>, bMax: int, last: nat)
    requires |c.ll| >= 257 && 0 < |c.dl| && ValidLens(c.ll) && c.ll[END_BLOCK] > 0
    requires TreeFor(bfc, bdl, RFreq(BothTrees(c)), BlDesc(), bMax)
    requires forall i :: last < i < 19 ==> ORDER[i] < 19 && bdl[ORDER[i]] == 0
    ensures last >= 3
  {
    hide Kraft, RevCode, Undoes, RleOf, Freq, Pow2, ValidCode;
    LensFit(c.ll);
    TreeUndone([], c.ll);
    assert [] + c.ll == c.ll;
    TreeCodes(c.ll);
    if forall r :: r in RleOf(c.ll) ==> r.sym == 0 || r.sym > 15 {
      OnlyZeros([], RleOf(c.ll), c.ll);
    }
    var r :| r in RleOf(c.ll) && 0 < r.sym <= 15;
    assert r in BothTrees(c);
    FreqOccurs(BothTrees(c), r);
    assert RFreq(BothTrees(c))[r.sym] > 0;
    var i := OrderOnto(r.sym);
    assert bdl[ORDER[i]] != 0;
  }

  /** Scanning both trees counts their codes. */
  lemma ScansCount(c: Codes, f0: seq<nat>, f1: seq<nat>, f2: seq<nat>)
    requires 0 < |c.ll| <= 286 && 0 < |c.dl| <= 30 && ValidLens(c.ll) && ValidLens(c.dl)
    requires Counted(f1, f0, RleOf(c.ll)) && Counted(f2, f1, RleOf(c.dl))
    requires forall y :: 0 <= y < BL_CODES ==> f0[y] == 0
    ensures |f2| >= BL_CODES && f2[..BL_CODES] == RFreq(BothTrees(c))
  {
    hide RleOf, Freq, ValidCode;
    TreeCodes(c.ll);
    TreeCodes(c.dl);
    forall y | 0 <= y < BL_CODES ensures f2[y] == Freq(BothTrees(c), y) {
      FreqConcat(RleOf(c.ll), RleOf(c.dl), y);
      FreqAtMost(RleOf(c.ll), y);
      FreqAtMost(RleOf(c.dl), y);
      SmallMod(Freq(RleOf(c.ll), y));
      SmallMod(Freq(RleOf(c.ll), y) + Freq(RleOf(c.dl), y));
    }
  }

  // ----- the state -----

  datatype Kind = StoredKind | FixedKind | DynKind

  /** The fields of deflate_state that a block is made from. */
  class BlockWriter {
    const w: BitWriter
    const litBufsize: nat
    const lfc: array<nat>
    const ldl: array<nat>
    const dfc: array<nat>
    const ddl: array<nat>
    const bfc: array<nat>
    const bdl: array<nat>
    const heap: array<nat>
    const depth: array<nat>
    const blCount: array<nat>
    var symNext: nat
    var optLen: int
    var staticLen: int
    var lMax: int
    var dMax: int

    /** The buffers that deflateInit2_ allocates; init_block makes them ready for a block. */
    constructor (memLevel: nat)
      requires 1 <= memLevel <= 9
      ensures Shape() && litBufsize == Shl(1, memLevel + 6) && fresh(w) && fresh(w.pendingBuf) && fresh(Trees())
      ensures w.Valid() && w.Sent() == [] && w.pending == 0 && w.biValid == 0
    {
      hide Shl, LFreq, DFreq, TokensOf, BytesBits, ToBits, Pow2;
      BufferSizes(memLevel);
      litBufsize := Shl(1, memLevel + 6);
      var buf := new Byte[4 * Shl(1, memLevel + 6)];
      w := new BitWriter(buf);
      lfc, ldl := new nat[573], new nat[573];
      dfc, ddl := new nat[61], new nat[61];
      bfc, bdl := new nat[39], new nat[39];
      heap, depth, blCount := new nat[573], new nat[573], new nat[16];
      symNext, optLen, staticLen, lMax, dMax := 0, 0, 0, -1, -1;
    }

    /** All arrays are different. */
    ghost predicate Apart() {
      lfc != ldl && lfc != dfc && lfc != ddl && lfc != bfc && lfc != bdl && lfc != heap && lfc != depth &&
      lfc != blCount &&
      ldl != dfc && ldl != ddl && ldl != bfc && ldl != bdl && ldl != heap && ldl != depth && ldl != blCount &&
      dfc != ddl && dfc != bfc && dfc != bdl && dfc != heap && dfc != depth && dfc != blCount &&
      ddl != bfc && ddl != bdl && ddl != heap && ddl != depth && ddl != blCount &&
      bfc != bdl && bfc != heap && bfc != depth && bfc != blCount &&
      bdl != heap && bdl != depth && bdl != blCount && heap != depth && heap != blCount && depth != blCount
    }

    ghost function Trees(): set<object> { {lfc, ldl, dfc, ddl, bfc, bdl, heap, depth, blCount} }

    ghost predicate Shape() {
      Apart() && w.pendingBuf as object !in Trees() &&
      lfc.Length == ldl.Length == 573 && dfc.Length == ddl.Length == 61 && bfc.Length == bdl.Length == 39 &&
      heap.Length == depth.Length == 573 && blCount.Length == 16 &&
      128 <= litBufsize <= 32768 && w.pendingBuf.Length == 4 * litBufsize
    }

    /** The symbol buffer, which overlays the upper three quarters of the pending buffer. */
    ghost function SymBuf(): seq<Byte>
      requires Shape() && symNext + 3 <= 3 * litBufsize
      reads this, w.pendingBuf
    {
      w.pendingBuf[litBufsize..litBufsize + symNext]
    }

    /** The tokens ts have been tallied since the block began. */
    ghost predicate Tallied(ts: seq<Token>)
      reads this, w, w.pendingBuf, lfc, dfc, bfc
    {
      Shape() && w.Valid() && symNext == 3 * |ts| && |ts| < litBufsize && AllValid(ts) &&
      TokensOf(SymBuf()) == ts && lfc[..L_CODES] == LFreq(ts) && dfc[..D_CODES] == DFreq(ts) &&
      (forall y :: 0 <= y < BL_CODES ==> bfc[y] == 0) && optLen == 0 && staticLen == 0
    }

    /** init_block */
    method InitBlock()
      requires Shape() && w.Valid()
      modifies this`symNext, this`optLen, this`staticLen, lfc, dfc, bfc
      ensures Tallied([])
    {
      hide LFreq, DFreq, TokensOf;
      for n := 0 to L_CODES
        invariant forall i :: 0 <= i < n ==> lfc[i] == 0
      {
        lfc[n] := 0;
      }
      for n := 0 to D_CODES
        invariant forall i :: 0 <= i < n ==> dfc[i] == 0
        invariant forall i :: 0 <= i < L_CODES ==> lfc[i] == 0
      {
        dfc[n] := 0;
      }
      for n := 0 to BL_CODES
        invariant forall i :: 0 <= i < n ==> bfc[i] == 0
        invariant forall i :: 0 <= i < L_CODES ==> lfc[i] == 0
        invariant forall i :: 0 <= i < D_CODES ==> dfc[i] == 0
      {
        bfc[n] := 0;
      }
      lfc[END_BLOCK] := 1;
      optLen, staticLen, symNext := 0, 0, 0;
      NoTokensYet(lfc[..L_CODES], dfc[..D_CODES]);
      assert SymBuf() == [];
    }

    /** The three bytes of a symbol. */
    method PutSymbol(dist: nat, lc: Byte)
      requires Shape() && w.Valid() && w.pending <= litBufsize && symNext % 3 == 0 && symNext + 6 <= 3 * litBufsize
      requires dist <= 32768
      modifies this`symNext, w.pendingBuf
      ensures w.Valid() && w.Sent() == old(w.Sent()) && symNext == old(symNext) + 3
      ensures TokensOf(SymBuf()) == TokensOf(old(SymBuf())) + [if dist == 0 then Lit(lc) else Match(dist, lc + 3)]
    {
      hide TokensOf, BytesBits, ToBits, Pow2;
      ghost var sym, b0 := SymBuf(), w.pendingBuf[..w.pending];
      var base := litBufsize + symNext;
      w.pendingBuf[base] := dist % 256;
      w.pendingBuf[base + 1] := dist / 256 % 256;
      w.pendingBuf[base + 2] := lc;
      symNext := symNext + 3;
      assert w.pendingBuf[..w.pending] == b0;
      assert SymBuf() == sym + [dist % 256, dist / 256 % 256, lc];
      PairOf(dist);
      PushToken(sym, dist % 256, dist / 256 % 256, lc);
    }

    /** _tr_tally: save a match (dist > 0, of lc + 3 bytes) or a literal (dist == 0). */
    method Tally(dist: nat, lc: Byte, ghost ts: seq<Token>) returns (full: bool)
      requires Tallied(ts) && |ts| + 1 < litBufsize && dist <= 32768 && w.pending <= litBufsize
      modifies this`symNext, w.pendingBuf, lfc, dfc
      ensures Tallied(ts + [if dist == 0 then Lit(lc) else Match(dist, lc + 3)])
      ensures w.Sent() == old(w.Sent())
      ensures full <==> |ts| + 1 == litBufsize - 1
    {
      hide LFreq, DFreq, TokensOf, LengthCode, DistCode, BytesBits, ToBits, Pow2;
      ghost var t := if dist == 0 then Lit(lc) else Match(dist, lc + 3);
      ghost var l0: seq<nat>, d0: seq<nat> := lfc[..L_CODES], dfc[..D_CODES];
      PutSymbol(dist, lc);
      FreqBound(ts);
      PushFreq(ts, t);
      if dist == 0 {
        lfc[lc] := (lfc[lc] + 1) % 65536;
      } else {
        lfc[LengthCode(lc) + 257] := (lfc[LengthCode(lc) + 257] + 1) % 65536;
        dfc[DistCode(dist - 1)] := (dfc[DistCode(dist - 1)] + 1) % 65536;
      }
      assert lfc[..L_CODES] == Bumped(l0, LlSym(t));
      assert dfc[..D_CODES] == if t.Match? then Bumped(d0, DistCode(dist - 1)) else d0;
      full := symNext == (litBufsize - 1) * 3;
    }

    /** Count the codes of both trees. */
    method ScanTrees(ghost c: Codes)
      requires ldl != bfc && ddl != bfc && ldl != ddl && bfc.Length == 39 && ldl.Length == 573 && ddl.Length == 61
      requires 0 <= lMax < 286 && 0 <= dMax < 30
      requires c == Codes(ldl[..lMax + 1], ddl[..dMax + 1]) && ValidLens(c.ll) && ValidLens(c.dl)
      requires forall y :: 0 <= y < BL_CODES ==> bfc[y] == 0
      modifies ldl, ddl, bfc
      ensures c == Codes(ldl[..lMax + 1], ddl[..dMax + 1]) && ldl[lMax + 1] == GUARD && ddl[dMax + 1] == GUARD
      ensures bfc[..BL_CODES] == RFreq(BothTrees(c))
    {
      hide RleOf, Freq, Counted, BothTrees, RFreq;
      ghost var f0: seq<nat> := bfc[..];
      LensFit(c.ll);
      LensFit(c.dl);
      SmallLens(ldl, lMax + 1, c.ll);
      SmallLens(ddl, dMax + 1, c.dl);
      ScanTree(ldl, lMax, bfc);
      ghost var f1: seq<nat> := bfc[..];
      assert ldl[..lMax + 1] == c.ll;
      CountedBelow(f1, f0, RleOf(c.ll));
      ScanTree(ddl, dMax, bfc);
      assert ddl[..dMax + 1] == c.dl;
      ScansCount(c, f0, f1, bfc[..]);
    }

    /** The last code-length code length to send. */
    method LastCode() returns (maxBlindex: nat)
      requires bdl.Length == 39
      ensures 3 <= maxBlindex + 1 && maxBlindex < 19
      ensures forall i :: maxBlindex < i < 19 ==> ORDER[i] < 19 && bdl[ORDER[i]] == 0
      ensures maxBlindex >= 3 ==> ORDER[maxBlindex] < 19 && bdl[ORDER[maxBlindex]] != 0
    {
      maxBlindex := BL_CODES - 1;
      while maxBlindex >= 3
        invariant 2 <= maxBlindex < 19
        invariant forall i :: maxBlindex < i < 19 ==> ORDER[i] < 19 && bdl[ORDER[i]] == 0
      {
        OrderInjective(maxBlindex, maxBlindex);
        if bdl[ORDER[maxBlindex]] != 0 { break; }
        maxBlindex := maxBlindex - 1;
      }
    }

    /** build_bl_tree: count the codes of both trees, build the code-length code, and find the last
        code length to send. */
    method BuildBlTree(ghost c: Codes) returns (maxBlindex: nat)
      requires Apart() && bfc.Length == bdl.Length == 39 && heap.Length == depth.Length == 573 && blCount.Length == 16
      requires 0 <= lMax < 286 && 0 <= dMax < 30 && ldl.Length == 573 && ddl.Length == 61
      requires c == Codes(ldl[..lMax + 1], ddl[..dMax + 1]) && |c.ll| >= 257 && ValidLens(c.ll) && ValidLens(c.dl)
      requires c.ll[END_BLOCK] > 0
      requires forall y :: 0 <= y < BL_CODES ==> bfc[y] == 0
      modifies this`optLen, this`staticLen, ldl, ddl, bfc, bdl, heap, depth, blCount
      ensures c == Codes(ldl[..lMax + 1], ddl[..dMax + 1]) && ldl[lMax + 1] == GUARD && ddl[dMax + 1] == GUARD
      ensures maxBlindex < 19 && UsableHeader(c, bdl[..BL_CODES], maxBlindex + 1)
      ensures ORDER[maxBlindex] < 19 && bdl[ORDER[maxBlindex]] != 0
      ensures Thrifty(RFreq(BothTrees(c)), bdl[..BL_CODES], BlDesc())
      ensures InflateTable.Acceptable(CODES, bdl[..BL_CODES]) && CodesOf(bfc[..BL_CODES], bdl[..BL_CODES])
      ensures optLen - old(optLen) == |HeaderBits(c, bdl[..BL_CODES], maxBlindex + 1)| && staticLen == old(staticLen)
    {
      hide Kraft, UsableHeader, InflateTable.Acceptable, CodesOf, BitsBelow, TreeFor, ValidDesc, HeaderBits, XBits,
           BlDesc, BothTrees, RFreq, Total, Thrifty;
      ValidDescs();
      BlDescIs();
      ScanTrees(c);
      ghost var freq := RFreq(BothTrees(c));
      HeaderTotal(c);
      var bMax;
      bMax, optLen, staticLen := MakeTree(bfc, bdl, heap, depth, blCount, BlDesc(), optLen, staticLen, freq);
      maxBlindex := LastCode();
      ghost var cl: seq<nat> := bdl[..BL_CODES];
      FourCodes(c, bfc[..], bdl[..], bMax, maxBlindex);
      HeaderUsable(c, cl, bfc[..], bdl[..], bMax, maxBlindex + 1);
      HeaderCost(c, cl, maxBlindex + 1);
      BitsCongr(BlDesc(), freq, freq, bdl[..], cl, BL_CODES);
      BlThrifty(bfc[..], bdl[..], freq, bMax);
      optLen := optLen + 3 * (maxBlindex + 1) + 5 + 5 + 4;
    }

    /** The trees and lengths that _tr_flush_block chooses from are ready. */
    ghost predicate Ready(ts: seq<Token>, ncode: nat)
      reads this, w, w.pendingBuf, lfc, ldl, dfc, ddl, bfc, bdl
    {
      Shape() && w.Valid() && symNext == 3 * |ts| && |ts| < litBufsize && AllValid(ts) && TokensOf(SymBuf()) == ts &&
      0 <= lMax < 286 && 0 <= dMax < 30 && ldl[lMax + 1] == GUARD && ddl[dMax + 1] == GUARD &&
      TreesReady(Codes(ldl[..lMax + 1], ddl[..dMax + 1]), bdl[..BL_CODES], ncode, ts,
                 lfc[..lMax + 1], dfc[..dMax + 1], bfc[..BL_CODES], optLen, staticLen)
    }

    /** The literal/length and distance trees, and what the block's data costs with them. */
    method BuildDataTrees(ghost ts: seq<Token>)
      requires Tallied(ts)
      modifies this`lMax, this`dMax, this`optLen, this`staticLen, lfc, ldl, dfc, ddl, heap, depth, blCount
      ensures 0 <= lMax < 286 && 0 <= dMax < 30
      ensures DataTrees(Codes(ldl[..lMax + 1], ddl[..dMax + 1]), ts, lfc[..lMax + 1], dfc[..dMax + 1], optLen,
                        staticLen)
    {
      hide Kraft, UsableHeader, InflateTable.Acceptable, CodesOf, BitsBelow, TreeFor, ValidDesc, HeaderBits, XBits,
           BlockBits, LFreq, DFreq, TokensOf, UsableCodes, AllCoded, BytesBits, ToBits, Pow2, Total, ThriftyCodes;
      ValidDescs();
      LTotal(ts);
      DescSizes();
      lMax, optLen, staticLen := MakeTree(lfc, ldl, heap, depth, blCount, LDesc(), optLen, staticLen, LFreq(ts));
      dMax, optLen, staticLen := MakeTree(dfc, ddl, heap, depth, blCount, DDesc(), optLen, staticLen, DFreq(ts));
      ghost var c := Codes(ldl[..lMax + 1], ddl[..dMax + 1]);
      TreesThrifty(lfc[..], ldl[..], dfc[..], ddl[..], lMax, dMax, ts);
      TreesCode(lfc[..], ldl[..], dfc[..], ddl[..], lMax, dMax, ts);
      TreesCost(c, ts, ldl[..], ddl[..], lMax, dMax);
      FixedCost(ts);
      TreesSound(lfc[..], ldl[..], dfc[..], ddl[..], lMax, dMax, c);
    }

    /** Build the trees and add up what the block costs with them. */
    method BuildTrees(ghost ts: seq<Token>) returns (maxBlindex: nat)
      requires Tallied(ts)
      modifies this`lMax, this`dMax, this`optLen, this`staticLen, Trees()
      ensures Ready(ts, maxBlindex + 1) && unchanged(w, w.pendingBuf)
    {
      hide Kraft, UsableHeader, InflateTable.Acceptable, CodesOf, HeaderBits, BlockBits, LFreq, DFreq, TokensOf,
           UsableCodes, AllCoded, BytesBits, ToBits, Pow2, ThriftyCodes, FixedBits;
      ghost var sym := SymBuf();
      BuildDataTrees(ts);
      ghost var c := Codes(ldl[..lMax + 1], ddl[..dMax + 1]);
      maxBlindex := BuildBlTree(c);
      assert SymBuf() == sym;
    }

    /** Nothing sent has overwritten a symbol that is still to be read: what deflateInit2_'s comment
        argues from an average. */
    ghost predicate DynRoom(ts: seq<Token>, ncode: nat)
      requires Ready(ts, ncode)
      reads this, w, w.pendingBuf, lfc, ldl, dfc, ddl, bfc, bdl
    {
      var c := Codes(ldl[..lMax + 1], ddl[..dMax + 1]);
      var start := 8 * w.pending + w.biValid + 3 + |HeaderBits(c, bdl[..BL_CODES], ncode)|;
      start < 8 * (litBufsize - 2) && NoOverlay(start, litBufsize, c, ts)
    }

    /** The block in the codes of its own that have been built. */
    ghost function Own(ts: seq<Token>, ncode: nat): Block
      requires Ready(ts, ncode)
      reads this, w, w.pendingBuf, lfc, ldl, dfc, ddl, bfc, bdl
    {
      DynBlock(Codes(ldl[..lMax + 1], ddl[..dMax + 1]), bdl[..BL_CODES], ncode, ts)
    }

    /** A block in the fixed codes. */
    method SendFixed(last: bool, ghost ts: seq<Token>)
      requires Shape() && w.Valid() && symNext == 3 * |ts| && |ts| < litBufsize && AllValid(ts)
      requires TokensOf(SymBuf()) == ts
      requires w.pending == 0 && w.biValid <= 7
      modifies w, w.pendingBuf
      ensures w.Valid() && w.Sent() == old(w.Sent()) + Encode(FixedBlock(ts), last, old(w.biValid))
    {
      hide TokensOf, BytesBits, ToBits, BlockBits, FixedLl, FixedDl, UsableCodes, AllCoded, NoOverlay, FixedCodes;
      ghost var s0, sym := w.Sent(), SymBuf();
      FixedEncodes(ts);
      FixedNoOverlay(w.biValid + 3, litBufsize, ts);
      Three(last);
      w.SendBits(2 + LastBit(last), 3);
      assert SymBuf() == sym;
      FixedCodesOf();
      CompressBlock(w, litBufsize, symNext, CodesFor(FixedLl()), FixedLl(), CodesFor(FixedDl()), FixedDl(), ts);
      assert s0 + ToBits(2 + LastBit(last), 3) + FixedBits(ts) == s0 + (ToBits(2 + LastBit(last), 3) + FixedBits(ts));
    }

    /** The header of a block with its own codes. */
    method SendDynHeader(ncode: nat, last: bool, ghost ts: seq<Token>)
      requires Ready(ts, ncode) && DynRoom(ts, ncode) && w.pending == 0 && w.biValid <= 7
      modifies w, w.pendingBuf
      ensures var c := Codes(ldl[..lMax + 1], ddl[..dMax + 1]);
              SoundTrees(c, bdl[..BL_CODES], ncode) && AllCoded(c, ts) && w.Valid() &&
              w.Sent() == old(w.Sent()) + (ToBits(4 + LastBit(last), 3) + HeaderBits(c, bdl[..BL_CODES], ncode)) &&
              NoOverlay(8 * w.pending + w.biValid, litBufsize, c, ts)
      ensures SymBuf() == old(SymBuf()) && w.pending + 2 <= litBufsize
    {
      hide ThriftyCodes, Trimmed, TokensOf, BytesBits, ToBits, BlockBits, HeaderBits, UsableHeader, CodesOf,
           UsableCodes, AllCoded, NoOverlay, InflateTable.Acceptable, Pow2, FixedBits;
      ghost var s0, sym := w.Sent(), SymBuf();
      ghost var c, cl: seq<nat> := Codes(ldl[..lMax + 1], ddl[..dMax + 1]), bdl[..BL_CODES];
      Three(last);
      w.SendBits(4 + LastBit(last), 3);
      SendAllTrees(w, ldl, lMax + 1, ddl, dMax + 1, ncode, bfc[..BL_CODES], bdl[..BL_CODES]);
      assert SymBuf() == sym;
      TwoParts(s0, ToBits(4 + LastBit(last), 3), HeaderBits(c, cl, ncode));
    }

    /** A block in its own codes. */
    method SendDynamic(ncode: nat, last: bool, ghost ts: seq<Token>)
      requires Ready(ts, ncode) && DynRoom(ts, ncode) && w.pending == 0 && w.biValid <= 7
      modifies w, w.pendingBuf
      ensures var c := Codes(ldl[..lMax + 1], ddl[..dMax + 1]);
              ValidBlock(DynBlock(c, bdl[..BL_CODES], ncode, ts)) && w.Valid() &&
              w.Sent() == old(w.Sent()) + Encode(DynBlock(c, bdl[..BL_CODES], ncode, ts), last, old(w.biValid))
    {
      hide ThriftyCodes, Trimmed, TokensOf, BytesBits, ToBits, BlockBits, HeaderBits, UsableHeader, CodesOf,
           UsableCodes, AllCoded, NoOverlay, InflateTable.Acceptable, Pow2, FixedBits, DynRoom;
      ghost var s0 := w.Sent();
      ghost var c, cl: seq<nat> := Codes(ldl[..lMax + 1], ddl[..dMax + 1]), bdl[..BL_CODES];
      SendDynHeader(ncode, last, ts);
      CompressBlock(w, litBufsize, symNext, lfc[..lMax + 1], ldl[..lMax + 1], dfc[..dMax + 1], ddl[..dMax + 1], ts);
      TwoParts(s0, ToBits(4 + LastBit(last), 3) + HeaderBits(c, cl, ncode), BlockBits(c, ts));
    }

    /** Choose the cheapest encoding for the tokens ts, whose bytes are buf if the window still holds
        them, and write it. */
    method SendChosen(buf: Option<seq<Byte>>, storedLen: nat, last: bool, fixedOnly: bool, ncode: nat,
                      ghost ts: seq<Token>)
      returns (ghost b: Block)
      requires Ready(ts, ncode) && w.pending == 0 && w.biValid <= 7 && (buf.Some? ==> storedLen == |buf.v| <= 65535)
      requires Choose(optLen, staticLen, storedLen, buf.Some?, fixedOnly) == DynKind ==> DynRoom(ts, ncode)
      modifies w, w.pendingBuf
      ensures Encodes(b, buf, ts) && (fixedOnly ==> !b.DynBlock?)
      ensures w.Valid() && w.Sent() == old(w.Sent()) + Encode(b, last, old(w.biValid))
      ensures Sized(b, |Encode(b, last, old(w.biValid))|, optLen, staticLen, storedLen, buf.Some?)
      ensures Best(b, old(Own(ts, ncode)), buf, ts, fixedOnly)
      ensures |Encode(b, last, old(w.biValid))| + 40 <= 8 * w.pendingBuf.Length
    {
      hide TreesReady, TokensOf, BytesBits, ToBits, Encode, Zeros, Pad, ValidBlock, LFreq, DFreq, DynRoom, Choose,
           Sized, Apart, FixedBits, HeaderBits, BlockBits, AllValid, SymBuf, Best;
      ghost var at, c, cl: seq<nat> := w.biValid, Codes(ldl[..lMax + 1], ddl[..dMax + 1]), bdl[..BL_CODES];
      ghost var own := Own(ts, ncode);
      var kind := Choose(optLen, staticLen, storedLen, buf.Some?, fixedOnly);
      ReadyLens(c, cl, ncode, ts, lfc[..lMax + 1], dfc[..dMax + 1], bfc[..BL_CODES], optLen, staticLen);
      ChoiceBounds(optLen, staticLen, storedLen, buf.Some?, fixedOnly, |ts|, litBufsize);
      FixedOnly(optLen, staticLen, storedLen, buf.Some?, fixedOnly);
      if buf.Some? { StoredSize(buf.v, last, at); }
      if kind == StoredKind {
        b := StoredBlock(buf.v);
        TrStoredBlock(w, buf.v, last);
      } else if kind == FixedKind {
        b := FixedBlock(ts);
        FixedSize(ts, last, at);
        SendFixed(last, ts);
      } else {
        b := own;
        DynSize(c, cl, ncode, ts, last, at);
        SendDynamic(ncode, last, ts);
      }
      BestChoice(b, own, buf, ts, fixedOnly, optLen, staticLen, storedLen);
      ChosenSize(b, |Encode(b, last, at)|, optLen, staticLen, storedLen, buf.Some?, fixedOnly, |ts|, litBufsize);
    }

    /** After the last block, zero bits to the next byte. */
    method Align(last: bool)
      requires w.Valid() && w.pending + 2 <= w.pendingBuf.Length
      modifies w, w.pendingBuf
      ensures w.Valid() && w.Sent() == old(w.Sent()) + Zeros(if last then Pad(|old(w.Sent())|) else 0)
      ensures last ==> w.biValid == 0
    {
      hide BytesBits, ToBits, Zeros, Pad;
      ghost var s0, at := w.Sent(), 8 * w.pending + w.biValid;
      SentSize(w);
      if last {
        w.BiWindup();
        ghost var z :| 0 <= z < 8 && w.Sent() == s0 + Zeros(z);
        PadOnly(at, z, w.pending);
      } else {
        NoZeros(s0);
      }
    }

    /** The second half of _tr_flush_block, when the trees are built: one block, and after the last
        block zero bits to the next byte. */
    method SendBlock(buf: Option<seq<Byte>>, storedLen: nat, last: bool, fixedOnly: bool, ncode: nat,
                     ghost ts: seq<Token>)
      returns (ghost b: Block)
      requires Ready(ts, ncode) && w.pending == 0 && w.biValid <= 7 && (buf.Some? ==> storedLen == |buf.v| <= 65535)
      requires Choose(optLen, staticLen, storedLen, buf.Some?, fixedOnly) == DynKind ==> DynRoom(ts, ncode)
      modifies this`symNext, this`optLen, this`staticLen, w, w.pendingBuf, lfc, dfc, bfc
      ensures Encodes(b, buf, ts) && Tallied([]) && (fixedOnly ==> !b.DynBlock?)
      ensures Appends(b, last, old(w.biValid), old(w.Sent()), w.Sent())
      ensures Sized(b, |Encode(b, last, old(w.biValid))|, old(optLen), old(staticLen), storedLen, buf.Some?)
      ensures Best(b, old(Own(ts, ncode)), buf, ts, fixedOnly)
      ensures w.pending + 2 <= w.pendingBuf.Length && (last ==> w.biValid == 0)
    {
      hide TreesReady, TokensOf, BytesBits, ToBits, Encode, Zeros, Pad, ValidBlock, LFreq, DFreq, DynRoom, Choose,
           Sized, AllValid, Appends, Apart, Best;
      ghost var at, s0 := w.biValid, w.Sent();
      SentSize(w);
      b := SendChosen(buf, storedLen, last, fixedOnly, ncode, ts);
      ghost var s1 := w.Sent();
      SentSize(w);
      InitBlock();
      Align(last);
      Aligns(b, last, at, s0, s1, w.Sent());
      SentSize(w);
    }

    /** _tr_flush_block at a level above 0: build the trees, and write the block in the encoding that
        takes the fewest bytes. */
    method TrFlushBlock(buf: Option<seq<Byte>>, storedLen: nat, last: bool, fixedOnly: bool, ghost ts: seq<Token>)
      returns (ghost b: Block, ghost own: Block)
      requires Tallied(ts) && w.pending == 0 && w.biValid <= 7 && (buf.Some? ==> storedLen == |buf.v| <= 65535)
      requires fixedOnly || RoomFor(ts, litBufsize)
      modifies this`symNext, this`lMax, this`dMax, this`optLen, this`staticLen, w, w.pendingBuf, Trees()
      ensures Encodes(b, buf, ts) && Tallied([]) && (fixedOnly ==> !b.DynBlock?)
      ensures Best(b, own, buf, ts, fixedOnly) && AllValid(ts) && ThriftyCodes(ts, own.c)
      ensures Trimmed(own.c, own.cl, own.ncode)
      ensures Appends(b, last, old(w.biValid), old(w.Sent()), w.Sent())
      ensures w.pending + 2 <= w.pendingBuf.Length && (last ==> w.biValid == 0)
    {
      hide TreesReady, TokensOf, BytesBits, ToBits, Encode, ValidBlock, LFreq, DFreq, DynRoom, Choose, Sized, AllValid,
           RoomFor, Appends, Encodes, Best, ThriftyCodes, Trimmed;
      var maxBlindex := BuildTrees(ts);
      own := Own(ts, maxBlindex + 1);
      OwnThrifty(ts, maxBlindex + 1);
      FixedOnly(optLen, staticLen, storedLen, buf.Some?, fixedOnly);
      if Choose(optLen, staticLen, storedLen, buf.Some?,
                fixedOnly) == DynKind { HasRoom(ts, maxBlindex + 1, storedLen, buf.Some?); }
      b := SendBlock(buf, storedLen, last, fixedOnly, maxBlindex + 1, ts);
    }

    lemma OwnThrifty(ts: seq<Token>, ncode: nat)
      requires Ready(ts, ncode)
      ensures AllValid(ts) && ThriftyCodes(ts, Own(ts, ncode).c)
      ensures var own := Own(ts, ncode); Trimmed(own.c, own.cl, own.ncode)
    {
      hide ThriftyCodes, TokensOf, BytesBits, ToBits, LFreq, DFreq, HeaderBits, BlockBits, UsableHeader, CodesOf,
           UsableCodes, AllCoded, FixedBits, InflateTable.Acceptable;
    }

    /** Blocks that there is room for however their trees turn out. */
    lemma HasRoom(ts: seq<Token>, ncode: nat, storedLen: nat, hasBuf: bool)
      requires Ready(ts, ncode) && RoomFor(ts, litBufsize) && w.pending == 0 && w.biValid <= 7
      requires Choose(optLen, staticLen, storedLen, hasBuf, false) == DynKind
      ensures DynRoom(ts, ncode)
    {
      hide TokensOf, BytesBits, ToBits, LFreq, DFreq, HeaderBits, BlockBits, TreesReady, RoomFor, NoOverlay;
      FixedOnly(optLen, staticLen, storedLen, hasBuf, false);
      RoomOf(Codes(ldl[..lMax + 1], ddl[..dMax + 1]), bdl[..BL_CODES], ncode, ts, lfc[..lMax + 1], dfc[..dMax + 1],
             bfc[..BL_CODES],
             optLen, staticLen, litBufsize, w.biValid);
    }
  }

  lemma RoomOf(c: Codes, cl: seq<nat>, ncode: nat, ts: seq<Token>, lcode: seq<nat>, dcode: seq<nat>, bcode: seq<nat>,
               opt: int, stat: int, litBufsize: nat, biValid: nat)
    requires TreesReady(c, cl, ncode, ts, lcode, dcode, bcode, opt, stat) && opt < stat && RoomFor(ts, litBufsize)
    requires biValid <= 7
    requires |c.ll| <= 286 && |c.dl| <= 30
    ensures var start := biValid + 3 + |HeaderBits(c, cl, ncode)|;
            start < 8 * (litBufsize - 2) && NoOverlay(start, litBufsize, c, ts)
  {
    hide HeaderBits, BlockBits, CodesOf, ThriftyCodes, FixedBits, NoOverlay, UsableHeader, UsableCodes,
         InflateTable.Acceptable;
    assert Fitting(c, cl, ncode, ts);
    LessOverlay(10 + |HeaderBits(c, cl, ncode)|, biValid + 3 + |HeaderBits(c, cl, ncode)|, litBufsize, c, ts);
  }

  /** b is an encoding of the tokens ts, or a stored block of their bytes. */
  ghost predicate Encodes(b: Block, buf: Option<seq<Byte>>, ts: seq<Token>) {
    ValidBlock(b) && if b.StoredBlock? then buf == Some(b.bytes) else b.ts == ts
  }

  /** The block b, begun at bit position at of a byte, follows s0, and the last one ends with a byte. */
  ghost predicate Appends(b: Block, last: bool, at: nat, s0: seq<bool>, s1: seq<bool>) {
    ValidBlock(b) && s1 == s0 + Encode(b, last, at) + Zeros(if last then Pad(at + |Encode(b, last, at)|) else 0)
  }

  lemma Aligns(b: Block, last: bool, at: nat, s0: seq<bool>, s1: seq<bool>, s2: seq<bool>)
    requires ValidBlock(b) && |s0| == at && s1 == s0 + Encode(b, last, at)
    requires s2 == s1 + Zeros(if last then Pad(|s1|) else 0)
    ensures Appends(b, last, at, s0, s2)
  {
    hide Encode, ValidBlock, Zeros, Pad;
  }

  lemma FixedOnly(optLen: int, staticLen: int, storedLen: nat, hasBuf: bool, fixedOnly: bool)
    ensures fixedOnly ==> Choose(optLen, staticLen, storedLen, hasBuf, fixedOnly) != DynKind
    ensures Choose(optLen, staticLen, storedLen, hasBuf, fixedOnly) == DynKind ==>
            optLen < staticLen && Choose(optLen, staticLen, storedLen, hasBuf, false) == DynKind
  {
  }

  // ----- room for a block's data -----

  /** Trees that build_tree may have built for the tokens, and that are worth choosing. */
  ghost predicate Fitting(c: Codes, cl: seq<nat>, ncode: nat, ts: seq<Token>) {
    AllValid(ts) && SoundTrees(c, cl, ncode) && AllCoded(c, ts) && |c.ll| <= 286 && |c.dl| <= 30 &&
    ThriftyCodes(ts, c) &&
    |HeaderBits(c, cl, ncode)| + |BlockBits(c, ts)| < |FixedBits(ts)|
  }

  /** Whatever codes of its own a block of these tokens gets, its data does not overtake the symbols
      that are still to be read. */
  ghost predicate RoomFor(ts: seq<Token>, litBufsize: nat) {
    forall c, cl, ncode :: Fitting(c, cl, ncode, ts) ==> RoomWith(c, cl, ncode, ts, litBufsize)
  }

  ghost predicate RoomWith(c: Codes, cl: seq<nat>, ncode: nat, ts: seq<Token>, litBufsize: nat)
    requires SoundTrees(c, cl, ncode) && AllCoded(c, ts)
  {
    var start := 10 + |HeaderBits(c, cl, ncode)|;
    start < 8 * (litBufsize - 2) && NoOverlay(start, litBufsize, c, ts)
  }

  lemma LessOverlay(start: nat, less: nat, litBufsize: nat, c: Codes, ts: seq<Token>)
    requires AllCoded(c, ts) && less <= start && NoOverlay(start, litBufsize, c, ts)
    ensures NoOverlay(less, litBufsize, c, ts)
  {
    hide TokensBits;
  }

  /** What a block takes in whole bytes, begun at a byte boundary; for a stored block the bytes and the two
      words for their number, without its header. */
  ghost function CostOf(b: Block): nat
    requires ValidBlock(b)
  {
    match b
    case StoredBlock(bytes) => |bytes| + 4
    case FixedBlock(ts) => (3 + |FixedBits(ts)| + 7) / 8
    case DynBlock(c, cl, ncode, ts) => (3 + |HeaderBits(c, cl, ncode)| + |BlockBits(c, ts)| + 7) / 8
  }

  /** That is what it takes; a stored block takes up to ten bits more for its header and padding. */
  lemma CostSent(b: Block, last: bool, at: nat)
    requires ValidBlock(b)
    ensures !b.StoredBlock? ==> CostOf(b) == (|Encode(b, last, at)| + 7) / 8
    ensures b.StoredBlock? ==> 8 * CostOf(b) + 3 <= |Encode(b, last, at)| <= 8 * CostOf(b) + 10
  {
    hide ToBits, BytesBits, HeaderBits, BlockBits, FixedBits, UsableHeader, UsableCodes, AllCoded,
         InflateTable.Acceptable;
  }

  /** Of the encodings there are for the tokens ts, the one with the fewest bytes: in the fixed codes; in the
      codes of own, unless only the fixed ones are wanted; stored, if the bytes are at hand. A stored block
      goes before the others, and the fixed codes before own ones, when they take as many. */
  ghost predicate Best(b: Block, own: Block, buf: Option<seq<Byte>>, ts: seq<Token>, fixedOnly: bool) {
    ValidBlock(b) && ValidBlock(own) && own.DynBlock? && own.ts == ts && ValidBlock(FixedBlock(ts)) &&
    (buf.Some? ==> ValidBlock(StoredBlock(buf.v))) &&
    var (f, d) := (CostOf(FixedBlock(ts)), CostOf(own));
    CostOf(b) <= f && (fixedOnly || CostOf(b) <= d) && (buf.Some? ==> CostOf(b) <= |buf.v| + 4) &&
    (b.StoredBlock? <==> buf.Some? && |buf.v| + 4 <= f && (fixedOnly || |buf.v| + 4 <= d)) &&
    (b.DynBlock? <==> !fixedOnly && d < f && (buf.Some? ==> d < |buf.v| + 4)) &&
    b == (if b.StoredBlock? then StoredBlock(buf.v) else if b.DynBlock? then own else FixedBlock(ts))
  }

  /** A block in its best encoding, the codes of its own being as thrifty as build_tree makes them, and sent
      without lengths after the last that is not 0. */
  ghost predicate WellChosen(b: Block, buf: Option<seq<Byte>>, ts: seq<Token>, fixedOnly: bool) {
    AllValid(ts) &&
    exists own: Block ::
      Best(b, own, buf, ts, fixedOnly) && ThriftyCodes(ts, own.c) && Trimmed(own.c, own.cl, own.ncode)
  }

  lemma BestChoice(b: Block, own: Block, buf: Option<seq<Byte>>, ts: seq<Token>, fixedOnly: bool, opt: int, stat: int,
                   storedLen: nat)
    requires ValidBlock(own) && own.DynBlock? && own.ts == ts && ValidBlock(FixedBlock(ts))
    requires buf.Some? ==> storedLen == |buf.v| && ValidBlock(StoredBlock(buf.v))
    requires stat == |FixedBits(ts)| && opt == |HeaderBits(own.c, own.cl, own.ncode)| + |BlockBits(own.c, ts)|
    requires match Choose(opt, stat, storedLen, buf.Some?, fixedOnly)
             case StoredKind => buf.Some? && b == StoredBlock(buf.v)
             case FixedKind => b == FixedBlock(ts)
             case DynKind => b == own
    ensures Best(b, own, buf, ts, fixedOnly)
  {
    hide ValidBlock, FixedBits, HeaderBits, BlockBits;
  }

  /** What _tr_flush_block adds up is what it writes; no choice costs more than storing, nor more
      bytes than the fixed codes. */
  ghost predicate Sized(b: Block, size: nat, optLen: int, staticLen: int, storedLen: nat, hasBuf: bool) {
    (b.FixedBlock? ==> size == 3 + staticLen) && (b.DynBlock? ==> size == 3 + optLen && optLen < staticLen) &&
    (hasBuf ==> size <= 8 * storedLen + 42)
  }

  /** _tr_flush_block's choice of encoding, by lengths in bytes. */
  function Choose(optLen: int, staticLen: int, storedLen: nat, hasBuf: bool, fixedOnly: bool): Kind {
    var dynb, staticb := (optLen + 3 + 7) / 8, (staticLen + 3 + 7) / 8;
    var optb := if staticb <= dynb || fixedOnly then staticb else dynb;
    if storedLen + 4 <= optb && hasBuf then StoredKind else if staticb == optb then FixedKind else DynKind
  }

  lemma TwoParts(s: seq<bool>, a: seq<bool>, b: seq<bool>)
    ensures s + a + b == s + (a + b)
  {
  }

  lemma Three(last: bool)
    ensures 4 + LastBit(last) < Pow2(3)
  {
    assert Pow2(3) == 8;
  }

  /** The code values of a static tree (tr_static_init). */
  function CodesFor(lens: seq<nat>): (code: seq<nat>)
    ensures |code| == |lens|
  {
    seq(|lens|, s requires 0 <= s < |lens| => RevCode(lens, s))
  }

  lemma FixedCodesOf()
    ensures CodesOf(CodesFor(FixedLl()), FixedLl()) && CodesOf(CodesFor(FixedDl()), FixedDl())
    ensures UsableCodes(Codes(FixedLl(), FixedDl())) && FixedCodes() == Codes(FixedLl(), FixedDl())
  {
    hide RevCode, Kraft, FixedLl, FixedDl;
    FixedUsable();
  }

  lemma NoZeros(s: seq<bool>)
    ensures s + Zeros(0) == s
  {
  }

  lemma SentSize(w: BitWriter)
    requires w.Valid()
    ensures |w.Sent()| == 8 * w.pending + w.biValid
  {
  }

  /** The bits that the lengths stand for. */
  lemma ReadyLens(c: Codes, cl: seq<nat>, ncode: nat, ts: seq<Token>, lcode: seq<nat>, dcode: seq<nat>, bcode: seq<nat>,
                  opt: int, stat: int)
    requires TreesReady(c, cl, ncode, ts, lcode, dcode, bcode, opt, stat)
    ensures ValidBlock(FixedBlock(ts)) && stat == |FixedBits(ts)| && stat <= 31 * |ts| + 7
    ensures ValidBlock(DynBlock(c, cl, ncode, ts)) && opt == |HeaderBits(c, cl, ncode)| + |BlockBits(c, ts)|
  {
    hide SoundTrees, CodesOf, HeaderBits, FixedCodes, TokensBits, UsableCodes;
    FixedTokensBits(ts);
    FixedEncodes(ts);
    EndCode(FixedCodes(), ts);
    EndIsSeven();
  }

  lemma EndIsSeven()
    ensures |FixedCodes().ll| > END_BLOCK && |SymBits(FixedCodes().ll, END_BLOCK)| == 7
  {
    hide RevCode, ToBits;
  }

  /** What a choice says about the lengths: a stored block fits into the pending buffer. */
  lemma ChoiceBounds(opt: int, stat: int, storedLen: nat, hasBuf: bool, fixedOnly: bool, n: nat, litBufsize: nat)
    requires stat <= 31 * n + 7 && n < litBufsize && litBufsize >= 128
    ensures var k := Choose(opt, stat, storedLen, hasBuf, fixedOnly);
            (k == StoredKind ==> hasBuf && storedLen + 16 <= 4 * litBufsize) &&
            (k == FixedKind ==> stat + 64 <= 8 * (4 * litBufsize) && (hasBuf ==> 3 + stat <= 8 * storedLen + 42)) &&
            (k == DynKind ==>
               opt < stat && (3 + opt + 7) / 8 <= (3 + stat + 7) / 8 && (hasBuf ==> 3 + opt <= 8 * storedLen + 42))
  {
  }

  lemma ChosenSize(b: Block, size: nat, opt: int, stat: int, storedLen: nat, hasBuf: bool, fixedOnly: bool, n: nat,
                   litBufsize: nat)
    requires stat <= 31 * n + 7 && n < litBufsize && litBufsize >= 128
    requires var k := Choose(opt, stat, storedLen, hasBuf, fixedOnly);
             match k
             case StoredKind => b.StoredBlock? && size <= 8 * storedLen + 42
             case FixedKind => b.FixedBlock? && size == 3 + stat
             case DynKind => b.DynBlock? && size == 3 + opt
    ensures Sized(b, size, opt, stat, storedLen, hasBuf) && size + 40 <= 8 * (4 * litBufsize)
  {
    ChoiceBounds(opt, stat, storedLen, hasBuf, fixedOnly, n, litBufsize);
  }

  lemma StoredSize(buf: seq<Byte>, last: bool, at: nat)
    requires |buf| <= 65535
    ensures ValidBlock(StoredBlock(buf)) && |Encode(StoredBlock(buf), last, at)| <= 8 * |buf| + 42
  {
    hide ToBits, BytesBits;
  }

  lemma FixedSize(ts: seq<Token>, last: bool, at: nat)
    requires ValidBlock(FixedBlock(ts))
    ensures |Encode(FixedBlock(ts), last, at)| == 3 + |FixedBits(ts)|
    ensures Encode(FixedBlock(ts), last, at) == Encode(FixedBlock(ts), last, at % 8)
  {
    hide ToBits, FixedBits;
  }

  lemma DynSize(c: Codes, cl: seq<nat>, ncode: nat, ts: seq<Token>, last: bool, at: nat)
    requires ValidBlock(DynBlock(c, cl, ncode, ts))
    ensures |Encode(DynBlock(c, cl, ncode, ts), last, at)| == 3 + |HeaderBits(c, cl, ncode)| + |BlockBits(c, ts)|
  {
    hide ToBits, HeaderBits, BlockBits, UsableHeader, UsableCodes, AllCoded, InflateTable.Acceptable;
  }

  /** Where the header of a stored block ends in the pending buffer: after 3 bits, padding and 4 bytes. */
  function HeadEnd(pending: nat, biValid: nat): nat { (8 * pending + biValid + 10) / 8 + 4 }

  /** Header, alignment and length words of a stored block. */
  method StoredHead(w: BitWriter, n: nat, last: bool)
    requires w.Valid() && n <= 65535 && HeadEnd(w.pending, w.biValid) <= w.pendingBuf.Length
    modifies w, w.pendingBuf
    ensures w.Valid() && w.biValid == 0 && w.biBuf == 0 && w.pending == HeadEnd(old(w.pending), old(w.biValid))
    ensures w.Sent() == old(w.Sent()) + (ToBits(LastBit(last),
                                                3) + Zeros(Pad(8 * old(w.pending) + old(w.biValid) + 3)) +
                                         ToBits(n, 16) + ToBits(65535 - n, 16))
  {
    hide BytesBits, ToBits, Zeros, Pow2, Pad;
    ghost var s0, at := w.Sent(), 8 * w.pending + w.biValid;
    Three(last);
    w.SendBits(LastBit(last), 3);
    ghost var s1 := w.Sent();
    w.BiWindup();
    ghost var z :| 0 <= z < 8 && w.Sent() == s1 + Zeros(z);
    PadOnly(at + 3, z, w.pending);
    NoBits();
    EmptyBuffer(w);
    w.PutShort(n % 65536);
    w.PutShort(65535 - n % 65536);
    EmptyBuffer(w);
    StoredParts(s0, ToBits(LastBit(last), 3), Zeros(z), ToBits(n, 16), ToBits(65535 - n, 16));
  }

  lemma EmptyBuffer(w: BitWriter)
    requires w.Valid() && w.biValid == 0
    ensures w.biBuf == 0 && w.Sent() == BytesBits(w.pendingBuf[..w.pending])
  {
    assert BytesBits(w.pendingBuf[..w.pending]) + [] == BytesBits(w.pendingBuf[..w.pending]);
  }

  /** Copy bytes to the pending buffer. */
  method CopyBytes(w: BitWriter, buf: seq<Byte>)
    requires w.Valid() && w.biValid == 0 && w.pending + |buf| <= w.pendingBuf.Length
    modifies w`pending, w.pendingBuf
    ensures w.Valid() && w.Sent() == old(w.Sent()) + BytesBits(buf) && w.pending == old(w.pending) + |buf|
  {
    hide BytesBits, ToBits, Pow2;
    EmptyBuffer(w);
    ghost var p, head := w.pending, w.pendingBuf[..w.pending];
    var i := 0;
    while i < |buf|
      invariant 0 <= i <= |buf| && w.pending == p
      invariant w.pendingBuf[..p] == head && w.pendingBuf[p..p + i] == buf[..i]
    {
      w.pendingBuf[w.pending + i] := buf[i];
      i := i + 1;
    }
    w.pending := w.pending + |buf|;
    assert w.pendingBuf[..w.pending] == head + buf;
    BytesBitsConcat(head, buf);
    EmptyBuffer(w);
  }

  /** _tr_stored_block: send a stored block. */
  method TrStoredBlock(w: BitWriter, buf: seq<Byte>, last: bool)
    requires w.Valid() && |buf| <= 65535 && HeadEnd(w.pending, w.biValid) + |buf| <= w.pendingBuf.Length
    modifies w, w.pendingBuf
    ensures w.Valid() && w.Sent() == old(w.Sent()) + Encode(StoredBlock(buf), last, 8 * old(w.pending) + old(w.biValid))
    ensures w.biValid == 0 && w.pending == HeadEnd(old(w.pending), old(w.biValid)) + |buf|
  {
    hide BytesBits, ToBits, Zeros, Pow2, Pad;
    ghost var s0, at := w.Sent(), 8 * w.pending + w.biValid;
    StoredHead(w, |buf|, last);
    CopyBytes(w, buf);
    WithBytes(s0, ToBits(LastBit(last), 3) + Zeros(Pad(at + 3)), ToBits(|buf|, 16), ToBits(65535 - |buf|, 16),
              BytesBits(buf));
  }

  lemma StoredParts(s: seq<bool>, a: seq<bool>, z: seq<bool>, b: seq<bool>, c: seq<bool>)
    ensures s + a + z + b + c == s + (a + z + b + c)
  {
  }

  lemma WithBytes(s: seq<bool>, a: seq<bool>, b: seq<bool>, c: seq<bool>, d: seq<bool>)
    ensures s + (a + b + c) + d == s + (a + (b + c + d))
  {
  }

  lemma PadOnly(at: nat, n: nat, pending: nat)
    requires n < 8 && 8 * pending == at + n
    ensures n == Pad(at)
  {
  }

  /** No lengths are sent after the last symbol that has a code. */
  ghost predicate TrimmedTrees(c: Codes) {
    c.ll != [] && c.ll[|c.ll| - 1] > 0 && c.dl != [] && c.dl[|c.dl| - 1] > 0
  }

  /** The same for the code-length code, which is as thrifty as build_tree makes it for the header. */
  ghost predicate Trimmed(c: Codes, cl: seq<nat>, ncode: nat) {
    TrimmedTrees(c) && |cl| == 19 && 1 <= ncode <= 19 && ORDER[ncode - 1] < 19 && cl[ORDER[ncode - 1]] > 0 &&
    Thrifty(RFreq(BothTrees(c)), cl, BlDesc())
  }

  /** Codes for a block's data, and the bits that they and the fixed codes take. */
  ghost predicate DataTrees(c: Codes, ts: seq<Token>, lcode: seq<nat>, dcode: seq<nat>, opt: int, stat: int) {
    AllValid(ts) && 257 <= |c.ll| <= 286 && 1 <= |c.dl| <= 30 && c.ll[END_BLOCK] > 0 && UsableCodes(c) &&
    AllCoded(c, ts) &&
    ValidLens(c.ll) && ValidLens(c.dl) && CodesOf(lcode, c.ll) && CodesOf(dcode, c.dl) &&
    InflateTable.Acceptable(LENS, c.ll) && InflateTable.Acceptable(DISTS, c.dl) &&
    opt == |BlockBits(c, ts)| && stat == |FixedBits(ts)| && ThriftyCodes(ts, c) && TrimmedTrees(c)
  }

  /** Sound trees with their codes, and the bits that a dynamic and a fixed block take. */
  ghost predicate TreesReady(c: Codes, cl: seq<nat>, ncode: nat, ts: seq<Token>, lcode: seq<nat>, dcode: seq<nat>,
                             bcode: seq<nat>, opt: int, stat: int) {
    AllValid(ts) && SoundTrees(c, cl, ncode) && AllCoded(c, ts) && CodesOf(lcode, c.ll) && CodesOf(dcode, c.dl) &&
    CodesOf(bcode, cl) &&
    opt == |HeaderBits(c, cl, ncode)| + |BlockBits(c, ts)| && stat == |FixedBits(ts)| && ThriftyCodes(ts, c) &&
    Trimmed(c, cl, ncode)
  }

  lemma TreesSound(lfc: seq<nat>, ldl: seq<nat>, dfc: seq<nat>, ddl: seq<nat>, lMax: int, dMax: int, c: Codes)
    requires |ldl| > lMax >= 0 && |ddl| > dMax >= 0 && c == Codes(ldl[..lMax + 1], ddl[..dMax + 1]) && UsableCodes(c)
    requires exists f :: TreeFor(lfc, ldl, f, LDesc(), lMax)
    requires exists f :: TreeFor(dfc, ddl, f, DDesc(), dMax)
    ensures lMax < 286 && dMax < 30 && |lfc| > lMax && |dfc| > dMax
    ensures CodesOf(lfc[..lMax + 1], c.ll) && CodesOf(dfc[..dMax + 1], c.dl) && ValidLens(c.ll) && ValidLens(c.dl)
    ensures c.ll[END_BLOCK] > 0 && InflateTable.Acceptable(LENS, c.ll) && InflateTable.Acceptable(DISTS, c.dl)
    ensures TrimmedTrees(c)
  {
    hide Kraft, RevCode, Pow2;
  }

  lemma BlDescIs()
    ensures BlDesc().elems == BL_CODES && BlDesc().stree == [] && BlDesc().maxLength == 7
  {
  }

  lemma CountedBelow(f: seq<nat>, f0: seq<nat>, rs: seq<RCode>)
    requires Counted(f, f0, rs)
    ensures forall y :: 0 <= y < 19 ==> f[y] < 65536
  {
    hide Freq;
  }

  lemma BufferSizes(memLevel: nat)
    requires 1 <= memLevel <= 9
    ensures 128 <= Shl(1, memLevel + 6) <= 32768
  {
    hide Pow2, Shl;
    ShlOne(memLevel + 6);
    SevenFifteen();
    Pow2Mono(7, memLevel + 6);
    Pow2Mono(memLevel + 6, 15);
  }

  lemma NoTokensYet(l: seq<nat>, d: seq<nat>)
    requires |l| == L_CODES && |d| == D_CODES
    requires forall i :: 0 <= i < L_CODES ==> l[i] == if i == END_BLOCK then 1 else 0
    requires forall i :: 0 <= i < D_CODES ==> d[i] == 0
    ensures l == LFreq([]) && d == DFreq([]) && TokensOf([]) == []
  {
  }

  lemma PushToken(sym: seq<Byte>, lo: Byte, hi: Byte, lc: Byte)
    requires |sym| % 3 == 0
    ensures TokensOf(sym + [lo, hi, lc]) == TokensOf(sym) + [TokenOf(lo, hi, lc)]
  {
    hide TokensOf, TokenOf;
    var s := sym + [lo, hi, lc];
    assert s[..|s| - 3] == sym;
    LastToken(s);
  }

  lemma LastToken(s: seq<Byte>)
    requires |s| >= 3
    ensures TokensOf(s) == TokensOf(s[..|s| - 3]) + [TokenOf(s[|s| - 3], s[|s| - 2], s[|s| - 1])]
  {
  }

  lemma PairOf(dist: nat)
    requires dist <= 32768
    ensures Pair(dist % 256, dist / 256 % 256) == dist
  {
  }

  lemma PushFreq(ts: seq<Token>, t: Token)
    requires AllValid(ts) && ValidToken(t)
    ensures AllValid(ts + [t]) && LFreq(ts + [t]) == Bumped(LFreq(ts), LlSym(t))
    ensures DFreq(ts + [t]) == if t.Match? then Bumped(DFreq(ts), DistCode(t.dist - 1)) else DFreq(ts)
  {
    assert (ts + [t])[..|ts|] == ts;
  }
}
