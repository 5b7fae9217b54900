/** What build_tree's lengths are worth: unless a Huffman tree for the frequencies is deeper than the
    length limit, no lengths that a prefix code could have take fewer bits. */
module CodeCost {
  import opened Bits
  import opened Canonical
  import opened HuffTree
  import opened MergeTree
  import opened LengthRepair
  import opened GenBitLen
  import opened BuildTree

  /** Huffman's merges, for the frequencies freq and symbols forced to make two, with the weights w of
      all nodes. */
  ghost predicate HuffmanTree(freq: seq<nat>, f1: seq<nat>, ms: seq<Pair>, w: seq<nat>, elems: nat) {
    Enough(freq, f1, elems) && elems <= |w| && w[..elems] == f1[..elems] && Greedy(Leaves(f1, elems), ms, elems, w)
  }

  /** Some Huffman tree for these frequencies is deeper than the length limit. */
  ghost predicate Deep(freq: seq<nat>, d: TreeDesc) {
    exists f1, ms, w :: HuffmanTree(freq, f1, ms, w, d.elems) && TooDeep(Leaves(f1, d.elems), ms, d.elems, d.maxLength)
  }

  /** Lengths that some prefix code for the symbols that occur has. */
  ghost predicate Possible(freq: seq<nat>, len: seq<nat>, elems: nat) {
    |freq| == elems <= |len| && (forall n :: 0 <= n < elems && freq[n] > 0 ==> 1 <= len[n] <= MAXBITS) &&
    KraftSum(Leaves(freq, elems), MAXBITS, len) <= Pow2(MAXBITS)
  }

  /** No possible lengths take fewer bits than len. */
  ghost predicate Cheapest(freq: seq<nat>, len: seq<nat>, d: TreeDesc) {
    |freq| == d.elems <= |len| &&
    forall other: seq<nat> :: Possible(freq, other, d.elems) ==>
      BitsBelow(d, freq, len, d.elems) <= BitsBelow(d, freq, other, d.elems)
  }

  // ----- the Kraft sum of the symbols that occur -----

  lemma {:induction false} SumSubset(f: set<nat>, f': set<nat>, u: nat, len: seq<nat>, n: nat)
    requires f <= f'
    ensures Sum(f, WtOf(u, len), n) <= Sum(f', WtOf(u, len), n)
  {
    hide Wt;
    if n > 0 { SumSubset(f, f', u, len, n - 1); }
  }

  /** It is at most that of all symbols with a code. */
  lemma KraftUsed(f: set<nat>, lens: seq<nat>)
    requires ValidLens(lens) && forall x :: x in f ==> x < |lens| && lens[x] > 0
    ensures KraftSum(f, MAXBITS, lens) <= Kraft(lens)
  {
    hide Sum, BlKraft, BlTotal, Tally, Pow2, KraftTo, Count;
    var all := Leaves(lens, |lens|);
    SumSubset(f, all, MAXBITS, lens, |lens|);
    TallyKraft(all, lens, |lens|);
    var bl := Tally(all, lens, |lens|);
    forall b | 1 <= b <= MAXBITS ensures bl[b] == Count(lens, b) {
      CountIs(all, lens, b, |lens|);
      assert lens[..|lens|] == lens;
      TallyAt(all, lens, b, |lens|);
    }
    NoneOf(all, lens, 0, |lens|);
    TallyAt(all, lens, 0, |lens|);
    KraftIs(lens, bl, MAXBITS);
  }

  /** The lengths of a code that is not over-subscribed, and has a code for all that occurs, are possible. */
  lemma PossibleCode(freq: seq<nat>, lens: seq<nat>, other: seq<nat>, elems: nat)
    requires ValidLens(lens) && Kraft(lens) <= Pow2(MAXBITS) && |freq| == elems <= |other|
    requires forall n :: 0 <= n < elems && freq[n] > 0 ==> n < |lens| && 0 < lens[n] == other[n]
    ensures Possible(freq, other, elems)
  {
    hide Kraft, Pow2, Sum;
    var f := Leaves(freq, elems);
    KraftUsed(f, lens);
    var n := if |lens| > |other| then |lens| else |other|;
    SumBeyond(f, WtOf(MAXBITS, lens), |lens|, n);
    SumBeyond(f, WtOf(MAXBITS, other), |other|, n);
    SumCongr(f, f, WtOf(MAXBITS, lens), WtOf(MAXBITS, other), n);
  }

  // ----- bits and costs -----

  /** Two sets of lengths differ in bits as they do in cost: extra bits are the same. */
  lemma {:induction false} BitsAndCost(d: TreeDesc, freq: seq<nat>, w: seq<nat>, a: seq<nat>, b: seq<nat>, n: nat)
    requires n <= d.elems <= |freq| && n <= |a| && n <= |b| && n <= |w|
    requires forall x :: 0 <= x < d.elems && x < |w| && freq[x] > 0 ==> w[x] == freq[x]
    ensures BitsBelow(d, freq, a, n) - BitsBelow(d, freq, b, n) ==
            Sum(Leaves(freq, d.elems), CostOf(w, a), n) - Sum(Leaves(freq, d.elems), CostOf(w, b), n)
  {
    hide XBits;
    if n > 0 {
      BitsAndCost(d, freq, w, a, b, n - 1);
      var f, x := freq[n - 1], XBits(d, n - 1);
      Distribute(f, a[n - 1], x);
      Distribute(f, b[n - 1], x);
    }
  }

  lemma Distribute(f: int, l: int, x: int)
    ensures f * (l + x) == f * l + f * x
  {
  }

  /** Codes of one bit are the cheapest there are. */
  lemma {:induction false} OneBit(d: TreeDesc, freq: seq<nat>, len: seq<nat>, other: seq<nat>, n: nat)
    requires n <= |freq| && n <= |len| && n <= |other|
    requires forall x :: 0 <= x < n && freq[x] > 0 ==> len[x] == 1 <= other[x]
    ensures BitsBelow(d, freq, len, n) <= BitsBelow(d, freq, other, n)
  {
    hide XBits;
    if n > 0 {
      OneBit(d, freq, len, other, n - 1);
      if freq[n - 1] > 0 { MulMono(1 + XBits(d, n - 1), other[n - 1] + XBits(d, n - 1), freq[n - 1]); }
    }
  }

  /** Lengths of the symbols, of any size, as lengths of so many nodes. */
  function Padded(len: seq<nat>, elems: nat, size: nat): (r: seq<nat>)
    requires elems <= |len| && elems <= size
    ensures |r| == size
  {
    len[..elems] + seq(size - elems, i => 0)
  }

  /** Optimal lengths are the cheapest, symbol frequencies being what counts. */
  lemma OptimalIsCheapest(d: TreeDesc, f0: seq<nat>, f1: seq<nat>, dl: seq<nat>, freq: seq<nat>)
    requires Enough(f0, f1, d.elems) && freq == f0[..d.elems] && |dl| == |f1| && Optimal(Leaves(f1, d.elems), f1, dl)
    requires |Leaves(f1, d.elems)| == 2 ==> forall n :: n in Leaves(f1, d.elems) ==> dl[n] == 1
    ensures Cheapest(freq, dl, d)
  {
    hide Pow2, Sum, BitsBelow, Optimal;
    var l1 := Leaves(f1, d.elems);
    forall other: seq<nat> | Possible(freq, other, d.elems)
      ensures BitsBelow(d, freq, dl, d.elems) <= BitsBelow(d, freq, other, d.elems)
    {
      if |l1| == 2 {
        forall x | 0 <= x < d.elems && freq[x] > 0 ensures dl[x] == 1 <= other[x] { assert x in Leaves(f0, d.elems); }
        OneBit(d, freq, dl, other, d.elems);
      } else {
        assert f0 == f1;
        CheaperThan(d, f1, dl, freq, other);
      }
    }
  }

  lemma CheaperThan(d: TreeDesc, f1: seq<nat>, dl: seq<nat>, freq: seq<nat>, other: seq<nat>)
    requires d.elems <= |f1| == |dl| && freq == f1[..d.elems] && Optimal(Leaves(f1, d.elems), f1, dl)
    requires Possible(freq, other, d.elems)
    ensures BitsBelow(d, freq, dl, d.elems) <= BitsBelow(d, freq, other, d.elems)
  {
    hide Pow2, Sum, BitsBelow, Optimal, Feasible;
    var f, n := Leaves(f1, d.elems), d.elems;
    var o := Padded(other, n, |f1|);
    assert f == Leaves(freq, n);
    PaddedFeasible(f, other, o, n);
    OptimalSays(f, f1, dl, o);
    BitsAndCost(d, freq, f1, dl, other, n);
    SumBeyond(f, CostOf(f1, dl), n, |dl|);
    SumBeyond(f, CostOf(f1, o), n, |o|);
    SumCongr(f, f, CostOf(f1, o), CostOf(f1, other), n);
  }

  lemma OptimalSays(f: set<nat>, w: seq<nat>, len: seq<nat>, other: seq<nat>)
    requires Optimal(f, w, len) && |other| == |w| && Feasible(f, MAXBITS, other)
    ensures Cost(f, w, len) <= Cost(f, w, other)
  {
    hide Feasible, Cost;
  }

  lemma PaddedFeasible(f: set<nat>, other: seq<nat>, o: seq<nat>, n: nat)
    requires n <= |other| && n <= |o| && (forall x :: x in f ==> x < n && other[x] <= MAXBITS && o[x] == other[x])
    requires KraftSum(f, MAXBITS, other) <= Pow2(MAXBITS)
    ensures Feasible(f, MAXBITS, o)
  {
    hide Pow2, Sum;
    SumBeyond(f, WtOf(MAXBITS, other), n, |other|);
    SumBeyond(f, WtOf(MAXBITS, o), n, |o|);
    SumCongr(f, f, WtOf(MAXBITS, other), WtOf(MAXBITS, o), n);
  }

  /** A tree of build_tree's that was cut off shows that its frequencies make a deep one. */
  lemma CutIsDeep(d: TreeDesc, f0: seq<nat>, f1: seq<nat>, ms: seq<Pair>, w: seq<nat>, freq: seq<nat>)
    requires Enough(f0, f1, d.elems) && freq == f0[..d.elems] && |w| == |f1| && w[..d.elems] == f1[..d.elems]
    requires Greedy(Leaves(f1, d.elems), ms, d.elems, w) && TooDeep(Leaves(f1, d.elems), ms, d.elems, d.maxLength)
    ensures Deep(freq, d)
  {
    hide Greedy, TooDeep;
    var f := f1[..d.elems];
    assert Leaves(f, d.elems) == Leaves(f1, d.elems) && Leaves(freq, d.elems) == Leaves(f0, d.elems);
    forall n | 0 <= n < |freq| && freq[n] != f[n] ensures n <= 2 && freq[n] == 0 && f[n] == 1 {
      assert f0[n] != f1[n];
    }
    assert HuffmanTree(freq, f, ms, w, d.elems);
  }

  // ----- totals -----

  function Total(freq: seq<nat>, n: nat): nat
    requires n <= |freq|
  {
    if n == 0 then 0 else Total(freq, n - 1) + freq[n - 1]
  }

  lemma {:induction false} TotalIsSum(freq: seq<nat>, elems: nat, n: nat)
    requires n <= elems <= |freq|
    ensures Sum(Leaves(freq, elems), WeightOf(freq), n) == Total(freq, n)
  {
    if n > 0 { TotalIsSum(freq, elems, n - 1); }
  }

  lemma {:induction false} TotalBump(freq: seq<nat>, y: nat, n: nat)
    requires n <= |freq| && y < |freq|
    ensures Total(freq[y := freq[y] + 1], n) == Total(freq, n) + if y < n then 1 else 0
  {
    if n > 0 { TotalBump(freq, y, n - 1); }
  }

  lemma {:induction false} TotalSame(a: seq<nat>, b: seq<nat>, n: nat)
    requires n <= |a| && n <= |b| && a[..n] == b[..n]
    ensures Total(a, n) == Total(b, n)
  {
    if n > 0 {
      assert a[..n][n - 1] == b[..n][n - 1];
      assert a[..n - 1] == a[..n][..n - 1] && b[..n - 1] == b[..n][..n - 1];
      TotalSame(a, b, n - 1);
    }
  }

  /** Forcing symbols adds at most two. */
  lemma ForcedTotal(f0: seq<nat>, f1: seq<nat>, elems: nat)
    requires Enough(f0, f1, elems)
    ensures Sum(Leaves(f1, elems), WeightOf(f1), |f1|) <= Total(f0, elems) + 2
  {
    hide Sum, Total;
    var l0, l1 := Leaves(f0, elems), Leaves(f1, elems);
    SumBeyond(l1, WeightOf(f1), elems, |f1|);
    TotalIsSum(f0, elems, elems);
    SumParts(l0, l1, WeightOf(f1), elems);
    SumCongr(l0, l0, WeightOf(f1), WeightOf(f0), elems);
    if f0 == f1 {
      assert l1 - l0 == {};
      SumEmpty(WeightOf(f1), elems);
    } else {
      SumCongr(l1 - l0, l1 - l0, WeightOf(f1), x => 1, elems);
      SumOnes(l1 - l0, elems);
      Sub(Below(l1 - l0, elems), l1);
    }
  }
}
