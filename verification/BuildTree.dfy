/** build_tree of trees.c: a code from symbol frequencies. Whatever the frequencies, the code is
    complete and within the length limit; if no length had to be cut off, no prefix code is cheaper. */
module BuildTree {
  import opened Bits
  import opened Canonical
  import opened GenCodes
  import opened HuffTree
  import opened PqHeap
  import opened MergeTree
  import opened LengthRepair
  import opened GenBitLen

  // ----- prefix codes -----

  /** code gives the members of f bit strings, none a prefix of another. */
  ghost predicate PrefixCode(f: set<nat>, code: seq<seq<bool>>) {
    (forall x :: x in f ==> x < |code|) && forall x, y :: x in f && y in f && x != y ==> !(code[x] <= code[y])
  }

  function LensOf(code: seq<seq<bool>>): (len: seq<nat>)
    ensures |len| == |code|
  {
    seq(|code|, i requires 0 <= i < |code| => |code[i]|)
  }

  /** The members of f whose bit strings start with b. */
  ghost function Side(f: set<nat>, code: seq<seq<bool>>, b: bool): set<nat>
    requires forall x :: x in f ==> x < |code|
  {
    set x | x in f && code[x] != [] && code[x][0] == b
  }

  function Tails(code: seq<seq<bool>>): (t: seq<seq<bool>>)
    ensures |t| == |code|
  {
    seq(|code|, i requires 0 <= i < |code| => if code[i] == [] then [] else code[i][1..])
  }

  lemma SideCode(f: set<nat>, code: seq<seq<bool>>, b: bool)
    requires PrefixCode(f, code)
    ensures PrefixCode(Side(f, code, b), Tails(code))
  {
    var t := Tails(code);
    forall x, y | x in Side(f, code, b) && y in Side(f, code, b) && x != y ensures !(t[x] <= t[y]) {
      assert code[x] == [b] + t[x] && code[y] == [b] + t[y];
      assert !(code[x] <= code[y]);
    }
  }

  lemma {:induction false} SideSum(f: set<nat>, code: seq<seq<bool>>, u: nat, n: nat)
    requires u > 0 && n <= |code| && forall x :: x in f ==> x < |code| && 0 < |code[x]| <= u
    ensures Sum(f, WtOf(u, LensOf(code)), n) ==
            Sum(Side(f, code, false), WtOf(u - 1, LensOf(Tails(code))), n) +
            Sum(Side(f, code, true), WtOf(u - 1, LensOf(Tails(code))), n)
  {
    if n > 0 { SideSum(f, code, u, n - 1); }
  }

  /** Kraft's inequality. */
  lemma {:induction false} PrefixKraft(f: set<nat>, code: seq<seq<bool>>, u: nat)
    requires PrefixCode(f, code) && forall x :: x in f ==> |code[x]| <= u
    ensures KraftSum(f, u, LensOf(code)) <= Pow2(u)
    decreases u
  {
    if x :| x in f && code[x] == [] {
      forall y | y in f ensures y == x { assert code[x] <= code[y]; }
      assert f == {x};
      SumSingle(x, WtOf(u, LensOf(code)), |code|);
    } else if u == 0 {
      assert f == {};
      SumEmpty(WtOf(u, LensOf(code)), |code|);
    } else {
      SideSum(f, code, u, |code|);
      SideCode(f, code, false);
      SideCode(f, code, true);
      PrefixKraft(Side(f, code, false), Tails(code), u - 1);
      PrefixKraft(Side(f, code, true), Tails(code), u - 1);
    }
  }

  // ----- the lengths as a code -----

  lemma {:induction false} CountIs(leaves: set<nat>, dl: seq<nat>, b: nat, n: nat)
    requires 1 <= b && n <= |dl| && forall x :: 0 <= x < n && x !in leaves ==> dl[x] == 0
    ensures Count(dl[..n], b) == Sum(leaves, IsLen(dl, b), n)
  {
    hide Count;
    if n == 0 {
      CountsZero(dl);
    } else {
      CountIs(leaves, dl, b, n - 1);
      CountNext(dl, n - 1);
    }
  }

  lemma {:induction false} SumBeyond(f: set<nat>, g: nat -> int, k: nat, n: nat)
    requires k <= n && forall x :: x in f ==> x < k
    ensures Sum(f, g, n) == Sum(f, g, k)
    decreases n
  {
    if k < n { SumBeyond(f, g, k, n - 1); }
  }

  lemma {:induction false} KraftIs(lens: seq<nat>, bl: seq<nat>, b: nat)
    requires CountsOf(bl, lens) && b <= MAXBITS
    ensures KraftTo(lens, b) == BlKraft(bl, b)
  {
    hide Count, Shl;
    if b > 0 { KraftIs(lens, bl, b - 1); }
  }

  /** Lengths by gen_bitlen are a complete code, and bl_count holds their statistics. */
  lemma CompleteLengths(leaves: set<nat>, dl: seq<nat>, bl: seq<nat>, max: nat, maxCode: nat)
    requires Lengths(leaves, dl, bl, max) && max <= MAXBITS && maxCode < |dl| && Greatest(leaves, maxCode)
    requires forall x :: 0 <= x <= maxCode && x !in leaves ==> dl[x] == 0
    ensures var lens := dl[..maxCode + 1]; ValidLens(lens) && CountsOf(bl, lens) && Kraft(lens) == Pow2(MAXBITS)
  {
    hide Count, Sum, BlKraft, BlTotal, Tally, Pow2;
    var lens := dl[..maxCode + 1];
    forall b | 1 <= b <= MAXBITS ensures bl[b] == Count(lens, b) {
      CountIs(leaves, dl, b, maxCode + 1);
      SumBeyond(leaves, IsLen(dl, b), maxCode + 1, |dl|);
      TallyAt(leaves, dl, b, |dl|);
    }
    KraftIs(lens, bl, MAXBITS);
    ShlZero(MAXBITS - max);
  }

  // ----- bits charged -----

  /** Bits that symbols below n with these frequencies take: codes and extra bits. */
  function BitsBelow(d: TreeDesc, freq: seq<nat>, lens: seq<nat>, n: nat): nat
    requires n <= |freq| && n <= |lens|
  {
    if n == 0 then 0 else BitsBelow(d, freq, lens, n - 1) + freq[n - 1] * (lens[n - 1] + XBits(d, n - 1))
  }

  lemma {:induction false} OptIsBits(d: TreeDesc, freq: seq<nat>, lens: seq<nat>, elems: nat, n: nat)
    requires n <= elems <= |freq| && n <= |lens|
    ensures Sum(Leaves(freq, elems), OptOf(d, freq, lens), n) == BitsBelow(d, freq, lens, n)
  {
    hide XBits;
    if n > 0 { OptIsBits(d, freq, lens, elems, n - 1); }
  }

  lemma {:induction false} StaticIsBits(d: TreeDesc, freq: seq<nat>, elems: nat, n: nat)
    requires n <= elems <= |freq| && d.stree != [] && n <= |d.stree|
    ensures Sum(Leaves(freq, elems), StaticOf(d, freq), n) == BitsBelow(d, freq, d.stree, n)
  {
    hide XBits;
    if n > 0 { StaticIsBits(d, freq, elems, n - 1); }
  }

  lemma {:induction false} SumParts(f: set<nat>, f': set<nat>, g: nat -> int, n: nat)
    requires f <= f'
    ensures Sum(f', g, n) == Sum(f, g, n) + Sum(f' - f, g, n)
  {
    if n > 0 { SumParts(f, f', g, n - 1); }
  }

  lemma {:induction false} SumOnes(f: set<nat>, n: nat)
    ensures Sum(f, x => 1, n) == |Below(f, n)|
  {
    if n == 0 {
      assert Below(f, 0) == {};
    } else {
      SumOnes(f, n - 1);
      assert Below(f, n) == Below(f, n - 1) + if n - 1 in f then {n - 1} else {};
    }
  }

  /** Two codes that fill the code space are both one bit long. */
  lemma TwoCodes(leaves: set<nat>, dl: seq<nat>, bl: seq<nat>, max: nat, x: nat)
    requires Lengths(leaves, dl, bl, max) && |leaves| == 2 && x in leaves && max <= MAXBITS
    ensures dl[x] == 1
  {
    hide Tally, BlTotal, BlKraft, Pow2;
    assert Below(leaves, |dl|) == leaves;
    TallyKraft(leaves, dl, |dl|);
    ShlZero(MAXBITS - max);
    var g := WtOf(MAXBITS, dl);
    var rest := leaves - {x};
    assert |rest| == 1;
    var y :| y in rest;
    assert |rest - {y}| == 0;
    assert rest == {y};
    SumRemove(leaves, x, g, |dl|);
    SumSingle(y, g, |dl|);
    HalfAtMost(dl[y]);
    HalfAtMost(dl[x]);
  }

  lemma BothOne(leaves: set<nat>, dl: seq<nat>, bl: seq<nat>, max: nat)
    requires Lengths(leaves, dl, bl, max) && max <= MAXBITS
    ensures |leaves| == 2 ==> forall x :: x in leaves ==> x < |dl| && dl[x] == 1
  {
    forall x | |leaves| == 2 && x in leaves ensures x < |dl| && dl[x] == 1 { TwoCodes(leaves, dl, bl, max, x); }
  }

  lemma HalfAtMost(l: nat)
    requires 1 <= l <= MAXBITS
    ensures 2 * Wt(MAXBITS, l) <= Pow2(MAXBITS)
    ensures l > 1 ==> 2 * Wt(MAXBITS, l) < Pow2(MAXBITS)
  {
    hide Pow2;
    WtIs(MAXBITS, l);
    Pow2Strict(MAXBITS - l, MAXBITS);
    if l > 1 { Pow2Strict(MAXBITS - l, MAXBITS - 1); Pow2Strict(MAXBITS - 1, MAXBITS); }
  }

  /** The static lengths, as a function on symbols. */
  function StaticLens(d: TreeDesc): nat -> int { (x: nat) => StaticLen(d, x) }

  lemma ForcedParts(d: TreeDesc, f0: seq<nat>, f1: seq<nat>, opt: int, stat: int)
    requires Forced(f0, f1, d.elems, opt, stat, StaticLens(d))
    ensures var l0 := Leaves(f0, d.elems); var l1 := Leaves(f1, d.elems);
            l0 <= l1 && opt == |l1 - l0| && stat == Sum(l1 - l0, StaticLens(d), d.elems) && |f0| == |f1| &&
            d.elems <= |f0| &&
            (forall n :: n in l1 ==> n < d.elems) &&
            (forall n :: n in l0 ==> f0[n] == f1[n]) && forall n :: n in l1 - l0 ==> n < |f1| && f1[n] == 1 && n <= 2
  {
    hide Sum;
  }

  /** The forced symbols' bits are taken back: only real occurrences are charged for. */
  lemma ForcedOpt(d: TreeDesc, f0: seq<nat>, f1: seq<nat>, dl: seq<nat>, bl: seq<nat>, opt: int, stat: int)
    requires ValidDesc(d) && Forced(f0, f1, d.elems, opt, stat, StaticLens(d)) && |f1| == |dl|
    requires Lengths(Leaves(f1, d.elems), dl, bl, d.maxLength) && (f1 != f0 ==> |Leaves(f1, d.elems)| == 2)
    ensures Sum(Leaves(f1, d.elems), OptOf(d, f1, dl), |dl|) - opt == BitsBelow(d, f0, dl, d.elems)
  {
    hide XBits, StaticLen, Lengths, Sum, Leaves, Forced;
    ForcedParts(d, f0, f1, opt, stat);
    var l0, l1, n := Leaves(f0, d.elems), Leaves(f1, d.elems), d.elems;
    var forced := l1 - l0;
    LengthsIn(l1, dl, bl, d.maxLength);
    forall x | x in forced ensures dl[x] == 1 && XBits(d, x) == 0 {
      TwoCodes(l1, dl, bl, d.maxLength, x);
    }
    SumBeyond(l1, OptOf(d, f1, dl), n, |dl|);
    SumParts(l0, l1, OptOf(d, f1, dl), n);
    SumCongr(forced, forced, OptOf(d, f1, dl), x => 1, n);
    SumOnes(forced, n);
    assert Below(forced, n) == forced;
    SumCongr(l0, l0, OptOf(d, f1, dl), OptOf(d, f0, dl), n);
    OptIsBits(d, f0, dl, n, n);
  }

  lemma ForcedStatic(d: TreeDesc, f0: seq<nat>, f1: seq<nat>, opt: int, stat: int, k: nat)
    requires ValidDesc(d) && Forced(f0, f1, d.elems, opt, stat, StaticLens(d)) && k >= d.elems
    ensures Sum(Leaves(f1, d.elems), StaticOf(d, f1), k) - stat ==
            if d.stree != [] then BitsBelow(d, f0, d.stree, d.elems) else 0
  {
    hide XBits, Sum, Leaves, Forced;
    ForcedParts(d, f0, f1, opt, stat);
    var l0, l1, n := Leaves(f0, d.elems), Leaves(f1, d.elems), d.elems;
    var forced := l1 - l0;
    SumBeyond(l1, StaticOf(d, f1), n, k);
    if d.stree != [] {
      SumParts(l0, l1, StaticOf(d, f1), n);
      SumCongr(forced, forced, StaticOf(d, f1), StaticLens(d), n);
      SumCongr(l0, l0, StaticOf(d, f1), StaticOf(d, f0), n);
      StaticIsBits(d, f0, n, n);
    } else {
      SumCongr(l1, l1, StaticOf(d, f1), z => 0, n);
      SumCongr(forced, forced, StaticLens(d), z => 0, n);
      SumZero(l1, n);
      SumZero(forced, n);
    }
  }

  lemma LengthsIn(leaves: set<nat>, dl: seq<nat>, bl: seq<nat>, max: nat)
    requires Lengths(leaves, dl, bl, max)
    ensures forall x :: x in leaves ==> x < |dl| && 1 <= dl[x] <= max
  {
  }

  // ----- the tree builder -----

  /** No lengths that a prefix code for the symbols f could have cost less than len. */
  ghost predicate Optimal(f: set<nat>, freq: seq<nat>, len: seq<nat>) {
    forall u: nat, other: seq<nat> :: |other| == |freq| && Feasible(f, u, other) ==>
      Cost(f, freq, len) <= Cost(f, freq, other)
  }

  /** No prefix code costs less than an optimal one. */
  lemma OptimalAmongPrefixCodes(f: set<nat>, freq: seq<nat>, len: seq<nat>, code: seq<seq<bool>>, u: nat)
    requires Optimal(f, freq, len) && PrefixCode(f, code) && |code| == |freq| && forall x :: x in f ==> |code[x]| <= u
    ensures Cost(f, freq, len) <= Cost(f, freq, LensOf(code))
  {
    PrefixKraft(f, code, u);
    assert Feasible(f, u, LensOf(code));
  }

  /** In an optimal code the more frequent of two symbols does not have the longer code. */
  lemma OptimalOrdered(f: set<nat>, freq: seq<nat>, len: seq<nat>, u: nat)
    requires Optimal(f, freq, len) && |len| == |freq| && Feasible(f, u, len)
    ensures Ordered(f, freq, len)
  {
    hide Feasible, Cost;
    FeasibleIn(f, u, len);
    forall x, y | x in f && y in f && x < |freq| && y < |freq| && freq[x] < freq[y] ensures len[y] <= len[x] {
      if len[x] < len[y] {
        SwapFeasible(f, u, freq, len, x, y);
        SwapCheaper(f, freq, len, x, y);
      }
    }
  }

  lemma SwapCheaper(f: set<nat>, w: seq<nat>, len: seq<nat>, x: nat, y: nat)
    requires x in f && y in f && x < |len| == |w| && y < |len| && w[x] < w[y] && len[x] < len[y]
    ensures Cost(f, w, Swapped(len, x, y)) < Cost(f, w, len)
  {
    hide Sum;
    var l1 := len[x := len[y]];
    var l2 := Swapped(len, x, y);
    SumUpdate(f, x, HuffTree.CostOf(w, len), HuffTree.CostOf(w, l1), |len|);
    SumUpdate(f, y, HuffTree.CostOf(w, l1), HuffTree.CostOf(w, l2), |len|);
    StrictExchange(w[x], w[y], len[x], len[y]);
  }

  lemma StrictExchange(wx: nat, wy: nat, lx: nat, ly: nat)
    requires wx < wy && lx < ly
    ensures wx * ly + wy * lx < wx * lx + wy * ly
  {
    MulMono(wx + 1, wy, ly - lx);
    assert wx * (ly - lx) == wx * ly - wx * lx && wy * (ly - lx) == wy * ly - wy * lx;
    assert (wx + 1) * (ly - lx) == wx * (ly - lx) + (ly - lx);
  }

  /** Lengths that fill the code space belong to some prefix code. */
  lemma LengthsFeasible(leaves: set<nat>, dl: seq<nat>, bl: seq<nat>, max: nat)
    requires Lengths(leaves, dl, bl, max)
    ensures Feasible(leaves, MAXBITS, dl)
  {
    hide Tally, BlKraft, BlTotal, Pow2, Sum;
    TallyKraft(leaves, dl, |dl|);
    ShlZero(MAXBITS - max);
  }

  /** Merges that were Huffman's and lengths that were not cut off are optimal. */
  lemma MergesOptimal(leaves: set<nat>, ms: seq<Pair>, elems: nat, w: seq<nat>, freq: seq<nat>, len: seq<nat>)
    requires Greedy(leaves, ms, elems, w) && Paid(leaves, len, w, elems, 0, |ms|) && |w| == |freq| == |len|
    requires forall x :: x in leaves ==> x < |w| && freq[x] == w[x]
    ensures Optimal(leaves, freq, len)
  {
    hide Feasible, Greedy, Forest, Sum, MergeCost;
    forall u: nat, other: seq<nat> | |other| == |freq| && Feasible(leaves, u, other)
      ensures Cost(leaves, freq, len) <= Cost(leaves, freq, other)
    {
      var r := NoCheaper(leaves, ms, elems, w, u, other, |ms|);
      SumCongr(leaves, leaves, CostOf(w, other), CostOf(freq, other), |w|);
      SumCongr(leaves, leaves, CostOf(w, len), CostOf(freq, len), |w|);
      NoMerges(leaves, ms, elems, w);
      CostNonneg(Forest(leaves, ms, elems, |ms|), w, r);
    }
  }

  lemma {:induction false} CostNonneg(f: set<nat>, w: seq<nat>, len: seq<nat>)
    ensures Cost(f, w, len) >= 0
  {
    SumBelow(f, z => 0, CostOf(w, len), |len|);
    SumZero(f, |len|);
  }

  /** Entries of the heap are symbols. */
  lemma EntriesBound(h: seq<nat>, len: nat, f: set<nat>, bound: nat)
    requires len < |h| && Entries(h, len) == multiset(f) && forall x :: x in f ==> x < bound
    ensures Nodes(h, len, bound)
  {
    forall i | 1 <= i <= len ensures h[i] < bound {
      EntryIn(h, len, i);
      assert h[i] in f;
    }
  }

  /** Establish the heap, from the last father up. */
  method MakeHeap(heap: array<nat>, heapLen: nat, fc: array<nat>, depth: array<nat>)
    requires 2 <= heapLen < heap.Length && heap != fc && heap != depth && depth.Length >= fc.Length
    requires Nodes(heap[..], heapLen, fc.Length)
    modifies heap
    ensures Nodes(heap[..], heapLen, fc.Length) && HeapFrom(heap[..], heapLen, fc[..], depth[..], 1)
    ensures Entries(heap[..], heapLen) == Entries(old(heap[..]), heapLen)
  {
    hide Entries, Nodes, Smaller;
    var n := heapLen / 2;
    while n >= 1
      invariant 0 <= n <= heapLen / 2 && Nodes(heap[..], heapLen, fc.Length)
      invariant HeapFrom(heap[..], heapLen, fc[..], depth[..], n + 1)
      invariant Entries(heap[..], heapLen) == Entries(old(heap[..]), heapLen)
    {
      PqDownHeap(heap, heapLen, fc, depth, n);
      n := n - 1;
    }
  }

  /** What build_tree promises about the lengths it gives to symbols with these frequencies. */
  ghost predicate Built(freq: seq<nat>, dl: seq<nat>, d: TreeDesc, maxCode: int) {
    d.elems <= |freq| && d.elems <= |dl| && 0 <= maxCode < d.elems &&
    (forall n :: 0 <= n < d.elems && freq[n] != 0 ==> 0 < dl[n]) &&
    (forall n :: 0 <= n < d.elems ==> dl[n] <= d.maxLength) &&
    (forall n :: maxCode < n < d.elems ==> dl[n] == 0) && dl[maxCode] > 0 &&
    ValidLens(dl[..maxCode + 1]) && Kraft(dl[..maxCode + 1]) == Pow2(MAXBITS)
  }

  lemma BuiltBy(f0: seq<nat>, f1: seq<nat>, dl: seq<nat>, bl: seq<nat>, d: TreeDesc, maxCode: int)
    requires ValidDesc(d) && |f0| == |f1| == |dl| >= d.elems && |Leaves(f1, d.elems)| >= 2
    requires Leaves(f0, d.elems) <= Leaves(f1, d.elems) && Greatest(Leaves(f1, d.elems), maxCode)
    requires Lengths(Leaves(f1, d.elems), dl, bl, d.maxLength)
    requires forall n :: 0 <= n < d.elems && n !in Leaves(f1, d.elems) ==> dl[n] == 0
    ensures Built(f0, dl, d, maxCode) && CountsOf(bl, dl[..maxCode + 1])
  {
    hide Pow2, Kraft, Lengths, CountsOf;
    var l1 := Leaves(f1, d.elems);
    LengthsIn(l1, dl, bl, d.maxLength);
    NotEmpty(l1, maxCode);
    CompleteLengths(l1, dl, bl, d.maxLength, maxCode);
    forall n | 0 <= n < d.elems && f0[n] != 0 ensures 0 < dl[n] { assert n in Leaves(f0, d.elems); }
  }

  lemma NotEmpty(f: set<nat>, max: int)
    requires Greatest(f, max) && |f| > 0
    ensures max >= 0
  {
    var x :| x in f;
  }

  /** freq are the frequencies f0 and those of symbols forced to make two. */
  ghost predicate Enough(f0: seq<nat>, freq: seq<nat>, elems: nat) {
    |f0| == |freq| && elems <= |f0| && 2 <= |Leaves(freq, elems)| <= elems &&
    Leaves(f0, elems) <= Leaves(freq, elems) &&
    (forall n :: 0 <= n < |f0| && f0[n] != freq[n] ==> n <= 2 && f0[n] == 0 && freq[n] == 1) &&
    (f0 != freq ==> |Leaves(freq, elems)| == 2)
  }

  lemma ForcedEnough(d: TreeDesc, f0: seq<nat>, f1: seq<nat>, opt: int, stat: int)
    requires Forced(f0, f1, d.elems, opt, stat, StaticLens(d)) && 2 <= |Leaves(f1, d.elems)| <= d.elems
    requires f1 != f0 ==> |Leaves(f1, d.elems)| == 2
    ensures Enough(f0, f1, d.elems)
  {
    hide Sum;
  }

  lemma SymbolsAre(h: seq<nat>, len: nat, fc: seq<nat>, elems: nat, max: int)
    ensures Symbols(h, len, fc, elems, max) <==>
      (len < |h| && elems <= |fc| && len == |Leaves(fc, elems)| && Entries(h, len) == multiset(Leaves(fc, elems)) &&
       Greatest(Leaves(fc, elems), max))
  {
  }

  lemma LeafIff(f0: seq<nat>, f1: seq<nat>, elems: nat, max: int)
    requires elems <= |f0| && elems <= |f1| && Leaves(f0, elems) <= Leaves(f1, elems)
    requires Greatest(Leaves(f1, elems), max)
    ensures forall n :: 0 <= n < elems && n !in Leaves(f1, elems) ==> f0[n] == 0
    ensures max < elems
  {
    forall n | 0 <= n < elems && n !in Leaves(f1, elems) ensures f0[n] == 0 { assert n !in Leaves(f0, elems); }
  }

  lemma IsTree(h: seq<nat>, heapMax: nat, fc: seq<nat>, dl: seq<nat>, leaves: set<nat>, ms: seq<Pair>, elems: nat,
               maxCode: int)
    requires Merged(h, fc, dl, leaves, ms, elems) && |ms| > 0 && heapMax == HEAP_SIZE - 2 * |ms| - 1 && |h| == HEAP_SIZE
    requires h[heapMax] == elems + |ms| - 1 && Forest(leaves, ms, elems, |ms|) == {elems + |ms| - 1}
    requires Greatest(leaves, maxCode) && maxCode < elems
    ensures TreeOf(h, heapMax, fc, dl, leaves, ms, elems, maxCode)
  {
    hide Merged, Forest, Greatest;
  }

  /** The heap of the symbols that occur and those forced to make two. */
  method FirstHeap(fc: array<nat>, dl: array<nat>, heap: array<nat>, depth: array<nat>, d: TreeDesc, opt: int,
                   stat: int)
    returns (heapLen: nat, maxCode: int, optLen: int, staticLen: int)
    requires fc != dl && fc != heap && fc != depth && dl != heap && dl != depth && heap != depth
    requires ValidDesc(d) && fc.Length == dl.Length == 2 * d.elems + 1 <= depth.Length && heap.Length == HEAP_SIZE
    modifies fc, dl, heap, depth
    ensures Enough(old(fc[..]), fc[..], d.elems)
    ensures Forced(old(fc[..]), fc[..], d.elems, opt - optLen, stat - staticLen, StaticLens(d))
    ensures 2 <= heapLen == |Leaves(fc[..], d.elems)| <= d.elems
    ensures Entries(heap[..], heapLen) == multiset(Leaves(fc[..], d.elems))
    ensures Nodes(heap[..], heapLen, fc.Length) && HeapFrom(heap[..], heapLen, fc[..], depth[..], 1)
    ensures Greatest(Leaves(fc[..], d.elems), maxCode) && maxCode < d.elems
    ensures forall n :: 0 <= n < d.elems && n !in Leaves(fc[..], d.elems) ==> dl[n] == 0
  {
    hide Smaller, Entries, HeapFrom, Nodes, Sum, Forced, Enough, ValidDesc, Symbols, Leaves, Greatest, ForcedSymbols;
    ghost var f0: seq<nat> := fc[..];
    DescFacts(d);
    heapLen, maxCode := CollectSymbols(fc, dl, heap, depth, d.elems);
    SymbolsAre(heap[..], heapLen, fc[..], d.elems, maxCode);
    heapLen, maxCode, optLen, staticLen := ForceTwo(fc, heap, depth, d.elems, heapLen, maxCode, opt, stat,
                                                    StaticLens(d));
    ghost var freq: seq<nat> := fc[..];
    SymbolsAre(heap[..], heapLen, freq, d.elems, maxCode);
    ForcedEnough(d, f0, freq, opt - optLen, stat - staticLen);
    ForcedParts(d, f0, freq, opt - optLen, stat - staticLen);
    EntriesBound(heap[..], heapLen, Leaves(freq, d.elems), fc.Length);
    LeafIff(f0, freq, d.elems, maxCode);
    MakeHeap(heap, heapLen, fc, depth);
  }

  /** The forest of frequency-ordered merges. */
  method GrowTree(fc: array<nat>, dl: array<nat>, heap: array<nat>, depth: array<nat>, d: TreeDesc, opt: int, stat: int)
    returns (heapMax: nat, maxCode: int, optLen: int, staticLen: int, ghost freq: seq<nat>, ghost ms: seq<Pair>)
    requires fc != dl && fc != heap && fc != depth && dl != heap && dl != depth && heap != depth
    requires ValidDesc(d) && fc.Length == dl.Length == 2 * d.elems + 1 <= depth.Length && heap.Length == HEAP_SIZE
    modifies fc, dl, heap, depth
    ensures Enough(old(fc[..]), freq, d.elems) && fc[..d.elems] == freq[..d.elems]
    ensures Forced(old(fc[..]), freq, d.elems, opt - optLen, stat - staticLen, StaticLens(d))
    ensures TreeOf(heap[..], heapMax, fc[..], dl[..], Leaves(freq, d.elems), ms, d.elems, maxCode)
    ensures forall n :: 0 <= n < d.elems && n !in Leaves(freq, d.elems) ==> dl[n] == 0
    ensures Sum(Leaves(freq, d.elems), WeightOf(freq), |freq|) < 65536 ==>
            Greedy(Leaves(freq, d.elems), ms, d.elems, fc[..])
  {
    hide Smaller, Entries, HeapFrom, Nodes, Forest, Sum, Merged, Greedy, Forced, Enough, ValidDesc, Leaves, Greatest,
         TreeOf;
    DescFacts(d);
    var heapLen: nat;
    heapLen, maxCode, optLen, staticLen := FirstHeap(fc, dl, heap, depth, d, opt, stat);
    freq := fc[..];
    heapMax, ms := MergeAll(heap, heapLen, fc, dl, depth, d.elems);
    IsTree(heap[..], heapMax, fc[..], dl[..], Leaves(freq, d.elems), ms, d.elems, maxCode);
  }

  /** Build the code for the symbols whose frequencies fc holds: lengths in dl, codes in fc. freq are
      the frequencies with the forced ones, ms the merges and w the weights of all nodes; cut tells
      whether a length had to be cut off, which is so exactly when a symbol lies too deep. */
  method BuildTree(fc: array<nat>, dl: array<nat>, heap: array<nat>, depth: array<nat>, bl: array<nat>, d: TreeDesc,
                   opt: int, stat: int)
    returns (maxCode: int, optLen: int, staticLen: int, ghost cut: bool, ghost freq: seq<nat>, ghost ms: seq<Pair>,
             ghost w: seq<nat>)
    requires fc != dl && fc != heap && fc != depth && dl != heap && dl != depth && heap != depth
    requires bl != fc && bl != dl && bl != heap && bl != depth && bl.Length == MAXBITS + 1
    requires ValidDesc(d) && fc.Length == dl.Length == 2 * d.elems + 1 <= depth.Length && heap.Length == HEAP_SIZE
    modifies fc, dl, heap, depth, bl
    ensures Built(old(fc[..]), dl[..], d, maxCode)
    ensures forall n :: 0 <= n < d.elems && dl[n] != 0 ==> n <= maxCode && fc[n] == RevCode(dl[..maxCode + 1], n)
    ensures optLen - opt == BitsBelow(d, old(fc[..]), dl[..], d.elems)
    ensures staticLen - stat == if d.stree != [] then BitsBelow(d, old(fc[..]), d.stree, d.elems) else 0
    ensures Enough(old(fc[..]), freq, d.elems)
    ensures forall n :: 0 <= n < d.elems ==> (dl[n] > 0 <==> n in Leaves(freq, d.elems))
    ensures !cut && Sum(Leaves(freq, d.elems), WeightOf(freq), |freq|) < 65536 ==>
            Optimal(Leaves(freq, d.elems), freq, dl[..])
    ensures ValidMerges(Leaves(freq, d.elems), ms, d.elems) && |ms| == |Leaves(freq, d.elems)| - 1
    ensures |w| == |freq| && w[..d.elems] == freq[..d.elems]
    ensures Sum(Leaves(freq, d.elems), WeightOf(freq), |freq|) < 65536 ==> Greedy(Leaves(freq, d.elems), ms, d.elems, w)
    ensures cut <==> TooDeep(Leaves(freq, d.elems), ms, d.elems, d.maxLength)
    ensures |Leaves(freq, d.elems)| == 2 ==> forall n :: n in Leaves(freq, d.elems) ==> n < dl.Length && dl[n] == 1
    ensures KeepsShort(Truncated(Leaves(freq, d.elems), ms, d.elems, d.maxLength, dl.Length),
                       Tally(Leaves(freq, d.elems), dl[..], dl.Length), d.maxLength, |Leaves(freq, d.elems)|)
    ensures Sum(Leaves(freq, d.elems), WeightOf(freq), |freq|) < 65536 ==> Ordered(Leaves(freq, d.elems), freq, dl[..])
  {
    hide KeepsShort, Truncated, Ordered, Tally, Leaves, TooDeep, ValidMerges, Forest, Sum, Merged, Greedy, Forced,
         Enough, ValidDesc, Lengths, Built, Optimal, TreeOf, Kraft, Paid, Pow2, CountsOf, RevCode, BitsBelow, StaticOf,
         OptOf;
    ghost var f0: seq<nat> := fc[..];
    DescFacts(d);
    var heapMax;
    heapMax, maxCode, optLen, staticLen, freq, ms := GrowTree(fc, dl, heap, depth, d, opt, stat);
    ghost var o, s := opt - optLen, stat - staticLen;
    EnoughParts(f0, freq, d.elems);
    ForcedParts(d, f0, freq, o, s);
    ghost var leaves, f2: seq<nat> := Leaves(freq, d.elems), fc[..];
    w := f2;
    TreeShape(heap[..], heapMax, f2, dl[..], leaves, ms, d.elems, maxCode);
    ForestSize(leaves, ms, d.elems, |ms|);
    optLen, staticLen, cut := GenBitLen.GenBitLen(heap, heapMax, dl, fc, bl, d, maxCode, optLen, staticLen, leaves, ms);
    ghost var l: seq<nat> := dl[..];
    LengthsIn(leaves, l, bl[..], d.maxLength);
    SameSums(d, leaves, f2, freq, l);
    BothOne(leaves, l, bl[..], d.maxLength);
    ForcedOpt(d, f0, freq, l, bl[..], o, s);
    ForcedStatic(d, f0, freq, o, s, dl.Length);
    BuiltBy(f0, freq, l, bl[..], d, maxCode);
    BuiltCode(f0, l, d, maxCode);
    LengthsTally(leaves, l, bl[..], d.maxLength);
    if Sum(leaves, WeightOf(freq), |freq|) < 65536 { BestLengths(leaves, ms, d, f2, freq, l, bl[..], cut); }
    GenCodes.GenCodes(fc, dl, maxCode, bl);
    assert l == dl[..];
  }

  lemma LengthsTally(leaves: set<nat>, dl: seq<nat>, bl: seq<nat>, max: nat)
    requires Lengths(leaves, dl, bl, max)
    ensures bl == Tally(leaves, dl, |dl|)
  {
  }

  /** More frequent symbols have no longer codes, and unless lengths are cut off nothing is cheaper. */
  lemma BestLengths(leaves: set<nat>, ms: seq<Pair>, d: TreeDesc, w: seq<nat>, freq: seq<nat>, dl: seq<nat>,
                    bl: seq<nat>, cut: bool)
    requires Greedy(leaves, ms, d.elems, w) && Lengths(leaves, dl, bl, d.maxLength) && |w| == |freq| == |dl|
    requires forall x :: x in leaves ==> x < |w| && w[x] == freq[x]
    requires if cut then Ordered(leaves, w, dl) else Paid(leaves, dl, w, d.elems, 0, |ms|)
    ensures (!cut ==> Optimal(leaves, freq, dl)) && Ordered(leaves, freq, dl)
  {
    hide Greedy, Lengths, Ordered, Paid, Optimal, Feasible;
    if cut {
      SameOrder(leaves, w, freq, dl);
    } else {
      MergesOptimal(leaves, ms, d.elems, w, freq, dl);
      LengthsFeasible(leaves, dl, bl, d.maxLength);
      OptimalOrdered(leaves, freq, dl, MAXBITS);
    }
  }

  lemma SameOrder(leaves: set<nat>, w: seq<nat>, freq: seq<nat>, dl: seq<nat>)
    requires Ordered(leaves, w, dl) && |w| == |freq| && forall x :: x in leaves ==> x < |w| && w[x] == freq[x]
    ensures Ordered(leaves, freq, dl)
  {
  }

  lemma EnoughParts(f0: seq<nat>, freq: seq<nat>, elems: nat)
    requires Enough(f0, freq, elems)
    ensures |freq| == |f0| >= elems && 2 <= |Leaves(freq, elems)| <= elems
    ensures f0 != freq ==> |Leaves(freq, elems)| == 2
  {
  }

  lemma BuiltCode(f0: seq<nat>, dl: seq<nat>, d: TreeDesc, maxCode: int)
    requires Built(f0, dl, d, maxCode)
    ensures 0 <= maxCode < d.elems <= |dl| && forall n :: maxCode < n < d.elems ==> dl[n] == 0
    ensures ValidLens(dl[..maxCode + 1]) && Kraft(dl[..maxCode + 1]) == Pow2(MAXBITS)
  {
  }

  /** Only the symbols' own frequencies matter to their bits. */
  lemma SameSums(d: TreeDesc, leaves: set<nat>, w: seq<nat>, freq: seq<nat>, dl: seq<nat>)
    requires |w| == |freq| == |dl| >= d.elems && w[..d.elems] == freq[..d.elems]
    requires forall x :: x in leaves ==> x < d.elems
    ensures forall x :: x in leaves ==> w[x] == freq[x]
    ensures Sum(leaves, OptOf(d, w, dl), |dl|) == Sum(leaves, OptOf(d, freq, dl), |dl|)
    ensures Sum(leaves, StaticOf(d, w), |dl|) == Sum(leaves, StaticOf(d, freq), |dl|)
  {
    hide XBits, StaticLen, Sum;
    forall x | x in leaves ensures w[x] == freq[x] { assert w[..d.elems][x] == freq[..d.elems][x]; }
    SumCongr(leaves, leaves, OptOf(d, w, dl), OptOf(d, freq, dl), |dl|);
    SumCongr(leaves, leaves, StaticOf(d, w), StaticOf(d, freq), |dl|);
  }
}
