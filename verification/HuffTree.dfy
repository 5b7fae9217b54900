/** Huffman trees as sequences of merges: Kraft sums, costs and optimality, independent of how
    the tree builder stores them. Nodes are numbers; merge i makes node elems + i. */
module HuffTree {
  import opened Bits

  // ----- sums over sets of nodes -----

  /** The sum of g over the members of f below n. */
  ghost function Sum(f: set<nat>, g: nat -> int, n: nat): int {
    if n == 0 then 0 else Sum(f, g, n - 1) + if n - 1 in f then g(n - 1) else 0
  }

  lemma {:induction false} SumCongr(f: set<nat>, f': set<nat>, g: nat -> int, h: nat -> int, n: nat)
    requires forall x :: 0 <= x < n ==> (x in f <==> x in f') && (x in f ==> g(x) == h(x))
    ensures Sum(f, g, n) == Sum(f', h, n)
  {
    if n > 0 { SumCongr(f, f', g, h, n - 1); }
  }

  lemma {:induction false} SumAdd(f: set<nat>, x: nat, g: nat -> int, n: nat)
    requires x !in f && x < n
    ensures Sum(f + {x}, g, n) == Sum(f, g, n) + g(x)
  {
    if x == n - 1 { SumCongr(f + {x}, f, g, g, n - 1); } else { SumAdd(f, x, g, n - 1); }
  }

  lemma SumRemove(f: set<nat>, x: nat, g: nat -> int, n: nat)
    requires x in f && x < n
    ensures Sum(f - {x}, g, n) == Sum(f, g, n) - g(x)
  {
    SumAdd(f - {x}, x, g, n);
    assert f - {x} + {x} == f;
  }

  /** Changing the summand at one member. */
  lemma SumUpdate(f: set<nat>, x: nat, g: nat -> int, h: nat -> int, n: nat)
    requires x in f && x < n && forall y :: y in f && y != x ==> g(y) == h(y)
    ensures Sum(f, h, n) == Sum(f, g, n) - g(x) + h(x)
  {
    SumRemove(f, x, g, n);
    SumRemove(f, x, h, n);
    SumCongr(f - {x}, f - {x}, g, h, n);
  }

  lemma {:induction false} SumBelow(f: set<nat>, g: nat -> int, h: nat -> int, n: nat)
    requires forall x :: x in f ==> g(x) <= h(x)
    ensures Sum(f, g, n) <= Sum(f, h, n)
  {
    if n > 0 { SumBelow(f, g, h, n - 1); }
  }

  /** Two members' shares of a sum of nonnegative terms. */
  lemma SumTwo(f: set<nat>, x: nat, y: nat, g: nat -> int, n: nat)
    requires x in f && y in f && x != y && x < n && y < n && forall z :: z in f ==> g(z) >= 0
    ensures g(x) + g(y) <= Sum(f, g, n)
  {
    SumRemove(f, x, g, n);
    SumRemove(f - {x}, y, g, n);
    SumBelow(f - {x} - {y}, z => 0, g, n);
    SumZero(f - {x} - {y}, n);
  }

  lemma {:induction false} SumZero(f: set<nat>, n: nat)
    ensures Sum(f, z => 0, n) == 0
  {
    if n > 0 { SumZero(f, n - 1); }
  }

  // ----- merges -----

  /** Nodes n and m become the sons of a new node. */
  datatype Pair = Pair(n: nat, m: nat)

  /** The roots after the first i merges. */
  ghost function Forest(leaves: set<nat>, ms: seq<Pair>, elems: nat, i: nat): set<nat>
    requires i <= |ms|
  {
    if i == 0 then leaves
    else Forest(leaves, ms, elems, i - 1) - {ms[i - 1].n, ms[i - 1].m} + {elems + i - 1}
  }

  /** Every merge takes two different roots. */
  ghost predicate ValidMerges(leaves: set<nat>, ms: seq<Pair>, elems: nat) {
    (forall x :: x in leaves ==> x < elems) &&
    forall i :: 0 <= i < |ms| ==>
      ms[i].n != ms[i].m && ms[i].n in Forest(leaves, ms, elems, i) && ms[i].m in Forest(leaves, ms, elems, i)
  }

  /** How deep node x of the forest after k merges lies in the tree that all merges make. */
  ghost function Depth(ms: seq<Pair>, elems: nat, x: nat, k: nat): nat
    decreases |ms| - k
  {
    if k >= |ms| then 0
    else if x == ms[k].n || x == ms[k].m then 1 + Depth(ms, elems, elems + k, k + 1)
    else Depth(ms, elems, x, k + 1)
  }

  /** Some symbol lies deeper than max. */
  ghost predicate TooDeep(leaves: set<nat>, ms: seq<Pair>, elems: nat, max: nat) {
    exists x :: x in leaves && Depth(ms, elems, x, 0) > max
  }

  lemma {:induction false} ForestBound(leaves: set<nat>, ms: seq<Pair>, elems: nat, i: nat)
    requires ValidMerges(leaves, ms, elems) && i <= |ms|
    ensures forall x :: x in Forest(leaves, ms, elems, i) ==> x < elems + i
    ensures forall x :: x in Forest(leaves, ms, elems, i) && x < elems ==> x in leaves
  {
    hide Forest;
    if i == 0 {
      ForestStart(leaves, ms, elems);
    } else {
      ForestBound(leaves, ms, elems, i - 1);
      ForestNext(leaves, ms, elems, i - 1);
    }
  }

  lemma {:induction false} ForestSize(leaves: set<nat>, ms: seq<Pair>, elems: nat, i: nat)
    requires ValidMerges(leaves, ms, elems) && i <= |ms|
    ensures |Forest(leaves, ms, elems, i)| == |leaves| - i
  {
    hide ValidMerges, Forest;
    if i == 0 {
      ForestStart(leaves, ms, elems);
    } else {
      ForestSize(leaves, ms, elems, i - 1);
      MergedBelow(leaves, ms, elems, i - 1);
      ForestBound(leaves, ms, elems, i - 1);
      ForestNext(leaves, ms, elems, i - 1);
      TwoForOne(Forest(leaves, ms, elems, i - 1), ms[i - 1].n, ms[i - 1].m, elems + i - 1);
    }
  }

  lemma TwoForOne(f: set<nat>, n: nat, m: nat, node: nat)
    requires n in f && m in f && n != m && node !in f
    ensures |f - {n, m} + {node}| == |f| - 1
  {
    assert f - {n, m} == f - {n} - {m};
    assert |f - {n} - {m} + {node}| == |f - {n} - {m}| + 1;
  }

  lemma ForestStart(leaves: set<nat>, ms: seq<Pair>, elems: nat)
    ensures Forest(leaves, ms, elems, 0) == leaves
  {
  }

  lemma {:induction false} ForestPrefix(leaves: set<nat>, ms: seq<Pair>, p: Pair, elems: nat, i: nat)
    requires i <= |ms|
    ensures Forest(leaves, ms + [p], elems, i) == Forest(leaves, ms, elems, i)
  {
    if i > 0 { ForestPrefix(leaves, ms, p, elems, i - 1); }
  }

  /** One more merge of two roots is valid. */
  lemma MergeMore(leaves: set<nat>, ms: seq<Pair>, p: Pair, elems: nat)
    requires ValidMerges(leaves, ms, elems)
    requires p.n != p.m && p.n in Forest(leaves, ms, elems, |ms|) && p.m in Forest(leaves, ms, elems, |ms|)
    ensures ValidMerges(leaves, ms + [p], elems)
    ensures Forest(leaves, ms + [p], elems, |ms| + 1) == Forest(leaves, ms, elems, |ms|) - {p.n, p.m} + {elems + |ms|}
  {
    forall i | 0 <= i <= |ms| ensures Forest(leaves, ms + [p], elems, i) == Forest(leaves, ms, elems, i) {
      ForestPrefix(leaves, ms, p, elems, i);
    }
  }

  /** Every node is merged at most once: what a later merge takes, an earlier one has not taken. */
  lemma {:induction false} NotTaken(leaves: set<nat>, ms: seq<Pair>, elems: nat, i: nat, j: nat)
    requires ValidMerges(leaves, ms, elems) && i < j <= |ms|
    ensures ms[i].n !in Forest(leaves, ms, elems, j) && ms[i].m !in Forest(leaves, ms, elems, j)
    decreases j
  {
    hide ValidMerges, Forest;
    MergedBelow(leaves, ms, elems, i);
    ForestNext(leaves, ms, elems, j - 1);
    if j > i + 1 { NotTaken(leaves, ms, elems, i, j - 1); }
  }

  lemma ForestNext(leaves: set<nat>, ms: seq<Pair>, elems: nat, i: nat)
    requires i < |ms|
    ensures Forest(leaves, ms, elems, i + 1) == Forest(leaves, ms, elems, i) - {ms[i].n, ms[i].m} + {elems + i}
  {
  }

  lemma MergedBelow(leaves: set<nat>, ms: seq<Pair>, elems: nat, i: nat)
    requires ValidMerges(leaves, ms, elems) && i < |ms|
    ensures ms[i].n < elems + i && ms[i].m < elems + i && ms[i].n != ms[i].m
    ensures ms[i].n in Forest(leaves, ms, elems, i) && ms[i].m in Forest(leaves, ms, elems, i)
  {
    ForestBound(leaves, ms, elems, i);
  }

  // ----- lengths -----

  /** The weight of length l in units of 2^-u. */
  function Wt(u: nat, l: nat): nat { if l <= u then Pow2(u - l) else 0 }

  lemma WtIs(u: nat, l: nat)
    requires l <= u
    ensures Wt(u, l) == Pow2(u - l) >= 1
  {
  }

  function WtOf(u: nat, len: seq<nat>): nat -> int { (x: nat) => if x < |len| then Wt(u, len[x]) else 0 }

  function CostOf(w: seq<nat>, len: seq<nat>): nat -> int {
    (x: nat) => if x < |len| && x < |w| then w[x] * len[x] else 0
  }

  function WeightOf(w: seq<nat>): nat -> int { (x: nat) => if x < |w| then w[x] else 0 }

  /** The Kraft sum of the roots f, in units of 2^-u. */
  ghost function KraftSum(f: set<nat>, u: nat, len: seq<nat>): int { Sum(f, WtOf(u, len), |len|) }

  ghost function Cost(f: set<nat>, w: seq<nat>, len: seq<nat>): int { Sum(f, CostOf(w, len), |len|) }

  /** Lengths that some prefix code for the roots f has, if units of 2^-u are fine enough. */
  ghost predicate Feasible(f: set<nat>, u: nat, len: seq<nat>) {
    (forall x :: x in f ==> x < |len| && len[x] <= u) && KraftSum(f, u, len) <= Pow2(u)
  }

  /** x has the greatest length in f. */
  ghost predicate Longest(f: set<nat>, len: seq<nat>, x: nat) {
    x in f && forall y :: y in f ==> y < |len| && x < |len| && len[y] <= len[x]
  }

  lemma {:induction false} FindLongest(f: set<nat>, len: seq<nat>) returns (x: nat)
    requires f != {} && forall y :: y in f ==> y < |len|
    ensures Longest(f, len, x)
    decreases f
  {
    var a :| a in f;
    if f == {a} {
      x := a;
    } else {
      var b := FindLongest(f - {a}, len);
      x := if len[a] > len[b] then a else b;
      assert forall y :: y in f ==> y == a || y in f - {a};
    }
  }

  /** Exchange the lengths of two nodes. */
  function Swapped(len: seq<nat>, a: nat, b: nat): seq<nat>
    requires a < |len| && b < |len|
  {
    len[a := len[b]][b := len[a]]
  }

  /** Giving the greater length to the lighter node keeps the Kraft sum and does not cost more. */
  lemma SwapGain(f: set<nat>, u: nat, w: seq<nat>, len: seq<nat>, x: nat, a: nat)
    requires x in f && a in f && x < |len| && a < |len| && |w| == |len| && w[x] <= w[a] && len[x] <= len[a]
    ensures KraftSum(f, u, Swapped(len, x, a)) == KraftSum(f, u, len)
    ensures Cost(f, w, Swapped(len, x, a)) <= Cost(f, w, len)
  {
    if x != a {
      var l1 := len[x := len[a]];
      var l2 := Swapped(len, x, a);
      SumUpdate(f, x, WtOf(u, len), WtOf(u, l1), |len|);
      SumUpdate(f, a, WtOf(u, l1), WtOf(u, l2), |len|);
      SumUpdate(f, x, CostOf(w, len), CostOf(w, l1), |len|);
      SumUpdate(f, a, CostOf(w, l1), CostOf(w, l2), |len|);
      Exchange(w[x], w[a], len[x], len[a]);
    } else {
      assert Swapped(len, x, a) == len;
    }
  }

  lemma Exchange(wx: nat, wa: nat, lx: nat, la: nat)
    requires wx <= wa && lx <= la
    ensures wx * la + wa * lx <= wx * lx + wa * la
  {
    MulMono(wx, wa, la - lx);
    assert wx * (la - lx) == wx * la - wx * lx && wa * (la - lx) == wa * la - wa * lx;
  }

  /** Sums of weights of lengths up to d are multiples of the weight of d. */
  lemma {:induction false} WholeUnits(f: set<nat>, u: nat, len: seq<nat>, d: nat, n: nat) returns (q: nat)
    requires d <= u && n <= |len| && forall x :: x in f && x < n ==> len[x] <= d
    ensures Sum(f, WtOf(u, len), n) == Shl(q, u - d)
  {
    if n == 0 {
      q := 0;
      ShlZero(u - d);
    } else {
      q := WholeUnits(f, u, len, d, n - 1);
      if n - 1 in f {
        var l := len[n - 1];
        ShlOne(d - l);
        ShlShl(1, d - l, u - d);
        ShlOne(u - l);
        ShlAdd(q, Pow2(d - l), u - d);
        q := q + Pow2(d - l);
      }
    }
  }

  /** A root longer than all others can be shortened to the longest of them. */
  lemma Shorten(f: set<nat>, u: nat, w: seq<nat>, len: seq<nat>, x: nat, y: nat)
    requires Feasible(f, u, len) && |w| == |len| && x in f && x != y && Longest(f - {x}, len, y) && len[y] <= len[x]
    ensures Feasible(f, u, len[x := len[y]]) && Cost(f, w, len[x := len[y]]) <= Cost(f, w, len)
  {
    hide Pow2, Shl, Wt;
    var d, l1 := len[y], len[x := len[y]];
    WtIs(u, d);
    WtIs(u, len[x]);
    SumUpdate(f, x, WtOf(u, len), WtOf(u, l1), |len|);
    SumUpdate(f, x, CostOf(w, len), CostOf(w, l1), |len|);
    MulMono(d, len[x], w[x]);
    MulComm(d, w[x]);
    MulComm(len[x], w[x]);
    var q := WholeUnits(f - {x}, u, len, d, |len|);
    SumRemove(f, x, WtOf(u, len), |len|);
    ShlOne(d);
    ShlShl(1, d, u - d);
    ShlOne(u);
    if q >= Pow2(d) { ShlMono(Pow2(d), q, u - d); }
    ShlMono(q + 1, Pow2(d), u - d) by { assert q + 1 <= Pow2(d); }
    ShlAdd(q, 1, u - d);
    ShlOne(u - d);
  }

  // ----- optimality -----

  /** w gives node x and all roots but n and m at least the weights of n and m. */
  ghost predicate TwoLightest(f: set<nat>, w: seq<nat>, n: nat, m: nat) {
    n in f && m in f && n != m && n < |w| && m < |w| &&
    forall x :: x in f ==> x < |w| && w[n] <= w[x] && (x != n ==> w[m] <= w[x])
  }

  /** Lengths can be rearranged, at no cost, so that the two lightest roots are the longest. */
  lemma LightestLongest(f: set<nat>, u: nat, w: seq<nat>, len: seq<nat>, n: nat, m: nat) returns (r: seq<nat>)
    requires Feasible(f, u, len) && |w| == |len| && TwoLightest(f, w, n, m)
    ensures Feasible(f, u, r) && |r| == |len| && Cost(f, w, r) <= Cost(f, w, len)
    ensures Longest(f, r, n) && Longest(f - {n}, r, m)
  {
    hide Feasible, Cost, Swapped;
    FeasibleIn(f, u, len);
    var a := FindLongest(f, len);
    SwapFeasible(f, u, w, len, n, a);
    var l1 := Swapped(len, n, a);
    SwapLongest(f, len, n, a);
    assert m in f - {n};
    var b := FindLongest(f - {n}, l1);
    SwapFeasible(f, u, w, l1, m, b);
    r := Swapped(l1, m, b);
    SwapLongest(f - {n}, l1, m, b);
    SwapElsewhere(f, l1, n, m, b);
  }

  lemma FeasibleIn(f: set<nat>, u: nat, len: seq<nat>)
    requires Feasible(f, u, len)
    ensures forall x :: x in f ==> x < |len|
  {
  }

  lemma SwapFeasible(f: set<nat>, u: nat, w: seq<nat>, len: seq<nat>, x: nat, a: nat)
    requires x in f && a in f && x < |len| && a < |len| && |w| == |len| && w[x] <= w[a] && len[x] <= len[a]
    requires Feasible(f, u, len)
    ensures Feasible(f, u, Swapped(len, x, a)) && Cost(f, w, Swapped(len, x, a)) <= Cost(f, w, len)
    ensures |Swapped(len, x, a)| == |len|
  {
    hide KraftSum, Cost;
    SwapGain(f, u, w, len, x, a);
  }

  /** The greatest length moves to x. */
  lemma SwapLongest(f: set<nat>, len: seq<nat>, x: nat, a: nat)
    requires Longest(f, len, a) && x in f && x < |len| && a < |len|
    ensures Longest(f, Swapped(len, x, a), x)
  {
  }

  /** Exchanges among the others leave the longest root the longest. */
  lemma SwapElsewhere(f: set<nat>, len: seq<nat>, n: nat, m: nat, b: nat)
    requires Longest(f, len, n) && m in f - {n} && b in f - {n} && m < |len| && b < |len|
    ensures Longest(f, Swapped(len, m, b), n)
  {
    assert n < |len|;
  }

  /** Two roots of the greatest length d have d >= 1. */
  lemma BothNonzero(f: set<nat>, u: nat, len: seq<nat>, n: nat, m: nat)
    requires Feasible(f, u, len) && n in f && m in f && n != m && len[n] == len[m]
    ensures len[m] >= 1
  {
    SumTwo(f, n, m, WtOf(u, len), |len|);
  }

  /** Replacing the two lightest roots, both of length d, by their father of length d - 1. */
  lemma Father(f: set<nat>, u: nat, w: seq<nat>, len: seq<nat>, n: nat, m: nat, node: nat)
    requires Feasible(f, u, len) && |w| == |len| && n in f && m in f && n != m && len[n] == len[m] >= 1
    requires node < |len| && node !in f && w[node] == w[n] + w[m]
    ensures var r := len[node := len[m] - 1]; var f' := f - {n, m} + {node};
            Feasible(f', u, r) && Cost(f', w, r) + w[node] == Cost(f, w, len)
  {
    var d, k := len[m], |len|;
    var r, g := len[node := d - 1], f - {n} - {m};
    SumRemove(f, n, WtOf(u, len), k);
    SumRemove(f - {n}, m, WtOf(u, len), k);
    SumRemove(f, n, CostOf(w, len), k);
    SumRemove(f - {n}, m, CostOf(w, len), k);
    SumCongr(g, g, WtOf(u, len), WtOf(u, r), k);
    SumCongr(g, g, CostOf(w, len), CostOf(w, r), k);
    SumAdd(g, node, WtOf(u, r), k);
    SumAdd(g, node, CostOf(w, r), k);
    assert g + {node} == f - {n, m} + {node};
    assert w[node] * (d - 1) == w[n] * d + w[m] * d - w[node] by { MulSum(w[n], w[m], d); }
  }

  /** Merging the two lightest roots loses nothing: any lengths for the roots before give lengths
      for the roots after that cost less by the weight of the new node. */
  lemma MergeLosesNothing(f: set<nat>, u: nat, w: seq<nat>, len: seq<nat>, n: nat, m: nat,
                          node: nat) returns (r: seq<nat>)
    requires Feasible(f, u, len) && |w| == |len| && TwoLightest(f, w, n, m)
    requires node < |len| && node !in f && w[node] == w[n] + w[m]
    ensures |r| == |len| && Feasible(f - {n, m} + {node}, u, r)
    ensures Cost(f - {n, m} + {node}, w, r) + w[node] <= Cost(f, w, len)
  {
    hide Feasible, Cost, KraftSum, Sum;
    var l1 := LightestLongest(f, u, w, len, n, m);
    Shorten(f, u, w, l1, n, m);
    var l2 := l1[n := l1[m]];
    BothNonzero(f, u, l2, n, m);
    Father(f, u, w, l2, n, m, node);
    r := l2[node := l2[m] - 1];
  }

  /** The merges are Huffman's: each takes the two lightest roots, and sums their weights. */
  ghost predicate Greedy(leaves: set<nat>, ms: seq<Pair>, elems: nat, w: seq<nat>) {
    ValidMerges(leaves, ms, elems) && elems + |ms| <= |w| &&
    forall i :: 0 <= i < |ms| ==>
      TwoLightest(Forest(leaves, ms, elems, i), w, ms[i].n, ms[i].m) &&
      w[elems + i] == w[ms[i].n] + w[ms[i].m]
  }

  /** The weights of the nodes that the first i merges made. */
  ghost function MergeCost(w: seq<nat>, elems: nat, i: nat): nat
    requires elems + i <= |w|
  {
    if i == 0 then 0 else MergeCost(w, elems, i - 1) + w[elems + i - 1]
  }

  lemma NoMerges(leaves: set<nat>, ms: seq<Pair>, elems: nat, w: seq<nat>)
    requires elems <= |w|
    ensures Forest(leaves, ms, elems, 0) == leaves && MergeCost(w, elems, 0) == 0
  {
  }

  lemma MergeCostNext(w: seq<nat>, elems: nat, i: nat)
    requires elems + i + 1 <= |w|
    ensures MergeCost(w, elems, i + 1) == MergeCost(w, elems, i) + w[elems + i]
  {
  }

  /** No prefix code costs less than the merges do. */
  lemma {:induction false} NoCheaper(leaves: set<nat>, ms: seq<Pair>, elems: nat, w: seq<nat>, u: nat, len: seq<nat>,
                                     i: nat)
    returns (r: seq<nat>)
    requires Greedy(leaves, ms, elems, w) && i <= |ms| && |len| == |w| && Feasible(leaves, u, len)
    ensures |r| == |w| && Feasible(Forest(leaves, ms, elems, i), u, r)
    ensures Cost(Forest(leaves, ms, elems, i), w, r) + MergeCost(w, elems, i) <= Cost(leaves, w, len)
  {
    hide Feasible, Cost, KraftSum, Sum, TwoLightest, Forest, MergeCost;
    if i == 0 {
      r := len;
      NoMerges(leaves, ms, elems, w);
    } else {
      ForestNext(leaves, ms, elems, i - 1);
      MergeCostNext(w, elems, i - 1);
      var l := NoCheaper(leaves, ms, elems, w, u, len, i - 1);
      ForestBound(leaves, ms, elems, i - 1);
      r := MergeLosesNothing(Forest(leaves, ms, elems, i - 1), u, w, l, ms[i - 1].n, ms[i - 1].m, elems + i - 1);
    }
  }

  // ----- from the root down -----

  /** How many of the roots f have length l. */
  ghost function CountLen(f: set<nat>, len: seq<nat>, l: nat): int { Sum(f, IsLen(len, l), |len|) }

  function IsLen(len: seq<nat>, l: nat): nat -> int { (x: nat) => if x < |len| && len[x] == l then 1 else 0 }

  /** Give the sons of node their length: one more than their father's, but at most max. */
  function Lowered(len: seq<nat>, node: nat, n: nat, m: nat, max: nat): seq<nat>
    requires node < |len| && n < |len| && m < |len|
  {
    var b := if len[node] + 1 > max then max else len[node] + 1;
    len[n := b][m := b]
  }

  /** What splitting a root into its two sons does to any sum. */
  lemma SplitSum(f: set<nat>, g: nat -> int, h: nat -> int, node: nat, n: nat, m: nat, k: nat)
    requires node in f && n !in f && m !in f && n != m && n < k && m < k && node < k
    requires forall x :: x in f ==> g(x) == h(x)
    ensures Sum(f - {node} + {n, m}, h, k) == Sum(f, g, k) - g(node) + h(n) + h(m)
  {
    SumCongr(f, f, g, h, k);
    SumRemove(f, node, h, k);
    SumAdd(f - {node}, n, h, k);
    SumAdd(f - {node} + {n}, m, h, k);
    assert f - {node} + {n} + {m} == f - {node} + {n, m};
  }

  /** The Kraft sum stays the same, until lengths are cut off at max: then it grows by one unit of
      2^-max for each father split, and so does the number of roots of length max. */
  lemma SplitKraft(f: set<nat>, len: seq<nat>, u: nat, max: nat, node: nat, n: nat, m: nat)
    requires node in f && n !in f && m !in f && n != m && n < |len| && m < |len| && node < |len|
    requires len[node] <= max <= u && max > 0
    ensures var r := Lowered(len, node, n, m, max); var f' := f - {node} + {n, m};
            KraftSum(f', u, r) == KraftSum(f, u, len) + if len[node] == max then Wt(u, max) else 0
    ensures var r := Lowered(len, node, n, m, max); var f' := f - {node} + {n, m};
            if len[node] == max then CountLen(f', r, max) == CountLen(f, len, max) + 1
            else CountLen(f', r, max) >= CountLen(f, len, max)
  {
    var r, k := Lowered(len, node, n, m, max), |len|;
    SplitSum(f, WtOf(u, len), WtOf(u, r), node, n, m, k);
    SplitSum(f, IsLen(len, max), IsLen(r, max), node, n, m, k);
    if len[node] < max { assert Wt(u, len[node]) == 2 * Wt(u, len[node] + 1); }
  }

  /** Splitting a root below max adds its weight to the cost. */
  lemma SplitCost(f: set<nat>, w: seq<nat>, len: seq<nat>, max: nat, node: nat, n: nat, m: nat)
    requires node in f && n !in f && m !in f && n != m && n < |len| && m < |len| && node < |len| && |w| == |len|
    requires len[node] < max && w[node] == w[n] + w[m]
    ensures Cost(f - {node} + {n, m}, w, Lowered(len, node, n, m, max)) == Cost(f, w, len) + w[node]
  {
    var r, k := Lowered(len, node, n, m, max), |len|;
    SplitSum(f, CostOf(w, len), CostOf(w, r), node, n, m, k);
    MulSum(w[n], w[m], len[node] + 1);
    assert w[node] * (len[node] + 1) == w[node] * len[node] + w[node];
  }
}
