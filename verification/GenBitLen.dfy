/** gen_bitlen of trees.c: code lengths from the tree of merges, cut off at the longest length
    allowed, and the repair that makes the cut-off lengths a complete code again. */
module GenBitLen {
  import opened Bits
  import opened Canonical
  import opened LengthRepair
  import opened HuffTree
  import opened MergeTree

  /** static_tree_desc: the lengths of the static code (none: empty), the extra bits of the symbols
      from base on, the number of symbols and the longest code length. */
  datatype TreeDesc = TreeDesc(stree: seq<nat>, extra: seq<nat>, base: nat, elems: nat, maxLength: nat)

  /** Extra bits that follow the code of symbol n. */
  function XBits(d: TreeDesc, n: nat): nat {
    if d.base <= n < d.base + |d.extra| then d.extra[n - d.base] else 0
  }

  /** Length of symbol n's static code; nothing is charged where there is none. */
  function StaticLen(d: TreeDesc, n: nat): nat {
    if n < |d.stree| then d.stree[n] else 0
  }

  predicate ValidDesc(d: TreeDesc) {
    3 <= d.elems <= 286 && d.elems <= d.base + |d.extra| && 1 <= d.maxLength <= MAXBITS &&
    d.elems <= Pow2(d.maxLength) &&
    (d.stree != [] ==> d.elems <= |d.stree|) && forall n: nat :: n <= 2 ==> XBits(d, n) == 0
  }

  /** Bits that the occurrences of a symbol take. */
  function OptOf(d: TreeDesc, w: seq<nat>, len: seq<nat>): nat -> int {
    (x: nat) => if x < |w| && x < |len| then w[x] * (len[x] + XBits(d, x)) else 0
  }

  /** The same in the static code. */
  function StaticOf(d: TreeDesc, w: seq<nat>): nat -> int {
    (x: nat) => if x < |w| && d.stree != [] then w[x] * (StaticLen(d, x) + XBits(d, x)) else 0
  }

  // ----- statistics of lengths -----

  /** How many of the members of f below n have each length. */
  ghost function Tally(f: set<nat>, len: seq<nat>, n: nat): (t: seq<nat>)
    ensures |t| == MAXBITS + 1
  {
    seq(MAXBITS + 1, b requires 0 <= b => CountBelow(f, len, b, n))
  }

  ghost function CountBelow(f: set<nat>, len: seq<nat>, b: nat, n: nat): nat {
    SumNonneg(f, len, b, n); Sum(f, IsLen(len, b), n)
  }

  lemma {:induction false} SumNonneg(f: set<nat>, len: seq<nat>, b: nat, n: nat)
    ensures Sum(f, IsLen(len, b), n) >= 0
  {
    if n > 0 { SumNonneg(f, len, b, n - 1); }
  }

  /** Members of f below n. */
  ghost function Below(f: set<nat>, n: nat): set<nat> { set x | x in f && x < n }

  lemma TallyNext(f: set<nat>, len: seq<nat>, n: nat)
    requires n < |len| && (n in f ==> len[n] <= MAXBITS)
    ensures var t := Tally(f, len, n);
            Tally(f, len, n + 1) == if n in f then t[len[n] := t[len[n]] + 1] else t
    ensures Below(f, n + 1) == Below(f, n) + (if n in f then {n} else {}) && n !in Below(f, n)
    ensures |Below(f, n + 1)| == |Below(f, n)| + if n in f then 1 else 0
  {
    var t := Tally(f, len, n);
    assert Below(f, n + 1) == Below(f, n) + if n in f then {n} else {};
    if n in f {
      assert Tally(f, len, n + 1) == t[len[n] := t[len[n]] + 1];
    } else {
      assert Tally(f, len, n + 1) == t;
    }
  }

  lemma SumNext(f: set<nat>, g: nat -> int, n: nat)
    ensures Sum(f, g, n + 1) == Sum(f, g, n) + if n in f then g(n) else 0
  {
  }

  /** Kraft sum and size, from the statistics. */
  lemma {:induction false} TallyKraft(f: set<nat>, len: seq<nat>, n: nat)
    requires n <= |len| && forall x :: x in f && x < n ==> 1 <= len[x] <= MAXBITS
    ensures BlKraft(Tally(f, len, n), MAXBITS) == Sum(f, WtOf(MAXBITS, len), n)
    ensures BlTotal(Tally(f, len, n), MAXBITS) == |Below(f, n)|
  {
    hide BlKraft, BlTotal, Shl, Pow2, Tally, Sum, Below;
    if n == 0 {
      TallyNone(f, len);
    } else {
      TallyKraft(f, len, n - 1);
      TallyNext(f, len, n - 1);
      SumNext(f, WtOf(MAXBITS, len), n - 1);
      if n - 1 in f {
        var t, l := Tally(f, len, n - 1), len[n - 1];
        BlUpdate(t, l, t[l] + 1, MAXBITS);
        ShlAdd(t[l], 1, MAXBITS - l);
        ShlOne(MAXBITS - l);
      }
    }
  }

  lemma TallyNone(f: set<nat>, len: seq<nat>)
    ensures BlKraft(Tally(f, len, 0), MAXBITS) == Sum(f, WtOf(MAXBITS, len), 0)
    ensures BlTotal(Tally(f, len, 0), MAXBITS) == |Below(f, 0)|
  {
    hide BlKraft, BlTotal;
    BlZero(Tally(f, len, 0), MAXBITS);
    assert Below(f, 0) == {};
  }

  // ----- first pass -----

  /** Adding one symbol to the statistics. */
  lemma TallyAdd(g: set<nat>, x: nat, len: seq<nat>, len': seq<nat>, n: nat)
    requires x !in g && x < n && x < |len| == |len'| && len'[x] <= MAXBITS && len' == len[x := len'[x]]
    ensures var t := Tally(g, len, n); Tally(g + {x}, len', n) == t[len'[x] := t[len'[x]] + 1]
  {
    var t, l := Tally(g, len, n), len'[x];
    var r := t[l := t[l] + 1];
    forall b | 0 <= b <= MAXBITS ensures Tally(g + {x}, len', n)[b] == r[b] {
      SumAdd(g, x, IsLen(len', b), n);
      SumCongr(g, g, IsLen(len, b), IsLen(len', b), n);
    }
  }

  /** The symbols g have been counted and charged for. */
  ghost predicate Charged(g: set<nat>, dl: seq<nat>, bl: seq<nat>, opt: int, stat: int, d: TreeDesc, w: seq<nat>) {
    bl == Tally(g, dl, |dl|) && opt == Sum(g, OptOf(d, w, dl), |dl|) && stat == Sum(g, StaticOf(d, w), |dl|)
  }

  lemma ChargeMore(g: set<nat>, x: nat, dl: seq<nat>, b: nat, bl: seq<nat>, opt: int, stat: int, d: TreeDesc,
                   w: seq<nat>)
    requires Charged(g, dl, bl, opt, stat, d, w) && x !in g && x < |dl| && |w| >= |dl| && b <= MAXBITS
    ensures Charged(g + {x}, dl[x := b], bl[b := bl[b] + 1], opt + w[x] * (b + XBits(d, x)),
                    stat + (if d.stree != [] then w[x] * (StaticLen(d, x) + XBits(d, x)) else 0), d, w)
  {
    hide Tally, Sum, XBits, StaticLen;
    var dl' := dl[x := b];
    TallyAdd(g, x, dl, dl', |dl|);
    SumAdd(g, x, OptOf(d, w, dl'), |dl|);
    SumCongr(g, g, OptOf(d, w, dl), OptOf(d, w, dl'), |dl|);
    SumAdd(g, x, StaticOf(d, w), |dl|);
  }

  lemma ChargeKept(g: set<nat>, x: nat, dl: seq<nat>, b: nat, bl: seq<nat>, opt: int, stat: int, d: TreeDesc,
                   w: seq<nat>)
    requires Charged(g, dl, bl, opt, stat, d, w) && x !in g && x < |dl|
    ensures Charged(g, dl[x := b], bl, opt, stat, d, w)
  {
    hide XBits, StaticLen;
    var dl' := dl[x := b];
    forall l | 0 <= l <= MAXBITS ensures Tally(g, dl, |dl|)[l] == Tally(g, dl', |dl|)[l] {
      SumCongr(g, g, IsLen(dl, l), IsLen(dl', l), |dl|);
    }
    SumCongr(g, g, OptOf(d, w, dl), OptOf(d, w, dl'), |dl|);
  }

  function Min(a: nat, b: nat): nat { if a <= b then a else b }

  /** Node x is one longer than its father, but not longer than allowed. */
  method SetLength(x: nat, dl: array<nat>, fc: array<nat>, bl: array<nat>, d: TreeDesc, maxCode: int, cut: nat,
                   opt: int, stat: int,
                   ghost g: set<nat>, ghost o0: int, ghost s0: int)
    returns (overflow: nat, optLen: int, staticLen: int)
    requires dl != fc && bl != dl && bl != fc && dl.Length == fc.Length && ValidDesc(d) && maxCode < d.elems
    requires x < dl.Length && dl[x] < dl.Length && x !in g && bl.Length == MAXBITS + 1
    requires Charged(g, dl[..], bl[..], opt - o0, stat - s0, d, fc[..])
    modifies dl, bl
    ensures var up := old(dl[dl[x]]) + 1;
            overflow == cut + (if up > d.maxLength then 1 else 0) && dl[..] == old(dl[..])[x := Min(up, d.maxLength)]
    ensures Charged(if x <= maxCode then g + {x} else g, dl[..], bl[..], optLen - o0, staticLen - s0, d, fc[..])
  {
    hide Charged, XBits, StaticLen;
    overflow, optLen, staticLen := cut, opt, stat;
    ghost var l: seq<nat>, t: seq<nat> := dl[..], bl[..];
    var bits := dl[dl[x]] + 1;
    if bits > d.maxLength {
      bits := d.maxLength;
      overflow := overflow + 1;
    }
    dl[x] := bits;
    assert dl[..] == l[x := bits];
    if x > maxCode {
      ChargeKept(g, x, l, bits, t, opt - o0, stat - s0, d, fc[..]);
    } else {
      ChargeMore(g, x, l, bits, t, opt - o0, stat - s0, d, fc[..]);
      bl[bits] := bl[bits] + 1;
      assert bl[..] == t[bits := t[bits] + 1];
      var f := fc[x];
      optLen := optLen + f * (bits + XBits(d, x));
      if d.stree != [] { staticLen := staticLen + f * (StaticLen(d, x) + XBits(d, x)); }
    }
  }

  /** The symbols among the roots f. */
  ghost function LeafPart(f: set<nat>, elems: nat): set<nat> { set x | x in f && x < elems }

  lemma LeafSplit(f: set<nat>, f': set<nat>, node: nat, n: nat, m: nat, elems: nat)
    requires f' == f - {n, m} + {node} && n in f && m in f && node !in f && node >= elems
    ensures f == f' - {node} + {n, m} && n !in f' && m !in f'
    ensures LeafPart(f, elems) == LeafPart(f', elems) + (if m < elems then {m} else {}) +
            (if n < elems then {n} else {})
  {
  }

  /** The lengths of the roots: none too long, and 0 only for the one root of all. */
  ghost predicate Lens(f: set<nat>, dl: seq<nat>, max: nat, root: nat) {
    forall x :: x in f ==> x < |dl| && dl[x] <= max && (x != root ==> dl[x] >= 1)
  }

  /** The lengths of the roots fill the code space, and e units of 2^-max more. */
  ghost predicate Full(f: set<nat>, dl: seq<nat>, max: nat, e: nat) {
    max <= MAXBITS && KraftSum(f, MAXBITS, dl) == Pow2(MAXBITS) + Shl(e, MAXBITS - max) &&
    (e > 0 ==> CountLen(f, dl, max) >= e + 1)
  }

  lemma {:induction false} CountsOne(f: set<nat>, len: seq<nat>, l: nat, x: nat, n: nat)
    requires x in f && x < n <= |len| && len[x] == l
    ensures Sum(f, IsLen(len, l), n) >= 1
  {
    SumNonneg(f, len, l, n - 1);
    if x < n - 1 { CountsOne(f, len, l, x, n - 1); }
  }

  lemma FullSplit(f: set<nat>, dl: seq<nat>, max: nat, e: nat, node: nat, n: nat, m: nat)
    requires Full(f, dl, max, e) && node in f && n !in f && m !in f && n != m && node != n && node != m
    requires n < |dl| && m < |dl| && node < |dl| && dl[node] <= max && max > 0
    ensures Full(f - {node} + {n, m}, Lowered(dl, node, n, m, max), max, if dl[node] == max then e + 1 else e)
  {
    hide KraftSum, Sum, Shl, Pow2;
    SplitKraft(f, dl, MAXBITS, max, node, n, m);
    if dl[node] == max {
      ShlAdd(e, 1, MAXBITS - max);
      ShlOne(MAXBITS - max);
      CountsOne(f, dl, max, node, |dl|);
    }
  }

  /** What the lengths cost so far, as long as nothing was cut off. */
  ghost predicate Paid(f: set<nat>, dl: seq<nat>, w: seq<nat>, elems: nat, j: nat, k: nat) {
    elems + j <= |w| && elems + k <= |w| && Cost(f, w, dl) + MergeCost(w, elems, j) == MergeCost(w, elems, k)
  }

  /** The lengths of the roots are their depths, cut off at max; e tells whether any was. */
  ghost predicate Depths(f: set<nat>, dl: seq<nat>, ms: seq<Pair>, elems: nat, j: nat, max: nat, e: nat) {
    (forall x :: x in f ==> x < |dl| && dl[x] == Min(Depth(ms, elems, x, j), max)) &&
    (e > 0 <==> exists x :: x in f && Depth(ms, elems, x, j) > max)
  }

  lemma DepthsSplit(f: set<nat>, dl: seq<nat>, ms: seq<Pair>, elems: nat, j: nat, max: nat, e: nat)
    requires j < |ms| && Depths(f, dl, ms, elems, j + 1, max, e) && elems + j in f && ms[j].n !in f && ms[j].m !in f
    requires ms[j].n < |dl| && ms[j].m < |dl| && ms[j].n != ms[j].m && elems + j != ms[j].n && elems + j != ms[j].m
    requires max > 0
    ensures Depths(f - {elems + j} + {ms[j].n, ms[j].m}, Lowered(dl, elems + j, ms[j].n, ms[j].m, max), ms, elems, j,
                   max,
                   if dl[elems + j] == max then e + 1 else e)
  {
    var n, m, node := ms[j].n, ms[j].m, elems + j;
    var f' := f - {node} + {n, m};
    assert Depth(ms, elems, n, j) == Depth(ms, elems, m, j) == 1 + Depth(ms, elems, node, j + 1);
    assert forall x :: x in f && x != node ==> Depth(ms, elems, x, j) == Depth(ms, elems, x, j + 1);
    if dl[node] == max {
      assert n in f' && Depth(ms, elems, n, j) > max;
    } else if e > 0 {
      var x :| x in f && Depth(ms, elems, x, j + 1) > max;
      assert x in f' && Depth(ms, elems, x, j) > max;
    }
  }

  /** The first pass, when the sons of the merges from j on have their lengths. */
  ghost predicate Pass(dl: seq<nat>, leaves: set<nat>, ms: seq<Pair>, elems: nat, j: nat, max: nat, e: nat,
                       w: seq<nat>, l0: seq<nat>) {
    j <= |ms| && |ms| > 0 && |w| == |dl| == |l0| &&
    Dads(dl, ms, elems, j) &&
    (forall x :: 0 <= x < elems && x < |dl| && x !in leaves ==> dl[x] == l0[x]) &&
    var f := Forest(leaves, ms, elems, j);
    Lens(f, dl, max, elems + |ms| - 1) && Full(f, dl, max, e) && Depths(f, dl, ms, elems, j, max, e) &&
    (e == 0 && Greedy(leaves, ms, elems, w) ==> Paid(f, dl, w, elems, j, |ms|))
  }

  lemma DadsSplit(dl: seq<nat>, leaves: set<nat>, ms: seq<Pair>, elems: nat, j: nat, b: nat)
    requires ValidMerges(leaves, ms, elems) && Dads(dl, ms, elems, j + 1) && j < |ms|
    requires ms[j].n < |dl| && ms[j].m < |dl|
    ensures Dads(dl[ms[j].n := b][ms[j].m := b], ms, elems, j)
  {
    hide ValidMerges, Forest;
    MergedBelow(leaves, ms, elems, j);
    forall i | 0 <= i < j
      ensures ms[i].n !in Forest(leaves, ms, elems, j) && ms[i].m !in Forest(leaves, ms, elems, j)
    {
      NotTaken(leaves, ms, elems, i, j);
    }
  }

  lemma PaidSplit(f: set<nat>, dl: seq<nat>, w: seq<nat>, elems: nat, j: nat, k: nat, max: nat, p: Pair)
    requires Paid(f, dl, w, elems, j + 1, k) && |w| == |dl| && elems + j < |w|
    requires elems + j in f && p.n !in f && p.m !in f && p.n != p.m && p.n < |dl| && p.m < |dl|
    requires w[elems + j] == w[p.n] + w[p.m] && dl[elems + j] < max
    ensures Paid(f - {elems + j} + {p.n, p.m}, Lowered(dl, elems + j, p.n, p.m, max), w, elems, j, k)
  {
    hide MergeCost, Cost;
    SplitCost(f, w, dl, max, elems + j, p.n, p.m);
    MergeCostNext(w, elems, j);
  }

  /** One more pair of sons has its lengths. */
  lemma PassStep(dl: seq<nat>, leaves: set<nat>, ms: seq<Pair>, elems: nat, j: nat, max: nat, e: nat, w: seq<nat>,
                 l0: seq<nat>)
    requires ValidMerges(leaves, ms, elems) && j < |ms| && elems + |ms| <= |dl| && 0 < max
    requires Pass(dl, leaves, ms, elems, j + 1, max, e, w, l0)
    ensures var n := ms[j].n; var m := ms[j].m; var node := elems + j;
            n < |dl| && m < |dl| && n != m && node != n && node != m && dl[n] == node && dl[m] == node &&
            dl[node] <= max && n !in Forest(leaves, ms, elems, j + 1) && m !in Forest(leaves, ms, elems, j + 1) &&
            Pass(Lowered(dl, node, n, m, max), leaves, ms, elems, j, max, if dl[node] == max then e + 1 else e, w, l0)
  {
    hide ValidMerges, Forest, Full, Paid, Greedy, Depths;
    var n, m, node := ms[j].n, ms[j].m, elems + j;
    MergedBelow(leaves, ms, elems, j);
    ForestBound(leaves, ms, elems, j);
    ForestBound(leaves, ms, elems, j + 1);
    ForestNext(leaves, ms, elems, j);
    var f, f' := Forest(leaves, ms, elems, j), Forest(leaves, ms, elems, j + 1);
    assert node in f';
    assert n !in f' && m !in f';
    assert f == f' - {node} + {n, m};
    FullSplit(f', dl, max, e, node, n, m);
    DepthsSplit(f', dl, ms, elems, j, max, e);
    DadsSplit(dl, leaves, ms, elems, j, Min(dl[node] + 1, max));
    if e == 0 && dl[node] < max && Greedy(leaves, ms, elems, w) {
      GreedySum(leaves, ms, elems, w, j);
      PaidSplit(f', dl, w, elems, j, |ms|, max, ms[j]);
    }
  }

  lemma GreedySum(leaves: set<nat>, ms: seq<Pair>, elems: nat, w: seq<nat>, j: nat)
    requires Greedy(leaves, ms, elems, w) && j < |ms|
    ensures ms[j].n < |w| && ms[j].m < |w| && w[elems + j] == w[ms[j].n] + w[ms[j].m]
  {
  }

  lemma {:induction false} SumSingle(x: nat, g: nat -> int, n: nat)
    ensures Sum({x}, g, n) == if x < n then g(x) else 0
  {
    if n > 0 { SumSingle(x, g, n - 1); }
  }

  /** The root alone. */
  lemma PassStart(dl: seq<nat>, leaves: set<nat>, ms: seq<Pair>, elems: nat, max: nat, w: seq<nat>)
    requires ValidMerges(leaves, ms, elems) && |ms| > 0 && elems + |ms| <= |dl| == |w| && 0 < max <= MAXBITS
    requires Dads(dl, ms, elems, |ms|) && Forest(leaves, ms, elems, |ms|) == {elems + |ms| - 1}
    ensures Pass(dl[elems + |ms| - 1 := 0], leaves, ms, elems, |ms|, max, 0, w, dl)
  {
    hide ValidMerges, Forest, Pow2;
    var root := elems + |ms| - 1;
    forall i | 0 <= i < |ms| ensures ms[i].n != root && ms[i].m != root {
      NotTaken(leaves, ms, elems, i, |ms|);
    }
    var r := dl[root := 0];
    SumSingle(root, WtOf(MAXBITS, r), |dl|);
    SumSingle(root, CostOf(w, r), |dl|);
    ShlZero(MAXBITS - max);
  }

  /** The sons of merge j get their lengths. */
  method PairLengths(dl: array<nat>, fc: array<nat>, bl: array<nat>, d: TreeDesc, maxCode: int, cut: nat, opt: int,
                     stat: int,
                     n: nat, m: nat, ghost leaves: set<nat>, ghost ms: seq<Pair>, ghost j: nat, ghost e: nat,
                     ghost l0: seq<nat>, ghost o0: int, ghost s0: int)
    returns (overflow: nat, optLen: int, staticLen: int, ghost e': nat)
    requires dl != fc && bl != dl && bl != fc && dl.Length == fc.Length && ValidDesc(d) && maxCode < d.elems
    requires bl.Length == MAXBITS + 1
    requires ValidMerges(leaves, ms, d.elems) && j < |ms| && d.elems + |ms| <= dl.Length && n == ms[j].n && m == ms[j].m
    requires Greatest(leaves, maxCode) && cut == 2 * e
    requires Pass(dl[..], leaves, ms, d.elems, j + 1, d.maxLength, e, fc[..], l0)
    requires Charged(LeafPart(Forest(leaves, ms, d.elems, j + 1), d.elems), dl[..], bl[..], opt - o0, stat - s0, d,
                     fc[..])
    modifies dl, bl
    ensures overflow == 2 * e' && Pass(dl[..], leaves, ms, d.elems, j, d.maxLength, e', fc[..], l0)
    ensures Charged(LeafPart(Forest(leaves, ms, d.elems, j), d.elems), dl[..], bl[..], optLen - o0, staticLen - s0, d,
                    fc[..])
  {
    hide Charged, XBits, StaticLen, Pass, ValidMerges, Forest;
    ghost var l: seq<nat>, g, node := dl[..], LeafPart(Forest(leaves, ms, d.elems, j + 1), d.elems), d.elems + j;
    PassStep(l, leaves, ms, d.elems, j, d.maxLength, e, fc[..], l0);
    MergedBelow(leaves, ms, d.elems, j);
    ForestBound(leaves, ms, d.elems, j);
    ForestNext(leaves, ms, d.elems, j);
    LeafSplit(Forest(leaves, ms, d.elems, j), Forest(leaves, ms, d.elems, j + 1), node, n, m, d.elems);
    assert n < d.elems <==> n <= maxCode;
    assert m < d.elems <==> m <= maxCode;
    overflow, optLen, staticLen := SetLength(m, dl, fc, bl, d, maxCode, cut, opt, stat, g, o0, s0);
    ghost var g1 := if m <= maxCode then g + {m} else g;
    overflow, optLen, staticLen := SetLength(n, dl, fc, bl, d, maxCode, overflow, optLen, staticLen, g1, o0, s0);
    assert dl[..] == Lowered(l, node, n, m, d.maxLength);
    e' := if l[node] == d.maxLength then e + 1 else e;
    assert LeafPart(Forest(leaves, ms, d.elems, j), d.elems) == if n <= maxCode then g1 + {n} else g1;
  }

  lemma {:induction false} ChargedNone(dl: seq<nat>, bl: seq<nat>, d: TreeDesc, w: seq<nat>)
    requires |bl| == MAXBITS + 1 && forall b :: 0 <= b <= MAXBITS ==> bl[b] == 0
    ensures Charged({}, dl, bl, 0, 0, d, w)
  {
    forall b | 0 <= b <= MAXBITS ensures Tally({}, dl, |dl|)[b] == 0 { SumEmpty(IsLen(dl, b), |dl|); }
    SumEmpty(OptOf(d, w, dl), |dl|);
    SumEmpty(StaticOf(d, w), |dl|);
  }

  /** The tree of merges that the heap, the fathers and the root describe. */
  ghost predicate TreeOf(h: seq<nat>, heapMax: nat, fc: seq<nat>, dl: seq<nat>, leaves: set<nat>, ms: seq<Pair>,
                         elems: nat, maxCode: int) {
    Merged(h, fc, dl, leaves, ms, elems) && |ms| > 0 && heapMax == HEAP_SIZE - 2 * |ms| - 1 &&
    h[heapMax] == elems + |ms| - 1 && Forest(leaves, ms, elems, |ms|) == {elems + |ms| - 1} &&
    Greatest(leaves, maxCode) && maxCode < elems
  }

  /** The two sons of merge j stand side by side above the heap. */
  lemma PairAt(h: seq<nat>, heapMax: nat, fc: seq<nat>, dl: seq<nat>, leaves: set<nat>, ms: seq<Pair>, elems: nat,
               maxCode: int, j: nat)
    requires TreeOf(h, heapMax, fc, dl, leaves, ms, elems, maxCode) && j < |ms|
    ensures |h| == HEAP_SIZE > 2 * j + 1 && h[HEAP_SIZE - 2 - 2 * j] == ms[j].m && h[HEAP_SIZE - 1 - 2 * j] == ms[j].n
    ensures ValidMerges(leaves, ms, elems) && elems + |ms| <= |fc| == |dl| && Greatest(leaves, maxCode)
  {
    hide ValidMerges, Forest, Greatest;
    RecordAt(h, ms, j);
  }

  lemma RecordAt(h: seq<nat>, ms: seq<Pair>, j: nat)
    requires Recorded(h, ms) && j < |ms|
    ensures 2 * |ms| <= |h| && h[|h| - 1 - 2 * j] == ms[j].n && h[|h| - 2 - 2 * j] == ms[j].m
  {
  }

  lemma FirstStart(h: seq<nat>, heapMax: nat, fc: seq<nat>, dl: seq<nat>, leaves: set<nat>, ms: seq<Pair>, d: TreeDesc,
                   maxCode: int)
    requires TreeOf(h, heapMax, fc, dl, leaves, ms, d.elems, maxCode) && ValidDesc(d)
    ensures var root := d.elems + |ms| - 1;
            root < |dl| && Pass(dl[root := 0], leaves, ms, d.elems, |ms|, d.maxLength, 0, fc, dl)
    ensures LeafPart(Forest(leaves, ms, d.elems, |ms|), d.elems) == {}
    ensures LeafPart(Forest(leaves, ms, d.elems, 0), d.elems) == leaves
  {
    hide Forest, Pass, ValidDesc;
    var root := d.elems + |ms| - 1;
    DescFacts(d);
    PassStart(dl, leaves, ms, d.elems, d.maxLength, fc);
    ForestStart(leaves, ms, d.elems);
    ForestBound(leaves, ms, d.elems, 0);
  }

  lemma DescFacts(d: TreeDesc)
    requires ValidDesc(d)
    ensures 2 <= d.maxLength <= MAXBITS && 3 <= d.elems <= Pow2(d.maxLength) && d.elems <= 286
  {
    assert Pow2(1) == 2;
  }

  /** The first pass: a length for every node, father before sons. */
  method FirstPass(heap: array<nat>, heapMax: nat, dl: array<nat>, fc: array<nat>, bl: array<nat>, d: TreeDesc,
                   maxCode: int,
                   opt: int, stat: int, ghost leaves: set<nat>, ghost ms: seq<Pair>)
    returns (overflow: nat, optLen: int, staticLen: int, ghost e: nat)
    requires dl != fc && bl != dl && bl != fc && heap != dl && heap != bl && ValidDesc(d) && bl.Length == MAXBITS + 1
    requires TreeOf(heap[..], heapMax, fc[..], dl[..], leaves, ms, d.elems, maxCode)
    modifies dl, bl
    ensures overflow == 2 * e && Pass(dl[..], leaves, ms, d.elems, 0, d.maxLength, e, fc[..], old(dl[..]))
    ensures Charged(leaves, dl[..], bl[..], optLen - opt, staticLen - stat, d, fc[..])
  {
    hide Charged, Pass, Forest, ValidDesc, Merged, ValidMerges, Greatest;
    ghost var l0: seq<nat>, h0: seq<nat>, j := dl[..], heap[..], |ms|;
    FirstStart(h0, heapMax, fc[..], l0, leaves, ms, d, maxCode);
    PairAt(h0, heapMax, fc[..], l0, leaves, ms, d.elems, maxCode, 0);
    for bits := 0 to MAXBITS + 1
      invariant forall b :: 0 <= b < bits ==> bl[b] == 0
      invariant dl[..] == l0
    {
      bl[bits] := 0;
    }
    dl[heap[heapMax]] := 0;
    assert dl[..] == l0[d.elems + |ms| - 1 := 0];
    overflow, optLen, staticLen, e := 0, opt, stat, 0;
    ChargedNone(dl[..], bl[..], d, fc[..]);
    var h := heapMax + 1;
    while h < HEAP_SIZE  // the two sons of one father in each round
      invariant h == HEAP_SIZE - 2 * j && 0 <= j <= |ms| && overflow == 2 * e && h0 == heap[..]
      invariant Pass(dl[..], leaves, ms, d.elems, j, d.maxLength, e, fc[..], l0)
      invariant Charged(LeafPart(Forest(leaves, ms, d.elems, j), d.elems), dl[..], bl[..], optLen - opt,
                        staticLen - stat, d, fc[..])
    {
      PairAt(h0, heapMax, fc[..], l0, leaves, ms, d.elems, maxCode, j - 1);
      overflow, optLen, staticLen, e := PairLengths(dl, fc, bl, d, maxCode, overflow, optLen, staticLen, heap[h + 1],
                                                    heap[h],
                                                    leaves, ms, j - 1, e, l0, opt, stat);
      h := h + 2;
      j := j - 1;
    }
  }

  // ----- second pass -----

  /** Every leaf stands once above the root's place, and nothing else that looks like one. */
  ghost predicate LeavesOnce(h: seq<nat>, lo: nat, leaves: set<nat>, n: nat, maxCode: int) {
    lo <= |h| &&
    (forall i :: lo <= i < |h| ==> h[i] < n && (h[i] <= maxCode <==> h[i] in leaves)) &&
    (forall i, k :: lo <= i < k < |h| ==> h[i] != h[k]) &&
    (forall x :: x in leaves ==> x in h[lo..])
  }

  lemma {:induction false} Taken(leaves: set<nat>, ms: seq<Pair>, elems: nat, i: nat, x: nat) returns (j: nat)
    requires i <= |ms| && x in leaves && x !in Forest(leaves, ms, elems, i)
    ensures j < i && (x == ms[j].n || x == ms[j].m)
  {
    if x !in Forest(leaves, ms, elems, i - 1) { j := Taken(leaves, ms, elems, i - 1, x); } else { j := i - 1; }
  }

  lemma Distinct(leaves: set<nat>, ms: seq<Pair>, elems: nat, i: nat, j: nat)
    requires ValidMerges(leaves, ms, elems) && i < j < |ms|
    ensures ms[i].n != ms[j].n && ms[i].n != ms[j].m && ms[i].m != ms[j].n && ms[i].m != ms[j].m
  {
    hide ValidMerges, Forest;
    NotTaken(leaves, ms, elems, i, j);
    MergedBelow(leaves, ms, elems, j);
  }

  lemma EachOnce(h: seq<nat>, heapMax: nat, fc: seq<nat>, dl: seq<nat>, leaves: set<nat>, ms: seq<Pair>, elems: nat,
                 maxCode: int)
    requires TreeOf(h, heapMax, fc, dl, leaves, ms, elems, maxCode)
    ensures LeavesOnce(h, heapMax + 1, leaves, |dl|, maxCode)
  {
    hide TreeOf, Forest;
    var lo := heapMax + 1;
    TreeShape(h, heapMax, fc, dl, leaves, ms, elems, maxCode);
    forall i | lo <= i < |h| ensures h[i] < |dl| && (h[i] <= maxCode <==> h[i] in leaves) {
      var j := (HEAP_SIZE - 1 - i) / 2;
      PairAt(h, heapMax, fc, dl, leaves, ms, elems, maxCode, j);
      MergedBelow(leaves, ms, elems, j);
      ForestBound(leaves, ms, elems, j);
    }
    forall i, k | lo <= i < k < |h| ensures h[i] != h[k] {
      var a, b := (HEAP_SIZE - 1 - i) / 2, (HEAP_SIZE - 1 - k) / 2;
      PairAt(h, heapMax, fc, dl, leaves, ms, elems, maxCode, a);
      PairAt(h, heapMax, fc, dl, leaves, ms, elems, maxCode, b);
      if a == b { MergedBelow(leaves, ms, elems, a); } else { Distinct(leaves, ms, elems, b, a); }
    }
    forall x | x in leaves ensures x in h[lo..] {
      var j := Taken(leaves, ms, elems, |ms|, x);
      PairAt(h, heapMax, fc, dl, leaves, ms, elems, maxCode, j);
      assert h[lo..][HEAP_SIZE - 1 - 2 * j - lo] == ms[j].n && h[lo..][HEAP_SIZE - 2 - 2 * j - lo] == ms[j].m;
    }
  }

  lemma TreeShape(h: seq<nat>, heapMax: nat, fc: seq<nat>, dl: seq<nat>, leaves: set<nat>, ms: seq<Pair>, elems: nat,
                  maxCode: int)
    requires TreeOf(h, heapMax, fc, dl, leaves, ms, elems, maxCode)
    ensures |h| == HEAP_SIZE && heapMax == HEAP_SIZE - 2 * |ms| - 1 && |ms| > 0 && ValidMerges(leaves, ms, elems)
    ensures Forest(leaves, ms, elems, |ms|) == {elems + |ms| - 1} && Greatest(leaves, maxCode) && maxCode < elems
    ensures elems + |ms| <= |fc| == |dl| && forall x :: x in leaves ==> x < elems
  {
  }

  /** The leaves at or above place h. */
  ghost function From(h: seq<nat>, i: nat, leaves: set<nat>): set<nat>
    requires i <= |h|
  {
    set x | x in leaves && x in h[i..]
  }

  lemma FromNext(h: seq<nat>, lo: nat, i: nat, leaves: set<nat>, n: nat, maxCode: int)
    requires LeavesOnce(h, lo, leaves, n, maxCode) && lo < i <= |h|
    ensures h[i - 1] < n && (h[i - 1] <= maxCode <==> h[i - 1] in leaves) && h[i - 1] !in From(h, i, leaves)
    ensures From(h, i - 1, leaves) == From(h, i, leaves) + if h[i - 1] <= maxCode then {h[i - 1]} else {}
  {
    assert h[i - 1..] == [h[i - 1]] + h[i..];
  }

  /** As long as a leaf is missing, the scan has not come to the end. */
  lemma FromAll(h: seq<nat>, lo: nat, leaves: set<nat>, n: nat, maxCode: int)
    requires LeavesOnce(h, lo, leaves, n, maxCode)
    ensures From(h, lo, leaves) == leaves
  {
  }

  lemma FromNone(h: seq<nat>, leaves: set<nat>)
    ensures From(h, |h|, leaves) == {}
  {
  }

  /** The leaves s have their final lengths: all those longer than bits, and all but n of length bits. */
  ghost predicate Scanned(s: set<nat>, dl: seq<nat>, bl: seq<nat>, bits: nat, n: nat) {
    |bl| == MAXBITS + 1 && bits <= MAXBITS && n <= bl[bits] &&
    |s| + n + BlTotal(bl, bits) - bl[bits] == BlTotal(bl, MAXBITS) &&
    forall b :: 0 <= b <= MAXBITS ==>
      Tally(s, dl, |dl|)[b] == if b > bits then bl[b] else if b == bits then bl[bits] - n else 0
  }

  lemma ScanStart(dl: seq<nat>, bl: seq<nat>, max: nat, total: nat)
    requires Cut(bl, max, 0, total)
    ensures Scanned({}, dl, bl, max, bl[max])
  {
    forall b | 0 <= b <= MAXBITS ensures Tally({}, dl, |dl|)[b] == 0 { SumEmpty(IsLen(dl, b), |dl|); }
    TotalAbove(bl, max, MAXBITS);
  }

  lemma {:induction false} TotalAbove(bl: seq<nat>, max: nat, b: nat)
    requires max <= b < |bl| && forall i :: max < i <= b ==> bl[i] == 0
    ensures BlTotal(bl, b) == BlTotal(bl, max)
    decreases b
  {
    if b > max { TotalAbove(bl, max, b - 1); }
  }

  lemma ScanNext(s: set<nat>, x: nat, dl: seq<nat>, bl: seq<nat>, bits: nat, n: nat)
    requires Scanned(s, dl, bl, bits, n) && n > 0 && x !in s && x < |dl|
    ensures Scanned(s + {x}, dl[x := bits], bl, bits, n - 1)
  {
    hide Tally, BlTotal;
    TallyAdd(s, x, dl, dl[x := bits], |dl|);
  }

  lemma ScanLess(s: set<nat>, dl: seq<nat>, bl: seq<nat>, bits: nat)
    requires Scanned(s, dl, bl, bits, 0) && bits > 0
    ensures Scanned(s, dl, bl, bits - 1, bl[bits - 1])
  {
    hide Tally;
  }

  lemma ScanEnd(s: set<nat>, leaves: set<nat>, dl: seq<nat>, bl: seq<nat>, max: nat)
    requires |bl| > 0 && Scanned(s, dl, bl, 0, bl[0]) && Cut(bl, max, 0, |leaves|) && s <= leaves
    ensures s == leaves && bl == Tally(leaves, dl, |dl|)
  {
    hide Tally;
    if s != leaves {
      var x :| x in leaves && x !in s;
      Sub(s, leaves - {x});
    }
  }

  lemma {:induction false} Sub(s: set<nat>, t: set<nat>)
    requires s <= t
    ensures |s| <= |t|
  {
    assert t == s + (t - s);
  }

  lemma SubLess(s: set<nat>, dl: seq<nat>, bl: seq<nat>, bits: nat, n: nat, max: nat, leaves: set<nat>)
    requires Scanned(s, dl, bl, bits, n) && n > 0 && Cut(bl, max, 0, |leaves|)
    ensures s != leaves
  {
    hide Tally;
    TotalRest(bl, bits);
  }

  lemma {:induction false} TotalRest(bl: seq<nat>, b: nat)
    requires b < |bl| && bl[0] == 0
    ensures BlTotal(bl, b) >= bl[b]
  {
    if b > 0 { TotalRest(bl, b - 1); }
  }

  /** What changing the length of leaf x from old to new adds. */
  lemma Recharge(leaves: set<nat>, x: nat, dl: seq<nat>, b: nat, d: TreeDesc, w: seq<nat>)
    requires x in leaves && x < |dl| && |w| >= |dl|
    ensures Sum(leaves, OptOf(d, w, dl[x := b]), |dl|) == Sum(leaves, OptOf(d, w, dl), |dl|) + (b - dl[x]) * w[x]
  {
    hide XBits;
    SumUpdate(leaves, x, OptOf(d, w, dl), OptOf(d, w, dl[x := b]), |dl|);
    Spread(w[x], b, dl[x], XBits(d, x));
  }

  lemma Spread(w: int, b: int, l: int, x: int)
    ensures w * (b + x) - w * (l + x) == (b - l) * w
  {
  }

  /** The scan has come down to place i, and charged delta for the lengths it changed from l0. */
  ghost predicate Rescanning(h: seq<nat>, lo: nat, i: nat, leaves: set<nat>, dl: seq<nat>, l0: seq<nat>, bl: seq<nat>,
                             bits: nat, n: nat,
                             d: TreeDesc, w: seq<nat>, delta: int) {
    lo <= i <= |h| && |dl| == |l0| <= |w| && Scanned(From(h, i, leaves), dl, bl, bits, n) &&
    (forall x :: 0 <= x < |dl| && x !in leaves ==> dl[x] == l0[x]) &&
    bits <= d.maxLength && (forall x :: x in From(h, i, leaves) ==> x < |dl| && 1 <= dl[x] <= d.maxLength) &&
    delta == Sum(leaves, OptOf(d, w, dl), |dl|) - Sum(leaves, OptOf(d, w, l0), |dl|)
  }

  lemma RescanStart(h: seq<nat>, lo: nat, leaves: set<nat>, dl: seq<nat>, bl: seq<nat>, d: TreeDesc, w: seq<nat>,
                    maxCode: int)
    requires Cut(bl, d.maxLength, 0, |leaves|) && LeavesOnce(h, lo, leaves, |dl|, maxCode) && |dl| <= |w|
    ensures |bl| == MAXBITS + 1 > d.maxLength
    ensures Rescanning(h, lo, |h|, leaves, dl, dl, bl, d.maxLength, bl[d.maxLength], d, w, 0)
  {
    hide Scanned, Sum, From;
    FromNone(h, leaves);
    ScanStart(dl, bl, d.maxLength, |leaves|);
  }

  /** While leaves are missing there is a place above to look at. */
  lemma RescanMore(h: seq<nat>, lo: nat, i: nat, leaves: set<nat>, dl: seq<nat>, l0: seq<nat>, bl: seq<nat>, bits: nat,
                   n: nat,
                   d: TreeDesc, w: seq<nat>, delta: int, maxCode: int)
    requires Rescanning(h, lo, i, leaves, dl, l0, bl, bits, n, d, w, delta) && n > 0
    requires Cut(bl, d.maxLength, 0, |leaves|) && LeavesOnce(h, lo, leaves, |dl|, maxCode)
    ensures lo < i <= |h| && h[i - 1] < |dl| <= |w| && (h[i - 1] <= maxCode <==> h[i - 1] in leaves)
    ensures h[i - 1] !in From(h, i, leaves)
    ensures From(h, i - 1, leaves) == From(h, i, leaves) + if h[i - 1] <= maxCode then {h[i - 1]} else {}
  {
    hide Cut, LeavesOnce, Scanned, Sum, From;
    SubLess(From(h, i, leaves), dl, bl, bits, n, d.maxLength, leaves);
    FromAll(h, lo, leaves, |dl|, maxCode);
    FromNext(h, lo, i, leaves, |dl|, maxCode);
  }

  lemma RescanSkip(h: seq<nat>, lo: nat, i: nat, leaves: set<nat>, dl: seq<nat>, l0: seq<nat>, bl: seq<nat>, bits: nat,
                   n: nat,
                   d: TreeDesc, w: seq<nat>, delta: int)
    requires Rescanning(h, lo, i, leaves, dl, l0, bl, bits, n, d, w, delta)
    requires lo < i && From(h, i - 1, leaves) == From(h, i, leaves) + {}
    ensures Rescanning(h, lo, i - 1, leaves, dl, l0, bl, bits, n, d, w, delta)
  {
    hide Scanned, Sum, From;
    assert From(h, i, leaves) + {} == From(h, i, leaves);
  }

  lemma RescanStep(h: seq<nat>, lo: nat, i: nat, leaves: set<nat>, dl: seq<nat>, l0: seq<nat>, bl: seq<nat>, bits: nat,
                   n: nat,
                   d: TreeDesc, w: seq<nat>, delta: int, m: nat)
    requires Rescanning(h, lo, i, leaves, dl, l0, bl, bits, n, d, w, delta) && n > 0 && bits > 0 && lo < i
    requires m in leaves && m < |dl| && m !in From(h, i, leaves) && From(h, i - 1, leaves) == From(h, i, leaves) + {m}
    ensures m < |w| && Rescanning(h, lo, i - 1, leaves, dl[m := bits], l0, bl, bits, n - 1, d, w,
                                  delta + (bits - dl[m]) * w[m])
  {
    hide Scanned, Sum, From;
    ScanNext(From(h, i, leaves), m, dl, bl, bits, n);
    Recharge(leaves, m, dl, bits, d, w);
  }

  lemma RescanLess(h: seq<nat>, lo: nat, i: nat, leaves: set<nat>, dl: seq<nat>, l0: seq<nat>, bl: seq<nat>, bits: nat,
                   d: TreeDesc, w: seq<nat>, delta: int)
    requires Rescanning(h, lo, i, leaves, dl, l0, bl, bits, 0, d, w, delta) && 0 < bits < |bl|
    ensures Rescanning(h, lo, i, leaves, dl, l0, bl, bits - 1, bl[bits - 1], d, w, delta)
  {
    hide Scanned, Sum, From;
    ScanLess(From(h, i, leaves), dl, bl, bits);
  }

  lemma RescanEnd(h: seq<nat>, lo: nat, i: nat, leaves: set<nat>, dl: seq<nat>, l0: seq<nat>, bl: seq<nat>,
                  d: TreeDesc, w: seq<nat>, delta: int)
    requires |bl| > 0 && Rescanning(h, lo, i, leaves, dl, l0, bl, 0, bl[0], d, w, delta)
    requires Cut(bl, d.maxLength, 0, |leaves|)
    ensures bl == Tally(leaves, dl, |dl|) && |dl| == |l0| <= |w| && lo <= i <= |h| && From(h, i, leaves) == leaves
    ensures forall x :: 0 <= x < |dl| && x !in leaves ==> dl[x] == l0[x]
    ensures forall x :: x in leaves ==> x < |dl| && 1 <= dl[x] <= d.maxLength
    ensures delta == Sum(leaves, OptOf(d, w, dl), |dl|) - Sum(leaves, OptOf(d, w, l0), |dl|)
  {
    hide Scanned, Sum, From, Cut, Tally;
    FromLeaves(h, i, leaves);
    ScanEnd(From(h, i, leaves), leaves, dl, bl, d.maxLength);
  }

  /** The places from i on have been scanned: no leaf there has a longer code than one at a later place, nor
      less than bits. */
  ghost predicate Falling(h: seq<nat>, i: nat, leaves: set<nat>, dl: seq<nat>, bits: nat) {
    (forall k :: i <= k < |h| && h[k] in leaves ==> h[k] < |dl| && dl[h[k]] >= bits) &&
    forall a, b :: i <= a < b < |h| && h[a] in leaves && h[b] in leaves ==>
      h[a] < |dl| && h[b] < |dl| && dl[h[a]] <= dl[h[b]]
  }

  lemma FallingNext(h: seq<nat>, i: nat, leaves: set<nat>, dl: seq<nat>, bits: nat)
    requires 0 < i <= |h| && Falling(h, i, leaves, dl, bits) && h[i - 1] < |dl|
    requires h[i - 1] in leaves ==> h[i - 1] !in From(h, i, leaves)
    ensures h[i - 1] in leaves ==> Falling(h, i - 1, leaves, dl[h[i - 1] := bits], bits)
    ensures h[i - 1] !in leaves ==> Falling(h, i - 1, leaves, dl, bits)
  {
    var x := h[i - 1];
    if x in leaves {
      var r := dl[x := bits];
      forall k | i <= k < |h| && h[k] in leaves ensures h[k] != x && r[h[k]] == dl[h[k]] {
        assert h[i..][k - i] == h[k];
      }
    }
  }

  lemma FallingLess(h: seq<nat>, i: nat, leaves: set<nat>, dl: seq<nat>, bits: nat)
    requires Falling(h, i, leaves, dl, bits) && bits > 0
    ensures Falling(h, i, leaves, dl, bits - 1)
  {
  }

  lemma FallingAll(h: seq<nat>, lo: nat, i: nat, leaves: set<nat>, dl: seq<nat>, n: nat, maxCode: int)
    requires LeavesOnce(h, lo, leaves, n, maxCode) && lo <= i <= |h| && From(h, i, leaves) == leaves
    requires Falling(h, i, leaves, dl, 0)
    ensures Falling(h, lo, leaves, dl, 0)
  {
    forall k | lo <= k < |h| && h[k] in leaves ensures i <= k {
      assert h[k] in h[i..];
      var j :| 0 <= j < |h[i..]| && h[i..][j] == h[k];
      assert h[i + j] == h[k];
    }
  }

  /** Give the lengths that the repaired statistics call for, the longest to the least frequent. */
  method Rescan(heap: array<nat>, ghost lo: nat, dl: array<nat>, fc: array<nat>, bl: array<nat>, d: TreeDesc,
                maxCode: int,
                opt: int, ghost leaves: set<nat>)
    returns (optLen: int)
    requires dl != fc && bl != dl && bl != fc && heap != dl && heap != bl && heap != fc && dl.Length == fc.Length
    requires heap.Length == HEAP_SIZE
    requires Cut(bl[..], d.maxLength, 0, |leaves|) && LeavesOnce(heap[..], lo, leaves, dl.Length, maxCode)
    modifies dl
    ensures bl[..] == Tally(leaves, dl[..], dl.Length)
    ensures forall x :: x in leaves ==> x < dl.Length && 1 <= dl[x] <= d.maxLength
    ensures forall x :: 0 <= x < dl.Length && x !in leaves ==> dl[x] == old(dl[x])
    ensures optLen - opt == Sum(leaves, OptOf(d, fc[..], dl[..]), dl.Length) -
                             Sum(leaves, OptOf(d, fc[..], old(dl[..])), dl.Length)
    ensures Falling(heap[..], lo, leaves, dl[..], 0)
  {
    hide Cut, LeavesOnce, Rescanning, Sum, Tally, From, Falling;
    ghost var h0: seq<nat>, s: seq<nat>, l0: seq<nat>, w: seq<nat> := heap[..], bl[..], dl[..], fc[..];
    RescanStart(h0, lo, leaves, l0, s, d, w, maxCode);
    FallingNone(h0, leaves, l0, d.maxLength);
    optLen := opt;
    var h: nat, bits: nat := HEAP_SIZE, d.maxLength;
    while bits != 0
      invariant bits <= d.maxLength && h <= HEAP_SIZE
      invariant Rescanning(h0, lo, h, leaves, dl[..], l0, s, bits, s[bits], d, w, optLen - opt)
      invariant Falling(h0, h, leaves, dl[..], bits)
    {
      var n := bl[bits];
      while n != 0
        invariant h <= HEAP_SIZE && Rescanning(h0, lo, h, leaves, dl[..], l0, s, bits, n, d, w, optLen - opt)
        invariant Falling(h0, h, leaves, dl[..], bits)
        decreases h
      {
        ghost var l: seq<nat> := dl[..];
        RescanMore(h0, lo, h, leaves, l, l0, s, bits, n, d, w, optLen - opt, maxCode);
        FallingNext(h0, h, leaves, l, bits);
        h := h - 1;
        var m := heap[h];
        if m > maxCode {
          RescanSkip(h0, lo, h + 1, leaves, l, l0, s, bits, n, d, w, optLen - opt);
          continue;
        }
        RescanStep(h0, lo, h + 1, leaves, l, l0, s, bits, n, d, w, optLen - opt, m);
        if dl[m] != bits {
          optLen := optLen + (bits - dl[m]) * fc[m];
          dl[m] := bits;
        }
        assert dl[..] == l[m := bits];
        n := n - 1;
      }
      RescanLess(h0, lo, h, leaves, dl[..], l0, s, bits, d, w, optLen - opt);
      FallingLess(h0, h, leaves, dl[..], bits);
      bits := bits - 1;
    }
    RescanEnd(h0, lo, h, leaves, dl[..], l0, s, d, w, optLen - opt);
    FallingAll(h0, lo, h, leaves, dl[..], |l0|, maxCode);
  }

  lemma FallingNone(h: seq<nat>, leaves: set<nat>, dl: seq<nat>, bits: nat)
    ensures Falling(h, |h|, leaves, dl, bits)
  {
  }

  lemma FromLeaves(h: seq<nat>, i: nat, leaves: set<nat>)
    requires i <= |h|
    ensures From(h, i, leaves) <= leaves
  {
  }

  // ----- the more frequent, the shorter -----

  /** Of two symbols the more frequent one does not have the longer code. */
  ghost predicate Ordered(leaves: set<nat>, w: seq<nat>, dl: seq<nat>) {
    forall x, y :: x in leaves && y in leaves && x < |w| && y < |w| && w[x] < w[y] ==>
      x < |dl| && y < |dl| && dl[y] <= dl[x]
  }

  lemma {:induction false} LeafStays(leaves: set<nat>, ms: seq<Pair>, elems: nat, i: nat, j: nat, x: nat)
    requires i <= j <= |ms| && x < elems && x in Forest(leaves, ms, elems, j)
    ensures x in Forest(leaves, ms, elems, i)
    decreases j
  {
    if i < j { LeafStays(leaves, ms, elems, i, j - 1, x); }
  }

  /** The merge that takes leaf x, and its place above the heap. */
  lemma PlaceOf(h: seq<nat>, heapMax: nat, fc: seq<nat>, dl: seq<nat>, leaves: set<nat>, ms: seq<Pair>, elems: nat,
                maxCode: int, x: nat)
    returns (a: nat, k: nat)
    requires TreeOf(h, heapMax, fc, dl, leaves, ms, elems, maxCode) && x in leaves
    ensures a < |ms| && (x == ms[a].n || x == ms[a].m) && x in Forest(leaves, ms, elems, a)
    ensures heapMax < k < |h| == HEAP_SIZE && h[k] == x
    ensures k == if x == ms[a].n then HEAP_SIZE - 1 - 2 * a else HEAP_SIZE - 2 - 2 * a
  {
    hide TreeOf, Forest;
    TreeShape(h, heapMax, fc, dl, leaves, ms, elems, maxCode);
    a := Taken(leaves, ms, elems, |ms|, x);
    PairAt(h, heapMax, fc, dl, leaves, ms, elems, maxCode, a);
    MergedBelow(leaves, ms, elems, a);
    k := if x == ms[a].n then HEAP_SIZE - 1 - 2 * a else HEAP_SIZE - 2 - 2 * a;
  }

  /** Huffman's merges take no heavier leaf before a lighter one. */
  lemma LighterFirst(leaves: set<nat>, ms: seq<Pair>, elems: nat, w: seq<nat>, x: nat, a: nat, y: nat, b: nat)
    requires Greedy(leaves, ms, elems, w) && a < |ms| && b < |ms| && x < elems && x < |w| && y < |w| && w[x] < w[y]
    requires (x == ms[a].n || x == ms[a].m) && (y == ms[b].n || y == ms[b].m) && x in Forest(leaves, ms, elems, a)
    ensures a < b || (a == b && x == ms[a].n && y == ms[a].m)
  {
    hide Forest, ValidMerges;
    assert TwoLightest(Forest(leaves, ms, elems, b), w, ms[b].n, ms[b].m);
    if b < a {
      LeafStays(leaves, ms, elems, b, a, x);
      NotTaken(leaves, ms, elems, b, a);
    }
  }

  lemma FallingOrdered(h: seq<nat>, heapMax: nat, fc: seq<nat>, l0: seq<nat>, leaves: set<nat>, ms: seq<Pair>,
                       elems: nat, maxCode: int, dl: seq<nat>)
    requires TreeOf(h, heapMax, fc, l0, leaves, ms, elems, maxCode) && Falling(h, heapMax + 1, leaves, dl, 0)
    requires Greedy(leaves, ms, elems, fc)
    ensures Ordered(leaves, fc, dl)
  {
    hide TreeOf, Greedy, Forest;
    TreeShape(h, heapMax, fc, l0, leaves, ms, elems, maxCode);
    forall x, y | x in leaves && y in leaves && x < |fc| && y < |fc| && fc[x] < fc[y]
      ensures x < |dl| && y < |dl| && dl[y] <= dl[x]
    {
      var a, i := PlaceOf(h, heapMax, fc, l0, leaves, ms, elems, maxCode, x);
      var b, k := PlaceOf(h, heapMax, fc, l0, leaves, ms, elems, maxCode, y);
      LighterFirst(leaves, ms, elems, fc, x, a, y, b);
      assert k < i;
    }
  }

  // ----- the whole of gen_bitlen -----

  /** The depths of the nodes in the tree, cut off at max. */
  ghost function DepthLens(ms: seq<Pair>, elems: nat, max: nat, n: nat): (s: seq<nat>)
    ensures |s| == n
  {
    seq(n, x requires 0 <= x => Min(Depth(ms, elems, x, 0), max))
  }

  /** How many of the leaves have each of these depths. */
  ghost function Truncated(leaves: set<nat>, ms: seq<Pair>, elems: nat, max: nat, n: nat): seq<nat> {
    Tally(leaves, DepthLens(ms, elems, max, n), n)
  }

  lemma PassTruncated(dl: seq<nat>, leaves: set<nat>, ms: seq<Pair>, elems: nat, max: nat, e: nat, w: seq<nat>,
                      l0: seq<nat>)
    requires Pass(dl, leaves, ms, elems, 0, max, e, w, l0)
    ensures Tally(leaves, dl, |dl|) == Truncated(leaves, ms, elems, max, |dl|)
  {
    hide Depth, Sum, Full, Paid, Greedy, Dads;
    ForestStart(leaves, ms, elems);
    var r := DepthLens(ms, elems, max, |dl|);
    forall b | 0 <= b <= MAXBITS ensures Tally(leaves, dl, |dl|)[b] == Tally(leaves, r, |dl|)[b] {
      SumCongr(leaves, leaves, IsLen(dl, b), IsLen(r, b), |dl|);
    }
  }

  lemma CutFits(bl: seq<nat>, max: nat, total: nat)
    requires Cut(bl, max, 0, total)
    ensures Fits(bl, max, total)
  {
    hide BlKraft, BlTotal, Pow2;
    ShlZero(MAXBITS - max);
  }

  /** What gen_bitlen leaves: lengths within bounds whose Kraft sum is exactly 1, and their statistics. */
  ghost predicate Lengths(leaves: set<nat>, dl: seq<nat>, bl: seq<nat>, max: nat) {
    (forall x :: x in leaves ==> x < |dl| && 1 <= dl[x] <= max) &&
    Cut(bl, max, 0, |leaves|) && bl == Tally(leaves, dl, |dl|)
  }

  /** After the first pass the statistics are those of a code that was cut off e times. */
  lemma PassCut(dl: seq<nat>, leaves: set<nat>, ms: seq<Pair>, d: TreeDesc, e: nat, w: seq<nat>, l0: seq<nat>,
                bl: seq<nat>)
    requires Pass(dl, leaves, ms, d.elems, 0, d.maxLength, e, w, l0) && ValidDesc(d) && bl == Tally(leaves, dl, |dl|)
    requires |leaves| <= d.elems && forall x :: x in leaves ==> x < d.elems
    ensures Cut(bl, d.maxLength, e, |leaves|) && forall x :: x in leaves ==> x < |dl| && 1 <= dl[x] <= d.maxLength
    ensures forall x :: 0 <= x < d.elems && x < |dl| == |l0| && x !in leaves ==> dl[x] == l0[x]
    ensures e == 0 && Greedy(leaves, ms, d.elems, w) ==> Paid(leaves, dl, w, d.elems, 0, |ms|)
    ensures e > 0 <==> TooDeep(leaves, ms, d.elems, d.maxLength)
  {
    hide Depth, Tally, Greedy, ValidDesc, Paid, BlKraft, BlTotal, Pow2, Shl, Sum;
    DescFacts(d);
    ForestStart(leaves, ms, d.elems);
    TallyKraft(leaves, dl, |dl|);
    assert Below(leaves, |dl|) == leaves;
    forall b | b == 0 || d.maxLength < b <= MAXBITS ensures bl[b] == 0 {
      NoneOf(leaves, dl, b, |dl|);
      TallyAt(leaves, dl, b, |dl|);
    }
    TallyAt(leaves, dl, d.maxLength, |dl|);
  }

  lemma TallyAt(f: set<nat>, len: seq<nat>, b: nat, n: nat)
    requires b <= MAXBITS
    ensures Tally(f, len, n)[b] == Sum(f, IsLen(len, b), n)
  {
  }

  lemma {:induction false} NoneOf(f: set<nat>, len: seq<nat>, b: nat, n: nat)
    requires n <= |len| && forall x :: x in f && x < n ==> len[x] != b
    ensures Sum(f, IsLen(len, b), n) == 0
  {
    if n > 0 { NoneOf(f, len, b, n - 1); }
  }

  lemma ChargedParts(g: set<nat>, dl: seq<nat>, bl: seq<nat>, opt: int, stat: int, d: TreeDesc, w: seq<nat>)
    ensures Charged(g, dl, bl, opt, stat, d, w) <==>
      (bl == Tally(g, dl, |dl|) && opt == Sum(g, OptOf(d, w, dl), |dl|) && stat == Sum(g, StaticOf(d, w), |dl|))
  {
  }

  /** Lengths for the symbols of a tree of merges. cut tells whether lengths had to be cut off. */
  method GenBitLen(heap: array<nat>, heapMax: nat, dl: array<nat>, fc: array<nat>, bl: array<nat>, d: TreeDesc,
                   maxCode: int,
                   opt: int, stat: int, ghost leaves: set<nat>, ghost ms: seq<Pair>)
    returns (optLen: int, staticLen: int, ghost cut: bool)
    requires dl != fc && bl != dl && bl != fc && heap != dl && heap != bl && heap != fc && ValidDesc(d)
    requires bl.Length == MAXBITS + 1
    requires TreeOf(heap[..], heapMax, fc[..], dl[..], leaves, ms, d.elems, maxCode) && |leaves| <= d.elems
    modifies dl, bl
    ensures Lengths(leaves, dl[..], bl[..], d.maxLength)
    ensures forall x :: 0 <= x < d.elems && x < dl.Length && x !in leaves ==> dl[x] == old(dl[x])
    ensures optLen - opt == Sum(leaves, OptOf(d, fc[..], dl[..]), dl.Length)
    ensures staticLen - stat == Sum(leaves, StaticOf(d, fc[..]), dl.Length)
    ensures !cut && Greedy(leaves, ms, d.elems, fc[..]) ==> Paid(leaves, dl[..], fc[..], d.elems, 0, |ms|)
    ensures cut <==> TooDeep(leaves, ms, d.elems, d.maxLength)
    ensures cut ==> exists x :: x in leaves && x < dl.Length && dl[x] == d.maxLength
    ensures KeepsShort(Truncated(leaves, ms, d.elems, d.maxLength, dl.Length), bl[..], d.maxLength, |leaves|)
    ensures cut && Greedy(leaves, ms, d.elems, fc[..]) ==> Ordered(leaves, fc[..], dl[..])
  {
    hide TooDeep, Charged, Pass, Forest, ValidDesc, Merged, ValidMerges, Greatest, Greedy, Paid, Sum, Tally, Cut,
         LeavesOnce, KeepsShort, Truncated, Falling, Fits, Ordered;
    ghost var l0: seq<nat> := dl[..];
    TreeShape(heap[..], heapMax, fc[..], l0, leaves, ms, d.elems, maxCode);
    EachOnce(heap[..], heapMax, fc[..], l0, leaves, ms, d.elems, maxCode);
    var overflow; ghost var e;
    overflow, optLen, staticLen, e := FirstPass(heap, heapMax, dl, fc, bl, d, maxCode, opt, stat, leaves, ms);
    ChargedParts(leaves, dl[..], bl[..], optLen - opt, staticLen - stat, d, fc[..]);
    PassCut(dl[..], leaves, ms, d, e, fc[..], l0, bl[..]);
    PassTruncated(dl[..], leaves, ms, d.elems, d.maxLength, e, fc[..], l0);
    cut := e > 0;
    if overflow == 0 {
      CutFits(bl[..], d.maxLength, |leaves|);
      FitsKept(bl[..], d.maxLength, |leaves|);
      return;
    }
    Repair(bl, d.maxLength, overflow, e, |leaves|);
    optLen := Rescan(heap, heapMax + 1, dl, fc, bl, d, maxCode, optLen, leaves);
    DescFacts(d);
    SomeOf(leaves, dl[..], d.maxLength);
    if Greedy(leaves, ms, d.elems, fc[..]) {
      FallingOrdered(heap[..], heapMax, fc[..], l0, leaves, ms, d.elems, maxCode, dl[..]);
    }
  }

  /** Statistics that are not zero speak of some symbol. */
  lemma SomeOf(f: set<nat>, len: seq<nat>, b: nat)
    requires b <= MAXBITS && Tally(f, len, |len|)[b] > 0
    ensures exists x :: x in f && x < |len| && len[x] == b
  {
    if forall x :: x in f && x < |len| ==> len[x] != b {
      NoneOf(f, len, b, |len|);
      TallyAt(f, len, b, |len|);
    }
  }
}
