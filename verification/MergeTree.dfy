/** The first half of build_tree of trees.c: collect the symbols that occur, force at least two,
    and merge the two least frequent nodes until one is left. fc holds frequencies, dl fathers. */
module MergeTree {
  import opened HuffTree
  import opened PqHeap

  const HEAP_SIZE: nat := 573

  /** The symbols that occur. */
  ghost function Leaves(fc: seq<nat>, elems: nat): set<nat>
    requires elems <= |fc|
  {
    set n: nat | 0 <= n < elems && fc[n] != 0
  }

  lemma LeavesNext(fc: seq<nat>, n: nat)
    requires n < |fc|
    ensures Leaves(fc, n + 1) == Leaves(fc, n) + if fc[n] != 0 then {n} else {}
    ensures n !in Leaves(fc, n)
  {
  }

  lemma AddEntry(h: seq<nat>, len: nat, x: nat, f: set<nat>)
    requires len + 1 < |h| && Entries(h, len) == multiset(f) && x !in f
    ensures Entries(h[len + 1 := x], len + 1) == multiset(f + {x}) && |f + {x}| == |f| + 1
  {
    assert h[len + 1 := x][1..len + 2] == h[1..len + 1] + [x];
  }

  /** max is the greatest member of f, or -1. */
  ghost predicate Greatest(f: set<nat>, max: int) {
    (forall x :: x in f ==> x <= max) && (max >= 0 ==> max in f) && max >= -1
  }

  /** The heap of symbols that occur; the others get length 0. */
  method CollectSymbols(fc: array<nat>, dl: array<nat>, heap: array<nat>, depth: array<nat>, elems: nat)
    returns (heapLen: nat, maxCode: int)
    requires fc != dl && fc != heap && fc != depth && dl != heap && dl != depth && heap != depth
    requires elems <= 286 && elems <= fc.Length == dl.Length <= depth.Length && heap.Length == HEAP_SIZE
    modifies dl, heap, depth
    ensures heapLen == |Leaves(fc[..], elems)| <= elems && Entries(heap[..], heapLen) == multiset(Leaves(fc[..], elems))
    ensures Greatest(Leaves(fc[..], elems), maxCode)
    ensures forall n :: 0 <= n < elems && fc[n] == 0 ==> dl[n] == 0
  {
    hide Leaves, Entries;
    heapLen, maxCode := 0, -1;
    ghost var f := fc[..];
    NoneYet(f, heap[..]);
    for n := 0 to elems
      invariant heapLen == |Leaves(f, n)| <= n && Entries(heap[..], heapLen) == multiset(Leaves(f, n))
      invariant -1 <= maxCode < n && Greatest(Leaves(f, n), maxCode)
      invariant forall i :: 0 <= i < n && fc[i] == 0 ==> dl[i] == 0
      invariant f == fc[..]
    {
      LeavesNext(f, n);
      if fc[n] != 0 {
        AddEntry(heap[..], heapLen, n, Leaves(f, n));
        heapLen := heapLen + 1;
        maxCode := n;
        ghost var h := heap[..][heapLen := n];
        heap[heapLen] := n;
        assert heap[..] == h;
        depth[n] := 0;
      } else {
        dl[n] := 0;
      }
    }
  }

  lemma NoneYet(fc: seq<nat>, h: seq<nat>)
    requires |h| > 0
    ensures Leaves(fc, 0) == {} && Entries(h, 0) == multiset(Leaves(fc, 0))
  {
  }

  /** What forcing symbols does: their frequency becomes 1. */
  ghost predicate Forced(f0: seq<nat>, f1: seq<nat>, elems: nat, opt: int, fixed: int, slen: nat -> int) {
    |f0| == |f1| && elems <= |f0| &&
    Leaves(f0, elems) <= Leaves(f1, elems) &&
    (forall n :: 0 <= n < |f0| && n !in Leaves(f1, elems) - Leaves(f0, elems) ==> f1[n] == f0[n]) &&
    (forall n :: n in Leaves(f1, elems) - Leaves(f0, elems) ==> n <= 2 && f1[n] == 1) &&
    opt == |Leaves(f1, elems) - Leaves(f0, elems)| &&
    fixed == Sum(Leaves(f1, elems) - Leaves(f0, elems), slen, elems)
  }

  lemma NoneForced(f0: seq<nat>, elems: nat, slen: nat -> int)
    requires elems <= |f0|
    ensures Forced(f0, f0, elems, 0, 0, slen)
  {
    assert Leaves(f0, elems) - Leaves(f0, elems) == {};
    SumEmpty(slen, elems);
  }

  lemma {:induction false} SumEmpty(g: nat -> int, n: nat)
    ensures Sum({}, g, n) == 0
  {
    if n > 0 { SumEmpty(g, n - 1); }
  }

  lemma ForceOne(f0: seq<nat>, f1: seq<nat>, elems: nat, opt: int, fixed: int, slen: nat -> int, node: nat)
    requires Forced(f0, f1, elems, opt, fixed, slen) && node !in Leaves(f1, elems) && node <= 2 < elems
    ensures Forced(f0, f1[node := 1], elems, opt + 1, fixed + slen(node), slen)
    ensures Leaves(f1[node := 1], elems) == Leaves(f1, elems) + {node}
  {
    hide Sum;
    var l0, l1, l2 := Leaves(f0, elems), Leaves(f1, elems), Leaves(f1[node := 1], elems);
    assert l2 == l1 + {node};
    assert l2 - l0 == (l1 - l0) + {node};
    SumAdd(l1 - l0, node, slen, elems);
  }

  /** The symbols that are forced when those of l occur: never more than makes two. */
  ghost function ForcedSymbols(l: set<nat>): (r: set<nat>) {
    if l == {} then {0, 1} else if l == {0} then {1} else if l == {1} then {2} else if |l| == 1 then {0} else {}
  }

  lemma NoneToForce(l: set<nat>)
    requires |l| >= 2
    ensures ForcedSymbols(l) == {}
  {
    assert |{0 as nat}| == 1 && |{1 as nat}| == 1;
  }

  lemma OneToForce(m: nat)
    ensures ForcedSymbols({}) == {0, 1} && ForcedSymbols({m}) == {if m < 2 then m + 1 else 0}
  {
    assert m in {m};
  }

  /** Symbol 2 is forced exactly when symbol 1 is the only one that occurs. */
  lemma ForcesTwo(l: set<nat>)
    ensures 2 in ForcedSymbols(l) <==> l == {1}
    ensures ForcedSymbols(l) !! l && (|l| < 2 ==> |l + ForcedSymbols(l)| == 2)
  {
    hide ForcedSymbols;
    if l == {} {
      OneToForce(0);
    } else if |l| == 1 {
      var x :| x in l;
      assert |l - {x}| == 0;
      assert l == {x};
      OneToForce(x);
    } else {
      NoneToForce(l);
    }
  }

  /** An input that makes the forced symbol neither 0 nor 1: a single distance code, 1, occurs once. */
  lemma OnlySymbolOne(elems: nat)
    requires 2 < elems
    ensures var f := seq(elems, n => if n == 1 then 1 else 0);
            Leaves(f, elems) == {1} && ForcedSymbols(Leaves(f, elems)) == {2}
  {
    var f := seq(elems, n => if n == 1 then 1 else 0);
    assert f[1] == 1;
    assert Leaves(f, elems) == {1};
  }

  /** The next symbol to force, and what is still to force after it. */
  lemma ForcedNext(l: set<nat>, max: int)
    requires Greatest(l, max) && |l| < 2
    ensures var node: nat := if max < 2 then max + 1 else 0;
            node !in l && l + {node} + ForcedSymbols(l + {node}) == l + ForcedSymbols(l)
  {
    hide ForcedSymbols;
    var node: nat := if max < 2 then max + 1 else 0;
    if l == {} {
      OneToForce(0);
      assert l + {node} == {0};
    } else {
      var m: nat := max;
      assert |l - {m}| == 0;
      assert l == {m};
      OneToForce(m);
      NoneToForce(l + {node});
    }
  }

  /** A next symbol to force: the one after the greatest, or symbol 0. */
  lemma FreshSymbol(f: set<nat>, max: int)
    requires Greatest(f, max) && |f| < 2
    ensures max < 2 ==> max + 1 !in f && Greatest(f + {max + 1}, max + 1)
    ensures max >= 2 ==> 0 !in f && Greatest(f + {0}, max)
  {
    if max >= 2 && 0 in f {
      assert {0, max} <= f;
      TwoMembers(f, max);
    }
  }

  lemma TwoMembers(f: set<nat>, a: nat)
    requires a in f && 0 in f && a != 0
    ensures |f| >= 2
  {
    var g := f - {a};
    assert |g| == |f| - 1 && 0 in g;
  }

  /** The heap holds the symbols that occur; the greatest of them is max. */
  ghost predicate Symbols(h: seq<nat>, len: nat, fc: seq<nat>, elems: nat, max: int) {
    len < |h| && elems <= |fc| && len == |Leaves(fc, elems)| && Entries(h, len) == multiset(Leaves(fc, elems)) &&
    Greatest(Leaves(fc, elems), max)
  }

  /** Forcing one symbol: the one after the greatest, or symbol 0. */
  lemma ForceSymbol(h: seq<nat>, len: nat, fc: seq<nat>, elems: nat, max: int, f0: seq<nat>, opt: int, fixed: int,
                    slen: nat -> int)
    requires Symbols(h, len, fc, elems, max) && len < 2 && len + 1 < |h| && 2 < elems
    requires Forced(f0, fc, elems, opt, fixed, slen)
    ensures max >= -1
    ensures var max': int := if max < 2 then max + 1 else max; var node: nat := if max < 2 then max + 1 else 0;
            Symbols(h[len + 1 := node], len + 1, fc[node := 1], elems, max') &&
            Forced(f0, fc[node := 1], elems, opt + 1, fixed + slen(node), slen)
  {
    hide Leaves, Entries, Forced, Greatest;
    var l := Leaves(fc, elems);
    GreatestIs(l, max);
    FreshSymbol(l, max);
    var node: nat := if max < 2 then max + 1 else 0;
    ForceOne(f0, fc, elems, opt, fixed, slen, node);
    AddEntry(h, len, node, l);
  }

  /** At least two symbols get a code. The forced ones do not count in the block's length. */
  method ForceTwo(fc: array<nat>, heap: array<nat>, depth: array<nat>, elems: nat, len: nat, max: int,
                  opt: int, fixed: int, slen: nat -> int)
    returns (heapLen: nat, maxCode: int, optLen: int, staticLen: int)
    requires fc != heap && fc != depth && heap != depth
    requires 2 < elems <= 286 && elems <= fc.Length <= depth.Length && heap.Length == HEAP_SIZE
    requires Symbols(heap[..], len, fc[..], elems, max) && len <= elems
    modifies fc, heap, depth
    ensures Symbols(heap[..], heapLen, fc[..], elems, maxCode) && 2 <= heapLen <= elems
    ensures Forced(old(fc[..]), fc[..], elems, opt - optLen, fixed - staticLen, slen)
    ensures fc[..] != old(fc[..]) ==> heapLen == 2
    ensures Leaves(fc[..], elems) == Leaves(old(fc[..]), elems) + ForcedSymbols(Leaves(old(fc[..]), elems))
    ensures 2 in Leaves(fc[..], elems) - Leaves(old(fc[..]), elems) <==> Leaves(old(fc[..]), elems) == {1}
  {
    hide Symbols, Forced, ForcedSymbols, Leaves;
    heapLen, maxCode, optLen, staticLen := len, max, opt, fixed;
    ghost var f0: seq<nat> := fc[..];
    ghost var l0 := Leaves(f0, elems);
    NoneForced(f0, elems, slen);
    ForcesTwo(l0);
    SymbolsOf(heap[..], heapLen, fc[..], elems, maxCode);
    while heapLen < 2
      invariant Symbols(heap[..], heapLen, fc[..], elems, maxCode) && heapLen <= elems
      invariant Forced(f0, fc[..], elems, opt - optLen, fixed - staticLen, slen)
      invariant fc[..] != f0 ==> heapLen <= 2
      invariant heapLen == |Leaves(fc[..], elems)|
      invariant Leaves(fc[..], elems) + ForcedSymbols(Leaves(fc[..], elems)) == l0 + ForcedSymbols(l0)
    {
      ghost var f: seq<nat>, h: seq<nat>, max0 := fc[..], heap[..], maxCode;
      ForceSymbol(h, heapLen, f, elems, maxCode, f0, opt - optLen, fixed - staticLen, slen);
      var node: nat := 0;
      if maxCode < 2 { maxCode := maxCode + 1; node := maxCode; }
      heapLen := heapLen + 1;
      heap[heapLen] := node;
      assert heap[..] == h[heapLen := node];
      fc[node] := 1;
      assert fc[..] == f[node := 1];
      ForcedLeaf(h, heapLen - 1, f, elems, max0, node);
      depth[node] := 0;
      optLen, staticLen := optLen - 1, staticLen - slen(node);
    }
    NoneToForce(Leaves(fc[..], elems));
  }

  lemma SymbolsOf(h: seq<nat>, len: nat, fc: seq<nat>, elems: nat, max: int)
    requires Symbols(h, len, fc, elems, max)
    ensures len == |Leaves(fc, elems)| && Greatest(Leaves(fc, elems), max) && max >= -1
  {
  }

  lemma ForcedLeaf(h: seq<nat>, len: nat, fc: seq<nat>, elems: nat, max: int, node: nat)
    requires Symbols(h, len, fc, elems, max) && len < 2 < elems && node == if max < 2 then max + 1 else 0
    ensures var l, l2 := Leaves(fc, elems), Leaves(fc[node := 1], elems);
            l2 == l + {node} && |l2| == len + 1 && l2 + ForcedSymbols(l2) == l + ForcedSymbols(l)
  {
    hide ForcedSymbols;
    SymbolsOf(h, len, fc, elems, max);
    ForcedNext(Leaves(fc, elems), max);
    assert Leaves(fc[node := 1], elems) == Leaves(fc, elems) + {node};
  }

  lemma GreatestIs(f: set<nat>, max: int)
    requires Greatest(f, max)
    ensures max >= -1
  {
  }

  /** pqremove: take the least frequent node from the heap. */
  method PqRemove(heap: array<nat>, len: nat, fc: array<nat>, depth: array<nat>) returns (top: nat, heapLen: nat)
    requires 2 <= len < heap.Length && heap != fc && heap != depth && depth.Length >= fc.Length
    requires Nodes(heap[..], len, fc.Length) && HeapFrom(heap[..], len, fc[..], depth[..], 1)
    modifies heap
    ensures heapLen == len - 1 && top == old(heap[1])
    ensures Nodes(heap[..], heapLen, fc.Length) && HeapFrom(heap[..], heapLen, fc[..], depth[..], 1)
    ensures Entries(heap[..], heapLen) == Entries(old(heap[..]), len) - multiset{top}
    ensures top in Entries(old(heap[..]), len)
    ensures forall i :: 0 <= i < heap.Length && (i == 0 || i > len) ==> heap[i] == old(heap[i])
    ensures forall x :: x in Entries(old(heap[..]), len) ==> Smaller(fc[..], depth[..], top, x)
  {
    hide Smaller, Entries;
    ghost var h := heap[..];
    forall x | x in Entries(h, len) ensures Smaller(fc[..], depth[..], h[1], x) {
      FirstOfEntries(h, len, fc[..], depth[..], x);
    }
    RemoveFirst(h, len);
    EntryIn(h, len, 1);
    top := heap[1];
    heap[1] := heap[len];
    heapLen := len - 1;
    assert heap[..] == h[1 := h[len]];
    PqDownHeap(heap, heapLen, fc, depth, 1);
  }

  lemma RemoveFirst(h: seq<nat>, len: nat)
    requires 2 <= len < |h|
    ensures Entries(h[1 := h[len]], len - 1) == Entries(h, len) - multiset{h[1]}
  {
    var mid := h[2..len];
    assert h[1..len + 1] == [h[1]] + mid + [h[len]];
    assert h[1 := h[len]][1..len] == [h[len]] + mid;
  }

  lemma ReplaceFirst(h: seq<nat>, len: nat, x: nat)
    requires 1 <= len < |h|
    ensures Entries(h[1 := x], len) == Entries(h, len) - multiset{h[1]} + multiset{x}
  {
    assert h[1..len + 1] == [h[1]] + h[2..len + 1];
    assert h[1 := x][1..len + 1] == [x] + h[2..len + 1];
  }

  /** Giving a frequency to a node outside the heap does not disturb it. */
  lemma HeapKept(h: seq<nat>, len: nat, fc: seq<nat>, depth: seq<nat>, node: nat, f: nat, d: nat)
    requires 1 <= len < |h| && HeapFrom(h, len, fc, depth, 1) && node < |fc| && node < |depth|
    requires node !in Entries(h, len)
    ensures HeapFrom(h[1 := node], len, fc[node := f], depth[node := d], 2)
  {
    forall i | 1 <= i <= len ensures h[i] != node { EntryIn(h, len, i); }
  }

  /** The least node leaves the heap; it and the next, which stays first, are put down above it. */
  method TakeTwo(heap: array<nat>, len: nat, max: nat, fc: array<nat>, depth: array<nat>)
    returns (heapLen: nat, heapMax: nat, n: nat, m: nat)
    requires fc != heap && fc != depth && heap != depth
    requires 2 <= len && len + 2 < max <= heap.Length && fc.Length <= depth.Length
    requires Nodes(heap[..], len, fc.Length) && HeapFrom(heap[..], len, fc[..], depth[..], 1)
    modifies heap
    ensures heapLen == len - 1 && heapMax == max - 2 && n < fc.Length && m < fc.Length && m == heap[1]
    ensures Nodes(heap[..], heapLen, fc.Length) && HeapFrom(heap[..], heapLen, fc[..], depth[..], 1)
    ensures n in Entries(old(heap[..]), len) && m in Entries(old(heap[..]), len) - multiset{n}
    ensures Entries(heap[..], heapLen) == Entries(old(heap[..]), len) - multiset{n}
    ensures forall x :: x in Entries(old(heap[..]), len) ==> Smaller(fc[..], depth[..], n, x)
    ensures forall x :: x in Entries(old(heap[..]), len) - multiset{n} ==> Smaller(fc[..], depth[..], m, x)
    ensures heap[max - 1] == n && heap[max - 2] == m && forall i :: max <= i < heap.Length ==> heap[i] == old(heap[i])
  {
    hide Smaller, Entries, HeapFrom, Nodes;
    ghost var h0: seq<nat>, f0: seq<nat>, d0: seq<nat> := heap[..], fc[..], depth[..];
    n, heapLen := PqRemove(heap, len, fc, depth);
    m := heap[1];
    ghost var h1: seq<nat> := heap[..];
    Seconds(h1, heapLen, f0, d0);
    EntryBound(h0, len, fc.Length, n);
    FirstBound(h1, h1, heapLen, fc.Length, n);
    heapMax := max - 1;
    heap[heapMax] := n;
    heapMax := heapMax - 1;
    heap[heapMax] := m;
    assert heap[..] == h1[max - 1 := n][max - 2 := m];
    AboveHeap(h1, heap[..], heapLen, f0, d0);
    NodesKept(h1, heap[..], heapLen, fc.Length);
  }

  lemma NodesKept(h: seq<nat>, h': seq<nat>, len: nat, bound: nat)
    requires Nodes(h, len, bound) && len < |h| == |h'| && forall i :: 0 <= i <= len ==> h[i] == h'[i]
    ensures Nodes(h', len, bound)
  {
  }

  function Higher(a: nat, b: nat): (r: nat)
    ensures r >= a && r >= b && (r == a || r == b)
  {
    if a >= b then a else b
  }

  /** One merge: n and m, the two least frequent nodes, become the sons of node. */
  method MergeStep(heap: array<nat>, len: nat, max: nat, fc: array<nat>, dl: array<nat>, depth: array<nat>, node: nat)
    returns (heapLen: nat, heapMax: nat, n: nat, m: nat)
    requires fc != dl && fc != heap && fc != depth && dl != heap && dl != depth && heap != depth
    requires 2 <= len && len + 2 < max <= heap.Length && fc.Length == dl.Length <= depth.Length && node < fc.Length
    requires Nodes(heap[..], len, fc.Length) && HeapFrom(heap[..], len, fc[..], depth[..], 1)
    requires node !in Entries(heap[..], len)
    modifies heap, fc, dl, depth
    ensures heapLen == len - 1 && heapMax == max - 2 && n < fc.Length && m < fc.Length
    ensures Nodes(heap[..], heapLen, fc.Length) && HeapFrom(heap[..], heapLen, fc[..], depth[..], 1)
    ensures n in Entries(old(heap[..]), len) && m in Entries(old(heap[..]), len) - multiset{n}
    ensures Entries(heap[..], heapLen) == Entries(old(heap[..]), len) - multiset{n} - multiset{m} + multiset{node}
    ensures forall x :: x in Entries(old(heap[..]), len) ==> Smaller(old(fc[..]), old(depth[..]), n, x)
    ensures forall x :: x in Entries(old(heap[..]), len) - multiset{n} ==> Smaller(old(fc[..]), old(depth[..]), m, x)
    ensures heap[max - 1] == n && heap[max - 2] == m && forall i :: max <= i < heap.Length ==> heap[i] == old(heap[i])
    ensures fc[..] == old(fc[..])[node := (old(fc[n]) + old(fc[m])) % 65536]
    ensures dl[..] == old(dl[..])[n := node][m := node]
    ensures depth[..] == old(depth[..])[node := (Higher(old(depth[n]), old(depth[m])) + 1) % 256]
  {
    hide Smaller, Entries, HeapFrom, Nodes;
    ghost var f0: seq<nat>, d0: seq<nat>, l0: seq<nat> := fc[..], depth[..], dl[..];
    heapLen, heapMax, n, m := TakeTwo(heap, len, max, fc, depth);
    ghost var h2: seq<nat> := heap[..];
    FirstBound(h2, h2, heapLen, fc.Length, node);
    fc[node] := (fc[n] + fc[m]) % 65536;
    var d := (Higher(depth[n], depth[m]) + 1) % 256;
    depth[node] := d;
    dl[n] := node;
    dl[m] := node;
    assert dl[..] == l0[n := node][m := node];
    HeapKept(h2, heapLen, f0, d0, node, fc[node], d);
    ReplaceFirst(h2, heapLen, node);
    heap[1] := node;
    assert heap[..] == h2[1 := node] && fc[..] == f0[node := fc[node]] && depth[..] == d0[node := d];
    PqDownHeap(heap, heapLen, fc, depth, 1);
  }

  lemma EntryBound(h: seq<nat>, len: nat, bound: nat, x: nat)
    requires Nodes(h, len, bound) && x in Entries(h, len)
    ensures x < bound
  {
    var i :| 0 <= i < len && h[1..len + 1][i] == x;
    assert h[i + 1] == x;
  }

  lemma FirstBound(h: seq<nat>, h': seq<nat>, len: nat, bound: nat, node: nat)
    requires Nodes(h, len, bound) && 1 <= len < |h| == |h'| && node < bound
    requires forall i :: 0 <= i <= len ==> h[i] == h'[i]
    ensures h[1] < bound && Nodes(h'[1 := node], len, bound)
  {
  }

  /** The first entry is the least of the heap. */
  lemma Seconds(h: seq<nat>, len: nat, fc: seq<nat>, depth: seq<nat>)
    requires 1 <= len && HeapFrom(h, len, fc, depth, 1) && Nodes(h, len, |fc|) && |depth| >= |fc|
    ensures h[1] in Entries(h, len) && forall x :: x in Entries(h, len) ==> Smaller(fc, depth, h[1], x)
  {
    hide Smaller, HeapFrom;
    EntryIn(h, len, 1);
    forall x | x in Entries(h, len) ensures Smaller(fc, depth, h[1], x) {
      FirstOfEntries(h, len, fc, depth, x);
    }
  }

  /** Entries above the heap are no part of it. */
  lemma AboveHeap(h: seq<nat>, h': seq<nat>, len: nat, fc: seq<nat>, depth: seq<nat>)
    requires len < |h| == |h'| && forall i :: 0 <= i <= len ==> h[i] == h'[i]
    ensures Entries(h, len) == Entries(h', len)
    ensures HeapFrom(h, len, fc, depth, 1) ==> HeapFrom(h', len, fc, depth, 1)
  {
    assert h[1..len + 1] == h'[1..len + 1];
  }

  // ----- all merges -----

  /** The merges as they are recorded above the heap: the first at the top. */
  ghost predicate Recorded(h: seq<nat>, ms: seq<Pair>) {
    2 * |ms| <= |h| && forall j :: 0 <= j < |ms| ==> h[|h| - 1 - 2 * j] == ms[j].n && h[|h| - 2 - 2 * j] == ms[j].m
  }

  /** The sons of the first i merges know their fathers. */
  ghost predicate Dads(dl: seq<nat>, ms: seq<Pair>, elems: nat, i: nat) {
    i <= |ms| && forall j :: 0 <= j < i ==>
      ms[j].n < |dl| && ms[j].m < |dl| && dl[ms[j].n] == elems + j && dl[ms[j].m] == elems + j
  }

  lemma RecordMore(h: seq<nat>, h': seq<nat>, ms: seq<Pair>, p: Pair)
    requires Recorded(h, ms) && |h| == |h'| && 2 * |ms| + 2 <= |h|
    requires forall i :: |h| - 2 * |ms| <= i < |h| ==> h'[i] == h[i]
    requires h'[|h| - 2 * |ms| - 1] == p.n && h'[|h| - 2 * |ms| - 2] == p.m
    ensures Recorded(h', ms + [p])
  {
  }

  lemma DadsMore(dl: seq<nat>, leaves: set<nat>, ms: seq<Pair>, p: Pair, elems: nat)
    requires ValidMerges(leaves, ms, elems) && Dads(dl, ms, elems, |ms|)
    requires p.n in Forest(leaves, ms, elems, |ms|) && p.m in Forest(leaves, ms, elems, |ms|)
    requires p.n < |dl| && p.m < |dl|
    ensures Dads(dl[p.n := elems + |ms|][p.m := elems + |ms|], ms + [p], elems, |ms| + 1)
  {
    hide ValidMerges, Forest;
    forall j | 0 <= j < |ms|
      ensures ms[j].n !in Forest(leaves, ms, elems, |ms|) && ms[j].m !in Forest(leaves, ms, elems, |ms|)
    {
      NotTaken(leaves, ms, elems, j, |ms|);
    }
  }

  /** The frequencies of the roots add up to total. */
  ghost predicate Conserved(leaves: set<nat>, ms: seq<Pair>, elems: nat, w: seq<nat>, total: int) {
    Greedy(leaves, ms, elems, w) && Sum(Forest(leaves, ms, elems, |ms|), WeightOf(w), |w|) == total
  }

  /** As long as the frequencies fit in 16 bits, the merges are Huffman's. */
  lemma GreedyMore(leaves: set<nat>, ms: seq<Pair>, p: Pair, elems: nat, w: seq<nat>, total: int, v: nat)
    requires Conserved(leaves, ms, elems, w, total) && total < 65536 && elems + |ms| < |w|
    requires TwoLightest(Forest(leaves, ms, elems, |ms|), w, p.n, p.m) && v == (w[p.n] + w[p.m]) % 65536
    ensures Conserved(leaves, ms + [p], elems, w[elems + |ms| := v], total)
  {
    hide Sum, Forest, TwoLightest;
    var f, node := Forest(leaves, ms, elems, |ms|), elems + |ms|;
    var w' := w[node := v];
    InTwo(f, w, p.n, p.m);
    MergeMore(leaves, ms, p, elems);
    SumTwo(f, p.n, p.m, WeightOf(w), |w|);
    forall i | 0 <= i <= |ms| ensures Forest(leaves, ms + [p], elems, i) == Forest(leaves, ms, elems, i) {
      ForestPrefix(leaves, ms, p, elems, i);
    }
    forall i | 0 <= i < |ms| ensures ms[i].n < elems + i && ms[i].m < elems + i {
      MergedBelow(leaves, ms, elems, i);
    }
    forall i | 0 <= i < |ms|
      ensures TwoLightest(Forest(leaves, ms + [p], elems, i), w', ms[i].n, ms[i].m)
      ensures w'[elems + i] == w'[ms[i].n] + w'[ms[i].m]
    {
      ForestBound(leaves, ms, elems, i);
      TwoKept(Forest(leaves, ms, elems, i), w, ms[i].n, ms[i].m, node, v);
    }
    ForestBound(leaves, ms, elems, |ms|);
    TwoKept(f, w, p.n, p.m, node, v);
    SumMerge(f, w, p, node, v);
  }

  lemma InTwo(f: set<nat>, w: seq<nat>, n: nat, m: nat)
    requires TwoLightest(f, w, n, m)
    ensures n in f && m in f && n != m && n < |w| && m < |w|
  {
  }

  lemma TwoKept(f: set<nat>, w: seq<nat>, n: nat, m: nat, node: nat, v: nat)
    requires TwoLightest(f, w, n, m) && node < |w| && node !in f
    ensures TwoLightest(f, w[node := v], n, m)
  {
  }

  lemma SumMerge(f: set<nat>, w: seq<nat>, p: Pair, node: nat, v: nat)
    requires p.n in f && p.m in f && p.n != p.m && p.n < |w| && p.m < |w| && node < |w| && node !in f
    requires v == w[p.n] + w[p.m]
    ensures Sum(f - {p.n, p.m} + {node}, WeightOf(w[node := v]), |w|) == Sum(f, WeightOf(w), |w|)
  {
    var g := f - {p.n} - {p.m};
    SumRemove(f, p.n, WeightOf(w), |w|);
    SumRemove(f - {p.n}, p.m, WeightOf(w), |w|);
    SumCongr(g, g, WeightOf(w), WeightOf(w[node := v]), |w|);
    SumAdd(g, node, WeightOf(w[node := v]), |w|);
    assert g + {node} == f - {p.n, p.m} + {node};
  }

  /** The heap's order finds the two lightest roots. */
  lemma LightestFirst(f: set<nat>, fc: seq<nat>, depth: seq<nat>, n: nat, m: nat)
    requires n in multiset(f) && m in multiset(f) - multiset{n}
    requires forall x :: x in multiset(f) ==> Smaller(fc, depth, n, x)
    requires forall x :: x in multiset(f) - multiset{n} ==> Smaller(fc, depth, m, x)
    ensures TwoLightest(f, fc, n, m)
  {
    forall x | x in f ensures x < |fc| && fc[n] <= fc[x] && (x != n ==> fc[m] <= fc[x]) {
      assert x in multiset(f);
      if x != n { assert x in multiset(f) - multiset{n}; }
    }
  }

  /** The merge of the roots n and m, as sets. */
  lemma MergedEntries(f: set<nat>, n: nat, m: nat, node: nat)
    requires n in f && m in f && n != m && node !in f
    ensures multiset(f) - multiset{n} - multiset{m} + multiset{node} == multiset(f - {n, m} + {node})
    ensures |f - {n, m} + {node}| == |f| - 1
  {
    assert f == f - {n, m} + {n} + {m};
    assert |f - {n, m} + {n}| == |f - {n, m}| + 1;
  }

  /** What is known of the tree when ms have been merged. */
  ghost predicate Merged(h: seq<nat>, fc: seq<nat>, dl: seq<nat>, leaves: set<nat>, ms: seq<Pair>, elems: nat) {
    ValidMerges(leaves, ms, elems) && |h| == HEAP_SIZE && Recorded(h, ms) && Dads(dl, ms, elems, |ms|) &&
    elems + |ms| <= |fc| == |dl|
  }

  /** What is known between merges: f0 and l0 are the frequencies and fathers at the start. */
  ghost predicate Progress(h: seq<nat>, len: nat, fc: seq<nat>, dl: seq<nat>, ms: seq<Pair>, elems: nat, f0: seq<nat>,
                           l0: seq<nat>) {
    elems <= |f0| == |fc| && |l0| == |dl| && elems + |ms| <= |fc| == |dl| && len < |h| &&
    var leaves := Leaves(f0, elems);
    var total := Sum(leaves, WeightOf(f0), |f0|);
    Shape(h, len, dl, leaves, ms, elems) && Kept(fc, dl, leaves, elems, f0, l0) &&
    (total < 65536 ==> Conserved(leaves, ms, elems, fc, total))
  }

  /** The heap holds the roots, the places above it and the fathers the merges. */
  ghost predicate Shape(h: seq<nat>, len: nat, dl: seq<nat>, leaves: set<nat>, ms: seq<Pair>, elems: nat) {
    len < |h| && ValidMerges(leaves, ms, elems) && Recorded(h, ms) && Dads(dl, ms, elems, |ms|) &&
    Entries(h, len) == multiset(Forest(leaves, ms, elems, |ms|)) && |Forest(leaves, ms, elems, |ms|)| == len
  }

  lemma ShapeStep(h: seq<nat>, h': seq<nat>, len: nat, dl: seq<nat>, leaves: set<nat>, ms: seq<Pair>, elems: nat,
                  n: nat, m: nat)
    requires Shape(h, len, dl, leaves, ms, elems) && len >= 1 && 2 * |ms| + 2 <= |h| == |h'| && n < |dl| && m < |dl|
    requires n != m
    requires n in Forest(leaves, ms, elems, |ms|) && m in Forest(leaves, ms, elems, |ms|)
    requires Entries(h', len - 1) == Entries(h, len) - multiset{n} - multiset{m} + multiset{elems + |ms|}
    requires h'[|h| - 2 * |ms| - 1] == n && h'[|h| - 2 * |ms| - 2] == m
    requires forall i :: |h| - 2 * |ms| <= i < |h| ==> h'[i] == h[i]
    ensures Shape(h', len - 1, dl[n := elems + |ms|][m := elems + |ms|], leaves, ms + [Pair(n, m)], elems)
  {
    hide Entries, Forest, ValidMerges, Recorded, Dads;
    var f := Forest(leaves, ms, elems, |ms|);
    ForestBound(leaves, ms, elems, |ms|);
    MergedEntries(f, n, m, elems + |ms|);
    MergeMore(leaves, ms, Pair(n, m), elems);
    RecordMore(h, h', ms, Pair(n, m));
    DadsMore(dl, leaves, ms, Pair(n, m), elems);
  }

  /** The symbols keep their frequencies, and those that do not occur their lengths. */
  ghost predicate Kept(fc: seq<nat>, dl: seq<nat>, leaves: set<nat>, elems: nat, f0: seq<nat>, l0: seq<nat>) {
    elems <= |f0| == |fc| && elems <= |l0| == |dl| &&
    (forall x :: 0 <= x < elems ==> fc[x] == f0[x]) && forall x :: 0 <= x < elems && x !in leaves ==> dl[x] == l0[x]
  }

  lemma KeptMore(fc: seq<nat>, dl: seq<nat>, leaves: set<nat>, elems: nat, f0: seq<nat>, l0: seq<nat>, node: nat,
                 f: nat, n: nat, m: nat)
    requires Kept(fc, dl, leaves, elems, f0, l0) && elems <= node < |fc| && n < |dl| && m < |dl|
    requires (n < elems ==> n in leaves) && (m < elems ==> m in leaves)
    ensures Kept(fc[node := f], dl[n := node][m := node], leaves, elems, f0, l0)
  {
  }

  lemma ProgressStart(h: seq<nat>, len: nat, fc: seq<nat>, dl: seq<nat>, elems: nat)
    requires len < |h| && elems <= |fc| == |dl| && len == |Leaves(fc, elems)|
    requires Entries(h, len) == multiset(Leaves(fc, elems))
    ensures Progress(h, len, fc, dl, [], elems, fc, dl)
  {
    hide Sum, ValidMerges, Conserved, Recorded, Dads, Entries;
    NothingMerged(Leaves(fc, elems), elems, fc, dl, h);
  }

  /** The new node is not in the heap. */
  lemma ProgressFresh(h: seq<nat>, len: nat, fc: seq<nat>, dl: seq<nat>, ms: seq<Pair>, elems: nat, f0: seq<nat>,
                      l0: seq<nat>)
    requires Progress(h, len, fc, dl, ms, elems, f0, l0)
    ensures elems + |ms| !in Entries(h, len)
  {
    hide Sum, ValidMerges, Conserved, Recorded, Dads, Entries, Forest;
    ForestBound(Leaves(f0, elems), ms, elems, |ms|);
  }

  /** The two nodes that the heap gave up are the two lightest roots. */
  lemma ProgressTwo(h: seq<nat>, len: nat, fc: seq<nat>, dl: seq<nat>, depth: seq<nat>, ms: seq<Pair>,
                    elems: nat, f0: seq<nat>, l0: seq<nat>, n: nat, m: nat)
    requires Progress(h, len, fc, dl, ms, elems, f0, l0)
    requires n in Entries(h, len) && m in Entries(h, len) - multiset{n}
    requires forall x :: x in Entries(h, len) ==> Smaller(fc, depth, n, x)
    requires forall x :: x in Entries(h, len) - multiset{n} ==> Smaller(fc, depth, m, x)
    ensures TwoLightest(Forest(Leaves(f0, elems), ms, elems, |ms|), fc, n, m)
  {
    hide Smaller, Entries, Forest, ValidMerges, Sum, Leaves, Conserved, Recorded, Dads;
    LightestFirst(Forest(Leaves(f0, elems), ms, elems, |ms|), fc, depth, n, m);
  }

  lemma ProgressStep(h: seq<nat>, h': seq<nat>, len: nat, fc: seq<nat>, dl: seq<nat>, ms: seq<Pair>,
                     elems: nat, f0: seq<nat>, l0: seq<nat>, n: nat, m: nat)
    requires Progress(h, len, fc, dl, ms, elems, f0, l0) && len >= 1 && elems + |ms| < |fc|
    requires 2 * |ms| + 2 <= |h| == |h'|
    requires TwoLightest(Forest(Leaves(f0, elems), ms, elems, |ms|), fc, n, m)
    requires Entries(h', len - 1) == Entries(h, len) - multiset{n} - multiset{m} + multiset{elems + |ms|}
    requires h'[|h| - 2 * |ms| - 1] == n && h'[|h| - 2 * |ms| - 2] == m
    requires forall i :: |h| - 2 * |ms| <= i < |h| ==> h'[i] == h[i]
    ensures n < |fc| && m < |fc|
    ensures Progress(h', len - 1, fc[elems + |ms| := (fc[n] + fc[m]) % 65536], dl[n := elems + |ms|][m := elems + |ms|],
                     ms + [Pair(n, m)], elems, f0, l0)
  {
    hide Entries, Forest, Sum, Leaves, Conserved, TwoLightest, Kept, Shape;
    var leaves, node := Leaves(f0, elems), elems + |ms|;
    var f, total := Forest(leaves, ms, elems, |ms|), Sum(leaves, WeightOf(f0), |f0|);
    ShapeBound(h, len, dl, leaves, ms, elems);
    InTwo(f, fc, n, m);
    ShapeStep(h, h', len, dl, leaves, ms, elems, n, m);
    KeptMore(fc, dl, leaves, elems, f0, l0, node, (fc[n] + fc[m]) % 65536, n, m);
    if total < 65536 { GreedyMore(leaves, ms, Pair(n, m), elems, fc, total, (fc[n] + fc[m]) % 65536); }
  }

  lemma ShapeBound(h: seq<nat>, len: nat, dl: seq<nat>, leaves: set<nat>, ms: seq<Pair>, elems: nat)
    requires Shape(h, len, dl, leaves, ms, elems)
    ensures forall x :: x in Forest(leaves, ms, elems, |ms|) && x < elems ==> x in leaves
  {
    ForestBound(leaves, ms, elems, |ms|);
  }

  lemma ProgressEnd(h: seq<nat>, fc: seq<nat>, dl: seq<nat>, ms: seq<Pair>, elems: nat, f0: seq<nat>, l0: seq<nat>,
                    i: nat)
    requires Progress(h, 1, fc, dl, ms, elems, f0, l0) && |ms| > 0 && |h| == HEAP_SIZE == i + 2 * |ms| + 1
    ensures var leaves := Leaves(f0, elems);
            h[1] == elems + |ms| - 1 && Forest(leaves, ms, elems, |ms|) == {h[1]} &&
            Merged(h[i := h[1]], fc, dl, leaves, ms, elems) &&
            (Sum(leaves, WeightOf(f0), |f0|) < 65536 ==> Greedy(leaves, ms, elems, fc)) && fc[..elems] == f0[..elems] &&
            (forall x :: 0 <= x < elems && x !in leaves ==> dl[x] == l0[x])
  {
    hide Entries, Forest, ValidMerges, Sum, Leaves, Conserved, Recorded, Dads, Greedy;
    var leaves := Leaves(f0, elems);
    OneRoot(h, leaves, ms, elems);
    RecordKept(h, ms, i, h[1]);
    var total := Sum(leaves, WeightOf(f0), |f0|);
    if total < 65536 { ConservedGreedy(leaves, ms, elems, fc, total); }
  }

  /** One merge keeps what is known. */
  method MergeNext(heap: array<nat>, len: nat, max: nat, fc: array<nat>, dl: array<nat>, depth: array<nat>, node: nat,
                   ghost ms: seq<Pair>, ghost elems: nat, ghost f0: seq<nat>, ghost l0: seq<nat>)
    returns (heapLen: nat, heapMax: nat, ghost ms': seq<Pair>)
    requires fc != dl && fc != heap && fc != depth && dl != heap && dl != depth && heap != depth
    requires 2 <= len && len + 2 < max <= heap.Length && fc.Length == dl.Length <= depth.Length
    requires node < fc.Length && node == elems + |ms| && max == heap.Length - 2 * |ms|
    requires Nodes(heap[..], len, fc.Length) && HeapFrom(heap[..], len, fc[..], depth[..], 1)
    requires Progress(heap[..], len, fc[..], dl[..], ms, elems, f0, l0)
    modifies heap, fc, dl, depth
    ensures heapLen == len - 1 && heapMax == max - 2 && |ms'| == |ms| + 1
    ensures Nodes(heap[..], heapLen, fc.Length) && HeapFrom(heap[..], heapLen, fc[..], depth[..], 1)
    ensures Progress(heap[..], heapLen, fc[..], dl[..], ms', elems, f0, l0)
  {
    hide Smaller, Entries, HeapFrom, Nodes, Progress, TwoLightest, Forest, Leaves;
    ghost var w: seq<nat>, l: seq<nat>, h: seq<nat>, dp: seq<nat> := fc[..], dl[..], heap[..], depth[..];
    ProgressFresh(h, len, w, l, ms, elems, f0, l0);
    var n, m;
    heapLen, heapMax, n, m := MergeStep(heap, len, max, fc, dl, depth, node);
    ProgressTwo(h, len, w, l, dp, ms, elems, f0, l0, n, m);
    ProgressStep(h, heap[..], len, w, l, ms, elems, f0, l0, n, m);
    ms' := ms + [Pair(n, m)];
  }

  /** Merge the two least frequent nodes until one is left. */
  method MergeAll(heap: array<nat>, len: nat, fc: array<nat>, dl: array<nat>, depth: array<nat>, elems: nat)
    returns (heapMax: nat, ghost ms: seq<Pair>)
    requires fc != dl && fc != heap && fc != depth && dl != heap && dl != depth && heap != depth
    requires elems <= 286 && fc.Length == dl.Length == 2 * elems + 1 <= depth.Length && heap.Length == HEAP_SIZE
    requires 2 <= len == |Leaves(fc[..], elems)| <= elems
    requires Entries(heap[..], len) == multiset(Leaves(fc[..], elems))
    requires Nodes(heap[..], len, fc.Length) && HeapFrom(heap[..], len, fc[..], depth[..], 1)
    modifies heap, fc, dl, depth
    ensures var leaves := Leaves(old(fc[..]), elems);
            |ms| == len - 1 && heapMax == HEAP_SIZE - 2 * |ms| - 1 &&
            Merged(heap[..], fc[..], dl[..], leaves, ms, elems) && heap[heapMax] == elems + |ms| - 1 &&
            Forest(leaves, ms, elems, |ms|) == {elems + |ms| - 1} &&
            (Sum(leaves, WeightOf(old(fc[..])), fc.Length) < 65536 ==> Greedy(leaves, ms, elems, fc[..])) &&
            forall x :: 0 <= x < elems && x !in leaves ==> dl[x] == old(dl[x])
    ensures fc[..elems] == old(fc[..elems])
  {
    hide Smaller, Entries, HeapFrom, Nodes, Forest, Sum, Leaves, Progress, Merged, Greedy;
    ghost var f0: seq<nat>, l0: seq<nat> := fc[..], dl[..];
    ms := [];
    ProgressStart(heap[..], len, f0, l0, elems);
    var heapLen: nat, node: nat := len, elems;
    heapMax := HEAP_SIZE;
    while heapLen >= 2
      invariant node == elems + |ms| && heapLen + |ms| == len && heapMax == HEAP_SIZE - 2 * |ms| && heapLen >= 1
      invariant Nodes(heap[..], heapLen, fc.Length) && HeapFrom(heap[..], heapLen, fc[..], depth[..], 1)
      invariant Progress(heap[..], heapLen, fc[..], dl[..], ms, elems, f0, l0)
    {
      heapLen, heapMax, ms := MergeNext(heap, heapLen, heapMax, fc, dl, depth, node, ms, elems, f0, l0);
      node := node + 1;
    }
    ghost var h: seq<nat> := heap[..];
    heapMax := heapMax - 1;
    ProgressEnd(h, fc[..], dl[..], ms, elems, f0, l0, heapMax);
    heap[heapMax] := heap[1];
    assert heap[..] == h[heapMax := h[1]];
  }

  lemma ConservedGreedy(leaves: set<nat>, ms: seq<Pair>, elems: nat, w: seq<nat>, total: int)
    requires Conserved(leaves, ms, elems, w, total)
    ensures Greedy(leaves, ms, elems, w)
  {
  }

  lemma RecordKept(h: seq<nat>, ms: seq<Pair>, i: nat, x: nat)
    requires Recorded(h, ms) && 2 * |ms| + 1 <= |h| && i == |h| - 2 * |ms| - 1
    ensures Recorded(h[i := x], ms)
  {
  }

  /** The last node in the heap is the one made last. */
  lemma OneRoot(h: seq<nat>, leaves: set<nat>, ms: seq<Pair>, elems: nat)
    requires |ms| > 0 && 1 < |h| && |Forest(leaves, ms, elems, |ms|)| == 1
    requires Entries(h, 1) == multiset(Forest(leaves, ms, elems, |ms|))
    ensures Forest(leaves, ms, elems, |ms|) == {elems + |ms| - 1} && h[1] == elems + |ms| - 1
  {
    hide Forest;
    ForestNext(leaves, ms, elems, |ms| - 1);
    var f, x := Forest(leaves, ms, elems, |ms|), elems + |ms| - 1;
    assert |f - {x}| == 0;
    assert f == f - {x} + {x};
    EntryIn(h, 1, 1);
    assert h[1] in f;
  }

  lemma NothingMerged(leaves: set<nat>, elems: nat, w: seq<nat>, dl: seq<nat>, h: seq<nat>)
    requires elems <= |w| && forall x :: x in leaves ==> x < elems
    ensures ValidMerges(leaves, [], elems) && Recorded(h, []) && Dads(dl, [], elems, 0)
    ensures Forest(leaves, [], elems, 0) == leaves
    ensures Conserved(leaves, [], elems, w, Sum(leaves, WeightOf(w), |w|))
  {
  }
}
