/** pqdownheap of trees.c: the heap of tree nodes, least frequent first. The sons of entry k are
    entries 2k and 2k + 1; entry 0 is not used. */
module PqHeap {

  /** smaller: by frequency, then by depth. */
  predicate Smaller(fc: seq<nat>, depth: seq<nat>, n: nat, m: nat) {
    n < |fc| && m < |fc| && n < |depth| && m < |depth| &&
    (fc[n] < fc[m] || (fc[n] == fc[m] && depth[n] <= depth[m]))
  }

  predicate Nodes(h: seq<nat>, len: nat, bound: nat) {
    len < |h| && forall i :: 1 <= i <= len ==> h[i] < bound
  }

  /** Every entry whose father is at lo or beyond is not smaller than its father. */
  ghost predicate HeapFrom(h: seq<nat>, len: nat, fc: seq<nat>, depth: seq<nat>, lo: nat) {
    len < |h| && forall i :: 2 <= i <= len && i / 2 >= lo ==> Smaller(fc, depth, h[i / 2], h[i])
  }

  /** The same, except that entry k may be greater than its sons; its father is not. */
  ghost predicate HeapBut(h: seq<nat>, len: nat, fc: seq<nat>, depth: seq<nat>, lo: nat, k: nat) {
    len < |h| &&
    (forall i :: 2 <= i <= len && i / 2 >= lo && i / 2 != k ==> Smaller(fc, depth, h[i / 2], h[i])) &&
    (forall i :: 2 <= i <= len && i / 2 == k && k / 2 >= lo && k >= 2 ==> Smaller(fc, depth, h[k / 2], h[i]))
  }

  /** The entries of the heap. */
  function Entries(h: seq<nat>, len: nat): multiset<nat>
    requires len < |h|
  {
    multiset(h[1..len + 1])
  }

  lemma SwapEntries(h: seq<nat>, len: nat, i: nat, j: nat)
    requires len < |h| && 1 <= i <= len && 1 <= j <= len
    ensures Entries(h[i := h[j]][j := h[i]], len) == Entries(h, len)
  {
    var s, r := h[1..len + 1], h[i := h[j]][j := h[i]][1..len + 1];
    assert r == s[i - 1 := s[j - 1]][j - 1 := s[i - 1]];
  }

  lemma EntryIn(h: seq<nat>, len: nat, i: nat)
    requires len < |h| && 1 <= i <= len
    ensures h[i] in Entries(h, len)
  {
    assert h[1..len + 1][i - 1] == h[i];
  }

  lemma SmallerTrans(fc: seq<nat>, depth: seq<nat>, a: nat, b: nat, c: nat)
    requires Smaller(fc, depth, a, b) && Smaller(fc, depth, b, c)
    ensures Smaller(fc, depth, a, c)
  {
  }

  /** Moving the smaller son up. */
  lemma StepDown(h: seq<nat>, len: nat, fc: seq<nat>, depth: seq<nat>, lo: nat, k: nat, j: nat)
    requires HeapBut(h, len, fc, depth, lo, k) && 1 <= lo <= k && SmallestSon(h, len, fc, depth, k, j)
    requires Nodes(h, len, |fc|) && |depth| >= |fc| && !Smaller(fc, depth, h[k], h[j])
    ensures HeapBut(h[k := h[j]][j := h[k]], len, fc, depth, lo, j)
  {
    var r := h[k := h[j]][j := h[k]];
    forall i | 2 <= i <= len && i / 2 >= lo && i / 2 != j ensures Smaller(fc, depth, r[i / 2], r[i]) {
      assert i != k ==> r[i] == if i == j then h[k] else h[i];
    }
  }

  /** Entry k is the only one that may be greater than its sons. */
  lemma HeapHole(h: seq<nat>, len: nat, fc: seq<nat>, depth: seq<nat>, k: nat)
    requires HeapFrom(h, len, fc, depth, k + 1)
    ensures HeapBut(h, len, fc, depth, k, k)
  {
  }

  /** Of the sons of k, entry j is the smallest. */
  ghost predicate SmallestSon(h: seq<nat>, len: nat, fc: seq<nat>, depth: seq<nat>, k: nat, j: nat) {
    len < |h| && j / 2 == k && 2 <= j <= len &&
    forall i :: 2 <= i <= len && i / 2 == k ==> Smaller(fc, depth, h[j], h[i])
  }

  lemma ChooseSon(h: seq<nat>, len: nat, fc: seq<nat>, depth: seq<nat>, k: nat, j: nat)
    requires Nodes(h, len, |fc|) && |depth| >= |fc| && 1 <= k && 2 * k <= j <= 2 * k + 1 && j <= len
    requires j == 2 * k && 2 * k + 1 <= len ==> !Smaller(fc, depth, h[2 * k + 1], h[2 * k])
    requires j == 2 * k + 1 ==> Smaller(fc, depth, h[2 * k + 1], h[2 * k])
    ensures SmallestSon(h, len, fc, depth, k, j)
  {
  }

  /** The hole is filled: nothing below it is smaller. */
  lemma HoleFilled(h: seq<nat>, len: nat, fc: seq<nat>, depth: seq<nat>, lo: nat, k: nat)
    requires HeapBut(h, len, fc, depth, lo, k) && 1 <= lo <= k
    requires 2 * k > len || exists j: nat :: SmallestSon(h, len, fc, depth, k, j) && Smaller(fc, depth, h[k], h[j])
    ensures HeapFrom(h, len, fc, depth, lo)
  {
    if 2 * k <= len {
      var j: nat :| SmallestSon(h, len, fc, depth, k, j) && Smaller(fc, depth, h[k], h[j]);
      forall i | 2 <= i <= len && i / 2 == k ensures Smaller(fc, depth, h[k], h[i]) {
        SmallerTrans(fc, depth, h[k], h[j], h[i]);
      }
    }
  }

  /** Nothing in the heap is smaller than its first entry. */
  lemma {:induction false} FirstIsSmallest(h: seq<nat>, len: nat, fc: seq<nat>, depth: seq<nat>, i: nat)
    requires HeapFrom(h, len, fc, depth, 1) && 1 <= i <= len && Nodes(h, len, |fc|) && |depth| >= |fc|
    ensures Smaller(fc, depth, h[1], h[i])
  {
    if i >= 2 {
      FirstIsSmallest(h, len, fc, depth, i / 2);
      SmallerTrans(fc, depth, h[1], h[i / 2], h[i]);
    }
  }

  /** Nothing among the entries of the heap is smaller than its first entry. */
  lemma FirstOfEntries(h: seq<nat>, len: nat, fc: seq<nat>, depth: seq<nat>, x: nat)
    requires HeapFrom(h, len, fc, depth, 1) && Nodes(h, len, |fc|) && |depth| >= |fc| && x in Entries(h, len)
    ensures Smaller(fc, depth, h[1], x)
  {
    var i :| 0 <= i < |h[1..len + 1]| && h[1..len + 1][i] == x;
    FirstIsSmallest(h, len, fc, depth, i + 1);
  }

  /** Restore the heap property by moving entry k0 down. */
  method PqDownHeap(heap: array<nat>, heapLen: nat, fc: array<nat>, depth: array<nat>, k0: nat)
    requires heapLen < heap.Length && 1 <= k0 <= heapLen && heap != fc && heap != depth && depth.Length >= fc.Length
    requires Nodes(heap[..], heapLen, fc.Length)
    requires HeapFrom(heap[..], heapLen, fc[..], depth[..], k0 + 1)
    modifies heap
    ensures HeapFrom(heap[..], heapLen, fc[..], depth[..], k0)
    ensures Entries(heap[..], heapLen) == Entries(old(heap[..]), heapLen)
    ensures forall i :: 0 <= i < heap.Length && (i == 0 || i > heapLen) ==> heap[i] == old(heap[i])
    ensures Nodes(heap[..], heapLen, fc.Length)
  {
    hide Smaller, Entries, HeapBut, HeapFrom;
    var k := k0;
    var v := heap[k];
    var j := 2 * k;
    ghost var h := heap[..];  // the heap with v in entry k
    HeapHole(h, heapLen, fc[..], depth[..], k);
    while j <= heapLen
      invariant k0 <= k <= heapLen && j == 2 * k && h == heap[..][k := v]
      invariant HeapBut(h, heapLen, fc[..], depth[..], k0, k) && Nodes(h, heapLen, fc.Length)
      invariant Entries(h, heapLen) == Entries(old(heap[..]), heapLen)
      invariant forall i :: 0 <= i < heap.Length && (i == 0 || i > heapLen) ==> heap[i] == old(heap[i])
    {
      if j < heapLen && Smaller(fc[..], depth[..], heap[j + 1], heap[j]) { j := j + 1; }
      ChooseSon(h, heapLen, fc[..], depth[..], k, j);
      if Smaller(fc[..], depth[..], v, heap[j]) {
        HoleFilled(h, heapLen, fc[..], depth[..], k0, k);
        break;
      }
      StepDown(h, heapLen, fc[..], depth[..], k0, k, j);
      SwapEntries(h, heapLen, k, j);
      h := h[k := h[j]][j := h[k]];
      heap[k] := heap[j];
      k := j;
      j := 2 * j;
    }
    if j > heapLen { HoleFilled(h, heapLen, fc[..], depth[..], k0, k); }
    heap[k] := v;
    assert heap[..] == h;
  }
}
