/** The space that inflate_table's tables take: which codes are still to come, in which share of the
    code space they start, and how large the sub-tables are that the long ones need. */
module TableSpace {
  import opened Bits
  import opened Canonical

  // ----- how many codes are still to come -----

  /** How many of the codes from the k-th on have length l. */
  ghost function Rem(ls: seq<nat>, k: nat, l: nat): nat
    requires k <= |ls|
    decreases |ls| - k
  {
    if k == |ls| then 0 else (if ls[k] == l then 1 else 0) + Rem(ls, k + 1, l)
  }

  /** The positions that the codes from the k-th on with lengths up to m take. */
  ghost function RemMeasure(ls: seq<nat>, k: nat, m: nat): nat
    requires k <= |ls| && m <= MAXBITS
  {
    if m == 0 then 0 else RemMeasure(ls, k, m - 1) + Shl(Rem(ls, k, m), MAXBITS - m)
  }

  lemma {:induction false} RemNone(ls: seq<nat>, k: nat, j: nat, l: nat)
    requires k <= j <= |ls| && forall i :: k <= i < j ==> ls[i] != l
    ensures Rem(ls, k, l) == Rem(ls, j, l)
    decreases j - k
  {
    if k < j { RemNone(ls, k + 1, j, l); }
  }

  lemma {:induction false} RemAll(ls: seq<nat>, k: nat, j: nat, l: nat)
    requires k <= j <= |ls| && forall i :: k <= i < j ==> ls[i] == l
    ensures Rem(ls, k, l) == j - k + Rem(ls, j, l)
    decreases j - k
  {
    if k < j { RemAll(ls, k + 1, j, l); }
  }

  /** At first the codes to come are all of them. */
  lemma RemStart(lens: seq<nat>, l: nat)
    requires 1 <= l <= MAXBITS
    ensures Rem(SortedLens(lens), 0, l) == Count(lens, l)
  {
    var ls, a, b := SortedLens(lens), |SortedTo(lens, l - 1)|, |SortedTo(lens, l)|;
    SortedMono(lens, l - 1, l);
    SortedMono(lens, l, MAXBITS);
    forall i | 0 <= i < |ls| ensures ls[i] == l <==> a <= i < b {
      SortedElems(lens, MAXBITS, i);
      if i < a {
        SortedMono(lens, l - 1, MAXBITS);
        SortedElems(lens, l - 1, i);
      } else if i < b {
        SegLens(lens, l, i);
      } else if ls[i] == l {
        SegPrefix(lens, Sorted(lens)[i], l);
      }
    }
    RemNone(ls, 0, a, l);
    RemAll(ls, a, b, l);
    RemNone(ls, b, |ls|, l);
  }

  lemma RemPositive(ls: seq<nat>, k: nat, l: nat) returns (j: nat)
    requires k <= |ls| && Rem(ls, k, l) > 0
    ensures k <= j < |ls| && ls[j] == l
    decreases |ls| - k
  {
    if ls[k] == l { j := k; } else { j := RemPositive(ls, k + 1, l); }
  }

  lemma {:induction false} RemMeasureStep(ls: seq<nat>, k: nat, m: nat)
    requires k < |ls| && m <= MAXBITS && 1 <= ls[k] <= MAXBITS
    ensures RemMeasure(ls, k, m) == RemMeasure(ls, k + 1, m) + if ls[k] <= m then Weight(ls[k]) else 0
  {
    if m > 0 {
      RemMeasureStep(ls, k, m - 1);
      if ls[k] == m {
        ShlAdd(Rem(ls, k + 1, m), 1, MAXBITS - m);
        ShlOne(MAXBITS - m);
      }
    }
  }

  lemma {:induction false} RemMeasureNone(ls: seq<nat>, k: nat, m: nat)
    requires k <= |ls| && m <= MAXBITS && forall i :: k <= i < |ls| ==> ls[i] > m
    ensures RemMeasure(ls, k, m) == 0
  {
    if m > 0 {
      RemMeasureNone(ls, k, m - 1);
      RemNone(ls, k, |ls|, m);
      ShlZero(MAXBITS - m);
    }
  }

  /** A code longer than m starts beyond all the remaining codes of length up to m. */
  lemma {:induction false} LongStartsBeyond(ls: seq<nat>, k: nat, j: nat, m: nat)
    requires Ascending(ls) && k <= j < |ls| && m < ls[j] && m <= MAXBITS
    ensures PosAt(ls, j) >= PosAt(ls, k) + RemMeasure(ls, k, m)
    decreases j - k
  {
    if k == j {
      RemMeasureNone(ls, k, m);
    } else {
      LongStartsBeyond(ls, k + 1, j, m);
      RemMeasureStep(ls, k, m);
      PosSucc(ls, k);
    }
  }

  // ----- shares of the code space -----

  /** The root index of a long code says which share of the code space it starts in. */
  lemma RootIndex(ls: seq<nat>, k: nat, root: nat)
    requires Ascending(ls) && k < |ls| && root <= ls[k] && PosAt(ls, |ls|) <= Pow2(MAXBITS)
    ensures Low(HuffAt(ls, k), root) == Rev(High(PosAt(ls, k), MAXBITS - root), root)
    ensures High(PosAt(ls, k), MAXBITS - root) < Pow2(root)
  {
    hide CodeAt, PosAt, Rev, Low, High, Pow2;
    RevPrefix(CodeAt(ls, k), ls[k] - root, root);
    PosPrefix(ls, k, root);
    CodeFits(ls, k);
    HighBelow(CodeAt(ls, k), ls[k] - root, root);
  }

  /** Codes with the same root index start in the same share of the code space. */
  lemma SameShare(ls: seq<nat>, k: nat, j: nat, root: nat)
    requires Ascending(ls) && k <= j < |ls| && root <= ls[k] && PosAt(ls, |ls|) <= Pow2(MAXBITS)
    requires Low(HuffAt(ls, j), root) == Low(HuffAt(ls, k), root)
    ensures PosAt(ls, j) < PosAt(ls, k) + Weight(root)
    ensures High(PosAt(ls, j), MAXBITS - root) == High(PosAt(ls, k), MAXBITS - root)
  {
    hide CodeAt, PosAt, Rev, Low, High, HuffAt, Shl;
    RootIndex(ls, j, root);
    RootIndex(ls, k, root);
    RevInjective(High(PosAt(ls, j), MAXBITS - root), High(PosAt(ls, k), MAXBITS - root), root);
    Split(PosAt(ls, j), MAXBITS - root);
    Split(PosAt(ls, k), MAXBITS - root);
  }

  /** A root index different from the last code's is different from every earlier one's. */
  lemma NewIndex(ls: seq<nat>, j: nat, k: nat, root: nat)
    requires Ascending(ls) && j < k < |ls| && root <= ls[j] && PosAt(ls, |ls|) <= Pow2(MAXBITS)
    requires Low(HuffAt(ls, k), root) != Low(HuffAt(ls, k - 1), root)
    ensures Low(HuffAt(ls, k), root) != Low(HuffAt(ls, j), root)
  {
    hide CodeAt, PosAt, Rev, Low, High, HuffAt, Shl, Pow2;
    if Low(HuffAt(ls, k), root) == Low(HuffAt(ls, j), root) {
      SameShare(ls, j, k, root);
      PosMono(ls, j, k - 1);
      PosMono(ls, k - 1, k);
      HighMono(PosAt(ls, j), PosAt(ls, k - 1), MAXBITS - root);
      HighMono(PosAt(ls, k - 1), PosAt(ls, k), MAXBITS - root);
      RootIndex(ls, k, root);
      RootIndex(ls, k - 1, root);
    }
  }

  // ----- the size of the tables -----

  /** Code k is the first of those longer than the root index with its root bits. */
  ghost predicate OpensTable(ls: seq<nat>, root: nat, k: nat)
    requires Ascending(ls) && k < |ls|
  {
    ls[k] > root &&
    forall j :: 0 <= j < k && ls[j] > root ==> Low(HuffAt(ls, j), root) != Low(HuffAt(ls, k), root)
  }

  /** The longest of the first n codes with root bits i; root if none is longer. */
  ghost function LongestWith(ls: seq<nat>, root: nat, i: nat, n: nat): (m: nat)
    requires Ascending(ls) && n <= |ls|
    ensures m >= root
  {
    if n == 0 then root
    else
      var m := LongestWith(ls, root, i, n - 1);
      if ls[n - 1] > m && Low(HuffAt(ls, n - 1), root) == i then ls[n - 1] else m
  }

  /** The root table and, for every root index that codes longer than it share, a sub-table for the
      rest of the longest of them: the entries of all tables that the first k codes need. */
  ghost function SizeTo(ls: seq<nat>, root: nat, k: nat): nat
    requires Ascending(ls) && k <= |ls|
  {
    if k == 0 then Pow2(root)
    else
      SizeTo(ls, root, k - 1) +
      if OpensTable(ls, root, k - 1) then Pow2(LongestWith(ls, root, Low(HuffAt(ls, k - 1), root), |ls|) - root) else 0
  }

  /** The index bits of the root table: no more than bits, but within the lengths in use. */
  ghost function RootBits(ls: seq<nat>, bits: nat): nat
    requires ls != []
  {
    var r := if bits > ls[|ls| - 1] then ls[|ls| - 1] else bits;
    if r < ls[0] then ls[0] else r
  }

  /** The entries that the tables for a set of lengths take; two for an empty one. */
  ghost function TableSize(lens: seq<nat>, bits: nat): nat {
    SortedLensAscend(lens);
    var ls := SortedLens(lens);
    if ls == [] then 2 else SizeTo(ls, RootBits(ls, bits), |ls|)
  }

  lemma {:induction false} SizeMono(ls: seq<nat>, root: nat, j: nat, k: nat)
    requires Ascending(ls) && j <= k <= |ls|
    ensures SizeTo(ls, root, j) <= SizeTo(ls, root, k)
    decreases k
  {
    hide OpensTable, LongestWith, Pow2;
    if j < k { SizeMono(ls, root, j, k - 1); }
  }

  lemma SizeNext(ls: seq<nat>, root: nat, k: nat)
    requires Ascending(ls) && k < |ls|
    ensures SizeTo(ls, root, k + 1) == SizeTo(ls, root, k) +
            if OpensTable(ls, root, k) then Pow2(LongestWith(ls, root, Low(HuffAt(ls, k), root), |ls|) - root) else 0
  {
    hide OpensTable, LongestWith, Pow2;
  }

  /** A short code, or one with the root bits of the long code before it, needs no new table. */
  lemma NoTable(ls: seq<nat>, root: nat, k: nat)
    requires Ascending(ls) && k < |ls|
    requires ls[k] <= root || (k > 0 && ls[k - 1] > root && Low(HuffAt(ls, k - 1), root) == Low(HuffAt(ls, k), root))
    ensures SizeTo(ls, root, k + 1) == SizeTo(ls, root, k)
  {
    hide LongestWith, Pow2, Low, HuffAt;
    SizeNext(ls, root, k);
  }

  lemma {:induction false} LongestIs(ls: seq<nat>, root: nat, i: nat, n: nat, m: nat, j: nat)
    requires Ascending(ls) && n <= |ls| && m > root
    requires forall x :: 0 <= x < n && ls[x] > root && Low(HuffAt(ls, x), root) == i ==> ls[x] <= m
    ensures LongestWith(ls, root, i, n) <= m
    ensures j < n && ls[j] == m && Low(HuffAt(ls, j), root) == i ==> LongestWith(ls, root, i, n) == m
  {
    hide Low, HuffAt;
    if n > 0 { LongestIs(ls, root, i, n - 1, m, j); }
  }

  /** The first code from k on that has at least m bits starts right after the shorter ones. */
  lemma {:induction false} FirstOfLength(ls: seq<nat>, k: nat, m: nat) returns (j: nat)
    requires Ascending(ls) && k <= |ls| && 1 <= m <= MAXBITS
    ensures k <= j <= |ls| && PosAt(ls, j) == PosAt(ls, k) + RemMeasure(ls, k, m - 1) && (j < |ls| ==> ls[j] >= m)
    decreases |ls| - k
  {
    hide PosAt, RemMeasure;
    if k == |ls| || ls[k] >= m {
      RemMeasureNone(ls, k, m - 1);
      j := k;
    } else {
      j := FirstOfLength(ls, k + 1, m);
      RemMeasureStep(ls, k, m - 1);
      PosSucc(ls, k);
    }
  }

  /** In a complete code, a share that codes shorter than m do not fill holds one of at least m bits. */
  lemma LongInShare(ls: seq<nat>, k: nat, root: nat, m: nat) returns (j: nat)
    requires Ascending(ls) && k < |ls| && 1 <= m <= MAXBITS && root <= MAXBITS
    requires PosAt(ls, |ls|) == Pow2(MAXBITS) && PosAt(ls, k) + Weight(root) <= Pow2(MAXBITS)
    requires RemMeasure(ls, k, m - 1) < Weight(root)
    ensures k <= j < |ls| && ls[j] >= m && PosAt(ls, j) < PosAt(ls, k) + Weight(root)
  {
    hide PosAt, RemMeasure, Pow2;
    j := FirstOfLength(ls, k, m);
  }

  /** The position after code k. */
  lemma PosAfter(ls: seq<nat>, k: nat)
    requires Ascending(ls) && k < |ls|
    ensures PosAt(ls, k + 1) == Shl(CodeAt(ls, k) + 1, MAXBITS - ls[k])
  {
    hide CodeAt, PosAt, Shl, Pow2;
    CodeAtPos(ls, k);
    PosSucc(ls, k);
    ShlAdd(CodeAt(ls, k), 1, MAXBITS - ls[k]);
    ShlOne(MAXBITS - ls[k]);
  }

  /** The code after c starts a new share if their leading bits differ. */
  lemma NextShare(c: nat, e: nat)
    requires High(c + 1, e) != High(c, e)
    ensures c + 1 == Shl(High(c, e) + 1, e)
  {
    hide Low, High, Shl, Pow2;
    Split(c, e);
    if Low(c, e) + 1 < Pow2(e) { LowHighOf(High(c, e), Low(c, e) + 1, e); }
    ShlAdd(High(c, e), 1, e);
    ShlOne(e);
  }

  /** The first code of a share starts where the share does, as number q of all shares. */
  lemma ShareStart(ls: seq<nat>, k: nat, root: nat) returns (q: nat)
    requires Ascending(ls) && 0 < k < |ls| && root < ls[k] && 1 <= root && PosAt(ls, |ls|) <= Pow2(MAXBITS)
    requires root < ls[k - 1] ==> Low(HuffAt(ls, k), root) != Low(HuffAt(ls, k - 1), root)
    ensures PosAt(ls, k) == Shl(q, MAXBITS - root)
  {
    hide CodeAt, Rev, Low, High, HuffAt, Shl, Pow2, PosAt;
    var c, l, w := CodeAt(ls, k - 1), ls[k - 1], MAXBITS - root;
    PosAfter(ls, k - 1);
    if l <= root {
      q := Shl(c + 1, root - l);
      ShlShl(c + 1, root - l, w);
    } else {
      RootIndex(ls, k - 1, root);
      RootIndex(ls, k, root);
      PosPrefix(ls, k - 1, root);
      LowHighOf(c + 1, 0, MAXBITS - l);
      HighHigh(PosAt(ls, k), MAXBITS - l, l - root);
      NextShare(c, l - root);
      q := High(c, l - root) + 1;
      ShlShl(q, l - root, MAXBITS - l);
    }
  }

  lemma ShareFits(ls: seq<nat>, k: nat, root: nat, q: nat)
    requires Ascending(ls) && k < |ls| && 1 <= root <= MAXBITS && PosAt(ls, |ls|) <= Pow2(MAXBITS)
    requires PosAt(ls, k) == Shl(q, MAXBITS - root)
    ensures PosAt(ls, k) + Weight(root) <= Pow2(MAXBITS)
  {
    hide Shl, Pow2, PosAt;
    PosSucc(ls, k);
    PosMono(ls, k + 1, |ls|);
    var w := MAXBITS - root;
    ShlOne(MAXBITS);
    ShlShl(1, root, w);
    if q >= Shl(1, root) { ShlMono(Shl(1, root), q, w); }
    ShlMono(q + 1, Shl(1, root), w);
    ShlAdd(q, 1, w);
    ShlOne(w);
  }

  /** Codes that start in the same share have the same root bits. */
  lemma ShareIndex(ls: seq<nat>, k: nat, j: nat, root: nat, q: nat)
    requires Ascending(ls) && k <= j < |ls| && 1 <= root <= ls[k] && PosAt(ls, |ls|) <= Pow2(MAXBITS)
    requires PosAt(ls, k) == Shl(q, MAXBITS - root) && PosAt(ls, j) < PosAt(ls, k) + Weight(root)
    ensures Low(HuffAt(ls, j), root) == Low(HuffAt(ls, k), root)
  {
    hide CodeAt, Rev, Low, High, HuffAt, Shl, Pow2, PosAt;
    var w := MAXBITS - root;
    PosMono(ls, k, j);
    RootIndex(ls, k, root);
    RootIndex(ls, j, root);
    LowHighOf(q, 0, w);
    LowHighOf(q, PosAt(ls, j) - PosAt(ls, k), w);
  }

  /** Code k, with root bits that no earlier long code has, opens a table for curr more bits, which
      is what the longest code of its share needs. */
  lemma OpensFor(ls: seq<nat>, k: nat, root: nat, curr: nat)
    requires Ascending(ls) && 0 < k < |ls| && root < ls[k] && 1 <= root && PosAt(ls, |ls|) == Pow2(MAXBITS)
    requires root < ls[k - 1] ==> Low(HuffAt(ls, k), root) != Low(HuffAt(ls, k - 1), root)
    requires ls[k] <= root + curr
    requires forall j :: k <= j < |ls| && PosAt(ls, j) < PosAt(ls, k) + Weight(root) ==> ls[j] <= root + curr
    requires PosAt(ls, k) + Weight(root) <= Pow2(MAXBITS) ==>
             exists j :: k <= j < |ls| && PosAt(ls, j) < PosAt(ls, k) + Weight(root) && ls[j] >= root + curr
    ensures SizeTo(ls, root, k + 1) == SizeTo(ls, root, k) + Pow2(curr)
  {
    hide Low, HuffAt, Shl, Pow2, PosAt, LongestWith;
    var i := Low(HuffAt(ls, k), root);
    var q := ShareStart(ls, k, root);
    ShareFits(ls, k, root, q);
    var j :| k <= j < |ls| && PosAt(ls, j) < PosAt(ls, k) + Weight(root) && ls[j] >= root + curr;
    ShareIndex(ls, k, j, root, q);
    forall x | 0 <= x < |ls| && ls[x] > root && Low(HuffAt(ls, x), root) == i ensures x >= k && ls[x] <= root + curr {
      if x < k { NewIndex(ls, x, k, root); } else { SameShare(ls, k, x, root); }
    }
    LongestIs(ls, root, i, |ls|, root + curr, j);
    SizeNext(ls, root, k);
  }
}
