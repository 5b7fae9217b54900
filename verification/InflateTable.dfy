/** inflate_table of inftrees.c: from code lengths to the two-level decoding table. */
module InflateTable {
  import opened Bits
  import opened Canonical
  import opened DecodeTable
  import opened TableSpace

  const ENOUGH_LENS: nat := 852
  const ENOUGH_DISTS: nat := 592

  // ----- the steps of inflate_table -----

  method CountLengths(lens: seq<nat>) returns (count: array<nat>)
    requires ValidLens(lens)
    ensures fresh(count) && count.Length == MAXBITS + 1
    ensures forall b :: 0 <= b <= MAXBITS ==> count[b] == Count(lens, b)
  {
    count := new nat[MAXBITS + 1](_ => 0);
    assert lens[..0] == [];
    for sym := 0 to |lens|
      invariant forall b :: 0 <= b <= MAXBITS ==> count[b] == Count(lens[..sym], b)
    {
      assert lens[..sym + 1][..sym] == lens[..sym];
      count[lens[sym]] := count[lens[sym]] + 1;
    }
    assert lens[..|lens|] == lens;
  }

  /** The longest and the shortest length in use (0 and 1 if there is none). */
  method LengthBounds(count: array<nat>) returns (max: nat, min: nat)
    requires count.Length == MAXBITS + 1
    ensures max <= MAXBITS && (max > 0 ==> count[max] > 0) && forall b :: max < b <= MAXBITS ==> count[b] == 0
    ensures 1 <= min <= MAXBITS && (max > 0 ==> min <= max && count[min] > 0)
    ensures forall b :: 1 <= b < min ==> count[b] == 0
  {
    max := MAXBITS;
    while max >= 1 && count[max] == 0
      invariant max <= MAXBITS && forall b :: max < b <= MAXBITS ==> count[b] == 0
    {
      max := max - 1;
    }
    min := 1;
    while min < max && count[min] == 0
      invariant 1 <= min && (max > 0 ==> min <= max) && (max == 0 ==> min == 1)
      invariant forall b :: 1 <= b < min ==> count[b] == 0
    {
      min := min + 1;
    }
  }

  lemma {:induction false} KraftMono(lens: seq<nat>, a: nat, b: nat)
    requires a <= b <= MAXBITS
    ensures KraftTo(lens, a) <= KraftTo(lens, b)
    decreases b
  {
    if a < b { KraftMono(lens, a, b - 1); }
  }

  /** The over-subscription loop: what is left of the code space after all lengths, or negative. */
  method CodeSpaceLeft(count: array<nat>, ghost lens: seq<nat>) returns (left: int)
    requires count.Length == MAXBITS + 1 && forall b :: 0 <= b <= MAXBITS ==> count[b] == Count(lens, b)
    ensures left < 0 <==> Kraft(lens) > Pow2(MAXBITS)
    ensures left >= 0 ==> left == Pow2(MAXBITS) - Kraft(lens)
  {
    hide Shl, Pow2, KraftTo;
    left := 1;
    SpaceStart(lens);
    for len := 1 to MAXBITS + 1
      invariant left >= 0 && Shl(left, MAXBITS + 1 - len) + KraftTo(lens, len - 1) == Pow2(MAXBITS)
    {
      SpaceStep(lens, len, left, count[len]);
      left := 2 * left - count[len];
      if left < 0 {
        KraftMono(lens, len, MAXBITS);
        return;
      }
    }
    SpaceEnd(left);
  }

  lemma SpaceStart(lens: seq<nat>)
    ensures Shl(1, MAXBITS) + KraftTo(lens, 0) == Pow2(MAXBITS)
  {
    ShlOne(MAXBITS);
  }

  lemma SpaceEnd(left: nat)
    ensures Shl(left, 0) == left
  {
  }

  lemma SpaceStep(lens: seq<nat>, len: nat, left: nat, n: nat)
    requires 1 <= len <= MAXBITS && n == Count(lens, len)
    requires Shl(left, MAXBITS + 1 - len) + KraftTo(lens, len - 1) == Pow2(MAXBITS)
    ensures 2 * left >= n ==> Shl(2 * left - n, MAXBITS - len) + KraftTo(lens, len) == Pow2(MAXBITS)
    ensures 2 * left < n ==> KraftTo(lens, len) > Pow2(MAXBITS)
  {
    hide Shl, Pow2;
    var d := MAXBITS - len;
    ShlInto(left, d);
    if 2 * left >= n { ShlAdd(2 * left - n, n, d); } else { ShlMono(2 * left, n, d); }
  }

  /** Counting sort of the symbols by length. */
  method SortSymbols(lens: seq<nat>, count: array<nat>, work: array<nat>)
    requires ValidLens(lens) && |lens| <= work.Length && count != work
    requires count.Length == MAXBITS + 1 && forall b :: 0 <= b <= MAXBITS ==> count[b] == Count(lens, b)
    modifies work
    ensures |Sorted(lens)| <= |lens| && work[..|Sorted(lens)|] == Sorted(lens)
  {
    hide Sorted, SortedTo, Seg, Filed, OffsetsAfter;
    var offs := Offsets(lens, count);
    SortedSize(lens);
    FiledStart(work[..], lens);
    for sym := 0 to |lens|
      invariant OffsetsAfter(offs[..], lens, sym) && Filed(work[..], lens, sym)
    {
      FiledNext(offs[..], work[..], lens, sym);
      if lens[sym] != 0 {
        work[offs[lens[sym]]] := sym;
        offs[lens[sym]] := offs[lens[sym]] + 1;
      }
    }
    FiledAll(work[..], lens);
  }

  /** The first sym symbols stand at their sorted places. */
  ghost predicate Filed(work: seq<nat>, lens: seq<nat>, sym: nat)
    requires sym <= |lens|
  {
    forall s :: 0 <= s < sym && lens[s] > 0 ==> IndexOf(lens, s) < |work| && work[IndexOf(lens, s)] == s
  }

  lemma FiledStart(work: seq<nat>, lens: seq<nat>)
    ensures Filed(work, lens, 0)
  {
  }

  lemma FiledNext(offs: seq<nat>, work: seq<nat>, lens: seq<nat>, sym: nat)
    requires sym < |lens| && ValidLens(lens) && |Sorted(lens)| <= |work|
    requires OffsetsAfter(offs, lens, sym) && Filed(work, lens, sym)
    ensures |offs| == MAXBITS + 1
    ensures lens[sym] == 0 ==> OffsetsAfter(offs, lens, sym + 1) && Filed(work, lens, sym + 1)
    ensures lens[sym] > 0 ==> offs[lens[sym]] < |work|
    ensures lens[sym] > 0 ==> OffsetsAfter(offs[lens[sym] := offs[lens[sym]] + 1], lens, sym + 1)
    ensures lens[sym] > 0 ==> Filed(work[offs[lens[sym]] := sym], lens, sym + 1)
  {
    OffsetsNext(lens, sym);
    if lens[sym] > 0 {
      hide Seg, Sorted, SortedTo;
      SortedAt(lens, sym);
      forall s | 0 <= s < sym && lens[s] > 0 ensures IndexOf(lens, s) != IndexOf(lens, sym) { SortedAt(lens, s); }
    }
  }

  lemma FiledAll(work: seq<nat>, lens: seq<nat>)
    requires Filed(work, lens, |lens|) && |Sorted(lens)| <= |work|
    ensures work[..|Sorted(lens)|] == Sorted(lens)
  {
    forall k | 0 <= k < |Sorted(lens)| ensures work[k] == Sorted(lens)[k] { SortedElems(lens, MAXBITS, k); }
  }

  /** After sym symbols, the next symbol of length b goes to offs[b]. */
  ghost predicate OffsetsAfter(offs: seq<nat>, lens: seq<nat>, sym: nat)
    requires sym <= |lens|
  {
    |offs| == MAXBITS + 1 &&
    forall b :: 1 <= b <= MAXBITS ==> offs[b] == |SortedTo(lens, b - 1)| + Count(lens[..sym], b)
  }

  lemma OffsetsNext(lens: seq<nat>, sym: nat)
    requires sym < |lens|
    ensures forall b :: Count(lens[..sym + 1], b) == Count(lens[..sym], b) + if lens[sym] == b then 1 else 0
  {
    assert lens[..sym + 1][..sym] == lens[..sym];
  }

  method Offsets(lens: seq<nat>, count: array<nat>) returns (offs: array<nat>)
    requires count.Length == MAXBITS + 1 && forall b :: 0 <= b <= MAXBITS ==> count[b] == Count(lens, b)
    ensures fresh(offs) && offs.Length == MAXBITS + 1 && OffsetsAfter(offs[..], lens, 0)
  {
    offs := new nat[MAXBITS + 1];
    offs[1] := 0;
    for len := 1 to MAXBITS
      invariant forall b :: 1 <= b <= len ==> offs[b] == |SortedTo(lens, b - 1)|
    {
      offs[len + 1] := offs[len] + count[len];
    }
    assert lens[..0] == [];
  }

  lemma {:induction false} SortedDrop(lens: seq<nat>, b: nat)
    requires lens != []
    ensures var n := |lens| - 1;
            |SortedTo(lens, b)| == |SortedTo(lens[..n], b)| + if 1 <= lens[n] <= b then 1 else 0
  {
    if b > 0 { SortedDrop(lens, b - 1); }
  }

  lemma {:induction false} SortedSize(lens: seq<nat>)
    ensures |Sorted(lens)| <= |lens|
  {
    if lens == [] {
      NoneSorted(MAXBITS);
    } else {
      SortedSize(lens[..|lens| - 1]);
      SortedDrop(lens, MAXBITS);
    }
  }

  lemma {:induction false} NoneSorted(b: nat)
    ensures SortedTo([], b) == []
  {
    if b > 0 { NoneSorted(b - 1); }
  }

  lemma LowMultiple(x: nat, r: nat, l: nat)
    requires Low(x, l) == 0 && r < Pow2(l)
    ensures Low(x + r, l) == r
    ensures x > 0 ==> x >= Pow2(l) && Low(x - Pow2(l), l) == 0
  {
    Split(x, l);
    LowHighOf(High(x, l), r, l);
    if x > 0 {
      ShlZero(l);
      ShlAdd(High(x, l) - 1, 1, l);
      ShlOne(l);
      LowHighOf(High(x, l) - 1, 0, l);
    }
  }

  /** Replicate here for those indices with low l bits equal to h. */
  method FillEntries(codes: array<Code>, start: nat, n: nat, l: nat, h: nat, here: Code)
    requires start + Pow2(n) <= codes.Length && l <= n && h < Pow2(l)
    modifies codes
    ensures Written(old(codes[..]), codes[..], start, n, l, h, here)
  {
    hide Low, Pow2;
    var incr, fill: nat := Pow2(l), Pow2(n);
    LowPow2(n, l);
    while fill != 0
      invariant fill <= Pow2(n) && Low(fill, l) == 0
      invariant forall i :: 0 <= i < codes.Length ==>
                  codes[i] == if start + fill <= i < start + Pow2(n) && Low(i - start, l) == h then here
                              else old(codes[i])
    {
      LowMultiple(fill, 0, l);
      fill := fill - incr;
      codes[start + h + fill] := here;
      forall i | 0 <= i < codes.Length
        ensures codes[i] == if start + fill <= i < start + Pow2(n) && Low(i - start, l) == h then here
                              else old(codes[i])
      {
        if start + fill <= i < start + fill + incr { LowMultiple(fill, i - start - fill, l); }
      }
    }
  }

  lemma LowPow2(n: nat, l: nat)
    requires l <= n
    ensures Low(Pow2(n), l) == 0
  {
    ShlOne(n);
    ShlShl(1, n - l, l);
    LowHighOf(Shl(1, n - l), 0, l);
  }

  /** Backwards increment: the next code of the same length, if there is one, else zero. The bit
      tested and set is 1 << i; i == -1 stands for an incr that has been shifted out. */
  method BackIncrement(huff: nat, len: nat, ghost c: nat) returns (h: nat)
    requires 1 <= len && huff == Rev(c, len)
    ensures h == Rev(c + 1, len)
  {
    var i: int := len - 1;
    ghost var cc := c;
    LowSmall(huff, len);
    while i >= 0 && High(huff, i) % 2 == 1
      invariant -1 <= i < len
      invariant Low(huff, i + 1) == Rev(cc, i + 1) && Rev(c + 1, len) == Rev(cc + 1, i + 1)
    {
      TopBit(huff, cc, i);
      cc := cc / 2;
      i := i - 1;
    }
    if i >= 0 {
      TopBit(huff, cc, i);
      h := Low(huff, i) + Pow2(i);
    } else {
      h := 0;
    }
  }

  lemma TopBit(huff: nat, cc: nat, i: nat)
    requires Low(huff, i + 1) == Rev(cc, i + 1)
    ensures High(huff, i) % 2 == cc % 2 && Low(huff, i) == Rev(cc / 2, i)
    ensures cc % 2 == 1 ==> Rev(cc + 1, i + 1) == Rev(cc / 2 + 1, i)
    ensures cc % 2 == 0 ==> Rev(cc + 1, i + 1) == Pow2(i) + Rev(cc / 2, i)
  {
    var r := Rev(cc / 2, i);
    LowHighOf(cc % 2, r, i);
    HighOfLow(huff, i, 1);
    LowLow(huff, i, i + 1);
    assert Low(High(huff, i), 1) == High(huff, i) % 2 + 2 * Low(High(huff, i) / 2, 0);
    ShlZero(i);
    ShlOne(i);
  }

  /** Look ahead in the counts for the number of index bits of a new sub-table: every code that
      starts within the root entry's share of the code space fits. */
  method SubtableBits(count: array<nat>, len: nat, root: nat, max: nat, ghost ls: seq<nat>, ghost k: nat)
    returns (curr: nat)
    requires count.Length == MAXBITS + 1 && Ascending(ls) && k < |ls| && len == ls[k]
    requires 1 <= root < len <= max <= MAXBITS && forall j :: 0 <= j < |ls| ==> ls[j] <= max
    requires forall l :: 1 <= l <= MAXBITS ==> count[l] == Rem(ls, k, l)
    ensures len <= root + curr <= max
    ensures forall j :: k <= j < |ls| && PosAt(ls, j) < PosAt(ls, k) + Weight(root) ==> ls[j] <= root + curr
    ensures PosAt(ls, |ls|) == Pow2(MAXBITS) && PosAt(ls, k) + Weight(root) <= Pow2(MAXBITS) ==>
            exists j :: k <= j < |ls| && PosAt(ls, j) < PosAt(ls, k) + Weight(root) && ls[j] >= root + curr
  {
    hide Pow2, PosAt;
    curr := len - root;
    var left: int := Pow2(curr);
    RemMeasureNone(ls, k, len - 1);
    ShlOne(curr);
    ShlShl(1, curr, MAXBITS - len);
    ShlOne(MAXBITS - root);
    while curr + root < max
      invariant len <= root + curr <= max && left > 0
      invariant Shl(left, MAXBITS - root - curr) + RemMeasure(ls, k, root + curr - 1) == Weight(root)
    {
      InShare(ls, k, root, curr, left);
      var n := count[curr + root];
      left := left - n;
      if left <= 0 {
        ShlMono(left + n, n, MAXBITS - root - curr);
        Enough(ls, k, root, root + curr);
        return;
      }
      ShlAdd(left, n, MAXBITS - root - curr);
      ShlInto(left, MAXBITS - root - curr - 1);
      curr := curr + 1;
      left := 2 * left;
    }
    InShare(ls, k, root, curr, left);
  }

  /** As long as something is left of the share, some code of it is longer. */
  lemma InShare(ls: seq<nat>, k: nat, root: nat, curr: nat, left: nat)
    requires Ascending(ls) && k < |ls| && 1 <= root && 1 <= curr && root + curr <= MAXBITS && left > 0
    requires Shl(left, MAXBITS - root - curr) + RemMeasure(ls, k, root + curr - 1) == Weight(root)
    ensures PosAt(ls, |ls|) == Pow2(MAXBITS) && PosAt(ls, k) + Weight(root) <= Pow2(MAXBITS) ==>
            exists j :: k <= j < |ls| && PosAt(ls, j) < PosAt(ls, k) + Weight(root) && ls[j] >= root + curr
  {
    hide Pow2, PosAt, RemMeasure, Shl;
    ShlMono(0, left, MAXBITS - root - curr);
    ShlZero(MAXBITS - root - curr);
    if PosAt(ls, |ls|) == Pow2(MAXBITS) && PosAt(ls, k) + Weight(root) <= Pow2(MAXBITS) {
      var j := LongInShare(ls, k, root, root + curr);
    }
  }

  lemma Enough(ls: seq<nat>, k: nat, root: nat, m: nat)
    requires Ascending(ls) && k < |ls| && root <= m <= MAXBITS && RemMeasure(ls, k, m) >= Weight(root)
    ensures forall j :: k <= j < |ls| && PosAt(ls, j) < PosAt(ls, k) + Weight(root) ==> ls[j] <= m
  {
    forall j | k <= j < |ls| && PosAt(ls, j) < PosAt(ls, k) + Weight(root)
      ensures ls[j] <= m
    {
      if ls[j] > m { LongStartsBeyond(ls, k, j, m); }
    }
  }

  // ----- the main loop -----

  /** What holds whenever a code is about to be entered: code k, of length len, has stream bits
      huff, and the table being filled has room for it. */
  ghost predicate Entering(c: seq<Code>, tab: nat, root: nat, ty: CodeType, ls: seq<nat>, syms: seq<nat>,
                           k: nat, len: nat, huff: nat, drop: nat, low: int, curr: nat, next: nat) {
    k < |ls| && low >= -1 && Tables(c, tab, root, ty, ls, syms, k, drop, if low < 0 then 0 else low, curr, next) &&
    len == ls[k] && huff == HuffAt(ls, k) && 1 <= curr < 16 &&
    if drop == 0 then len <= root && low == -1
    else root < len && low == Low(huff, root) && Slot(c, tab, low) == Code(curr, root, next) &&
         Roomy(ls, k, root, low, curr)
  }

  /** Every code to come that shares the root index low fits the sub-table. */
  ghost predicate Roomy(ls: seq<nat>, k: nat, root: nat, low: nat, curr: nat)
    requires Ascending(ls)
  {
    forall j :: k <= j < |ls| && Low(HuffAt(ls, j), root) == low ==> ls[j] <= root + curr
  }

  /** The code just written joins those in the table. */
  lemma AfterWrite(c: seq<Code>, c': seq<Code>, tab: nat, root: nat, ty: CodeType, ls: seq<nat>, syms: seq<nat>,
                   k: nat, len: nat, huff: nat, drop: nat, low: int, curr: nat, next: nat)
    requires Entering(c, tab, root, ty, ls, syms, k, len, huff, drop, low, curr, next)
    requires Written(c, c', tab + next, curr, len - drop, High(huff, drop), Entry(ty, syms[k], len - drop))
    ensures Tables(c', tab, root, ty, ls, syms, k + 1, drop, if low < 0 then 0 else low, curr, next)
    ensures drop != 0 ==> Slot(c', tab, low) == Code(curr, root, next)
  {
    hide Low, High, Pow2, Entry, Written, PosAt, HuffAt, Placed;
    var lw := if low < 0 then 0 else low;
    var e := Entry(ty, syms[k], len - drop);
    forall j | 0 <= j < k ensures Placed(c', tab, root, ty, syms[j], ls[j], HuffAt(ls, j), lw, curr, next) {
      HuffPrefixFree(ls, j, k);
      KeepsPlaced(c, c', tab, root, ty, lw, curr, next, drop, syms[j], ls[j], HuffAt(ls, j), len, huff, e);
    }
    NowPlaced(c, c', tab, root, ty, lw, curr, next, drop, syms[k], len, huff);
    if drop != 0 { SlotOutside(c, c', tab + next, curr, len - drop, High(huff, drop), e, tab, low); }
    WrittenSize(c, c', tab + next, curr, len - drop, High(huff, drop), e);
  }

  lemma WrittenSize(c: seq<Code>, c': seq<Code>, base: nat, n: nat, l: nat, h: nat, e: Code)
    requires Written(c, c', base, n, l, h, e)
    ensures |c'| == |c|
  {
  }

  /** The bits of the next code are those of the incremented one. */
  lemma NextHuff(ls: seq<nat>, k: nat)
    requires Ascending(ls) && k + 1 < |ls|
    ensures HuffAt(ls, k + 1) == Rev(CodeAt(ls, k) + 1, ls[k])
  {
    hide Rev, Shl, PosAt;
    RevShift(CodeAt(ls, k) + 1, ls[k + 1] - ls[k], ls[k]);
  }

  /** Starting a sub-table for code k, whose root index no earlier code uses. */
  lemma AfterLink(c: seq<Code>, tab: nat, root: nat, ty: CodeType, ls: seq<nat>, syms: seq<nat>,
                  k: nat, drop: nat, low: nat, curr: nat, next: nat, curr': nat, link: Code)
    requires Tables(c, tab, root, ty, ls, syms, k, drop, low, curr, next) && 0 < k < |ls| && root < ls[k]
    requires root < ls[k - 1] ==> Low(HuffAt(ls, k), root) != Low(HuffAt(ls, k - 1), root)
    requires 1 <= curr' < 16 && tab + next + Pow2(curr) + Pow2(curr') <= |c|
    ensures var low' := Low(HuffAt(ls, k), root);
            tab + low' < |c| &&
            Tables(c[tab + low' := link], tab, root, ty, ls, syms, k, root, low', curr', next + Pow2(curr))
  {
    hide Low, Pow2, PosAt, HuffAt, Placed;
    var low' := Low(HuffAt(ls, k), root);
    forall j | 0 <= j < k
      ensures Placed(c[tab + low' := link], tab, root, ty, syms[j], ls[j], HuffAt(ls, j), low', curr',
                     next + Pow2(curr))
    {
      HuffPrefixFree(ls, j, k);
      if ls[j] <= root { LowLow(HuffAt(ls, k), ls[j], root); } else { NewIndex(ls, j, k, root); }
      LinkKeeps(c, tab, root, ty, low, curr, next, syms[j], ls[j], HuffAt(ls, j), low', curr', link);
    }
  }

  /** No room is left in the space provided for this type of table. */
  predicate TooBig(ty: CodeType, used: nat) {
    (ty == LENS && used > ENOUGH_LENS) || (ty == DISTS && used > ENOUGH_DISTS)
  }

  /** What the caller provides: space for the type's largest table (for the code-length code,
      whose table size is not checked, an index as long as the longest code). */
  predicate Room(ty: CodeType, lens: seq<nat>, space: int, bits: nat) {
    match ty
    case CODES => 1 <= bits <= MAXBITS && space >= Pow2(bits) && forall s :: 0 <= s < |lens| ==> lens[s] <= bits
    case LENS => space >= ENOUGH_LENS
    case DISTS => space >= ENOUGH_DISTS
  }

  /** Link a sub-table for code k into the root table, if there is space for it. */
  method StartSubtable(codes: array<Code>, tab: nat, root: nat, ty: CodeType, count: array<nat>, max: nat,
                       len: nat, huff: nat, curr: nat, next: nat, used: nat,
                       ghost ls: seq<nat>, ghost syms: seq<nat>, ghost k: nat, ghost drop: nat, ghost low: nat)
    returns (ok: bool, curr': nat, next': nat, used': nat)
    requires ty != CODES && 0 < k < |ls| && Tables(codes[..], tab, root, ty, ls, syms, k, drop, low, curr, next)
    requires used == next + Pow2(curr) && root < len == ls[k] && huff == HuffAt(ls, k)
    requires root < ls[k - 1] ==> Low(huff, root) != Low(HuffAt(ls, k - 1), root)
    requires count.Length == MAXBITS + 1 && forall l :: 1 <= l <= MAXBITS ==> count[l] == Rem(ls, k, l)
    requires len <= max <= MAXBITS && forall j :: 0 <= j < |ls| ==> ls[j] <= max
    requires tab + (if ty == LENS then ENOUGH_LENS else ENOUGH_DISTS) <= codes.Length
    modifies codes
    ensures ok ==>
            !TooBig(ty, used') && next' == used && used' == next' + Pow2(curr') && Low(huff, root) < Pow2(root) &&
            tab + used' <= codes.Length
    ensures ok ==> codes[..] == old(codes[..])[tab + Low(huff, root) := Code(curr', root, next')]
    ensures ok ==> Entering(codes[..], tab, root, ty, ls, syms, k, len, huff, root, Low(huff, root), curr', next')
    ensures !ok ==> codes[..] == old(codes[..]) && TooBig(ty, used')
    ensures PosAt(ls, |ls|) == Pow2(MAXBITS) && used == SizeTo(ls, root, k) ==> used' == SizeTo(ls, root, k + 1)
  {
    hide Low, Pow2, PosAt, HuffAt, Placed, Rem, SizeTo;
    next' := used;
    curr' := SubtableBits(count, len, root, max, ls, k);
    used' := used + Pow2(curr');
    if PosAt(ls, |ls|) == Pow2(MAXBITS) && used == SizeTo(ls, root, k) { OpensFor(ls, k, root, curr'); }
    if TooBig(ty, used') { return false, curr', next', used'; }
    ok := true;
    var low' := Low(huff, root);
    AfterLink(codes[..], tab, root, ty, ls, syms, k, drop, low, curr, next, curr', Code(curr', root, next'));
    codes[tab + low'] := Code(curr', root, next');
    assert codes[..] == old(codes[..])[tab + low' := Code(curr', root, next')];
    forall j | k <= j < |ls| && Low(HuffAt(ls, j), root) == low' ensures ls[j] <= root + curr' {
      SameShare(ls, k, j, root);
    }
  }

  /** Nothing but the table's own used entries has changed. */
  ghost predicate OnlyTable(c0: seq<Code>, c: seq<Code>, tab: nat, used: nat) {
    |c| == |c0| && forall i :: 0 <= i < |c| && (i < tab || tab + used <= i) ==> c[i] == c0[i]
  }

  lemma WriteInside(c0: seq<Code>, c: seq<Code>, c': seq<Code>, tab: nat, used: nat, base: nat, n: nat, l: nat, h: nat,
                    e: Code)
    requires OnlyTable(c0, c, tab, used) && Written(c, c', base, n, l, h, e)
    requires tab <= base && base + Pow2(n) <= tab + used
    ensures OnlyTable(c0, c', tab, used)
  {
  }

  lemma RemSucc(ls: seq<nat>, k: nat)
    requires k < |ls|
    ensures forall l :: Rem(ls, k, l) == Rem(ls, k + 1, l) + if ls[k] == l then 1 else 0
  {
  }

  /** The remaining counts tell what the length of the next code is, and whether there is one. */
  lemma NextLen(ls: seq<nat>, k: nat)
    requires Ascending(ls) && k < |ls|
    ensures Rem(ls, k + 1, ls[k]) == 0 && ls[k] == ls[|ls| - 1] ==> k + 1 == |ls|
    ensures Rem(ls, k + 1, ls[k]) == 0 && ls[k] != ls[|ls| - 1] ==> k + 1 < |ls|
    ensures Rem(ls, k + 1, ls[k]) > 0 ==> k + 1 < |ls| && ls[k + 1] == ls[k]
  {
    if k + 1 < |ls| && ls[k] == ls[|ls| - 1] { assert ls[k + 1] == ls[k]; }
    if Rem(ls, k + 1, ls[k]) > 0 { var j := RemPositive(ls, k + 1, ls[k]); }
  }

  /** The sorted codes of lens, ready to be entered. */
  lemma StartCodes(ty: CodeType, lens: seq<nat>, root: nat, c: seq<Code>, tab: nat)
    requires ValidLens(lens) && |lens| <= MaxSyms(ty) && Kraft(lens) <= Pow2(MAXBITS) && 0 < |Sorted(lens)|
    requires SortedLens(lens)[0] <= root <= MAXBITS && 1 <= root && tab + Pow2(root) <= |c|
    ensures var ls := SortedLens(lens);
            Entering(c, tab, root, ty, ls, Sorted(lens), 0, ls[0], 0, 0, -1, root, 0)
    ensures forall l :: 1 <= l <= MAXBITS ==> Rem(SortedLens(lens), 0, l) == Count(lens, l)
    ensures forall s :: s in Sorted(lens) ==> s < |lens|
  {
    hide Low, High, Pow2, Placed, Rem, Shl, Count;
    var ls := SortedLens(lens);
    KraftIsLastPos(lens);
    forall k | 0 <= k < |ls| ensures Sorted(lens)[k] < |lens| { SortedElems(lens, MAXBITS, k); }
    forall l | 1 <= l <= MAXBITS ensures Rem(ls, 0, l) == Count(lens, l) { RemStart(lens, l); }
    RevZero(ls[0]);
  }

  lemma {:induction false} RevZero(n: nat)
    ensures Rev(0, n) == 0
  {
    if n > 0 {
      RevZero(n - 1);
      ShlZero(n - 1);
    }
  }

  /** No new sub-table is needed: the next code goes into the table being filled. */
  lemma SameTable(c: seq<Code>, c': seq<Code>, tab: nat, root: nat, ty: CodeType, ls: seq<nat>, syms: seq<nat>,
                  k: nat, drop: nat, low: int, curr: nat, next: nat)
    requires k + 1 < |ls| && Ascending(ls)
    requires Entering(c, tab, root, ty, ls, syms, k, ls[k], HuffAt(ls, k), drop, low, curr, next)
    requires Tables(c', tab, root, ty, ls, syms, k + 1, drop, if low < 0 then 0 else low, curr, next)
    requires drop != 0 ==> Slot(c', tab, low) == Code(curr, root, next)
    requires ls[k + 1] <= root || Low(HuffAt(ls, k + 1), root) == low
    ensures Entering(c', tab, root, ty, ls, syms, k + 1, ls[k + 1], HuffAt(ls, k + 1), drop, low, curr, next)
  {
    hide Low, High, Pow2, Placed, PosAt, HuffAt;
  }

  /** The loop that enters all codes into the tables. The unsigned low starts as -1, which no
      root index equals. */
  method BuildTables(ty: CodeType, lens: seq<nat>, codes: array<Code>, tab: nat, root: nat, min: nat, max: nat,
                     count: array<nat>, work: array<nat>)
    returns (ok: bool, used: nat, huff: nat, next: nat, ghost drop: nat, ghost low: nat, ghost curr: nat)
    requires ValidLens(lens) && |lens| <= MaxSyms(ty) && Kraft(lens) <= Pow2(MAXBITS) && count != work
    requires count.Length == MAXBITS + 1 && forall l :: 1 <= l <= MAXBITS ==> count[l] == Count(lens, l)
    requires 0 < |Sorted(lens)| <= work.Length && work[..|Sorted(lens)|] == Sorted(lens)
    requires SortedLens(lens)[0] == min <= root <= max == SortedLens(lens)[|Sorted(lens)| - 1]
    requires Room(ty, lens, codes.Length - tab, root) && 1 <= root <= max <= MAXBITS
    requires Kraft(lens) == Pow2(MAXBITS) || max == root
    modifies codes, count
    ensures ok ==>
            Tables(codes[..], tab, root, ty, SortedLens(lens), Sorted(lens), |Sorted(lens)|, drop, low, curr, next)
    ensures ok ==> used == next + Pow2(curr) && (max <= root ==> drop == 0) && !TooBig(ty, used)
    ensures ok ==> huff == Rev(CodeAt(SortedLens(lens), |Sorted(lens)| - 1) + 1, max)
    ensures ok ==> OnlyTable(old(codes[..]), codes[..], tab, used)
    ensures !ok ==> ty != CODES && (max > root || TooBig(ty, Pow2(root)))
    ensures Ascending(SortedLens(lens))
    ensures var size := SizeTo(SortedLens(lens), root, |Sorted(lens)|);
            (ok <==> !TooBig(ty, size)) && (ok ==> used == size)
  {
    hide Low, High, Pow2, PosAt, HuffAt, Placed, Rem, Kraft, Sorted, SortedLens, Rev, Shl, CodeAt, Count, Tables, Entry,
         Written, SizeTo, Entering, Room, Slot, ValidLens, Roomy;
    ghost var ls, syms := SortedLens(lens), Sorted(lens);
    var sym: nat, len: nat := 0, min;
    var drop': nat, curr': nat, low': int := 0, root, -1;
    huff, next := 0, 0;
    used := Pow2(root);
    drop, low, curr := 0, 0, root;
    KraftIsLastPos(lens);
    FirstSize(ls, root);
    if TooBig(ty, used) {
      SizeMono(ls, root, 0, |ls|);
      return false, used, huff, next, drop, low, curr;
    }
    RoomSpace(ty, lens, codes.Length - tab, root);
    StartCodes(ty, lens, root, codes[..], tab);
    if ty == CODES { ShortCodes(ty, lens, codes.Length - tab, root, |ls| - 1); }
    while true
      invariant Entering(codes[..], tab, root, ty, ls, syms, sym, len, huff, drop', low', curr', next)
      invariant used == next + Pow2(curr') && (max <= root ==> drop' == 0) && !TooBig(ty, used)
      invariant sym < |ls| && used == SizeTo(ls, root, sym + 1)
      invariant forall l :: 1 <= l <= MAXBITS ==> count[l] == Rem(ls, sym, l)
      invariant OnlyTable(old(codes[..]), codes[..], tab, used)
      decreases |ls| - sym
    {
      ghost var c := codes[..];
      EnteringFacts(c, tab, root, ty, ls, syms, sym, len, huff, drop', low', curr', next);
      EnterCode(ty, codes, tab, root, ls, syms, sym, work, len, huff, drop', low', curr', next, used, old(codes[..]));
      ghost var c' := codes[..];
      ghost var huff0 := huff;
      huff := BackIncrement(huff, len, CodeAt(ls, sym));
      RemSucc(ls, sym);
      NextLen(ls, sym);
      sym := sym + 1;
      count[len] := count[len] - 1;
      if count[len] == 0 {
        if len == max { break; }
        len := SortedLenOf(lens, work, sym);
      }
      NextHuff(ls, sym - 1);
      if len > root && Low(huff, root) != low' {
        var ok', curr'', next', used' := StartSubtable(codes, tab, root, ty, count, max, len, huff, curr', next, used,
                                                       ls, syms, sym, drop', if low' < 0 then 0 else low');
        if !ok' {
          assert len == ls[sym] <= ls[|ls| - 1];
          SizeMono(ls, root, sym + 1, |ls|);
          return false, used, huff, next, drop, low, curr;
        }
        OnlyTableGrows(old(codes[..]), c', codes[..], tab, used, used', Low(huff, root), Code(curr'', root, next'));
        drop', low', curr', next, used := root, Low(huff, root), curr'', next', used';
      } else {
        SameTable(c, c', tab, root, ty, ls, syms, sym - 1, drop', low', curr', next);
        NoTable(ls, root, sym);
      }
    }
    drop, low, curr := drop', if low' < 0 then 0 else low', curr';
    ok := true;
  }

  lemma RoomSpace(ty: CodeType, lens: seq<nat>, space: int, bits: nat)
    requires Room(ty, lens, space, bits) && !TooBig(ty, Pow2(bits))
    ensures space >= Pow2(bits) && (ty != CODES ==> space >= if ty == LENS then ENOUGH_LENS else ENOUGH_DISTS)
  {
  }

  lemma FirstSize(ls: seq<nat>, root: nat)
    requires Ascending(ls) && ls != [] && ls[0] <= root
    ensures SizeTo(ls, root, 0) == SizeTo(ls, root, 1) == Pow2(root)
  {
    hide Pow2, LongestWith;
    SizeNext(ls, root, 0);
  }

  lemma EnteringFacts(c: seq<Code>, tab: nat, root: nat, ty: CodeType, ls: seq<nat>, syms: seq<nat>,
                      k: nat, len: nat, huff: nat, drop: nat, low: int, curr: nat, next: nat)
    requires Entering(c, tab, root, ty, ls, syms, k, len, huff, drop, low, curr, next)
    ensures ValidCodes(ty, root, ls, syms) && len == ls[k] && huff == HuffAt(ls, k) == Rev(CodeAt(ls, k), len)
    ensures k < |ls|
    ensures Pow2(root) <= next + Pow2(curr)
    ensures drop == 0 ==> len <= root && low == -1
    ensures drop != 0 ==> root < len && low == Low(huff, root)
  {
  }

  lemma ShortCodes(ty: CodeType, lens: seq<nat>, space: int, root: nat, k: nat)
    requires Room(ty, lens, space, root) && ty == CODES && k < |Sorted(lens)|
    ensures SortedLens(lens)[k] <= root
  {
    SortedLensAt(lens, k);
  }

  lemma OnlyTableGrows(c0: seq<Code>, c: seq<Code>, c': seq<Code>, tab: nat, used: nat, used': nat, i: nat, e: Code)
    requires OnlyTable(c0, c, tab, used) && used <= used' && i < used && tab + i < |c|
    requires c' == c[tab + i := e]
    ensures OnlyTable(c0, c', tab, used')
  {
  }

  /** lens[work[sym]] */
  method SortedLenOf(lens: seq<nat>, work: array<nat>, sym: nat) returns (len: nat)
    requires sym < |Sorted(lens)| <= work.Length && work[..|Sorted(lens)|] == Sorted(lens)
    ensures len == SortedLens(lens)[sym]
  {
    SortedLensAt(lens, sym);
    assert work[sym] == Sorted(lens)[sym];
    len := lens[work[sym]];
  }

  /** Create the table entry of code k and replicate it. */
  method EnterCode(ty: CodeType, codes: array<Code>, tab: nat, root: nat, ghost ls: seq<nat>, ghost syms: seq<nat>,
                   sym: nat, work: array<nat>, len: nat, huff: nat, drop: nat, ghost low: int, curr: nat, next: nat,
                   ghost used: nat, ghost c0: seq<Code>)
    requires Entering(codes[..], tab, root, ty, ls, syms, sym, len, huff, drop, low, curr, next)
    requires |syms| <= work.Length && work[..|syms|] == syms
    requires used == next + Pow2(curr) && OnlyTable(c0, codes[..], tab, used)
    modifies codes
    ensures Tables(codes[..], tab, root, ty, ls, syms, sym + 1, drop, if low < 0 then 0 else low, curr, next)
    ensures drop != 0 ==> Slot(codes[..], tab, low) == Code(curr, root, next)
    ensures OnlyTable(c0, codes[..], tab, used)
  {
    hide Low, High, Pow2, PosAt, Placed, Rev, Shl, CodeAt, Entry, Written;
    ghost var c := codes[..];
    assert work[sym] == syms[sym];
    var here := Entry(ty, work[sym], len - drop);
    assert High(huff, drop) < Pow2(len - drop) by { HighBelow(huff, drop, len - drop); }
    FillEntries(codes, tab + next, curr, len - drop, High(huff, drop), here);
    AfterWrite(c, codes[..], tab, root, ty, ls, syms, sym, len, huff, drop, low, curr, next);
    WriteInside(c0, c, codes[..], tab, used, tab + next, curr, len - drop, High(huff, drop), here);
  }

  // ----- the finished table -----

  /** A complete code: every root slot is taken, and every accumulator starts with some code. */
  lemma FinishComplete(c: seq<Code>, tab: nat, root: nat, ty: CodeType, lens: seq<nat>,
                       drop: nat, low: nat, curr: nat, next: nat)
    requires ValidLens(lens) && |lens| <= MaxSyms(ty) && Kraft(lens) == Pow2(MAXBITS)
    requires Tables(c, tab, root, ty, SortedLens(lens), Sorted(lens), |Sorted(lens)|, drop, low, curr, next)
    requires Pow2(root) <= next + Pow2(curr)
    ensures Decodes(c[tab..tab + next + Pow2(curr)], root, ty, lens)
  {
    hide Low, High, PosAt, Placed, Kraft, Sorted, SortedLens, Resolve, HuffAt, RevCode, IsLink, Pow2, Finds;
    var t := c[tab..tab + next + Pow2(curr)];
    FinishLinks(c, tab, root, ty, lens, drop, low, curr, next);
    forall s: nat, w: nat | s < |lens| && lens[s] > 0 && Low(w, lens[s]) == RevCode(lens, s)
      ensures Finds(t, root, w, ty, s, lens[s])
    {
      FinishSymbol(c, tab, root, ty, lens, drop, low, curr, next, s, w);
    }
    forall w: nat ensures !Misses(lens, w) { NoMiss(lens, w); }
  }

  lemma NoMiss(lens: seq<nat>, w: nat)
    requires ValidLens(lens) && Kraft(lens) == Pow2(MAXBITS)
    ensures !Misses(lens, w)
  {
    hide Low, Pow2, RevCode, Kraft;
    var s := CompleteCode(lens, Low(w, MAXBITS));
    LowLow(w, lens[s], MAXBITS);
  }

  lemma FinishSymbol(c: seq<Code>, tab: nat, root: nat, ty: CodeType, lens: seq<nat>,
                     drop: nat, low: nat, curr: nat, next: nat, s: nat, w: nat)
    requires ValidLens(lens) && |lens| <= MaxSyms(ty)
    requires Tables(c, tab, root, ty, SortedLens(lens), Sorted(lens), |Sorted(lens)|, drop, low, curr, next)
    requires s < |lens| && lens[s] > 0 && Low(w, lens[s]) == RevCode(lens, s)
    requires LinksInside(c[tab..tab + next + Pow2(curr)], root)
    ensures Finds(c[tab..tab + next + Pow2(curr)], root, w, ty, s, lens[s])
  {
    hide Low, High, Pow2, PosAt, Placed, Sorted, SortedLens, Resolve, HuffAt, RevCode, IsLink, LinksInside, Finds,
         CodeAt, CodeOf;
    CodeOfSorted(lens, s);
    var k := IndexOf(lens, s);
    assert Placed(c, tab, root, ty, Sorted(lens)[k], SortedLens(lens)[k], HuffAt(SortedLens(lens), k), low, curr, next);
    PlacedResolves(c, tab, root, ty, s, lens[s], RevCode(lens, s), low, curr, next, c[tab..tab + next + Pow2(curr)], w);
  }

  lemma FinishLinks(c: seq<Code>, tab: nat, root: nat, ty: CodeType, lens: seq<nat>,
                    drop: nat, low: nat, curr: nat, next: nat)
    requires ValidLens(lens) && Kraft(lens) == Pow2(MAXBITS)
    requires Tables(c, tab, root, ty, SortedLens(lens), Sorted(lens), |Sorted(lens)|, drop, low, curr, next)
    requires Pow2(root) <= next + Pow2(curr)
    ensures LinksInside(c[tab..tab + next + Pow2(curr)], root)
  {
    hide Low, High, PosAt, Placed, Kraft, Sorted, SortedLens, HuffAt, IsLink, Pow2;
    var t, ls := c[tab..tab + next + Pow2(curr)], SortedLens(lens);
    KraftIsLastPos(lens);
    Pow2Mono(root, MAXBITS);
    forall i | 0 <= i < Pow2(root) && IsLink(t[i]) ensures t[i].bits == root && t[i].val + Pow2(t[i].op) <= |t| {
      var k := HuffCovers(ls, i);
      assert Placed(c, tab, root, ty, Sorted(lens)[k], ls[k], HuffAt(ls, k), low, curr, next);
      PlacedInside(c, tab, root, ty, Sorted(lens)[k], ls[k], HuffAt(ls, k), low, curr, next, i);
    }
  }

  /** Without codes longer than the root index there are no links. */
  lemma FinishNoLinks(c: seq<Code>, tab: nat, root: nat, ty: CodeType, lens: seq<nat>,
                      drop: nat, low: nat, curr: nat, next: nat)
    requires ValidLens(lens) && Kraft(lens) == Pow2(MAXBITS) && |Sorted(lens)| > 0
    requires Tables(c, tab, root, ty, SortedLens(lens), Sorted(lens), |Sorted(lens)|, drop, low, curr, next)
    requires Pow2(root) <= next + Pow2(curr) && SortedLens(lens)[|Sorted(lens)| - 1] <= root
    ensures NoLinks(c[tab..tab + next + Pow2(curr)], root)
  {
    hide Low, High, PosAt, Kraft, Sorted, SortedLens, HuffAt, Pow2, Entry;
    var t, ls := c[tab..tab + next + Pow2(curr)], SortedLens(lens);
    KraftIsLastPos(lens);
    Pow2Mono(root, MAXBITS);
    forall i | 0 <= i < Pow2(root) ensures !IsLink(t[i]) {
      var k := HuffCovers(ls, i);
      assert ls[k] <= ls[|ls| - 1];
      assert Placed(c, tab, root, ty, Sorted(lens)[k], ls[k], HuffAt(ls, k), low, curr, next);
      assert Slot(c, tab, i) == Entry(ty, Sorted(lens)[k], ls[k]);
    }
  }

  /** An incomplete code is accepted only when it is a single code of one bit. */
  lemma LoneCode(lens: seq<nat>)
    requires ValidLens(lens) && Kraft(lens) < Pow2(MAXBITS) && |Sorted(lens)| > 0
    requires SortedLens(lens)[|Sorted(lens)| - 1] == 1
    ensures |Sorted(lens)| == 1 && SortedLens(lens) == [1] && CodeAt(SortedLens(lens), 0) == 0
    ensures Ascending(SortedLens(lens)) && HuffAt(SortedLens(lens), 0) == 0
  {
    var ls := SortedLens(lens);
    KraftIsLastPos(lens);
    forall i | 0 <= i < |ls| ensures ls[i] == 1 { assert 1 <= ls[i] <= ls[|ls| - 1]; }
    PosInSeg(ls, 0, |ls|, 1);
    ShlMul(|ls|, MAXBITS - 1);
    RevZero(1);
  }

  lemma FinishLone(c: seq<Code>, tab: nat, ty: CodeType, lens: seq<nat>, drop: nat, low: nat, curr: nat, next: nat)
    requires ValidLens(lens) && |lens| <= MaxSyms(ty) && SortedLens(lens) == [1] && |Sorted(lens)| == 1
    requires HuffAt(SortedLens(lens), 0) == 0 && drop == 0
    requires Tables(c, tab, 1, ty, SortedLens(lens), Sorted(lens), 1, drop, low, curr, next)
    ensures tab + 2 <= |c| && Decodes(c[tab + 1 := INVALID][tab..tab + 2], 1, ty, lens)
  {
    var t := c[tab + 1 := INVALID][tab..tab + 2];
    var s0 := Sorted(lens)[0];
    SortedElems(lens, MAXBITS, 0);
    assert Placed(c, tab, 1, ty, s0, 1, 0, low, curr, next);
    assert Low(0, 1) == 0 && Pow2(1) == 2;
    assert Slot(c, tab, 0) == Entry(ty, s0, 1);
    assert t == [Entry(ty, s0, 1), INVALID];
    forall s: nat, w: nat | s < |lens| && lens[s] > 0 && Low(w, lens[s]) == RevCode(lens, s)
      ensures Finds(t, 1, w, ty, s, lens[s])
    {
      CodeOfSorted(lens, s);
    }
    CodeOfSorted(lens, s0);
    forall w: nat | Misses(lens, w)
      ensures Resolve(t, 1, w) == (INVALID, 1)
    {
      assert Low(w, lens[s0]) != RevCode(lens, s0);
    }
  }

  lemma FinishEmpty(ty: CodeType, lens: seq<nat>)
    requires |lens| <= MaxSyms(ty) && ValidLens(lens) && forall l :: 1 <= l <= MAXBITS ==> Count(lens, l) == 0
    ensures Decodes([INVALID, INVALID], 1, ty, lens) && Kraft(lens) == 0 && NoLinks([INVALID, INVALID], 1)
  {
    forall s | 0 <= s < |lens| ensures lens[s] == 0 {
      if lens[s] > 0 { SegPrefix(lens, s, lens[s]); }
    }
    EmptyKraft(lens, MAXBITS);
    assert Pow2(1) == 2;
  }

  lemma {:induction false} EmptyKraft(lens: seq<nat>, b: nat)
    requires b <= MAXBITS && forall l :: 1 <= l <= b ==> Count(lens, l) == 0
    ensures KraftTo(lens, b) == 0
  {
    if b > 0 {
      EmptyKraft(lens, b - 1);
      ShlZero(MAXBITS - b);
    }
  }

  /** The code is usable: it fills the code space exactly, or it is empty, or (except for the
      code-length code) all its codes have one bit. */
  predicate Acceptable(ty: CodeType, lens: seq<nat>) {
    Kraft(lens) == Pow2(MAXBITS) ||
    (Kraft(lens) < Pow2(MAXBITS) &&
     forall s :: 0 <= s < |lens| ==> lens[s] == 0 || (ty != CODES && lens[s] == 1))
  }

  lemma AcceptableIff(ty: CodeType, lens: seq<nat>, max: nat)
    requires ValidLens(lens) && Kraft(lens) <= Pow2(MAXBITS)
    requires |Sorted(lens)| > 0 && max == SortedLens(lens)[|Sorted(lens)| - 1]
    ensures Acceptable(ty, lens) <==> Kraft(lens) == Pow2(MAXBITS) || (ty != CODES && max == 1)
  {
    hide Kraft, Sorted, SortedLens, Pow2;
    SortedLensAscend(lens);
    SortedLensAt(lens, |Sorted(lens)| - 1);
    forall s | 0 <= s < |lens| && lens[s] > 0 ensures lens[s] <= max {
      CodeOfSorted(lens, s);
    }
  }

  /** The extreme lengths in use, by the counts, are the ends of the sorted lengths. */
  lemma BoundsSorted(lens: seq<nat>, min: nat, max: nat)
    requires ValidLens(lens) && 1 <= min <= max <= MAXBITS && Count(lens, max) > 0 && Count(lens, min) > 0
    requires forall b :: max < b <= MAXBITS ==> Count(lens, b) == 0
    requires forall b :: 1 <= b < min ==> Count(lens, b) == 0
    ensures |Sorted(lens)| > 0 && SortedLens(lens)[0] == min && SortedLens(lens)[|Sorted(lens)| - 1] == max
  {
    hide Sorted, SortedLens, CodeAt, HuffAt, CodeOf, RevCode, IndexOf;
    SegElems(lens, min, 0);
    SegElems(lens, max, 0);
    var a, b := Seg(lens, min)[0], Seg(lens, max)[0];
    CodeOfSorted(lens, a);
    CodeOfSorted(lens, b);
    SortedLensAscend(lens);
    var n := |Sorted(lens)|;
    SortedLensAt(lens, 0);
    SortedLensAt(lens, n - 1);
    SegPrefix(lens, Sorted(lens)[0], SortedLens(lens)[0]);
    SegPrefix(lens, Sorted(lens)[n - 1], SortedLens(lens)[n - 1]);
  }

  /** The last code of a complete set is all ones: incrementing it gives zero. */
  lemma LastCode(lens: seq<nat>)
    requires ValidLens(lens) && Kraft(lens) == Pow2(MAXBITS) && |Sorted(lens)| > 0
    ensures var ls := SortedLens(lens); var n := |ls|;
            Ascending(ls) && Rev(CodeAt(ls, n - 1) + 1, ls[n - 1]) == 0
  {
    hide Kraft, Sorted, SortedLens, Pow2, Shl, CodeAt, PosAt, Rev;
    var ls := SortedLens(lens);
    var n := |ls|;
    KraftIsLastPos(lens);
    CodeAtPos(ls, n - 1);
    PosSucc(ls, n - 1);
    var c, l := CodeAt(ls, n - 1), ls[n - 1];
    ShlAdd(c, 1, MAXBITS - l);
    ShlOne(MAXBITS - l);
    ShlOne(l);
    ShlShl(1, l, MAXBITS - l);
    ShlOne(MAXBITS);
    LowHighOf(c + 1, 0, MAXBITS - l);
    LowHighOf(Shl(1, l), 0, MAXBITS - l);
    RevShift(1, l, 0);
    RevZeroBits(1);
  }

  lemma RevZeroBits(c: nat)
    ensures Rev(c, 0) == 0
  {
  }

  lemma EmptyAcceptable(ty: CodeType, lens: seq<nat>, space: int, bits: nat)
    requires ValidLens(lens) && forall l :: 1 <= l <= MAXBITS ==> Count(lens, l) == 0
    requires Room(ty, lens, space, bits)
    ensures Acceptable(ty, lens) && space >= 2
  {
    forall s | 0 <= s < |lens| ensures lens[s] == 0 {
      if lens[s] > 0 { SegPrefix(lens, s, lens[s]); }
    }
    EmptyKraft(lens, MAXBITS);
    if ty == CODES { Pow2Mono(1, bits); }
  }

  lemma Oversubscribed(ty: CodeType, lens: seq<nat>)
    requires Kraft(lens) > Pow2(MAXBITS)
    ensures !Acceptable(ty, lens)
  {
  }

  /** Forcing the root index to lie within the code lengths keeps the space sufficient. */
  lemma RoomForRoot(ty: CodeType, lens: seq<nat>, space: int, bits: nat, root: nat, max: nat)
    requires ValidLens(lens) && Room(ty, lens, space, bits) && |Sorted(lens)| > 0
    requires max == SortedLens(lens)[|Sorted(lens)| - 1] && 1 <= root <= max <= MAXBITS
    requires max <= bits ==> root == max
    ensures Room(ty, lens, space, root)
  {
    hide Sorted, SortedLens, Pow2, HuffAt, CodeAt, RevCode, CodeOf;
    if ty == CODES {
      SortedLensAt(lens, |Sorted(lens)| - 1);
      Pow2Mono(root, bits);
      SortedLensAscend(lens);
      forall s | 0 <= s < |lens| && lens[s] > 0 ensures lens[s] <= max { CodeOfSorted(lens, s); }
    }
  }

  lemma TablesFacts(c: seq<Code>, tab: nat, root: nat, ty: CodeType, ls: seq<nat>, syms: seq<nat>,
                    k: nat, drop: nat, low: nat, curr: nat, next: nat)
    requires Tables(c, tab, root, ty, ls, syms, k, drop, low, curr, next)
    ensures tab + next + Pow2(curr) <= |c| && Pow2(root) <= next + Pow2(curr)
    ensures drop == 0 ==> next == 0 && curr == root
  {
  }

  lemma LoneHuff()
    ensures Rev(1, 1) == 1 && Pow2(1) == 2
  {
  }

  /** Lack of space means that codes are longer than the root index, or that it is too long itself. */
  lemma NoSubtables(ty: CodeType, lens: seq<nat>, bits: nat, root: nat, max: nat)
    requires ValidLens(lens) && |Sorted(lens)| > 0 && max == SortedLens(lens)[|Sorted(lens)| - 1]
    requires max > root || TooBig(ty, Pow2(root))
    requires root <= max && (max <= bits ==> root == max)
    ensures !(forall s :: 0 <= s < |lens| ==> lens[s] <= bits) || TooBig(ty, Pow2(bits))
  {
    hide Pow2, Sorted, SortedLens;
    SortedLensAt(lens, |Sorted(lens)| - 1);
    if max <= bits { Pow2Mono(root, bits); }
  }

  /** The longest codes have n bits. */
  predicate LongestLength(lens: seq<nat>, n: nat) {
    n > 0 && n in lens && forall s :: 0 <= s < |lens| ==> lens[s] <= n
  }

  lemma SomeCount(lens: seq<nat>, n: nat)
    requires ValidLens(lens)
    ensures LongestLength(lens, n) ==> 1 <= n <= MAXBITS && Count(lens, n) > 0
  {
    if LongestLength(lens, n) {
      var s :| 0 <= s < |lens| && lens[s] == n;
      SegPrefix(lens, s, n);
    }
  }

  lemma LongestMax(lens: seq<nat>, n: nat, max: nat)
    requires ValidLens(lens) && |Sorted(lens)| > 0 && max == SortedLens(lens)[|Sorted(lens)| - 1]
    ensures LongestLength(lens, n) ==> max == n
  {
    hide Sorted, SortedLens;
    SortedLensAt(lens, |Sorted(lens)| - 1);
    if LongestLength(lens, n) {
      var s :| 0 <= s < |lens| && lens[s] == n;
      SortedLensAscend(lens);
      CodeOfSorted(lens, s);
    }
  }

  lemma EmptySize(lens: seq<nat>, bits: nat)
    requires ValidLens(lens) && forall l :: 1 <= l <= MAXBITS ==> Count(lens, l) == 0
    ensures TableSize(lens, bits) == 2
  {
    hide Count;
    if SortedLens(lens) != [] {
      SortedElems(lens, MAXBITS, 0);
      SegPrefix(lens, Sorted(lens)[0], SortedLens(lens)[0]);
    }
  }

  lemma SizeIs(lens: seq<nat>, bits: nat)
    requires |Sorted(lens)| > 0
    ensures Ascending(SortedLens(lens))
    ensures TableSize(lens, bits) == SizeTo(SortedLens(lens), RootBits(SortedLens(lens), bits), |Sorted(lens)|)
  {
    hide SizeTo, Sorted, SortedLens;
    SortedLensAscend(lens);
  }

  /** Build the decoding table of lens[..] at codes[tab..]. Returns 0 and the number of entries
      and root index bits, or -1 for an unusable set of lengths, or 1 for lack of space. */
  method InflateTable(ty: CodeType, lens: seq<nat>, codes: array<Code>, tab: nat, bits: nat, work: array<nat>)
    returns (ret: int, used: nat, root: nat)
    requires ValidLens(lens) && |lens| <= MaxSyms(ty) && |lens| <= work.Length
    requires Room(ty, lens, codes.Length - tab, bits)
    modifies codes, work
    ensures ret == -1 <==> !Acceptable(ty, lens)
    ensures ret == 0 ==> tab + used <= codes.Length && Decodes(codes[tab..tab + used], root, ty, lens)
    ensures ret == 0 ==> OnlyTable(old(codes[..]), codes[..], tab, used) && !TooBig(ty, used)
    ensures ret == 0 || ret == -1 || (ret == 1 && ty != CODES)
    ensures ret == 1 <==> Acceptable(ty, lens) && TooBig(ty, TableSize(lens, bits))
    ensures ret == 0 ==> used == TableSize(lens, bits)
    ensures (forall s :: 0 <= s < |lens| ==> lens[s] <= bits) && !TooBig(ty, Pow2(bits)) ==> ret != 1
    ensures ret == 0 && ty == CODES ==> NoLinks(codes[tab..tab + used], root)
    ensures ret == 0 && LongestLength(lens, bits) ==> root == bits
  {
    hide Low, High, Pow2, PosAt, Placed, Rem, Kraft, Sorted, SortedLens, Rev, Shl, CodeAt, Count, Tables, Decodes,
         Acceptable, Room, SizeTo;
    used := 0;
    var count := CountLengths(lens);
    var max, min := LengthBounds(count);
    root := if bits > max then max else bits;
    if max == 0 {
      FinishEmpty(ty, lens);
      EmptyAcceptable(ty, lens, codes.Length - tab, bits);
      EmptySize(lens, bits);
      SomeCount(lens, bits);
      codes[tab] := INVALID;
      codes[tab + 1] := INVALID;
      assert codes[tab..tab + 2] == [INVALID, INVALID];
      return 0, 2, 1;
    }
    if root < min { root := min; }
    var left := CodeSpaceLeft(count, lens);
    if left < 0 {
      Oversubscribed(ty, lens);
      return -1, used, root;
    }
    BoundsSorted(lens, min, max);
    AcceptableIff(ty, lens, max);
    if left > 0 && (ty == CODES || max != 1) { return -1, used, root; }
    LongestMax(lens, bits, max);
    SortSymbols(lens, count, work);
    SizeIs(lens, bits);
    RoomForRoot(ty, lens, codes.Length - tab, bits, root, max);
    SortedSize(lens);
    var ok, used', huff, next;
    ghost var drop, low, curr;
    ok, used', huff, next, drop, low, curr := BuildTables(ty, lens, codes, tab, root, min, max, count, work);
    if !ok {
      NoSubtables(ty, lens, bits, root, max);
      return 1, used, root;
    }
    ret, used := 0, used';
    ghost var c := codes[..];
    TablesFacts(c, tab, root, ty, SortedLens(lens), Sorted(lens), |Sorted(lens)|, drop, low, curr, next);
    if left == 0 {
      LastCode(lens);
      FinishComplete(c, tab, root, ty, lens, drop, low, curr, next);
      if ty == CODES { ShortCodes(ty, lens, codes.Length - tab, root, |Sorted(lens)| - 1); }
      if max <= root { FinishNoLinks(c, tab, root, ty, lens, drop, low, curr, next); }
    } else {
      LoneCode(lens);
      LoneHuff();
    }
    if huff != 0 {
      // fill in the remaining table entry of the incomplete code
      FinishLone(c, tab, ty, lens, drop, low, curr, next);
      codes[tab + next + huff] := INVALID;
      assert codes[..] == c[tab + 1 := INVALID];
      assert codes[tab..tab + 2] == codes[..][tab..tab + 2];
    } else {
      assert codes[tab..tab + used] == c[tab..tab + used];
    }
  }
}
