/** The canonical Huffman code that a sequence of code lengths denotes (section 3.2.2
    of RFC 1951). Encoder and decoder are both proved against this one definition.

    A code of length l occupies an interval of Weight(l) positions out of 2^15; the codes,
    taken in order of length and then of symbol, lie end to end from position 0. */
module Canonical {
  import opened Bits

  const MAXBITS: nat := 15

  /** Weight of a code of length l, in units of 2^-15. */
  function Weight(l: nat): (w: nat)
    requires l <= MAXBITS
    ensures w >= 1
  {
    Pow2(MAXBITS - l)
  }

  predicate ValidLens(lens: seq<nat>) {
    forall s :: 0 <= s < |lens| ==> lens[s] <= MAXBITS
  }

  /** The symbols of length b, in order. */
  function Seg(lens: seq<nat>, b: nat): (syms: seq<nat>)
    ensures |syms| <= |lens|
  {
    if lens == [] then []
    else
      var rest := Seg(lens[..|lens| - 1], b);
      if lens[|lens| - 1] == b then rest + [|lens| - 1] else rest
  }

  function Count(lens: seq<nat>, b: nat): nat {
    |Seg(lens, b)|
  }

  /** The code value of the first symbol of length b. */
  function FirstCode(lens: seq<nat>, b: nat): nat {
    if b <= 1 then 0 else 2 * (FirstCode(lens, b - 1) + Count(lens, b - 1))
  }

  /** The code of symbol s as an integer of lens[s] bits, most significant bit first. */
  function CodeOf(lens: seq<nat>, s: nat): nat
    requires s < |lens|
  {
    FirstCode(lens, lens[s]) + Count(lens[..s], lens[s])
  }

  /** The code of symbol s as it is packed into the stream, least significant bit first. */
  function RevCode(lens: seq<nat>, s: nat): (h: nat)
    requires s < |lens|
    ensures h < Pow2(lens[s])
  {
    Rev(CodeOf(lens, s), lens[s])
  }

  /** The sum of the weights of the codes of length 1 to b: 2^15 times the Kraft sum. */
  function KraftTo(lens: seq<nat>, b: nat): nat
    requires b <= MAXBITS
  {
    if b == 0 then 0 else KraftTo(lens, b - 1) + Shl(Count(lens, b), MAXBITS - b)
  }

  function Kraft(lens: seq<nat>): nat { KraftTo(lens, MAXBITS) }

  /** The symbols of length 1 to b, by length and then by symbol. */
  function SortedTo(lens: seq<nat>, b: nat): seq<nat> {
    if b == 0 then [] else SortedTo(lens, b - 1) + Seg(lens, b)
  }

  function Sorted(lens: seq<nat>): seq<nat> { SortedTo(lens, MAXBITS) }

  /** Where symbol s stands in Sorted(lens). */
  function IndexOf(lens: seq<nat>, s: nat): nat
    requires s < |lens| && lens[s] > 0
  {
    |SortedTo(lens, lens[s] - 1)| + Count(lens[..s], lens[s])
  }

  lemma {:induction false} SegElems(lens: seq<nat>, b: nat, i: nat)
    requires i < Count(lens, b)
    ensures Seg(lens, b)[i] < |lens| && lens[Seg(lens, b)[i]] == b
    ensures Count(lens[..Seg(lens, b)[i]], b) == i
  {
    var n := |lens| - 1;
    var init := lens[..n];
    if i < Count(init, b) {
      SegElems(init, b, i);
      assert init[..Seg(init, b)[i]] == lens[..Seg(lens, b)[i]];
    }
  }

  lemma {:induction false} SegPrefix(lens: seq<nat>, n: nat, b: nat)
    requires n <= |lens|
    ensures Count(lens[..n], b) <= Count(lens, b)
    ensures n < |lens| && lens[n] == b ==>
            Count(lens[..n], b) < Count(lens, b) && Seg(lens, b)[Count(lens[..n], b)] == n
    ensures Seg(lens[..n], b) == Seg(lens, b)[..Count(lens[..n], b)]
    decreases |lens|
  {
    if n == |lens| {
      assert lens[..n] == lens;
    } else {
      var init := lens[..|lens| - 1];
      SegPrefix(init, n, b);
      assert init[..n] == lens[..n];
    }
  }

  lemma {:induction false} SortedMono(lens: seq<nat>, a: nat, b: nat)
    requires a <= b
    ensures SortedTo(lens, a) <= SortedTo(lens, b)
    decreases b
  {
    if a < b { SortedMono(lens, a, b - 1); }
  }

  /** Every nonzero-length symbol stands at its index. */
  lemma SortedAt(lens: seq<nat>, s: nat)
    requires s < |lens| && 0 < lens[s] <= MAXBITS
    ensures IndexOf(lens, s) < |Sorted(lens)| && Sorted(lens)[IndexOf(lens, s)] == s
  {
    SegPrefix(lens, s, lens[s]);
    SortedMono(lens, lens[s], MAXBITS);
  }

  /** Every entry of the sorted list is a symbol, standing at its index. */
  lemma {:induction false} SortedElems(lens: seq<nat>, b: nat, k: nat)
    requires k < |SortedTo(lens, b)|
    ensures var s := SortedTo(lens, b)[k];
            s < |lens| && 0 < lens[s] <= b && IndexOf(lens, s) == k
  {
    if k < |SortedTo(lens, b - 1)| {
      SortedElems(lens, b - 1, k);
    } else {
      SegElems(lens, b, k - |SortedTo(lens, b - 1)|);
    }
  }

  /** The code lengths in sorted order. */
  function SortedLens(lens: seq<nat>): (ls: seq<nat>)
    ensures |ls| == |Sorted(lens)|
  {
    seq(|Sorted(lens)|, k requires 0 <= k < |Sorted(lens)| =>
      (SortedElems(lens, MAXBITS, k); lens[Sorted(lens)[k]]))
  }

  /** Lengths from 1 to 15 that never decrease. */
  ghost predicate Ascending(ls: seq<nat>) {
    (forall k :: 0 <= k < |ls| ==> 1 <= ls[k] <= MAXBITS) &&
    forall j, k :: 0 <= j <= k < |ls| ==> ls[j] <= ls[k]
  }

  lemma SortedLensAscend(lens: seq<nat>)
    ensures Ascending(SortedLens(lens))
  {
    var ls := SortedLens(lens);
    forall k | 0 <= k < |ls| ensures 1 <= ls[k] <= MAXBITS { SortedElems(lens, MAXBITS, k); }
    forall j, k | 0 <= j <= k < |ls| ensures ls[j] <= ls[k] {
      SortedElems(lens, MAXBITS, j);
      SortedElems(lens, MAXBITS, k);
      if ls[k] < ls[j] {
        SegPrefix(lens, Sorted(lens)[k], ls[k]);
        SortedMono(lens, ls[k], ls[j] - 1);
      }
    }
  }

  /** The position at which the k-th code of ls starts. */
  ghost function PosAt(ls: seq<nat>, k: nat): nat
    requires k <= |ls| && Ascending(ls)
  {
    if k == 0 then 0 else PosAt(ls, k - 1) + Weight(ls[k - 1])
  }

  /** The k-th code of ls as an integer. */
  ghost function CodeAt(ls: seq<nat>, k: nat): nat
    requires k < |ls| && Ascending(ls)
  {
    if k == 0 then 0 else Shl(CodeAt(ls, k - 1) + 1, ls[k] - ls[k - 1])
  }

  /** The k-th code of ls as packed into the stream. */
  ghost function HuffAt(ls: seq<nat>, k: nat): (h: nat)
    requires k < |ls| && Ascending(ls)
    ensures h < Pow2(ls[k])
  {
    Rev(CodeAt(ls, k), ls[k])
  }

  /** A position is a code value followed by zeros. */
  lemma {:induction false} CodeAtPos(ls: seq<nat>, k: nat)
    requires Ascending(ls) && k < |ls|
    ensures PosAt(ls, k) == Shl(CodeAt(ls, k), MAXBITS - ls[k])
  {
    if k == 0 {
      ShlZero(MAXBITS - ls[k]);
    } else {
      CodeAtPos(ls, k - 1);
      var c, l := CodeAt(ls, k - 1), ls[k - 1];
      ShlAdd(c, 1, MAXBITS - l);
      ShlOne(MAXBITS - l);
      ShlShl(c + 1, ls[k] - l, MAXBITS - ls[k]);
    }
  }

  lemma PosSucc(ls: seq<nat>, k: nat)
    requires Ascending(ls) && k < |ls|
    ensures PosAt(ls, k + 1) == PosAt(ls, k) + Weight(ls[k])
  {
  }

  lemma {:induction false} PosMono(ls: seq<nat>, j: nat, k: nat)
    requires Ascending(ls) && j <= k <= |ls|
    ensures PosAt(ls, j) <= PosAt(ls, k)
    decreases k
  {
    if j < k { PosMono(ls, j, k - 1); }
  }

  /** A code that fits in the code space is smaller than 2^length. */
  lemma CodeFits(ls: seq<nat>, k: nat)
    requires Ascending(ls) && k < |ls| && PosAt(ls, |ls|) <= Pow2(MAXBITS)
    ensures CodeAt(ls, k) < Pow2(ls[k])
  {
    hide CodeAt, PosAt, Shl, Pow2;
    CodeAtPos(ls, k);
    PosSucc(ls, k);
    PosMono(ls, k + 1, |ls|);
    var c, l := CodeAt(ls, k), ls[k];
    if c >= Pow2(l) {
      ShlMono(Pow2(l), c, MAXBITS - l);
      ShlOne(l);
      ShlShl(1, l, MAXBITS - l);
      ShlOne(MAXBITS);
    }
  }

  /** The leading bits of a position are the leading bits of the code that starts there. */
  lemma PosPrefix(ls: seq<nat>, k: nat, l: nat)
    requires Ascending(ls) && k < |ls| && l <= ls[k]
    ensures High(PosAt(ls, k), MAXBITS - l) == High(CodeAt(ls, k), ls[k] - l)
  {
    CodeAtPos(ls, k);
    LowHighOf(CodeAt(ls, k), 0, MAXBITS - ls[k]);
    HighHigh(PosAt(ls, k), MAXBITS - ls[k], ls[k] - l);
  }

  /** A later code, cut to the length of an earlier one, is a greater number. */
  lemma LaterCode(ls: seq<nat>, j: nat, k: nat)
    requires Ascending(ls) && j < k < |ls| && PosAt(ls, |ls|) <= Pow2(MAXBITS)
    ensures CodeAt(ls, j) < High(CodeAt(ls, k), ls[k] - ls[j]) < Pow2(ls[j])
  {
    hide CodeAt, PosAt, Shl, High, Pow2;
    var a, l := CodeAt(ls, j), ls[j];
    PosSucc(ls, j);
    PosMono(ls, j + 1, k);
    CodeAtPos(ls, j);
    ShlAdd(a, 1, MAXBITS - l);
    ShlOne(MAXBITS - l);
    HighMono(Shl(a + 1, MAXBITS - l), PosAt(ls, k), MAXBITS - l);
    LowHighOf(a + 1, 0, MAXBITS - l);
    PosPrefix(ls, k, l);
    CodeFits(ls, k);
    HighBelow(CodeAt(ls, k), ls[k] - l, l);
  }

  /** No code is a prefix of a later one: its bits differ from theirs. */
  lemma HuffPrefixFree(ls: seq<nat>, j: nat, k: nat)
    requires Ascending(ls) && j < k < |ls| && PosAt(ls, |ls|) <= Pow2(MAXBITS)
    ensures Low(HuffAt(ls, k), ls[j]) != HuffAt(ls, j)
  {
    hide CodeAt, PosAt, Rev, Low, High, Pow2;
    LaterCode(ls, j, k);
    CodeFits(ls, j);
    var q := High(CodeAt(ls, k), ls[k] - ls[j]);
    RevPrefix(CodeAt(ls, k), ls[k] - ls[j], ls[j]);
    if Rev(q, ls[j]) == Rev(CodeAt(ls, j), ls[j]) {
      RevInjective(q, CodeAt(ls, j), ls[j]);
    }
  }

  lemma {:induction false} FindInterval(ls: seq<nat>, n: nat, v: nat) returns (k: nat)
    requires Ascending(ls) && n <= |ls| && v < PosAt(ls, n)
    ensures k < n && PosAt(ls, k) <= v < PosAt(ls, k + 1)
  {
    if v < PosAt(ls, n - 1) { k := FindInterval(ls, n - 1, v); } else { k := n - 1; }
  }

  /** The bits w, as a position, lie in the interval of code k: then they start with code k. */
  lemma InInterval(ls: seq<nat>, k: nat, w: nat)
    requires Ascending(ls) && k < |ls| && w < Pow2(MAXBITS)
    requires PosAt(ls, k) <= Rev(w, MAXBITS) < PosAt(ls, k + 1)
    ensures Low(w, ls[k]) == HuffAt(ls, k)
  {
    hide CodeAt, PosAt, Rev, Low, High, Pow2, Shl;
    var v, c, l := Rev(w, MAXBITS), CodeAt(ls, k), ls[k];
    CodeAtPos(ls, k);
    PosSucc(ls, k);
    RevRev(w, MAXBITS);
    RevPrefix(v, MAXBITS - l, l);
    LowHighOf(c, v - PosAt(ls, k), MAXBITS - l);
  }

  /** When the codes fill the space, some code is a prefix of any 15 bits. */
  lemma HuffCovers(ls: seq<nat>, w: nat) returns (k: nat)
    requires Ascending(ls) && PosAt(ls, |ls|) == Pow2(MAXBITS) && w < Pow2(MAXBITS)
    ensures k < |ls| && Low(w, ls[k]) == HuffAt(ls, k)
  {
    hide Rev, Low, Pow2;
    k := FindInterval(ls, |ls|, Rev(w, MAXBITS));
    InInterval(ls, k, w);
  }

  // ----- the k-th code is the code of the k-th symbol -----

  lemma {:induction false} PosInSeg(ls: seq<nat>, j: nat, k: nat, b: nat)
    requires Ascending(ls) && j <= k <= |ls| && b <= MAXBITS
    requires forall i :: j <= i < k ==> ls[i] == b
    ensures PosAt(ls, k) == PosAt(ls, j) + Shl(k - j, MAXBITS - b)
    decreases k
  {
    if j < k {
      PosInSeg(ls, j, k - 1, b);
      ShlAdd(k - 1 - j, 1, MAXBITS - b);
      ShlOne(MAXBITS - b);
    } else {
      ShlZero(MAXBITS - b);
    }
  }

  lemma SegLens(lens: seq<nat>, b: nat, i: nat)
    requires 1 <= b <= MAXBITS && |SortedTo(lens, b - 1)| <= i < |SortedTo(lens, b)|
    ensures i < |Sorted(lens)| && SortedLens(lens)[i] == b
  {
    SortedMono(lens, b, MAXBITS);
    SegElems(lens, b, i - |SortedTo(lens, b - 1)|);
  }

  /** The lengths up to b use up KraftTo(lens, b) positions. */
  lemma {:induction false} PosOfSegment(lens: seq<nat>, b: nat)
    requires b <= MAXBITS
    ensures |SortedTo(lens, b)| <= |Sorted(lens)| && Ascending(SortedLens(lens))
    ensures PosAt(SortedLens(lens), |SortedTo(lens, b)|) == KraftTo(lens, b)
  {
    SortedMono(lens, b, MAXBITS);
    SortedLensAscend(lens);
    if b > 0 {
      PosOfSegment(lens, b - 1);
      forall i | |SortedTo(lens, b - 1)| <= i < |SortedTo(lens, b)|
        ensures SortedLens(lens)[i] == b { SegLens(lens, b, i); }
      PosInSeg(SortedLens(lens), |SortedTo(lens, b - 1)|, |SortedTo(lens, b)|, b);
    }
  }

  lemma {:induction false} FirstCodePos(lens: seq<nat>, b: nat)
    requires 1 <= b <= MAXBITS
    ensures Shl(FirstCode(lens, b), MAXBITS - b) == KraftTo(lens, b - 1)
  {
    if b == 1 {
      ShlZero(MAXBITS - b);
    } else {
      FirstCodePos(lens, b - 1);
      var f, c := FirstCode(lens, b - 1), Count(lens, b - 1);
      ShlInto(f + c, MAXBITS - b);
      ShlAdd(f, c, MAXBITS - b + 1);
    }
  }

  lemma CodeOfSorted(lens: seq<nat>, s: nat)
    requires s < |lens| && 0 < lens[s] <= MAXBITS
    ensures var k := IndexOf(lens, s); var ls := SortedLens(lens);
            Ascending(ls) && k < |ls| && Sorted(lens)[k] == s && ls[k] == lens[s] &&
            CodeAt(ls, k) == CodeOf(lens, s) && HuffAt(ls, k) == RevCode(lens, s)
  {
    hide PosAt, FirstCode, KraftTo, SortedLens, CodeAt;
    var ls, b, k := SortedLens(lens), lens[s], IndexOf(lens, s);
    SortedAt(lens, s);
    PosOfSegment(lens, b - 1);
    FirstCodePos(lens, b);
    var j := |SortedTo(lens, b - 1)|;
    SegPrefix(lens, s, b);
    forall i | j <= i < k ensures ls[i] == b { SegLens(lens, b, i); }
    PosInSeg(ls, j, k, b);
    var f, r := FirstCode(lens, b), Count(lens[..s], b);
    ShlAdd(f, r, MAXBITS - b);
    SortedLensAt(lens, k);
    CodeAtPos(ls, k);
    LowHighOf(f + r, 0, MAXBITS - b);
    LowHighOf(CodeAt(ls, k), 0, MAXBITS - b);
  }

  lemma SortedLensAt(lens: seq<nat>, k: nat)
    requires k < |Sorted(lens)|
    ensures Sorted(lens)[k] < |lens| && SortedLens(lens)[k] == lens[Sorted(lens)[k]]
  {
    SortedElems(lens, MAXBITS, k);
  }

  // ----- what the definition promises -----

  lemma KraftIsLastPos(lens: seq<nat>)
    ensures Ascending(SortedLens(lens))
    ensures PosAt(SortedLens(lens), |SortedLens(lens)|) == Kraft(lens)
  {
    PosOfSegment(lens, MAXBITS);
  }

  /** A code that is not over-subscribed is prefix-free: reading as many bits as s is long,
      no other symbol looks like s. */
  lemma PrefixFree(lens: seq<nat>, s: nat, t: nat)
    requires ValidLens(lens) && Kraft(lens) <= Pow2(MAXBITS)
    requires s < |lens| && t < |lens| && s != t && 0 < lens[s] <= lens[t]
    ensures Low(RevCode(lens, t), lens[s]) != RevCode(lens, s)
  {
    hide CodeAt, PosAt, Pow2, Rev, CodeOf, SortedLens, IndexOf, Kraft, RevCode, HuffAt;
    KraftIsLastPos(lens);
    CodeOfSorted(lens, s);
    CodeOfSorted(lens, t);
    var ls, j, k := SortedLens(lens), IndexOf(lens, s), IndexOf(lens, t);
    if j < k {
      HuffPrefixFree(ls, j, k);
    } else if k < j {
      assert ls[k] == ls[j];
      HuffPrefixFree(ls, k, j);
      LowSmall(HuffAt(ls, k), ls[j]);
      LowSmall(HuffAt(ls, j), ls[j]);
    }
  }

  /** A complete code decodes every bit string: exactly one symbol's code is a prefix of it. */
  lemma CompleteCode(lens: seq<nat>, w: nat) returns (s: nat)
    requires ValidLens(lens) && Kraft(lens) == Pow2(MAXBITS) && w < Pow2(MAXBITS)
    ensures s < |lens| && 0 < lens[s] && Low(w, lens[s]) == RevCode(lens, s)
    ensures forall t :: 0 <= t < |lens| && 0 < lens[t] && Low(w, lens[t]) == RevCode(lens, t) ==> t == s
  {
    KraftIsLastPos(lens);
    var k := HuffCovers(SortedLens(lens), w);
    SortedElems(lens, MAXBITS, k);
    s := Sorted(lens)[k];
    CodeOfSorted(lens, s);
    forall t | 0 <= t < |lens| && 0 < lens[t] && Low(w, lens[t]) == RevCode(lens, t)
      ensures t == s
    {
      if t != s {
        if lens[s] <= lens[t] {
          LowLow(w, lens[s], lens[t]);
          PrefixFree(lens, s, t);
        } else {
          LowLow(w, lens[t], lens[s]);
          PrefixFree(lens, t, s);
        }
      }
    }
  }
}
