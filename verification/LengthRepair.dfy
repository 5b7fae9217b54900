/** The part of gen_bitlen of trees.c that makes lengths which were cut off a complete code again, on the
    numbers of codes of each length (bl_count). */
module LengthRepair {
  import opened Bits
  import opened Canonical

  // ----- numbers of codes of each length -----

  /** The Kraft sum of bl[b] codes of every length b, in units of 2^-15. */
  function BlKraft(bl: seq<nat>, b: nat): int
    requires b < |bl| && b <= MAXBITS
  {
    if b == 0 then 0 else BlKraft(bl, b - 1) + Shl(bl[b], MAXBITS - b)
  }

  function BlTotal(bl: seq<nat>, b: nat): int
    requires b < |bl|
  {
    if b == 0 then 0 else BlTotal(bl, b - 1) + bl[b]
  }

  lemma {:induction false} BlUpdate(bl: seq<nat>, i: nat, v: nat, b: nat)
    requires b < |bl| && b <= MAXBITS && 1 <= i < |bl|
    ensures BlKraft(bl[i := v], b) == BlKraft(bl, b) + if i <= b then Shl(v, MAXBITS - i) - Shl(bl[i], MAXBITS - i)
                                                       else 0
    ensures BlTotal(bl[i := v], b) == BlTotal(bl, b) + if i <= b then v - bl[i] else 0
  {
    if b > 0 { BlUpdate(bl, i, v, b - 1); }
  }

  lemma {:induction false} BlZero(bl: seq<nat>, b: nat)
    requires b < |bl| && b <= MAXBITS && forall i :: 1 <= i <= b ==> bl[i] == 0
    ensures BlKraft(bl, b) == 0 && BlTotal(bl, b) == 0
  {
    if b > 0 {
      BlZero(bl, b - 1);
      ShlZero(MAXBITS - b);
    }
  }

  /** The statistics when e pairs of lengths were cut off at max. */
  ghost predicate Cut(bl: seq<nat>, max: nat, e: nat, total: nat) {
    |bl| == MAXBITS + 1 && 2 <= max <= MAXBITS && bl[0] == 0 && (forall b :: max < b <= MAXBITS ==> bl[b] == 0) &&
    BlKraft(bl, MAXBITS) == Pow2(MAXBITS) + Shl(e, MAXBITS - max) && BlTotal(bl, MAXBITS) == total <= Pow2(max) &&
    (e > 0 ==> bl[max] >= e + 1)
  }

  lemma {:induction false} OnlyAt(bl: seq<nat>, i: nat, b: nat)
    requires 1 <= i <= b < |bl| && b <= MAXBITS && forall k :: 1 <= k <= b && k != i ==> bl[k] == 0
    ensures BlKraft(bl, b) == Shl(bl[i], MAXBITS - i) && BlTotal(bl, b) == bl[i]
    decreases b
  {
    if b == i {
      BlZero(bl, b - 1);
    } else {
      OnlyAt(bl, i, b - 1);
      ShlZero(MAXBITS - b);
    }
  }

  /** Not all codes can be of the greatest length: there is room for one to move down. */
  lemma Shallow(bl: seq<nat>, max: nat, e: nat, total: nat) returns (b: nat)
    requires Cut(bl, max, e, total) && e > 0
    ensures 1 <= b < max && bl[b] > 0
  {
    hide Shl, Pow2;
    if b' :| 1 <= b' < max && bl[b'] > 0 {
      b := b';
    } else {
      OnlyAt(bl, max, MAXBITS);
      ShlOne(max);
      ShlShl(1, max, MAXBITS - max);
      ShlOne(MAXBITS);
      ShlAdd(Pow2(max), e, MAXBITS - max);
      if bl[max] < Pow2(max) + e { ShlMono(bl[max], Pow2(max) + e, MAXBITS - max); }
      assert false;
    }
  }

  /** Moving a leaf of length b down, with a cut-off leaf as its brother, takes one unit away. */
  lemma RepairStep(bl: seq<nat>, max: nat, e: nat, total: nat, b: nat)
    requires Cut(bl, max, e, total) && e > 0 && 1 <= b < max && bl[b] > 0
    ensures var bl1 := bl[b := bl[b] - 1]; var bl2 := bl1[b + 1 := bl1[b + 1] + 2];
            bl2[max] > 0 && Cut(bl2[max := bl2[max] - 1], max, e - 1, total) && bl2[max] >= 2
  {
    hide Shl, Pow2, BlKraft, BlTotal;
    var bl1 := bl[b := bl[b] - 1];
    var bl2 := bl1[b + 1 := bl1[b + 1] + 2];
    BlUpdate(bl, b, bl[b] - 1, MAXBITS);
    BlUpdate(bl1, b + 1, bl1[b + 1] + 2, MAXBITS);
    BlUpdate(bl2, max, bl2[max] - 1, MAXBITS);
    ShlAdd(bl[b] - 1, 1, MAXBITS - b);
    ShlAdd(bl1[b + 1], 2, MAXBITS - (b + 1));
    ShlInto(1, MAXBITS - b - 1);
    ShlAdd(bl2[max] - 1, 1, MAXBITS - max);
    ShlAdd(e - 1, 1, MAXBITS - max);
  }

  // ----- what the repair is to keep -----

  /** Numbers of codes of each length, none above max, that a prefix code can have. */
  ghost predicate Fits(t: seq<nat>, max: nat, total: nat) {
    |t| == MAXBITS + 1 && t[0] == 0 && (forall b :: max < b <= MAXBITS ==> t[b] == 0) &&
    BlTotal(t, MAXBITS) == total && BlKraft(t, MAXBITS) <= Pow2(MAXBITS)
  }

  /** t has fewer codes of length j than c, and as many of each shorter length. */
  ghost predicate FirstLess(t: seq<nat>, c: seq<nat>, j: nat) {
    j < |t| == |c| && t[..j] == c[..j] && t[j] < c[j]
  }

  /** c keeps more of the short codes than t, or is the same. */
  ghost predicate Under(t: seq<nat>, c: seq<nat>) { t == c || exists j: nat :: FirstLess(t, c, j) }

  /** c is what is left of s when codes are lengthened so as to fit, with as many short codes kept as can be: as many of
      length 1 as possible, with them as many of length 2, and so on. */
  ghost predicate KeepsShort(s: seq<nat>, c: seq<nat>, max: nat, total: nat) {
    Fits(c, max, total) && Under(c, s) && forall t :: Fits(t, max, total) && Under(t, s) ==> Under(t, c)
  }

  /** There is only one such. */
  lemma OnlyOneKeeps(s: seq<nat>, c: seq<nat>, c': seq<nat>, max: nat, total: nat)
    requires KeepsShort(s, c, max, total) && KeepsShort(s, c', max, total)
    ensures c == c'
  {
    hide Fits;
  }

  /** What fits is kept as it is. */
  lemma FitsKept(s: seq<nat>, max: nat, total: nat)
    requires Fits(s, max, total)
    ensures KeepsShort(s, s, max, total)
  {
    hide Fits;
  }

  lemma UnderTrans(a: seq<nat>, b: seq<nat>, c: seq<nat>)
    requires Under(a, b) && Under(b, c)
    ensures Under(a, c)
  {
    if a != b && b != c {
      var j: nat :| FirstLess(a, b, j);
      var k: nat :| FirstLess(b, c, k);
      var i := if j < k then j else k;
      assert a[..i] == a[..j][..i] == b[..j][..i] == b[..i] == b[..k][..i] == c[..k][..i] == c[..i];
      if i < k { assert b[..k][i] == c[..k][i]; }
      if i < j { assert a[..j][i] == b[..j][i]; }
      assert FirstLess(a, c, i);
    }
  }

  lemma {:induction false} FirstDiff(a: seq<nat>, b: seq<nat>) returns (j: nat)
    requires |a| == |b| && a != b
    ensures j < |a| && a[..j] == b[..j] && a[j] != b[j]
  {
    if a[0] != b[0] {
      j := 0;
    } else {
      assert a == [a[0]] + a[1..] && b == [b[0]] + b[1..];
      var k := FirstDiff(a[1..], b[1..]);
      j := k + 1;
      assert a[..j] == [a[0]] + a[1..][..k] && b[..j] == [b[0]] + b[1..][..k];
    }
  }

  /** The Kraft sum, less what codes of the greatest length would have. */
  function Gain(bl: seq<nat>, b: nat, max: nat): int
    requires b < |bl| && b <= MAXBITS && max <= MAXBITS
  {
    if b == 0 then 0 else Gain(bl, b - 1, max) + GainOf(bl[b], b, max)
  }

  function GainOf(n: nat, b: nat, max: nat): int
    requires b <= MAXBITS && max <= MAXBITS
  {
    Shl(n, MAXBITS - b) - Shl(n, MAXBITS - max)
  }

  lemma {:induction false} GainIs(bl: seq<nat>, b: nat, max: nat)
    requires b < |bl| && b <= MAXBITS && max <= MAXBITS
    ensures BlTotal(bl, b) >= 0 && Gain(bl, b, max) == BlKraft(bl, b) - Shl(BlTotal(bl, b), MAXBITS - max)
  {
    hide Shl;
    if b == 0 {
      ShlZero(MAXBITS - max);
    } else {
      GainIs(bl, b - 1, max);
      ShlAdd(BlTotal(bl, b - 1), bl[b], MAXBITS - max);
    }
  }

  lemma {:induction false} ShlMore(n: nat, k: nat, d: nat)
    ensures Shl(n, k + d) >= Shl(n, k) && (n > 0 && d > 0 ==> Shl(n, k + d) > Shl(n, k))
    decreases d
  {
    if d > 0 { ShlMore(n, k, d - 1); }
    ShlMono(0, n, k);
    ShlZero(k);
  }

  /** Shorter codes gain, and more of them more. */
  lemma GainMono(n: nat, m: nat, b: nat, max: nat)
    requires n <= m && b <= max <= MAXBITS
    ensures 0 <= GainOf(n, b, max) <= GainOf(m, b, max)
    ensures n < m && b < max ==> GainOf(n, b, max) < GainOf(m, b, max)
  {
    hide Shl;
    ShlMore(n, MAXBITS - max, max - b);
    ShlMore(m - n, MAXBITS - max, max - b);
    ShlAdd(n, m - n, MAXBITS - b);
    ShlAdd(n, m - n, MAXBITS - max);
  }

  lemma {:induction false} GainSame(t: seq<nat>, c: seq<nat>, b: nat, max: nat)
    requires b < |t| == |c| && b <= MAXBITS && max <= MAXBITS && forall k :: 1 <= k <= b ==> t[k] == c[k]
    ensures Gain(t, b, max) == Gain(c, b, max) && BlTotal(t, b) == BlTotal(c, b) && BlKraft(t, b) == BlKraft(c, b)
  {
    hide GainOf;
    if b > 0 { GainSame(t, c, b - 1, max); }
  }

  /** More codes of length j, when all others that are longer have the greatest length. */
  lemma {:induction false} GainMore(t: seq<nat>, c: seq<nat>, j: nat, b: nat, max: nat)
    requires b < |t| == |c| && 1 <= j <= b <= max <= MAXBITS && j < max && t[..j] == c[..j] && t[j] > c[j]
    requires forall k :: j < k <= b && k < max ==> c[k] == 0
    ensures Gain(t, b, max) > Gain(c, b, max)
    decreases b
  {
    hide GainOf;
    if b == j {
      forall k | 1 <= k < j ensures t[k] == c[k] { assert t[..j][k] == c[..j][k]; }
      GainSame(t, c, j - 1, max);
      GainMono(c[j], t[j], j, max);
    } else {
      GainMore(t, c, j, b - 1, max);
      if b < max {
        GainMono(0, t[b], b, max);
        NoGain(0, b, max);
      } else {
        NoGain(t[b], b, max);
        NoGain(c[b], b, max);
      }
    }
  }

  lemma NoGain(n: nat, b: nat, max: nat)
    requires b <= max <= MAXBITS
    ensures n == 0 || b == max ==> GainOf(n, b, max) == 0
  {
    ShlZero(MAXBITS - b);
    ShlZero(MAXBITS - max);
  }

  lemma {:induction false} BeyondMax(bl: seq<nat>, max: nat, b: nat)
    requires max <= b < |bl| && b <= MAXBITS && forall i :: max < i <= b ==> bl[i] == 0
    ensures BlTotal(bl, b) == BlTotal(bl, max) && BlKraft(bl, b) == BlKraft(bl, max)
    decreases b
  {
    if b > max {
      BeyondMax(bl, max, b - 1);
      ShlZero(MAXBITS - b);
    }
  }

  /** With as many codes in all, more codes of length j do not fit where fewer fill the space, if all longer ones
      have the greatest length already. */
  lemma TooMany(t: seq<nat>, c: seq<nat>, max: nat, total: nat, j: nat)
    requires |t| == |c| == MAXBITS + 1 && 1 <= j <= max <= MAXBITS && t[..j] == c[..j] && t[j] > c[j]
    requires forall b :: max < b <= MAXBITS ==> t[b] == 0 && c[b] == 0
    requires BlTotal(t, MAXBITS) == total == BlTotal(c, MAXBITS) && forall k :: j < k < max ==> c[k] == 0
    ensures BlKraft(t, MAXBITS) > BlKraft(c, MAXBITS)
  {
    hide BlKraft, BlTotal, Gain, Shl;
    BeyondMax(t, max, MAXBITS);
    BeyondMax(c, max, MAXBITS);
    if j == max {
      TotalDiffers(t, c, max);
    } else {
      GainMore(t, c, j, max, max);
      GainIs(t, max, max);
      GainIs(c, max, max);
    }
  }

  lemma TotalDiffers(t: seq<nat>, c: seq<nat>, j: nat)
    requires |t| == |c| == MAXBITS + 1 && 1 <= j <= MAXBITS && t[..j] == c[..j] && t[j] != c[j]
    ensures BlTotal(t, j) != BlTotal(c, j)
  {
    forall k | 1 <= k < j ensures t[k] == c[k] { assert t[..j][k] == c[..j][k]; }
    GainSame(t, c, j - 1, 0);
  }

  /** Moved down: a leaf of length b, with a cut-off leaf as its brother. */
  function MovedDown(bl: seq<nat>, b: nat, max: nat): seq<nat>
    requires 1 <= b < max < |bl| && bl[b] > 0 && bl[max] > 0
  {
    var bl1 := bl[b := bl[b] - 1];
    var bl2 := bl1[b + 1 := bl1[b + 1] + 2];
    bl2[max := bl2[max] - 1]
  }

  /** Moving the longest leaf there is keeps as many short codes as any statistics that fit. */
  lemma StillUnder(c: seq<nat>, c': seq<nat>, max: nat, e: nat, total: nat, b: nat, t: seq<nat>)
    requires Cut(c, max, e, total) && e > 0 && 1 <= b < max && c[b] > 0 && (forall k :: b < k < max ==> c[k] == 0)
    requires c[max] > 0 && c' == MovedDown(c, b, max) && Cut(c', max, e - 1, total)
    requires Fits(t, max, total) && Under(t, c)
    ensures Under(t, c')
  {
    hide BlKraft, BlTotal, Shl, Pow2;
    ShlMono(0, e - 1, MAXBITS - max);
    ShlZero(MAXBITS - max);
    CutTooMuch(c, max, e, total);
    var j: nat :| FirstLess(t, c, j);
    if t != c' {
      var i := FirstDiff(t, c');
      if t[i] < c'[i] {
        assert FirstLess(t, c', i);
      } else {
        NotAbove(c, c', t, max, b, j, i);
        TooMany(t, c', max, total, i);
      }
    }
  }

  /** Statistics that are cut off need more than the code space. */
  lemma CutTooMuch(c: seq<nat>, max: nat, e: nat, total: nat)
    requires Cut(c, max, e, total) && e > 0
    ensures BlKraft(c, MAXBITS) > Pow2(MAXBITS)
  {
    hide BlKraft, Shl;
    ShlMono(0, e, MAXBITS - max);
    ShlZero(MAXBITS - max);
  }

  /** Statistics that are below those before the move and above those after it differ only after length b. */
  lemma NotAbove(c: seq<nat>, c': seq<nat>, t: seq<nat>, max: nat, b: nat, j: nat, i: nat)
    requires |t| == |c| == MAXBITS + 1 && 1 <= b < max <= MAXBITS && c[b] > 0 && c[max] > 0
    requires c' == MovedDown(c, b, max) && FirstLess(t, c, j) && BlTotal(t, MAXBITS) == BlTotal(c, MAXBITS)
    requires (forall k :: b < k < max ==> c[k] == 0) && forall k :: max < k <= MAXBITS ==> t[k] == 0 && c[k] == 0
    requires i < |t| == |c'| && t[..i] == c'[..i] && t[i] > c'[i]
    ensures b < i <= max && forall k :: i < k < max ==> c'[k] == 0
  {
    hide BlTotal, BlKraft;
    if j == max {
      BeyondMax(t, max, MAXBITS);
      BeyondMax(c, max, MAXBITS);
      TotalDiffers(t, c, max);
    }
  }

  lemma MovedUnder(c: seq<nat>, c': seq<nat>, b: nat, max: nat)
    requires 1 <= b < max < |c| && c[b] > 0 && c[max] > 0 && c' == MovedDown(c, b, max)
    ensures Under(c', c)
  {
    assert FirstLess(c', c, b);
  }

  /** The repair so far: nothing that fits keeps more short codes. */
  ghost predicate Repairing(s: seq<nat>, c: seq<nat>, max: nat, e: nat, total: nat) {
    Cut(c, max, e, total) && Under(c, s) && forall t :: Fits(t, max, total) && Under(t, s) ==> Under(t, c)
  }

  lemma RepairMore(s: seq<nat>, c: seq<nat>, c': seq<nat>, max: nat, e: nat, total: nat, b: nat)
    requires Repairing(s, c, max, e, total) && e > 0 && |c| == MAXBITS + 1 && 1 <= b < max <= MAXBITS && c[b] > 0
    requires c[max] > 0 && (forall k :: b < k < max ==> c[k] == 0) && c' == MovedDown(c, b, max)
    ensures Repairing(s, c', max, e - 1, total) && c'[max] > 0
  {
    hide Fits, Under, Cut;
    RepairStep(c, max, e, total, b);
    MovedUnder(c, c', b, max);
    UnderTrans(c', c, s);
    forall t | Fits(t, max, total) && Under(t, s) ensures Under(t, c') { StillUnder(c, c', max, e, total, b, t); }
  }

  lemma RepairEnd(s: seq<nat>, c: seq<nat>, max: nat, total: nat)
    requires Repairing(s, c, max, 0, total)
    ensures KeepsShort(s, c, max, total) && Cut(c, max, 0, total)
  {
    hide BlKraft, BlTotal, Under;
    ShlZero(MAXBITS - max);
  }

  lemma RepairStart(s: seq<nat>, max: nat, e: nat, total: nat)
    requires Cut(s, max, e, total)
    ensures Repairing(s, s, max, e, total) && |s| == MAXBITS + 1 && 2 <= max <= MAXBITS
  {
    hide BlKraft, BlTotal, Fits;
  }

  lemma RepairingParts(s: seq<nat>, c: seq<nat>, max: nat, e: nat, total: nat)
    requires Repairing(s, c, max, e, total)
    ensures Cut(c, max, e, total) && |c| == MAXBITS + 1 > max && (e > 0 ==> c[max] > 0)
  {
  }

  /** Repair the statistics of a code whose lengths were cut off: the longest codes that can be lengthened are, so
      that as many short ones as possible stay. */
  method Repair(bl: array<nat>, max: nat, cut: nat, ghost e0: nat, ghost total: nat)
    requires Cut(bl[..], max, e0, total) && cut == 2 * e0
    modifies bl
    ensures Cut(bl[..], max, 0, total)
    ensures KeepsShort(old(bl[..]), bl[..], max, total)
    ensures cut > 0 ==> bl[max] > 0
  {
    hide Cut, BlKraft, BlTotal, Pow2, Shl, Repairing, KeepsShort;
    ghost var e: nat, s0: seq<nat> := e0, bl[..];
    var overflow: nat := cut;
    RepairStart(s0, max, e, total);
    while overflow > 0
      invariant Repairing(s0, bl[..], max, e, total) && overflow == 2 * e
      invariant overflow < cut ==> bl[max] > 0
    {
      ghost var s: seq<nat> := bl[..];
      var bits: nat := max - 1;
      RepairingParts(s0, s, max, e, total);
      ghost var b := Shallow(s, max, e, total);
      while bl[bits] == 0
        invariant b <= bits < max && forall k :: bits < k < max ==> bl[k] == 0
        decreases bits
      {
        bits := bits - 1;
      }
      RepairStep(s, max, e, total, bits);
      bl[bits] := bl[bits] - 1;
      bl[bits + 1] := bl[bits + 1] + 2;
      bl[max] := bl[max] - 1;
      RepairMore(s0, s, bl[..], max, e, total, bits);
      e := e - 1;
      overflow := overflow - 2;
    }
    RepairEnd(s0, bl[..], max, total);
  }
}
