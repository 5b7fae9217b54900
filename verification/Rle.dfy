/** The run-length form of code lengths in a dynamic block header: scan_tree and send_tree of
    trees.c, and their undoing by the machine of the format (section 3.2.7 of RFC 1951). */
module Rle {
  import opened Bits
  import opened Format
  import opened Codec

  /** A code-length symbol with the value of its extra bits. */
  datatype RCode = RCode(sym: nat, extra: nat)

  const REP_3_6: nat := 16
  const REPZ_3_10: nat := 17
  const REPZ_11_138: nat := 18

  /** The guard that follows the last length. */
  const GUARD: nat := 65535

  function NextLen(lens: seq<nat>, n: nat): nat {
    if n + 1 < |lens| then lens[n + 1] else GUARD
  }

  function MaxCount(cur: int, next: nat): nat {
    if next == 0 then 138 else if cur == next then 6 else 7
  }

  function MinCount(cur: int, next: nat): nat {
    if next == 0 || cur == next then 3 else 4
  }

  /** The codes for a run of count lengths cur after a run of lengths prev. */
  function Run(cur: nat, count: nat, prev: int, min: nat): seq<RCode>
    requires count > 0
  {
    if count < min then seq(count, _ => RCode(cur, 0))
    else if cur != 0 then
      if cur != prev then [RCode(cur, 0), RCode(REP_3_6, if count >= 4 then count - 4 else 0)]
      else [RCode(REP_3_6, if count >= 3 then count - 3 else 0)]
    else if count <= 10 then [RCode(REPZ_3_10, if count >= 3 then count - 3 else 0)]
    else [RCode(REPZ_11_138, count - 11)]
  }

  /** The codes for the lengths from the n-th on, of which count more precede that are pending. */
  function RleFrom(lens: seq<nat>, n: nat, prev: int, count: nat, max: nat, min: nat): seq<RCode>
    requires n <= |lens|
    decreases |lens| - n
  {
    if n == |lens| then []
    else
      var cur, next := lens[n], NextLen(lens, n);
      if count + 1 < max && cur == next then RleFrom(lens, n + 1, prev, count + 1, max, min)
      else Run(cur, count + 1, prev, min) + RleFrom(lens, n + 1, cur, 0, MaxCount(cur, next), MinCount(cur, next))
  }

  /** The codes of a tree. */
  function RleOf(lens: seq<nat>): seq<RCode>
    requires lens != []
  {
    RleFrom(lens, 0, -1, 0, MaxCount(-1, lens[0]), MinCount(-1, lens[0]))
  }

  // ----- undoing it -----

  predicate ValidCode(r: RCode) {
    if r.sym < 16 then r.extra == 0
    else r.sym <= 18 && r.extra < Pow2(RepeatBits(r.sym))
  }

  /** The lengths after reading one code. */
  function ApplyCode(got: seq<nat>, r: RCode): seq<nat>
    requires r.sym == REP_3_6 ==> got != []
  {
    if r.sym < 16 then got + [r.sym]
    else if r.sym == REP_3_6 then got + seq(3 + r.extra, _ => got[|got| - 1])
    else if r.sym == REPZ_3_10 then got + seq(3 + r.extra, _ => 0)
    else got + seq(11 + r.extra, _ => 0)
  }

  /** got and then the codes rs amount to want. */
  ghost predicate Undoes(got: seq<nat>, rs: seq<RCode>, want: seq<nat>)
    decreases |rs|
  {
    if rs == [] then got == want
    else
      ValidCode(rs[0]) && (rs[0].sym == REP_3_6 ==> got != []) && Undoes(ApplyCode(got, rs[0]), rs[1..], want)
  }

  lemma {:induction false} UndoesConcat(got: seq<nat>, a: seq<RCode>, mid: seq<nat>, b: seq<RCode>, want: seq<nat>)
    requires Undoes(got, a, mid) && Undoes(mid, b, want)
    ensures Undoes(got, a + b, want)
    decreases |a|
  {
    if a == [] {
      assert a + b == b;
    } else {
      UndoesConcat(ApplyCode(got, a[0]), a[1..], mid, b, want);
      assert (a + b)[1..] == a[1..] + b;
    }
  }

  lemma {:induction false} UndoesRepeat(got: seq<nat>, cur: nat, count: nat)
    requires cur < 16
    ensures Undoes(got, seq(count, _ => RCode(cur, 0)), got + seq(count, _ => cur))
    decreases count
  {
    var rs := seq(count, _ => RCode(cur, 0));
    if count == 0 {
      assert got + seq(0, _ => cur) == got;
    } else {
      UndoesRepeat(got + [cur], cur, count - 1);
      assert rs[1..] == seq(count - 1, _ => RCode(cur, 0));
      assert got + [cur] + seq(count - 1, _ => cur) == got + seq(count, _ => cur);
    }
  }

  /** The limits on the current run: zeros, a continued run, or a new run. */
  predicate Limits(cur: nat, prev: int, max: nat, min: nat) {
    if cur == 0 then max == 138 && min == 3
    else if cur == prev then max == 6 && min == 3
    else max == 7 && min == 4
  }

  lemma RunUndone(got: seq<nat>, cur: nat, count: nat, prev: int, max: nat, min: nat)
    requires cur < 16 && 1 <= count <= max && Limits(cur, prev, max, min)
    requires prev == -1 || (got != [] && got[|got| - 1] == prev)
    ensures Undoes(got, Run(cur, count, prev, min), got + seq(count, _ => cur))
  {
    SmallPowers();
    var want := got + seq(count, _ => cur);
    if count < min {
      UndoesRepeat(got, cur, count);
    } else if cur != 0 {
      if cur != prev {
        var g := got + [cur];
        var rep := RCode(REP_3_6, count - 4);
        assert ApplyCode(g, rep) == want;
        assert Undoes(want, [], want);
        assert [rep][1..] == [];
        assert Undoes(g, [rep], want);
        assert [RCode(cur, 0), rep][1..] == [rep];
      } else {
        assert ApplyCode(got, RCode(REP_3_6, count - 3)) == want;
        assert Undoes(want, [], want);
      }
    } else {
      assert Undoes(want, [], want);
      if count <= 10 {
        assert ApplyCode(got, RCode(REPZ_3_10, count - 3)) == want;
      } else {
        assert ApplyCode(got, RCode(REPZ_11_138, count - 11)) == want;
      }
    }
  }

  /** From any point of the scan, the codes to come bring the lengths before the pending run to all lengths. */
  lemma {:induction false} RleUndone(g0: seq<nat>, lens: seq<nat>, n: nat, prev: int, count: nat, max: nat, min: nat)
    requires forall i :: 0 <= i < |lens| ==> lens[i] < 16
    requires count <= n <= |lens| && count < max
    requires n == |lens| ==> count == 0
    requires n < |lens| ==> Limits(lens[n], prev, max, min) && forall i :: n - count <= i < n ==> lens[i] == lens[n]
    requires prev == -1 || (n - count > 0 && lens[n - count - 1] == prev)
    ensures Undoes(g0 + lens[..n - count], RleFrom(lens, n, prev, count, max, min), g0 + lens)
    decreases |lens| - n
  {
    hide Run, Undoes;
    if n == |lens| {
      assert lens[..n] == lens;
      UndoesNone(g0 + lens);
    } else {
      var cur, next := lens[n], NextLen(lens, n);
      if count + 1 < max && cur == next {
        RleUndone(g0, lens, n + 1, prev, count + 1, max, min);
      } else {
        var got := g0 + lens[..n - count];
        RunUndone(got, cur, count + 1, prev, max, min);
        RleUndone(g0, lens, n + 1, cur, 0, MaxCount(cur, next), MinCount(cur, next));
        assert got + seq(count + 1, _ => cur) == g0 + lens[..n + 1];
        UndoesConcat(got, Run(cur, count + 1, prev, min), g0 + lens[..n + 1],
                     RleFrom(lens, n + 1, cur, 0, MaxCount(cur, next), MinCount(cur, next)), g0 + lens);
      }
    }
  }

  lemma UndoesNone(got: seq<nat>)
    ensures Undoes(got, [], got)
  {
  }

  /** The codes of a tree rebuild its lengths, after whatever lengths came before. */
  lemma TreeUndone(g0: seq<nat>, lens: seq<nat>)
    requires lens != [] && forall i :: 0 <= i < |lens| ==> lens[i] < 16
    ensures Undoes(g0, RleOf(lens), g0 + lens)
  {
    RleUndone(g0, lens, 0, -1, 0, MaxCount(-1, lens[0]), MinCount(-1, lens[0]));
    assert g0 + lens[..0] == g0;
  }
}
