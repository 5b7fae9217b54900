/** Which codes scan_tree and send_tree of trees.c make of code lengths: for each run of equal lengths the longest
    repeats that there are, and one code for the rest. */
module RunCodes {
  import opened Rle

  function Plain(v: nat, n: nat): seq<RCode> { seq(n, _ => RCode(v, 0)) }

  /** The codes of section 3.2.7 of RFC 1951 for v, n times over: the longest zero repeats (138), or v itself and then
      the longest repeats (6), and at the end one code for the rest, if that is three or more. */
  function RunCodes(v: nat, n: nat): seq<RCode>
    requires n > 0
  {
    if v == 0 then ZerosOf(n)
    else [RCode(v, 0)] + RepeatsOf(v, n - 1)
  }

  function ZerosOf(k: nat): seq<RCode> { seq(k / 138, _ => RCode(REPZ_11_138, 127)) + ZeroCodes(k % 138) }

  function ZeroCodes(n: nat): seq<RCode> {
    if n < 3 then Plain(0, n) else if n <= 10 then [RCode(REPZ_3_10, n - 3)] else [RCode(REPZ_11_138, n - 11)]
  }

  function RepeatsOf(v: nat, k: nat): seq<RCode> { seq(k / 6, _ => RCode(REP_3_6, 3)) + RepeatCodes(v, k % 6) }

  function RepeatCodes(v: nat, n: nat): seq<RCode> {
    if n < 3 then Plain(v, n) else [RCode(REP_3_6, n - 3)]
  }

  /** How often the first value is repeated at the start. */
  function RunLength(lens: seq<nat>): (n: nat)
    requires lens != []
    ensures 1 <= n <= |lens| && (forall i :: 0 <= i < n ==> lens[i] == lens[0])
    ensures n < |lens| ==> lens[n] != lens[0]
  {
    if |lens| > 1 && lens[1] == lens[0] then 1 + RunLength(lens[1..]) else 1
  }

  /** The codes of one run after the other. */
  function RunsCodes(lens: seq<nat>): seq<RCode>
    decreases |lens|
  {
    if lens == [] then [] else RunCodes(lens[0], RunLength(lens)) + RunsCodes(lens[RunLength(lens)..])
  }

  /** What is pending comes to its code after k more lengths. */
  lemma {:induction false} PieceEnds(lens: seq<nat>, n: nat, prev: int, count: nat, max: nat, min: nat, k: nat)
    requires 1 <= k && n + k <= |lens| && count + k <= max
    requires forall i :: n <= i < n + k ==> lens[i] == lens[n]
    requires count + k == max || NextLen(lens, n + k - 1) != lens[n]
    ensures var v, next := lens[n], NextLen(lens, n + k - 1);
            RleFrom(lens, n, prev, count, max, min) ==
            Run(v, count + k, prev, min) + RleFrom(lens, n + k, v, 0, MaxCount(v, next), MinCount(v, next))
    decreases k
  {
    hide Run;
    if k > 1 { PieceEnds(lens, n + 1, prev, count + 1, max, min, k - 1); }
  }

  lemma PlusMany(r: RCode, n: nat, rest: seq<RCode>)
    requires n > 0
    ensures [r] + (seq(n - 1, _ => r) + rest) == seq(n, _ => r) + rest
  {
  }

  lemma ZeroPiece(k: nat, prev: int)
    requires 1 <= k
    ensures k <= 138 ==> Run(0, k, prev, 3) == ZerosOf(k)
    ensures k > 138 ==> ZerosOf(k) == Run(0, 138, prev, 3) + ZerosOf(k - 138)
  {
    if k > 138 {
      assert Run(0, 138, prev, 3) == [RCode(REPZ_11_138, 127)];
      PlusMany(RCode(REPZ_11_138, 127), k / 138, ZeroCodes(k % 138));
    }
  }

  /** The zeros that are still to come in a run. */
  lemma {:induction false} ZerosLeft(lens: seq<nat>, n: nat, prev: int, k: nat)
    requires 1 <= k && n + k <= |lens| && (forall i :: n <= i < n + k ==> lens[i] == 0)
    requires NextLen(lens, n + k - 1) != 0
    ensures var next := NextLen(lens, n + k - 1);
            RleFrom(lens, n, prev, 0, 138, 3) ==
            ZerosOf(k) + RleFrom(lens, n + k, 0, 0, MaxCount(0, next), MinCount(0, next))
    decreases k
  {
    hide RleFrom, Run, ZerosOf;
    ZeroPiece(k, prev);
    if k <= 138 {
      PieceEnds(lens, n, prev, 0, 138, 3, k);
    } else {
      PieceEnds(lens, n, prev, 0, 138, 3, 138);
      ZerosLeft(lens, n + 138, 0, k - 138);
    }
  }

  lemma RepeatPiece(v: nat, k: nat)
    requires v != 0 && 1 <= k
    ensures k <= 6 ==> Run(v, k, v, 3) == RepeatsOf(v, k)
    ensures k > 6 ==> RepeatsOf(v, k) == Run(v, 6, v, 3) + RepeatsOf(v, k - 6)
  {
    if k > 6 {
      assert Run(v, 6, v, 3) == [RCode(REP_3_6, 3)];
      PlusMany(RCode(REP_3_6, 3), k / 6, RepeatCodes(v, k % 6));
    }
  }

  /** The equal lengths that are still to come in a run. */
  lemma {:induction false} AgainLeft(lens: seq<nat>, n: nat, k: nat)
    requires 1 <= k && n + k <= |lens| && lens[n] != 0 && forall i :: n <= i < n + k ==> lens[i] == lens[n]
    requires NextLen(lens, n + k - 1) != lens[n]
    ensures var v, next := lens[n], NextLen(lens, n + k - 1);
            RleFrom(lens, n, v, 0, 6, 3) ==
            RepeatsOf(v, k) + RleFrom(lens, n + k, v, 0, MaxCount(v, next), MinCount(v, next))
    decreases k
  {
    hide RleFrom, Run, RepeatsOf;
    RepeatPiece(lens[n], k);
    if k <= 6 {
      PieceEnds(lens, n, lens[n], 0, 6, 3, k);
    } else {
      PieceEnds(lens, n, lens[n], 0, 6, 3, 6);
      AgainLeft(lens, n + 6, k - 6);
    }
  }

  lemma FirstPiece(v: nat, k: nat, prev: int)
    requires v != 0 && v != prev && 1 <= k
    ensures k <= 7 ==> Run(v, k, prev, 4) == RunCodes(v, k)
    ensures k > 7 ==> RunCodes(v, k) == Run(v, 7, prev, 4) + RepeatsOf(v, k - 7)
  {
    if k > 7 {
      LongPiece(v, k, prev);
    } else {
      ShortPiece(v, k, prev);
    }
  }

  lemma LongPiece(v: nat, k: nat, prev: int)
    requires v != 0 && v != prev && k > 7
    ensures RunCodes(v, k) == Run(v, 7, prev, 4) + RepeatsOf(v, k - 7)
  {
    hide RepeatsOf;
    RepeatPiece(v, k - 1);
  }

  lemma ShortPiece(v: nat, k: nat, prev: int)
    requires v != 0 && v != prev && 1 <= k <= 7
    ensures Run(v, k, prev, 4) == RunCodes(v, k)
  {
  }

  /** A new run of nonzero lengths. */
  lemma NewRun(lens: seq<nat>, n: nat, prev: int, k: nat)
    requires 1 <= k && n + k <= |lens| && lens[n] != 0 && lens[n] != prev
    requires (forall i :: n <= i < n + k ==> lens[i] == lens[n]) && NextLen(lens, n + k - 1) != lens[n]
    ensures var v, next := lens[n], NextLen(lens, n + k - 1);
            RleFrom(lens, n, prev, 0, 7, 4) ==
            RunCodes(v, k) + RleFrom(lens, n + k, v, 0, MaxCount(v, next), MinCount(v, next))
  {
    hide RleFrom, Run, RunCodes, RepeatsOf;
    FirstPiece(lens[n], k, prev);
    if k <= 7 {
      PieceEnds(lens, n, prev, 0, 7, 4, k);
    } else {
      PieceEnds(lens, n, prev, 0, 7, 4, 7);
      AgainLeft(lens, n + 7, k - 7);
    }
  }

  /** From the start of any run. */
  lemma {:induction false} RunsFrom(lens: seq<nat>, n: nat, prev: int)
    requires n < |lens| && lens[n] != prev && forall i :: 0 <= i < |lens| ==> lens[i] < GUARD
    ensures RleFrom(lens, n, prev, 0, MaxCount(prev, lens[n]), MinCount(prev, lens[n])) == RunsCodes(lens[n..])
    decreases |lens| - n
  {
    hide RleFrom, RunCodes;
    var k := RunLength(lens[n..]);
    forall i | n <= i < n + k ensures lens[i] == lens[n] { assert lens[i] == lens[n..][i - n]; }
    if n + k < |lens| { assert lens[n + k] == lens[n..][k]; }
    var v, next := lens[n], NextLen(lens, n + k - 1);
    if v == 0 { ZeroRun(lens, n, prev, k); } else { NewRun(lens, n, prev, k); }
    assert lens[n..][k..] == lens[n + k..];
    if n + k < |lens| { RunsFrom(lens, n + k, v); } else { NoneLeft(lens, v, MaxCount(v, next), MinCount(v, next)); }
  }

  lemma ZeroRun(lens: seq<nat>, n: nat, prev: int, k: nat)
    requires 1 <= k && n + k <= |lens| && (forall i :: n <= i < n + k ==> lens[i] == 0)
    requires NextLen(lens, n + k - 1) != 0
    ensures var next := NextLen(lens, n + k - 1);
            RleFrom(lens, n, prev, 0, 138, 3) ==
            RunCodes(0, k) + RleFrom(lens, n + k, 0, 0, MaxCount(0, next), MinCount(0, next))
  {
    hide RleFrom;
    ZerosLeft(lens, n, prev, k);
  }

  lemma NoneLeft(lens: seq<nat>, prev: int, max: nat, min: nat)
    ensures RleFrom(lens, |lens|, prev, 0, max, min) == []
  {
  }

  /** The codes of a tree are those of its runs. */
  lemma TreeRuns(lens: seq<nat>)
    requires lens != [] && forall i :: 0 <= i < |lens| ==> lens[i] < GUARD
    ensures RleOf(lens) == RunsCodes(lens)
  {
    RunsFrom(lens, 0, -1);
    assert lens[0..] == lens;
  }
}
