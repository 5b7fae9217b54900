/** The machine of the format does not care how its input arrives: more input never changes a step
    that can be taken, and so where the machine comes to rest depends on all of the input only. */
module Feeding {
  import opened Bits
  import opened Canonical
  import opened DecodeTable
  import opened Format
  import opened Codec
  import opened Adler
  import opened Fixed
  import opened InflateTable

  // ----- states that the machine can be in -----

  ghost predicate GoodLens(ty: CodeType, lens: seq<nat>) {
    ValidLens(lens) && Acceptable(ty, lens) && |lens| <= MaxSyms(ty)
  }

  ghost predicate GoodCodes(c: Codes) { GoodLens(LENS, c.ll) && GoodLens(DISTS, c.dl) }

  /** What holds in every state reached from the start of a block. */
  ghost predicate Ok(s: State) {
    match s.mode
    case Copy(n) => n <= 65535
    case LenLens(nlen, ndist, ncode, got) =>
      257 <= nlen <= 286 && 1 <= ndist <= 30 && 4 <= ncode <= 19 && |got| <= ncode &&
      forall i :: 0 <= i < |got| ==> got[i] < 8
    case CodeLens(nlen, ndist, cl, got) =>
      257 <= nlen <= 286 && 1 <= ndist <= 30 && GoodLens(CODES, cl) && |cl| == 19 && |got| <= nlen + ndist &&
      ValidLens(got)
    case Len(c) => GoodCodes(c)
    case LenExt(c, len, extra) => GoodCodes(c) && extra <= 5 && 3 <= len && len + Pow2(extra) <= 259
    case Dist(c, len) => GoodCodes(c) && 3 <= len <= 258
    case DistExt(c, len, off, extra) => GoodCodes(c) && 3 <= len <= 258 && extra <= 13 && 1 <= off &&
    off + Pow2(extra) <= 32769
    case Copying(c, len, off) => GoodCodes(c) && 1 <= len <= 258 && 1 <= off <= 32768
    case Literal(c, b) => GoodCodes(c) && b < 256
    case _ => true
  }

  lemma FixedGood()
    ensures GoodCodes(FixedCodes())
  {
    hide Kraft, Pow2;
    FixedComplete();
  }

  lemma DecodedSym(lens: seq<nat>, q: seq<bool>)
    ensures DecodeSym(lens, q).Found? ==>
      DecodeSym(lens, q).s < |lens| && 0 < DecodeSym(lens, q).n <= |q| &&
      DecodeSym(lens, q).n == lens[DecodeSym(lens, q).s]
  {
    hide Kraft, FromBits, RevCode;
  }

  lemma LengthBaseMax(k: nat)
    requires k < 29
    ensures BASE_LENGTH[k] <= 224
  {
  }

  lemma DistBaseMax(k: nat)
    requires k < 30
    ensures BASE_DIST[k] <= 24576
  {
  }

  /** Lengths stay in range. */
  lemma LengthInRange(k: nat, base: nat, extra: nat)
    requires k < 29 && base == LBASE[k] && extra + 16 == LEXT[k]
    ensures extra <= 5 && 3 <= base && base + Pow2(extra) <= 259
  {
    hide Pow2;
    LengthBases(k);
    if k < 28 {
      LengthSpans(k);
      if k < 27 { LengthBaseMax(k + 1); }
    } else {
      SmallPowers();
    }
  }

  /** Distances stay in range. */
  lemma DistInRange(k: nat, base: nat, extra: nat)
    requires k < 30 && base == DBASE[k] && extra + 16 == DEXT[k]
    ensures extra <= 13 && 1 <= base && base + Pow2(extra) <= 32769
  {
    hide Pow2;
    DistBases(k);
    DistSpans(k);
    if k < 29 { DistBaseMax(k + 1); }
  }

  lemma ValueFits(q: seq<bool>, n: nat)
    requires n <= |q|
    ensures FromBits(q[..n]) < Pow2(n)
  {
  }

  lemma OkTable(s: State)
    requires s.mode == Table && Step(s).Some?
    ensures Ok(Step(s).v)
  {
    hide FromBits, Pow2, TypeStep, LenLensStep, CodeLensStep, LenStep, DistStep, GoodLens;
    SmallPowers();
    ValueFits(s.q[5..10], 5);
    ValueFits(s.q[10..14], 4);
    assert s.q[5..10][..5] == s.q[5..10] && s.q[10..14][..4] == s.q[10..14];
  }

  lemma {:induction false} ArrangedFits(got: seq<nat>)
    requires |got| <= 19 && forall i :: 0 <= i < |got| ==> got[i] < 8
    ensures ValidLens(Arrange(got))
  {
    if got != [] { ArrangedFits(got[..|got| - 1]); }
  }

  lemma OkLenLens(s: State)
    requires Ok(s) && s.mode.LenLens? && Step(s).Some?
    ensures Ok(Step(s).v)
  {
    hide FromBits, Pow2, Acceptable, Arrange;
    SmallPowers();
    var m := s.mode;
    ThreeBitsFit(s.q);
    if |m.got| >= m.ncode { ArrangedFits(m.got); }
  }

  lemma ThreeBitsFit(q: seq<bool>)
    ensures |q| >= 3 ==> FromBits(q[..3]) < 8
  {
    assert Pow2(3) == 8;
  }

  lemma OkCodeLens(s: State)
    requires Ok(s) && s.mode.CodeLens? && Step(s).Some?
    ensures Ok(Step(s).v)
  {
    hide FromBits, Pow2, Acceptable, DecodeSym, Kraft;
    DecodedSym(s.mode.cl, s.q);
  }

  /** What a length symbol leads to. */
  lemma LengthSym(s: State, c: Codes) returns (base: nat, extra: nat)
    requires DecodeSym(c.ll, s.q).Found? && 257 <= DecodeSym(c.ll, s.q).s < 286 && DecodeSym(c.ll, s.q).n <= |s.q|
    ensures LenStep(s, c) == Some(Goto(s, LenExt(c, base, extra), DecodeSym(c.ll, s.q).n))
    ensures extra <= 5 && 3 <= base && base + Pow2(extra) <= 259
  {
    hide Pow2, DecodeSym;
    var k := DecodeSym(c.ll, s.q).s - 257;
    ExtAtLeast16(k);
    base, extra := LBASE[k], LEXT[k] - 16;
    LengthInRange(k, base, extra);
  }

  lemma OkLen(s: State)
    requires Ok(s) && s.mode.Len? && Step(s).Some?
    ensures Ok(Step(s).v)
  {
    hide FromBits, Pow2, GoodLens, DecodeSym, Kraft, Step;
    var c := s.mode.c;
    StepLen(s, c);
    DecodedSym(c.ll, s.q);
    var r := DecodeSym(c.ll, s.q);
    if r.Found? && 257 <= r.s < 286 { var base, extra := LengthSym(s, c); }
  }

  lemma OkDist(s: State)
    requires Ok(s) && s.mode.Dist? && Step(s).Some?
    ensures Ok(Step(s).v)
  {
    hide FromBits, Pow2, GoodLens, DecodeSym, Kraft, Step;
    StepDist(s, s.mode.c, s.mode.len);
    DecodedSym(s.mode.c.dl, s.q);
    var r := DecodeSym(s.mode.c.dl, s.q);
    if r.Found? && r.s < 30 {
      ExtAtLeast16(r.s);
      DistInRange(r.s, DBASE[r.s], DEXT[r.s] - 16);
    }
  }

  lemma OkExt(s: State)
    requires Ok(s) && (s.mode.LenExt? || s.mode.DistExt?) && Step(s).Some?
    ensures Ok(Step(s).v)
  {
    hide FromBits, Pow2, GoodLens;
    ValueFits(s.q, s.mode.extra);
  }

  lemma OkType(s: State)
    requires s.mode == Type && Step(s).Some?
    ensures Ok(Step(s).v)
  {
    hide FromBits, Pow2, GoodLens, FixedLl, FixedDl;
    FixedGood();
  }

  /** Every step stays within the states that the machine can be in. */
  lemma OkStep(s: State)
    requires Ok(s) && Step(s).Some?
    ensures Ok(Step(s).v)
  {
    match s.mode
    case Type => OkType(s);
    case Table => OkTable(s);
    case LenLens(_, _, _, _) => OkLenLens(s);
    case CodeLens(_, _, _, _) => OkCodeLens(s);
    case Len(_) => OkLen(s);
    case LenExt(_, _, _) => OkExt(s);
    case Dist(_, _) => OkDist(s);
    case DistExt(_, _, _, _) => OkExt(s);
    case Stored => OkStored(s);
    case Copy(_) => OkBytes(s);
    case Copying(_, _, _) => OkBytes(s);
    case Literal(_, _) => OkBytes(s);
    case _ => OkBytes(s);
  }

  lemma OkStored(s: State)
    requires s.mode == Stored && Step(s).Some?
    ensures Ok(Step(s).v)
  {
    hide Pow2, TypeStep, LenLensStep, CodeLensStep, LenStep, DistStep, GoodLens;
    assert FromBits(s.q[..16]) < Pow2(16) == 65536 by { SixteenIs(); }
  }

  lemma SixteenIs()
    ensures Pow2(16) == 65536
  {
    assert Pow2(8) == 256;
  }

  lemma OkBytes(s: State)
    requires Ok(s) && Step(s).Some?
    requires s.mode.Copy? || s.mode.Copying? || s.mode.Literal? || s.mode.Check? || s.mode.Done? || s.mode.Bad?
    ensures Ok(Step(s).v)
  {
    hide FromBits, Pow2, GoodLens, TypeStep, LenLensStep, CodeLensStep, LenStep, DistStep;
  }

  // ----- more input -----

  /** The machine with more input; once the data is found bad, input is of no interest. */
  ghost function Feed(s: State, x: seq<bool>): State {
    if s.mode.Bad? then s else s.(q := s.q + x)
  }

  lemma PrefixKept(q: seq<bool>, x: seq<bool>, n: nat)
    requires n <= |q|
    ensures (q + x)[..n] == q[..n] && (q + x)[n..] == q[n..] + x
  {
  }

  lemma SliceKept(q: seq<bool>, x: seq<bool>, m: nat, n: nat)
    requires m <= n <= |q|
    ensures (q + x)[m..n] == q[m..n]
  {
  }

  lemma StartsFed(lens: seq<nat>, s: nat, q: seq<bool>, x: seq<bool>)
    ensures StartsWith(lens, s, q) ==> StartsWith(lens, s, q + x)
    ensures StartsWith(lens, s, q + x) && lens[s] <= |q| ==> StartsWith(lens, s, q)
  {
    hide FromBits, RevCode;
    if s < |lens| && lens[s] <= |q| { PrefixKept(q, x, lens[s]); }
  }

  /** A symbol that can be read is read whatever follows it. */
  lemma DecodeFed(ty: CodeType, lens: seq<nat>, q: seq<bool>, x: seq<bool>)
    requires GoodLens(ty, lens) && !DecodeSym(lens, q).More?
    ensures DecodeSym(lens, q + x) == DecodeSym(lens, q)
  {
    hide Kraft, StartsWith, Pow2;
    if DecodeSym(lens, q).Found? {
      var s := DecodeSym(lens, q).s;
      StartsFed(lens, s, q, x);
      StartsWithUnique(lens, s, DecodeSym(lens, q + x).s, q + x);
    } else {
      forall s: nat ensures !StartsWith(lens, s, q + x) {
        StartsFed(lens, s, q, x);
        if StartsWith(lens, s, q + x) { StartsLength(lens, s, q + x); }
      }
    }
  }

  lemma StartsLength(lens: seq<nat>, s: nat, q: seq<bool>)
    requires StartsWith(lens, s, q)
    ensures s < |lens| && 0 < lens[s] <= |q|
  {
    hide FromBits, RevCode;
  }

  lemma AlignedFed(q: seq<bool>, x: seq<bool>)
    requires |x| % 8 == 0
    ensures Aligned(q + x) == Aligned(q) + x
  {
    assert |q + x| % 8 == |q| % 8;
  }

  lemma FedType(s: State, x: seq<bool>)
    requires s.mode == Type && Step(s).Some? && |x| % 8 == 0
    ensures Step(Feed(s, x)) == Some(Feed(Step(s).v, x))
  {
    hide FromBits, FixedLl, FixedDl, Aligned, Step;
    StepType(s);
    StepType(Feed(s, x));
    AlignedFed(s.q, x);
    if !s.last {
      SliceKept(s.q, x, 1, 3);
      PrefixKept(s.q, x, 3);
      AlignedFed(s.q[3..], x);
    }
  }

  lemma FedStored(s: State, x: seq<bool>)
    requires s.mode == Stored && Step(s).Some?
    ensures Step(Feed(s, x)) == Some(Feed(Step(s).v, x))
  {
    hide FromBits, TypeStep, LenLensStep, CodeLensStep, LenStep, DistStep;
    PrefixKept(s.q, x, 16);
    SliceKept(s.q, x, 16, 32);
    PrefixKept(s.q, x, 32);
  }

  lemma FedCopy(s: State, x: seq<bool>)
    requires s.mode.Copy? && Step(s).Some?
    ensures Step(Feed(s, x)) == Some(Feed(Step(s).v, x))
  {
    hide FromBits, TypeStep, LenLensStep, CodeLensStep, LenStep, DistStep;
    PrefixKept(s.q, x, 0);
    if s.mode.n > 0 { PrefixKept(s.q, x, 8); }
  }

  lemma FedTable(s: State, x: seq<bool>)
    requires s.mode == Table && Step(s).Some?
    ensures Step(Feed(s, x)) == Some(Feed(Step(s).v, x))
  {
    hide FromBits, TypeStep, LenLensStep, CodeLensStep, LenStep, DistStep;
    PrefixKept(s.q, x, 5);
    SliceKept(s.q, x, 5, 10);
    SliceKept(s.q, x, 10, 14);
    PrefixKept(s.q, x, 14);
  }

  lemma FedLenLens(s: State, x: seq<bool>)
    requires s.mode.LenLens? && Step(s).Some?
    ensures Step(Feed(s, x)) == Some(Feed(Step(s).v, x))
  {
    hide FromBits, Acceptable, Arrange;
    PrefixKept(s.q, x, 0);
    if |s.q| >= 3 { PrefixKept(s.q, x, 3); }
  }

  lemma FedCodeLens(s: State, x: seq<bool>)
    requires Ok(s) && s.mode.CodeLens? && Step(s).Some?
    ensures Step(Feed(s, x)) == Some(Feed(Step(s).v, x))
  {
    hide FromBits, Acceptable, DecodeSym, Step, GoodLens;
    var m := s.mode;
    StepCodeLens(s);
    StepCodeLens(Feed(s, x));
    PrefixKept(s.q, x, 0);
    if |m.got| < m.nlen + m.ndist {
      DecodeFed(CODES, m.cl, s.q, x);
      var r := DecodeSym(m.cl, s.q);
      DecodedSym(m.cl, s.q);
      InvalidHasBit(m.cl, s.q);
      if r.Invalid? {
        PrefixKept(s.q, x, 1);
      } else if r.s < 16 {
        PrefixKept(s.q, x, r.n);
      } else {
        SliceKept(s.q, x, r.n, r.n + RepeatBits(r.s));
        PrefixKept(s.q, x, r.n + RepeatBits(r.s));
      }
    }
  }

  lemma InvalidHasBit(lens: seq<nat>, q: seq<bool>)
    ensures DecodeSym(lens, q).Invalid? ==> |q| > 0
  {
    hide Kraft, StartsWith;
  }

  lemma FedLen(s: State, x: seq<bool>)
    requires Ok(s) && s.mode.Len? && Step(s).Some?
    ensures Step(Feed(s, x)) == Some(Feed(Step(s).v, x))
  {
    hide FromBits, DecodeSym, Step, GoodLens;
    var c := s.mode.c;
    StepLen(s, c);
    StepLen(Feed(s, x), c);
    DecodeFed(LENS, c.ll, s.q, x);
    DecodedSym(c.ll, s.q);
    var r := DecodeSym(c.ll, s.q);
    if r.Found? { PrefixKept(s.q, x, r.n); }
  }

  lemma FedDist(s: State, x: seq<bool>)
    requires Ok(s) && s.mode.Dist? && Step(s).Some?
    ensures Step(Feed(s, x)) == Some(Feed(Step(s).v, x))
  {
    hide FromBits, DecodeSym, Step, GoodLens;
    var c := s.mode.c;
    StepDist(s, c, s.mode.len);
    StepDist(Feed(s, x), c, s.mode.len);
    DecodeFed(DISTS, c.dl, s.q, x);
    DecodedSym(c.dl, s.q);
    var r := DecodeSym(c.dl, s.q);
    if r.Found? { PrefixKept(s.q, x, r.n); }
  }

  lemma FedRest(s: State, x: seq<bool>)
    requires s.mode.LenExt? || s.mode.DistExt? || s.mode.Copying? || s.mode.Literal? || s.mode.Check? ||
             s.mode.Done? || s.mode.Bad?
    requires Step(s).Some?
    ensures Step(Feed(s, x)) == Some(Feed(Step(s).v, x))
  {
    hide FromBits, TypeStep, LenLensStep, CodeLensStep, LenStep, DistStep, Adler32Of, Swap32;
    PrefixKept(s.q, x, 0);
    match s.mode
    case LenExt(_, _, extra) => PrefixKept(s.q, x, extra);
    case DistExt(_, _, _, extra) => PrefixKept(s.q, x, extra);
    case Check => if s.wrap { PrefixKept(s.q, x, 32); }
    case _ =>
  }

  /** A step that can be taken is the same whatever input follows. */
  lemma StepFed(s: State, x: seq<bool>)
    requires Ok(s) && Step(s).Some? && |x| % 8 == 0
    ensures Step(Feed(s, x)) == Some(Feed(Step(s).v, x))
  {
    hide Step, Feed, Ok;
    match s.mode
    case Type => FedType(s, x);
    case Stored => FedStored(s, x);
    case Copy(_) => FedCopy(s, x);
    case Table => FedTable(s, x);
    case LenLens(_, _, _, _) => FedLenLens(s, x);
    case CodeLens(_, _, _, _) => FedCodeLens(s, x);
    case Len(_) => FedLen(s, x);
    case Dist(_, _) => FedDist(s, x);
    case _ => FedRest(s, x);
  }

  // ----- runs -----

  lemma {:induction false} OkSteps(s: State, t: State, n: nat)
    requires Ok(s) && Steps(s, t, n)
    ensures Ok(t)
    decreases n
  {
    hide Step, Ok;
    if n > 0 {
      OkStep(s);
      OkSteps(Step(s).v, t, n - 1);
    }
  }

  lemma OkReaches(s: State, t: State)
    requires Ok(s) && Reaches(s, t)
    ensures Ok(t)
  {
    hide Step, Ok;
    var n: nat :| Steps(s, t, n);
    OkSteps(s, t, n);
  }

  lemma {:induction false} StepsFed(s: State, t: State, n: nat, x: seq<bool>)
    requires Ok(s) && Steps(s, t, n) && |x| % 8 == 0
    ensures Steps(Feed(s, x), Feed(t, x), n)
    decreases n
  {
    hide Step, Ok, Feed;
    if n > 0 {
      OkStep(s);
      StepFed(s, x);
      StepsFed(Step(s).v, t, n - 1, x);
    }
  }

  /** A run goes the same way with more input. */
  lemma ReachesFed(s: State, t: State, x: seq<bool>)
    requires Ok(s) && Reaches(s, t) && |x| % 8 == 0
    ensures Reaches(Feed(s, x), Feed(t, x))
  {
    hide Step, Ok, Feed, Steps;
    var n: nat :| Steps(s, t, n);
    StepsFed(s, t, n, x);
  }

  /** The machine is deterministic: of two runs from one state, one continues the other. */
  lemma {:induction false} StepsLinear(s: State, t: State, u: State, m: nat, n: nat)
    requires Steps(s, t, m) && Steps(s, u, n) && m <= n
    ensures Steps(t, u, n - m)
    decreases m
  {
    hide Step;
    if m > 0 { StepsLinear(Step(s).v, t, u, m - 1, n - 1); }
  }

  lemma Linear(s: State, t: State, u: State)
    requires Reaches(s, t) && Reaches(s, u)
    ensures Reaches(t, u) || Reaches(u, t)
  {
    hide Step, Steps;
    var m: nat :| Steps(s, t, m);
    var n: nat :| Steps(s, u, n);
    if m <= n { StepsLinear(s, t, u, m, n); } else { StepsLinear(s, u, t, n, m); }
  }

  lemma AtRest(t: State, u: State)
    requires Reaches(t, u) && Step(t) == None
    ensures t == u
  {
    hide Step;
    var n: nat :| Steps(t, u, n);
  }

  /** s comes to t when the portions xs of input arrive one after the other, with any number of
      steps after each. */
  ghost predicate RunTo(s: State, xs: seq<seq<bool>>, t: State)
    decreases |xs|
  {
    if xs == [] then Reaches(s, t)
    else exists u: State :: RunTo(s, xs[..|xs| - 1], u) && Goes(u, Last(xs), t)
  }

  function Last(xs: seq<seq<bool>>): seq<bool>
    requires xs != []
  {
    xs[|xs| - 1]
  }

  /** u comes to t with the portion x of input. */
  ghost predicate Goes(u: State, x: seq<bool>, t: State) { Reaches(Feed(u, x), t) }

  predicate WholeBytes(xs: seq<seq<bool>>) { forall i :: 0 <= i < |xs| ==> |xs[i]| % 8 == 0 }

  lemma FeedFeed(s: State, x: seq<bool>, y: seq<bool>)
    ensures Feed(Feed(s, x), y) == Feed(s, x + y)
  {
    assert s.q + x + y == s.q + (x + y);
  }

  lemma FeedNone(s: State)
    ensures Feed(s, []) == s
  {
    assert s.q + [] == s.q;
  }

  lemma FeedOk(s: State, x: seq<bool>)
    requires Ok(s)
    ensures Ok(Feed(s, x))
  {
    hide GoodLens, Pow2;
  }

  /** A run on portions of input is a run on all of it. */
  lemma {:induction false} RunJoined(s: State, xs: seq<seq<bool>>, t: State)
    requires Ok(s) && WholeBytes(xs) && RunTo(s, xs, t)
    ensures Reaches(Feed(s, Joined(xs)), t)
    decreases |xs|
  {
    hide Reaches, Feed, Ok;
    if xs == [] {
      FeedNone(s);
    } else {
      var init, x := xs[..|xs| - 1], xs[|xs| - 1];
      var u: State :| RunTo(s, init, u) && Goes(u, Last(xs), t);
      RunJoined(s, init, u);
      FeedOk(s, Joined(init));
      ReachesFed(Feed(s, Joined(init)), u, x);
      FeedFeed(s, Joined(init), x);
      ReachesTrans(Feed(s, Joined(xs)), Feed(u, x), t);
    }
  }

  /** However one input is divided, the machine comes to the same rest: the same output, the same
      mode, the same bits left over. */
  lemma SplitIndependent(s: State, xs: seq<seq<bool>>, ys: seq<seq<bool>>, t: State, u: State)
    requires Ok(s) && WholeBytes(xs) && WholeBytes(ys) && Joined(xs) == Joined(ys)
    requires RunTo(s, xs, t) && RunTo(s, ys, u) && Step(t) == None && Step(u) == None
    ensures t == u
  {
    hide Reaches, Feed, Ok, RunTo, Joined, Step;
    RunJoined(s, xs, t);
    RunJoined(s, ys, u);
    Linear(Feed(s, Joined(xs)), t, u);
    if Reaches(t, u) { AtRest(t, u); } else { AtRest(u, t); }
  }

  /** Output only grows. */
  lemma {:induction false} OutputGrows(s: State, t: State, n: nat)
    requires Steps(s, t, n)
    ensures s.out <= t.out
    decreases n
  {
    hide Step;
    if n > 0 {
      StepOutput(s);
      OutputGrows(Step(s).v, t, n - 1);
    }
  }

  lemma StepOutput(s: State)
    requires Step(s).Some?
    ensures s.out <= Step(s).v.out
  {
    hide FromBits, DecodeSym, Acceptable, Arrange, Adler32Of, Swap32, TypeStep, LenLensStep, CodeLensStep, LenStep,
         DistStep;
    SameOutput(s);
    match s.mode
    case Type => assert Step(s) == TypeStep(s);
    case LenLens(nlen, ndist, ncode, got) => assert Step(s) == LenLensStep(s, nlen, ndist, ncode, got);
    case CodeLens(nlen, ndist, cl, got) => assert Step(s) == CodeLensStep(s, nlen, ndist, cl, got);
    case Len(c) => assert Step(s) == LenStep(s, c);
    case Dist(c, len) => assert Step(s) == DistStep(s, c, len);
    case _ =>
  }

  lemma SameOutput(s: State)
    ensures TypeStep(s).Some? ==> TypeStep(s).v.out == s.out
    ensures forall a: nat, b: nat, n: nat, g: seq<nat> :: LenLensStep(s, a, b, n, g).Some? ==>
              LenLensStep(s, a, b, n, g).v.out == s.out
    ensures forall a: nat, b: nat, cl: seq<nat>, g: seq<nat> ::
              CodeLensStep(s, a, b, cl, g).Some? ==> CodeLensStep(s, a, b, cl, g).v.out == s.out
    ensures forall c :: LenStep(s, c).Some? ==> LenStep(s, c).v.out == s.out
    ensures forall c, len: nat :: DistStep(s, c, len).Some? ==> DistStep(s, c, len).v.out == s.out
  {
    hide FromBits, DecodeSym, Acceptable, Arrange;
  }

  /** If one run has stopped early, for want of output space, its output is the beginning of the
      other's. */
  lemma StoppedEarly(s: State, xs: seq<seq<bool>>, ys: seq<seq<bool>>, t: State, u: State)
    requires Ok(s) && WholeBytes(xs) && WholeBytes(ys) && Joined(xs) == Joined(ys)
    requires RunTo(s, xs, t) && RunTo(s, ys, u) && Step(u) == None
    ensures Reaches(t, u) && t.out <= u.out
  {
    hide Feed, Ok, RunTo, Joined, Step, Steps;
    RunJoined(s, xs, t);
    RunJoined(s, ys, u);
    Linear(Feed(s, Joined(xs)), t, u);
    if !Reaches(t, u) { AtRest(u, t); ReachesSelf(t); }
    var n: nat :| Steps(t, u, n);
    OutputGrows(t, u, n);
  }
}
