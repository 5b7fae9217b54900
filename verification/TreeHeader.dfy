/** The header of a dynamic block: sending it (scan_tree, send_tree, send_all_trees of trees.c) and
    reading it back. */
module TreeHeader {
  import opened Bits
  import opened Canonical
  import opened DecodeTable
  import opened BitWriter
  import opened Format
  import opened Codec
  import opened Compress
  import opened Rle
  import InflateTable

  // ----- the bits of a header -----

  /** Every code in rs can be sent with the code-length code cl. */
  predicate Sendable(cl: seq<nat>, rs: seq<RCode>) {
    forall r :: r in rs ==> ValidCode(r) && HasCode(cl, r.sym)
  }

  function RBits(cl: seq<nat>, r: RCode): seq<bool>
    requires HasCode(cl, r.sym)
  {
    SymBits(cl, r.sym) + if r.sym < 16 then [] else ToBits(r.extra, RepeatBits(r.sym))
  }

  function RlesBits(cl: seq<nat>, rs: seq<RCode>): seq<bool>
    requires Sendable(cl, rs)
  {
    if rs == [] then [] else RBits(cl, rs[0]) + RlesBits(cl, rs[1..])
  }

  lemma {:induction false} RlesBitsConcat(cl: seq<nat>, a: seq<RCode>, b: seq<RCode>)
    requires Sendable(cl, a + b)
    ensures Sendable(cl, a) && Sendable(cl, b) && RlesBits(cl, a + b) == RlesBits(cl, a) + RlesBits(cl, b)
  {
    hide RBits, ValidCode, HasCode;
    forall r | r in a ensures r in a + b { }
    forall r | r in b ensures r in a + b { }
    if a == [] {
      assert a + b == b;
    } else {
      assert (a + b)[1..] == a[1..] + b;
      assert forall r :: r in a[1..] + b ==> r in a + b;
      RlesBitsConcat(cl, a[1..], b);
      assert RBits(cl, a[0]) + (RlesBits(cl, a[1..]) + RlesBits(cl, b)) ==
             RBits(cl, a[0]) + RlesBits(cl, a[1..]) + RlesBits(cl, b);
    }
  }

  /** The lengths of the first n codes of the code-length code, in sending order. */
  function LensBits(cl: seq<nat>, n: nat): seq<bool>
    requires |cl| == 19 && n <= 19
  {
    if n == 0 then [] else LensBits(cl, n - 1) + ToBits(cl[ORDER[n - 1]], 3)
  }

  function CountBits(nlen: nat, ndist: nat, ncode: nat): seq<bool>
    requires nlen >= 257 && ndist >= 1 && ncode >= 4
  {
    ToBits(nlen - 257, 5) + ToBits(ndist - 1, 5) + ToBits(ncode - 4, 4)
  }

  /** A code-length code that can send the trees c, sent as its first ncode lengths. */
  ghost predicate UsableHeader(c: Codes, cl: seq<nat>, ncode: nat) {
    257 <= |c.ll| <= 286 && 1 <= |c.dl| <= 30 && ValidLens(c.ll) && ValidLens(c.dl) && |cl| == 19 && 4 <= ncode <= 19 &&
    (forall i :: 0 <= i < 19 ==> cl[i] < 8) && (forall i :: ncode <= i < 19 ==> cl[ORDER[i]] == 0) &&
    Kraft(cl) <= Pow2(MAXBITS) && Sendable(cl, RleOf(c.ll)) && Sendable(cl, RleOf(c.dl))
  }

  ghost function HeaderBits(c: Codes, cl: seq<nat>, ncode: nat): seq<bool>
    requires UsableHeader(c, cl, ncode)
  {
    CountBits(|c.ll|, |c.dl|, ncode) + LensBits(cl, ncode) + RlesBits(cl, RleOf(c.ll)) + RlesBits(cl, RleOf(c.dl))
  }

  // ----- reading a header back -----

  /** The code-length code is put together from its lengths in sending order. */
  lemma {:induction false} ArrangeAt(got: seq<nat>, i: nat)
    requires |got| <= 19 && i < 19
    ensures Arrange(got)[ORDER[i]] == if i < |got| then got[i] else 0
  {
    if got != [] { ArrangeAt(got[..|got| - 1], i); OrderInjective(i, |got| - 1); }
  }

  lemma OrderInjective(i: nat, j: nat)
    requires i < 19 && j < 19
    ensures ORDER[i] < 19 && (ORDER[i] == ORDER[j] ==> i == j)
  {
  }

  /** Every code-length symbol has a place in the order. */
  lemma OrderOnto(s: nat) returns (i: nat)
    requires s < 19
    ensures i < 19 && ORDER[i] == s && i == Place(s)
  {
    i := Place(s);
  }

  /** The places of section 3.2.7 of RFC 1951: first the three repeat codes and 0, then, from 8 on, the lengths that
      are ever less likely, above and below 8 in turn. */
  function Place(s: nat): nat
    requires s < 19
  {
    if s >= 16 then s - 16 else if s == 0 then 3 else if s >= 8 then 4 + 2 * (s - 8) else 3 + 2 * (8 - s)
  }

  /** Where a header holds the length of code-length symbol s: three bits, after the 14 bits of the counts and the
      symbols before it. */
  lemma HeaderHolds(c: Codes, cl: seq<nat>, ncode: nat, s: nat)
    requires UsableHeader(c, cl, ncode) && s < 19
    ensures |HeaderBits(c, cl, ncode)| >= 14 + 3 * ncode
    ensures if Place(s) < ncode
            then HeaderBits(c, cl, ncode)[14 + 3 * Place(s)..17 + 3 * Place(s)] == ToBits(cl[s], 3) else cl[s] == 0
  {
    hide ToBits, RlesBits, RleOf, LensBits, Kraft, Sendable, Place;
    var i := OrderOnto(s);
    LensBitsSize(cl, ncode);
    if i < ncode { LensHold(cl, ncode, i); }
    CountSize(|c.ll|, |c.dl|, ncode);
  }

  lemma CountSize(nlen: nat, ndist: nat, ncode: nat)
    requires nlen >= 257 && ndist >= 1 && ncode >= 4
    ensures |CountBits(nlen, ndist, ncode)| == 14
  {
    hide ToBits;
  }

  lemma SliceOf(a: seq<bool>, b: seq<bool>, i: nat, j: nat)
    requires i <= j <= |a|
    ensures (a + b)[i..j] == a[i..j]
  {
  }

  lemma {:induction false} LensHold(cl: seq<nat>, n: nat, i: nat)
    requires |cl| == 19 && i < n <= 19
    ensures |LensBits(cl, n)| == 3 * n && LensBits(cl, n)[3 * i..3 * i + 3] == ToBits(cl[ORDER[i]], 3)
  {
    hide ToBits;
    LensBitsSize(cl, n - 1);
    OrderInjective(n - 1, n - 1);
    var a, b := LensBits(cl, n - 1), ToBits(cl[ORDER[n - 1]], 3);
    if i < n - 1 {
      LensHold(cl, n - 1, i);
      SliceOf(a, b, 3 * i, 3 * i + 3);
    }
  }

  /** The lengths sent, in sending order. */
  function SentLens(cl: seq<nat>, n: nat): (got: seq<nat>)
    requires |cl| == 19 && n <= 19
    ensures |got| == n
  {
    if n == 0 then [] else SentLens(cl, n - 1) + [cl[ORDER[n - 1]]]
  }

  lemma {:induction false} SentLensAt(cl: seq<nat>, n: nat, i: nat)
    requires |cl| == 19 && i < n <= 19
    ensures SentLens(cl, n)[i] == cl[ORDER[i]]
  {
    if i < n - 1 { SentLensAt(cl, n - 1, i); }
  }

  lemma Rearranged(cl: seq<nat>, n: nat)
    requires |cl| == 19 && n <= 19 && forall i :: n <= i < 19 ==> cl[ORDER[i]] == 0
    ensures Arrange(SentLens(cl, n)) == cl
  {
    hide Arrange, SentLens;
    forall s | 0 <= s < 19 ensures Arrange(SentLens(cl, n))[s] == cl[s] {
      var i := OrderOnto(s);
      ArrangeAt(SentLens(cl, n), i);
      if i < n { SentLensAt(cl, n, i); }
    }
  }

  lemma StepLenLens(s: State, nlen: nat, ndist: nat, ncode: nat, got: seq<nat>)
    requires s.mode == LenLens(nlen, ndist, ncode, got)
    ensures Step(s) == LenLensStep(s, nlen, ndist, ncode, got)
  {
    hide LenLensStep;
  }

  /** Reading the lengths of the code-length code. */
  lemma {:induction false} LenLensSteps(s: State, nlen: nat, ndist: nat, ncode: nat, cl: seq<nat>, n: nat,
                                        rest: seq<bool>)
    requires |cl| == 19 && n <= ncode <= 19 && forall i :: 0 <= i < 19 ==> cl[i] < 8
    requires s.mode == LenLens(nlen, ndist, ncode, []) && s.q == LensBits(cl, n) + rest
    ensures Reaches(s, s.(mode := LenLens(nlen, ndist, ncode, SentLens(cl, n)), q := rest))
  {
    hide Step, Reaches, ToBits, FromBits;
    if n == 0 {
      assert s.q == rest;
      ReachesSelf(s);
    } else {
      var b := ToBits(cl[ORDER[n - 1]], 3);
      assert s.q == LensBits(cl, n - 1) + (b + rest);
      LenLensSteps(s, nlen, ndist, ncode, cl, n - 1, b + rest);
      var t := s.(mode := LenLens(nlen, ndist, ncode, SentLens(cl, n - 1)), q := b + rest);
      StepLenLens(t, nlen, ndist, ncode, SentLens(cl, n - 1));
      ReadValue(cl[ORDER[n - 1]], 3, rest);
      ReachesThen(s, t, s.(mode := LenLens(nlen, ndist, ncode, SentLens(cl, n)), q := rest));
    }
  }

  lemma ReadValue(v: nat, n: nat, rest: seq<bool>)
    requires v < Pow2(n)
    ensures FromBits((ToBits(v, n) + rest)[..n]) == v && (ToBits(v, n) + rest)[n..] == rest
  {
    hide Pow2, Low, FromBits, ToBits;
    Take(ToBits(v, n), rest);
    Drop(ToBits(v, n), rest);
    FromToBits(v, n);
    LowSmall(v, n);
  }

  /** Reading one code-length code. */
  lemma RCodeStep(s: State, nlen: nat, ndist: nat, cl: seq<nat>, got: seq<nat>, r: RCode, rest: seq<bool>)
    requires ValidLens(cl) && Kraft(cl) <= Pow2(MAXBITS) && ValidCode(r) && HasCode(cl, r.sym)
    requires r.sym == REP_3_6 ==> got != []
    requires |got| < nlen + ndist && |ApplyCode(got, r)| <= nlen + ndist
    requires s.mode == CodeLens(nlen, ndist, cl, got) && s.q == RBits(cl, r) + rest
    ensures Reaches(s, s.(mode := CodeLens(nlen, ndist, cl, ApplyCode(got, r)), q := rest))
  {
    hide Step, Reaches, Kraft, DecodeSym, SymBits, ToBits, FromBits, Pow2;
    var n := cl[r.sym];
    var x := if r.sym < 16 then [] else ToBits(r.extra, RepeatBits(r.sym));
    assert s.q == SymBits(cl, r.sym) + (x + rest);
    ReadSym(cl, r.sym, x + rest);
    Drop(SymBits(cl, r.sym), x + rest);
    StepCodeLens(s);
    if r.sym >= 16 {
      ReadValue(r.extra, RepeatBits(r.sym), rest);
      SliceAfter(SymBits(cl, r.sym), x, rest);
    } else {
      assert x + rest == rest;
    }
    assert Step(s) == Some(s.(mode := CodeLens(nlen, ndist, cl, ApplyCode(got, r)), q := rest));
    ReachesStep(s, s.(mode := CodeLens(nlen, ndist, cl, ApplyCode(got, r)), q := rest));
  }

  lemma SliceAfter(a: seq<bool>, x: seq<bool>, rest: seq<bool>)
    ensures (a + (x + rest))[|a|..|a| + |x|] == (x + rest)[..|x|]
    ensures (a + (x + rest))[|a| + |x|..] == rest
  {
  }

  lemma {:induction false} UndoesGrows(got: seq<nat>, rs: seq<RCode>, want: seq<nat>)
    requires Undoes(got, rs, want)
    ensures |got| + |rs| <= |want|
    decreases |rs|
  {
    if rs != [] { UndoesGrows(ApplyCode(got, rs[0]), rs[1..], want); }
  }

  /** Reading a run of code-length codes. */
  lemma {:induction false} RlesSteps(s: State, nlen: nat, ndist: nat, cl: seq<nat>, got: seq<nat>, rs: seq<RCode>,
                                     want: seq<nat>, rest: seq<bool>)
    requires ValidLens(cl) && Kraft(cl) <= Pow2(MAXBITS) && Sendable(cl, rs) && Undoes(got, rs, want)
    requires |want| <= nlen + ndist
    requires s.mode == CodeLens(nlen, ndist, cl, got) && s.q == RlesBits(cl, rs) + rest
    ensures Reaches(s, s.(mode := CodeLens(nlen, ndist, cl, want), q := rest))
    decreases |rs|
  {
    hide Step, Reaches, Kraft, RBits, ApplyCode, ValidCode, HasCode;
    if rs == [] {
      assert s.q == rest;
      ReachesSelf(s);
    } else {
      UndoesGrows(got, rs, want);
      UndoesGrows(ApplyCode(got, rs[0]), rs[1..], want);
      var q1 := RlesBits(cl, rs[1..]) + rest;
      assert s.q == RBits(cl, rs[0]) + q1;
      RCodeStep(s, nlen, ndist, cl, got, rs[0], q1);
      var t := s.(mode := CodeLens(nlen, ndist, cl, ApplyCode(got, rs[0])), q := q1);
      RlesSteps(t, nlen, ndist, cl, ApplyCode(got, rs[0]), rs[1..], want, rest);
      ReachesTrans(s, t, s.(mode := CodeLens(nlen, ndist, cl, want), q := rest));
    }
  }

  lemma StepTable(s: State, nlen: nat, ndist: nat, ncode: nat, rest: seq<bool>)
    requires s.mode == Table && 257 <= nlen <= 286 && 1 <= ndist <= 30 && 4 <= ncode <= 19
    requires s.q == CountBits(nlen, ndist, ncode) + rest
    ensures Step(s) == Some(s.(mode := LenLens(nlen, ndist, ncode, []), q := rest))
  {
    hide ToBits, FromBits, Pow2, TypeStep, LenLensStep, CodeLensStep, LenStep, DistStep;
    SmallPowers();
    var a, b, d := ToBits(nlen - 257, 5), ToBits(ndist - 1, 5), ToBits(ncode - 4, 4);
    ReadValue(nlen - 257, 5, b + d + rest);
    ReadValue(ndist - 1, 5, d + rest);
    ReadValue(ncode - 4, 4, rest);
    assert s.q == a + (b + d + rest);
    assert s.q[5..10] == (b + (d + rest))[..5];
    assert s.q[10..14] == (d + rest)[..4];
    assert s.q[14..] == rest;
  }

  /** Reading the counts and the code-length code. */
  lemma CodeLengthCodeSteps(s: State, nlen: nat, ndist: nat, ncode: nat, cl: seq<nat>, rest: seq<bool>)
    requires 257 <= nlen <= 286 && 1 <= ndist <= 30 && 4 <= ncode <= 19 && |cl| == 19
    requires (forall i :: 0 <= i < 19 ==> cl[i] < 8) && (forall i :: ncode <= i < 19 ==> cl[ORDER[i]] == 0)
    requires s.mode == Table && s.q == CountBits(nlen, ndist, ncode) + (LensBits(cl, ncode) + rest)
    requires InflateTable.Acceptable(CODES, cl)
    ensures Reaches(s, s.(mode := CodeLens(nlen, ndist, cl, []), q := rest))
  {
    hide Step, Reaches, LensBits, CountBits, InflateTable.Acceptable, Arrange, SentLens;
    var q1 := LensBits(cl, ncode) + rest;
    StepTable(s, nlen, ndist, ncode, q1);
    var s1 := s.(mode := LenLens(nlen, ndist, ncode, []), q := q1);
    ReachesStep(s, s1);
    LenLensSteps(s1, nlen, ndist, ncode, cl, ncode, rest);
    var s2 := s.(mode := LenLens(nlen, ndist, ncode, SentLens(cl, ncode)), q := rest);
    ReachesTrans(s, s1, s2);
    Rearranged(cl, ncode);
    StepLenLens(s2, nlen, ndist, ncode, SentLens(cl, ncode));
    assert rest[0..] == rest;
    ReachesThen(s, s2, s.(mode := CodeLens(nlen, ndist, cl, []), q := rest));
  }

  /** Reading both trees: no repeat crosses from one to the other. */
  lemma TreesSteps(s: State, c: Codes, cl: seq<nat>, ncode: nat, rest: seq<bool>)
    requires UsableHeader(c, cl, ncode) && s.mode == CodeLens(|c.ll|, |c.dl|, cl, [])
    requires s.q == RlesBits(cl, RleOf(c.ll)) + (RlesBits(cl, RleOf(c.dl)) + rest)
    ensures Reaches(s, s.(mode := CodeLens(|c.ll|, |c.dl|, cl, c.ll + c.dl), q := rest))
  {
    hide Step, Reaches, Kraft, Undoes, RlesBits, RleOf, Sendable;
    var q1 := RlesBits(cl, RleOf(c.dl)) + rest;
    LensFit(c.ll);
    LensFit(c.dl);
    CodeLensFit(cl);
    TreeUndone([], c.ll);
    TreeUndone(c.ll, c.dl);
    assert [] + c.ll == c.ll;
    RlesSteps(s, |c.ll|, |c.dl|, cl, [], RleOf(c.ll), c.ll, q1);
    var t := s.(mode := CodeLens(|c.ll|, |c.dl|, cl, c.ll), q := q1);
    RlesSteps(t, |c.ll|, |c.dl|, cl, c.ll, RleOf(c.dl), c.ll + c.dl, rest);
    ReachesTrans(s, t, s.(mode := CodeLens(|c.ll|, |c.dl|, cl, c.ll + c.dl), q := rest));
  }

  lemma CodeLensFit(cl: seq<nat>)
    requires forall i :: 0 <= i < |cl| ==> cl[i] < 8
    ensures ValidLens(cl)
  {
  }

  /** The trees are complete: the block's data follows. */
  lemma TreesDone(s: State, c: Codes, cl: seq<nat>)
    requires 257 <= |c.ll| && s.mode == CodeLens(|c.ll|, |c.dl|, cl, c.ll + c.dl) && c.ll[END_BLOCK] > 0
    requires InflateTable.Acceptable(LENS, c.ll) && InflateTable.Acceptable(DISTS, c.dl)
    ensures Reaches(s, s.(mode := Len(c)))
  {
    hide Step, Reaches, InflateTable.Acceptable;
    StepCodeLens(s);
    assert (c.ll + c.dl)[..|c.ll|] == c.ll && (c.ll + c.dl)[|c.ll|..] == c.dl && s.q[0..] == s.q;
    ReachesStep(s, s.(mode := Len(c)));
  }

  /** A dynamic header is read back as the code lengths it was made from. */
  lemma HeaderRoundTrip(s: State, c: Codes, cl: seq<nat>, ncode: nat, rest: seq<bool>)
    requires UsableHeader(c, cl, ncode) && s.mode == Table && s.q == HeaderBits(c, cl, ncode) + rest
    requires InflateTable.Acceptable(CODES, cl) && InflateTable.Acceptable(LENS, c.ll)
    requires InflateTable.Acceptable(DISTS, c.dl) && c.ll[END_BLOCK] > 0
    ensures Reaches(s, s.(mode := Len(c), q := rest))
  {
    hide Step, Reaches, Kraft, RlesBits, LensBits, CountBits, InflateTable.Acceptable, RleOf, Sendable;
    var q1 := RlesBits(cl, RleOf(c.ll)) + (RlesBits(cl, RleOf(c.dl)) + rest);
    assert s.q == CountBits(|c.ll|, |c.dl|, ncode) + (LensBits(cl, ncode) + q1);
    CodeLengthCodeSteps(s, |c.ll|, |c.dl|, ncode, cl, q1);
    var s1 := s.(mode := CodeLens(|c.ll|, |c.dl|, cl, []), q := q1);
    TreesSteps(s1, c, cl, ncode, rest);
    var s2 := s.(mode := CodeLens(|c.ll|, |c.dl|, cl, c.ll + c.dl), q := rest);
    ReachesTrans(s, s1, s2);
    TreesDone(s2, c, cl);
    ReachesTrans(s, s2, s.(mode := Len(c), q := rest));
  }

  lemma LensFit(lens: seq<nat>)
    requires ValidLens(lens)
    ensures forall i :: 0 <= i < |lens| ==> lens[i] < 16
  {
  }

  // ----- sending a header -----

  /** How often symbol y occurs in rs. */
  function Freq(rs: seq<RCode>, y: nat): nat {
    if rs == [] then 0 else Freq(rs[..|rs| - 1], y) + if rs[|rs| - 1].sym == y then 1 else 0
  }

  lemma {:induction false} FreqConcat(a: seq<RCode>, b: seq<RCode>, y: nat)
    ensures Freq(a + b, y) == Freq(a, y) + Freq(b, y)
  {
    if b == [] {
      assert a + b == a;
    } else {
      FreqConcat(a, b[..|b| - 1], y);
      assert (a + b)[..|a + b| - 1] == a + b[..|b| - 1];
    }
  }

  /** The counts in freq are those of before plus those of the codes sent. */
  ghost predicate Counted(freq: seq<nat>, freq0: seq<nat>, rs: seq<RCode>) {
    |freq| == |freq0| >= 19 && forall y :: 0 <= y < 19 ==> freq[y] == (freq0[y] + Freq(rs, y)) % 65536
  }

  lemma {:induction false} FreqRepeat(cur: nat, n: nat, y: nat)
    ensures Freq(seq(n, _ => RCode(cur, 0)), y) == if y == cur then n else 0
    decreases n
  {
    if n > 0 {
      FreqRepeat(cur, n - 1, y);
      assert seq(n, _ => RCode(cur, 0))[..n - 1] == seq(n - 1, _ => RCode(cur, 0));
    }
  }

  lemma FreqOne(r: RCode, y: nat)
    ensures Freq([r], y) == if r.sym == y then 1 else 0
  {
    assert [r][..0] == [];
  }

  /** The counts of one run. */
  lemma FreqRun(cur: nat, count: nat, prev: int, min: nat, y: nat)
    requires count > 0
    ensures Freq(Run(cur, count, prev, min), y) ==
            if count < min then (if y == cur then count else 0)
            else if cur != 0 then (if y == cur && cur != prev then 1 else 0) + (if y == REP_3_6 then 1 else 0)
            else if count <= 10 then (if y == REPZ_3_10 then 1 else 0)
            else (if y == REPZ_11_138 then 1 else 0)
  {
    hide Freq;
    if count < min {
      FreqRepeat(cur, count, y);
    } else if cur != 0 && cur != prev {
      var r := RCode(REP_3_6, if count >= 4 then count - 4 else 0);
      FreqConcat([RCode(cur, 0)], [r], y);
      FreqOne(RCode(cur, 0), y);
      FreqOne(r, y);
      assert [RCode(cur, 0)] + [r] == [RCode(cur, 0), r];
    } else {
      FreqOne(Run(cur, count, prev, min)[0], y);
    }
  }

  /** The state of a scan: the codes done so far and those to come are the codes of the tree. */
  ghost predicate Scanning(lens: seq<nat>, n: nat, done: seq<RCode>, prev: int, count: nat, max: nat, min: nat) {
    lens != [] && n <= |lens| && count <= n && RleOf(lens) == done + RleFrom(lens, n, prev, count, max, min)
  }

  lemma ScanStep(lens: seq<nat>, n: nat, done: seq<RCode>, prev: int, count: nat, max: nat, min: nat)
    requires Scanning(lens, n, done, prev, count, max, min) && n < |lens|
    ensures var cur, next := lens[n], NextLen(lens, n);
            if count + 1 < max && cur == next then Scanning(lens, n + 1, done, prev, count + 1, max, min)
            else Scanning(lens, n + 1, done + Run(cur, count + 1, prev, min), cur, 0, MaxCount(cur, next),
                          MinCount(cur, next))
  {
    hide Run;
    var cur, next := lens[n], NextLen(lens, n);
    if !(count + 1 < max && cur == next) {
      var rest := RleFrom(lens, n + 1, cur, 0, MaxCount(cur, next), MinCount(cur, next));
      assert done + (Run(cur, count + 1, prev, min) + rest) == done + Run(cur, count + 1, prev, min) + rest;
    }
  }

  /** Determine the frequencies of the codes that send_tree will send. The guard after the last
      length is set here. */
  method ScanTree(dl: array<nat>, maxCode: nat, blFreq: array<nat>)
    requires maxCode + 1 < dl.Length && blFreq.Length >= 19 && dl != blFreq
    requires forall i :: 0 <= i <= maxCode ==> dl[i] < 16
    requires forall y :: 0 <= y < 19 ==> blFreq[y] < 65536
    modifies dl, blFreq
    ensures dl[..] == old(dl[..])[maxCode + 1 := GUARD]
    ensures Counted(blFreq[..], old(blFreq[..]), RleOf(old(dl[..maxCode + 1])))
  {
    hide Run, RleFrom, Freq;
    ghost var lens, done: seq<RCode> := dl[..maxCode + 1], [];
    var prevlen: int, nextlen := -1, dl[0];
    var count: nat, maxCount: nat, minCount: nat := 0, 7, 4;
    if nextlen == 0 { maxCount, minCount := 138, 3; }
    dl[maxCode + 1] := GUARD;
    assert [] + RleOf(lens) == RleOf(lens);
    NoneCounted(blFreq[..]);
    for n := 0 to maxCode + 1
      invariant dl[..] == old(dl[..])[maxCode + 1 := GUARD] && nextlen == dl[n]
      invariant Scanning(lens, n, done, prevlen, count, maxCount, minCount)
      invariant Counted(blFreq[..], old(blFreq[..]), done)
    {
      var curlen := nextlen;
      nextlen := dl[n + 1];
      assert curlen == lens[n] && nextlen == NextLen(lens, n);
      ScanStep(lens, n, done, prevlen, count, maxCount, minCount);
      count := count + 1;
      if !(count < maxCount && curlen == nextlen) {
        CountRun(blFreq, curlen, count, prevlen, minCount, old(blFreq[..]), done);
        done := done + Run(curlen, count, prevlen, minCount);
        count, prevlen := 0, curlen;
        if nextlen == 0 { maxCount, minCount := 138, 3; }
        else if curlen == nextlen { maxCount, minCount := 6, 3; }
        else { maxCount, minCount := 7, 4; }
      }
    }
    RleDone(lens, prevlen, count, maxCount, minCount);
    assert done + [] == done;
  }

  lemma RleDone(lens: seq<nat>, prev: int, count: nat, max: nat, min: nat)
    ensures RleFrom(lens, |lens|, prev, count, max, min) == []
  {
  }

  lemma NoneCounted(freq: seq<nat>)
    requires |freq| >= 19
    ensures (forall y :: 0 <= y < 19 ==> freq[y] < 65536) ==> Counted(freq, freq, [])
  {
  }

  lemma CountedMore(freq: seq<nat>, freq': seq<nat>, freq0: seq<nat>, done: seq<RCode>, rs: seq<RCode>)
    requires Counted(freq, freq0, done) && Counted(freq', freq, rs)
    ensures Counted(freq', freq0, done + rs)
  {
    hide Freq;
    forall y | 0 <= y < 19 ensures freq'[y] == (freq0[y] + Freq(done + rs, y)) % 65536 {
      FreqConcat(done, rs, y);
      AddMod(freq0[y] + Freq(done, y), Freq(rs, y));
    }
  }

  lemma AddMod(a: nat, b: nat)
    ensures (a % 65536 + b) % 65536 == (a + b) % 65536
  {
  }

  lemma SmallMod(a: nat)
    requires a < 65536
    ensures a % 65536 == a
  {
  }

  /** A count of one symbol, as a 16-bit number. */
  method Bump(freq: array<nat>, y: nat, n: nat)
    requires y < freq.Length
    modifies freq
    ensures freq[..] == old(freq[..])[y := (old(freq[y]) + n) % 65536]
  {
    freq[y] := (freq[y] + n) % 65536;
  }

  /** Count the codes of one run. */
  method CountRun(blFreq: array<nat>, curlen: nat, count: nat, prevlen: int, minCount: nat,
                  ghost freq0: seq<nat>, ghost done: seq<RCode>)
    requires blFreq.Length >= 19 && curlen < 16 && count > 0 && Counted(blFreq[..], freq0, done)
    modifies blFreq
    ensures Counted(blFreq[..], freq0, done + Run(curlen, count, prevlen, minCount))
  {
    hide Freq, Run;
    ghost var freq, run := blFreq[..], Run(curlen, count, prevlen, minCount);
    if count < minCount {
      Bump(blFreq, curlen, count);
    } else if curlen != 0 {
      if curlen != prevlen { Bump(blFreq, curlen, 1); }
      Bump(blFreq, REP_3_6, 1);
    } else if count <= 10 {
      Bump(blFreq, REPZ_3_10, 1);
    } else {
      Bump(blFreq, REPZ_11_138, 1);
    }
    ghost var freq' := blFreq[..];
    forall y | 0 <= y < 19 ensures freq'[y] == (freq[y] + Freq(run, y)) % 65536 {
      FreqRun(curlen, count, prevlen, minCount, y);
      SmallMod(freq[y]);
    }
    CountedMore(freq, freq', freq0, done, run);
  }

  /** Send one code-length code and its extra bits. */
  method SendRCode(w: BitWriter, r: RCode, code: seq<nat>, len: seq<nat>)
    requires w.Valid() && CodesOf(code, len) && ValidCode(r) && HasCode(len, r.sym)
    requires 8 * w.pending + w.biValid + |RBits(len, r)| < 8 * (w.pendingBuf.Length - 2) + 8
    modifies w, w.pendingBuf
    ensures w.Valid() && w.Sent() == old(w.Sent()) + RBits(len, r)
    ensures 8 * w.pending + w.biValid == 8 * old(w.pending) + old(w.biValid) + |RBits(len, r)|
    ensures Untouched(old(w.pendingBuf[..]), w.pendingBuf[..], old(w.pending), w.pending)
  {
    hide SymBits, ToBits, CodesOf, RevCode, Pow2;
    ghost var s0 := w.Sent();
    SendCode(w, r.sym, code, len);
    if r.sym >= 16 {
      w.SendBits(r.extra, RepeatBits(r.sym));
      assert s0 + SymBits(len, r.sym) + ToBits(r.extra, RepeatBits(r.sym)) == s0 + RBits(len, r);
    } else {
      assert s0 + SymBits(len, r.sym) == s0 + RBits(len, r);
    }
  }

  lemma UntouchedTrans(a: seq<Byte>, b: seq<Byte>, c: seq<Byte>, lo: nat, mid: nat, hi: nat)
    requires Untouched(a, b, lo, mid) && Untouched(b, c, mid, hi)
    ensures Untouched(a, c, lo, hi)
  {
  }

  /** The bits of a run fit if those of the whole tree do. */
  lemma RunFits(len: seq<nat>, done: seq<RCode>, run: seq<RCode>, rest: seq<RCode>)
    requires Sendable(len, done + run + rest)
    ensures Sendable(len, done) && Sendable(len, run) && Sendable(len, done + run)
    ensures RlesBits(len, done + run) == RlesBits(len, done) + RlesBits(len, run)
    ensures |RlesBits(len, done)| + |RlesBits(len, run)| <= |RlesBits(len, done + run + rest)|
  {
    hide RlesBits, Sendable;
    RlesBitsConcat(len, done + run, rest);
    RlesBitsConcat(len, done, run);
  }

  lemma RlesOne(len: seq<nat>, r: RCode)
    requires ValidCode(r) && HasCode(len, r.sym)
    ensures Sendable(len, [r]) && RlesBits(len, [r]) == RBits(len, r)
  {
    assert [r][1..] == [];
    assert RBits(len, r) + [] == RBits(len, r);
  }

  lemma RlesTwo(len: seq<nat>, a: RCode, b: RCode)
    requires Sendable(len, [a, b])
    ensures Sendable(len, [a]) && Sendable(len, [b]) && RlesBits(len, [a, b]) == RBits(len, a) + RBits(len, b)
  {
    assert a in [a, b] && b in [a, b];
    RlesOne(len, b);
    RlesOne(len, a);
    assert [a, b][1..] == [b];
  }

  /** n copies of a code, one more at a time. */
  lemma RlesMore(len: seq<nat>, r: RCode, n: nat)
    requires ValidCode(r) && HasCode(len, r.sym)
    ensures Sendable(len, seq(n, _ => r)) && Sendable(len, seq(n + 1, _ => r))
    ensures RlesBits(len, seq(n + 1, _ => r)) == RlesBits(len, seq(n, _ => r)) + RBits(len, r)
  {
    hide RlesBits, RBits;
    RlesOne(len, r);
    assert seq(n, _ => r) + [r] == seq(n + 1, _ => r);
    RlesBitsConcat(len, seq(n, _ => r), [r]);
  }

  lemma {:induction false} RlesManyLength(len: seq<nat>, r: RCode, k: nat, n: nat)
    requires ValidCode(r) && HasCode(len, r.sym) && k <= n
    ensures Sendable(len, seq(k, _ => r)) && Sendable(len, seq(n, _ => r))
    ensures |RlesBits(len, seq(n, _ => r))| >= |RlesBits(len, seq(k, _ => r))|
    decreases n
  {
    hide RlesBits, RBits;
    if k < n {
      RlesManyLength(len, r, k, n - 1);
      RlesMore(len, r, n - 1);
    }
  }

  /** The do-while loop of a short run. */
  method SendRepeated(w: BitWriter, curlen: nat, count: nat, code: seq<nat>, len: seq<nat>)
    requires w.Valid() && CodesOf(code, len) && curlen < 16 && HasCode(len, curlen)
    requires Sendable(len, seq(count, _ => RCode(curlen, 0)))
    requires 8 * w.pending + w.biValid + |RlesBits(len, seq(count, _ => RCode(curlen, 0)))| <
             8 * (w.pendingBuf.Length - 2) + 8
    modifies w, w.pendingBuf
    ensures w.Valid() && w.Sent() == old(w.Sent()) + RlesBits(len, seq(count, _ => RCode(curlen, 0)))
    ensures 8 * w.pending + w.biValid == 8 * old(w.pending) + old(w.biValid) +
            |RlesBits(len, seq(count, _ => RCode(curlen, 0)))|
    ensures Untouched(old(w.pendingBuf[..]), w.pendingBuf[..], old(w.pending), w.pending)
  {
    hide RBits, CodesOf, HasCode, RlesBits, Sendable, BytesBits, ToBits;
    ghost var r := RCode(curlen, 0);
    ghost var s0, b0, p0, t0 := w.Sent(), w.pendingBuf[..], w.pending, 8 * w.pending + w.biValid;
    var k: nat := count;
    RlesNone(len, r);
    while k > 0
      invariant k <= count && w.Valid() && Sendable(len, seq(count - k, _ => r))
      invariant w.Sent() == s0 + RlesBits(len, seq(count - k, _ => r))
      invariant 8 * w.pending + w.biValid == t0 + |RlesBits(len, seq(count - k, _ => r))|
      invariant Untouched(b0, w.pendingBuf[..], p0, w.pending)
    {
      RlesMore(len, r, count - k);
      RlesManyLength(len, r, count - k + 1, count);
      ghost var b1, p1 := w.pendingBuf[..], w.pending;
      SendRCode(w, RCode(curlen, 0), code, len);
      UntouchedTrans(b0, b1, w.pendingBuf[..], p0, p1, w.pending);
      assert s0 + RlesBits(len, seq(count - k, _ => r)) + RBits(len, r) ==
             s0 + (RlesBits(len, seq(count - k, _ => r)) + RBits(len, r));
      k := k - 1;
    }
    assert seq(count - k, _ => r) == seq(count, _ => RCode(curlen, 0));
  }

  lemma RlesNone(len: seq<nat>, r: RCode)
    ensures Sendable(len, seq(0, _ => r)) && RlesBits(len, seq(0, _ => r)) == []
  {
  }

  /** Send the codes of one run: a loop for a short run, else a repeat code. */
  method SendRun(w: BitWriter, curlen: nat, count: nat, prevlen: int, minCount: nat, code: seq<nat>, len: seq<nat>)
    requires w.Valid() && CodesOf(code, len) && count > 0 && curlen < 16
    requires var rs := Run(curlen, count, prevlen, minCount);
             Sendable(len, rs) && 8 * w.pending + w.biValid + |RlesBits(len, rs)| < 8 * (w.pendingBuf.Length - 2) + 8
    requires minCount == if curlen != 0 && curlen != prevlen then 4 else 3
    modifies w, w.pendingBuf
    ensures w.Valid() && w.Sent() == old(w.Sent()) + RlesBits(len, Run(curlen, count, prevlen, minCount))
    ensures 8 * w.pending + w.biValid == 8 * old(w.pending) + old(w.biValid) +
            |RlesBits(len, Run(curlen, count, prevlen, minCount))|
    ensures Untouched(old(w.pendingBuf[..]), w.pendingBuf[..], old(w.pending), w.pending)
  {
    hide RBits, CodesOf, RlesBits;
    ghost var rs := Run(curlen, count, prevlen, minCount);
    assert rs[0] in rs;
    if count < minCount {
      SendRepeated(w, curlen, count, code, len);
    } else if curlen != 0 {
      var n := count;
      ghost var s0, b0, p0 := w.Sent(), w.pendingBuf[..], w.pending;
      if curlen != prevlen {
        RlesTwo(len, rs[0], rs[1]);
        assert rs == [rs[0], rs[1]];
        SendRCode(w, RCode(curlen, 0), code, len);
        n := n - 1;
        ghost var b1, p1 := w.pendingBuf[..], w.pending;
        SendRCode(w, RCode(REP_3_6, n - 3), code, len);
        UntouchedTrans(b0, b1, w.pendingBuf[..], p0, p1, w.pending);
        assert s0 + RBits(len, rs[0]) + RBits(len, rs[1]) == s0 + (RBits(len, rs[0]) + RBits(len, rs[1]));
      } else {
        RlesOne(len, rs[0]);
        SendRCode(w, RCode(REP_3_6, n - 3), code, len);
      }
    } else if count <= 10 {
      RlesOne(len, rs[0]);
      SendRCode(w, RCode(REPZ_3_10, count - 3), code, len);
    } else {
      RlesOne(len, rs[0]);
      SendRCode(w, RCode(REPZ_11_138, count - 11), code, len);
    }
  }

  /** Send a literal or distance tree in compressed form. The guard has been set. */
  method SendTree(w: BitWriter, dl: array<nat>, maxCode: nat, code: seq<nat>, len: seq<nat>)
    requires maxCode + 1 < dl.Length && (forall i :: 0 <= i <= maxCode ==> dl[i] < 16) && dl[maxCode + 1] == GUARD
    requires w.Valid() && CodesOf(code, len) && Sendable(len, RleOf(dl[..maxCode + 1])) && dl as object != w.pendingBuf
    requires 8 * w.pending + w.biValid + |RlesBits(len, RleOf(dl[..maxCode + 1]))| < 8 * (w.pendingBuf.Length - 2) + 8
    modifies w, w.pendingBuf
    ensures w.Valid() && w.Sent() == old(w.Sent()) + RlesBits(len, RleOf(dl[..maxCode + 1]))
    ensures 8 * w.pending + w.biValid == 8 * old(w.pending) + old(w.biValid) + |RlesBits(len, RleOf(dl[..maxCode + 1]))|
    ensures Untouched(old(w.pendingBuf[..]), w.pendingBuf[..], old(w.pending), w.pending)
  {
    hide Run, RleFrom, RlesBits, CodesOf, Sendable, RleOf;
    ghost var lens, done: seq<RCode> := dl[..maxCode + 1], [];
    ghost var s0, b0, p0, t0 := w.Sent(), w.pendingBuf[..], w.pending, 8 * w.pending + w.biValid;
    var prevlen: int, nextlen := -1, dl[0];
    var count: nat, maxCount: nat, minCount: nat := 0, 7, 4;
    if nextlen == 0 { maxCount, minCount := 138, 3; }
    ScanStart(lens, maxCount, minCount);
    RlesEmpty(len);
    for n := 0 to maxCode + 1
      invariant dl[..maxCode + 1] == lens && nextlen == dl[n]
      invariant Scanning(lens, n, done, prevlen, count, maxCount, minCount)
      invariant n < |lens| ==> minCount == if lens[n] != 0 && lens[n] != prevlen then 4 else 3
      invariant w.Valid() && Sendable(len, done) && w.Sent() == s0 + RlesBits(len, done)
      invariant 8 * w.pending + w.biValid == t0 + |RlesBits(len, done)|
      invariant Untouched(b0, w.pendingBuf[..], p0, w.pending)
    {
      var curlen := nextlen;
      nextlen := dl[n + 1];
      assert curlen == lens[n] && nextlen == NextLen(lens, n);
      ScanStep(lens, n, done, prevlen, count, maxCount, minCount);
      count := count + 1;
      if !(count < maxCount && curlen == nextlen) {
        ghost var run := Run(curlen, count, prevlen, minCount);
        RunFits(len, done, run, RleFrom(lens, n + 1, curlen, 0, MaxCount(curlen, nextlen), MinCount(curlen, nextlen)));
        ghost var b1, p1 := w.pendingBuf[..], w.pending;
        SendRun(w, curlen, count, prevlen, minCount, code, len);
        UntouchedTrans(b0, b1, w.pendingBuf[..], p0, p1, w.pending);
        assert s0 + RlesBits(len, done) + RlesBits(len, run) == s0 + (RlesBits(len, done) + RlesBits(len, run));
        done := done + run;
        count, prevlen := 0, curlen;
        if nextlen == 0 { maxCount, minCount := 138, 3; }
        else if curlen == nextlen { maxCount, minCount := 6, 3; }
        else { maxCount, minCount := 7, 4; }
      }
    }
    RleDone(lens, prevlen, count, maxCount, minCount);
    assert done + [] == done;
  }

  lemma ScanStart(lens: seq<nat>, max: nat, min: nat)
    requires lens != [] && max == MaxCount(-1, lens[0]) && min == MinCount(-1, lens[0])
    ensures Scanning(lens, 0, [], -1, 0, max, min)
  {
    assert [] + RleOf(lens) == RleOf(lens);
  }

  lemma RlesEmpty(len: seq<nat>)
    ensures Sendable(len, []) && RlesBits(len, []) == []
  {
  }

  /** The lengths of the code-length code, up to the last that is sent. */
  method SendCodeLengths(w: BitWriter, blcodes: nat, len: seq<nat>)
    requires w.Valid() && |len| == 19 && blcodes <= 19 && forall i :: 0 <= i < 19 ==> len[i] < 8
    requires 8 * w.pending + w.biValid + 3 * blcodes < 8 * (w.pendingBuf.Length - 2) + 8
    modifies w, w.pendingBuf
    ensures w.Valid() && w.Sent() == old(w.Sent()) + LensBits(len, blcodes)
    ensures 8 * w.pending + w.biValid == 8 * old(w.pending) + old(w.biValid) + 3 * blcodes
    ensures Untouched(old(w.pendingBuf[..]), w.pendingBuf[..], old(w.pending), w.pending)
  {
    hide ToBits;
    ghost var s0, b0, p0, t0 := w.Sent(), w.pendingBuf[..], w.pending, 8 * w.pending + w.biValid;
    assert s0 + [] == s0;
    for rank := 0 to blcodes
      invariant w.Valid() && w.Sent() == s0 + LensBits(len, rank)
      invariant 8 * w.pending + w.biValid == t0 + 3 * rank
      invariant Untouched(b0, w.pendingBuf[..], p0, w.pending)
    {
      ghost var b1, p1 := w.pendingBuf[..], w.pending;
      OrderInjective(rank, rank);
      assert Pow2(3) == 8;
      w.SendBits(len[ORDER[rank]], 3);
      UntouchedTrans(b0, b1, w.pendingBuf[..], p0, p1, w.pending);
      assert s0 + LensBits(len, rank) + ToBits(len[ORDER[rank]], 3) ==
             s0 + (LensBits(len, rank) + ToBits(len[ORDER[rank]], 3));
    }
  }

  method SendCounts(w: BitWriter, lcodes: nat, dcodes: nat, blcodes: nat)
    requires w.Valid() && 257 <= lcodes <= 286 && 1 <= dcodes <= 30 && 4 <= blcodes <= 19
    requires 8 * w.pending + w.biValid + 14 < 8 * (w.pendingBuf.Length - 2) + 8
    modifies w, w.pendingBuf
    ensures w.Valid() && w.Sent() == old(w.Sent()) + CountBits(lcodes, dcodes, blcodes)
    ensures 8 * w.pending + w.biValid == 8 * old(w.pending) + old(w.biValid) + 14
    ensures Untouched(old(w.pendingBuf[..]), w.pendingBuf[..], old(w.pending), w.pending)
  {
    hide ToBits;
    ghost var s0 := w.Sent();
    assert Pow2(5) == 32 && Pow2(4) == 16;
    w.SendBits(lcodes - 257, 5);
    w.SendBits(dcodes - 1, 5);
    w.SendBits(blcodes - 4, 4);
    assert s0 + ToBits(lcodes - 257, 5) + ToBits(dcodes - 1, 5) + ToBits(blcodes - 4, 4)
        == s0 + CountBits(lcodes, dcodes, blcodes);
  }

  /** Send the header of a dynamic block: counts, code-length code, literal tree, distance tree. */
  method SendAllTrees(w: BitWriter, ldl: array<nat>, lcodes: nat, ddl: array<nat>, dcodes: nat, blcodes: nat,
                      code: seq<nat>, len: seq<nat>)
    requires lcodes < ldl.Length && dcodes < ddl.Length && ldl as object != w.pendingBuf
    requires ddl as object != w.pendingBuf
    requires UsableHeader(Codes(ldl[..lcodes], ddl[..dcodes]), len, blcodes)
    requires ldl[lcodes] == GUARD && ddl[dcodes] == GUARD && w.Valid() && CodesOf(code, len)
    requires 8 * w.pending + w.biValid + |HeaderBits(Codes(ldl[..lcodes], ddl[..dcodes]), len,
                                                     blcodes)| < 8 * (w.pendingBuf.Length - 2) + 8
    modifies w, w.pendingBuf
    ensures w.Valid() && w.Sent() == old(w.Sent()) + HeaderBits(Codes(ldl[..lcodes], ddl[..dcodes]), len, blcodes)
    ensures 8 * w.pending + w.biValid ==
            8 * old(w.pending) + old(w.biValid) + |HeaderBits(Codes(ldl[..lcodes], ddl[..dcodes]), len, blcodes)|
    ensures Untouched(old(w.pendingBuf[..]), w.pendingBuf[..], old(w.pending), w.pending)
  {
    hide RlesBits, CodesOf, Sendable, RleOf, LensBits, CountBits, Kraft;
    ghost var c := Codes(ldl[..lcodes], ddl[..dcodes]);
    ghost var s0, b0, p0 := w.Sent(), w.pendingBuf[..], w.pending;
    LensFit(c.ll);
    LensFit(c.dl);
    HeaderParts(c, len, blcodes);
    SmallLens(ldl, lcodes, c.ll);
    SmallLens(ddl, dcodes, c.dl);
    SendCounts(w, lcodes, dcodes, blcodes);
    ghost var b1, p1 := w.pendingBuf[..], w.pending;
    SendCodeLengths(w, blcodes, len);
    UntouchedTrans(b0, b1, w.pendingBuf[..], p0, p1, w.pending);
    ghost var b2, p2 := w.pendingBuf[..], w.pending;
    SendTree(w, ldl, lcodes - 1, code, len);
    UntouchedTrans(b0, b2, w.pendingBuf[..], p0, p2, w.pending);
    ghost var b3, p3 := w.pendingBuf[..], w.pending;
    SendTree(w, ddl, dcodes - 1, code, len);
    UntouchedTrans(b0, b3, w.pendingBuf[..], p0, p3, w.pending);
    FiveParts(s0, CountBits(lcodes, dcodes, blcodes), LensBits(len, blcodes), RlesBits(len, RleOf(c.ll)),
              RlesBits(len, RleOf(c.dl)));
  }

  lemma SmallLens(dl: array<nat>, n: nat, lens: seq<nat>)
    requires n <= dl.Length && lens == dl[..n] && forall i :: 0 <= i < |lens| ==> lens[i] < 16
    ensures forall i :: 0 <= i < n ==> dl[i] < 16
  {
    forall i | 0 <= i < n ensures dl[i] < 16 { assert dl[i] == lens[i]; }
  }

  lemma FiveParts(s: seq<bool>, a: seq<bool>, b: seq<bool>, c: seq<bool>, d: seq<bool>)
    ensures s + a + b + c + d == s + (a + b + c + d)
  {
  }

  lemma {:induction false} LensBitsSize(cl: seq<nat>, n: nat)
    requires |cl| == 19 && n <= 19
    ensures |LensBits(cl, n)| == 3 * n
  {
    if n > 0 { LensBitsSize(cl, n - 1); }
  }

  lemma HeaderParts(c: Codes, cl: seq<nat>, n: nat)
    requires UsableHeader(c, cl, n)
    ensures |HeaderBits(c, cl, n)| == 14 + 3 * n + |RlesBits(cl, RleOf(c.ll))| + |RlesBits(cl, RleOf(c.dl))|
  {
    hide RlesBits, RleOf, Sendable, Kraft, LensBits;
    LensBitsSize(cl, n);
  }
}
