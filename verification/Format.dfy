/** The DEFLATE format (RFC 1951) as a machine that reads bits and writes bytes. It knows code
    lengths and canonical codes but no tables, no bit accumulator and no buffers: it is what both
    the encoder and inflate are proved against. Its states are those of inflate. */
module Format {
  import opened Bits
  import opened Canonical
  import opened DecodeTable
  import opened BitWriter
  import opened Adler
  import InflateTable

  // ----- LZ77 -----

  datatype Token = Lit(b: Byte) | Match(dist: nat, len: nat)

  predicate ValidToken(t: Token) {
    t.Match? ==> 1 <= t.dist <= 32768 && 3 <= t.len <= 258
  }

  /** h extended by len bytes, each copied from dist back. */
  function CopyFrom(h: seq<Byte>, dist: nat, len: nat): (r: seq<Byte>)
    requires 1 <= dist <= |h|
    ensures |r| == |h| + len && h <= r
    decreases len
  {
    if len == 0 then h else CopyFrom(h + [h[|h| - dist]], dist, len - 1)
  }

  /** The token refers back no further than the history goes. */
  predicate InReach(h: seq<Byte>, t: Token) { t.Match? ==> 1 <= t.dist <= |h| }

  function Apply(h: seq<Byte>, t: Token): (r: seq<Byte>)
    requires InReach(h, t)
    ensures h <= r
  {
    match t
    case Lit(b) => h + [b]
    case Match(dist, len) => CopyFrom(h, dist, len)
  }

  /** Every token refers back no further than what the tokens before it have produced. */
  predicate Reachable(h: seq<Byte>, ts: seq<Token>)
    decreases |ts|, 0
  {
    ts == [] || (Reachable(h, ts[..|ts| - 1]) && InReach(Expand(h, ts[..|ts| - 1]), ts[|ts| - 1]))
  }

  /** What the tokens stand for after history h. */
  function Expand(h: seq<Byte>, ts: seq<Token>): (r: seq<Byte>)
    requires Reachable(h, ts)
    ensures h <= r
    decreases |ts|, 1
  {
    if ts == [] then h else Apply(Expand(h, ts[..|ts| - 1]), ts[|ts| - 1])
  }

  predicate LiteralsOnly(ts: seq<Token>) { forall t :: t in ts ==> t.Lit? }

  /** The only matches are runs of one byte. */
  predicate RunsOnly(ts: seq<Token>) { forall t :: t in ts ==> t.Match? ==> t.dist == 1 }

  // ----- symbols -----

  datatype Symbol = Found(s: nat, n: nat) | Invalid | More

  /** The bits q start with the code of symbol s. */
  ghost predicate StartsWith(lens: seq<nat>, s: nat, q: seq<bool>) {
    s < |lens| && 0 < lens[s] <= |q| && FromBits(q[..lens[s]]) == RevCode(lens, s)
  }

  /** The first symbol of q: an incomplete code has bit strings that no symbol starts with. */
  ghost function DecodeSym(lens: seq<nat>, q: seq<bool>): (r: Symbol)
    ensures r.Found? ==> StartsWith(lens, r.s, q) && r.n == lens[r.s]
    ensures r.Invalid? ==> |q| > 0
  {
    if exists s: nat :: StartsWith(lens, s, q) then
      var s: nat :| StartsWith(lens, s, q);
      Found(s, lens[s])
    else if Kraft(lens) < Pow2(MAXBITS) && q != [] then Invalid
    else More
  }

  // ----- the machine -----

  /** The literal/length and distance code lengths in force. */
  datatype Codes = Codes(ll: seq<nat>, dl: seq<nat>)

  datatype Mode =
    | Type | Stored | Copy(n: nat) | Table
    | LenLens(nlen: nat, ndist: nat, ncode: nat, got: seq<nat>)
    | CodeLens(nlen: nat, ndist: nat, cl: seq<nat>, got: seq<nat>)
    | Len(c: Codes) | LenExt(c: Codes, len: nat, extra: nat)
    | Dist(c: Codes, len: nat) | DistExt(c: Codes, len: nat, off: nat, extra: nat)
    | Copying(c: Codes, len: nat, off: nat) | Literal(c: Codes, b: nat)
    | Check | Done | Bad

  /** wrap says whether a zlib trailer is checked; out is all output; q the bits not yet used. */
  datatype State = State(mode: Mode, last: bool, wrap: bool, out: seq<Byte>, q: seq<bool>)

  /** Code lengths of the fixed codes. */
  function FixedLl(): (ll: seq<nat>)
    ensures |ll| == 288
  {
    seq(288, i => if i <= 143 then 8 else if i <= 255 then 9 else if i <= 279 then 7 else 8)
  }

  function FixedDl(): (dl: seq<nat>)
    ensures |dl| == 32
  {
    seq(32, i => 5)
  }

  /** The order in which the lengths of the code-length code are sent. */
  const ORDER: seq<nat> := [16, 17, 18, 0, 8, 7, 9, 6, 10, 5, 11, 4, 12, 3, 13, 2, 14, 1, 15]

  /** The code-length code lengths from the got lengths in sending order, zero where none was sent. */
  function Arrange(got: seq<nat>): (cl: seq<nat>)
    requires |got| <= 19
    ensures |cl| == 19
  {
    if got == [] then seq(19, i => 0)
    else Arrange(got[..|got| - 1])[ORDER[|got| - 1] := got[|got| - 1]]
  }

  function Aligned(q: seq<bool>): seq<bool> { q[|q| % 8..] }

  ghost function Fail(s: State): State { State(Bad, s.last, s.wrap, s.out, []) }

  ghost function Goto(s: State, m: Mode, n: nat): State
    requires n <= |s.q|
  {
    s.(mode := m, q := s.q[n..])
  }

  /** The machine cannot take its next step without room for a byte of output. */
  predicate NeedsSpace(s: State) {
    s.mode.Copying? || s.mode.Literal? || (s.mode.Copy? && s.mode.n > 0)
  }

  /** One step, or None when more input bits are needed or the machine is at rest. */
  ghost function Step(s: State): Option<State> {
    match s.mode
    case Type => TypeStep(s)
    case Stored =>
      if |s.q| < 32 then None
      else
        var len, nlen := FromBits(s.q[..16]), FromBits(s.q[16..32]);
        if len + nlen != 65535 then Some(Fail(s)) else Some(Goto(s, Copy(len), 32))
    case Copy(n) =>
      if n == 0 then Some(Goto(s, Type, 0))
      else if |s.q| < 8 then None
      else Some(Goto(s.(out := s.out + [ByteOf(s.q)]), Copy(n - 1), 8))
    case Table =>
      if |s.q| < 14 then None
      else
        var nlen, ndist, ncode := FromBits(s.q[..5]) + 257, FromBits(s.q[5..10]) + 1, FromBits(s.q[10..14]) + 4;
        if nlen > 286 || ndist > 30 then Some(Fail(s)) else Some(Goto(s, LenLens(nlen, ndist, ncode, []), 14))
    case LenLens(nlen, ndist, ncode, got) => LenLensStep(s, nlen, ndist, ncode, got)
    case CodeLens(nlen, ndist, cl, got) => CodeLensStep(s, nlen, ndist, cl, got)
    case Len(c) => LenStep(s, c)
    case LenExt(c, len, extra) =>
      if |s.q| < extra then None else Some(Goto(s, Dist(c, len + FromBits(s.q[..extra])), extra))
    case Dist(c, len) => DistStep(s, c, len)
    case DistExt(c, len, off, extra) =>
      if |s.q| < extra then None else Some(Goto(s, Copying(c, len, off + FromBits(s.q[..extra])), extra))
    case Copying(c, len, off) =>
      if !(1 <= off <= |s.out|) then Some(Fail(s))
      else
        var out := s.out + [s.out[|s.out| - off]];
        Some(Goto(s.(out := out), if len <= 1 then Len(c) else Copying(c, len - 1, off), 0))
    case Literal(c, b) => Some(Goto(s.(out := s.out + [b % 256]), Len(c), 0))
    case Check =>
      if !s.wrap then Some(Goto(s, Done, 0))
      else if |s.q| < 32 then None
      else if Swap32(FromBits(s.q[..32])) != Adler32Of(s.out) then Some(Fail(s))
      else Some(Goto(s, Done, 32))
    case Done => None
    case Bad => None
  }

  datatype Option<T> = None | Some(v: T)

  ghost function ByteOf(q: seq<bool>): (b: Byte)
    requires |q| >= 8
  {
    var v := FromBits(q[..8]);
    assert v < Pow2(8) == 256;
    v
  }

  /** The bytes of a 32-bit number in the opposite order (ZSWAP32). */
  function Swap32(x: nat): nat {
    Low(x, 8) * 16777216 + Low(High(x, 8), 8) * 65536 + Low(High(x, 16), 8) * 256 + Low(High(x, 24), 8)
  }

  ghost function TypeStep(s: State): Option<State> {
    if s.last then Some(s.(mode := Check, q := Aligned(s.q)))
    else if |s.q| < 3 then None
    else
      var t, kind := s.(last := s.q[0]), FromBits(s.q[1..3]);
      if kind == 0 then Some(t.(mode := Stored, q := Aligned(s.q[3..])))
      else if kind == 1 then Some(Goto(t, Len(Codes(FixedLl(), FixedDl())), 3))
      else if kind == 2 then Some(Goto(t, Table, 3))
      else Some(Fail(t))
  }

  ghost function LenLensStep(s: State, nlen: nat, ndist: nat, ncode: nat, got: seq<nat>): Option<State> {
    if |got| < ncode then
      if |s.q| < 3 then None
      else Some(Goto(s, LenLens(nlen, ndist, ncode, got + [FromBits(s.q[..3])]), 3))
    else if |got| > 19 || !InflateTable.Acceptable(CODES, Arrange(got)) then Some(Fail(s))
    else Some(Goto(s, CodeLens(nlen, ndist, Arrange(got), []), 0))
  }

  ghost function CodeLensStep(s: State, nlen: nat, ndist: nat, cl: seq<nat>, got: seq<nat>): Option<State> {
    if |got| < nlen + ndist then
      match DecodeSym(cl, s.q)
      case More => None
      case Invalid => Some(Goto(s, CodeLens(nlen, ndist, cl, got + [0]), 1))  // the entry's value is not checked
      case Found(sym, n) =>
        if sym < 16 then Some(Goto(s, CodeLens(nlen, ndist, cl, got + [sym]), n))
        else
          var bits, base := RepeatBits(sym), if sym == 18 then 11 else 3;
          if |s.q| < n + bits then None
          else
            var count := base + FromBits(s.q[n..n + bits]);
            if (sym == 16 && got == []) || |got| + count > nlen + ndist then Some(Fail(s))
            else
              var v := if sym == 16 then got[|got| - 1] else 0;
              Some(Goto(s, CodeLens(nlen, ndist, cl, got + seq(count, _ => v)), n + bits))
    else if nlen <= 256 || |got| != nlen + ndist || got[256] == 0 then Some(Fail(s))
    else if !InflateTable.Acceptable(LENS, got[..nlen]) ||
            !InflateTable.Acceptable(DISTS, got[nlen..]) then Some(Fail(s))
    else Some(Goto(s, Len(Codes(got[..nlen], got[nlen..])), 0))
  }

  /** Extra bits of the repeat codes 16, 17 and 18. */
  function RepeatBits(sym: nat): nat {
    if sym == 16 then 2 else if sym == 17 then 3 else 7
  }

  ghost function LenStep(s: State, c: Codes): Option<State> {
    match DecodeSym(c.ll, s.q)
    case More => None
    case Invalid => Some(Fail(s))
    case Found(sym, n) =>
      if sym < 256 then Some(Goto(s, Literal(c, sym), n))
      else if sym == 256 then Some(Goto(s, Type, n))
      else if sym >= 286 then Some(Fail(s))
      else Some(Goto(s, LenExt(c, LBASE[sym - 257], LEXT[sym - 257] - 16), n))
  }

  ghost function DistStep(s: State, c: Codes, len: nat): Option<State> {
    match DecodeSym(c.dl, s.q)
    case More => None
    case Invalid => Some(Fail(s))
    case Found(sym, n) =>
      if sym >= 30 then Some(Fail(s))
      else Some(Goto(s, DistExt(c, len, DBASE[sym], DEXT[sym] - 16), n))
  }

  lemma StepType(s: State)
    requires s.mode == Type
    ensures Step(s) == TypeStep(s)
  {
    hide TypeStep;
  }

  lemma StepCodeLens(s: State)
    requires s.mode.CodeLens?
    ensures Step(s) == CodeLensStep(s, s.mode.nlen, s.mode.ndist, s.mode.cl, s.mode.got)
  {
    hide CodeLensStep;
  }

  // ----- runs -----

  /** t follows from s by n steps. */
  ghost predicate Steps(s: State, t: State, n: nat)
    decreases n
  {
    if n == 0 then s == t else Step(s).Some? && Steps(Step(s).v, t, n - 1)
  }

  ghost predicate Reaches(s: State, t: State) {
    exists n: nat :: Steps(s, t, n)
  }

  lemma {:induction false} StepsTrans(s: State, t: State, u: State, m: nat, n: nat)
    requires Steps(s, t, m) && Steps(t, u, n)
    ensures Steps(s, u, m + n)
    decreases m
  {
    hide Step;
    if m > 0 { StepsTrans(Step(s).v, t, u, m - 1, n); }
  }

  lemma ReachesTrans(s: State, t: State, u: State)
    requires Reaches(s, t) && Reaches(t, u)
    ensures Reaches(s, u)
  {
    var m: nat :| Steps(s, t, m);
    var n: nat :| Steps(t, u, n);
    StepsTrans(s, t, u, m, n);
  }

  lemma ReachesSelf(s: State)
    ensures Reaches(s, s)
  {
    assert Steps(s, s, 0);
  }

  lemma ReachesStep(s: State, t: State)
    requires Step(s) == Some(t)
    ensures Reaches(s, t)
  {
    assert Steps(t, t, 0);
    assert Steps(s, t, 1);
  }

  /** One more step at the end of a run. */
  lemma ReachesThen(s: State, t: State, u: State)
    requires Reaches(s, t) && Step(t) == Some(u)
    ensures Reaches(s, u)
  {
    ReachesStep(t, u);
    ReachesTrans(s, t, u);
  }

  /** t follows from s by n steps, none of them from a state that reads code lengths. */
  ghost predicate QuietSteps(s: State, t: State, n: nat)
    decreases n
  {
    if n == 0 then s == t else !s.mode.CodeLens? && Step(s).Some? && QuietSteps(Step(s).v, t, n - 1)
  }

  ghost predicate Quiet(s: State, t: State) {
    exists n: nat :: QuietSteps(s, t, n)
  }

  lemma {:induction false} QuietStepsTrans(s: State, t: State, u: State, m: nat, n: nat)
    requires QuietSteps(s, t, m) && QuietSteps(t, u, n)
    ensures QuietSteps(s, u, m + n)
    decreases m
  {
    hide Step;
    if m > 0 { QuietStepsTrans(Step(s).v, t, u, m - 1, n); }
  }

  lemma QuietTrans(s: State, t: State, u: State)
    requires Quiet(s, t) && Quiet(t, u)
    ensures Quiet(s, u)
  {
    var m: nat :| QuietSteps(s, t, m);
    var n: nat :| QuietSteps(t, u, n);
    QuietStepsTrans(s, t, u, m, n);
  }

  lemma QuietSelf(s: State)
    ensures Quiet(s, s)
  {
    assert QuietSteps(s, s, 0);
  }

  lemma QuietStep(s: State, t: State)
    requires Step(s) == Some(t) && !s.mode.CodeLens?
    ensures Quiet(s, t)
  {
    assert QuietSteps(t, t, 0);
    assert QuietSteps(s, t, 1);
  }

  lemma QuietThen(s: State, t: State, u: State)
    requires Quiet(s, t) && Step(t) == Some(u) && !t.mode.CodeLens?
    ensures Quiet(s, u)
  {
    QuietStep(t, u);
    QuietTrans(s, t, u);
  }

  lemma {:induction false} QuietStepsReach(s: State, t: State, n: nat)
    requires QuietSteps(s, t, n)
    ensures Steps(s, t, n)
    decreases n
  {
    hide Step;
    if n > 0 { QuietStepsReach(Step(s).v, t, n - 1); }
  }

  lemma QuietReaches(s: State, t: State)
    requires Quiet(s, t)
    ensures Reaches(s, t)
  {
    var n: nat :| QuietSteps(s, t, n);
    QuietStepsReach(s, t, n);
  }

  /** A state that reads code lengths is not passed on the way to t; if it comes, it comes later. */
  lemma {:induction false} QuietPasses(s: State, t: State, n: nat, full: State, m: nat)
    requires QuietSteps(s, t, n) && Steps(s, full, m) && full.mode.CodeLens?
    ensures Reaches(t, full)
    decreases n
  {
    hide Step;
    if n > 0 { QuietPasses(Step(s).v, t, n - 1, full, m - 1); }
  }

  /** A run that goes quietly to where it rests reads no code lengths. */
  lemma NeverReads(s: State, t: State, full: State)
    requires Quiet(s, t) && Step(t) == None && Reaches(s, full)
    ensures full.mode.CodeLens? ==> full == t
  {
    hide Step;
    if full.mode.CodeLens? {
      var n: nat :| QuietSteps(s, t, n);
      var m: nat :| Steps(s, full, m);
      QuietPasses(s, t, n, full, m);
      var k: nat :| Steps(t, full, k);
    }
  }
}
