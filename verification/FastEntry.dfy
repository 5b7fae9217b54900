/** The state in which inflate calls inflate_fast: more than 7 bits can be left in the accumulator by a
    call that ran out of input within a symbol. */
module FastEntry {
  import opened Bits
  import opened Canonical
  import opened DecodeTable
  import opened BitWriter
  import opened Format
  import opened Codec
  import opened Fixed
  import opened Blocks
  import opened Feeding
  import opened BitReader
  import opened SymbolReader
  import opened Inflate

  /** Where inflate is about to call inflate_fast. */
  ghost predicate AtFast(z: Inflater)
    reads z, z.r, z.ring, z.ring.window, z.lens
  {
    z.Valid() && z.mode == LEN && |z.r.input| >= 6 && z.left >= 258
  }

  /** More than 7 bits are held there only if the block's code has a longer symbol. */
  lemma HeldForLonger(z: Inflater)
    requires AtFast(z) && z.r.bits > 7
    ensures exists s :: 0 <= s < |z.c.ll| && z.c.ll[s] > z.r.bits
  {
    hide Kraft, Pow2, Waits, FromBits, Decodes, Stream, Held;
    Holding(z);
    var s := WaitsForLonger(LENS, z.c.ll, Held(z.r));
  }

  lemma Holding(z: Inflater)
    requires AtFast(z) && z.r.bits > 7
    ensures GoodLens(LENS, z.c.ll) && |Held(z.r)| == z.r.bits && Waits(z.c.ll, Held(z.r))
  {
    hide Kraft, Pow2, Decodes, Stream, DecodeSym;
    StepLen(z.AbsHeld(), z.c);
  }

  // ----- an input -----

  /** A block in the fixed codes that begins with the literal 144 five times, up to eight of the nine
      bits of a sixth one. */
  const SEVEN: seq<Byte> := [154, 48, 97, 194, 132, 9, 19]

  const FIVE: seq<Token> := [Lit(144), Lit(144), Lit(144), Lit(144), Lit(144)]

  function Nine(): seq<bool> { [true, true, false, false, true, false, false, false, false] }

  /** Literal 144 has the first of the codes of nine bits. */
  lemma Code144()
    ensures FixedLl()[144] == 9 && SymBits(FixedLl(), 144) == Nine()
  {
    hide Pow2, Seg, FixedLl, Count, Rev, ToBits, Nine, CodeOf;
    FixedNine();
    FirstNine();
    Reversed400();
    Bits19();
  }

  lemma Reversed400()
    ensures Rev(400, 9) == 19
  {
    assert Rev(25, 5) == 19 by { assert Rev(1, 1) == 1 && Rev(3, 2) == 3 && Rev(6, 3) == 3 && Rev(12, 4) == 3; }
    assert Rev(50, 6) == Rev(100, 7) == Rev(200, 8) == 19;
  }

  lemma Bits19()
    ensures ToBits(19, 9) == Nine()
  {
    assert ToBits(1, 5) == [true, false, false, false, false];
    FourMore(19, true, true, false, false, 1, [true, false, false, false, false]);
  }

  lemma FixedNine()
    ensures FixedLl()[144] == 9 && FixedLl()[..288] == FixedLl()
  {
  }

  lemma FirstNine()
    ensures CodeOf(FixedLl(), 144) == 400
  {
    hide Pow2, Seg, FixedLl, Count, FirstCode;
    var l := FixedLl();
    FixedNine();
    FixedCounts(288);
    FixedCounts(144);
    NoneBefore(l, 6);
    NextFirst(l, 7);
    NextFirst(l, 8);
    NextFirst(l, 9);
  }

  lemma NextFirst(lens: seq<nat>, b: nat)
    requires b > 1
    ensures FirstCode(lens, b) == 2 * (FirstCode(lens, b - 1) + Count(lens, b - 1))
  {
  }

  lemma {:induction false} NoneBefore(lens: seq<nat>, b: nat)
    requires b <= 6 && lens == FixedLl()
    ensures FirstCode(lens, b) == 0
  {
    hide Count, FixedLl;
    if b > 1 {
      NoneBefore(lens, b - 1);
      FixedNine();
      FixedCounts(288);
    }
  }

  lemma FiveBits()
    ensures AllCoded(FixedCodes(), FIVE) && TokensBits(FixedCodes(), FIVE) == Nine() + Nine() + Nine() + Nine() + Nine()
    ensures Reachable([], FIVE) && Expand([], FIVE) == [144, 144, 144, 144, 144]
  {
    hide FixedLl, SymBits, FixedCodes, TokensBits, Reachable, Expand, Coded, Nine;
    Code144();
    FixedLits();
    var c, t := FixedCodes(), Lit(144);
    FixedTokenBits(t);
    NoneYet(c);
    TokensNext(c, [], t);
    assert [] + [t] == [t];
    TokensNext(c, [t], t);
    assert [t] + [t] == [t, t];
    TokensNext(c, [t, t], t);
    assert [t, t] + [t] == [t, t, t];
    TokensNext(c, [t, t, t], t);
    assert [t, t, t] + [t] == [t, t, t, t];
    TokensNext(c, [t, t, t, t], t);
    assert [t, t, t, t] + [t] == FIVE;
    assert [] + Nine() == Nine();
  }

  lemma FixedLits()
    ensures FixedCodes().ll == FixedLl()
  {
  }

  lemma NoneYet(c: Codes)
    ensures AllCoded(c, []) && Reachable([], []) && TokensBits(c, []) == [] && Expand([], []) == []
  {
  }

  lemma TokensNext(c: Codes, ts: seq<Token>, t: Token)
    requires AllCoded(c, ts) && Coded(c, t) && t.Lit? && Reachable([], ts)
    ensures AllCoded(c, ts + [t]) && TokensBits(c, ts + [t]) == TokensBits(c, ts) + SymBits(c.ll, t.b)
    ensures Reachable([], ts + [t]) && Expand([], ts + [t]) == Expand([], ts) + [t.b]
  {
    assert (ts + [t])[..|ts|] == ts;
  }

  lemma SevenBits()
    ensures BytesBits(SEVEN) == ToBits(2, 3) + (Nine() + Nine() + Nine() + Nine() + Nine() + Nine()[..8])
  {
    hide BytesBits, ToBits, Nine;
    SevenBytes();
    EachByte();
    var n := Nine();
    Rejoin(ToBits(2, 3), n, 5, n[..4]);
    Rejoin(ToBits(2, 3) + n, n, 4, n[..3]);
    Rejoin(ToBits(2, 3) + n + n, n, 3, n[..2]);
    Rejoin(ToBits(2, 3) + n + n + n, n, 2, n[..1]);
    Rejoin(ToBits(2, 3) + n + n + n + n, n, 1, []);
    assert n[1..] + [] == n[1..];
    Group(ToBits(2, 3), n, n[..8]);
  }

  lemma Rejoin(x: seq<bool>, n: seq<bool>, k: nat, y: seq<bool>)
    requires k <= |n|
    ensures x + n[..k] + (n[k..] + y) == x + n + y
  {
  }

  lemma Group(h: seq<bool>, n: seq<bool>, e: seq<bool>)
    ensures h + n + n + n + n + n + [] + e == h + (n + n + n + n + n + e)
  {
  }

  lemma EachByte()
    ensures |Nine()| == 9 && ToBits(154, 8) == ToBits(2, 3) + Nine()[..5] && ToBits(48, 8) == Nine()[5..] + Nine()[..4]
    ensures ToBits(97, 8) == Nine()[4..] + Nine()[..3] && ToBits(194, 8) == Nine()[3..] + Nine()[..2]
    ensures ToBits(132, 8) == Nine()[2..] + Nine()[..1] && ToBits(9, 8) == Nine()[1..] && ToBits(19, 8) == Nine()[..8]
  {
    hide ToBits;
    ByteIs(154, false, true, false, true, true, false, false, true);
    ByteIs(48, false, false, false, false, true, true, false, false);
    ByteIs(97, true, false, false, false, false, true, true, false);
    ByteIs(194, false, true, false, false, false, false, true, true);
    ByteIs(132, false, false, true, false, false, false, false, true);
    ByteIs(9, true, false, false, true, false, false, false, false);
    ByteIs(19, true, true, false, false, true, false, false, false);
    TwoIs();
    NineCut();
  }

  lemma TwoIs()
    ensures ToBits(2, 3) == [false, true, false]
  {
  }

  lemma NineCut()
    ensures Nine()[..5] == [true, true, false, false, true] && Nine()[5..] == [false, false, false, false]
    ensures Nine()[..4] == [true, true, false, false] && Nine()[4..] == [true, false, false, false, false]
    ensures Nine()[..3] == [true, true, false] && Nine()[3..] == [false, true, false, false, false, false]
    ensures Nine()[..2] == [true, true] && Nine()[2..] == [false, false, true, false, false, false, false]
    ensures Nine()[..1] == [true] && Nine()[1..] == [true, false, false, true, false, false, false, false]
    ensures Nine()[..8] == [true, true, false, false, true, false, false, false]
  {
  }

  function Bit(b: bool): nat { if b then 1 else 0 }

  lemma ByteIs(v: nat, a: bool, b: bool, c: bool, d: bool, e: bool, f: bool, g: bool, h: bool)
    requires v == Bit(a) + 2 * (Bit(b) + 2 * (Bit(c) + 2 * (Bit(d) +
                  2 * (Bit(e) + 2 * (Bit(f) + 2 * (Bit(g) + 2 * Bit(h)))))))
    ensures ToBits(v, 8) == [a, b, c, d, e, f, g, h]
  {
    hide ToBits, Bit;
    var r7 := Bit(h);
    var r6 := Bit(g) + 2 * r7;
    var r5 := Bit(f) + 2 * r6;
    var r4 := Bit(e) + 2 * r5;
    NextBit(r7, h, 0, []);
    NextBit(r6, g, r7, [h]);
    NextBit(r5, f, r6, [g, h]);
    NextBit(r4, e, r5, [f, g, h]);
    FourMore(v, a, b, c, d, r4, [e, f, g, h]);
  }

  lemma FourMore(v: nat, a: bool, b: bool, c: bool, d: bool, r: nat, s: seq<bool>)
    requires v == Bit(a) + 2 * (Bit(b) + 2 * (Bit(c) + 2 * (Bit(d) + 2 * r))) && ToBits(r, |s|) == s
    ensures ToBits(v, |s| + 4) == [a, b, c, d] + s
  {
    hide ToBits, Bit;
    var r3 := Bit(d) + 2 * r;
    var r2 := Bit(c) + 2 * r3;
    var r1 := Bit(b) + 2 * r2;
    NextBit(r3, d, r, s);
    NextBit(r2, c, r3, [d] + s);
    NextBit(r1, b, r2, [c] + ([d] + s));
    NextBit(v, a, r1, [b] + ([c] + ([d] + s)));
    assert [a] + ([b] + ([c] + ([d] + s))) == [a, b, c, d] + s;
  }

  lemma NextBit(v: nat, b: bool, rest: nat, s: seq<bool>)
    requires v == Bit(b) + 2 * rest && (s == [] || ToBits(rest, |s|) == s)
    ensures ToBits(v, |s| + 1) == [b] + s
  {
  }

  lemma SevenBytes()
    ensures BytesBits(SEVEN) == ToBits(154, 8) + ToBits(48, 8) + ToBits(97, 8) + ToBits(194, 8) + ToBits(132, 8) +
            ToBits(9, 8) + ToBits(19, 8)
  {
    hide BytesBits, ToBits;
    NoBytes();
    BytesBitsPush([], 154);
    BytesBitsPush([154], 48);
    BytesBitsPush([154, 48], 97);
    BytesBitsPush([154, 48, 97], 194);
    BytesBitsPush([154, 48, 97, 194], 132);
    BytesBitsPush([154, 48, 97, 194, 132], 9);
    BytesBitsPush([154, 48, 97, 194, 132, 9], 19);
    assert [] + ToBits(154, 8) == ToBits(154, 8);
    assert [] + [154] == [154] && [154] + [48] == [154, 48] && [154, 48] + [97] == [154, 48, 97];
    assert [154, 48, 97] + [194] == [154, 48, 97, 194] && [154, 48, 97, 194] + [132] == [154, 48, 97, 194, 132];
    assert [154, 48, 97, 194, 132] + [9] == [154, 48, 97, 194, 132, 9] && [154, 48, 97, 194, 132, 9] + [19] == SEVEN;
  }

  /** What follows the header of the block. */
  ghost function AfterHeader(): seq<bool> { TokensBits(FixedCodes(), FIVE) + Nine()[..8] }

  /** The header of the block is read. */
  lemma SevenHeader(s: State) returns (a: State)
    requires s == State(Type, false, false, [], BytesBits(SEVEN))
    ensures a == State(Len(FixedCodes()), false, false, [], AfterHeader()) && Quiet(s, a)
  {
    hide FixedLl, FixedDl, Step, Quiet, TokensBits, BytesBits, Nine;
    FiveBits();
    SevenBits();
    TypeRead(s, 1, false, AfterHeader());
    a := s.(mode := Len(FixedCodes()), last := false, q := AfterHeader());
    QuietStep(s, a);
  }

  /** With this input the machine comes to wait with eight bits. */
  lemma SevenWait(s: State) returns (t: State)
    requires s == State(Type, false, false, [], BytesBits(SEVEN))
    ensures t == State(Len(FixedCodes()), false, false, [144, 144, 144, 144, 144], Nine()[..8])
    ensures Quiet(s, t) && Step(t) == None
  {
    hide FixedLl, FixedDl, Step, Quiet, TokensBits, Reachable, BytesBits, UsableCodes, Kraft, Waits, AllCoded;
    FiveBits();
    FixedUsable();
    var a := SevenHeader(s);
    t := State(Len(FixedCodes()), false, false, [144, 144, 144, 144, 144], Nine()[..8]);
    TokensSteps(a, FixedCodes(), FIVE, t.q);
    QuietTrans(s, a, t);
    EightWait();
    Waiting(t);
  }

  lemma EightWait()
    ensures Waits(FixedLl(), Nine()[..8])
  {
    hide FixedLl, Kraft, Waits;
    Code144();
    FixedComplete();
    FixedGood();
    BeginningWaits(FixedLl(), 144, 8);
  }

  lemma Waiting(t: State)
    requires t.mode.Len? && Waits(t.mode.c.ll, t.q)
    ensures Step(t) == None
  {
    hide DecodeSym;
    StepLen(t, t.mode.c);
  }

  /** Where a call without want of space ends is where the machine waits. */
  lemma RestsAt(s: State, t: State, u: State, n: nat)
    requires Ok(s) && Quiet(s, t) && Step(t) == None && Reaches(s, u) && |t.out| < n
    requires Step(u) == None || |u.out| == n
    ensures u == t
  {
    hide Step, Reaches, Quiet, Ok, Steps;
    QuietReaches(s, t);
    Linear(s, t, u);
    if Reaches(t, u) {
      AtRest(t, u);
    } else {
      Further(u, t);
      AtRest(u, t);
    }
  }

  lemma Further(u: State, t: State)
    requires Reaches(u, t)
    ensures |u.out| <= |t.out|
  {
    hide Step, Steps;
    var k: nat :| Steps(u, t, k);
    OutputGrows(u, t, k);
  }

  /** inflate calls inflate_fast with eight bits in the accumulator, when six more bytes of input come
      after these seven. */
  method FastWithEight() returns (z: Inflater)
    ensures AtFast(z) && z.r.bits == 8 && z.hist == [144, 144, 144, 144, 144]
  {
    hide Step, Reaches, Quiet, Ok, BytesBits, FixedLl, Inflater.Valid, Kraft;
    z := new Inflater(false);
    ghost var s := Feed(z.Abs(), BytesBits(SEVEN));
    assert [] + BytesBits(SEVEN) == BytesBits(SEVEN);
    ghost var t := SevenWait(s);
    StartsOk();
    FeedOk(State(Type, false, false, [], []), BytesBits(SEVEN));
    var ret, put := z.Inflate(SEVEN, 258, false);
    if z.Overran(s) { NeverReads(s, t, z.full); }
    AbsOut(z);
    RestsAt(s, t, z.Abs(), 258);
    HeldAll(z);
    z.Supply([0, 0, 0, 0, 0, 0], 258);
  }

  lemma StartsOk()
    ensures Ok(State(Type, false, false, [], []))
  {
  }

  lemma AbsOut(z: Inflater)
    requires z.out == []
    ensures z.Abs().out == z.hist
  {
    hide Stream, Aligned;
  }

  lemma AbsAtLen(z: Inflater)
    requires z.Abs().mode.Len?
    ensures z.mode == LEN && z.Abs().q == z.r.Q()
  {
    hide Stream, Aligned;
  }

  lemma HeldAll(z: Inflater)
    requires z.Valid() && z.Abs().mode.Len?
    ensures z.mode == LEN && (z.r.input == [] ==> z.r.bits == |z.Abs().q|)
  {
    hide *;
    AbsAtLen(z);
    z.r.StreamSize();
  }
}
