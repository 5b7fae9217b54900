/** inflate of inflate.c, for a raw or zlib stream after its header, without flushing: the machine
    on its bit accumulator, decoding tables and ring-buffer window refines the machine of the format. */
module Inflate {
  import opened Bits
  import opened Canonical
  import opened DecodeTable
  import opened BitWriter
  import opened Adler
  import opened Format
  import opened Codec
  import opened Fixed
  import opened TreeHeader
  import opened InflateTable
  import opened TableSpace
  import opened Blocks
  import opened Feeding
  import opened Lookup
  import opened BitReader
  import opened SymbolReader
  import opened InflateSteps
  import Ring

  datatype ZMode =
    | TYPE | STORED | COPY | TABLE | LENLENS | CODELENS | LEN | LENEXT | DIST | DISTEXT | MATCH | LIT
    | CHECK | DONE | BAD

  /** The mode of the format's machine that the fields of inflate_state stand for. */
  function ModeOf(z: ZMode, length: nat, offset: nat, extra: nat, nlen: nat, ndist: nat, ncode: nat,
                  got: seq<nat>, cl: seq<nat>, c: Codes): Mode {
    match z
    case TYPE => Type
    case STORED => Stored
    case COPY => Copy(length)
    case TABLE => Table
    case LENLENS => LenLens(nlen, ndist, ncode, got)
    case CODELENS => CodeLens(nlen, ndist, cl, got)
    case LEN => Len(c)
    case LENEXT => LenExt(c, length, extra)
    case DIST => Dist(c, length)
    case DISTEXT => DistExt(c, length, offset, extra)
    case MATCH => Copying(c, length, offset)
    case LIT => Literal(c, length)
    case CHECK => Check
    case DONE => Done
    case BAD => Bad
  }

  datatype Ret = ZOk | StreamEnd | DataError | BufError

  predicate InCodes(z: ZMode) { z == LEN || z == LENEXT || z == DIST || z == DISTEXT || z == MATCH || z == LIT }

  /** How far a mode is from one that uses bits; what a step does not use up in bits it does here. */
  function Rank(z: ZMode, length: nat): nat {
    match z
    case LENEXT => 1002
    case DIST => 1001
    case DISTEXT => 1000
    case MATCH => 10 + length
    case STORED => 9
    case LENLENS => 8
    case CODELENS => 7
    case COPY => 6
    case TYPE => 5
    case CHECK => 4
    case DONE => 3
    case LIT => 2
    case LEN => 1
    case TABLE => 1
    case BAD => 0
  }

  /** inflate_table has no space for the tables of these code lengths. */
  ghost predicate NoSpace(nlen: nat, got: seq<nat>)
    requires nlen <= |got|
  {
    (Acceptable(LENS, got[..nlen]) && TooBig(LENS, TableSize(got[..nlen], 9))) ||
    (Acceptable(DISTS, got[nlen..]) && TooBig(DISTS, TableSize(got[nlen..], 6)))
  }

  /** All code lengths of a block have been read, and its tables would be larger than the space for
      them. */
  ghost predicate Oversized(s: State) {
    s.mode.CodeLens? && s.mode.nlen <= |s.mode.got| && NoSpace(s.mode.nlen, s.mode.got)
  }

  class Inflater {
    const r: BitReader
    const ring: Ring.Ring
    const wrap: bool
    const lens: array<nat>
    const work: array<nat>
    const codes: array<Code>
    var mode: ZMode
    var last: bool
    var length: nat
    var offset: nat
    var extra: nat
    var nlen: nat
    var ndist: nat
    var ncode: nat
    var have: nat
    var lencode: seq<Code>     // the table that lencode points to
    var distcode: seq<Code>
    var lenbits: nat
    var distbits: nat
    var check: nat
    var out: seq<Byte>         // output of this call
    var left: nat              // avail_out
    var checked: nat           // bytes of out that check covers
    ghost var avail: nat       // avail_out at the start of this call
    ghost var hist: seq<Byte>  // output of the calls before
    ghost var got: seq<nat>    // code lengths read so far
    ghost var cl: seq<nat>     // lengths of the code-length code
    ghost var c: Codes         // code lengths in force
    ghost var overrun: bool    // inflate_table has reported a lack of space
    ghost var full: State      // the state in which it did

    /** The state after the stream's header, with wbits = 15. */
    constructor (wrap: bool)
      ensures Valid() && !overrun && out == hist == [] && fresh(r) && fresh(ring) && fresh(ring.window)
      ensures fresh(lens) && fresh(work) && fresh(codes)
      ensures Abs() == State(Type, false, wrap, [], [])
    {
      r := new BitReader();
      ring := new Ring.Ring();
      this.wrap := wrap;
      lens, work, codes := new nat[320], new nat[288], new Code[ENOUGH_LENS + ENOUGH_DISTS];
      mode, last := TYPE, false;
      length, offset, extra, nlen, ndist, ncode, have := 0, 0, 0, 0, 0, 0, 0;
      lencode, distcode, lenbits, distbits := [], [], 0, 0;
      check, out, left, checked := 1, [], 0, 0;
      avail, hist, got, cl, c, overrun, full := 0, [], [], [], Codes([], []), false, State(Type, false, wrap, [], []);
      new;
      EmptyStart();
    }

    lemma EmptyStart()
      ensures Adler32Of([]) == 1 && Stream(0, 0, []) == []
    {
    }

    ghost function AMode(): Mode
      reads this
    {
      ModeOf(mode, length, offset, extra, nlen, ndist, ncode, got, cl, c)
    }

    /** The state of the format's machine. */
    ghost function Abs(): State
      reads this, r
    {
      State(AMode(), last, wrap, hist + out, if mode == BAD then [] else if mode == STORED then Aligned(r.Q())
                                             else r.Q())
    }

    /** The same with only the bits in the accumulator. */
    ghost function AbsHeld(): State
      requires r.Valid()
      reads this, r
    {
      State(AMode(), last, wrap, hist + out, if mode == STORED then Aligned(Held(r)) else Held(r))
    }

    ghost predicate Shape() {
      lens.Length == 320 && work.Length == 288 && codes.Length == ENOUGH_LENS + ENOUGH_DISTS && lens != work &&
      ring.window.Length == Ring.WSIZE
    }

    ghost predicate TablesReady()
      reads this`mode, this`lencode, this`lenbits, this`distcode, this`distbits, this`c, this`cl
    {
      (InCodes(mode) ==> Decodes(lencode, lenbits, LENS, c.ll) && Decodes(distcode, distbits, DISTS, c.dl)) &&
      (mode == CODELENS ==> Decodes(lencode, lenbits, CODES, cl) && NoLinks(lencode, lenbits))
    }

    /** The code lengths read so far are in the array. */
    ghost predicate LensRead()
      reads this`mode, this`have, this`got, lens
    {
      lens.Length == 320 &&
      (mode == LENLENS ==>
         |got| == have <= 19 && forall i :: 0 <= i < have ==> ORDER[i] < 19 && lens[ORDER[i]] == got[i]) &&
      (mode == CODELENS ==> have <= 320 && got == lens[..have])
    }

    /** More than 7 bits are kept in the accumulator only when they were not enough for a step. */
    ghost predicate Lean()
      reads this, r
    {
      r.Valid() && (r.bits <= 7 || Step(AbsHeld()) == None) && (mode == COPY ==> r.bits == 0) &&
      (mode == CHECK ==> r.bits % 8 == 0)
    }

    /** The check value covers the output it is said to. */
    ghost predicate Summed()
      reads this`out, this`left, this`avail, this`check, this`checked, this`hist
    {
      checked <= |out| && |out| + left == avail && (wrap ==> check == Adler32Of(hist + out[..checked]))
    }

    /** The window has the output before this call. */
    ghost predicate Flowing()
      reads this`checked, this`hist, ring, ring.window
    {
      checked == 0 && ring.Holds(hist)
    }

    predicate PastBlocks()
      reads this`mode
    {
      mode == CHECK || mode == DONE || mode == BAD
    }

    ghost predicate Valid()
      reads this, r, ring, ring.window, lens
    {
      Shape() && TablesReady() && LensRead() && Lean() && Summed() && (PastBlocks() || Flowing()) && Ok(Abs())
    }

    /** A new state outside the decoding of codes. */
    lemma Settle()
      requires Shape() && r.Valid() && r.bits <= 7 && Summed() && (PastBlocks() || Flowing()) && Ok(Abs())
      requires mode == TYPE || mode == STORED || mode == TABLE || PastBlocks()
      requires mode == CHECK ==> r.bits == 0
      ensures Valid()
    {
    }

    /** A new state within the decoding of codes. */
    lemma SettleCodes()
      requires Shape() && r.Valid() && r.bits <= 7 && Summed() && Flowing() && Ok(Abs()) && InCodes(mode)
      requires Decodes(lencode, lenbits, LENS, c.ll) && Decodes(distcode, distbits, DISTS, c.dl)
      ensures Valid()
    {
    }

    /** The same state with no input left. */
    lemma SettleWait()
      requires Shape() && r.Valid() && r.input == [] && Step(Abs()) == None && mode != BAD && mode != COPY
      requires mode == CHECK ==> r.bits % 8 == 0
      requires Summed() && (PastBlocks() || Flowing()) && Ok(Abs()) && TablesReady() && LensRead()
      ensures Valid()
    {
      hide Ok, Step, Decodes, Stream, Aligned, NoLinks;
      HeldAll();
    }

    /** inflate_table has run out of space for code lengths that the format's machine comes to from s. */
    ghost predicate Overran(s: State)
      reads this`overrun, this`full
    {
      overrun && Oversized(full) && Reaches(s, full)
    }

    /** What the present state is reached from is reached from s. */
    lemma CameFrom(s: State, t: State)
      requires Reaches(s, t) && (Overran(t) || Reaches(t, Abs()))
      ensures (Overran(s) || Reaches(s, Abs())) && (Overran(t) ==> Overran(s))
    {
      hide Reaches, Oversized, Abs, Step;
      if Reaches(t, Abs()) { ReachesTrans(s, t, Abs()); }
      if Overran(t) { ReachesTrans(s, t, full); }
    }

    /** There is nothing to be done before more input or output space comes; waiting for input, all of
        it is in the accumulator. */
    ghost predicate Stuck()
      reads this, r
    {
      (Step(Abs()) == None && (mode == DONE || mode == BAD || r.input == [])) || (NeedsSpace(Abs()) && left == 0)
    }

    /** What a state of the machine leaves behind: a state that the format's machine comes to from s,
        and either nothing more to do or less to do than before. */
    ghost predicate Done(s: State, q: nat, rank: nat, leave: bool)
      reads this, r, ring, ring.window, lens
    {
      Valid() && (Overran(s) || Reaches(s, Abs())) &&
      if leave then Stuck() else |r.Q()| < q || (|r.Q()| == q && Rank(mode, length) < rank)
    }

    // ----- block headers -----

    /** The last block is done. */
    method EndBlocks()
      requires Valid() && mode == TYPE && last
      modifies r, this`mode
      ensures Valid() && Reaches(old(Abs()), Abs()) && mode == CHECK && |r.Q()| <= |old(r.Q())|
    {
      hide Decodes, Step, Reaches, Stream, Aligned, Ok, Summed, Flowing, TablesReady, LensRead, Lean;
      ghost var s := Abs();
      TypeBits(s);
      TypeLast(s);
      r.ByteBits();
      mode := CHECK;
      ReachesStep(s, Abs());
      OkReaches(s, Abs());
      AlignedSize(s.q);
      Settle();
    }

    /** Go on in mode m, outside the decoding of codes, which is where one step from s leads. */
    method Move(m: ZMode, ghost s: State)
      requires Shape() && r.Valid() && r.bits <= 7 && Summed() && Flowing() && Ok(s)
      requires m == TYPE || m == STORED || m == TABLE
      requires Step(s) == Some(State(ModeOf(m, length, offset, extra, nlen, ndist, ncode, got, cl, c), last, wrap,
                                     hist + out,
                                     if m == STORED then Aligned(r.Q()) else r.Q()))
      modifies this`mode
      ensures Valid() && Reaches(s, Abs()) && mode == m
    {
      hide Step, Reaches, Ok, Summed, Flowing, Valid, Stream, Aligned, Pow2;
      mode := m;
      ReachesStep(s, Abs());
      OkReaches(s, Abs());
      Settle();
    }

    /** Start a block of the kind read. */
    method StartBlock(kind: nat, lenfix: seq<Code>, distfix: seq<Code>, ghost s: State, ghost b: nat)
      requires Shape() && r.Valid() && r.bits <= 7 && mode == TYPE && Summed() && Flowing()
      requires Decodes(lenfix, 9, LENS, FixedLl()) && Decodes(distfix, 5, DISTS, FixedDl())
      requires Ok(s) && s.mode == Type && !s.last && |s.q| >= 3 && b == FromBits(s.q[..1])
      requires kind == FromBits(s.q[1..][..2])
      requires last == (b == 1) && r.Q() == s.q[1..][2..] && wrap == s.wrap && hist + out == s.out
      modifies this`mode, this`lencode, this`distcode, this`lenbits, this`distbits, this`c
      ensures Valid() && Reaches(s, Abs())
    {
      hide Decodes, FixedLl, FixedDl, FromBits, Step, Reaches, Stream, Aligned, Ok, Summed, Flowing, TablesReady,
           LensRead, Lean, Valid, GoodLens, Scant, Acceptable, Kraft, ValidLens, Pow2, Low, High;
      TypeFull(s, b, kind);
      if kind == 0 {
        Move(STORED, s);
      } else if kind == 1 {
        lencode, lenbits, distcode, distbits := lenfix, 9, distfix, 5;
        c := FixedCodes();
        Enter(LEN, s);
      } else if kind == 2 {
        Move(TABLE, s);
      } else {
        ReachesStep(s, Step(s).v);
        GoBad(s, Step(s).v);
      }
    }

    /** case TYPEDO */
    method DoType(lenfix: seq<Code>, distfix: seq<Code>) returns (leave: bool)
      requires Valid() && mode == TYPE
      requires Decodes(lenfix, 9, LENS, FixedLl()) && Decodes(distfix, 5, DISTS, FixedDl())
      modifies r, this`mode, this`last, this`lencode, this`distcode, this`lenbits, this`distbits, this`c
      ensures Done(old(Abs()), old(|r.Q()|), old(Rank(mode, length)), leave)
    {
      hide Decodes, FixedLl, FixedDl, FromBits, Step, Reaches, Stream, Aligned, Ok, Summed, Flowing, TablesReady,
           LensRead, Lean;
      ghost var s := Abs();
      if last {
        EndBlocks();
        return false;
      }
      TypeBits(s);
      r.StreamSize();
      var ok := r.NeedBits(3);
      if !ok {
        r.StreamSize();
        TypeShort(s);
        ReachesSelf(s);
        SettleWait();
        return true;
      }
      r.StreamSize();
      var b := r.TakeBits(1);
      last := b == 1;
      var kind := r.TakeBits(2);
      StartBlock(kind, lenfix, distfix, s, b);
      leave := false;
    }

    /** The length words of a stored block are in the accumulator. */
    method StoredLength(ghost s: State)
      requires Shape() && r.Valid() && r.bits == 32 && mode == STORED && Summed() && Flowing()
      requires Ok(s) && s.mode == Stored && r.Q() == s.q && wrap == s.wrap && hist + out == s.out && last == s.last
      modifies r, this`mode, this`length
      ensures Valid() && Reaches(s, Abs()) && |r.Q()| < |s.q|
    {
      hide Decodes, FromBits, Step, Reaches, Stream, Aligned, Ok, Summed, Flowing, TablesReady, LensRead, Lean, Low,
           High, Pow2, Valid;
      StreamDrop(r.hold, r.bits, r.input, 16);
      StreamDrop(High(r.hold, 16), r.bits - 16, r.input, 16);
      r.StreamSize();
      var lo, hi := Low(r.hold, 16), Low(High(r.hold, 16), 16);
      StoredFull(s, lo, hi);
      if lo != 65535 - hi {  // hi ^ 0xffff
        mode := BAD;
        r.InitBits();
        ReachesStep(s, Abs());
        OkReaches(s, Abs());
        Settle();
      } else {
        length := lo;
        r.InitBits();
        mode := COPY;
        ReachesStep(s, Abs());
        OkReaches(s, Abs());
        SettleCopy();
      }
    }

    /** case STORED */
    method DoStored() returns (leave: bool)
      requires Valid() && mode == STORED
      modifies r, this`mode, this`length
      ensures Done(old(Abs()), old(|r.Q()|), old(Rank(mode, length)), leave)
    {
      hide Decodes, FromBits, Step, Reaches, Stream, Aligned, Ok, Summed, Flowing, TablesReady, LensRead, Lean, Low,
           High, Pow2;
      ghost var s, q0 := Abs(), r.Q();
      StoredBits(s);
      r.ByteBits();
      AlignedTwice(q0);
      var ok := r.NeedBits(32);
      r.StreamSize();
      AlignedSize(q0);
      if !ok {
        StoredShort(s);
        ReachesSelf(s);
        SettleWait();
        return true;
      }
      StoredLength(s);
      leave := false;
    }

    lemma StoredBits(s: State)
      requires Valid() && mode == STORED && s == Abs()
      ensures r.Valid() && r.bits <= 31
    {
      hide FromBits, Stream, Adler32Of, Ring.Keeps;
      if r.bits > 31 {
        AlignedSize(Held(r));
        StoredGoes(AbsHeld());
      }
    }

    lemma SettleCopy()
      requires Shape() && r.Valid() && r.bits == 0 && Summed() && Flowing() && Ok(Abs()) && mode == COPY
      ensures Valid()
    {
      hide Ok, Summed, Flowing;
    }

    /** Copying a stored block goes on after some bytes. */
    lemma CopyOn(s: State, bytes: seq<Byte>)
      requires Shape() && r.Valid() && r.bits == 0 && Summed() && Flowing() && mode == COPY && Ok(s)
      requires s.mode == Copy(length + |bytes|)
      requires s.q == BytesBits(bytes) + r.Q() && s.out + bytes == hist + out && s.wrap == wrap && s.last == last
      ensures Valid() && Reaches(s, Abs())
    {
      hide Step, Reaches, Stream, Ok, Summed, Flowing, Valid, BytesBits, Pow2, Shape;
      CopyPart(s, bytes, r.Q());
      OkReaches(s, Abs());
      SettleCopy();
    }

    /** Copy stored bytes from the input to the output. */
    method CopySome(copy: nat)
      requires Valid() && mode == COPY && 0 < copy <= length && copy <= left && copy <= |r.input|
      modifies r, this`length, this`out, this`left
      ensures Valid() && mode == COPY && Reaches(old(Abs()), Abs()) && |r.Q()| < |old(r.Q())|
    {
      hide Decodes, FromBits, Step, Reaches, Stream, Aligned, Ok, Summed, Flowing, TablesReady, LensRead, Lean,
           BytesBits, Valid, GoodLens, Scant, Acceptable, Kraft, ValidLens, Pow2, Low, High;
      ghost var s := Abs();
      CopyBits(s);
      ghost var bytes, rest := r.input[..copy], r.input[copy..];
      assert r.input == bytes + rest;
      BytesBitsConcat(bytes, rest);
      out := out + r.input[..copy];
      left := left - copy;
      r.input := r.input[copy..];
      length := length - copy;
      StreamEmpty(r.hold, r.input);
      SummedMore(bytes);
      CopyOn(s, bytes);
    }

    /** case COPY */
    method DoCopy() returns (leave: bool)
      requires Valid() && mode == COPY
      modifies r, this`mode, this`length, this`out, this`left
      ensures Done(old(Abs()), old(|r.Q()|), old(Rank(mode, length)), leave)
    {
      hide Decodes, FromBits, Step, Reaches, Stream, Aligned, Ok, Summed, Flowing, TablesReady, LensRead, Lean,
           BytesBits;
      ghost var s := Abs();
      CopyBits(s);
      var copy := length;
      if copy == 0 {
        mode := TYPE;
        StepCopied(s);
        ReachesStep(s, Abs());
        OkReaches(s, Abs());
        Settle();
        return false;
      }
      if copy > |r.input| { copy := |r.input|; }
      if copy > left { copy := left; }
      if copy == 0 {
        ReachesSelf(s);
        if r.input == [] { CopyShort(s); }
        return true;
      }
      CopySome(copy);
      leave := false;
    }

    lemma CopyBits(s: State)
      requires Valid() && mode == COPY && s == Abs()
      ensures r.Valid() && r.bits == 0 && s.mode == Copy(length) && s.q == r.Q() == BytesBits(r.input) && Ok(s)
      ensures Summed() && Flowing() && Shape()
    {
      hide FromBits, Stream, Adler32Of, Ring.Keeps, Ok, BytesBits;
      StreamEmpty(r.hold, r.input);
    }

    /** Output more does not change what the check value covers. */
    twostate lemma SummedMore(bytes: seq<Byte>)
      requires old(Summed()) && out == old(out) + bytes && left + |bytes| == old(left)
      requires checked == old(checked) && check == old(check) && hist == old(hist) && avail == old(avail)
      ensures Summed()
    {
      hide Adler32Of;
      assert out[..checked] == old(out)[..checked];
    }

    /** Take the numbers of codes out of the accumulator. */
    method TakeSizes(ghost q: seq<bool>) returns (ghost a: nat, ghost b: nat, ghost d: nat)
      requires r.Valid() && 14 <= r.bits <= 21 && r.Q() == q
      modifies r, this`nlen, this`ndist, this`ncode
      ensures r.Valid() && r.bits <= 7 && |q| >= 14 && r.Q() == q[5..][5..][4..] && |r.Q()| < |q|
      ensures a == FromBits(q[..5]) && b == FromBits(q[5..][..5]) && d == FromBits(q[5..][5..][..4])
      ensures nlen == a + 257 && ndist == b + 1 && ncode == d + 4
    {
      hide FromBits, Stream, Pow2;
      r.StreamSize();
      var v := r.TakeBits(5);
      a := v;
      nlen := v + 257;
      v := r.TakeBits(5);
      b := v;
      ndist := v + 1;
      v := r.TakeBits(4);
      d := v;
      ncode := v + 4;
    }

    /** Reading the lengths of the code-length code goes on. */
    lemma LenLensOn(s: State)
      requires Shape() && r.Valid() && r.bits <= 7 && Summed() && Flowing() && LensRead() && mode == LENLENS && Ok(s)
      requires Step(s) == Some(State(LenLens(nlen, ndist, ncode, got), last, wrap, hist + out, r.Q()))
      ensures Valid() && Reaches(s, Abs())
    {
      hide Step, Reaches, Ok, Summed, Flowing, Valid, Stream, Aligned, Pow2, LensRead;
      ReachesStep(s, Abs());
      OkReaches(s, Abs());
      SettleLens();
    }

    /** The numbers of codes are in the accumulator. */
    method TableSizes(ghost s: State)
      requires Shape() && r.Valid() && 14 <= r.bits <= 21 && mode == TABLE && Summed() && Flowing()
      requires Ok(s) && s.mode == Table && r.Q() == s.q && wrap == s.wrap && hist + out == s.out && last == s.last
      modifies r, this`mode, this`nlen, this`ndist, this`ncode, this`have, this`got
      ensures Valid() && Reaches(s, Abs()) && |r.Q()| < |s.q|
    {
      hide Decodes, FromBits, Step, Reaches, Stream, Aligned, Ok, Summed, Flowing, Lean, Low, High, Pow2, Valid,
           GoodLens, Scant, Acceptable, Kraft, ValidLens;
      ghost var a, b, d := TakeSizes(s.q);
      TableFull(s, a, b, d);
      if nlen > 286 || ndist > 30 {
        ReachesStep(s, Step(s).v);
        GoBad(s, Step(s).v);
      } else {
        have := 0;
        got := [];
        mode := LENLENS;
        LenLensOn(s);
      }
    }

    /** case TABLE */
    method DoTable() returns (leave: bool)
      requires Valid() && mode == TABLE
      modifies r, this`mode, this`nlen, this`ndist, this`ncode, this`have, this`got
      ensures Done(old(Abs()), old(|r.Q()|), old(Rank(mode, length)), leave)
    {
      hide Decodes, FromBits, Step, Reaches, Stream, Aligned, Ok, Summed, Flowing, TablesReady, LensRead, Lean, Low,
           High, Pow2;
      ghost var s := Abs();
      TableBits(s);
      var ok := r.NeedBits(14);
      r.StreamSize();
      if !ok {
        TableShort(s);
        ReachesSelf(s);
        SettleWait();
        return true;
      }
      TableSizes(s);
      leave := false;
    }

    lemma TableBits(s: State)
      requires Valid() && mode == TABLE && s == Abs()
      ensures r.Valid() && r.bits <= 13
    {
      hide FromBits, Stream, Adler32Of, Ring.Keeps;
      if r.bits > 13 { TableGoes(AbsHeld()); }
    }

    /** One code-length code length, or not ok if the input ends first. */
    method OneLenLen() returns (ok: bool)
      requires Valid() && mode == LENLENS && have < ncode
      modifies r, this`have, this`got, lens
      ensures Valid() && mode == LENLENS && Reaches(old(Abs()), Abs()) && |r.Q()| <= |old(r.Q())|
      ensures if ok then have == old(have) + 1 else Stuck()
    {
      hide Decodes, FromBits, Step, Reaches, Stream, Aligned, Ok, Summed, Flowing, TablesReady, LensRead, Lean, Low,
           High, Pow2, Valid, GoodLens, Scant, Acceptable, Kraft, ValidLens;
      ghost var s := Abs();
      LenLensBits(s);
      ok := r.NeedBits(3);
      r.StreamSize();
      if !ok {
        LenLensShort(s);
        ReachesSelf(s);
        SettleWait();
        return;
      }
      OrderInjective(have, have);
      var v := r.TakeBits(3);
      LenLensFull(s, v);
      lens[ORDER[have]] := v;
      have := have + 1;
      got := got + [v];
      LensReadMore(v);
      LenLensOn(s);
    }

    lemma LenLensBits(s: State)
      requires Valid() && mode == LENLENS && s == Abs() && have < ncode
      ensures r.Valid() && r.bits <= 7 && have < 19 && |got| == have && TablesReady() && LensRead() && Summed()
      ensures Flowing() && Shape()
      ensures Ok(s) && s.mode == LenLens(nlen, ndist, ncode, got) && s.q == r.Q()
    {
      hide FromBits, Stream, Adler32Of, Ring.Keeps;
      if r.bits > 7 { LenLensGoes(AbsHeld()); }
    }

    /** The length read is entered in the array at its place. */
    twostate lemma LensReadMore(v: nat)
      requires old(LensRead()) && old(mode) == LENLENS == mode && old(have) < 19 && have == old(have) + 1
      requires got == old(got) + [v]
      requires lens.Length == 320 && ORDER[old(have)] < 19
      requires forall i :: 0 <= i < 320 ==> lens[i] == if i == ORDER[old(have)] then v else old(lens[i])
      ensures LensRead()
    {
      forall i | 0 <= i < have ensures ORDER[i] < 19 && lens[ORDER[i]] == got[i] {
        OrderInjective(i, old(have));
      }
    }

    /** Build the decoding table for the code lengths from all the code-length code lengths. */
    method LensTable() returns (ret: int)
      requires Shape() && LensRead() && mode == LENLENS && have <= 19 && forall i :: 0 <= i < |got| ==> got[i] < 8
      modifies this`have, this`lencode, this`lenbits, lens, work, codes
      ensures |got| == old(have) && (ret == 0 <==> Acceptable(CODES, Arrange(got)))
      ensures ret == 0 ==> Decodes(lencode, lenbits, CODES, Arrange(got)) && NoLinks(lencode, lenbits)
    {
      hide Decodes, Low, High, Pow2, Acceptable, NoLinks, Arrange, OnlyTable;
      ZeroRest();
      AllArranged();
      var used, root;
      ret, used, root := InflateTable.InflateTable(CODES, lens[..19], codes, 0, 7, work);
      if ret == 0 {
        lencode := codes[0..used];
        lenbits := root;
      }
    }

    /** Go on to the code lengths if they have a usable code. */
    method StartCodeLens(ret: int, ghost s: State)
      requires Shape() && r.Valid() && r.bits <= 7 && Summed() && Flowing() && |got| <= 19
      requires Ok(s) && s.mode == LenLens(nlen, ndist, ncode, got) && r.Q() == s.q && wrap == s.wrap
      requires hist + out == s.out && last == s.last
      requires ncode <= |got| && (ret == 0 <==> Acceptable(CODES, Arrange(got)))
      requires ret == 0 ==> Decodes(lencode, lenbits, CODES, Arrange(got)) && NoLinks(lencode, lenbits)
      modifies this`mode, this`have, this`got, this`cl
      ensures Valid() && Reaches(s, Abs()) && (mode == CODELENS || mode == BAD)
    {
      hide Decodes, FromBits, Step, Reaches, Stream, Aligned, Ok, Summed, Flowing, TablesReady, LensRead, Lean,
           Acceptable, NoLinks, Arrange, Valid, GoodLens, Scant, Kraft, ValidLens, Pow2, Low, High;
      LenLensEnd(s, Arrange(got));
      if ret != 0 {
        ReachesStep(s, Step(s).v);
        GoBad(s, Step(s).v);
      } else {
        cl := Arrange(got);
        have := 0;
        got := [];
        mode := CODELENS;
        ReachesStep(s, Abs());
        OkReaches(s, Abs());
        SettleCodeLens();
      }
    }

    /** All code-length code lengths are read. */
    method BuildLenTable()
      requires Valid() && mode == LENLENS && have == ncode
      modifies this`mode, this`have, this`got, this`cl, this`lencode, this`lenbits, lens, work, codes
      ensures Valid() && Reaches(old(Abs()), Abs()) && (mode == CODELENS || mode == BAD)
    {
      hide Decodes, FromBits, Step, Reaches, Stream, Aligned, Ok, Summed, Flowing, LensRead, Acceptable, NoLinks,
           Arrange, Valid;
      ghost var s := Abs();
      LenLensEndBits(s);
      var ret := LensTable();
      StartCodeLens(ret, s);
    }

    /** The code-length codes not sent have length 0. */
    method ZeroRest()
      requires LensRead() && mode == LENLENS && have <= 19
      modifies this`have, lens
      ensures lens.Length == 320 && |got| == old(have)
      ensures forall i :: 0 <= i < 19 ==> ORDER[i] < 19 && lens[ORDER[i]] == if i < |got| then got[i] else 0
    {
      ghost var n := have;
      while have < 19
        invariant n <= have <= 19 && |got| == n
        invariant forall i :: 0 <= i < have ==> ORDER[i] < 19 && lens[ORDER[i]] == if i < n then got[i] else 0
      {
        forall i | 0 <= i <= have ensures ORDER[i] < 19 &&
        (ORDER[i] == ORDER[have] ==> i == have) { OrderInjective(i, have); }
        lens[ORDER[have]] := 0;
        have := have + 1;
      }
    }

    lemma AllArranged()
      requires lens.Length == 320 && |got| <= 19 && (forall i :: 0 <= i < |got| ==> got[i] < 8)
      requires forall i :: 0 <= i < 19 ==> ORDER[i] < 19 && lens[ORDER[i]] == if i < |got| then got[i] else 0
      ensures lens[..19] == Arrange(got) && forall i :: 0 <= i < 19 ==> lens[..19][i] < 8
      ensures ValidLens(lens[..19]) && Room(CODES, lens[..19], ENOUGH_LENS + ENOUGH_DISTS, 7)
    {
      hide Arrange;
      forall i | 0 <= i < 19 ensures lens[i] == Arrange(got)[i] < 8 {
        var k := OrderOnto(i);
        ArrangeAt(got, k);
      }
      assert Pow2(7) == 128;
    }

    lemma LenLensEndBits(s: State)
      requires Valid() && mode == LENLENS && s == Abs() && have == ncode
      ensures r.Valid() && r.bits <= 7 && |got| == have <= 19 && LensRead() && Summed() && Flowing() && Shape()
      ensures Ok(s) && s.mode == LenLens(nlen, ndist, ncode, got) && s.q == r.Q()
      ensures forall i :: 0 <= i < |got| ==> got[i] < 8
    {
      hide FromBits, Stream, Adler32Of, Ring.Keeps, Acceptable, Arrange;
      if r.bits > 7 { LenLensEnds(AbsHeld()); }
    }

    /** A new state while the code lengths of a block are read. */
    lemma SettleCodeLens()
      requires Shape() && r.Valid() && r.bits <= 7 && Summed() && Flowing() && Ok(Abs()) && mode == CODELENS
      requires have <= 320 && got == lens[..have] && Decodes(lencode, lenbits, CODES, cl) && NoLinks(lencode, lenbits)
      ensures Valid()
    {
      hide Ok, Summed, Flowing, Decodes, NoLinks;
    }

    /** In the state s of the format's machine, but for what is being read. */
    ghost predicate Was(s: State, m: Mode)
      reads this, r
    {
      Ok(s) && s.mode == m && s.q == r.Q() && s.wrap == wrap && s.out == hist + out && s.last == last
    }

    lemma SettleBad()
      requires Shape() && r.Valid() && Summed() && mode == BAD
      ensures Valid()
    {
      hide Summed, Flowing;
    }

    /** The data is bad. */
    method GoBad(ghost s: State, ghost t: State)
      requires Shape() && r.Valid() && Summed() && s.wrap == wrap && s.out == hist + out
      requires Reaches(s, t) && t.mode == Bad && t.q == [] && t.out == s.out && t.wrap == s.wrap && t.last == last
      modifies this`mode
      ensures Valid() && mode == BAD && Reaches(s, Abs())
    {
      hide Step, Reaches, Summed, Flowing, Valid;
      mode := BAD;
      SettleBad();
      assert Abs() == t;
    }

    lemma CodeLensBits(s: State)
      requires Valid() && mode == CODELENS && s == Abs()
      ensures Shape() && Summed() && Flowing() && r.Valid() && have == |got| <= nlen + ndist <= 316
      ensures got == lens[..have] && nlen >= 257
      ensures Was(s, CodeLens(nlen, ndist, cl, got)) && TablesReady() && LensRead() && GoodLens(CODES, cl) && |cl| == 19
      ensures if have < nlen + ndist then Tight(r.Q(), r.bits, cl) else r.bits <= 7
    {
      hide FromBits, Stream, Adler32Of, Ring.Keeps, Acceptable, Kraft, Step, Decodes, NoLinks, DecodeSym, StartsWith;
      if r.bits > 7 { CodeLensWaits(AbsHeld(), r.Q(), r.bits); }
    }

    /** Enter a code length, or more of the same. */
    method FillLens(copy: nat, len: nat)
      requires lens.Length == 320 && have + copy <= 320
      modifies lens, this`have
      ensures have == old(have) + copy && lens[..have] == old(lens[..have]) + seq(copy, _ => len)
    {
      ghost var h := have;
      ghost var n := copy;
      var left := copy;
      while left > 0
        invariant have == h + n - left && left <= n
        invariant forall i :: 0 <= i < have ==> lens[i] == if i < h then old(lens[i]) else len
      {
        lens[have] := len;
        have := have + 1;
        left := left - 1;
      }
    }

    /** The code lengths grow by x, now in the array. */
    method LensGrown(ghost x: seq<nat>, ghost s: State)
      requires Shape() && r.Valid() && Summed() && Flowing() && r.bits <= 7 && mode == CODELENS && have <= 320
      requires Ok(s) && s.mode == CodeLens(nlen, ndist, cl, got) && s.wrap == wrap && s.out == hist + out
      requires s.last == last
      requires Step(s) == Some(s.(mode := CodeLens(nlen, ndist, cl, got + x), q := r.Q()))
      requires Decodes(lencode, lenbits, CODES, cl) && NoLinks(lencode, lenbits) && lens[..have] == got + x
      modifies this`got
      ensures Valid() && Reaches(s, Abs())
    {
      hide Decodes, FromBits, Step, Reaches, Stream, Ok, Summed, Flowing, NoLinks, Valid;
      got := got + x;
      ReachesStep(s, Abs());
      OkReaches(s, Abs());
      SettleCodeLens();
    }

    /** A code of n bits for the code length val. */
    method OneLength(val: nat, n: nat, ghost s: State)
      requires Shape() && r.Valid() && Summed() && Flowing() && n <= r.bits && r.bits - n <= 7 && have < 320
      requires got == lens[..have]
      requires Was(s, CodeLens(nlen, ndist, cl, got)) && Decodes(lencode, lenbits, CODES, cl)
      requires NoLinks(lencode, lenbits) && mode == CODELENS
      requires n <= |s.q| && Step(s) == Some(s.(mode := CodeLens(nlen, ndist, cl, got + [val]), q := s.q[n..]))
      modifies r, this`have, this`got, lens
      ensures Valid() && mode == CODELENS && Reaches(s, Abs()) && have == old(have) + 1 && |r.Q()| <= |s.q|
    {
      hide Decodes, FromBits, Step, Reaches, Stream, Ok, Summed, Flowing, NoLinks, Valid;
      var v := r.TakeBits(n);
      lens[have] := val;
      have := have + 1;
      LensGrown([val], s);
    }

    /** What to repeat, and how often. */
    method RepeatOf(sym: nat) returns (len: nat, copy: nat)
      requires r.Valid() && 16 <= sym <= 18 && RepeatBits(sym) <= r.bits && lens.Length == 320 && have <= 320
      requires sym == 16 ==> have > 0
      modifies r`hold, r`bits
      ensures r.Valid() && r.bits == old(r.bits) - RepeatBits(sym) && RepeatBits(sym) <= |old(r.Q())|
      ensures r.Q() == old(r.Q())[RepeatBits(sym)..]
      ensures len == (if sym == 16 then lens[have - 1] else 0)
      ensures copy == (if sym == 18 then 11 else 3) + FromBits(old(r.Q())[..RepeatBits(sym)])
      ensures copy >= 3
    {
      hide FromBits, Stream, Pow2;
      r.StreamSize();
      var v: nat;
      if sym == 16 {
        len := lens[have - 1];
        v := r.TakeBits(2);
        copy := 3 + v;
      } else if sym == 17 {
        len := 0;
        v := r.TakeBits(3);
        copy := 3 + v;
      } else {
        len := 0;
        v := r.TakeBits(7);
        copy := 11 + v;
      }
    }

    /** Repeat a code length, unless that makes too many. */
    method AddRepeat(copy: nat, len: nat, ghost s: State)
      requires Shape() && r.Valid() && Summed() && Flowing() && have == |got| < nlen + ndist <= 316
      requires got == lens[..have] && copy > 0
      requires Ok(s) && s.mode == CodeLens(nlen, ndist, cl, got) && s.wrap == wrap && s.out == hist + out
      requires s.last == last
      requires r.bits <= 7 && mode == CODELENS && Decodes(lencode, lenbits, CODES, cl) && NoLinks(lencode, lenbits)
      requires Repeats(s, copy, len)
      modifies this`have, this`got, this`mode, lens
      ensures Valid() && (mode == CODELENS || mode == BAD) && Reaches(s, Abs()) && have >= old(have)
      ensures mode == CODELENS ==> have > old(have)
    {
      hide Decodes, Step, Reaches, Stream, Ok, Summed, Flowing, NoLinks, Valid;
      if have + copy > nlen + ndist {
        ReachesStep(s, Step(s).v);
        GoBad(s, Step(s).v);
        return;
      }
      FillLens(copy, len);
      LensGrown(seq(copy, _ => len), s);
    }

    /** Take a code of n bits for a repeat and its extra bits, which are in hand. It is bad if there is
        no length to repeat. */
    method TakeRepeat(sym: nat, n: nat, ghost s: State) returns (bad: bool, len: nat, copy: nat)
      requires lens.Length == 320 && r.Valid() && 16 <= sym <= 18 && have == |got| < nlen + ndist <= 316
      requires got == lens[..have] && n + RepeatBits(sym) <= r.bits <= n + RepeatBits(sym) + 7
      requires s.mode == CodeLens(nlen, ndist, cl, got) && s.q == r.Q() && DecodeSym(cl, s.q) == Found(sym, n)
      modifies r
      ensures r.Valid() && |r.Q()| <= |s.q|
      ensures bad ==> Step(s) == Some(s.(mode := Bad, q := []))
      ensures !bad ==> copy > 0 && r.bits <= 7 && Repeats(s, copy, len)
    {
      hide FromBits, Step, Stream, DecodeSym, Pow2, Low, High, RepeatBits;
      r.StreamSize();
      CodeLensRepeats(s, sym, n);
      var v := r.TakeBits(n);
      if sym == 16 && have == 0 { return true, 0, 0; }
      bad := false;
      len, copy := RepeatOf(sym);
    }

    /** Where repeating a length leads to: too many lengths are bad. */
    ghost predicate Repeats(s: State, copy: nat, len: nat)
      reads this, r
    {
      (have + copy > nlen + ndist ==> Step(s) == Some(s.(mode := Bad, q := []))) &&
      (have + copy <= nlen + ndist ==>
         Step(s) == Some(s.(mode := CodeLens(nlen, ndist, cl, got + seq(copy, _ => len)), q := r.Q())))
    }

    method RepeatLength(sym: nat, n: nat, ghost s: State)
      requires Shape() && r.Valid() && Summed() && Flowing() && 16 <= sym <= 18
      requires have == |got| < nlen + ndist <= 316 && got == lens[..have]
      requires n + RepeatBits(sym) <= r.bits <= n + RepeatBits(sym) + 7 && mode == CODELENS
      requires Was(s, CodeLens(nlen, ndist, cl, got)) && Decodes(lencode, lenbits, CODES, cl)
      requires NoLinks(lencode, lenbits)
      requires DecodeSym(cl, s.q) == Found(sym, n)
      modifies r, this`have, this`got, this`mode, lens
      ensures Valid() && (mode == CODELENS || mode == BAD) && Reaches(s, Abs()) && have >= old(have) && |r.Q()| <= |s.q|
      ensures mode == CODELENS ==> have > old(have)
    {
      hide Decodes, FromBits, Step, Reaches, Stream, Ok, Summed, Flowing, NoLinks, Valid, DecodeSym, Repeats;
      var bad, len, copy := TakeRepeat(sym, n, s);
      if bad {
        ReachesStep(s, Step(s).v);
        GoBad(s, Step(s).v);
        return;
      }
      AddRepeat(copy, len, s);
    }

    /** One code of the code lengths, or not ok if the input ends first. */
    method OneCodeLen() returns (ok: bool)
      requires Valid() && mode == CODELENS && have < nlen + ndist
      modifies r, this`mode, this`have, this`got, lens
      ensures Valid() && Reaches(old(Abs()), Abs()) && |r.Q()| <= |old(r.Q())|
      ensures if ok then mode == BAD || (mode == CODELENS && have > old(have)) else Stuck() && mode == CODELENS
    {
      hide Decodes, FromBits, Step, Reaches, Stream, Ok, Summed, Flowing, NoLinks, Valid, DecodeSym, LensRead, GoodLens,
           Agrees, Pow2, Low, High;
      ghost var s := Abs();
      CodeLensBits(s);
      TableParts();
      var here;
      ok, here := Peek(r, lencode, lenbits, cl);
      if !ok {
        CodeLensMore(s);
        ReachesSelf(s);
        SettleWait();
        return;
      }
      PeekedSym(cl, s.q, here);
      r.StreamSize();
      if here.val < 16 {
        CodeLensLength(s, here.val, here.bits);
        OneLength(here.val, here.bits, s);
        return;
      }
      ok := r.NeedBits(here.bits + RepeatBits(here.val));
      r.StreamSize();
      if !ok {
        CodeLensRepeats(s, here.val, here.bits);
        ReachesSelf(s);
        SettleWait();
        return;
      }
      RepeatLength(here.val, here.bits, s);
    }

    lemma TableParts()
      requires TablesReady() && mode == CODELENS
      ensures Decodes(lencode, lenbits, CODES, cl) && NoLinks(lencode, lenbits)
    {
      hide Decodes, NoLinks;
    }

    /** The decoding tables for the code lengths read, one after the other. */
    method BothTables() returns (ret: int)
      requires Shape() && have == |got| == nlen + ndist && 257 <= nlen <= 286 && 1 <= ndist <= 30
      requires got == lens[..have] && ValidLens(got)
      modifies this`lencode, this`lenbits, this`distcode, this`distbits, work, codes
      ensures ret == 0 || ret == -1 || ret == 1
      ensures ret == 0 ==>
              Decodes(lencode, lenbits, LENS, got[..nlen]) && Decodes(distcode, distbits, DISTS, got[nlen..])
      ensures ret == 0 ==>
              |lencode| + |distcode| <= codes.Length && lencode + distcode == codes[..|lencode| + |distcode|]
      ensures ret == 0 ==> Acceptable(LENS, got[..nlen]) && Acceptable(DISTS, got[nlen..])
      ensures ret == -1 ==> !Acceptable(LENS, got[..nlen]) || !Acceptable(DISTS, got[nlen..])
      ensures ret == 1 ==> NoSpace(nlen, got)
    {
      hide Decodes, Acceptable, TableSize;
      assert lens[..nlen] == got[..nlen] && lens[nlen..nlen + ndist] == got[nlen..];
      var used, used2, root;
      ret, used, root := InflateTable.InflateTable(LENS, lens[..nlen], codes, 0, 9, work);
      if ret != 0 { return; }
      lencode, lenbits := codes[0..used], root;
      ret, used2, root := InflateTable.InflateTable(DISTS, lens[nlen..nlen + ndist], codes, used, 6, work);
      if ret != 0 { return; }
      distcode, distbits := codes[used..used + used2], root;
    }

    /** Go on to the symbols of the block if its codes are usable. */
    method StartCodes(ret: int, ghost s: State)
      requires Shape() && r.Valid() && Summed() && Flowing() && r.bits <= 7 && nlen < |got| == nlen + ndist
      requires nlen > 256 && got[256] != 0
      requires Was(s, CodeLens(nlen, ndist, cl, got)) && (ret == 0 || ret == -1 || ret == 1)
      requires ret == 0 ==>
               Decodes(lencode, lenbits, LENS, got[..nlen]) && Decodes(distcode, distbits, DISTS, got[nlen..])
      requires ret == 0 ==> Acceptable(LENS, got[..nlen]) && Acceptable(DISTS, got[nlen..])
      requires ret == -1 ==> !Acceptable(LENS, got[..nlen]) || !Acceptable(DISTS, got[nlen..])
      requires ret == 1 ==> NoSpace(nlen, got)
      modifies this`mode, this`c, this`overrun, this`full
      ensures Valid() && (mode == LEN || mode == BAD) && (Overran(s) || Reaches(s, Abs())) && (old(overrun) ==> overrun)
      ensures overrun && !old(overrun) ==> mode == BAD && Overran(s)
    {
      hide NoSpace, Decodes, FromBits, Step, Reaches, Stream, Ok, Summed, Flowing, NoLinks, Valid, Acceptable, Pow2,
           Low, High;
      CodeLensEnd(s);
      if ret == -1 {
        ReachesStep(s, Step(s).v);
        GoBad(s, Step(s).v);
      } else if ret == 1 {
        overrun, full := true, s;
        ReachesSelf(s);
        mode := BAD;
        SettleBad();
      } else {
        c := Codes(got[..nlen], got[nlen..]);
        mode := LEN;
        ReachesStep(s, Abs());
        OkReaches(s, Abs());
        SettleCodes();
      }
    }

    /** All code lengths are read. */
    method BuildCodes()
      requires Valid() && mode == CODELENS && have >= nlen + ndist
      modifies this`mode, this`c, this`overrun, this`full, this`lencode, this`lenbits, this`distcode, this`distbits,
               work, codes
      ensures Valid() && (mode == LEN || mode == BAD) && (Overran(old(Abs())) || Reaches(old(Abs()), Abs()))
      ensures (old(overrun) ==> overrun) && (overrun && !old(overrun) ==> mode == BAD && Overran(old(Abs())))
    {
      hide Decodes, FromBits, Step, Reaches, Stream, Ok, Summed, Flowing, NoLinks, Valid, LensRead, GoodLens,
           TablesReady, Pow2, Low, High;
      ghost var s := Abs();
      CodeLensBits(s);
      CodeLensSizes(s);
      if lens[256] == 0 {
        CodeLensEnd(s);
        ReachesStep(s, Step(s).v);
        GoBad(s, Step(s).v);
        return;
      }
      var ret := BothTables();
      StartCodes(ret, s);
    }

    lemma CodeLensSizes(s: State)
      requires Was(s, CodeLens(nlen, ndist, cl, got))
      ensures 257 <= nlen <= 286 && 1 <= ndist <= 30 && ValidLens(got)
    {
      hide GoodLens;
    }

    /** case CODELENS */
    method DoCodeLens() returns (leave: bool)
      requires Valid() && mode == CODELENS
      modifies r, this`mode, this`have, this`got, this`c, this`overrun, this`full, this`lencode, this`lenbits,
               this`distcode, this`distbits, lens, work, codes
      ensures Done(old(Abs()), old(|r.Q()|), old(Rank(mode, length)), leave)
      ensures (old(overrun) ==> overrun) && (overrun && !old(overrun) ==> mode == BAD && Overran(old(Abs())))
    {
      hide Step, Reaches, Stream, Ok, Valid, Aligned, Shape, Oversized, Overran;
      ghost var s, q := Abs(), |r.Q()|;
      ReachesSelf(s);
      while mode == CODELENS && have < nlen + ndist
        invariant Valid() && (mode == CODELENS || mode == BAD) && Reaches(s, Abs()) && |r.Q()| <= q
        invariant overrun == old(overrun)
        decreases mode == CODELENS, nlen + ndist - have
      {
        ghost var t := Abs();
        var ok := OneCodeLen();
        ReachesTrans(s, t, Abs());
        if !ok { return true; }
      }
      if mode != BAD {
        ghost var t := Abs();
        BuildCodes();
        CameFrom(s, t);
      }
      leave := false;
    }

    /** case LENLENS */
    method DoLenLens() returns (leave: bool)
      requires Valid() && mode == LENLENS
      modifies r, this`mode, this`have, this`got, this`cl, this`lencode, this`lenbits, lens, work, codes
      ensures Done(old(Abs()), old(|r.Q()|), old(Rank(mode, length)), leave)
    {
      hide Step, Reaches, Stream, Ok, Valid;
      ghost var s, q := Abs(), |r.Q()|;
      ReachesSelf(s);
      LenLensHave();
      while have < ncode
        invariant Valid() && mode == LENLENS && Reaches(s, Abs()) && |r.Q()| <= q && have <= ncode
        decreases ncode - have
      {
        ghost var t := Abs();
        var ok := OneLenLen();
        ReachesTrans(s, t, Abs());
        if !ok { return true; }
      }
      ghost var t := Abs();
      BuildLenTable();
      ReachesTrans(s, t, Abs());
      leave := false;
    }

    lemma LenLensHave()
      requires Valid() && mode == LENLENS
      ensures have <= ncode
    {
      hide Decodes, FromBits, Step, Reaches, Stream, Aligned, Summed, Flowing, TablesReady, Lean, Low, High, Pow2;
    }

    /** A new state while code lengths are read. */
    lemma SettleLens()
      requires Shape() && r.Valid() && r.bits <= 7 && Summed() && Flowing() && Ok(Abs()) && mode == LENLENS
      requires LensRead()
      ensures Valid()
    {
      hide Ok, Summed, Flowing, LensRead;
    }

    // ----- symbols -----

    /** What is known while symbols are decoded. */
    ghost predicate Decoding()
      reads this, ring, ring.window
    {
      Shape() && Summed() && Flowing() && Decodes(lencode, lenbits, LENS, c.ll) &&
      Decodes(distcode, distbits, DISTS, c.dl)
    }

    lemma CodesBits(s: State)
      requires Valid() && InCodes(mode) && s == Abs()
      ensures Decoding() && r.Valid() && Was(s, AMode()) && GoodLens(LENS, c.ll) && GoodLens(DISTS, c.dl)
      ensures mode == LEN ==> Scant(r, c.ll)
      ensures mode == DIST ==> Scant(r, c.dl)
      ensures mode == LENEXT || mode == DISTEXT ==> r.bits <= 7 || r.bits < extra
      ensures mode == MATCH || mode == LIT ==> r.bits <= 7
    {
      hide FromBits, Stream, Adler32Of, Ring.Keeps, Acceptable, Kraft, Step, Decodes, DecodeSym, StartsWith, Pow2;
      if r.bits > 7 { CodesWait(AbsHeld()); }
    }

    lemma CodesWaiting(s: State)
      requires Decoding() && r.Valid() && r.input == [] && InCodes(mode) && Ok(s) && s == Abs() && Step(s) == None
      ensures Valid() && Stuck()
    {
      hide Decodes, Step, Ok, Summed, Flowing, Stream;
      SettleWait();
    }

    /** Go on in mode m, which s leads to. */
    method Arrive(m: ZMode, ghost s: State)
      requires Decoding() && r.Valid() && r.bits <= 7 && (InCodes(m) || m == TYPE || m == BAD) && Ok(s)
      requires Reaches(s, State(ModeOf(m, length, offset, extra, nlen, ndist, ncode, got, cl, c), last, wrap,
                                hist + out,
                                if m == BAD then [] else r.Q()))
      modifies this`mode
      ensures Valid() && Reaches(s, Abs()) && mode == m
    {
      hide Decodes, Step, Reaches, Ok, Summed, Flowing, Valid, Stream, GoodLens, Scant;
      mode := m;
      OkReaches(s, Abs());
      if InCodes(mode) { SettleCodes(); } else { Settle(); }
    }

    /** Go on in mode m, which is where one step from s leads. */
    method Enter(m: ZMode, ghost s: State)
      requires Decoding() && r.Valid() && r.bits <= 7 && (InCodes(m) || m == TYPE || m == BAD) && Ok(s)
      requires Step(s) == Some(State(ModeOf(m, length, offset, extra, nlen, ndist, ncode, got, cl, c), last, wrap,
                                     hist + out,
                                     if m == BAD then [] else r.Q()))
      modifies this`mode
      ensures Valid() && Reaches(s, Abs()) && mode == m
    {
      hide Decodes, Step, Reaches, Ok, Summed, Flowing, Valid, Stream, Decoding, ModeOf, GoodLens, Scant;
      ReachesStep(s, Step(s).v);
      Arrive(m, s);
    }

    /** Having read a literal/length code. */
    method AfterLen(here: Code, ghost s: State, ghost n: nat)
      requires Decoding() && r.Valid() && r.bits <= 7 && mode == LEN && n <= |s.q| && r.Q() == s.q[n..]
      requires Ok(s) && s.mode == Len(c) && s.wrap == wrap && s.out == hist + out && s.last == last
      requires Agrees(LENS, here, n, DecodeSym(c.ll, s.q))
      modifies this`mode, this`length, this`extra
      ensures Valid() && Reaches(s, Abs())
    {
      hide Decodes, Step, Reaches, Ok, Summed, Flowing, Valid, Agrees, DecodeSym, Stream, Bit16, Bit32, Bit64;
      LenRead(s, c, here, n);
      length := here.val;
      if here.op == 0 {
        Enter(LIT, s);
      } else if Bit32(here.op) {
        Enter(TYPE, s);
      } else if Bit64(here.op) {
        Enter(BAD, s);
      } else {
        extra := here.op % 16;
        Enter(LENEXT, s);
      }
    }

    /** case LEN, one symbol at a time */
    method DoLen() returns (leave: bool)
      requires Valid() && mode == LEN
      modifies r, this`mode, this`length, this`extra
      ensures Done(old(Abs()), old(|r.Q()|), old(Rank(mode, length)), leave)
    {
      hide Decodes, Step, Reaches, Ok, Summed, Flowing, Valid, Agrees, DecodeSym, Scant, GoodLens, Stream;
      ghost var s := Abs();
      CodesBits(s);
      var here;
      ghost var n;
      leave, here, n := Decode(r, lencode, lenbits, LENS, c.ll);
      leave := !leave;
      if leave {
        LenMore(s, c);
        ReachesSelf(s);
        CodesWaiting(s);
        return;
      }
      AfterLen(here, s, n);
    }

    /** Read the extra bits, or not ok if the input ends first. */
    method ExtraBits(ghost q: seq<bool>) returns (ok: bool, v: nat)
      requires r.Valid() && (r.bits <= 7 || r.bits < extra) && q == r.Q()
      modifies r
      ensures r.Valid()
      ensures ok ==> extra <= |q| && v == FromBits(q[..extra]) && r.Q() == q[extra..] && |r.Q()| <= |q| && r.bits <= 7
      ensures !ok ==> r.input == [] && r.Q() == q && |q| < extra
    {
      hide FromBits, Stream, Pow2;
      v := 0;
      ok := r.NeedBits(extra);
      r.StreamSize();
      if ok { v := r.TakeBits(extra); }
    }

    /** case LENEXT */
    method DoLenExt() returns (leave: bool)
      requires Valid() && mode == LENEXT
      modifies r, this`mode, this`length
      ensures Done(old(Abs()), old(|r.Q()|), old(Rank(mode, length)), leave)
    {
      hide Decodes, Step, Reaches, Ok, Summed, Flowing, Valid, Stream, FromBits, GoodLens, Pow2, Scant, Low, High,
           Aligned, Shape;
      ghost var s := Abs();
      CodesBits(s);
      ExtStep(s);
      var ok, v := ExtraBits(s.q);
      if !ok {
        ReachesSelf(s);
        CodesWaiting(s);
        return true;
      }
      length := length + v;
      Enter(DIST, s);
      leave := false;
    }

    /** Having read a distance code. */
    method AfterDist(here: Code, ghost s: State, ghost n: nat)
      requires Decoding() && r.Valid() && r.bits <= 7 && mode == DIST && n <= |s.q| && r.Q() == s.q[n..]
      requires Ok(s) && s.mode == Dist(c, length) && s.wrap == wrap && s.out == hist + out && s.last == last
      requires Agrees(DISTS, here, n, DecodeSym(c.dl, s.q))
      modifies this`mode, this`offset, this`extra
      ensures Valid() && Reaches(s, Abs())
    {
      hide Decodes, Step, Reaches, Ok, Summed, Flowing, Valid, Agrees, DecodeSym, Stream, Bit16, Bit32, Bit64;
      DistRead(s, c, length, here, n);
      if Bit64(here.op) {
        Enter(BAD, s);
      } else {
        offset := here.val;
        extra := here.op % 16;
        Enter(DISTEXT, s);
      }
    }

    /** case DIST */
    method DoDist() returns (leave: bool)
      requires Valid() && mode == DIST
      modifies r, this`mode, this`offset, this`extra
      ensures Done(old(Abs()), old(|r.Q()|), old(Rank(mode, length)), leave)
    {
      hide Decodes, Step, Reaches, Ok, Summed, Flowing, Valid, Agrees, DecodeSym, Scant, GoodLens, Stream;
      ghost var s := Abs();
      CodesBits(s);
      var here;
      ghost var n;
      leave, here, n := Decode(r, distcode, distbits, DISTS, c.dl);
      leave := !leave;
      if leave {
        DistMore(s, c, length);
        ReachesSelf(s);
        CodesWaiting(s);
        return;
      }
      AfterDist(here, s, n);
    }

    /** case DISTEXT */
    method DoDistExt() returns (leave: bool)
      requires Valid() && mode == DISTEXT
      modifies r, this`mode, this`offset
      ensures Done(old(Abs()), old(|r.Q()|), old(Rank(mode, length)), leave)
    {
      hide Decodes, Step, Reaches, Ok, Summed, Flowing, Valid, Stream, FromBits, GoodLens, Pow2, Scant, Low, High,
           Aligned, Shape;
      ghost var s := Abs();
      CodesBits(s);
      DistLength(s);
      ExtStep(s);
      var ok, v := ExtraBits(s.q);
      if !ok {
        ReachesSelf(s);
        CodesWaiting(s);
        return true;
      }
      offset := offset + v;
      Enter(MATCH, s);
      leave := false;
    }

    lemma DistLength(s: State)
      requires Ok(s) && s.mode == DistExt(c, length, offset, extra)
      ensures length <= 258
    {
      hide GoodLens, Pow2;
    }

    // ----- copying -----

    /** The next k bytes at from, in the window or in the output, are those that a copy from off
        back needs. */
    ghost predicate Source(win: bool, from: nat, off: nat, k: nat)
      reads this`out, this`hist, ring.window
    {
      if win then
        from + k <= ring.window.Length && |out| + k <= off <= |hist| + |out| &&
        forall i :: from <= i < from + k ==> ring.window[i] == hist[|hist| + |out| - off + (i - from)]
      else from + off == |out| && off >= 1
    }

    /** The state of the format's machine with n bytes still to be copied from off back. */
    ghost function Midway(n: nat, off: nat): State
      reads this, r
    {
      State(if n == 0 then Len(c) else Copying(c, n, off), last, wrap, hist + out, r.Q())
    }

    /** *put++ = *from++ */
    method PutByte(win: bool, from: nat, off: nat, ghost k: nat, ghost n: nat, ghost s: State)
      requires Source(win, from, off, k) && 1 <= k <= n && left >= 1 && Summed() && Reaches(s, Midway(n, off))
      requires off >= 1
      modifies this`out, this`left
      ensures Source(win, from + 1, off, k - 1) && Summed() && Reaches(s, Midway(n - 1, off))
      ensures |out| == |old(out)| + 1 && left == old(left) - 1
    {
      hide Step, Reaches, Adler32Of;
      ghost var t, h := Midway(n, off), hist + out;
      var b := if win then ring.window[from] else out[from];
      assert b == h[|h| - off];
      out := out + [b];
      left := left - 1;
      assert hist + out == h + [b];
      StepCopying(t, c, n, off);
      ReachesThen(s, t, Midway(n - 1, off));
      SummedMore([b]);
    }

    /** Copy count bytes. */
    method PutBytes(win: bool, from: nat, off: nat, count: nat, ghost n: nat, ghost s: State)
      requires Source(win, from, off, count) && count <= n && count <= left && Summed() && Reaches(s, Midway(n, off))
      requires off >= 1
      modifies this`out, this`left
      ensures Source(win, from + count, off, 0) && Summed() && Reaches(s, Midway(n - count, off))
      ensures |out| == |old(out)| + count && left == old(left) - count
    {
      hide Step, Reaches, Adler32Of, Source, Summed;
      var i := 0;
      while i < count
        invariant i <= count && Source(win, from + i, off, count - i) && Summed() && Reaches(s, Midway(n - i, off))
        invariant |out| == |old(out)| + i && left == old(left) - i
      {
        PutByte(win, from + i, off, count - i, n - i, s);
        i := i + 1;
      }
    }

    /** The byte op back from the end of the window, and the k - 1 after it. */
    lemma FromWindow(from: nat, off: nat, op: nat, k: nat)
      requires Flowing() && off == |out| + op && 1 <= op <= ring.whave && k <= op
      requires if op <= ring.wnext then from == ring.wnext - op
               else from == ring.wnext + Ring.WSIZE - op && k <= op - ring.wnext
      ensures ring.wsize == Ring.WSIZE && op <= |hist| && Source(true, from, off, k)
    {
      forall i | from <= i < from + k ensures ring.window[i] == hist[|hist| + |out| - off + (i - from)] {
        var b := op - (i - from);
        assert Ring.At(ring.wnext, b) == i;
        assert ring.window[..][i] == hist[|hist| - b];
      }
    }

    /** A distance is too far back just when it goes beyond the bytes that the window has. */
    lemma Reach(off: nat)
      requires Flowing() && |out| < off <= 32768
      ensures off - |out| > ring.whave <==> off > |hist| + |out|
    {
    }

    lemma TooFar(s: State)
      requires s.mode.Copying? && s.mode.off > |s.out|
      ensures Step(s) == Some(s.(mode := Bad, q := []))
    {
      hide TypeStep, LenLensStep, CodeLensStep, LenStep, DistStep;
    }

    /** Copy what there is room for, from where the bytes are. */
    method CopyMatch(win: bool, from: nat, copy: nat, ghost s: State)
      requires Decoding() && r.Valid() && r.bits <= 7 && mode == MATCH && 1 <= copy <= length && copy <= left
      requires offset >= 1
      requires Was(s, Copying(c, length, offset)) && Source(win, from, offset, copy)
      modifies this`out, this`left, this`length, this`mode
      ensures Valid() && Reaches(s, Abs()) && Rank(mode, length) < 10 + old(length)
    {
      hide Decodes, Step, Reaches, Ok, Summed, Flowing, Valid, Stream, Source, GoodLens, Scant, FromBits, Pow2, Low,
           High;
      ReachesSelf(s);
      PutBytes(win, from, offset, copy, length, s);
      length := length - copy;
      if length == 0 { Arrive(LEN, s); } else { Arrive(MATCH, s); }
    }

    /** case MATCH */
    method DoMatch() returns (leave: bool)
      requires Valid() && mode == MATCH
      modifies this`out, this`left, this`length, this`mode
      ensures Done(old(Abs()), old(|r.Q()|), old(Rank(mode, length)), leave)
    {
      hide Decodes, Step, Reaches, Ok, Summed, Flowing, Valid, Stream, Source, GoodLens, Scant, FromBits, Pow2, Low,
           High;
      ghost var s := Abs();
      CodesBits(s);
      MatchSizes(s);
      if left == 0 {
        ReachesSelf(s);
        return true;
      }
      leave := false;
      var win, from, copy: nat := false, 0, length;
      if offset > |out| {
        win := true;
        var op := offset - |out|;
        Reach(offset);
        if op > ring.whave {
          TooFar(s);
          Enter(BAD, s);
          return;
        }
        FromWindow(if op <= ring.wnext then ring.wnext - op else ring.wnext + Ring.WSIZE - op, offset, op, 0);
        copy := op;
        if copy > ring.wnext {
          copy := copy - ring.wnext;
          from := ring.wsize - copy;
        } else {
          from := ring.wnext - copy;
        }
        if copy > length { copy := length; }
        if copy > left { copy := left; }
        FromWindow(from, offset, op, copy);
      } else {
        from := |out| - offset;
        if copy > left { copy := left; }
        OwnSource(from, offset, copy);
      }
      CopyMatch(win, from, copy, s);
    }

    lemma OwnSource(from: nat, off: nat, k: nat)
      requires from + off == |out| && off >= 1
      ensures Source(false, from, off, k)
    {
    }

    lemma MatchSizes(s: State)
      requires Ok(s) && s.mode == Copying(c, length, offset)
      ensures 1 <= length <= 258 && 1 <= offset <= 32768
    {
      hide GoodLens, Pow2;
    }

    /** *put++ = b */
    method PutLiteral(b: Byte)
      requires left >= 1 && Summed()
      modifies this`out, this`left
      ensures Summed() && hist + out == old(hist + out) + [b] && out == old(out) + [b] && left == old(left) - 1
    {
      hide Adler32Of, Summed;
      out := out + [b];
      left := left - 1;
      SummedMore([b]);
    }

    /** case LIT */
    method DoLit() returns (leave: bool)
      requires Valid() && mode == LIT
      modifies this`out, this`left, this`mode
      ensures Done(old(Abs()), old(|r.Q()|), old(Rank(mode, length)), leave)
    {
      hide Decodes, Step, Reaches, Ok, Summed, Flowing, Valid, Stream, GoodLens, Scant, FromBits, Pow2, Low, High;
      ghost var s := Abs();
      CodesBits(s);
      if left == 0 {
        ReachesSelf(s);
        return true;
      }
      LiteralStep(s, c, length);
      PutLiteral(length % 256);
      Enter(LEN, s);
      leave := false;
    }

    // ----- inflate_fast -----

    /** What inflate_fast keeps from one symbol to the next. */
    ghost predicate Fast()
      reads this, r, ring, ring.window
    {
      Decoding() && r.Valid() && GoodLens(LENS, c.ll) && GoodLens(DISTS, c.dl)
    }

    /** The state of the format's machine in mode m. */
    ghost function In(m: Mode): State
      reads this, r
    {
      State(m, last, wrap, hist + out, r.Q())
    }

    /** hold += *in++ << bits, without a look at how much input there is */
    method Pull()
      requires r.Valid() && r.input != []
      modifies r
      ensures r.Valid() && r.Q() == old(r.Q()) && r.bits == old(r.bits) + 8 && Ends(old(r.input), r.input)
    {
      hide Stream, Low, Pow2;
      var ok := r.PullByte();
    }

    /** Have the bits of any one code in the accumulator. */
    method Refill()
      requires r.Valid() && (r.bits < 15 ==> |r.input| >= 2)
      modifies r
      ensures r.Valid() && r.Q() == old(r.Q()) && r.bits >= 15 && Ends(old(r.input), r.input)
    {
      hide Stream, Low, Pow2;
      if r.bits < 15 {
        Pull();
        Pull();
      }
    }

    /** Decode a symbol whose bits are all in the accumulator. */
    method FastSym(t: seq<Code>, root: nat, ghost ty: CodeType, ghost syms: seq<nat>) returns (here: Code, ghost n: nat)
      requires GoodLens(ty, syms) && Decodes(t, root, ty, syms) && r.Valid() && r.bits >= 15
      modifies r`hold, r`bits
      ensures r.Valid() && 1 <= n <= 15 && n <= |old(r.Q())| && r.Q() == old(r.Q())[n..]
      ensures Agrees(ty, here, n, DecodeSym(syms, old(r.Q())))
    {
      hide Decodes, GoodLens, Resolve, DecodeSym, Stream, LinksInside, Low, High, Pow2, Agrees;
      ghost var h, q := r.hold, r.Q();
      r.StreamSize();
      LookUp(ty, syms, t, root, r);
      RootInside(ty, syms, t, root, h);
      FirstOfTwo(t, root, h);
      SecondIs(t, root, h);
      here := t[Low(r.hold, root)];
      n := here.bits;
      var v := r.TakeBits(here.bits);
      if IsLink(here) {  // 2nd level code
        here := t[here.val + Low(r.hold, here.op)];
        DropTwice(q, n, here.bits);
        n := n + here.bits;
        v := r.TakeBits(here.bits);
      }
    }

    /** Extra bits, of which at most two bytes are still in the input. */
    method FastExtra(n: nat) returns (v: nat)
      requires r.Valid() && n <= 13 && |r.Q()| >= 13
      modifies r
      ensures r.Valid() && n <= |old(r.Q())| && v == FromBits(old(r.Q())[..n]) && r.Q() == old(r.Q())[n..]
      ensures Ends(old(r.input), r.input)
    {
      hide Stream, Low, Pow2, FromBits;
      r.StreamSize();
      if r.bits < n {
        Pull();
        r.StreamSize();
        if r.bits < n { Pull(); }
      }
      r.StreamSize();
      v := r.TakeBits(n);
    }

    /** while (len > 2) three bytes at a time, and then what is left */
    method PutThrees(win: bool, from: nat, off: nat, n: nat, ghost s: State)
      requires Source(win, from, off, n) && n <= left && Summed() && Reaches(s, Midway(n, off)) && off >= 1
      modifies this`out, this`left
      ensures Summed() && Reaches(s, Midway(0, off)) && left == old(left) - n
    {
      hide Step, Reaches, Adler32Of, Source, Summed;
      var len, at := n, from;
      while len > 2
        invariant 0 <= len <= n && Source(win, at, off, len) && Summed() && Reaches(s, Midway(len, off))
        invariant left == old(left) - (n - len)
      {
        PutByte(win, at, off, len, len, s);
        PutByte(win, at + 1, off, len - 1, len - 1, s);
        PutByte(win, at + 2, off, len - 2, len - 2, s);
        at := at + 3;
        len := len - 3;
      }
      if len > 0 {
        PutByte(win, at, off, len, len, s);
        if len > 1 { PutByte(win, at + 1, off, len - 1, len - 1, s); }
      }
    }

    /** Go over to the output when count bytes from the window are not enough. */
    method FromOutput(from: nat, off: nat, count: nat, n: nat, ghost s: State) returns (at: nat)
      requires Source(true, from, off, count) && count < n <= left && off == |out| + count && Summed()
      requires Reaches(s, Midway(n, off)) && off >= 1
      modifies this`out, this`left
      ensures Source(false, at, off, n - count) && Summed() && Reaches(s, Midway(n - count, off))
      ensures left == old(left) - count
    {
      hide Step, Reaches, Adler32Of, Summed;
      PutBytes(true, from, off, count, n, s);
      at := |out| - off;
    }

    /** Copy a match that begins op bytes back in the window: at its end when wnext is 0, around its
        end, or within its first part. */
    method WindowMatch(len: nat, dist: nat, op: nat, ghost s: State)
      requires Flowing() && Summed() && dist == |out| + op && 1 <= op <= ring.whave && len <= left
      requires Reaches(s, Midway(len, dist))
      modifies this`out, this`left
      ensures Summed() && Reaches(s, Midway(0, dist)) && left == old(left) - len
    {
      hide Step, Reaches, Adler32Of, Source, Summed, Flowing;
      WindowSizes();
      if ring.wnext == 0 {
        var from := ring.wsize - op;
        if op < len {
          FromWindow(from, dist, op, op);
          var at := FromOutput(from, dist, op, len, s);
          PutThrees(false, at, dist, len - op, s);
        } else {
          FromWindow(from, dist, op, len);
          PutThrees(true, from, dist, len, s);
        }
      } else if ring.wnext < op {
        AroundMatch(len, dist, op, s);
      } else {
        var from := ring.wnext - op;
        if op < len {
          FromWindow(from, dist, op, op);
          var at := FromOutput(from, dist, op, len, s);
          PutThrees(false, at, dist, len - op, s);
        } else {
          FromWindow(from, dist, op, len);
          PutThrees(true, from, dist, len, s);
        }
      }
    }

    /** wrap around window */
    method AroundMatch(len: nat, dist: nat, op: nat, ghost s: State)
      requires Flowing() && Summed() && dist == |out| + op && 1 <= ring.wnext < op <= ring.whave && len <= left
      requires Reaches(s, Midway(len, dist))
      requires ring.wsize == Ring.WSIZE && ring.whave <= Ring.WSIZE
      modifies this`out, this`left
      ensures Summed() && Reaches(s, Midway(0, dist)) && left == old(left) - len
    {
      hide Step, Reaches, Adler32Of, Source, Summed, Flowing;
      var from := ring.wsize + ring.wnext - op;
      var first := op - ring.wnext;
      if first < len {
        FromWindow(from, dist, op, first);
        PutBytes(true, from, dist, first, len, s);
        var rest := len - first;
        if ring.wnext < rest {
          FromWindow(0, dist, ring.wnext, ring.wnext);
          var at := FromOutput(0, dist, ring.wnext, rest, s);
          PutThrees(false, at, dist, rest - ring.wnext, s);
        } else {
          FromWindow(0, dist, ring.wnext, rest);
          PutThrees(true, 0, dist, rest, s);
        }
      } else {
        FromWindow(from, dist, op, len);
        PutThrees(true, from, dist, len, s);
      }
    }

    lemma WindowSizes()
      requires Flowing() && ring.whave > 0
      ensures ring.wsize == Ring.WSIZE && ring.whave <= Ring.WSIZE
    {
    }

    /** A length and a distance have been read: copy the match, or find the distance too far back. */
    method FastCopy(len: nat, dist: nat, ghost s: State)
      requires Fast() && mode == LEN && len <= 258 <= left && 1 <= dist <= 32768
      requires Reaches(s, In(Copying(c, len, dist))) && len > 0
      modifies this`mode, this`out, this`left
      ensures Fast() && (mode == LEN || mode == BAD) && Reaches(s, Abs())
    {
      hide Step, Reaches, Adler32Of, Source, Summed, Flowing, Decodes, GoodLens;
      ghost var t := In(Copying(c, len, dist));
      var op := |out|;
      if dist > op {
        op := dist - op;
        Reach(dist);
        if op > ring.whave {
          TooFar(t);
          ReachesThen(s, t, Step(t).v);
          mode := BAD;
          return;
        }
        WindowMatch(len, dist, op, s);
      } else {
        OwnSource(|out| - dist, dist, len);
        PutThrees(false, |out| - dist, dist, len, s);
      }
    }

    /** A distance code is next; at most 20 of at least 48 bits have been used for the length. */
    method FastDist(len: nat, ghost s: State)
      requires Fast() && mode == LEN && left >= 258 && |r.Q()| >= 28 && Ok(In(Dist(c, len)))
      requires Reaches(s, In(Dist(c, len)))
      modifies r, this`mode, this`out, this`left
      ensures Fast() && (mode == LEN || mode == BAD) && Reaches(s, Abs())
      ensures Ends(old(r.input), r.input) && Ends(old(r.Q()), r.Q())
    {
      hide Step, Reaches, Adler32Of, Summed, Flowing, Decodes, GoodLens, Stream, Pow2, FromBits, Agrees, DecodeSym, Ok,
           Bit16, Bit32, Bit64, Scant, Acceptable, Kraft, ValidLens, Low, High, Aligned, Shape;
      ghost var t := In(Dist(c, len));
      r.StreamSize();
      Refill();
      var here;
      ghost var n;
      here, n := FastSym(distcode, distbits, DISTS, c.dl);
      DistRead(t, c, len, here, n);
      ghost var u := Step(t).v;
      ReachesThen(s, t, u);
      if Bit16(here.op) {
        OkStep(t);
        FastDistExt(len, here.val, here.op % 16, s);
      } else {
        mode := BAD;
      }
    }

    /** A distance code has been read; at least 13 bits are left for its extra bits. */
    method FastDistExt(len: nat, base: nat, ex: nat, ghost s: State)
      requires Fast() && mode == LEN && left >= 258 && |r.Q()| >= 13 && Ok(In(DistExt(c, len, base, ex)))
      requires Reaches(s, In(DistExt(c, len, base, ex)))
      modifies r, this`mode, this`out, this`left
      ensures Fast() && (mode == LEN || mode == BAD) && Reaches(s, Abs())
      ensures Ends(old(r.input), r.input) && Ends(old(r.Q()), r.Q())
    {
      hide Step, Reaches, Adler32Of, Summed, Flowing, Decodes, GoodLens, Stream, Pow2, FromBits, Ok;
      ghost var t := In(DistExt(c, len, base, ex));
      ExtStep(t);
      OkSizes(t);
      var v := FastExtra(ex);
      ghost var u := In(Copying(c, len, base + v));
      OkStep(t);
      OkSizes(u);
      ReachesThen(s, t, u);
      FastCopy(len, base + v, s);
    }

    /** A length code has been read; at most 15 of at least 48 bits have been used for it. */
    method FastLength(base: nat, ex: nat, ghost s: State)
      requires Fast() && mode == LEN && left >= 258 && |r.Q()| >= 33 && Ok(In(LenExt(c, base, ex)))
      requires Reaches(s, In(LenExt(c, base, ex)))
      modifies r, this`mode, this`out, this`left
      ensures Fast() && (mode == LEN || mode == BAD) && Reaches(s, Abs())
      ensures Ends(old(r.input), r.input) && Ends(old(r.Q()), r.Q())
    {
      hide Step, Reaches, Adler32Of, Summed, Flowing, Decodes, GoodLens, Stream, Pow2, FromBits, Ok, Ends;
      ghost var t, in0 := In(LenExt(c, base, ex)), r.input;
      ExtStep(t);
      OkSizes(t);
      var v := FastExtra(ex);
      ghost var u, in1 := In(Dist(c, base + v)), r.input;
      OkStep(t);
      ReachesThen(s, t, u);
      DropEnds(t.q, ex);
      FastDist(base + v, s);
      EndsTrans(in0, in1, r.input);
      EndsTrans(t.q, u.q, r.Q());
    }

    /** One symbol, or one length and distance: n bits for the code that the bits begin with, and
        those that belong to it. */
    method FastStep() returns (ghost n: nat, ghost e: Code)
      requires Fast() && mode == LEN && left >= 258 && |r.input| >= 6 && Ok(Abs())
      modifies r, this`mode, this`out, this`left
      ensures Fast() && (mode == LEN || mode == TYPE || mode == BAD) && Reaches(old(Abs()), Abs())
      ensures Ends(old(r.input), r.input) && 1 <= n <= |old(r.Q())| && Ends(old(r.Q())[n..], r.Q())
      ensures Agrees(LENS, e, n, DecodeSym(c.ll, old(r.Q())))
    {
      hide Step, Reaches, Adler32Of, Summed, Flowing, Decodes, GoodLens, Stream, Pow2, FromBits, Agrees, DecodeSym, Ok,
           Bit16, Bit32, Bit64, Ends;
      ghost var s, in0 := Abs(), r.input;
      r.StreamSize();
      Refill();
      var here;
      here, n := FastSym(lencode, lenbits, LENS, c.ll);
      e := here;
      ghost var in1 := r.input;
      LenRead(s, c, here, n);
      OkStep(s);
      ReachesStep(s, Step(s).v);
      DropEnds(s.q, n);
      AfterSym(here, s);
      EndsTrans(in0, in1, r.input);
    }

    /** What a literal/length code calls for. */
    method AfterSym(here: Code, ghost s: State)
      requires Fast() && mode == LEN && left >= 258 && |r.Q()| >= 33
      requires 15 + |r.Q()| >= |s.q| >= |r.Q()| && LenLeads(s, c, here, |s.q| - |r.Q()|) && Ends(s.q, r.Q())
      requires s.last == last && s.wrap == wrap && s.out == hist + out && Ok(Step(s).v) && Reaches(s, Step(s).v)
      modifies r, this`mode, this`out, this`left
      ensures Fast() && (mode == LEN || mode == TYPE || mode == BAD) && Reaches(s, Abs())
      ensures Ends(old(r.input), r.input) && Ends(old(r.Q()), r.Q())
    {
      hide Step, Reaches, Adler32Of, Summed, Flowing, Decodes, GoodLens, Stream, Pow2, FromBits, Agrees, DecodeSym, Ok,
           Bit16, Bit32, Bit64;
      ghost var t := Step(s).v;
      if here.op == 0 {
        LiteralStep(t, c, here.val);
        ReachesThen(s, t, Step(t).v);
        PutLiteral(here.val % 256);
      } else if Bit16(here.op) {
        FastLength(here.val, here.op % 16, s);
      } else if Bit32(here.op) {
        mode := TYPE;
      } else {
        mode := BAD;
      }
    }

    /** while (in < last && out < end) */
    method FastRest(ghost s: State, ghost in0: seq<Byte>, ghost q1: seq<bool>)
      requires Fast() && (mode == LEN || mode == TYPE || mode == BAD) && Ok(s) && Reaches(s, Abs())
      requires Ends(in0, r.input) && Ends(q1, r.Q())
      modifies r, this`mode, this`out, this`left
      ensures Fast() && (mode == LEN || mode == TYPE || mode == BAD) && Reaches(s, Abs())
      ensures Ends(in0, r.input) && Ends(q1, r.Q())
    {
      hide Step, Reaches, Stream, Ok, Ends, Agrees, DecodeSym, Fast;
      OkReaches(s, Abs());
      while mode == LEN && |r.input| >= 6 && left >= 258
        invariant Fast() && (mode == LEN || mode == TYPE || mode == BAD) && Reaches(s, Abs()) && Ok(Abs())
        invariant Ends(in0, r.input) && Ends(q1, r.Q())
        decreases |r.Q()|
      {
        ghost var t, q, in1 := Abs(), r.Q(), r.input;
        ghost var m, e1 := FastStep();
        ReachesTrans(s, t, Abs());
        OkReaches(s, Abs());
        EndsTrans(in0, in1, r.input);
        MoreTaken(q1, q, m, r.Q());
      }
    }

    /** inflate_fast: decode while at least 6 bytes of input and room for 258 bytes of output are
        left, and return the input not used. */
    method InflateFast()
      requires Valid() && mode == LEN && |r.input| >= 6 && left >= 258
      modifies r, this`mode, this`out, this`left
      ensures Valid() && Reaches(old(Abs()), Abs()) && (mode == LEN || mode == TYPE || mode == BAD)
      ensures |r.Q()| < |old(r.Q())|
    {
      hide Step, Reaches, Stream, Ok, Ends, Agrees, DecodeSym, Valid, Scant, Tight, GoodLens, Decoding;
      ghost var s, q0, h0, b0 := Abs(), r.Q(), r.hold, r.bits;
      var in0 := r.input;
      CodesBits(s);
      ScantTight(LENS, c.ll, r);
      r.StreamSize();
      ghost var n, e := FastStep();
      FirstTakes(q0, b0, n, e);
      FastRest(s, in0, q0[n..]);
      UnusedBack(q0, b0, in0, n);
      r.GiveBack(in0, h0, b0);
      OkReaches(s, Abs());
      FastDone();
    }

    lemma FastDone()
      requires Decoding() && r.Valid() && r.bits <= 7 && Ok(Abs()) && (mode == LEN || mode == TYPE || mode == BAD)
      ensures Valid()
    {
      hide Decodes, Ok, Summed, Flowing, Stream;
      if mode == LEN { SettleCodes(); } else { Settle(); }
    }

    /** The first symbol takes all but 7 of the bits that were in the accumulator. */
    lemma FirstTakes(q0: seq<bool>, b0: nat, n: nat, e: Code)
      requires GoodLens(LENS, c.ll) && Tight(q0, b0, c.ll) && 1 <= n <= |q0| && Agrees(LENS, e, n, DecodeSym(c.ll, q0))
      ensures b0 <= n + 7
    {
      hide GoodLens, DecodeSym, Agrees;
      if n <= b0 { FewLeft(LENS, c.ll, q0, b0, n, e); }
    }

    /** So the whole bytes left in the accumulator were in the input when the call began. */
    lemma UnusedBack(q0: seq<bool>, b0: nat, in0: seq<Byte>, n: nat)
      requires |q0| == b0 + 8 * |in0| && n <= |q0| && b0 <= n + 7 && Ends(in0, r.input) && Ends(q0[n..], r.Q())
      ensures r.bits / 8 <= |in0| - |r.input| && Ends(q0, r.Q()) && |r.Q()| <= |q0| - n
    {
      hide Stream;
      r.StreamSize();
    }

    // ----- the end of the stream -----

    /** UPDATE_CHECK on the output not yet checked */
    method UpdateCheck()
      requires Summed() && wrap
      modifies this`check, this`checked
      ensures Summed() && checked == |out|
    {
      hide Adler32Of;
      if checked < |out| {
        assert hist + out[..checked] + out[checked..] == hist + out[..|out|];
        check := AdlerMore(check, hist + out[..checked], out[checked..]);
        checked := |out|;
      }
    }

    lemma CheckBits(s: State)
      requires Valid() && mode == CHECK && s == Abs()
      ensures Shape() && Summed() && r.Valid() && Was(s, Check) && r.bits % 8 == 0
      ensures if wrap then r.bits <= 31 else r.bits <= 7
    {
      hide FromBits, Stream, Adler32Of, Swap32, Ring.Keeps, Step, Decodes, NoLinks, Aligned, Ok;
      if r.bits > 7 && (!wrap || r.bits > 31) { CheckGoes(AbsHeld()); }
    }

    lemma CheckWaiting(s: State)
      requires Shape() && Summed() && r.Valid() && r.bits % 8 == 0 && r.input == [] && mode == CHECK && s == Abs()
      requires Step(s) == None
      ensures Valid() && Stuck()
    {
      hide Step, Summed, Flowing, Stream;
      SettleWait();
    }

    /** Compare the check value with the trailer in the accumulator. */
    method CompareCheck(ghost s: State)
      requires Shape() && Summed() && r.Valid() && Was(s, Check) && r.bits == 32 && wrap && checked == |out|
      requires mode == CHECK
      modifies r, this`mode
      ensures Valid() && Reaches(s, Abs()) && (mode == DONE || mode == BAD) && |r.Q()| <= |s.q|
    {
      hide Step, Reaches, Summed, Flowing, Stream, Adler32Of, Swap32, FromBits, Valid, Pow2, Low, High;
      r.StreamSize();
      StreamHeld(r.hold, r.bits, r.input);
      CheckedAll();
      CheckStep(s, r.hold);
      if Swap32(r.hold) != check {
        ReachesStep(s, Step(s).v);
        GoBad(s, Step(s).v);
        return;
      }
      r.InitBits();
      mode := DONE;
      ReachesStep(s, Abs());
      Settle();
    }

    lemma CheckedAll()
      requires Summed() && wrap && checked == |out|
      ensures check == Adler32Of(hist + out)
    {
      hide Adler32Of;
      assert out[..|out|] == out;
    }

    /** case CHECK */
    method DoCheck() returns (leave: bool)
      requires Valid() && mode == CHECK
      modifies r, this`mode, this`check, this`checked
      ensures Done(old(Abs()), old(|r.Q()|), old(Rank(mode, length)), leave)
    {
      hide Step, Reaches, Summed, Flowing, Stream, Adler32Of, Swap32, Valid, Ok, GoodLens, Scant, Acceptable, Kraft,
           ValidLens, FromBits, Pow2, Low, High;
      ghost var s := Abs();
      CheckBits(s);
      leave := false;
      if !wrap {
        NoCheck(s);
        mode := DONE;
        ReachesStep(s, Abs());
        OkStep(s);
        Settle();
        return;
      }
      var ok := r.NeedBits(32);
      r.StreamSize();
      if !ok {
        CheckShort(s);
        ReachesSelf(s);
        CheckWaiting(s);
        return true;
      }
      UpdateCheck();
      CompareCheck(s);
    }

    // ----- one call of inflate -----

    /** The switch: what the present state calls for. */
    method OneState(lenfix: seq<Code>, distfix: seq<Code>) returns (leave: bool)
      requires Valid() && Decodes(lenfix, 9, LENS, FixedLl()) && Decodes(distfix, 5, DISTS, FixedDl())
      modifies r, this`mode, this`last, this`length, this`offset, this`extra, this`nlen, this`ndist, this`ncode,
               this`have, this`lencode, this`distcode, this`lenbits, this`distbits, this`check, this`out, this`left,
               this`checked, this`got, this`cl, this`c, this`overrun, this`full, lens, work, codes
      ensures Done(old(Abs()), old(|r.Q()|), old(Rank(mode, length)), leave)
      ensures (old(overrun) ==> overrun) && (overrun && !old(overrun) ==> mode == BAD && Overran(old(Abs())))
      ensures old(mode) == BAD ==> mode == BAD && overrun == old(overrun) && full == old(full)
    {
      hide Decodes, FixedLl, FixedDl, Step, Reaches, Valid, Stream;
      ghost var s := Abs();
      match mode {
        case TYPE => leave := DoType(lenfix, distfix);
        case STORED => leave := DoStored();
        case COPY => leave := DoCopy();
        case TABLE => leave := DoTable();
        case LENLENS => leave := DoLenLens();
        case CODELENS => leave := DoCodeLens();
        case LEN =>
          if |r.input| >= 6 && left >= 258 {
            InflateFast();
            leave := false;
          } else {
            leave := DoLen();
          }
        case LENEXT => leave := DoLenExt();
        case DIST => leave := DoDist();
        case DISTEXT => leave := DoDistExt();
        case MATCH => leave := DoMatch();
        case LIT => leave := DoLit();
        case CHECK => leave := DoCheck();
        case DONE =>
          AtEnd(s);
          ReachesSelf(s);
          leave := true;
        case BAD =>
          AtEnd(s);
          ReachesSelf(s);
          leave := true;
      }
    }

    /** Between two states that are the same but for input to come and how output is kept. */
    twostate lemma StillLean()
      requires old(Lean()) && r.hold == old(r.hold) && r.bits == old(r.bits)
      requires Held(r) == old(Held(r)) && hist + out == old(hist + out) && AMode() == old(AMode())
      requires mode == old(mode) && last == old(last)
      ensures Lean()
    {
      hide Step, Stream, ModeOf;
    }

    lemma Again()
      requires Shape() && TablesReady() && LensRead() && Lean() && Summed() && (PastBlocks() || Flowing()) && Ok(Abs())
      ensures Valid()
    {
    }

    lemma Parts()
      requires Valid()
      ensures Shape() && TablesReady() && LensRead() && Lean() && r.Valid() && Summed()
      ensures (PastBlocks() || Flowing()) && Ok(Abs())
    {
      hide Step, Stream, Decodes, NoLinks, LensRead, Adler32Of, Ring.Keeps, Ok, Aligned;
    }

    /** More input and new output space come. */
    method Supply(more: seq<Byte>, availOut: nat)
      requires Valid() && out == []
      modifies r, this`left, this`avail
      ensures Valid() && Abs() == Feed(old(Abs()), BytesBits(more)) && left == avail == availOut
      ensures r.bits == old(r.bits) && r.input == old(r.input) + more
    {
      hide Stream, Aligned, Ok, TablesReady, LensRead, Adler32Of, BytesBits, Flowing, Lean, Valid, Shape, FromBits,
           Pow2, Low, High;
      Parts();
      MoreStream(r.hold, r.bits, r.input, more);
      AlignedFed(r.Q(), BytesBits(more));
      FeedOk(Abs(), BytesBits(more));
      r.input := r.input + more;
      left, avail := availOut, availOut;
      StillLean();
      Again();
    }

    /** Keep the end of the output in the window. */
    method KeepWindow(finish: bool)
      requires Shape() && checked <= |out| && (PastBlocks() || Flowing())
      modifies ring, ring.window
      ensures PastBlocks() || ring.Holds(hist + out)
    {
      hide Ring.Keeps;
      assert hist + [] == hist;
      if ring.wsize != 0 || (|out| != checked && mode != BAD && (!PastBlocks() || !finish)) {
        ring.UpdateWindow(out[checked..], hist);
      }
    }

    /** inf_leave: keep the end of the output in the window and bring the check value up to date. */
    method Leave(finish: bool) returns (put: seq<Byte>)
      requires Valid()
      modifies this`check, this`checked, this`hist, this`out, this`left, this`avail, ring, ring.window
      ensures Valid() && out == [] && Abs() == old(Abs()) && put == old(out) && hist == old(hist) + put
    {
      hide Stream, Aligned, Ok, TablesReady, LensRead, Adler32Of, Flowing, Lean, Valid, Ring.Keeps, Summed, ModeOf,
           Held, Shape, FromBits, Pow2, Low, High;
      Parts();
      SumParts();
      KeepWindow(finish);
      if wrap {
        UpdateCheck();
        CheckedAll();
      }
      put := out;
      Flush();
      StillLean();
      Again();
    }

    /** All output has gone to the caller. */
    method Flush()
      requires (wrap ==> check == Adler32Of(hist + out)) && (PastBlocks() || ring.Holds(hist + out))
      modifies this`checked, this`hist, this`out, this`left, this`avail
      ensures Summed() && (PastBlocks() || Flowing()) && out == [] && hist == old(hist) + old(out)
    {
      hide Adler32Of, Ring.Keeps;
      hist := hist + out;
      out := [];
      checked := 0;
      left, avail := 0, 0;
      assert hist + out[..0] == hist;
    }

    lemma SumParts()
      requires Summed()
      ensures checked <= |out| && |out| + left == avail
    {
    }

    /** for (;;) switch (state->mode): go on until a state leaves. */
    method Go(lenfix: seq<Code>, distfix: seq<Code>)
      requires Valid() && Decodes(lenfix, 9, LENS, FixedLl()) && Decodes(distfix, 5, DISTS, FixedDl())
      requires overrun ==> mode == BAD
      modifies r, this`mode, this`last, this`length, this`offset, this`extra, this`nlen, this`ndist, this`ncode,
               this`have, this`lencode, this`distcode, this`lenbits, this`distbits, this`check, this`out, this`left,
               this`checked, this`got, this`cl, this`c, this`overrun, this`full, lens, work, codes
      ensures Valid() && Stuck() && (Overran(old(Abs())) || Reaches(old(Abs()), Abs()))
      ensures (overrun ==> mode == BAD) && (old(overrun) ==> overrun && full == old(full))
      ensures overrun && !old(overrun) ==> Overran(old(Abs()))
    {
      hide Decodes, FixedLl, FixedDl, Step, Reaches, Valid, Stream, Stuck, Abs, Oversized;
      ghost var s := Abs();
      ReachesSelf(s);
      var leave := false;
      while !leave
        invariant Valid() && (Overran(s) || Reaches(s, Abs())) && (leave ==> Stuck())
        invariant (overrun ==> mode == BAD) && (old(overrun) ==> overrun && full == old(full))
        invariant overrun && !old(overrun) ==> Overran(s)
        decreases !leave, |r.Q()|, Rank(mode, length)
      {
        ghost var t := Abs();
        ghost var done := Overran(s);
        leave := OneState(lenfix, distfix);
        if !done { CameFrom(s, t); }
      }
    }

    /** One call of inflate without flushing: more input, and space for availOut bytes of output. */
    method Inflate(more: seq<Byte>, availOut: nat, finish: bool) returns (ret: Ret, put: seq<Byte>)
      requires Valid() && out == [] && (overrun ==> mode == BAD)
      modifies this, r, ring, ring.window, lens, work, codes
      ensures Valid() && out == [] && hist == old(hist) + put && |put| <= availOut
      ensures Overran(Feed(old(Abs()), BytesBits(more))) || Reaches(Feed(old(Abs()), BytesBits(more)), Abs())
      ensures Step(Abs()) == None || (NeedsSpace(Abs()) && |put| == availOut)
      ensures mode == DONE || mode == BAD || r.input == [] || |put| == availOut
      ensures (overrun ==> mode == BAD) && (old(overrun) ==> overrun && full == old(full))
      ensures overrun && !old(overrun) ==> Overran(Feed(old(Abs()), BytesBits(more)))
      ensures (ret == StreamEnd <==> mode == DONE) && (ret == DataError <==> mode == BAD)
      ensures ret == BufError <==>
              mode != DONE && mode != BAD && (finish || (put == [] && |r.input| == |old(r.input)| + |more|))
      ensures ret == ZOk <==>
              mode != DONE && mode != BAD && !finish && (put != [] || |r.input| != |old(r.input)| + |more|)
    {
      hide Decodes, FixedLl, FixedDl, Step, Reaches, Valid, Stream, BytesBits, Feed, NeedsSpace, Aligned, FromBits,
           Pow2, Low, High, Oversized, Abs, Overran, Shape;
      var lenfix, distfix := FixedTables();
      Supply(more, availOut);
      var have := |r.input|;
      Go(lenfix, distfix);
      Sums();
      var consumed := have != |r.input|;
      put := Leave(finish);
      ret := if mode == DONE then StreamEnd
             else if mode == BAD then DataError
             else if finish || (!consumed && put == []) then BufError
             else ZOk;
    }

    lemma Sums()
      requires Valid()
      ensures |out| + left == avail
    {
      hide Decodes, Step, Stream, Adler32Of, Ok, Aligned, NoLinks, Ring.Keeps;
    }

    /** inflate_fixed: the constant tables, as inflate_table makes them. */
    static method FixedTables() returns (lenfix: seq<Code>, distfix: seq<Code>)
      ensures Decodes(lenfix, 9, LENS, FixedLl()) && Decodes(distfix, 5, DISTS, FixedDl())
    {
      hide Decodes, Acceptable, Kraft, TableSize, TooBig, FixedLl, FixedDl, Room;
      FixedGood();
      FixedLongest();
      var work, fixed := new nat[288], new Code[ENOUGH_LENS + ENOUGH_DISTS];
      FixedRoom(fixed.Length - 0);
      var ret, used, root := InflateTable.InflateTable(LENS, FixedLl(), fixed, 0, 9, work);
      lenfix := fixed[0..used];
      ret, used, root := InflateTable.InflateTable(DISTS, FixedDl(), fixed, 0, 5, work);
      distfix := fixed[0..used];
    }

    static lemma FixedRoom(space: int)
      requires space >= ENOUGH_LENS
      ensures Room(LENS, FixedLl(), space, 9) && Room(DISTS, FixedDl(), space, 5)
      ensures ValidLens(FixedLl()) && ValidLens(FixedDl()) && |FixedLl()| == 288 && |FixedDl()| == 32
    {
    }

    static lemma FixedLongest()
      ensures LongestLength(FixedLl(), 9) && LongestLength(FixedDl(), 5) && !TooBig(LENS, Pow2(9))
      ensures !TooBig(DISTS, Pow2(5))
    {
      assert FixedLl()[144] == 9 && FixedDl()[0] == 5;
      assert Pow2(9) == 512 && Pow2(5) == 32;
    }

    lemma TypeBits(s: State)
      requires Valid() && mode == TYPE && s == Abs()
      ensures r.Valid() && r.bits <= 7 && s.mode == Type && s.q == r.Q() && s.last == last
    {
      hide FromBits, Stream, FixedLl, FixedDl, Adler32Of, Ring.Keeps;
      if r.bits > 7 { TypeGoes(AbsHeld()); }
    }

    /** Without input left, the bits in the accumulator are all there are. */
    lemma HeldAll()
      requires r.Valid() && r.input == [] && mode != BAD
      ensures AbsHeld() == Abs()
    {
      hide Stream, Aligned;
      WholeHeld(r);
    }
  }
}
