/** The blocks of a DEFLATE stream as _tr_flush_block writes them, and the proof that the machine of
    the format reads a whole stream of them back. */
module Blocks {
  import opened Bits
  import opened Canonical
  import opened DecodeTable
  import opened BitWriter
  import opened Adler
  import opened Format
  import opened Codec
  import opened Fixed
  import opened TreeHeader
  import InflateTable

  datatype Block =
    | StoredBlock(bytes: seq<Byte>)
    | FixedBlock(ts: seq<Token>)
    | DynBlock(c: Codes, cl: seq<nat>, ncode: nat, ts: seq<Token>)

  /** Trees that a dynamic block can be sent with and that inflate accepts. */
  ghost predicate SoundTrees(c: Codes, cl: seq<nat>, ncode: nat) {
    UsableHeader(c, cl, ncode) && UsableCodes(c) && InflateTable.Acceptable(CODES, cl) &&
    InflateTable.Acceptable(LENS, c.ll) && InflateTable.Acceptable(DISTS, c.dl)
  }

  ghost predicate ValidBlock(b: Block) {
    match b
    case StoredBlock(bytes) => |bytes| <= 65535
    case FixedBlock(ts) => forall t :: t in ts ==> ValidToken(t)
    case DynBlock(c, cl, ncode, ts) => SoundTrees(c, cl, ncode) && AllCoded(c, ts)
  }

  /** Zero bits from bit position at to the next byte. */
  function Pad(at: nat): (n: nat)
    ensures n < 8 && (at + n) % 8 == 0
  {
    (8 - at % 8) % 8
  }

  function LastBit(last: bool): nat { if last then 1 else 0 }

  /** The two length words and the bytes of a stored block. */
  function StoredBits(bytes: seq<Byte>): seq<bool>
    requires |bytes| <= 65535
  {
    ToBits(|bytes|, 16) + ToBits(65535 - |bytes|, 16) + BytesBits(bytes)
  }

  /** The bits of a block that starts at bit position at. */
  ghost function Encode(b: Block, last: bool, at: nat): seq<bool>
    requires ValidBlock(b)
  {
    match b
    case StoredBlock(bytes) => ToBits(LastBit(last), 3) + Zeros(Pad(at + 3)) + StoredBits(bytes)
    case FixedBlock(ts) => ToBits(2 + LastBit(last), 3) + FixedBits(ts)
    case DynBlock(c, cl, ncode, ts) => ToBits(4 + LastBit(last), 3) + HeaderBits(c, cl, ncode) + BlockBits(c, ts)
  }

  /** The data of a block in the fixed codes. */
  ghost function FixedBits(ts: seq<Token>): seq<bool>
    requires forall t :: t in ts ==> ValidToken(t)
  {
    FixedEncodes(ts); BlockBits(FixedCodes(), ts)
  }

  lemma FixedEncodes(ts: seq<Token>)
    requires forall t :: t in ts ==> ValidToken(t)
    ensures UsableCodes(FixedCodes()) && AllCoded(FixedCodes(), ts)
  {
    hide UsableCodes, FixedCodes;
    FixedUsable();
    FixedTokensBits(ts);
  }

  /** The block refers back no further than the output h before it. */
  predicate Fits(h: seq<Byte>, b: Block) { b.StoredBlock? || Reachable(h, b.ts) }

  /** The output after the block. */
  function After(h: seq<Byte>, b: Block): seq<Byte>
    requires Fits(h, b)
  {
    match b
    case StoredBlock(bytes) => h + bytes
    case FixedBlock(ts) => Expand(h, ts)
    case DynBlock(_, _, _, ts) => Expand(h, ts)
  }

  // ----- reading one block -----

  lemma HeaderParts3(v: nat, last: bool, rest: seq<bool>)
    requires v <= 3
    ensures var q := ToBits(2 * v + LastBit(last), 3) + rest;
            |q| >= 3 && q[0] == last && FromBits(q[1..3]) == v && q[3..] == rest
  {
    hide FromBits, ToBits;
    var x := 2 * v + LastBit(last);
    var b := ToBits(x, 3);
    ThreeBits(x);
    assert (b + rest)[1..3] == b[1..3] == ToBits(v, 2);
    FromToBits(v, 2);
    TwoBits(v);
  }

  lemma ThreeBits(x: nat)
    requires x < 8
    ensures ToBits(x, 3) == [x % 2 == 1] + ToBits(x / 2, 2)
  {
  }

  lemma TwoBits(v: nat)
    requires v <= 3
    ensures Low(v, 2) == v
  {
  }

  /** Reading a block header. */
  lemma TypeRead(s: State, v: nat, last: bool, rest: seq<bool>)
    requires s.mode == Type && !s.last && v <= 2 && s.q == ToBits(2 * v + LastBit(last), 3) + rest
    ensures v == 0 ==> Step(s) == Some(s.(mode := Stored, last := last, q := Aligned(rest)))
    ensures v == 1 ==> Step(s) == Some(s.(mode := Len(FixedCodes()), last := last, q := rest))
    ensures v == 2 ==> Step(s) == Some(s.(mode := Table, last := last, q := rest))
  {
    hide FromBits, ToBits;
    StepType(s);
    HeaderParts3(v, last, rest);
  }

  lemma FixedRead(s: State, ts: seq<Token>, last: bool, rest: seq<bool>)
    requires ValidBlock(FixedBlock(ts)) && Reachable(s.out, ts)
    requires s.mode == Type && !s.last && s.q == Encode(FixedBlock(ts), last, 0) + rest
    ensures Quiet(s, s.(mode := Type, last := last, out := Expand(s.out, ts), q := rest))
  {
    hide Quiet, UsableCodes, BlockBits, Step, ToBits, FixedCodes, Expand;
    FixedEncodes(ts);
    var q1 := BlockBits(FixedCodes(), ts) + rest;
    assert s.q == ToBits(2 + LastBit(last), 3) + q1;
    TypeRead(s, 1, last, q1);
    var t := s.(mode := Len(FixedCodes()), last := last, q := q1);
    QuietStep(s, t);
    BlockRoundTrip(t, FixedCodes(), ts, rest);
    QuietTrans(s, t, s.(mode := Type, last := last, out := Expand(s.out, ts), q := rest));
  }

  lemma DynRead(s: State, c: Codes, cl: seq<nat>, ncode: nat, ts: seq<Token>, last: bool, rest: seq<bool>)
    requires ValidBlock(DynBlock(c, cl, ncode, ts)) && Reachable(s.out, ts)
    requires s.mode == Type && !s.last && s.q == Encode(DynBlock(c, cl, ncode, ts), last, 0) + rest
    ensures Reaches(s, s.(mode := Type, last := last, out := Expand(s.out, ts), q := rest))
  {
    hide Reaches, Quiet, UsableHeader, BlockBits, Step, ToBits, HeaderBits, Expand, InflateTable.Acceptable, Kraft;
    var q2 := BlockBits(c, ts) + rest;
    var q1 := HeaderBits(c, cl, ncode) + q2;
    assert s.q == ToBits(4 + LastBit(last), 3) + q1;
    TypeRead(s, 2, last, q1);
    var t := s.(mode := Table, last := last, q := q1);
    ReachesStep(s, t);
    HeaderRoundTrip(t, c, cl, ncode, q2);
    var u := s.(mode := Len(c), last := last, q := q2);
    ReachesTrans(s, t, u);
    BlockRoundTrip(u, c, ts, rest);
    QuietReaches(u, s.(mode := Type, last := last, out := Expand(s.out, ts), q := rest));
    ReachesTrans(s, u, s.(mode := Type, last := last, out := Expand(s.out, ts), q := rest));
  }

  lemma StepStored(s: State, n: nat, rest: seq<bool>)
    requires s.mode == Stored && n <= 65535 && s.q == ToBits(n, 16) + ToBits(65535 - n, 16) + rest
    ensures Step(s) == Some(s.(mode := Copy(n), q := rest))
  {
    hide ToBits, FromBits, Pow2, TypeStep, LenLensStep, CodeLensStep, LenStep, DistStep;
    SixteenBits();
    ReadValue(n, 16, ToBits(65535 - n, 16) + rest);
    ReadValue(65535 - n, 16, rest);
    assert s.q == ToBits(n, 16) + (ToBits(65535 - n, 16) + rest);
    assert s.q[16..32] == (ToBits(65535 - n, 16) + rest)[..16];
    assert s.q[32..] == rest;
  }

  lemma SixteenBits()
    ensures Pow2(16) == 65536 && Pow2(8) == 256
  {
    assert Pow2(8) == 256;
  }

  /** Splitting off the first byte. */
  lemma {:induction false} BytesBitsFirst(b: Byte, bytes: seq<Byte>)
    ensures BytesBits([b] + bytes) == ToBits(b, 8) + BytesBits(bytes)
  {
    hide ToBits;
    var all := [b] + bytes;
    if bytes == [] {
      assert all[..0] == [] && [b] + [] == [b];
      assert ToBits(b, 8) + [] == ToBits(b, 8);
    } else {
      assert all[..|all| - 1] == [b] + bytes[..|bytes| - 1];
      BytesBitsFirst(b, bytes[..|bytes| - 1]);
      assert ToBits(b, 8) + BytesBits(bytes[..|bytes| - 1]) + ToBits(bytes[|bytes| - 1], 8) ==
             ToBits(b, 8) + BytesBits(bytes);
    }
  }

  lemma {:induction false} BytesBitsConcat(a: seq<Byte>, b: seq<Byte>)
    ensures BytesBits(a + b) == BytesBits(a) + BytesBits(b)
  {
    hide ToBits;
    if b == [] {
      assert a + b == a;
    } else {
      var n := |b| - 1;
      assert (a + b)[..|a + b| - 1] == a + b[..n];
      BytesBitsConcat(a, b[..n]);
    }
  }

  lemma StepCopy(s: State, n: nat, b: Byte, rest: seq<bool>)
    requires s.mode == Copy(n) && n > 0 && s.q == ToBits(b, 8) + rest
    ensures Step(s) == Some(s.(mode := Copy(n - 1), out := s.out + [b], q := rest))
  {
    hide ToBits, FromBits, Pow2, TypeStep, LenLensStep, CodeLensStep, LenStep, DistStep;
    SixteenBits();
    ReadValue(b, 8, rest);
  }

  lemma StepCopied(s: State)
    requires s.mode == Copy(0)
    ensures Step(s) == Some(s.(mode := Type))
  {
    assert s.q[0..] == s.q;
  }

  /** Copying the bytes of a stored block. */
  lemma {:induction false} CopySteps(s: State, bytes: seq<Byte>, rest: seq<bool>)
    requires s.mode == Copy(|bytes|) && s.q == BytesBits(bytes) + rest
    ensures Quiet(s, s.(mode := Type, out := s.out + bytes, q := rest))
    decreases |bytes|
  {
    hide Quiet, Step, ToBits, BytesBits;
    if bytes == [] {
      assert s.q == rest && s.out + bytes == s.out by { NoBytes(); }
      StepCopied(s);
      QuietStep(s, s.(mode := Type));
    } else {
      BytesBitsFirst(bytes[0], bytes[1..]);
      assert [bytes[0]] + bytes[1..] == bytes;
      var q1 := BytesBits(bytes[1..]) + rest;
      assert s.q == ToBits(bytes[0], 8) + q1;
      StepCopy(s, |bytes|, bytes[0], q1);
      var t := s.(mode := Copy(|bytes| - 1), out := s.out + [bytes[0]], q := q1);
      QuietStep(s, t);
      CopySteps(t, bytes[1..], rest);
      assert s.out + [bytes[0]] + bytes[1..] == s.out + bytes;
      QuietTrans(s, t, s.(mode := Type, out := s.out + bytes, q := rest));
    }
  }

  lemma NoBytes()
    ensures BytesBits([]) == []
  {
  }

  /** The header of a stored block, up to the byte boundary. */
  lemma StoredHeadRead(s: State, last: bool, at: nat, q1: seq<bool>)
    requires s.mode == Type && !s.last && (at + |s.q|) % 8 == 0
    requires s.q == ToBits(LastBit(last), 3) + Zeros(Pad(at + 3)) + q1
    ensures Step(s) == Some(s.(mode := Stored, last := last, q := q1))
  {
    hide Step, ToBits;
    var pad := Zeros(Pad(at + 3));
    assert s.q == ToBits(2 * 0 + LastBit(last), 3) + (pad + q1);
    TypeRead(s, 0, last, pad + q1);
    assert |pad + q1| % 8 == |pad| by { PadIs(at, |pad|, |q1|); }
    assert Aligned(pad + q1) == q1;
  }

  /** A stored block is read back if the stream, from bit position at on, is a whole number of bytes. */
  lemma StoredRead(s: State, bytes: seq<Byte>, last: bool, at: nat, rest: seq<bool>)
    requires |bytes| <= 65535 && s.mode == Type && !s.last
    requires s.q == Encode(StoredBlock(bytes), last, at) + rest && (at + |s.q|) % 8 == 0
    ensures Quiet(s, s.(mode := Type, last := last, out := s.out + bytes, q := rest))
  {
    hide Quiet, Step, ToBits, BytesBits, Pad, Zeros;
    var q2 := BytesBits(bytes) + rest;
    var q1 := ToBits(|bytes|, 16) + ToBits(65535 - |bytes|, 16) + q2;
    assert s.q == ToBits(LastBit(last), 3) + Zeros(Pad(at + 3)) + q1;
    StoredHeadRead(s, last, at, q1);
    var t := s.(mode := Stored, last := last, q := q1);
    QuietStep(s, t);
    StepStored(t, |bytes|, q2);
    var u := t.(mode := Copy(|bytes|), q := q2);
    QuietThen(s, t, u);
    CopySteps(u, bytes, rest);
    QuietTrans(s, u, s.(mode := Type, last := last, out := s.out + bytes, q := rest));
  }

  lemma PadIs(at: nat, pad: nat, n: nat)
    requires pad == Pad(at + 3) && (at + 3 + (pad + n)) % 8 == 0
    ensures (pad + n) % 8 == pad
  {
  }

  /** Whatever its type, a block is read back as the output it stands for, and nothing beyond it is
      read; code lengths are read only for a block with its own codes. */
  lemma BlockRead(s: State, b: Block, last: bool, at: nat, rest: seq<bool>)
    requires ValidBlock(b) && Fits(s.out, b) && s.mode == Type && !s.last
    requires s.q == Encode(b, last, at) + rest && (at + |s.q|) % 8 == 0
    ensures Reaches(s, s.(mode := Type, last := last, out := After(s.out, b), q := rest))
    ensures !b.DynBlock? ==> Quiet(s, s.(mode := Type, last := last, out := After(s.out, b), q := rest))
  {
    hide Reaches, Quiet, SoundTrees, BlockBits, Step, ToBits, HeaderBits, Expand, Reachable, StoredBits;
    match b
    case StoredBlock(bytes) =>
      StoredRead(s, bytes, last, at, rest);
      QuietReaches(s, s.(mode := Type, last := last, out := s.out + bytes, q := rest));
    case FixedBlock(ts) =>
      FixedRead(s, ts, last, rest);
      QuietReaches(s, s.(mode := Type, last := last, out := Expand(s.out, ts), q := rest));
    case DynBlock(c, cl, ncode, ts) => DynRead(s, c, cl, ncode, ts, last, rest);
  }

  // ----- reading a stream -----

  /** Blocks that follow each other after output h. */
  ghost predicate ValidStream(h: seq<Byte>, bs: seq<Block>)
    decreases |bs|
  {
    bs != [] && ValidBlock(bs[0]) && Fits(h, bs[0]) && (|bs| > 1 ==> ValidStream(After(h, bs[0]), bs[1..]))
  }

  ghost function EncodeAll(h: seq<Byte>, bs: seq<Block>, at: nat): seq<bool>
    requires ValidStream(h, bs)
    decreases |bs|
  {
    if |bs| == 1 then Encode(bs[0], true, at)
    else
      var b := Encode(bs[0], false, at);
      b + EncodeAll(After(h, bs[0]), bs[1..], at + |b|)
  }

  ghost function AfterAll(h: seq<Byte>, bs: seq<Block>): seq<Byte>
    requires ValidStream(h, bs)
    decreases |bs|
  {
    if |bs| == 1 then After(h, bs[0]) else AfterAll(After(h, bs[0]), bs[1..])
  }

  /** No block has codes of its own. */
  predicate NoCodes(bs: seq<Block>) {
    forall i :: 0 <= i < |bs| ==> !bs[i].DynBlock?
  }

  lemma {:induction false} StreamRead(s: State, bs: seq<Block>, at: nat, rest: seq<bool>)
    requires ValidStream(s.out, bs) && s.mode == Type && !s.last
    requires s.q == EncodeAll(s.out, bs, at) + rest && (at + |s.q|) % 8 == 0
    ensures Reaches(s, s.(mode := Type, last := true, out := AfterAll(s.out, bs), q := rest))
    ensures NoCodes(bs) ==> Quiet(s, s.(mode := Type, last := true, out := AfterAll(s.out, bs), q := rest))
    decreases |bs|
  {
    hide Reaches, Quiet, Encode, Step, After, Fits, ValidBlock;
    if |bs| == 1 {
      BlockRead(s, bs[0], true, at, rest);
    } else {
      var b, out := Encode(bs[0], false, at), After(s.out, bs[0]);
      var q1 := EncodeAll(out, bs[1..], at + |b|) + rest;
      assert s.q == b + q1;
      BlockRead(s, bs[0], false, at, q1);
      var t := s.(mode := Type, last := false, out := out, q := q1);
      StreamRead(t, bs[1..], at + |b|, rest);
      var u := s.(mode := Type, last := true, out := AfterAll(s.out, bs), q := rest);
      ReachesTrans(s, t, u);
      if NoCodes(bs) { QuietTrans(s, t, u); }
    }
  }

  /** A 32-bit number, most significant byte first. */
  function BigEndian(v: nat): (b: seq<Byte>)
    ensures |b| == 4
  {
    assert Pow2(8) == 256;
    [Low(High(v, 24), 8), Low(High(v, 16), 8), Low(High(v, 8), 8), Low(v, 8)]
  }

  /** The bits of four bytes, as inflate takes them. */
  lemma FourBytes(b: seq<Byte>)
    requires |b| == 4
    ensures FromBits(BytesBits(b)) == b[0] as int + 256 * b[1] as int + 65536 * b[2] as int + 16777216 * b[3] as int
  {
    hide FromBits, ToBits, Low, Shl, BytesBits;
    assert b == [b[0]] + ([b[1]] + ([b[2]] + ([b[3]] + [])));
    BytesBitsFirst(b[0], [b[1]] + ([b[2]] + ([b[3]] + [])));
    BytesBitsFirst(b[1], [b[2]] + ([b[3]] + []));
    BytesBitsFirst(b[2], [b[3]] + []);
    BytesBitsFirst(b[3], []);
    NoBytes();
    EmptyBits();
    ByteThen(b[3], []);
    ByteThen(b[2], ToBits(b[3], 8) + []);
    ByteThen(b[1], ToBits(b[2], 8) + (ToBits(b[3], 8) + []));
    ByteThen(b[0], ToBits(b[1], 8) + (ToBits(b[2], 8) + (ToBits(b[3], 8) + [])));
  }

  lemma EmptyBits()
    ensures FromBits([]) == 0
  {
  }

  lemma ByteThen(b: Byte, rest: seq<bool>)
    ensures FromBits(ToBits(b, 8) + rest) == b + 256 * FromBits(rest)
  {
    hide FromBits, ToBits, Shl;
    SixteenBits();
    FromBitsConcat(ToBits(b, 8), rest);
    FromToBits(b, 8);
    LowSmall(b, 8);
    ShlMul(FromBits(rest), 8);
  }

  /** ZSWAP32 undoes the byte order of the trailer. */
  lemma TrailerValue(v: nat)
    requires v < 4294967296
    ensures Swap32(FromBits(BytesBits(BigEndian(v)))) == v
  {
    hide FromBits, BytesBits;
    FourBytes(BigEndian(v));
    SixteenBits();
    SwapBytes(Low(High(v, 24), 8), Low(High(v, 16), 8), Low(High(v, 8), 8), Low(v, 8));
    WordBytes(v);
  }

  lemma WordBytes(v: nat)
    requires v < 4294967296
    ensures v == Low(v, 8) + 256 * Low(High(v, 8), 8) + 65536 * Low(High(v, 16), 8) + 16777216 * Low(High(v, 24), 8)
  {
    hide Low, High, Shl;
    SixteenBits();
    HighHigh(v, 8, 8);
    HighHigh(v, 16, 8);
    var a, b, c := High(v, 8), High(v, 16), High(v, 24);
    SplitByte(v);
    SplitByte(a);
    SplitByte(b);
    LowSmall(c, 8);
  }

  lemma SplitByte(v: nat)
    ensures v == 256 * High(v, 8) + Low(v, 8)
  {
    SixteenBits();
    Split(v, 8);
    ShlMul(High(v, 8), 8);
  }

  lemma SwapBytes(a: Byte, b: Byte, c: Byte, d: Byte)
    ensures Swap32(a + 256 * b + 65536 * c + 16777216 * d) == d + 256 * c + 65536 * b + 16777216 * a
  {
    hide Low, High;
    SixteenBits();
    var x := a + 256 * b + 65536 * c + 16777216 * d;
    ByteOfWord(a, b + 256 * c + 65536 * d);
    ByteOfWord(b, c + 256 * d);
    ByteOfWord(c, d);
    ByteOfWord(d, 0);
    HighHigh(x, 8, 8);
    HighHigh(x, 16, 8);
  }

  lemma ByteOfWord(a: Byte, rest: nat)
    ensures Low(a + 256 * rest, 8) == a && High(a + 256 * rest, 8) == rest
  {
    SixteenBits();
    LowHighOf(rest, a, 8);
    ShlMul(rest, 8);
  }

  /** What deflate writes after the last block: zero bits to the next byte and the check value. */
  function Trailer(at: nat, out: seq<Byte>): seq<bool> {
    Zeros(Pad(at)) + BytesBits(BigEndian(Adler32Of(out)))
  }

  lemma AdlerFits(out: seq<Byte>)
    ensures Adler32Of(out) < 4294967296
  {
  }

  lemma StepCheck(s: State, rest: seq<bool>)
    requires s.mode == Check && s.wrap && s.q == BytesBits(BigEndian(Adler32Of(s.out))) + rest
    ensures Step(s) == Some(s.(mode := Done, q := rest))
  {
    hide FromBits, BytesBits, Adler32Of, Swap32, BigEndian, TypeStep, LenLensStep, CodeLensStep, LenStep, DistStep;
    AdlerFits(s.out);
    TrailerValue(Adler32Of(s.out));
    assert s.q[..32] == BytesBits(BigEndian(Adler32Of(s.out))) && s.q[32..] == rest;
  }

  /** A zlib stream, from its first block on, is read back to its end: the output is what the blocks
      stand for, the check value is accepted, and nothing beyond the stream is read. */
  lemma ZlibRoundTrip(s: State, bs: seq<Block>, at: nat, rest: seq<bool>)
    requires ValidStream(s.out, bs) && s.mode == Type && !s.last && s.wrap
    requires s.q == EncodeAll(s.out, bs, at) + Trailer(at + |EncodeAll(s.out, bs, at)|, AfterAll(s.out, bs)) + rest
    requires |rest| % 8 == 0
    ensures Reaches(s, s.(mode := Done, last := true, out := AfterAll(s.out, bs), q := rest))
    ensures NoCodes(bs) ==> Quiet(s, s.(mode := Done, last := true, out := AfterAll(s.out, bs), q := rest))
  {
    hide Quiet, Reaches, EncodeAll, Step, AfterAll, ValidStream, BytesBits, BigEndian, Adler32Of;
    var e, out := EncodeAll(s.out, bs, at), AfterAll(s.out, bs);
    var tail := BytesBits(BigEndian(Adler32Of(out))) + rest;
    var q1 := Zeros(Pad(at + |e|)) + tail;
    assert s.q == e + q1;
    StreamRead(s, bs, at, q1);
    var t := s.(mode := Type, last := true, out := out, q := q1);
    StepType(t);
    assert Aligned(q1) == tail;
    var u := t.(mode := Check, q := tail);
    ReachesThen(s, t, u);
    StepCheck(u, rest);
    ReachesThen(s, u, u.(mode := Done, q := rest));
    if NoCodes(bs) {
      QuietThen(s, t, u);
      QuietThen(s, u, u.(mode := Done, q := rest));
    }
  }
}
