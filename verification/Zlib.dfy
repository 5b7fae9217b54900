/** deflate and inflate from end to end: what the compression loops flush is written as a zlib stream,
    block by block, and inflate gives it back. */
module Zlib {
  import opened Bits
  import opened BitWriter
  import opened Adler
  import opened Format
  import opened Codec
  import opened Compress
  import opened TreeHeader
  import opened Costs
  import opened Blocks
  import opened FlushBlock
  import opened Overlay
  import opened Deflate
  import opened RoundTrip
  import opened Inflate
  import opened Session
  import CodeCost

  // ----- flush_pending -----

  /** flush_pending, until everything has gone out: all whole bytes are handed to the caller. */
  method FlushPending(st: BlockWriter) returns (bytes: seq<Byte>)
    requires st.Tallied([]) && st.w.pending + 2 <= st.w.pendingBuf.Length
    modifies st.w, st.w.pendingBuf
    ensures st.Tallied([]) && st.w.pending == 0 && st.w.biValid <= 7
    ensures BytesBits(bytes) + st.w.Sent() == old(st.w.Sent())
    ensures old(st.w.biValid) == 0 ==> st.w.biValid == 0
  {
    hide BytesBits, ToBits, LFreq, DFreq, TokensOf;
    SentSize(st.w);
    st.w.BiFlush();
    SentSize(st.w);
    bytes := st.w.pendingBuf[..st.w.pending];
    NoneLeft(bytes, ToBits(st.w.biBuf, st.w.biValid));
    st.w.pending := 0;
    assert st.w.pendingBuf[..0] == [];
    assert st.SymBuf() == [];
  }

  lemma NoneLeft(bytes: seq<Byte>, rest: seq<bool>)
    ensures BytesBits(bytes) + (BytesBits([]) + rest) == BytesBits(bytes) + rest
  {
    NoBytes();
    assert [] + rest == rest;
  }

  /** Tally the tokens of a block. */
  method TallyAll(st: BlockWriter, ts: seq<Token>)
    requires st.Tallied([]) && AllValid(ts) && |ts| < st.litBufsize && st.w.pending == 0
    modifies st`symNext, st.w.pendingBuf, st.lfc, st.dfc
    ensures st.Tallied(ts) && st.w.Sent() == old(st.w.Sent())
  {
    hide BlockWriter.Tallied, BytesBits, ToBits;
    var i := 0;
    assert ts[..0] == [];
    Quietly(st, []);
    while i < |ts|
      invariant 0 <= i <= |ts| && st.Tallied(ts[..i]) && st.w.Valid() && st.w.Sent() == old(st.w.Sent())
    {
      var t := ts[i];
      assert t in ts;
      assert ts[..i] + [t] == ts[..i + 1];
      var full;
      match t {
        case Lit(b) => full := st.Tally(0, b, ts[..i]);
        case Match(dist, len) => full := st.Tally(dist, len - 3, ts[..i]);
      }
      i := i + 1;
      Quietly(st, ts[..i]);
    }
    assert ts[..i] == ts;
  }

  lemma Quietly(st: BlockWriter, ts: seq<Token>)
    requires st.Tallied(ts)
    ensures st.w.Valid()
  {
    hide BytesBits, ToBits, LFreq, DFreq, TokensOf;
  }

  // ----- blocks one after the other -----

  ghost predicate AllBlocks(bs: seq<Block>) { forall i :: 0 <= i < |bs| ==> ValidBlock(bs[i]) }

  /** The bits of blocks of which none is the last, from a byte boundary on. */
  ghost function Laid(bs: seq<Block>, at: nat): seq<bool>
    requires AllBlocks(bs)
  {
    if bs == [] then []
    else
      var before := Laid(bs[..|bs| - 1], at);
      before + Encode(bs[|bs| - 1], false, at + |before|)
  }

  /** Only the place within a byte matters. */
  lemma EncodeAt(b: Block, last: bool, at: nat, at': nat)
    requires ValidBlock(b) && at % 8 == at' % 8
    ensures Encode(b, last, at) == Encode(b, last, at')
  {
    hide ToBits, HeaderBits, BlockBits, FixedBits, StoredBits, SoundTrees, AllCoded, UsableCodes, Pad, Zeros, LastBit;
    SamePad(at + 3, at' + 3);
  }

  lemma SamePad(at: nat, at': nat)
    requires at % 8 == at' % 8
    ensures Pad(at) == Pad(at')
  {
  }

  lemma LaidNone(at: nat)
    ensures Laid([], at) == []
  {
  }

  lemma LaidEnd(bs: seq<Block>, at: nat)
    requires AllBlocks(bs) && bs != []
    ensures var before := Laid(bs[..|bs| - 1], at);
            Laid(bs, at) == before + Encode(bs[|bs| - 1], false, at + |before|)
  {
    hide Encode, ValidBlock;
  }

  lemma {:induction false} LaidFirst(bs: seq<Block>, at: nat)
    requires AllBlocks(bs) && bs != []
    ensures var b := Encode(bs[0], false, at); Laid(bs, at) == b + Laid(bs[1..], at + |b|)
    decreases |bs|
  {
    hide Encode, ValidBlock, Laid;
    var n := |bs| - 1;
    var b := Encode(bs[0], false, at);
    LaidNone(at);
    LaidNone(at + |b|);
    LaidEnd(bs, at);
    if n == 0 {
      assert bs[..0] == [] && bs[1..] == [];
      assert [] + b == b && b + [] == b;
    } else {
      LaidFirst(bs[..n], at);
      LaidEnd(bs[1..], at + |b|);
      assert bs[..n][1..] == bs[1..][..n - 1] && bs[1..][n - 1] == bs[n];
      var mid := Laid(bs[1..][..n - 1], at + |b|);
      var e := Encode(bs[n], false, at + |b| + |mid|);
      assert b + mid + e == b + (mid + e);
    }
  }

  /** The bits of a stream are those of its blocks, of which the last is marked. */
  lemma {:induction false} EncodeLaid(h: seq<Byte>, bs: seq<Block>, at: nat)
    requires ValidStream(h, bs) && AllBlocks(bs)
    ensures var before := Laid(bs[..|bs| - 1], at);
            EncodeAll(h, bs, at) == before + Encode(bs[|bs| - 1], true, at + |before|)
    decreases |bs|
  {
    hide Encode, ValidBlock, After, Fits;
    var n := |bs| - 1;
    if n == 0 {
      assert bs[..0] == [];
      assert [] + Encode(bs[0], true, at) == Encode(bs[0], true, at);
    } else {
      var b := Encode(bs[0], false, at);
      EncodeLaid(After(h, bs[0]), bs[1..], at + |b|);
      LaidFirst(bs[..n], at);
      assert bs[..n][0] == bs[0] && bs[..n][1..] == bs[1..][..n - 1] && bs[1..][n - 1] == bs[n];
      var mid := Laid(bs[1..][..n - 1], at + |b|);
      var e := Encode(bs[n], true, at + |b| + |mid|);
      assert b + (mid + e) == b + mid + e;
    }
  }

  // ----- writing a stream -----

  /** All input, as the compression loops hand it over: blocks that follow each other, the last of them
      marked, each of a size that _tr_flush_block takes. */
  ghost predicate Whole(fs: seq<Flushed>, data: seq<Byte>, litBufsize: nat, strategy: Strategy) {
    Continues(fs) && Replay(fs) == data && fs != [] && fs[|fs| - 1].last &&
    (forall i :: 0 <= i < |fs| - 1 ==> !fs[i].last) &&
    AllHandy(fs, litBufsize, strategy)
  }

  /** No block's data can overtake its symbols, whatever codes of its own it gets. */
  ghost predicate AllRoomy(fs: seq<Flushed>, litBufsize: nat) {
    forall i :: 0 <= i < |fs| ==> RoomFor(fs[i].ts, litBufsize)
  }

  /** What _tr_flush_block may be told of block i. */
  lemma BlockFacts(fs: seq<Flushed>, data: seq<Byte>, litBufsize: nat, strategy: Strategy, i: nat)
    requires Whole(fs, data, litBufsize, strategy) && i < |fs|
    ensures AllValid(fs[i].ts) && |fs[i].ts| < litBufsize && (fs[i].last <==> i == |fs| - 1)
    ensures 0 <= fs[i].storedLen && (fs[i].buf.Some? ==> fs[i].storedLen == |fs[i].buf.v| <= 65535)
  {
    hide Replay, Expand, Reachable;
    BlockAt(fs, i);
    assert fs[..i + 1][..i] == fs[..i];
    assert Handy(fs[i], litBufsize, strategy);
  }

  /** The blocks sent for the first of fs. */
  ghost predicate SentFor(fs: seq<Flushed>, bs: seq<Block>, fixedOnly: bool) {
    |bs| <= |fs| && AllBlocks(bs) && (forall i :: 0 <= i < |bs| ==> EncodedAs(fs[i], bs[i])) &&
    (fixedOnly ==> NoCodes(bs)) && AllBest(fs, bs, fixedOnly)
  }

  /** Each block is in the encoding that takes the fewest bytes. */
  ghost predicate AllBest(fs: seq<Flushed>, bs: seq<Block>, fixedOnly: bool) {
    |bs| <= |fs| && forall i :: 0 <= i < |bs| ==> WellChosen(bs[i], fs[i].buf, fs[i].ts, fixedOnly)
  }

  lemma SentMore(fs: seq<Flushed>, bs: seq<Block>, fixedOnly: bool, b: Block)
    requires SentFor(fs, bs, fixedOnly) && |bs| < |fs| && Encodes(b, fs[|bs|].buf, fs[|bs|].ts)
    requires (fixedOnly ==> !b.DynBlock?) && WellChosen(b, fs[|bs|].buf, fs[|bs|].ts, fixedOnly)
    ensures SentFor(fs, bs + [b], fixedOnly)
  {
    hide ValidBlock, WellChosen;
    var i := |bs|;
    assert EncodedAs(fs[i], b);
  }

  /** One block is tallied, sent and flushed. */
  method WriteBlock(st: BlockWriter, f: Flushed, fixedOnly: bool, ghost at: nat)
    returns (bytes: seq<Byte>, ghost b: Block)
    requires st.Tallied([]) && st.w.pending == 0 && st.w.biValid <= 7 && at % 8 == st.w.biValid
    requires AllValid(f.ts) && |f.ts| < st.litBufsize && 0 <= f.storedLen
    requires f.buf.Some? ==> f.storedLen == |f.buf.v| <= 65535
    requires fixedOnly || RoomFor(f.ts, st.litBufsize)
    modifies st`symNext, st`lMax, st`dMax, st`optLen, st`staticLen, st.w, st.w.pendingBuf, st.Trees()
    ensures st.Tallied([]) && st.w.pending == 0 && st.w.biValid <= 7
    ensures Encodes(b, f.buf, f.ts) && (fixedOnly ==> !b.DynBlock?) && WellChosen(b, f.buf, f.ts, fixedOnly)
    ensures Appends(b, f.last, at, old(st.w.Sent()), BytesBits(bytes) + st.w.Sent())
    ensures f.last ==> st.w.biValid == 0
  {
    hide BlockWriter.Tallied, BytesBits, ToBits, RoomFor, Appends, Encodes, Best, ThriftyCodes, Trimmed;
    TallyAll(st, f.ts);
    Quietly(st, f.ts);
    ghost var s0 := st.w.Sent();
    ghost var own;
    b, own := st.TrFlushBlock(f.buf, f.storedLen, f.last, fixedOnly, f.ts);
    Quietly(st, []);
    AppendsAt(b, f.last, st.w.Sent(), s0, at % 8, at);
    bytes := FlushPending(st);
    Quietly(st, []);
  }

  lemma AppendsAt(b: Block, last: bool, s1: seq<bool>, s0: seq<bool>, at: nat, at': nat)
    requires Appends(b, last, at, s0, s1) && at % 8 == at' % 8
    ensures Appends(b, last, at', s0, s1)
  {
    hide Encode, ValidBlock, Pad, Zeros;
    EncodeAt(b, last, at, at');
    SamePad(at + |Encode(b, last, at)|, at' + |Encode(b, last, at)|);
  }

  /** A block sent after those laid out so far. */
  lemma LaidMore(bs: seq<Block>, b: Block, s0: seq<bool>, s1: seq<bool>)
    requires AllBlocks(bs) && s0 == Laid(bs, 0) && Appends(b, false, |s0|, s0, s1)
    ensures AllBlocks(bs + [b]) && s1 == Laid(bs + [b], 0)
  {
    hide Encode, ValidBlock;
    assert (bs + [b])[..|bs|] == bs;
    assert s1 == s0 + Encode(b, false, |s0|);
  }

  /** The last block, and zero bits to the next byte. */
  lemma LaidLast(bs: seq<Block>, b: Block, s0: seq<bool>, s1: seq<bool>)
    requires AllBlocks(bs) && s0 == Laid(bs, 0) && Appends(b, true, |s0|, s0, s1) && ValidStream([], bs + [b])
    ensures var e := EncodeAll([], bs + [b], 0); s1 == e + Zeros(Pad(|e|))
  {
    hide Encode, ValidBlock, ValidStream, Pad, Zeros;
    var all := bs + [b];
    assert all[..|all| - 1] == bs;
    ValidLast(b, |s0|, s0, s1);
    EncodeLaid([], all, 0);
  }

  lemma ValidLast(b: Block, at: nat, s0: seq<bool>, s1: seq<bool>)
    requires Appends(b, true, at, s0, s1)
    ensures ValidBlock(b)
  {
  }

  /** Where the stream is within a byte. */
  lemma Within(bytes: seq<Byte>, st: BlockWriter, s: seq<bool>)
    requires st.w.Valid() && st.w.pending == 0 && st.w.biValid <= 7 && s == BytesBits(bytes) + st.w.Sent()
    ensures |s| % 8 == st.w.biValid
  {
    hide BytesBits, ToBits;
    SentSize(st.w);
  }

  lemma Joins(out: seq<Byte>, bytes: seq<Byte>, held: seq<bool>)
    ensures BytesBits(out + bytes) + held == BytesBits(out) + (BytesBits(bytes) + held)
  {
    hide BytesBits;
    BytesBitsConcat(out, bytes);
  }

  /** A block that follows what is held follows all that has been written. */
  lemma AppendsTo(before: seq<bool>, b: Block, last: bool, at: nat, s0: seq<bool>, s1: seq<bool>)
    requires Appends(b, last, at, s0, s1)
    ensures Appends(b, last, at, before + s0, before + s1)
  {
    hide Encode, ValidBlock, Pad, Zeros;
    var e, z := Encode(b, last, at), Zeros(if last then Pad(at + |Encode(b, last, at)|) else 0);
    assert before + (s0 + e + z) == before + s0 + e + z;
  }

  /** All blocks but the last. */
  method WriteFirst(st: BlockWriter, fs: seq<Flushed>, ghost data: seq<Byte>, strategy: Strategy, n: nat)
    returns (out: seq<Byte>, ghost bs: seq<Block>)
    requires st.Tallied([]) && st.w.pending == 0 && st.w.biValid == 0 && st.w.Valid() && st.w.Sent() == [] && n < |fs|
    requires Whole(fs, data, st.litBufsize, strategy) && (strategy == FixedCodes || AllRoomy(fs, st.litBufsize))
    modifies st`symNext, st`lMax, st`dMax, st`optLen, st`staticLen, st.w, st.w.pendingBuf, st.Trees()
    ensures st.Tallied([]) && st.w.pending == 0 && st.w.biValid <= 7
    ensures |bs| == n && SentFor(fs, bs, strategy == FixedCodes) && BytesBits(out) + st.w.Sent() == Laid(bs, 0)
  {
    hide BlockWriter.Tallied, BytesBits, ToBits, RoomFor, Appends, Encodes, Whole, SentFor, Laid, WellChosen;
    out, bs := [], [];
    Quietly(st, []);
    NothingSent(fs, strategy == FixedCodes);
    var i := 0;
    while i < n
      invariant 0 <= i <= n && |bs| == i && st.Tallied([]) && st.w.Valid() && st.w.pending == 0 && st.w.biValid <= 7
      invariant SentFor(fs, bs, strategy == FixedCodes) && AllBlocks(bs) && BytesBits(out) + st.w.Sent() == Laid(bs, 0)
    {
      BlockFacts(fs, data, st.litBufsize, strategy, i);
      ghost var s0, s1 := st.w.Sent(), Laid(bs, 0);
      Within(out, st, s1);
      var bytes; ghost var b;
      bytes, b := WriteBlock(st, fs[i], strategy == FixedCodes, |s1|);
      Quietly(st, []);
      AppendsTo(BytesBits(out), b, false, |s1|, s0, BytesBits(bytes) + st.w.Sent());
      Joins(out, bytes, st.w.Sent());
      LaidMore(bs, b, s1, BytesBits(out + bytes) + st.w.Sent());
      SentMore(fs, bs, strategy == FixedCodes, b);
      out, bs := out + bytes, bs + [b];
      i := i + 1;
    }
  }

  lemma NothingSent(fs: seq<Flushed>, fixedOnly: bool)
    ensures SentFor(fs, [], fixedOnly) && AllBlocks([]) && BytesBits([]) + [] == Laid([], 0)
  {
  }

  // ----- the trailer -----

  /** putShortMSB: a 16-bit number, high byte first. */
  method PutShortMsb(w: BitWriter, b: nat)
    requires w.Valid() && w.biValid == 0 && w.pending + 2 <= w.pendingBuf.Length
    modifies w, w.pendingBuf
    ensures w.Valid() && w.biValid == 0 && w.pending == old(w.pending) + 2
    ensures w.pendingBuf[..w.pending] == old(w.pendingBuf[..w.pending]) + [Low(High(b, 8), 8), Low(b, 8)]
  {
    hide BytesBits, ToBits, Low, High, Pow2;
    Byte8(High(b, 8));
    Byte8(b);
    w.PutByte(High(b, 8));
    w.PutByte(b);
  }

  lemma Byte8(v: nat)
    ensures Low(v, 8) < 256
  {
    assert Pow2(8) == 256;
  }

  /** The check value, most significant byte first. */
  method PutCheck(st: BlockWriter, adler: nat) returns (bytes: seq<Byte>)
    requires st.Tallied([]) && st.w.pending == 0 && st.w.biValid == 0
    modifies st.w, st.w.pendingBuf
    ensures bytes == BigEndian(adler)
  {
    hide BytesBits, ToBits, Low, High, Pow2, LFreq, DFreq, TokensOf;
    PutShortMsb(st.w, High(adler, 16));
    PutShortMsb(st.w, Low(adler, 16));
    HighHigh(adler, 16, 8);
    HighOfLow(adler, 8, 8);
    LowLow(adler, 8, 16);
    LowLow(High(adler, 8), 8, 8);
    FourOf(adler);
    bytes := st.w.pendingBuf[..st.w.pending];
  }

  lemma FourOf(v: nat)
    ensures BigEndian(v)[..] == [Low(High(v, 24), 8), Low(High(v, 16), 8), Low(High(v, 8), 8), Low(v, 8)]
  {
  }

  lemma NothingHeld(st: BlockWriter)
    requires st.w.Valid() && st.w.pending == 0 && st.w.biValid == 0
    ensures st.w.Sent() == []
  {
    hide BytesBits;
    NoBytes();
    assert st.w.pendingBuf[..0] == [];
  }

  lemma WholeSome(fs: seq<Flushed>, data: seq<Byte>, litBufsize: nat, strategy: Strategy)
    requires Whole(fs, data, litBufsize, strategy)
    ensures fs != [] && Continues(fs) && Replay(fs) == data
  {
    hide Continues, Replay;
  }

  lemma RoomyAt(fs: seq<Flushed>, litBufsize: nat, i: nat)
    requires AllRoomy(fs, litBufsize) && i < |fs|
    ensures RoomFor(fs[i].ts, litBufsize)
  {
    hide RoomFor;
  }

  lemma SentBlocks(fs: seq<Flushed>, bs: seq<Block>, fixedOnly: bool)
    requires SentFor(fs, bs, fixedOnly)
    ensures AllBlocks(bs) && (|bs| == |fs| && fs != [] && Continues(fs) ==> AllEncoded(fs, bs))
    ensures (fixedOnly ==> NoCodes(bs)) && AllBest(fs, bs, fixedOnly)
  {
    hide ValidBlock, EncodedAs, Continues, WellChosen;
  }

  /** The last block and the trailer complete the stream. */
  lemma Finished(fs: seq<Flushed>, first: seq<Block>, b: Block, out: seq<Byte>, s1: seq<bool>)
    requires AllBlocks(first) && AllEncoded(fs, first + [b])
    requires s1 == Laid(first, 0) && Appends(b, true, |s1|, s1, BytesBits(out))
    ensures BytesBits(out + BigEndian(Adler32Of(Replay(fs)))) == StreamBits(fs, first + [b], 0)
  {
    hide BytesBits, BigEndian, Adler32Of, Replay, Continues, ValidBlock, ValidStream, EncodedAs, EncodeAll, Laid,
         Appends, Pad, Zeros;
    var bs := first + [b];
    EncodedStream(fs, bs);
    LaidLast(first, b, s1, BytesBits(out));
    var e, check := EncodeAll([], bs, 0), BigEndian(Adler32Of(Replay(fs)));
    BytesBitsConcat(out, check);
    assert e + Zeros(Pad(|e|)) + BytesBits(check) == e + (Zeros(Pad(|e|)) + BytesBits(check));
  }

  /** deflate's output for the blocks fs, after the stream's header. */
  method WriteStream(fs: seq<Flushed>, adler: nat, memLevel: nat, strategy: Strategy)
    returns (out: seq<Byte>, ghost bs: seq<Block>)
    requires 1 <= memLevel <= 9 && Continues(fs) && Whole(fs, Replay(fs), Shl(1, memLevel + 6), strategy)
    requires adler == Adler32Of(Replay(fs)) && (strategy == FixedCodes || AllRoomy(fs, Shl(1, memLevel + 6)))
    ensures AllEncoded(fs, bs) && (strategy == FixedCodes ==> NoCodes(bs)) && AllBest(fs, bs, strategy == FixedCodes)
    ensures BytesBits(out) == StreamBits(fs, bs, 0)
  {
    hide BlockWriter.Tallied, BytesBits, ToBits, RoomFor, Appends, Encodes, Whole, SentFor, Laid, Shl, AllEncoded,
         StreamBits, BigEndian, Adler32Of, AllRoomy, Replay, Continues, NoCodes, AllBlocks, WellChosen, AllBest;
    var st := new BlockWriter(memLevel);
    st.InitBlock();
    Quietly(st, []);
    WholeSome(fs, Replay(fs), Shl(1, memLevel + 6), strategy);
    var n := |fs| - 1;
    ghost var first;
    out, first := WriteFirst(st, fs, Replay(fs), strategy, n);
    Quietly(st, []);
    BlockFacts(fs, Replay(fs), st.litBufsize, strategy, n);
    SentBlocks(fs, first, strategy == FixedCodes);
    if strategy != FixedCodes { RoomyAt(fs, st.litBufsize, n); }
    ghost var s0, s1 := st.w.Sent(), BytesBits(out) + st.w.Sent();
    Within(out, st, s1);
    var bytes; ghost var b;
    bytes, b := WriteBlock(st, fs[n], strategy == FixedCodes, |s1|);
    Quietly(st, []);
    NothingHeld(st);
    AppendsTo(BytesBits(out), b, true, |s1|, s0, BytesBits(bytes) + st.w.Sent());
    Joins(out, bytes, st.w.Sent());
    assert BytesBits(out + bytes) + [] == BytesBits(out + bytes);
    SentMore(fs, first, strategy == FixedCodes, b);
    bs := first + [b];
    SentBlocks(fs, bs, strategy == FixedCodes);
    Finished(fs, first, b, out + bytes, s1);
    var check := PutCheck(st, adler);
    out := out + bytes + check;
  }

  // ----- there and back -----

  /** All input of the calls. */
  function Given(calls: seq<Call>): seq<Byte> {
    if calls == [] then [] else Given(calls[..|calls| - 1]) + calls[|calls| - 1].more
  }

  lemma {:induction false} GivenBits(calls: seq<Call>)
    ensures Input(calls) == BytesBits(Given(calls))
  {
    hide BytesBits;
    if calls == [] {
      NoBytes();
    } else {
      var n := |calls| - 1;
      GivenBits(calls[..n]);
      assert calls[..n] + [calls[n]] == calls;
      InputNext(calls[..n], calls[n]);
      BytesBitsConcat(Given(calls[..n]), calls[n].more);
    }
  }

  lemma GivenMore(calls: seq<Call>, call: Call)
    ensures Given(calls + [call]) == Given(calls) + call.more
  {
    assert (calls + [call])[..|calls|] == calls;
  }

  /** Divide bytes into calls with so much input and so much output space each; the last call gets what
      is left, and ample space. */
  method Divide(bytes: seq<Byte>, cuts: seq<(nat, nat)>, ample: nat) returns (calls: seq<Call>)
    ensures Given(calls) == bytes && |calls| == |cuts| + 1 && calls[|cuts|].space == ample
    ensures forall i :: 0 <= i < |cuts| ==> calls[i].space == cuts[i].1 && |calls[i].more| <= cuts[i].0
  {
    hide Given;
    calls := [];
    var rest := bytes;
    NoneGiven(bytes);
    for i := 0 to |cuts|
      invariant |calls| == i && Given(calls) + rest == bytes
      invariant forall k :: 0 <= k < i ==> calls[k].space == cuts[k].1 && |calls[k].more| <= cuts[k].0
    {
      var n := if cuts[i].0 <= |rest| then cuts[i].0 else |rest|;
      GivenMore(calls, Call(rest[..n], cuts[i].1, false));
      assert Given(calls) + rest[..n] + rest[n..] == Given(calls) + rest;
      calls := calls + [Call(rest[..n], cuts[i].1, false)];
      rest := rest[n..];
    }
    GivenMore(calls, Call(rest, ample, true));
    calls := calls + [Call(rest, ample, true)];
  }

  lemma NoneGiven(bytes: seq<Byte>)
    ensures Given([]) + bytes == bytes
  {
  }

  lemma LastPut(puts: seq<seq<Byte>>)
    requires puts != []
    ensures |puts[|puts| - 1]| <= |Joined(puts)|
  {
  }

  /** Write the blocks fs as a zlib stream and read it back, in calls of any sizes: inflate accepts the
      stream and puts out exactly what the blocks stand for. Only tables that are too large can keep it
      from that, and blocks in the fixed codes have none. */
  method WriteAndRead(fs: seq<Flushed>, adler: nat, memLevel: nat, strategy: Strategy, cuts: seq<(nat, nat)>,
                      ample: nat)
    returns (puts: seq<seq<Byte>>, z: Inflater)
    requires 1 <= memLevel <= 9 && Continues(fs) && Whole(fs, Replay(fs), Shl(1, memLevel + 6), strategy)
    requires adler == Adler32Of(Replay(fs)) && (strategy == FixedCodes || AllRoomy(fs, Shl(1, memLevel + 6)))
    requires ample > |Replay(fs)|
    ensures |puts| == |cuts| + 1 && forall i :: 0 <= i < |cuts| ==> |puts[i]| <= cuts[i].1
    ensures z.overrun || (z.mode == DONE && Joined(puts) == Replay(fs))
    ensures z.overrun ==> z.mode == BAD && strategy != FixedCodes && Oversized(z.full)
  {
    hide Whole, Shl, AllEncoded, StreamBits, Adler32Of, AllRoomy, Replay, Continues, NoCodes, BytesBits, Input, Joined,
         Arrives;
    var out; ghost var bs;
    out, bs := WriteStream(fs, adler, memLevel, strategy);
    var calls := Divide(out, cuts, ample);
    GivenBits(calls);
    assert BytesBits(out) == StreamBits(fs, bs, 0) + [];
    puts, z := InflateStream(calls, fs, bs, 0, []);
    LastPut(puts);
  }

  /** No Huffman tree for a block's symbols is deeper than 15. */
  ghost predicate Shallow(f: Flushed) {
    AllValid(f.ts) ==> !CodeCost.Deep(LFreq(f.ts), LDesc()) && !CodeCost.Deep(DFreq(f.ts), DDesc())
  }

  ghost predicate AllShallow(fs: seq<Flushed>) { forall i :: 0 <= i < |fs| ==> Shallow(fs[i]) }

  /** When the blocks of a stream have room: with the strategies of few symbols always, and with
      deflateInit's memLevel or the one below unless a Huffman tree is too deep. */
  lemma WhenRoomy(fs: seq<Flushed>, data: seq<Byte>, memLevel: nat, strategy: Strategy)
    requires 1 <= memLevel <= 9 && Whole(fs, data, Shl(1, memLevel + 6), strategy)
    requires (memLevel >= 3 && (strategy == HuffmanOnly || strategy == RunLength)) || (memLevel >= 7 && AllShallow(fs))
    ensures AllRoomy(fs, Shl(1, memLevel + 6))
  {
    hide Shl, RoomFor, CodeCost.Deep, LFreq, DFreq, Replay, Continues, LiteralsOnly, RunsOnly, Pow2;
    var size := Shl(1, memLevel + 6);
    BufferSize(memLevel);
    forall i | 0 <= i < |fs| ensures RoomFor(fs[i].ts, size) {
      BlockFacts(fs, data, size, strategy, i);
      assert Handy(fs[i], size, strategy);
      if memLevel >= 7 && AllShallow(fs) {
        assert Shallow(fs[i]);
        RoomUnlessDeep(fs[i].ts, size);
      } else if strategy == HuffmanOnly {
        RoomForLiterals(fs[i].ts, size);
      } else {
        RoomForRuns(fs[i].ts, size);
      }
    }
  }

  lemma BufferSize(memLevel: nat)
    requires 1 <= memLevel <= 9
    ensures memLevel >= 3 ==> Shl(1, memLevel + 6) >= 512
    ensures memLevel >= 7 ==> Shl(1, memLevel + 6) >= 8192
  {
    hide Shl, Pow2;
    ShlOne(memLevel + 6);
    Powers();
    if memLevel >= 3 { Pow2Mono(9, memLevel + 6); }
    if memLevel >= 7 { Pow2Mono(13, memLevel + 6); }
  }

  lemma Powers()
    ensures Pow2(9) == 512 && Pow2(13) == 8192
  {
    assert Pow2(9) == 512;
  }

  /** However data is cut into blocks of tokens by this strategy, its blocks have room. */
  ghost predicate AlwaysRoomy(data: seq<Byte>, litBufsize: nat, strategy: Strategy) {
    forall fs :: Whole(fs, data, litBufsize, strategy) ==> AllRoomy(fs, litBufsize)
  }

  lemma FewSymbols(data: seq<Byte>, memLevel: nat, strategy: Strategy)
    requires 3 <= memLevel <= 9 && (strategy == HuffmanOnly || strategy == RunLength)
    ensures AlwaysRoomy(data, Shl(1, memLevel + 6), strategy)
  {
    hide Shl, AllRoomy, Whole;
    var size := Shl(1, memLevel + 6);
    forall fs | Whole(fs, data, size, strategy) ensures AllRoomy(fs, size) {
      WhenRoomy(fs, data, memLevel, strategy);
    }
  }

  /** Every match stands for at least three bytes. */
  lemma {:induction false} MatchesSpan(h: seq<Byte>, ts: seq<Token>)
    requires AllValid(ts) && Reachable(h, ts)
    ensures |Expand(h, ts)| >= |h| + 3 * Matches(ts)
  {
    if ts != [] {
      var n := |ts| - 1;
      assert ts[n] in ts;
      MatchesSpan(h, ts[..n]);
    }
  }

  lemma {:induction false} ReplayGrows(fs: seq<Flushed>, k: nat)
    requires Continues(fs) && k <= |fs|
    ensures Continues(fs[..k]) && |Replay(fs[..k])| <= |Replay(fs)|
    decreases |fs|
  {
    hide Expand, Reachable;
    if k == |fs| {
      assert fs[..k] == fs;
    } else {
      var n := |fs| - 1;
      ReplayGrows(fs[..n], k);
      assert fs[..n][..k] == fs[..k];
    }
  }

  /** A little input has room whatever the strategy: with deflateInit's memLevel, up to 16098 bytes. */
  lemma LittleData(data: seq<Byte>, memLevel: nat, strategy: Strategy)
    requires 3 <= memLevel <= 9 && 2285 + 8 * |data| < 8 * Shl(1, memLevel + 6)
    ensures AlwaysRoomy(data, Shl(1, memLevel + 6), strategy)
  {
    hide Shl, AllRoomy, Whole;
    var size := Shl(1, memLevel + 6);
    BufferSize(memLevel);
    forall fs | Whole(fs, data, size, strategy) ensures AllRoomy(fs, size) {
      LittleBlocks(fs, data, size, strategy);
    }
  }

  lemma LittleBlocks(fs: seq<Flushed>, data: seq<Byte>, size: nat, strategy: Strategy)
    requires Whole(fs, data, size, strategy) && 512 <= size && 2285 + 8 * |data| < 8 * size
    ensures AllRoomy(fs, size)
  {
    hide RoomFor, Replay, Continues, Expand, Reachable, Matches;
    forall i | 0 <= i < |fs| ensures RoomFor(fs[i].ts, size) {
      BlockFacts(fs, data, size, strategy, i);
      BlockAt(fs, i);
      ReplayGrows(fs, i + 1);
      MatchesSpan(Replay(fs[..i]), fs[i].ts);
      RoomForFew(fs[i].ts, size);
    }
  }

  /** deflate and then inflate, with input and output in portions of any sizes at both ends: what comes
      out is what went in. With Z_FIXED this holds without condition; otherwise blocks need room in the
      overlaid buffers, and their tables must fit inflate's. */
  method DeflateInflate(chunks: seq<seq<Byte>>, wBits: nat, memLevel: nat, level: nat, strategy: Strategy,
                        cuts: seq<(nat, nat)>)
    returns (puts: seq<seq<Byte>>, z: Inflater)
    requires 9 <= wBits <= 15 && 1 <= memLevel <= 9 && 1 <= level <= 9
    requires strategy == FixedCodes || AlwaysRoomy(Joined(chunks), Shl(1, memLevel + 6), strategy)
    ensures z.overrun || (z.mode == DONE && Joined(puts) == Joined(chunks))
    ensures z.overrun ==> z.mode == BAD && strategy != FixedCodes && Oversized(z.full)
  {
    hide AllRoomy, Shl, Adler32Of, Replay, Continues, Joined, AllHandy;
    var d := CompressAll(chunks, wBits, memLevel, level, strategy);
    var ample := |Joined(chunks)| + 1;
    assert Whole(d.blocks, Joined(chunks), Shl(1, memLevel + 6), strategy);
    puts, z := WriteAndRead(d.blocks, d.m.adler, memLevel, strategy, cuts, ample);
  }
}
