/** deflate_stored of deflate.c, while the compression level stays 0: input goes out in stored blocks,
    directly or by way of the window and the pending buffer. */
module Stored {
  import opened Bits
  import opened BitWriter
  import opened Blocks
  import opened FlushBlock
  import opened FlushMode
  import Format

  const MAX_STORED: nat := 65535

  /** A stored block that has been written. */
  datatype Piece = Piece(bytes: seq<Byte>, last: bool)

  predicate Sound(bs: seq<Piece>) { forall i :: 0 <= i < |bs| ==> |bs[i].bytes| <= MAX_STORED }

  /** The bits of the blocks, from bit position at on. */
  ghost function StreamOf(bs: seq<Piece>, at: nat): seq<bool>
    requires Sound(bs)
  {
    if bs == [] then []
    else
      var init, b := StreamOf(bs[..|bs| - 1], at), bs[|bs| - 1];
      init + Encode(StoredBlock(b.bytes), b.last, at + |init|)
  }

  /** What the blocks hold. */
  function Payload(bs: seq<Piece>): seq<Byte> {
    if bs == [] then [] else Payload(bs[..|bs| - 1]) + bs[|bs| - 1].bytes
  }

  lemma OneMore(bs: seq<Piece>, b: Piece, at: nat)
    requires Sound(bs) && |b.bytes| <= MAX_STORED
    ensures Sound(bs + [b]) && Payload(bs + [b]) == Payload(bs) + b.bytes
    ensures StreamOf(bs + [b], at) == StreamOf(bs, at) + Encode(StoredBlock(b.bytes), b.last, at + |StreamOf(bs, at)|)
  {
    hide Encode;
    assert (bs + [b])[..|bs + [b]| - 1] == bs;
  }

  /** The last n bytes. */
  function Tail(s: seq<Byte>, n: nat): seq<Byte>
    requires n <= |s|
  {
    s[|s| - n..]
  }

  /** The encoding of a block depends on its position by where in a byte it is. */
  lemma SamePlace(bytes: seq<Byte>, last: bool, at: nat, at': nat)
    requires |bytes| <= MAX_STORED && at % 8 == at' % 8
    ensures Encode(StoredBlock(bytes), last, at) == Encode(StoredBlock(bytes), last, at')
  {
    hide ToBits, BytesBits, Pad;
    SamePart(at, at');
    PadSame(at + 3, at' + 3);
  }

  class Storer {
    const w: BitWriter
    const window: array<Byte>
    const wSize: nat
    var strstart: nat
    var blockStart: nat
    var insert: nat
    var matches: nat
    var highWater: nat
    var input: seq<Byte>       // next_in and avail_in
    var availOut: nat
    var output: seq<Byte>      // what has gone to next_out
    var unsent: seq<Byte>      // what next_out had no room for
    ghost var all: seq<Byte>   // all input taken
    ghost var paid: seq<Byte>  // what all blocks written hold

    constructor (w: BitWriter, wSize: nat)
      requires w.Valid() && w.pending == 0 && w.biValid <= 7 && 0 < wSize <= 32768 && w.pendingBuf.Length >= 16
      ensures Valid() && input == [] && output == [] && unsent == [] && all == [] && paid == [] && this.w == w
      ensures this.wSize == wSize && fresh(window)
    {
      this.w, this.wSize := w, wSize;
      window := new Byte[2 * wSize];
      strstart, blockStart, insert, matches, highWater := 0, 0, 0, 0, 0;
      input, availOut, output, unsent, all, paid := [], 0, [], [], [], [];
    }

    ghost predicate Shape() {
      0 < wSize <= 32768 && window.Length == 2 * wSize && w.pendingBuf.Length >= 16 && window != w.pendingBuf
    }

    /** The bit output between blocks. */
    ghost predicate Ready()
      reads w
    {
      w.Valid() && w.biValid <= 7 && w.pending == 0
    }

    /** The window ends with the end of the input taken into it. */
    ghost predicate Kept()
      reads this`strstart, this`blockStart, this`all, window
    {
      blockStart <= strstart <= window.Length && strstart <= |all| && window[..strstart] == Tail(all, strstart)
    }

    ghost predicate Counts()
      reads this`insert, this`matches
    {
      insert <= wSize && matches <= 2
    }

    /** What is in the window and not yet in a block. */
    ghost function Held(): seq<Byte>
      requires Kept()
      reads this`strstart, this`blockStart, this`all, window
    {
      window[blockStart..strstart]
    }

    /** Every byte taken is in a block or in the window. */
    ghost predicate Valid()
      reads this, w, window
    {
      Shape() && Ready() && Kept() && Counts() && highWater >= strstart && paid + Held() == all
    }

    /** All bits put out. */
    ghost function Out(): seq<bool>
      requires w.Valid()
      reads this`output, this`unsent, w, w.pendingBuf
    {
      BytesBits(output) + BytesBits(unsent) + w.Sent()
    }

    /** flush_pending: what there is room for goes to next_out. */
    method FlushPending()
      requires w.Valid() && w.biValid == 0 && unsent == []
      modifies this`output, this`unsent, this`availOut, w, w.pendingBuf
      ensures Ready() && w.biValid == 0 && Out() == old(Out())
      ensures |output| + availOut == |old(output)| + old(availOut)
      ensures old(w.pending) <= old(availOut) ==> unsent == [] && availOut == old(availOut) - old(w.pending)
    {
      hide BytesBits, ToBits, Pow2;
      w.BiFlush();
      EmptyBuffer(w);
      var len := if w.pending > availOut then availOut else w.pending;
      ghost var a, b := w.pendingBuf[..len], w.pendingBuf[len..w.pending];
      assert w.pendingBuf[..w.pending] == a + b;
      BytesBitsConcat(a, b);
      BytesBitsConcat(output, a);
      assert BytesBits(output) + BytesBits([]) + (BytesBits(a) + BytesBits(b)) ==
             BytesBits(output) + BytesBits(a) + BytesBits(b) + BytesBits([])
        by { NoneBits(); }
      output := output + w.pendingBuf[..len];
      unsent := w.pendingBuf[len..w.pending];
      availOut := availOut - len;
      w.pending := 0;
      EmptyBuffer(w);
    }

    /** flush_pending, at the start of the next call of deflate, for what was left over. */
    method Drain()
      requires Valid()
      modifies this`output, this`unsent, this`availOut
      ensures Valid() && Out() == old(Out()) && |output| + availOut == |old(output)| + old(availOut)
      ensures availOut > 0 ==> unsent == []
      ensures |output| + |unsent| == |old(output)| + |old(unsent)|
    {
      hide BytesBits, ToBits, Pow2, Kept;
      var len := if |unsent| > availOut then availOut else |unsent|;
      BytesBitsConcat(output, unsent[..len]);
      BytesBitsConcat(unsent[..len], unsent[len..]);
      assert unsent == unsent[..len] + unsent[len..];
      Regroup(BytesBits(output), BytesBits(unsent[..len]), BytesBits(unsent[len..]));
      output := output + unsent[..len];
      unsent := unsent[len..];
      availOut := availOut - len;
    }

    /** A dummy stored block, whose lengths are then replaced by len. */
    method PatchedHead(len: nat, last: bool)
      requires Shape() && Ready() && len <= MAX_STORED
      modifies w, w.pendingBuf
      ensures w.Valid() && w.biValid == 0 && w.pending == (old(w.biValid) + 42) / 8
      ensures w.Sent() == old(w.Sent()) + (ToBits(LastBit(last), 3) + Zeros(Pad(old(w.biValid) + 3)) +
                                           ToBits(len, 16) + ToBits(65535 - len, 16))
    {
      hide BytesBits, ToBits, Pow2, Zeros, Pad, Low, High;
      ghost var s0 := w.Sent();
      StoredHead(w, 0, last);
      ghost var head := ToBits(LastBit(last), 3) + Zeros(Pad(old(w.biValid) + 3));
      EmptyBuffer(w);
      LowByte(len);
      LowByte(High(len, 8));
      LowByte(65535 - len);
      LowByte(High(65535 - len, 8));
      var n := w.pending;
      SplitHead(w.pendingBuf[..n], s0 + head);
      w.pendingBuf[n - 4] := Low(len, 8);
      w.pendingBuf[n - 3] := Low(High(len, 8), 8);
      w.pendingBuf[n - 2] := Low(65535 - len, 8);
      w.pendingBuf[n - 1] := Low(High(65535 - len, 8), 8);
      JoinHead(w.pendingBuf[..n], s0 + head, len);
      EmptyBuffer(w);
    }

    /** The same while input is copied past the window, of which direct is what has been in this call. */
    ghost predicate Copying(direct: seq<Byte>)
      reads this, w, window
    {
      Shape() && Ready() && Kept() && Counts() && unsent == [] && paid + Held() == all + direct &&
      (direct != [] ==> blockStart == strstart)
    }

    /** How many bytes are in the window or in the input. */
    function ToGo(): int
      reads this`strstart, this`blockStart, this`input
    {
      strstart - blockStart + |input|
    }

    /** Bytes of a block's header, with the bits that are held. */
    function Head(): (n: nat)
      reads w`biValid
      ensures w.biValid <= 7 ==> 5 <= n <= 6
    {
      (w.biValid + 42) / 8
    }

    /** The smallest block worth writing when there is more to come. */
    function MinBlock(): nat
      requires Shape()
    {
      if w.pendingBuf.Length - 5 < wSize then w.pendingBuf.Length - 5 else wSize
    }

    /** What blocks have at least, by either way out. */
    function Worth(): (n: nat)
      requires Shape()
      ensures MinBlock() >= n > 0
    {
      if w.pendingBuf.Length - 6 < wSize then w.pendingBuf.Length - 6 else wSize
    }

    /** A block of len bytes is large enough, or holds all there is when flushing; but deflate itself does the flushing
        when there is nothing. */
    predicate WorthIt(flush: Flush, len: int)
      requires Shape()
      reads this`strstart, this`blockStart, this`input
    {
      len >= MinBlock() || (len == ToGo() && (flush == Finish || (flush == SyncFlush && len > 0)))
    }

    /** The most bytes that a block copied directly can have, if there is room for its header. */
    ghost function Largest(): (n: int)
      reads this`strstart, this`blockStart, this`input, this`availOut, w`biValid
      ensures n <= MAX_STORED && n <= ToGo() && Head() + n <= availOut
      ensures n == MAX_STORED || n == ToGo() || Head() + n == availOut
    {
      var n := if ToGo() < MAX_STORED then ToGo() else MAX_STORED;
      if availOut - Head() < n then availOut - Head() else n
    }

    /** There is no room for a header, or for a block that is worth one. */
    ghost predicate Exhausted(flush: Flush)
      requires Shape()
      reads this`strstart, this`blockStart, this`input, this`availOut, w`biValid
    {
      availOut < Head() || !WorthIt(flush, Largest())
    }

    /** The largest block that can be copied directly, or not go if there is none worth it. */
    method DirectSize(flush: Flush, minBlock: nat) returns (go: bool, len: nat, last: bool)
      requires Shape() && Ready() && blockStart <= strstart && minBlock == MinBlock()
      ensures if go then len == Largest() && WorthIt(flush, len) else Exhausted(flush)
      ensures go ==> (last <==> flush == Finish && len == ToGo())
    {
      go, len, last := false, MAX_STORED, false;
      var have := (w.biValid + 42) / 8;  // bytes in header
      if availOut < have { return; }
      have := availOut - have;
      var left := strstart - blockStart;  // window bytes
      if len > left + |input| { len := left + |input|; }
      if len > have { len := have; }
      if len < minBlock && ((len == 0 && flush != Finish) || flush == NoFlush || len != left + |input|) { return; }
      last := flush == Finish && len == left + |input|;
      go := true;
    }

    /** The header of a block of len bytes goes to next_out. */
    method DirectHead(len: nat, last: bool)
      requires Shape() && Ready() && unsent == [] && len <= MAX_STORED && (w.biValid + 42) / 8 <= availOut
      modifies this`output, this`unsent, this`availOut, w, w.pendingBuf
      ensures Ready() && w.biValid == 0 && unsent == [] && availOut == old(availOut) - (old(w.biValid) + 42) / 8
      ensures |output| + availOut == |old(output)| + old(availOut)
      ensures Out() == old(Out()) + (ToBits(LastBit(last), 3) + Zeros(Pad(|old(Out())| + 3)) +
                                     ToBits(len, 16) + ToBits(65535 - len, 16))
    {
      hide BytesBits, ToBits, Pow2, Zeros;
      ghost var o, s0 := BytesBits(output) + BytesBits(unsent), w.Sent();
      SentSize(w);
      assert |Out()| % 8 == w.biValid % 8;
      PadSame(|Out()| + 3, w.biValid + 3);
      PatchedHead(len, last);
      ghost var h := ToBits(LastBit(last), 3) + Zeros(Pad(old(w.biValid) + 3)) + ToBits(len, 16) +
        ToBits(65535 - len, 16);
      assert o + (s0 + h) == o + s0 + h;
      FlushPending();
    }

    /** *next_out++ */
    method PutOut(bytes: seq<Byte>)
      requires Ready() && w.biValid == 0 && unsent == [] && |bytes| <= availOut
      modifies this`output, this`availOut
      ensures Out() == old(Out()) + BytesBits(bytes) && |output| + availOut == |old(output)| + old(availOut)
      ensures availOut == old(availOut) - |bytes|
    {
      hide BytesBits, ToBits, Pow2;
      NoneBits();
      NothingPending();
      BytesBitsConcat(output, bytes);
      assert BytesBits(output) + BytesBits(bytes) + [] + [] == BytesBits(output) + [] + [] + BytesBits(bytes);
      output := output + bytes;
      availOut := availOut - |bytes|;
    }

    lemma NothingPending()
      requires Ready() && w.biValid == 0
      ensures w.Sent() == []
    {
    }

    /** Some bytes and then others. */
    method PutBoth(a: seq<Byte>, b: seq<Byte>)
      requires Ready() && w.biValid == 0 && unsent == [] && |a| + |b| <= availOut
      modifies this`output, this`availOut
      ensures Out() == old(Out()) + BytesBits(a + b) && |output| + availOut == |old(output)| + old(availOut)
      ensures availOut == old(availOut) - |a| - |b|
    {
      hide BytesBits, ToBits, Pow2, Out;
      ghost var o := Out();
      PutOut(a);
      PutOut(b);
      BytesBitsConcat(a, b);
      assert o + BytesBits(a) + BytesBits(b) == o + (BytesBits(a) + BytesBits(b));
    }

    /** left bytes of the window and rest bytes of input have gone out. */
    method Advance(left: nat, rest: nat, ghost direct: seq<Byte>)
      requires Copying(direct) && left <= strstart - blockStart && rest <= |input|
      requires rest > 0 ==> left == strstart - blockStart
      modifies this`blockStart, this`input, this`paid
      ensures Copying(direct + old(input)[..rest]) && input == old(input)[rest..]
      ensures paid == old(paid) + (old(window[blockStart..blockStart + left]) + old(input)[..rest])
    {
      hide BytesBits, ToBits, Pow2, Ready, Counts, Shape, Tail;
      ghost var from, paid0, more := blockStart, paid, input[..rest];
      ghost var bytes := window[blockStart..blockStart + left] + more;
      blockStart := blockStart + left;
      input := input[rest..];
      paid := paid + bytes;
      Slices(from);
      DirectKeeps(window[..], from, blockStart, strstart, paid0, all, direct, more);
    }

    /** The bytes of a block go to next_out: first those in the window, then input. */
    method DirectBytes(len: nat, ghost direct: seq<Byte>) returns (ghost bytes: seq<Byte>, ghost more: seq<Byte>)
      requires Copying(direct) && len <= strstart - blockStart + |input| && len <= availOut && w.biValid == 0
      modifies this`output, this`availOut, this`blockStart, this`input, this`paid
      ensures Copying(direct + more) && |bytes| == len && paid == old(paid) + bytes && old(input) == more + input
      ensures Out() == old(Out()) + BytesBits(bytes) && |output| + availOut == |old(output)| + old(availOut)
      ensures availOut == old(availOut) - len && ToGo() == old(ToGo()) - len
    {
      hide BytesBits, ToBits, Pow2, Out, Tail;
      var left := strstart - blockStart;
      if left > len { left := len; }
      var rest := len - left;
      more := input[..rest];
      bytes := window[blockStart..blockStart + left] + more;
      PutBoth(window[blockStart..blockStart + left], input[..rest]);
      Advance(left, rest, direct);
    }

    lemma Slices(from: nat)
      requires from <= blockStart <= strstart <= window.Length
      ensures window[..][from..strstart] == window[from..strstart]
      ensures window[..][blockStart..strstart] == window[blockStart..strstart]
      ensures window[..][from..blockStart] == window[from..blockStart]
    {
    }

    /** One block of len bytes, directly to next_out. */
    method DirectBlock(len: nat, last: bool, ghost direct: seq<Byte>) returns (ghost b: Piece, ghost more: seq<Byte>)
      requires Copying(direct) && len <= MAX_STORED && len <= strstart - blockStart + |input|
      requires (w.biValid + 42) / 8 + len <= availOut
      modifies this`output, this`unsent, this`availOut, this`blockStart, this`input, this`paid, w, w.pendingBuf
      ensures Copying(direct + more) && w.biValid == 0 && b.last == last && |b.bytes| == len
      ensures paid == old(paid) + b.bytes && old(input) == more + input
      ensures Out() == old(Out()) + Encode(StoredBlock(b.bytes), last, |old(Out())|)
      ensures |output| + availOut == |old(output)| + old(availOut) && availOut == old(availOut) - old(Head()) - len
      ensures ToGo() == old(ToGo()) - len
    {
      hide BytesBits, ToBits, Pow2, Out, Tail, Zeros, Pad;
      ghost var o := Out();
      DirectHead(len, last);
      ghost var bytes;
      bytes, more := DirectBytes(len, direct);
      b := Piece(bytes, last);
      StoredJoin(o, ToBits(LastBit(last), 3), Zeros(Pad(|o| + 3)), ToBits(len, 16), ToBits(65535 - len, 16),
                 BytesBits(bytes));
    }

    /** What the blocks bs, with the input direct, have come to since the output was o and paid was p. */
    ghost predicate Written(bs: seq<Piece>, direct: seq<Byte>, last: bool, o: seq<bool>, p: seq<Byte>, in0: seq<Byte>)
      requires w.Valid()
      reads this, w, w.pendingBuf
    {
      Sound(bs) && Marked(bs, last) && paid == p + Payload(bs) && in0 == direct + input &&
      Out() == o + StreamOf(bs, |o|)
    }

    lemma NothingWritten()
      requires w.Valid()
      ensures Written([], [], false, Out(), paid, input)
    {
      hide Out;
      assert [] + input == input && paid + [] == paid && Out() + [] == Out();
    }

    /** The next block. */
    method NextBlock(len: nat, end: bool, ghost bs: seq<Piece>, ghost direct: seq<Byte>, ghost o: seq<bool>,
                     ghost p: seq<Byte>, ghost in0: seq<Byte>)
      returns (ghost b: Piece, ghost direct': seq<Byte>)
      requires Copying(direct) && Written(bs, direct, false, o, p, in0)
      requires len <= MAX_STORED && len <= ToGo() && Head() + len <= availOut
      modifies this`output, this`unsent, this`availOut, this`blockStart, this`input, this`paid, w, w.pendingBuf
      ensures Copying(direct') && Written(bs + [b], direct', end, o, p, in0) && ToGo() == old(ToGo()) - len
      ensures w.biValid == 0 && b.last == end && |b.bytes| == len
      ensures |output| + availOut == |old(output)| + old(availOut) && availOut == old(availOut) - old(Head()) - len
    {
      hide BytesBits, ToBits, Pow2, Out, Tail, Encode, Kept, StreamOf, Payload;
      ghost var at := |Out()|;
      ghost var more;
      b, more := DirectBlock(len, end, direct);
      OneMore(bs, b, |o|);
      SamePlace(b.bytes, end, at, |o| + |StreamOf(bs, |o|)|);
      direct' := direct + more;
      MarkMore(bs, b);
      Regroup(o, StreamOf(bs, |o|), Encode(StoredBlock(b.bytes), end, at));
      Regroup(p, Payload(bs), b.bytes);
      Regroup(direct, more, input);
    }

    /** All blocks are large enough, but for the last of the stream or of a flush. */
    ghost predicate AllWorth(bs: seq<Piece>, flush: Flush)
      requires Shape()
    {
      forall i :: 0 <= i < |bs| ==> |bs[i].bytes| >= Worth() || bs[i].last || (flush == SyncFlush && i == |bs| - 1)
    }

    /** The blocks copied directly: all but the last are as long as blocks can be. */
    ghost predicate Direct(bs: seq<Piece>, flush: Flush)
      requires Shape()
      reads this`strstart, this`blockStart, this`input
    {
      AllWorth(bs, flush) && (forall i :: 0 <= i < |bs| - 1 ==> |bs[i].bytes| == MAX_STORED) &&
      (bs != [] && |bs[|bs| - 1].bytes| < Worth() ==> flush != NoFlush && ToGo() == 0)
    }

    /** The do loop: blocks that go directly to next_out. */
    method DirectBlocks(flush: Flush) returns (last: bool, ghost bs: seq<Piece>, ghost direct: seq<Byte>)
      requires Valid() && unsent == []
      modifies this`output, this`unsent, this`availOut, this`blockStart, this`input, this`paid, w, w.pendingBuf
      ensures Copying(direct) && Written(bs, direct, last, old(Out()), old(paid), old(input))
      ensures |output| + availOut == |old(output)| + old(availOut)
      ensures last ==> flush == Finish && ToGo() == 0
      ensures Direct(bs, flush) && (!last ==> Exhausted(flush))
    {
      hide BytesBits, ToBits, Pow2, Out, Tail, Encode, Written;
      var minBlock := if w.pendingBuf.Length - 5 < wSize then w.pendingBuf.Length - 5 else wSize;
      last, bs, direct := false, [], [];
      NothingWritten();
      assert all + [] == all;
      ghost var o, p, in0 := Out(), paid, input;
      while !last
        invariant Copying(direct) && Written(bs, direct, last, o, p, in0)
        invariant |output| + availOut == |old(output)| + old(availOut)
        invariant last ==> flush == Finish && ToGo() == 0
        invariant Direct(bs, flush) && (bs != [] && !last ==> Ends(bs[|bs| - 1], flush))
        decreases !last, availOut
      {
        var go, len, end := DirectSize(flush, minBlock);
        if !go { break; }
        ghost var b;
        FullSoFar(bs, flush, len);
        b, direct := NextBlock(len, end, bs, direct, o, p, in0);
        DirectMore(bs, b, flush);
        bs := bs + [b];
        last := end;
      }
    }

    /** Only a full block can be followed by another. */
    ghost predicate Ends(b: Piece, flush: Flush)
      reads this`strstart, this`blockStart, this`input, this`availOut
    {
      |b.bytes| == MAX_STORED || availOut == 0 || (ToGo() == 0 && flush != Finish)
    }

    lemma FullSoFar(bs: seq<Piece>, flush: Flush, len: nat)
      requires Shape() && Direct(bs, flush) && w.biValid <= 7 && len == Largest() && WorthIt(flush, len)
      requires bs != [] ==> Ends(bs[|bs| - 1], flush)
      ensures forall i :: 0 <= i < |bs| ==> |bs[i].bytes| == MAX_STORED
    {
    }

    lemma DirectMore(bs: seq<Piece>, b: Piece, flush: Flush)
      requires Shape() && forall i :: 0 <= i < |bs| ==> |bs[i].bytes| == MAX_STORED
      requires |b.bytes| >= MinBlock() || (ToGo() == 0 && (b.last || flush == SyncFlush))
      requires b.last ==> flush == Finish
      ensures Direct(bs + [b], flush)
    {
    }

    // ----- the window -----

    /** zmemcpy(s->window + at, bytes, ...) */
    method PutWindow(at: nat, bytes: seq<Byte>)
      requires at + |bytes| <= window.Length
      modifies window
      ensures window[..at] == old(window[..at]) && window[at..at + |bytes|] == bytes
    {
      var i := 0;
      while i < |bytes|
        invariant 0 <= i <= |bytes| && window[..at] == old(window[..at]) && window[at..at + i] == bytes[..i]
      {
        window[at + i] := bytes[i];
        i := i + 1;
      }
    }

    /** zmemcpy(s->window, s->window + s->w_size, n) */
    method SlideDown(n: nat)
      requires Shape() && n <= wSize
      modifies window
      ensures window[..n] == old(window[wSize..wSize + n])
    {
      var i := 0;
      while i < n
        invariant 0 <= i <= n && window[..i] == old(window[wSize..wSize + i])
        invariant forall k :: wSize <= k < window.Length ==> window[k] == old(window[k])
      {
        window[i] := window[wSize + i];
        i := i + 1;
      }
    }

    /** Slide the window down; start is where the bytes to be kept begin. */
    method Slide(start: nat)
      requires Shape() && Kept() && Counts() && wSize <= start == blockStart
      modifies this`strstart, this`blockStart, this`matches, this`insert, window
      ensures Kept() && Counts() && strstart == old(strstart) - wSize && blockStart == old(blockStart) - wSize
      ensures Held() == old(Held())
    {
      ghost var win := window[..strstart];
      blockStart := blockStart - wSize;
      strstart := strstart - wSize;
      SlideDown(strstart);
      assert window[..strstart] == win[wSize..];
      assert window[blockStart..strstart] == win[blockStart + wSize..];
      if matches < 2 { matches := matches + 1; }
      if insert > strstart { insert := strstart; }
    }

    /** Append bytes to the window. */
    method Append(bytes: seq<Byte>)
      requires Shape() && Kept() && Counts() && strstart + |bytes| <= window.Length
      modifies this`strstart, this`insert, this`all, window
      ensures Kept() && Counts() && all == old(all) + bytes && strstart == old(strstart) + |bytes|
      ensures Held() == old(Held()) + bytes
    {
      PutWindow(strstart, bytes);
      ghost var s := strstart;
      assert window[..s + |bytes|] == window[..s] + window[s..s + |bytes|];
      assert window[blockStart..s + |bytes|] == window[..s][blockStart..] + bytes;
      strstart := strstart + |bytes|;
      all := all + bytes;
      insert := insert + if |bytes| < wSize - insert then |bytes| else wSize - insert;
    }

    /** Update the window with the last bytes of the input that went directly to next_out. */
    method UseDirect(direct: seq<Byte>)
      requires Copying(direct) && direct != []
      modifies this`strstart, this`blockStart, this`insert, this`matches, this`all, window
      ensures Copying([]) && all == old(all) + direct && blockStart == strstart
    {
      hide Ready, BytesBits, ToBits, Pow2, Tail;
      ghost var all0 := all;
      var used := |direct|;
      assert Held() == [] && paid + [] == paid;
      if used >= wSize {
        Supplant(direct);
      } else {
        if window.Length - strstart <= used { Slide(strstart); }
        Append(direct);
      }
      blockStart := strstart;
      assert all == all0 + direct && all + [] == all && Held() == [];
    }

    /** Supplant the previous history. */
    method Supplant(direct: seq<Byte>)
      requires Shape() && |direct| >= wSize
      modifies this`strstart, this`blockStart, this`insert, this`matches, this`all, window
      ensures Kept() && Counts() && all == old(all) + direct && strstart == wSize
    {
      var used := |direct|;
      matches := 2;
      PutWindow(0, direct[used - wSize..]);
      strstart := wSize;
      insert := strstart;
      all := all + direct;
      blockStart := strstart;
      assert window[..strstart] == direct[used - wSize..];
    }

    /** read_buf to the window */
    method TakeIn(have: nat)
      requires Copying([]) && have <= |input| && strstart + have <= window.Length
      modifies this`strstart, this`insert, this`all, this`input, window
      ensures Copying([]) && input == old(input)[have..] && all == old(all) + old(input)[..have]
      ensures Held() == old(Held()) + old(input)[..have]
      ensures strstart == old(strstart) + have
    {
      hide Tail, Ready, Counts, Kept, Shape;
      ghost var h, more := Held(), input[..have];
      Append(input[..have]);
      input := input[have..];
      NoDirect();
      Regroup(paid, h, more);
    }

    lemma NoDirect()
      ensures all + [] == all
    {
    }

    /** Fill the window with any remaining input. */
    method FillWindow() returns (ghost more: seq<Byte>)
      requires Copying([])
      modifies this`strstart, this`blockStart, this`insert, this`matches, this`all, this`input, window
      ensures Copying([]) && old(input) == more + input && all == old(all) + more && Held() == old(Held()) + more
      ensures input == [] || (strstart == window.Length && strstart - blockStart >= wSize)
    {
      hide Tail, Ready, Counts, Held;
      NoDirect();
      var have := window.Length - strstart;
      if |input| > have && blockStart >= wSize {
        Slide(blockStart);
        have := have + wSize;
      }
      if have > |input| { have := |input|; }
      more := input[..have];
      TakeIn(have);  // nothing when have is 0
    }

    // ----- deflate_stored -----

    /** The bytes of the window that go next are in a block: len of them. */
    lemma WindowBytes(len: nat)
      requires Kept() && len <= strstart - blockStart
      ensures Held() == window[blockStart..blockStart + len] + window[blockStart + len..strstart]
    {
    }

    /** A stored block of len bytes from the window, by way of the pending buffer. */
    method WriteBlock(len: nat, last: bool) returns (ghost b: Piece)
      requires Copying([]) && len <= MAX_STORED && len <= strstart - blockStart
      requires (w.biValid + 42) / 8 + len <= w.pendingBuf.Length
      modifies this`output, this`unsent, this`availOut, this`blockStart, this`paid, w, w.pendingBuf
      ensures Shape() && Ready() && Kept() && Counts() && paid + Held() == all
      ensures b.last == last && |b.bytes| == len && paid == old(paid) + b.bytes && blockStart == old(blockStart) + len
      ensures Out() == old(Out()) + Encode(StoredBlock(b.bytes), last, |old(Out())|)
      ensures |output| + availOut == |old(output)| + old(availOut)
    {
      hide BytesBits, ToBits, Pow2, Encode, Tail;
      ghost var o, s0 := BytesBits(output) + BytesBits(unsent), w.Sent();
      SentSize(w);
      var bytes := window[blockStart..blockStart + len];
      b := Piece(bytes, last);
      SamePlace(bytes, last, w.biValid, |Out()|);
      WindowBytes(len);
      NoDirect();
      Regroup(paid, bytes, window[blockStart + len..strstart]);
      TrStoredBlock(w, bytes, last);
      Regroup(o, s0, Encode(StoredBlock(bytes), last, old(w.biValid)));
      blockStart := blockStart + len;
      paid := paid + bytes;
      FlushPending();
    }

    /** The most bytes that a block in the pending buffer can have. */
    ghost function PendingRoom(): int
      reads w`biValid
    {
      if w.pendingBuf.Length - Head() < MAX_STORED then w.pendingBuf.Length - Head() else MAX_STORED
    }

    /** There was not enough room to write a worthy or flushed block to next_out: write one to the
        pending buffer, if there is enough input for it. */
    method PendingBlock(flush: Flush) returns (done: bool, last: bool, ghost b: Piece)
      requires Copying([])
      modifies this`output, this`unsent, this`availOut, this`blockStart, this`paid, w, w.pendingBuf
      ensures Shape() && Ready() && Kept() && Counts() && paid + Held() == all
      ensures |output| + availOut == |old(output)| + old(availOut)
      ensures if done then |b.bytes| <= MAX_STORED && b.last == last && paid == old(paid) + b.bytes &&
                           Out() == old(Out()) + Encode(StoredBlock(b.bytes), last, |old(Out())|) &&
                           blockStart == old(blockStart) + |b.bytes|
              else !last && paid == old(paid) && Out() == old(Out()) && blockStart == old(blockStart)
      ensures last ==> flush == Finish && input == [] && blockStart == strstart
      ensures var left, room := old(strstart - blockStart), old(PendingRoom());
              (done <==> left >= room || left >= wSize ||
                         (flush != NoFlush && input == [] && (left > 0 || flush == Finish))) &&
              (done ==> |b.bytes| == (if left < room then left else room) &&
                        (last <==> flush == Finish && input == [] && left <= room))
    {
      hide BytesBits, ToBits, Pow2, Encode, Tail, Out;
      done, last, b := false, false, Piece([], false);
      NoDirect();
      var have := (w.biValid + 42) / 8;
      have := if w.pendingBuf.Length - have < MAX_STORED then w.pendingBuf.Length - have else MAX_STORED;
      var minBlock := if have < wSize then have else wSize;
      var left := strstart - blockStart;
      if left >= minBlock || ((left > 0 || flush == Finish) && flush != NoFlush && input == [] && left <= have) {
        var len := if left < have then left else have;
        last := flush == Finish && input == [] && len == left;
        b := WriteBlock(len, last);
        done := true;
      }
    }

    method RaiseHighWater()
      modifies this`highWater
      ensures highWater >= strstart && highWater >= old(highWater)
    {
      if highWater < strstart { highWater := strstart; }
    }

    /** The blocks bs written and the input taken, since the output was o, what the blocks hold p, the
        input in0 and all input taken all0. */
    ghost predicate Progress(bs: seq<Piece>, last: bool, o: seq<bool>, p: seq<Byte>, in0: seq<Byte>, all0: seq<Byte>)
      requires w.Valid()
      reads this`paid, this`output, this`unsent, this`input, this`all, w, w.pendingBuf
    {
      Sound(bs) && Marked(bs, last) && paid == p + Payload(bs) && Out() == o + StreamOf(bs, |o|) && Taken(in0, all0)
    }

    /** Copy as much as possible directly to next_out, and then update the window. */
    method DirectPhase(flush: Flush) returns (last: bool, ghost bs: seq<Piece>)
      requires Valid() && unsent == []
      modifies this`output, this`unsent, this`availOut, this`blockStart, this`input, this`paid, this`strstart,
               this`insert, this`matches, this`all, w, w.pendingBuf, window
      ensures Copying([]) && Progress(bs, last, old(Out()), old(paid), old(input), old(all))
      ensures |output| + availOut == |old(output)| + old(availOut)
      ensures last ==> flush == Finish && input == [] && blockStart == strstart
      ensures Direct(bs, flush) && (!last ==> Exhausted(flush))
    {
      hide BytesBits, ToBits, Pow2, Encode, Tail, Out, Kept, StreamOf, Payload, AllWorth;
      ghost var in0, all0 := input, all;
      var before := input;
      ghost var direct;
      last, bs, direct := DirectBlocks(flush);
      var used := |before| - |input|;  // number of input bytes directly copied
      assert before[..used] == direct;
      StartFirst();
      if used > 0 { UseDirect(before[..used]); } else { NothingUsed(direct); }
      TakenAll(in0, all0, direct, []);
    }

    /** Fill the window, and write a block from there if it is worth it. */
    method WindowPhase(flush: Flush, ghost bs: seq<Piece>, ghost o: seq<bool>, ghost p: seq<Byte>,
                       ghost in0: seq<Byte>, ghost all0: seq<Byte>)
      returns (last: bool, ghost bs': seq<Piece>)
      requires Copying([]) && Progress(bs, false, o, p, in0, all0)
      requires Direct(bs, flush) && (flush == SyncFlush ==> ToGo() > 0)
      modifies this`output, this`unsent, this`availOut, this`blockStart, this`input, this`paid, this`strstart,
               this`insert, this`matches, this`all, this`highWater, w, w.pendingBuf, window
      ensures Valid() && Progress(bs', last, o, p, in0, all0) && |output| + availOut == |old(output)| + old(availOut)
      ensures last ==> flush == Finish && input == [] && blockStart == strstart
      ensures flush == Finish ==> last || |paid| > old(|paid|)
      ensures AllWorth(bs', flush) && bs <= bs' && |bs'| <= |bs| + 1
      ensures flush == NoFlush ==> |bs'| > |bs| || (input == [] && strstart - blockStart < wSize)
    {
      hide BytesBits, ToBits, Pow2, Encode, Tail, Out, Kept, StreamOf, Payload;
      ghost var at, in1, all1 := |Out()|, input, all;
      ghost var more := FillWindow();
      TakenMore(in0, all0, in1, all1, more);
      RaiseHighWater();
      var done;
      ghost var b;
      done, last, b := PendingBlock(flush);
      bs' := bs;
      if done {
        OneMore(bs, b, |o|);
        SamePlace(b.bytes, last, at, |o| + |StreamOf(bs, |o|)|);
        MarkMore(bs, b);
        Regroup(o, StreamOf(bs, |o|), Encode(StoredBlock(b.bytes), last, at));
        Regroup(p, Payload(bs), b.bytes);
        bs' := bs + [b];
        OneWorth(bs, b, flush);
      }
    }

    lemma OneWorth(bs: seq<Piece>, b: Piece, flush: Flush)
      requires Shape() && forall i :: 0 <= i < |bs| ==> |bs[i].bytes| >= Worth() || bs[i].last
      requires |b.bytes| >= Worth() || b.last || flush == SyncFlush
      ensures AllWorth(bs + [b], flush)
    {
    }

    /** The last block leaves no bits behind. */
    method EndStream(ghost bs: seq<Piece>, ghost o: seq<bool>, ghost p: seq<Byte>, ghost in0: seq<Byte>,
                     ghost all0: seq<Byte>)
      requires Valid() && Progress(bs, true, o, p, in0, all0)
      modifies w`biUsed
      ensures Valid() && Progress(bs, true, o, p, in0, all0)
    {
      hide BytesBits, ToBits, Pow2, Tail, StreamOf, Payload;
      w.biUsed := 8;
    }

    /** deflate_stored. The bits put out are those of the stored blocks bs; the input taken is in the
        window or in a block. */
    method DeflateStored(flush: Flush) returns (r: BlockState, ghost bs: seq<Piece>)
      requires Valid() && unsent == []
      modifies this, w, w.pendingBuf, window
      ensures Valid() && Progress(bs, r == FinishStarted || r == FinishDone, old(Out()), old(paid), old(input),
                                  old(all))
      ensures |output| + availOut == |old(output)| + old(availOut)
      ensures r == BlockDone ==> flush == SyncFlush && input == [] && paid == all
      ensures r == FinishStarted || r == FinishDone ==> flush == Finish && input == [] && paid == all
      ensures r == FinishDone || r == BlockDone ==> unsent == []
      ensures flush == Finish && r == NeedMore ==> |paid| > old(|paid|)
      ensures AllWorth(bs, flush) && forall i :: 0 <= i < |bs| - 2 ==> |bs[i].bytes| == MAX_STORED
      ensures flush == NoFlush && bs == [] ==> input == [] && strstart - blockStart < wSize
    {
      hide BytesBits, ToBits, Pow2, Tail, Progress, AllWorth;
      ghost var o, p, in0, all0 := Out(), paid, input, all;
      var last;
      last, bs := DirectPhase(flush);
      PaidGrows(bs, last, o, p, in0, all0);
      RaiseHighWater();
      NoDirect();
      if last {
        EndStream(bs, o, p, in0, all0);
        return FinishDone, bs;
      }
      if flush == SyncFlush && input == [] && strstart == blockStart { return BlockDone, bs; }
      last, bs := WindowPhase(flush, bs, o, p, in0, all0);
      if last { EndStream(bs, o, p, in0, all0); }
      r := if last then FinishStarted else NeedMore;
    }

    lemma PaidGrows(bs: seq<Piece>, last: bool, o: seq<bool>, p: seq<Byte>, in0: seq<Byte>, all0: seq<Byte>)
      requires w.Valid() && Progress(bs, last, o, p, in0, all0)
      ensures |paid| >= |p|
    {
      hide BytesBits, ToBits, Payload, StreamOf, Out;
    }

    /** The input taken since it was in0, and all input taken was all0. */
    ghost predicate Taken(in0: seq<Byte>, all0: seq<Byte>)
      reads this`input, this`all
    {
      |input| <= |in0| && input == in0[|in0| - |input|..] && all == all0 + in0[..|in0| - |input|]
    }

    lemma TakenMore(in0: seq<Byte>, all0: seq<Byte>, in1: seq<Byte>, all1: seq<Byte>, more: seq<Byte>)
      requires |in1| <= |in0| && in1 == in0[|in0| - |in1|..] && all1 == all0 + in0[..|in0| - |in1|]
      requires in1 == more + input && all == all1 + more
      ensures Taken(in0, all0)
    {
      var n := |in0| - |in1|;
      assert in0 == in0[..n] + more + input;
      assert in0[..n + |more|] == in0[..n] + more;
    }

    lemma TakenAll(in0: seq<Byte>, all0: seq<Byte>, direct: seq<Byte>, more: seq<Byte>)
      requires in0 == direct + (more + input) && all == all0 + direct + more
      ensures Taken(in0, all0)
    {
      assert in0 == (direct + more) + input && all0 + direct + more == all0 + (direct + more);
    }

    lemma StartFirst()
      requires Kept()
      ensures blockStart <= strstart
    {
    }

    lemma NothingUsed(direct: seq<Byte>)
      requires direct == []
      ensures all + direct == all
    {
    }

    lemma NoneTaken()
      ensures Taken(input, all)
    {
      assert input == input[0..] && all == all + input[..0];
    }

    /** The next input and output space. */
    method Supply(more: seq<Byte>, room: nat)
      requires Valid()
      modifies this`input, this`availOut
      ensures Valid() && input == old(input) + more && availOut == room
    {
      hide BytesBits, ToBits, Pow2, Tail;
      input := input + more;
      availOut := room;
    }

    /** One call of deflate: what is pending goes out first, and only with room left is there more. */
    method OneCall(flush: Flush) returns (r: BlockState, ghost bs: seq<Piece>)
      requires Valid()
      modifies this, w, w.pendingBuf, window
      ensures Valid() && Progress(bs, r == FinishStarted || r == FinishDone, old(Out()), old(paid), old(input),
                                  old(all))
      ensures r == FinishStarted || r == FinishDone ==> flush == Finish && input == [] && paid == all
      ensures flush == Finish && r == NeedMore && old(availOut) > 0 ==>
              |paid| > old(|paid|) || (|paid| == old(|paid|) && |unsent| < old(|unsent|))
      ensures flush == Finish ==> r != BlockDone
      ensures AllWorth(bs, flush)
    {
      hide BytesBits, ToBits, Pow2, Tail, Kept, Out, Shape;
      ghost var o := Out();
      Drain();
      NoneTaken();
      NoPieces(o, paid);
      bs := [];
      if unsent != [] || availOut == 0 { return NeedMore, bs; }
      r, bs := DeflateStored(flush);
    }
  }

  lemma Regroup<T>(a: seq<T>, b: seq<T>, c: seq<T>)
    ensures a + b + c == a + (b + c)
  {
  }

  lemma MarkMore(bs: seq<Piece>, b: Piece)
    requires Marked(bs, false)
    ensures Marked(bs + [b], b.last)
  {
  }

  /** Only the last block can be marked as the last of the stream. */
  ghost predicate Marked(bs: seq<Piece>, last: bool) {
    (last ==> bs != []) && forall i :: 0 <= i < |bs| ==> (bs[i].last <==> last && i == |bs| - 1)
  }

  lemma StoredJoin(o: seq<bool>, a: seq<bool>, z: seq<bool>, b: seq<bool>, c: seq<bool>, d: seq<bool>)
    ensures o + (a + z + b + c) + d == o + (a + z + (b + c + d))
  {
  }

  /** Bytes that went out were the next to go. */
  lemma DirectKeeps(win: seq<Byte>, from: nat, to: nat, end: nat, paid: seq<Byte>, all: seq<Byte>, direct: seq<Byte>,
                    more: seq<Byte>)
    requires from <= to <= end <= |win| && paid + win[from..end] == all + direct && (direct != [] ==> from == end)
    requires more != [] ==> to == end
    ensures paid + (win[from..to] + more) + win[to..end] == all + (direct + more)
    ensures direct + more != [] ==> to == end
  {
    var a, b := win[from..to], win[to..end];
    assert win[from..end] == a + b;
    if more == [] {
      assert direct + more == direct && a + more == a && paid + a + b == paid + (a + b);
    } else {
      assert b == [] && a + b == a;
      assert paid + (a + more) + b == (paid + a) + more && (all + direct) + more == all + (direct + more);
    }
  }

  lemma SamePart(a: nat, b: nat)
    requires a % 8 == b % 8
    ensures (a + 3) % 8 == (b + 3) % 8
  {
  }

  lemma PadSame(a: nat, b: nat)
    requires a % 8 == b % 8
    ensures Pad(a) == Pad(b)
  {
  }

  lemma NoneBits()
    ensures BytesBits([]) == []
  {
  }

  /** The last four bytes of p are the lengths of an empty block. */
  lemma SplitHead(p: seq<Byte>, before: seq<bool>)
    requires |p| >= 4 && BytesBits(p) == before + ToBits(0, 16) + ToBits(65535, 16)
    ensures BytesBits(p[..|p| - 4]) == before
  {
    hide BytesBits, ToBits;
    var a, b := p[..|p| - 4], p[|p| - 4..];
    assert p == a + b;
    BytesBitsConcat(a, b);
    assert BytesBits(p)[..8 * |a|] == BytesBits(a);
    assert (before + ToBits(0, 16) + ToBits(65535, 16))[..8 * |a|] == before;
  }

  lemma JoinHead(p: seq<Byte>, before: seq<bool>, len: nat)
    requires |p| >= 4 && BytesBits(p[..|p| - 4]) == before && len <= 65535
    requires p[|p| - 4] == Low(len, 8) && p[|p| - 3] == Low(High(len, 8), 8)
    requires p[|p| - 2] == Low(65535 - len, 8) && p[|p| - 1] == Low(High(65535 - len, 8), 8)
    ensures BytesBits(p) == before + ToBits(len, 16) + ToBits(65535 - len, 16)
  {
    hide BytesBits, ToBits, Low, High;
    var n := |p|;
    var q, r := p[..n - 4], p[..n - 2];
    assert r == q + [p[n - 4], p[n - 3]] && p == r + [p[n - 2], p[n - 1]];
    TwoBytes(q, p[n - 4], p[n - 3], len);
    TwoBytes(r, p[n - 2], p[n - 1], 65535 - len);
  }

  lemma TwoBytes(q: seq<Byte>, a: Byte, b: Byte, v: nat)
    requires a == Low(v, 8) && b == Low(High(v, 8), 8)
    ensures BytesBits(q + [a, b]) == BytesBits(q) + ToBits(v, 16)
  {
    hide BytesBits, ToBits, Low, High;
    assert q + [a, b] == (q + [a]) + [b];
    BytesBitsPush(q, a);
    BytesBitsPush(q + [a], b);
    ShortBits(v);
    var s, x, y := BytesBits(q), ToBits(a, 8), ToBits(b, 8);
    assert s + x + y == s + (x + y);
  }

  lemma ShortBits(v: nat)
    ensures ToBits(v, 16) == ToBits(Low(v, 8), 8) + ToBits(Low(High(v, 8), 8), 8)
  {
    hide ToBits, Low, High;
    ToBitsLow(v, 8);
    ToBitsLow(High(v, 8), 8);
    ToBitsSplit(v, 8, 8);
  }

  /** The machine of the format reads the blocks back, and puts out what they hold. */
  lemma {:induction false} PiecesRead(s: Format.State, bs: seq<Piece>, last: bool, at: nat, rest: seq<bool>)
    requires Sound(bs) && Marked(bs, last) && s.mode == Format.Type && !s.last
    requires s.q == StreamOf(bs, at) + rest && (at + |s.q|) % 8 == 0
    ensures Format.Reaches(s, s.(last := last, out := s.out + Payload(bs), q := rest))
    decreases |bs|
  {
    hide Format.Reaches, Format.Quiet, Encode;
    if bs == [] {
      assert s.q == rest && s.out + Payload(bs) == s.out;
      Format.ReachesSelf(s);
    } else {
      var init, b := bs[..|bs| - 1], bs[|bs| - 1];
      var p, e := StreamOf(init, at), Encode(StoredBlock(b.bytes), b.last, at + |StreamOf(init, at)|);
      assert s.q == p + (e + rest);
      var t := s.(out := s.out + Payload(init), q := e + rest);
      PiecesRead(s, init, false, at, e + rest);
      assert (at + |p| + |t.q|) % 8 == 0;
      StoredRead(t, b.bytes, b.last, at + |p|, rest);
      Format.QuietReaches(t, t.(mode := Format.Type, last := b.last, out := t.out + b.bytes, q := rest));
      Regroup(s.out, Payload(init), b.bytes);
      Format.ReachesTrans(s, t, s.(last := last, out := s.out + Payload(bs), q := rest));
    }
  }

  // ----- a whole run at level 0 -----

  lemma NoPieces(o: seq<bool>, p: seq<Byte>)
    ensures Sound([]) && Marked([], false) && p + Payload([]) == p && o + StreamOf([], |o|) == o
  {
  }

  lemma {:induction false} PayloadJoin(a: seq<Piece>, b: seq<Piece>)
    ensures Payload(a + b) == Payload(a) + Payload(b)
  {
    if b == [] {
      assert a + b == a;
    } else {
      var n := |b| - 1;
      assert (a + b)[..|a + b| - 1] == a + b[..n];
      PayloadJoin(a, b[..n]);
    }
  }

  lemma {:induction false} StreamJoin(a: seq<Piece>, b: seq<Piece>, at: nat)
    requires Sound(a) && Sound(b)
    ensures Sound(a + b) && StreamOf(a + b, at) == StreamOf(a, at) + StreamOf(b, at + |StreamOf(a, at)|)
  {
    hide Encode;
    if b == [] {
      assert a + b == a;
    } else {
      var n := |b| - 1;
      assert (a + b)[..|a + b| - 1] == a + b[..n];
      StreamJoin(a, b[..n], at);
      var x, y := StreamOf(a, at), StreamOf(b[..n], at + |StreamOf(a, at)|);
      Regroup(x, y, Encode(StoredBlock(b[n].bytes), b[n].last, at + |x| + |y|));
    }
  }

  /** Blocks written in one call after those of another. */
  lemma Followed(a: seq<Piece>, b: seq<Piece>, last: bool)
    requires Sound(a) && Marked(a, false) && Sound(b) && Marked(b, last)
    ensures Sound(a + b) && Marked(a + b, last) && Payload(a + b) == Payload(a) + Payload(b)
    ensures StreamOf(a + b, 0) == StreamOf(a, 0) + StreamOf(b, |StreamOf(a, 0)|)
  {
    hide StreamOf, Payload;
    PayloadJoin(a, b);
    StreamJoin(a, b, 0);
  }

  /** Stored blocks end with a byte. */
  lemma {:induction false} EndsWithByte(bs: seq<Piece>)
    requires Sound(bs)
    ensures |StreamOf(bs, 0)| % 8 == 0
  {
    hide Encode;
    if bs != [] {
      var n := |bs| - 1;
      EndsWithByte(bs[..n]);
      EndOfPiece(bs[n], |StreamOf(bs[..n], 0)|);
    }
  }

  lemma EndOfPiece(b: Piece, at: nat)
    requires |b.bytes| <= MAX_STORED
    ensures (at + |Encode(StoredBlock(b.bytes), b.last, at)|) % 8 == 0
  {
    hide ToBits, BytesBits, Pad;
    var pad := Pad(at + 3);
  }

  /** What the calls so far have written, and taken of the input given. */
  ghost predicate Sofar(st: Storer, bs: seq<Piece>, last: bool, given: seq<Byte>)
    reads st, st.w, st.w.pendingBuf, st.window
  {
    st.Valid() && Sound(bs) && Marked(bs, last) && st.Out() == StreamOf(bs, 0) && st.paid == Payload(bs) &&
    st.all + st.input == given &&
    (last ==> st.input == [] && st.paid == st.all)
  }

  /** All blocks but the last of the stream hold so many bytes. */
  ghost predicate AllLarge(bs: seq<Piece>, n: int) {
    forall b :: b in bs ==> |b.bytes| >= n || b.last
  }

  lemma ShapeOf(st: Storer)
    requires st.Valid()
    ensures st.Shape()
  {
  }

  lemma TakenGiven(st: Storer, in0: seq<Byte>, all0: seq<Byte>)
    requires st.Taken(in0, all0)
    ensures st.all + st.input == all0 + in0
  {
    var n := |in0| - |st.input|;
    assert all0 + in0[..n] + in0[n..] == all0 + in0;
  }

  /** One call more. */
  method NextCall(st: Storer, flush: Flush, room: nat, more: seq<Byte>, ghost done: seq<Piece>, ghost given: seq<Byte>)
    returns (r: BlockState, ghost bs: seq<Piece>)
    requires Sofar(st, done, false, given)
    modifies st, st.w, st.w.pendingBuf, st.window
    ensures Sofar(st, bs, r == FinishStarted || r == FinishDone, given + more) && (flush == Finish ==> r != BlockDone)
    ensures flush == Finish && r == NeedMore && room > 0 ==>
            |st.paid| > old(|st.paid|) || (|st.paid| == old(|st.paid|) && |st.unsent| < old(|st.unsent|))
    ensures flush == NoFlush ==> r == NeedMore || r == BlockDone
    ensures st.Shape() && (AllLarge(done, st.Worth()) && flush != SyncFlush ==> AllLarge(bs, st.Worth()))
  {
    hide Storer.Valid, Storer.Out, BytesBits, ToBits, StreamOf, Payload, Tail;
    ghost var in0, all0 := st.input + more, st.all;
    assert all0 + in0 == given + more;
    st.Supply(more, room);
    ghost var added;
    r, added := st.OneCall(flush);
    TakenGiven(st, in0, all0);
    Followed(done, added, r == FinishStarted || r == FinishDone);
    bs := done + added;
    ShapeOf(st);
  }

  lemma PaidBelow(st: Storer, bs: seq<Piece>, last: bool, given: seq<Byte>)
    requires Sofar(st, bs, last, given)
    ensures |st.paid| <= |given| && st.Valid()
  {
    hide BytesBits, ToBits, StreamOf, Payload, Tail;
  }

  lemma NothingYet(st: Storer)
    requires st.Valid() && st.output == [] && st.unsent == [] && st.w.Sent() == [] && st.input == [] && st.all == []
    requires st.paid == []
    ensures Sofar(st, [], false, [])
  {
    hide BytesBits, ToBits, Tail;
    NoneBits();
  }

  /** With nothing left to go out, the output is the stream. */
  lemma AllGone(st: Storer, bs: seq<Piece>, given: seq<Byte>)
    requires Sofar(st, bs, true, given) && st.unsent == []
    ensures Sound(bs) && Marked(bs, true) && Payload(bs) == given && BytesBits(st.output) == StreamOf(bs, 0)
  {
    hide BytesBits, ToBits, StreamOf, Payload, Tail;
    EndsWithByte(bs);
    SentSize(st.w);
    NoneBits();
    EmptyBuffer(st.w);
    assert st.w.pendingBuf[..0] == [];
    assert BytesBits(st.output) + [] + [] == BytesBits(st.output);
    assert st.all + [] == st.all;
  }

  /** A whole run at level 0: input in any portions, and any room above 0 for output in each call. The
      output is a chain of stored blocks that hold exactly the input, only the last is marked, and every
      other is large enough to be worth it. */
  method StoreAll(chunks: seq<seq<Byte>>, wBits: nat, memLevel: nat, rooms: seq<nat>, room: nat)
    returns (out: seq<Byte>, ghost bs: seq<Piece>)
    requires 9 <= wBits <= 15 && 1 <= memLevel <= 9 && |rooms| == |chunks| && room > 0
    ensures Sound(bs) && Marked(bs, true) && Payload(bs) == Joined(chunks) && BytesBits(out) == StreamOf(bs, 0)
    ensures AllLarge(bs, LeastBlock(wBits, memLevel))
    ensures (|bs| - 1) * LeastBlock(wBits, memLevel) <= |Joined(chunks)|
  {
    hide Storer.Valid, Storer.Out, BytesBits, ToBits, StreamOf, Payload, Sofar, Shl, Joined, AllLarge, Marked;
    var buf := new Byte[4 * Shl(1, memLevel + 6)];
    BufferSizes(memLevel);
    var w := new BitWriter(buf);
    OneByOne(wBits);
    var st := new Storer(w, Shl(1, wBits));
    NothingYet(st);
    NonePortion<Byte>();
    assert chunks[..0] == [];
    bs := [];
    NoneLarge(st.Worth());
    for i := 0 to |chunks|
      invariant fresh(st) && fresh(st.w) && fresh(st.w.pendingBuf) && fresh(st.window)
      invariant Sofar(st, bs, false, Joined(chunks[..i])) && AllLarge(bs, LeastBlock(wBits, memLevel))
    {
      NextPortion(chunks, i);
      var r;
      r, bs := NextCall(st, NoFlush, rooms[i], chunks[i], bs, Joined(chunks[..i]));
    }
    assert chunks[..|chunks|] == chunks;
    ghost var given := Joined(chunks);
    var r := NeedMore;
    PaidBelow(st, bs, false, given);
    while r == NeedMore
      invariant fresh(st) && fresh(st.w) && fresh(st.w.pendingBuf) && fresh(st.window)
      invariant AllLarge(bs, LeastBlock(wBits, memLevel))
      invariant Sofar(st, bs, r != NeedMore, given) && r != BlockDone && |st.paid| <= |given|
      decreases r == NeedMore, |given| - |st.paid|, |st.unsent|
    {
      r, bs := NextCall(st, Finish, room, [], bs, given);
      assert given + [] == given;
      PaidBelow(st, bs, r != NeedMore, given);
    }
    while st.unsent != []  // the last calls only flush what is pending
      invariant fresh(st) && Sofar(st, bs, true, given)
      decreases |st.unsent|
    {
      SendRest(st, room, bs, given);
    }
    AllGone(st, bs, given);
    FewBlocks(bs, true, LeastBlock(wBits, memLevel));
    out := st.output;
  }

  /** The smallest block that is worth writing before the end. */
  function LeastBlock(wBits: nat, memLevel: nat): int {
    var room := 4 * Shl(1, memLevel + 6) - 6;
    if room < Shl(1, wBits) then room else Shl(1, wBits)
  }

  lemma NoneLarge(n: nat)
    ensures AllLarge([], n)
  {
  }

  lemma OneByOne(wBits: nat)
    requires 9 <= wBits <= 15
    ensures 0 < Shl(1, wBits) <= 32768
  {
    ShlOne(wBits);
    Pow2Mono(wBits, 15);
    assert Pow2(5) == 32 && Pow2(10) == 1024 && Pow2(15) == 32768;
  }

  /** There are few blocks, as each but the last is large. */
  lemma {:induction false} FewBlocks(bs: seq<Piece>, last: bool, n: nat)
    requires Sound(bs) && Marked(bs, last) && AllLarge(bs, n)
    ensures (|bs| - if last then 1 else 0) * n <= |Payload(bs)|
    decreases |bs|
  {
    hide StreamOf;
    if bs != [] {
      var init, b := bs[..|bs| - 1], bs[|bs| - 1];
      FewBlocks(init, false, n);
      if !last { assert |bs| * n == |init| * n + n; }
    }
  }

  /** What is left over goes out. */
  method SendRest(st: Storer, room: nat, ghost bs: seq<Piece>, ghost given: seq<Byte>)
    requires Sofar(st, bs, true, given) && room > 0 && st.unsent != []
    modifies st
    ensures Sofar(st, bs, true, given) && |st.unsent| < |old(st.unsent)|
  {
    hide Storer.Valid, Storer.Out, BytesBits, ToBits, StreamOf, Payload;
    st.Supply([], room);
    st.Drain();
  }
}
