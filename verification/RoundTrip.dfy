/** deflate and inflate together: what the compression loops hand to _tr_flush_block, in whatever
    encoding it chooses, is read back as the input. */
module RoundTrip {
  import opened Format
  import opened Blocks
  import opened Deflate

  /** b is an encoding that _tr_flush_block may choose for the block f. */
  ghost predicate EncodedAs(f: Flushed, b: Block) {
    ValidBlock(b) && if b.StoredBlock? then f.buf == Some(b.bytes) else b.ts == f.ts
  }

  /** Every block continues the output of those before it. */
  lemma {:induction false} BlockAt(fs: seq<Flushed>, k: nat)
    requires Continues(fs) && k < |fs|
    ensures Continues(fs[..k]) && Continues(fs[..k + 1]) && Reachable(Replay(fs[..k]), fs[k].ts)
    ensures Replay(fs[..k + 1]) == Expand(Replay(fs[..k]), fs[k].ts)
    ensures fs[k].buf.Some? ==> Replay(fs[..k + 1]) == Replay(fs[..k]) + fs[k].buf.v
    decreases |fs|
  {
    hide Expand, Reachable;
    var n := |fs| - 1;
    if k < n {
      BlockAt(fs[..n], k);
      assert fs[..n][..k] == fs[..k] && fs[..n][..k + 1] == fs[..k + 1];
    } else {
      assert fs[..k + 1] == fs;
    }
  }

  /** From any block on, the encoded blocks form a stream that stands for the rest of the input. */
  lemma {:induction false} StreamFrom(fs: seq<Flushed>, bs: seq<Block>, k: nat)
    requires Continues(fs) && |fs| == |bs| && k < |fs| && forall i :: 0 <= i < |fs| ==> EncodedAs(fs[i], bs[i])
    ensures Continues(fs[..k]) && ValidStream(Replay(fs[..k]), bs[k..])
    ensures AfterAll(Replay(fs[..k]), bs[k..]) == Replay(fs)
    decreases |fs| - k
  {
    hide Expand, Reachable, Continues, ValidBlock, Replay;
    BlockAt(fs, k);
    assert EncodedAs(fs[k], bs[k]);
    assert bs[k..][0] == bs[k] && bs[k..][1..] == bs[k + 1..];
    assert Fits(Replay(fs[..k]), bs[k]) && After(Replay(fs[..k]), bs[k]) == Replay(fs[..k + 1]);
    if k + 1 < |fs| {
      StreamFrom(fs, bs, k + 1);
    } else {
      assert fs[..k + 1] == fs;
    }
  }

  /** The blocks bs are encodings of the blocks fs. */
  ghost predicate AllEncoded(fs: seq<Flushed>, bs: seq<Block>) {
    Continues(fs) && fs != [] && |fs| == |bs| && forall i :: 0 <= i < |fs| ==> EncodedAs(fs[i], bs[i])
  }

  /** The encoded blocks are a whole stream, and stand for what the tokens stand for. */
  lemma EncodedStream(fs: seq<Flushed>, bs: seq<Block>)
    requires AllEncoded(fs, bs)
    ensures ValidStream([], bs) && AfterAll([], bs) == Replay(fs)
  {
    hide Continues, Replay, AfterAll, ValidStream;
    StreamFrom(fs, bs, 0);
    assert fs[..0] == [] && bs[0..] == bs;
    NothingReplayed();
  }

  /** The bits of a zlib stream after its header: the blocks, from bit position at on, and the trailer. */
  ghost function StreamBits(fs: seq<Flushed>, bs: seq<Block>, at: nat): seq<bool>
    requires AllEncoded(fs, bs)
  {
    EncodedStream(fs, bs);
    var e := EncodeAll([], bs, at);
    e + Trailer(at + |e|, Replay(fs))
  }

  /** inflate undoes deflate: from the first block of a zlib stream on, the machine of the format
      puts out the input and accepts the check value, whatever follows the stream. */
  lemma InflateUndoesDeflate(fs: seq<Flushed>, bs: seq<Block>, s: State, at: nat, rest: seq<bool>)
    requires AllEncoded(fs, bs) && s.mode == Type && !s.last && s.wrap && s.out == []
    requires s.q == StreamBits(fs, bs, at) + rest && |rest| % 8 == 0
    ensures Reaches(s, s.(mode := Done, last := true, out := Replay(fs), q := rest))
    ensures NoCodes(bs) ==> Quiet(s, s.(mode := Done, last := true, out := Replay(fs), q := rest))
  {
    hide AllEncoded, Quiet, Reaches, Trailer, EncodeAll, Replay, AfterAll, ValidStream;
    EncodedStream(fs, bs);
    ZlibRoundTrip(s, bs, at, rest);
  }

  lemma NothingReplayed()
    ensures Continues([]) && Replay([]) == []
  {
  }

  // ----- how much a stream of stored blocks can grow -----

  function DivUp(n: nat, d: nat): nat
    requires d > 0
  {
    (n + d - 1) / d
  }

  /** What deflateBound adds to the input length for the default settings, but for the wrapper. */
  function BoundExtra(n: nat): nat { n / 4096 + n / 16384 + n / 33554432 + 7 }

  /** deflateBound covers a chain of stored blocks of 16383 bytes, five bytes each. */
  lemma BoundCoversStored(n: nat)
    ensures 5 * DivUp(n, 16383) <= BoundExtra(n)
  {
    var k, s := n / 16383, n % 16383;
    var q, r := n / 16384, n % 16384;
    var d := k - q;
    assert n == 16383 * k + s && n == 16384 * q + r;
    assert q + r == 16383 * d + s;
    assert n / 4096 == 4 * q + r / 4096;
    assert n / 33554432 >= q / 2048;
    assert DivUp(n, 16383) <= k + (if s > 0 then 1 else 0);
    Excess(q, r, s, d);
  }

  lemma Excess(q: nat, r: nat, s: nat, d: int)
    requires r < 16384 && s < 16383 && q + r == 16383 * d + s
    ensures 5 * d + (if s > 0 then 5 else 0) <= r / 4096 + q / 2048 + 7
  {
    if d >= 2 { assert q / 2048 >= 7 * (d - 1); }
  }
}
