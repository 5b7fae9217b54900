/** Whole sessions: inflate called again and again, with any division of the input and any amount of
    output space in each call. */
module Session {
  import opened Bits
  import opened BitWriter
  import opened Format
  import opened Blocks
  import opened Deflate
  import opened RoundTrip
  import opened Feeding
  import opened Inflate
  import opened InflateSteps

  /** The arguments of one call. */
  datatype Call = Call(more: seq<Byte>, space: nat, finish: bool)

  /** The input of each call, as bits. */
  function Portions(calls: seq<Call>): (xs: seq<seq<bool>>)
    ensures |xs| == |calls|
  {
    if calls == [] then [] else Portions(calls[..|calls| - 1]) + [BytesBits(calls[|calls| - 1].more)]
  }

  lemma {:induction false} PortionsWhole(calls: seq<Call>)
    ensures WholeBytes(Portions(calls))
  {
    hide BytesBits;
    if calls != [] {
      PortionsWhole(calls[..|calls| - 1]);
    }
  }

  /** The whole input. */
  function Input(calls: seq<Call>): seq<bool> { Joined(Portions(calls)) }

  /** s comes to t by the calls. */
  ghost predicate Runs(s: State, calls: seq<Call>, t: State) { RunTo(s, Portions(calls), t) }

  lemma RunOne(s: State, calls: seq<Call>, u: State, call: Call, t: State)
    requires Runs(s, calls, u) && Reaches(Feed(u, BytesBits(call.more)), t)
    ensures Runs(s, calls + [call], t)
  {
    hide Reaches, Feed, BytesBits;
    var all := calls + [call];
    assert all[..|all| - 1] == calls;
    var xs := Portions(all);
    assert xs[..|xs| - 1] == Portions(calls);
    assert Goes(u, Last(xs), t);
  }

  lemma NoCalls(s: State)
    ensures Runs(s, [], s)
  {
    ReachesSelf(s);
  }

  /** full, in which inflate_table had no space for the tables of a block, is a state that the machine
      of the format comes to with the input of the first calls. */
  ghost predicate RanOut(s: State, calls: seq<Call>, full: State) {
    Oversized(full) && exists k :: 0 <= k <= |calls| && Arrives(s, calls[..k], full)
  }

  ghost predicate Arrives(s: State, calls: seq<Call>, full: State) { Reaches(Feed(s, Input(calls)), full) }

  /** What stopped one call is still what stopped it after more calls. */
  lemma RanOutMore(s: State, calls: seq<Call>, call: Call, full: State)
    requires RanOut(s, calls, full)
    ensures RanOut(s, calls + [call], full)
  {
    hide Arrives, Oversized;
    var k :| 0 <= k <= |calls| && Arrives(s, calls[..k], full);
    assert (calls + [call])[..k] == calls[..k];
  }

  lemma RanOutNow(s: State, calls: seq<Call>, u: State, call: Call, full: State)
    requires Ok(s) && Runs(s, calls, u) && Oversized(full) && Reaches(Feed(u, BytesBits(call.more)), full)
    ensures RanOut(s, calls + [call], full)
  {
    hide Reaches, Feed, BytesBits, Ok, Oversized, RunTo, Joined;
    var all, x := calls + [call], BytesBits(call.more);
    PortionsWhole(calls);
    RunJoined(s, Portions(calls), u);
    FeedOk(s, Input(calls));
    ReachesFed(Feed(s, Input(calls)), u, x);
    FeedFeed(s, Input(calls), x);
    InputNext(calls, call);
    ReachesTrans(Feed(s, Input(all)), Feed(u, x), full);
    assert all[..|all|] == all;
    assert Arrives(s, all[..|all|], full);
  }

  lemma InputNext(calls: seq<Call>, call: Call)
    ensures Input(calls + [call]) == Input(calls) + BytesBits(call.more)
  {
    hide BytesBits;
    var all := calls + [call];
    assert all[..|all| - 1] == calls;
    var xs := Portions(all);
    assert xs[..|xs| - 1] == Portions(calls);
  }

  /** The last call has not used up the space it was given. */
  ghost predicate Spare(calls: seq<Call>, puts: seq<seq<Byte>>) {
    |puts| == |calls| > 0 && |puts[|puts| - 1]| < calls[|calls| - 1].space
  }

  /** Every call has put out no more than it had space for. */
  ghost predicate WithinSpace(calls: seq<Call>, puts: seq<seq<Byte>>) {
    |puts| == |calls| && forall i :: 0 <= i < |puts| ==> |puts[i]| <= calls[i].space
  }

  /** Call inflate with each of the calls in turn; puts is the output of each. When the last call
      leaves space unused, inflate has gone as far as the input lets it. */
  method InflateAll(z: Inflater, calls: seq<Call>) returns (puts: seq<seq<Byte>>)
    requires z.Valid() && z.out == [] && !z.overrun && Ok(z.Abs())
    modifies z, z.r, z.ring, z.ring.window, z.lens, z.work, z.codes
    ensures z.Valid() && z.out == [] && z.hist == old(z.hist) + Joined(puts) && (z.overrun ==> z.mode == BAD)
    ensures if z.overrun then RanOut(old(z.Abs()), calls, z.full) else Runs(old(z.Abs()), calls, z.Abs())
    ensures WithinSpace(calls, puts) && (Spare(calls, puts) ==> Step(z.Abs()) == None)
  {
    hide Runs, Feed, BytesBits, Reaches, Step, NeedsSpace, Inflater.Valid, Inflater.Abs, Joined, RanOut, Ok, Oversized;
    ghost var s := z.Abs();
    puts := [];
    NoCalls(s);
    NoPuts();
    var i := 0;
    while i < |calls|
      invariant i <= |calls| && z.Valid() && z.out == [] && z.hist == old(z.hist) + Joined(puts)
      invariant z.overrun ==> z.mode == BAD
      invariant if z.overrun then RanOut(s, calls[..i], z.full) else Runs(s, calls[..i], z.Abs())
      invariant WithinSpace(calls[..i], puts) && (Spare(calls[..i], puts) ==> Step(z.Abs()) == None)
    {
      ghost var u, before := z.Abs(), z.overrun;
      var ret, put := z.Inflate(calls[i].more, calls[i].space, calls[i].finish);
      OnePut(puts, put);
      puts := puts + [put];
      assert calls[..i] + [calls[i]] == calls[..i + 1];
      if before {
        RanOutMore(s, calls[..i], calls[i], z.full);
      } else if z.Overran(Feed(u, BytesBits(calls[i].more))) {
        RanOutNow(s, calls[..i], u, calls[i], z.full);
      } else {
        RunOne(s, calls[..i], u, calls[i], z.Abs());
      }
      i := i + 1;
    }
    assert calls[..i] == calls;
  }

  lemma NoPuts()
    ensures forall h: seq<Byte> :: h + Joined([]) == h
  {
  }

  lemma OnePut(puts: seq<seq<Byte>>, put: seq<Byte>)
    ensures forall h :: h + Joined(puts + [put]) == h + Joined(puts) + put
  {
    assert (puts + [put])[..|puts|] == puts;
    forall h ensures h + Joined(puts + [put]) == h + Joined(puts) + put {
      assert h + (Joined(puts) + put) == h + Joined(puts) + put;
    }
  }

  /** What a run ends in is the same for every division of the same input into calls, with any space
      for output: all output, the mode and the unused bits. */
  lemma AnyDivision(s: State, a: seq<Call>, b: seq<Call>, t: State, u: State)
    requires Ok(s) && Input(a) == Input(b)
    requires Runs(s, a, t) && Runs(s, b, u) && Step(u) == None
    ensures t.out <= u.out && (Step(t) == None ==> t == u)
  {
    hide Ok, RunTo, Portions, Step, Joined;
    PortionsWhole(a);
    PortionsWhole(b);
    StoppedEarly(s, Portions(a), Portions(b), t, u);
    if Step(t) == None { SplitIndependent(s, Portions(a), Portions(b), t, u); }
  }

  /** The machine of the format before the first block. */
  ghost function Start(wrap: bool): (s: State)
    ensures Ok(s)
  {
    State(Type, false, wrap, [], [])
  }

  /** Decompress the same input twice, divided into calls in two ways, the second way with space left
      at the end: the first output is the beginning of the second, and all of it, with the same mode
      and unused bits, if it had space left as well. */
  method InflateTwice(wrap: bool, a: seq<Call>, b: seq<Call>)
    returns (pa: seq<seq<Byte>>, za: Inflater, pb: seq<seq<Byte>>, zb: Inflater)
    requires Input(a) == Input(b)
    ensures WithinSpace(a, pa) && WithinSpace(b, pb)
    ensures za.overrun ==> za.mode == BAD && RanOut(Start(wrap), a, za.full)
    ensures zb.overrun ==> zb.mode == BAD && RanOut(Start(wrap), b, zb.full)
    ensures Spare(b, pb) && !za.overrun && !zb.overrun ==>
            Joined(pa) <= Joined(pb) && (Spare(a, pa) ==> Joined(pa) == Joined(pb) && za.Abs() == zb.Abs())
  {
    hide Runs, Step, Input, Ok, Inflater.Valid, Inflater.Abs, Joined, Spare, WithinSpace, RanOut;
    ghost var s := Start(wrap);
    za := new Inflater(wrap);
    pa := InflateAll(za, a);
    zb := new Inflater(wrap);
    pb := InflateAll(zb, b);
    AbsFields(za);
    AbsFields(zb);
    if Spare(b, pb) && !za.overrun && !zb.overrun { AnyDivision(s, a, b, za.Abs(), zb.Abs()); }
    assert [] + Joined(pa) == Joined(pa) && [] + Joined(pb) == Joined(pb);
  }

  /** A zlib stream of encoded blocks, however it is divided into calls: the output is always the
      beginning of what was compressed, and all of it, accepted, once no call is waiting for input
      or for space. */
  lemma StreamResult(fs: seq<Flushed>, bs: seq<Block>, at: nat, rest: seq<bool>, s: State, calls: seq<Call>, t: State)
    requires AllEncoded(fs, bs) && s.mode == Type && !s.last && s.wrap && s.out == [] && s.q == []
    requires Input(calls) == StreamBits(fs, bs, at) + rest && |rest| % 8 == 0
    requires Runs(s, calls, t)
    ensures t.out <= Replay(fs)
    ensures Step(t) == None ==> t == State(Mode.Done, true, true, Replay(fs), rest)
  {
    hide EncodedAs, StreamBits, RunTo, Portions, Step, Continues, Replay, Joined, Steps;
    var all := Input(calls);
    PortionsWhole(calls);
    var v := Feed(s, all);
    assert [] + all == all;
    InflateUndoesDeflate(fs, bs, v, at, rest);
    var u := State(Mode.Done, true, true, Replay(fs), rest);
    RunJoined(s, Portions(calls), t);
    Linear(v, t, u);
    AtEnd(u);
    if Reaches(t, u) {
      var n: nat :| Steps(t, u, n);
      OutputGrows(t, u, n);
      if Step(t) == None { AtRest(t, u); }
    } else {
      AtRest(u, t);
    }
  }

  lemma AbsFields(z: Inflater)
    ensures z.out == [] ==> z.Abs().out == z.hist
    ensures (z.Abs().mode == Mode.Done <==> z.mode == DONE) && (z.Abs().mode == Bad <==> z.mode == BAD)
  {
    hide BitReader.Stream, Aligned;
  }

  /** The input of the first k calls is the beginning of all input. */
  lemma {:induction false} InputPrefix(calls: seq<Call>, k: nat) returns (more: seq<bool>)
    requires k <= |calls|
    ensures Input(calls) == Input(calls[..k]) + more && |more| % 8 == 0
    decreases |calls|
  {
    hide BytesBits, Input;
    if k == |calls| {
      assert calls[..k] == calls;
      more := [];
    } else {
      var n := |calls| - 1;
      more := InputPrefix(calls[..n], k);
      assert calls[..n][..k] == calls[..k] && calls[..n] + [calls[n]] == calls;
      InputNext(calls[..n], calls[n]);
      more := more + BytesBits(calls[n].more);
    }
  }

  /** With all the input, the machine comes by the state in which there was no space. */
  lemma OnTheWay(s: State, calls: seq<Call>, full: State) returns (w: State)
    requires Ok(s) && RanOut(s, calls, full)
    ensures w.mode.CodeLens? && Reaches(Feed(s, Input(calls)), w)
  {
    hide Input, Reaches, Ok, NoSpace;
    var k :| 0 <= k <= |calls| && Arrives(s, calls[..k], full);
    var more := InputPrefix(calls, k);
    FeedOk(s, Input(calls[..k]));
    ReachesFed(Feed(s, Input(calls[..k])), full, more);
    FeedFeed(s, Input(calls[..k]), more);
    w := Feed(full, more);
  }

  /** Blocks without codes of their own never need space for tables. */
  lemma NeverRunsOut(fs: seq<Flushed>, bs: seq<Block>, at: nat, rest: seq<bool>, calls: seq<Call>, full: State)
    requires AllEncoded(fs, bs) && NoCodes(bs)
    requires Input(calls) == StreamBits(fs, bs, at) + rest && |rest| % 8 == 0
    ensures !RanOut(Start(true), calls, full)
  {
    hide EncodedAs, Continues, StreamBits, Input, Step, Replay, Reaches, Quiet, NoCodes, RanOut;
    var s, all := Start(true), Input(calls);
    if RanOut(s, calls, full) {
      var w := OnTheWay(s, calls, full);
      var v := Feed(s, all);
      assert [] + all == all;
      InflateUndoesDeflate(fs, bs, v, at, rest);
      var u := State(Mode.Done, true, true, Replay(fs), rest);
      AtEnd(u);
      NeverReads(v, u, w);
    }
  }

  /** Decompress a zlib stream, after its header, that encodes the blocks fs: the output is the
      beginning of what fs stand for, and once a call leaves space unused, all of it, accepted. */
  method InflateStream(calls: seq<Call>, ghost fs: seq<Flushed>, ghost bs: seq<Block>, ghost at: nat,
                       ghost rest: seq<bool>)
    returns (puts: seq<seq<Byte>>, z: Inflater)
    requires AllEncoded(fs, bs) && Input(calls) == StreamBits(fs, bs, at) + rest && |rest| % 8 == 0
    ensures WithinSpace(calls, puts) && (z.overrun <==> z.mode == BAD)
    ensures z.overrun ==> RanOut(Start(true), calls, z.full)
    ensures NoCodes(bs) ==> !z.overrun
    ensures z.overrun || Joined(puts) <= Replay(fs)
    ensures z.mode == DONE ==> Joined(puts) == Replay(fs)
    ensures Spare(calls, puts) && z.mode != BAD ==> z.mode == DONE
  {
    hide AllEncoded, StreamBits, Runs, Step, Replay, Input, Inflater.Valid, Inflater.Abs, Joined, Spare, WithinSpace,
         RanOut, Ok, NoCodes;
    z := new Inflater(true);
    ghost var s := Start(true);
    puts := InflateAll(z, calls);
    assert [] + Joined(puts) == Joined(puts);
    AbsFields(z);
    if NoCodes(bs) { NeverRunsOut(fs, bs, at, rest, calls, z.full); }
    if !z.overrun {
      StreamResult(fs, bs, at, rest, s, calls, z.Abs());
      if z.mode == DONE || z.mode == BAD { AtEnd(z.Abs()); }
    }
  }
}
