/** The compression loops of deflate.c: deflate_huff, deflate_rle, deflate_fast and deflate_slow.
    Whatever they choose, the tokens they tally stand for the input. */
module Deflate {
  import opened Bits
  import opened BitWriter
  import opened Adler
  import opened Format
  import opened FlushMode
  import opened Hash
  import opened Matcher
  import opened Search
  import opened Costs

  datatype Strategy = DefaultStrategy | Filtered | HuffmanOnly | RunLength | FixedCodes

  /** A call of _tr_flush_block: the tokens tallied, the bytes they stand for if the window still
      holds all of them, how many those are, and whether the block is the last. */
  datatype Flushed = Flushed(ts: seq<Token>, buf: Option<seq<Byte>>, storedLen: int, last: bool)

  /** The last block is still to come. */
  predicate Unended(blocks: seq<Flushed>) {
    blocks == [] || !blocks[|blocks| - 1].last
  }

  /** Each block continues the output of those before it, in its tokens and in its stored form, and
      nothing follows a block marked as the last. */
  ghost predicate Continues(blocks: seq<Flushed>)
    decreases |blocks|, 0
  {
    blocks == [] ||
    (var init, b := blocks[..|blocks| - 1], blocks[|blocks| - 1];
     Continues(init) && Unended(init) && AllValid(b.ts) && Reachable(Replay(init), b.ts) &&
     b.storedLen == |Expand(Replay(init), b.ts)| - |Replay(init)| &&
     (b.buf.Some? ==> Expand(Replay(init), b.ts) == Replay(init) + b.buf.v))
  }

  /** What the blocks stand for. */
  ghost function Replay(blocks: seq<Flushed>): seq<Byte>
    requires Continues(blocks)
    decreases |blocks|, 1
  {
    if blocks == [] then [] else Expand(Replay(blocks[..|blocks| - 1]), blocks[|blocks| - 1].ts)
  }

  /** What a strategy's tokens are like. */
  predicate OfKind(strategy: Strategy, ts: seq<Token>) {
    (strategy == HuffmanOnly ==> LiteralsOnly(ts)) && (strategy == RunLength ==> RunsOnly(ts))
  }

  /** A block that fits the symbol buffer, and a stored block if the window holds its bytes. */
  predicate Handy(b: Flushed, litBufsize: nat, strategy: Strategy) {
    |b.ts| < litBufsize && (b.buf.Some? ==> |b.buf.v| <= 65535) && OfKind(strategy, b.ts)
  }

  predicate AllHandy(blocks: seq<Flushed>, litBufsize: nat, strategy: Strategy) {
    forall i :: 0 <= i < |blocks| ==> Handy(blocks[i], litBufsize, strategy)
  }

  lemma ContinuesMore(blocks: seq<Flushed>, b: Flushed)
    requires Continues(blocks) && Unended(blocks) && AllValid(b.ts) && Reachable(Replay(blocks), b.ts)
    requires b.storedLen == |Expand(Replay(blocks), b.ts)| - |Replay(blocks)|
    requires b.buf.Some? ==> Expand(Replay(blocks), b.ts) == Replay(blocks) + b.buf.v
    ensures Continues(blocks + [b]) && Replay(blocks + [b]) == Expand(Replay(blocks), b.ts)
  {
    hide Expand;
    assert (blocks + [b])[..|blocks|] == blocks;
  }

  /** The tokens of all blocks. */
  ghost function Tokens(blocks: seq<Flushed>): seq<Token> {
    if blocks == [] then [] else Tokens(blocks[..|blocks| - 1]) + blocks[|blocks| - 1].ts
  }

  lemma TokensPush(blocks: seq<Flushed>, b: Flushed)
    ensures Tokens(blocks + [b]) == Tokens(blocks) + b.ts
  {
    assert (blocks + [b])[..|blocks|] == blocks;
  }

  // ----- what a token stands for -----

  /** Copying a match repeats the bytes of the stream. */
  lemma {:induction false} CopyMatches(stream: seq<Byte>, pos: nat, from: nat, len: nat)
    requires MatchAt(stream, pos, from, len)
    ensures CopyFrom(stream[..pos], pos - from, len) == stream[..pos + len]
    decreases len
  {
    if len > 0 {
      assert SameByte(stream, from, pos, 0);
      assert stream[..pos] + [stream[..pos][from]] == stream[..pos + 1];
      var f, q := from + 1, pos + 1;
      forall k | 0 <= k < len - 1 ensures SameByte(stream, f, q, k) {
        assert SameByte(stream, from, pos, k + 1);
      }
      CopyMatches(stream, pos + 1, from + 1, len - 1);
    }
  }

  lemma ExpandMore(h: seq<Byte>, ts: seq<Token>, t: Token)
    requires Reachable(h, ts) && InReach(Expand(h, ts), t)
    ensures Reachable(h, ts + [t]) && Expand(h, ts + [t]) == Apply(Expand(h, ts), t)
  {
    assert (ts + [t])[..|ts|] == ts;
  }

  /** The tokens ts take the output from h to the first n bytes of the stream. */
  ghost predicate Covers(h: seq<Byte>, ts: seq<Token>, stream: seq<Byte>, n: nat) {
    AllValid(ts) && n <= |stream| && Reachable(h, ts) && Expand(h, ts) == stream[..n]
  }

  lemma CoversLit(h: seq<Byte>, ts: seq<Token>, stream: seq<Byte>, n: nat)
    requires Covers(h, ts, stream, n) && n < |stream|
    ensures Covers(h, ts + [Lit(stream[n])], stream, n + 1)
  {
    hide Expand, Reachable;
    ExpandMore(h, ts, Lit(stream[n]));
    assert stream[..n] + [stream[n]] == stream[..n + 1];
  }

  lemma CoversMatch(h: seq<Byte>, ts: seq<Token>, stream: seq<Byte>, n: nat, from: nat, len: nat)
    requires Covers(h, ts, stream, n) && MatchAt(stream, n, from, len) && 3 <= len <= 258
    ensures Covers(h, ts + [Match(n - from, len)], stream, n + len)
  {
    hide Expand, Reachable;
    CopyMatches(stream, n, from, len);
    ExpandMore(h, ts, Match(n - from, len));
  }

  /** More input changes nothing. */
  lemma CoversGrows(h: seq<Byte>, ts: seq<Token>, stream: seq<Byte>, more: seq<Byte>, n: nat)
    requires Covers(h, ts, stream, n) && stream <= more
    ensures Covers(h, ts, more, n)
  {
    assert more[..n] == stream[..n];
  }

  lemma MatchGrows(stream: seq<Byte>, more: seq<Byte>, pos: int, from: int, len: int)
    requires MatchAt(stream, pos, from, len) && stream <= more
    ensures MatchAt(more, pos, from, len)
  {
    forall k | 0 <= k < len ensures SameByte(more, from, pos, k) {
      assert SameByte(stream, from, pos, k);
    }
  }

  lemma PrefixOf(s: seq<Byte>, i: seq<Byte>, s': seq<Byte>, i': seq<Byte>)
    requires s + i == s' + i' && |s| <= |s'|
    ensures s <= s'
  {
    assert s == (s + i)[..|s|];
    assert s' == (s' + i')[..|s'|];
  }

  /** configuration_table: good, lazy, nice, chain. */
  const CONFIG: seq<(nat, nat, nat, nat)> := [
    (0, 0, 0, 0), (4, 4, 8, 4), (4, 5, 16, 8), (4, 6, 32, 32), (4, 4, 16, 16),
    (8, 16, 32, 32), (8, 16, 128, 128), (8, 32, 128, 256), (32, 128, 258, 1024), (32, 258, 258, 4096)]

  /** How the loop that the strategy and the level choose goes about it. */
  function StyleFor(strategy: Strategy, level: nat): Style {
    if strategy == RunLength then Runs else if level <= 3 then Fast else Slow(strategy == Filtered)
  }

  function ConfigFor(wBits: nat, memLevel: nat, level: nat): Config
    requires level <= 9
  {
    var (good, lazy, nice, chain) := CONFIG[level];
    Config(HashFor(memLevel), Shl(1, wBits) - MIN_LOOKAHEAD, if level <= 3 then MAX_MATCH else lazy, good, nice, chain,
           lazy)
  }

  /** The default: level 6 with the largest window and memLevel 8; and the least and the most effort. */
  lemma ConfigsAre()
    ensures ConfigFor(15, 8, 6) == Config(Params(15, 5), 32506, 16, 8, 128, 128, 16)
    ensures ConfigFor(15, 8, 1) == Config(Params(15, 5), 32506, 258, 4, 8, 4, 4)
    ensures ConfigFor(15, 8, 9) == Config(Params(15, 5), 32506, 258, 32, 258, 4096, 258)
  {
    hide Shl;
    ShlOne(15);
    SevenFifteen();
  }

  class Deflater {
    const m: Matcher
    const symEnd: nat              // the symbol buffer is full at so many symbols
    const maxLazy: nat
    const good: nat
    const nice: nat
    const maxChain: nat
    const level: nat
    const strategy: Strategy
    var sym: seq<Token>            // the symbols in the symbol buffer
    var blocks: seq<Flushed>       // calls of _tr_flush_block so far
    var matchLength: nat
    var prevLength: nat
    var prevMatch: int
    var matchAvailable: bool
    ghost var looks: map<nat, Look>  // the searches made, by their places

    /** The state after deflateInit2_: nothing has been read. */
    constructor (wBits: nat, memLevel: nat, level: nat, strategy: Strategy)
      requires 9 <= wBits <= 15 && 1 <= memLevel <= 9 && 1 <= level <= 9
      ensures this.level == level && this.strategy == strategy && symEnd == Shl(1, memLevel + 6) - 1 && Ready()
      ensures m.input == [] && m.stream == [] && blocks == [] && Packed()
      ensures Conf() == ConfigFor(wBits, memLevel, level)
      ensures fresh(m) && fresh(m.window) && fresh(m.head) && fresh(m.prev)
    {
      hide Pow2, Shl;
      var config := CONFIG[level];
      m := new Matcher(wBits, memLevel);
      SymEnd(memLevel);
      symEnd := Shl(1, memLevel + 6) - 1;
      good, maxLazy, nice, maxChain := config.0, config.1, config.2, config.3;
      this.level, this.strategy := level, strategy;
      sym, blocks, matchLength, prevLength, prevMatch, matchAvailable := [], [], 2, 2, 0, false;
      looks := map[];
    }

    /** There is room for a symbol, and the last block is still to come. */
    ghost predicate Open()
      reads this`sym, this`blocks
    {
      |sym| < symEnd && Unended(blocks)
    }

    ghost predicate Shape() { 127 <= symEnd <= 32767 && maxChain >= 4 }

    /** The blocks so far and the tokens since are what _tr_flush_block can take. */
    ghost predicate Kept()
      reads this`sym, this`blocks
    {
      AllHandy(blocks, symEnd + 1, strategy) && OfKind(strategy, sym)
    }

    /** How far strstart is from the beginning of the block, if the window still holds that. */
    ghost predicate Storable()
      reads m`strstart, m`blockStart
    {
      m.blockStart >= 0 ==> m.strstart - m.blockStart <= 65535
    }

    /** The tokens tallied since the last flush continue the flushed blocks up to strstart, but for
        the held bytes before it. */
    ghost predicate Synced(held: nat)
      reads this`sym, this`blocks, m, m.window, m.prev, m.head
    {
      Shape() && Kept() && m.Summed() && m.Valid() && |sym| <= symEnd && 0 <= m.base + m.blockStart <= |m.stream| &&
      Continues(blocks) && Replay(blocks) == m.stream[..m.base + m.blockStart] && held <= m.strstart &&
      Covers(Replay(blocks), sym, m.stream, m.base + m.strstart - held)
    }

    // ----- what has been looked at -----

    /** All tokens so far. */
    ghost function All(): seq<Token>
      reads this`sym, this`blocks
    {
      Tokens(blocks) + sym
    }

    ghost function Manner(): Style { StyleFor(strategy, level) }

    ghost function Conf(): Config {
      Config(m.hash, m.MaxDist(), if level <= 3 then MAX_MATCH else maxLazy, good, nice, maxChain, maxLazy)
    }

    /** Where the next search is made. */
    ghost function Pos(): nat
      reads m`base, m`strstart
    {
      m.base + m.strstart
    }

    /** The tokens so far follow from the searches made before end. */
    ghost predicate Trace(end: nat)
      reads this`sym, this`blocks, this`looks, m`stream, m`ins
    {
      Looked(Manner(), Conf(), looks, m.stream, m.ins, end) &&
      Follows(Manner(), Conf(), All(), looks, m.stream, m.ins)
    }

    /** The tokens follow from the searches made before strstart, and stand for all but the held bytes. */
    ghost predicate Traced(held: nat)
      reads this`sym, this`blocks, this`looks, m`base, m`strstart, m`stream, m`ins
    {
      strategy != HuffmanOnly ==> Trace(Pos()) && Widths(All()) == Pos() - held
    }

    /** The same when the string at strstart has been looked for. */
    ghost predicate Looking(held: nat)
      reads this`sym, this`blocks, this`looks, m`base, m`strstart, m`stream, m`ins
    {
      Trace(Pos() + 1) && Widths(All()) == Pos() - held && Pos() in looks
    }

    /** deflate_slow holds what it found one byte before, if it has not settled that. */
    ghost predicate HeldLook()
      reads this`looks, this`matchAvailable, this`matchLength, m`base, m`strstart, m`matchStart
    {
      if matchAvailable
      then Pos() > 0 && Pos() - 1 in looks && Settled(Manner(), looks[Pos() - 1]) == matchLength &&
           (matchLength >= MIN_MATCH ==> looks[Pos() - 1].from == m.base + m.matchStart)
      else matchLength == MIN_MATCH - 1
    }

    /** A block is ended only when the symbol buffer is full, or as the last. */
    ghost predicate Packed()
      reads this`blocks
    {
      forall i :: 0 <= i < |blocks| ==> blocks[i].last || |blocks[i].ts| == symEnd
    }

    lemma AllIs()
      ensures All() == Tokens(blocks) + sym
    {
    }

    lemma AllMore(s0: seq<Token>, all0: seq<Token>, t: Token)
      requires sym == s0 + [t] && all0 == Tokens(blocks) + s0
      ensures All() == all0 + [t]
    {
      hide Tokens;
    }

    /** All tokens stay when a block is handed over. */
    lemma AllFlushed(blocks0: seq<Flushed>, s0: seq<Token>, b: Flushed)
      requires blocks == blocks0 + [b] && b.ts == s0 && sym == []
      ensures All() == Tokens(blocks0) + s0
    {
      hide Tokens;
      TokensPush(blocks0, b);
    }

    lemma PackedMore(blocks0: seq<Flushed>, b: Flushed)
      requires blocks == blocks0 + [b] && (b.last || |b.ts| == symEnd)
      requires forall i :: 0 <= i < |blocks0| ==> blocks0[i].last || |blocks0[i].ts| == symEnd
      ensures Packed()
    {
    }

    lemma PosIn(held: nat)
      requires Synced(held) && m.lookahead > 0
      ensures Pos() < |m.stream|
    {
      hide Covers, Continues, Replay, Heads, Links, Pow2, ValidParams, Kept;
    }

    lemma PosAt(held: nat)
      requires Synced(held)
      ensures |m.stream| == Pos() + m.lookahead
    {
      hide Covers, Continues, Replay, Heads, Links, Pow2, ValidParams, Kept;
    }

    /** The tokens of all blocks follow from the searches. */
    lemma TraceEnds(held: nat)
      requires Synced(held) && AllOut() && Traced(held) && strategy != HuffmanOnly
      ensures Follows(Manner(), Conf(), Tokens(blocks), looks, m.stream, m.ins)
      ensures Looked(Manner(), Conf(), looks, m.stream, m.ins, |m.stream|)
    {
      hide Looked, Follows, Tokens, Widths, Synced, Continues, Replay;
      PosAt(held);
      assert All() == Tokens(blocks);
    }

    /** What a finished run has come to, when all the input was given. */
    lemma RunEnds(given: seq<Byte>, held: nat)
      requires Synced(held) && AllOut() && Traced(held) && Packed() && Kept() && m.input == []
      requires m.stream + m.input == given
      ensures m.stream == given && Continues(blocks) && Replay(blocks) == given
      ensures AllHandy(blocks, symEnd + 1, strategy)
      ensures forall i :: 0 <= i < |blocks| - 1 ==> !blocks[i].last && |blocks[i].ts| == symEnd
      ensures strategy != HuffmanOnly ==>
                Follows(Manner(), Conf(), Tokens(blocks), looks, given, m.ins) &&
                Looked(Manner(), Conf(), looks, given, m.ins, |given|)
    {
      hide Looked, Follows, Tokens, Synced, Traced, Continues, Replay, AllHandy;
      assert m.stream + [] == m.stream;
      OneLast(blocks);
      if strategy != HuffmanOnly { TraceEnds(held); }
    }

    /** A token more. */
    lemma Traces(all0: seq<Token>, t: Token, ins0: set<nat>, end0: nat, held: nat)
      requires All() == all0 + [t] && strategy != HuffmanOnly && end0 <= Pos()
      requires Looked(Manner(), Conf(), looks, m.stream, ins0, end0)
      requires Follows(Manner(), Conf(), all0, looks, m.stream, ins0) && Later(ins0, m.ins, Widths(all0), |m.stream|)
      requires TokenRule(Manner(), t, Widths(all0), looks, m.stream) && Widths(all0) + Width(t) == Pos() - held
      requires EntryRule(Manner(), Conf(), t, Widths(all0), looks, m.ins)
      ensures Traced(held)
    {
      hide Looked, Follows, TokenRule, Widths, Tokens, EntryRule;
      LookedSeen(Manner(), Conf(), looks, m.stream, ins0, end0);
      FollowsGrows(Manner(), Conf(), all0, looks, m.stream, m.stream, ins0, m.ins, Widths(all0));
      FollowsPush(Manner(), Conf(), all0, t, looks, m.stream, m.ins);
      LookedGrows(Manner(), Conf(), looks, m.stream, m.stream, ins0, m.ins, end0, Pos());
    }

    /** A token more, after a search at its place. */
    lemma Emitted(s0: seq<Token>, all0: seq<Token>, t: Token, ins0: set<nat>, pos: nat, held: nat)
      requires sym == s0 + [t] && all0 == Tokens(blocks) + s0 && strategy != HuffmanOnly
      requires Looked(Manner(), Conf(), looks, m.stream, ins0, pos + 1)
      requires Follows(Manner(), Conf(), all0, looks, m.stream, ins0) && Later(ins0, m.ins, Widths(all0), |m.stream|)
      requires pos < Pos() && TokenRule(Manner(), t, Widths(all0), looks, m.stream)
      requires EntryRule(Manner(), Conf(), t, Widths(all0), looks, m.ins)
      requires Widths(all0) + Width(t) == Pos() - held
      ensures Traced(held)
    {
      hide Looked, Follows, TokenRule, Widths, Tokens, All, EntryRule, Later;
      AllMore(s0, all0, t);
      Traces(all0, t, ins0, pos + 1, held);
    }

    /** More input, and strings inserted that had to wait for it. */
    lemma TraceGrows(stream0: seq<Byte>, ins0: set<nat>, end: nat)
      requires Looked(Manner(), Conf(), looks, stream0, ins0, end) && ins0 <= m.ins && stream0 <= m.stream
      requires Follows(Manner(), Conf(), All(), looks, stream0, ins0)
      requires strategy == RunLength || Later(ins0, m.ins, Widths(All()), |stream0|)
      ensures Trace(end)
    {
      hide Looked, Follows, Tokens, Widths, Later;
      LookedSeen(Manner(), Conf(), looks, stream0, ins0, end);
      FollowsGrows(Manner(), Conf(), All(), looks, stream0, m.stream, ins0, m.ins, Widths(All()));
      LookedGrows(Manner(), Conf(), looks, stream0, m.stream, ins0, m.ins, end, end);
    }

    /** Nothing is inserted with a literal, nor by deflate_rle. */
    lemma NoEntries(t: Token, q: nat)
      requires t.Lit? || strategy == RunLength
      ensures EntryRule(Manner(), Conf(), t, q, looks, m.ins) && Later(m.ins, m.ins, q, |m.stream|)
    {
    }

    /** Between rounds of deflate_slow: a byte may be held back, with the match found for it. */
    ghost predicate Lazy()
      reads this, m
    {
      2 <= matchLength <= MAX_MATCH && (!matchAvailable ==> matchLength == 2) &&
      (matchLength >= MIN_MATCH ==>
        matchLength <= m.lookahead + 1 &&
        MatchAt(m.stream, m.base + m.strstart - 1, m.base + m.matchStart, matchLength))
    }

    /** _tr_tally_lit for the first byte that no token stands for yet. */
    method TallyLit(c: Byte, ghost held: nat) returns (full: bool)
      requires Synced(held) && Open() && m.base + m.strstart - held < |m.stream|
      requires c == m.stream[m.base + m.strstart - held]
      modifies this`sym
      ensures Shape() && AllValid(sym) && Continues(blocks) && |sym| <= symEnd && sym != [] && Kept()
      ensures sym == old(sym) + [Lit(c)]
      ensures Covers(Replay(blocks), sym, m.stream, m.base + m.strstart - held + 1)
      ensures full <==> |sym| == symEnd
    {
      hide Covers, Continues, Replay;
      CoversLit(Replay(blocks), sym, m.stream, m.base + m.strstart - held);
      sym := sym + [Lit(c)];
      full := |sym| == symEnd;
      CoversValid(Replay(blocks), sym, m.stream, m.base + m.strstart - held + 1);
    }

    lemma CoversValid(h: seq<Byte>, ts: seq<Token>, stream: seq<Byte>, n: nat)
      requires Covers(h, ts, stream, n)
      ensures AllValid(ts)
    {
    }

    /** _tr_tally_dist for the bytes from the first that no token stands for yet. */
    method TallyDist(dist: nat, lc: nat, ghost held: nat) returns (full: bool)
      requires Synced(held) && Open() && lc <= 255 && strategy != HuffmanOnly && (strategy == RunLength ==> dist == 1)
      requires MatchAt(m.stream, m.base + m.strstart - held, m.base + m.strstart - held - dist, lc + 3)
      modifies this`sym
      ensures Shape() && AllValid(sym) && Continues(blocks) && |sym| <= symEnd && sym != [] && Kept()
      ensures Covers(Replay(blocks), sym, m.stream, m.base + m.strstart - held + lc + 3)
      ensures sym == old(sym) + [Match(dist, lc + 3)]
      ensures full <==> |sym| == symEnd
    {
      hide Covers, Continues, Replay;
      ghost var n := m.base + m.strstart - held;
      CoversMatch(Replay(blocks), sym, m.stream, n, n - dist, lc + 3);
      sym := sym + [Match(dist, lc + 3)];
      full := |sym| == symEnd;
      CoversValid(Replay(blocks), sym, m.stream, n + lc + 3);
    }

    /** FLUSH_BLOCK_ONLY: hand the block to _tr_flush_block. full tells whether the output space is
        used up then (avail_out == 0), which depends on the caller. */
    method FlushBlockOnly(last: bool) returns (full: bool)
      requires Synced(0) && Unended(blocks) && Storable()
      modifies this`sym, this`blocks, m`blockStart
      ensures Synced(0) && sym == [] && m.blockStart == m.strstart
      ensures |blocks| == |old(blocks)| + 1 && old(blocks) <= blocks
      ensures blocks[|blocks| - 1].ts == old(sym) && blocks[|blocks| - 1].last == last
      ensures All() == old(All()) && (old(Packed()) && (last || |old(sym)| == symEnd) ==> Packed())
    {
      hide Continues, Replay, Reachable, Expand, Heads, Links, Pow2, ValidParams, All, Tokens;
      AllIs();
      ghost var blocks0, s0 := blocks, sym;
      var buf := if m.blockStart >= 0 then Some(m.window[m.blockStart..m.strstart]) else None;
      ghost var h, b := Replay(blocks), Flushed(sym, buf, m.strstart - m.blockStart, last);
      ghost var out := Expand(h, sym);
      BlockBytes(m, h, out, buf);
      ContinuesMore(blocks, b);
      blocks := blocks + [Flushed(sym, buf, m.strstart - m.blockStart, last)];
      sym := [];
      m.blockStart := m.strstart;
      NoTokensCover(out, m.stream, m.base + m.strstart);
      AllFlushed(blocks0, s0, b);
      if old(Packed()) && (last || |s0| == symEnd) { PackedMore(blocks0, b); }
      full := *;
    }

    /** Everything read has been flushed. */
    ghost predicate AllOut()
      reads this`sym, this`blocks, m
    {
      sym == [] && m.lookahead == 0 && Continues(blocks) && Replay(blocks) == m.stream
    }

    lemma Flushed0()
      requires Synced(0) && sym == [] && m.lookahead == 0
      ensures AllOut()
    {
      hide Continues, Reachable, Heads, Links, Pow2, ValidParams;
    }

    /** The end of every loop: flush the last block, or what there is of one. */
    method FlushRest(flush: Flush) returns (state: BlockState)
      requires Synced(0) && Unended(blocks) && Storable() && m.lookahead == 0 && flush != NoFlush
      modifies this`sym, this`blocks, m`blockStart
      ensures Synced(0) && AllOut() && old(blocks) <= blocks && sym == []
      ensures flush == Finish ==>
              (state == FinishStarted || state == FinishDone) && blocks != [] && blocks[|blocks| - 1].last
      ensures flush != Finish ==> (state == NeedMore || state == BlockDone) && Unended(blocks)
      ensures old(Spans()) ==> Spans()
      ensures All() == old(All()) && (old(Packed()) && flush == Finish ==> Packed())
    {
      hide Synced, AllOut, All;
      if flush == Finish {
        var full := FlushBlockOnly(true);
        Flushed0();
        return if full then FinishStarted else FinishDone;
      }
      if sym != [] {
        var full := FlushBlockOnly(false);
        Flushed0();
        if full { return NeedMore; }
      }
      Flushed0();
      state := BlockDone;
    }

    /** What a call of a loop leaves: all input read is accounted for. */
    ghost predicate Returned(flush: Flush, state: BlockState, held: nat)
      reads this`sym, this`blocks, m, m.window, m.prev, m.head
    {
      Synced(held) && m.Clear() && |sym| < symEnd && (state != NeedMore ==> AllOut() && m.input == []) &&
      (flush == NoFlush ==> state == NeedMore) && (flush == Finish ==> state != BlockDone) &&
      (state == NeedMore || state == BlockDone ==> Unended(blocks)) &&
      (state == FinishStarted || state == FinishDone ==> flush == Finish && blocks != [] && blocks[|blocks| - 1].last)
    }

    /** Output the byte at strstart as a literal, and move past it. */
    method EmitLiteral() returns (full: bool)
      requires Synced(0) && Open() && m.lookahead > 0
      modifies this`sym, m`strstart, m`lookahead
      ensures old(m.Clear()) ==> m.Clear()
      ensures Synced(0) && (full <==> |sym| == symEnd) && |sym| <= symEnd
      ensures old(Pos()) < |m.stream| && sym == old(sym) + [Lit(m.stream[old(Pos())])]
      ensures m.strstart == old(m.strstart) + 1 && m.lookahead == old(m.lookahead) - 1
    {
      hide Covers, Continues, Replay, Heads, Links, Pow2, ValidParams, AllOut, Rolling, MatchAt;
      full := TallyLit(m.window[m.strstart], 0);
      m.Advance(1);
    }

    /** A block of literals has as many bytes as tokens. */
    ghost predicate Spans()
      reads this`sym, m`strstart, m`blockStart
    {
      m.strstart - m.blockStart == |sym|
    }

    /** deflate_huff: literals only. */
    method DeflateHuff(flush: Flush) returns (state: BlockState)
      requires Synced(0) && Open() && m.Clear() && Spans()
      modifies this`sym, this`blocks, this`matchLength, m, m.window, m.prev, m.head
      ensures Returned(flush, state, 0) && m.stream + m.input == old(m.stream + m.input)
      ensures state == NeedMore || state == BlockDone ==> Spans()
      ensures flush == Finish && state == NeedMore ==> |m.input| + m.lookahead < old(|m.input| + m.lookahead)
      ensures old(Packed()) && flush != SyncFlush ==> Packed()
    {
      hide Synced, AllOut, Continues, Replay, Packed;
      SymEndPositive();
      while true
        invariant old(Packed()) ==> Packed()
        invariant Synced(0) && Open() && m.Clear() && m.stream + m.input == old(m.stream + m.input)
        invariant |m.input| + m.lookahead <= old(|m.input| + m.lookahead)
        invariant Spans()
        decreases |m.input| + m.lookahead
      {
        if m.lookahead == 0 {
          Fill(0);
          if m.lookahead == 0 {
            if flush == NoFlush { return NeedMore; }
            break;
          }
        }
        matchLength := 0;
        var full := EmitLiteral();
        SymEndPositive();
        if full {
          full := FlushBlockOnly(false);
          if full { return NeedMore; }
        }
      }
      SymEndPositive();
      NoInsert();
      state := FlushRest(flush);
    }

    /** Output a match for the bytes at strstart, and move past it. */
    method EmitMatch(dist: nat, len: nat) returns (full: bool)
      requires Synced(0) && Open() && 3 <= len <= MAX_MATCH && len <= m.lookahead
      requires strategy != HuffmanOnly && (strategy == RunLength ==> dist == 1)
      requires MatchAt(m.stream, m.base + m.strstart, m.base + m.strstart - dist, len)
      modifies this`sym, m`strstart, m`lookahead
      ensures old(m.Clear()) ==> m.Clear()
      ensures Synced(0) && (full <==> |sym| == symEnd) && |sym| <= symEnd && sym == old(sym) + [Match(dist, len)]
      ensures m.strstart == old(m.strstart) + len && m.lookahead == old(m.lookahead) - len
    {
      hide Covers, Continues, Replay, Heads, Links, Pow2, ValidParams, AllOut, Rolling, MatchAt;
      full := TallyDist(dist, len - 3, 0);
      m.Advance(len);
    }

    /** How often the byte before strstart repeats there: 0, or from MIN_MATCH up to MAX_MATCH times. */
    method RunOf() returns (len: nat)
      requires m.Valid() && m.lookahead >= MIN_MATCH && m.strstart > 0 && m.strstart + MAX_MATCH < 2 * m.wSize
      ensures len == 0 || 3 <= len <= MAX_MATCH
      ensures len <= m.lookahead && (len > 0 ==> MatchAt(m.stream, Pos(), Pos() - 1, len))
      ensures len < m.lookahead && len < MAX_MATCH ==>
                !MatchAt(m.stream, Pos(), Pos() - 1, if len == 0 then MIN_MATCH else len + 1)
    {
      hide Heads, Links, Pow2, ValidParams, MatchAt, Mirrors, SameRun;
      var s := m.strstart;
      var prev := m.window[s - 1];
      if !(prev == m.window[s] && prev == m.window[s + 1] && prev == m.window[s + 2]) {
        NoRunMatch(s, if prev != m.window[s] then 0 else if prev != m.window[s + 1] then 1 else 2, prev, MIN_MATCH);
        return 0;
      }
      len := 2;
      var same := true;
      while same && len < MAX_MATCH
        invariant 2 <= len <= MAX_MATCH && (same ==> len % 8 == 2)
        invariant !same ==> 3 <= len && m.window[s + len] != prev
        invariant forall i :: s - 1 <= i < s + len || (same && i == s + len) ==> m.window[i] == prev
        decreases MAX_MATCH - len
      {
        var c, start := 0, len;
        while same && c < 8
          invariant 0 <= c <= 8 && len == start + c && start % 8 == 2 && start < MAX_MATCH
          invariant !same ==> 3 <= len && c >= 1 && m.window[s + len] != prev
          invariant forall i :: s - 1 <= i < s + len || (same && i == s + len) ==> m.window[i] == prev
        {
          len := len + 1;
          c := c + 1;
          if prev != m.window[s + len] { same := false; }
        }
      }
      RunSame(m.window[..], s, prev, len);
      ghost var run := len;
      if len < MAX_MATCH && len < m.lookahead { NoRunMatch(s, len, prev, len + 1); }
      if len > m.lookahead { len := m.lookahead; }
      RunIsMatch(s, run, len);
    }

    /** A byte that differs ends the run. */
    lemma NoRunMatch(s: nat, k: nat, prev: Byte, len: nat)
      requires m.Valid() && s == m.strstart > 0 && k < len <= m.lookahead && s + k < m.window.Length
      requires m.window[s + k] != prev && forall i :: s - 1 <= i < s + k ==> m.window[i] == prev
      ensures !MatchAt(m.stream, m.base + s, m.base + s - 1, len)
    {
      hide Heads, Links, Pow2, ValidParams;
      assert m.window[s + k] == m.stream[m.base + s + k] && m.window[s + k - 1] == m.stream[m.base + s + k - 1];
      assert !SameByte(m.stream, m.base + s - 1, m.base + s, k);
    }

    lemma RunIsMatch(s: nat, run: nat, len: nat)
      requires m.Valid() && s == m.strstart > 0 && SameRun(m.window[..], s - 1, s, run) && len <= run
      requires len <= m.lookahead
      ensures MatchAt(m.stream, m.base + s, m.base + s - 1, len)
    {
      hide Heads, Links, Pow2, ValidParams, MatchAt, Mirrors, SameRun;
      RunMatches(m.window[..], m.stream, m.base, s, m.lookahead, s - 1, run, len);
    }

    lemma LookingHere(held: nat)
      requires Looking(held)
      ensures looks[Pos()].pos == Pos() && (forall r :: r in looks ==> r <= Pos())
      ensures Whole(Manner(), looks[Pos()]) ==> Pos() in m.ins
    {
      hide Follows, Sound;
    }

    /** The strings inside a match that deflate_fast has taken at q. */
    lemma FastEntry(t: Token, q: nat, ins0: set<nat>)
      requires Manner().Fast? && t.Match? && q in looks && looks[q].data == m.stream
      requires (forall r :: r in looks ==> r <= q) && forall p :: p in ins0 ==> p <= q
      requires if t.len <= maxLazy && q + t.len + MIN_MATCH <= |m.stream|
               then Grew(ins0, m.ins, q + 1, q + t.len) else m.ins == ins0
      requires t.len >= MIN_MATCH
      ensures EntryRule(Manner(), Conf(), t, q, looks, m.ins) && Later(ins0, m.ins, q, |m.stream|)
    {
    }

    /** The strings inside a match that deflate_slow has taken for q. */
    lemma SlowEntry(t: Token, q: nat, ins0: set<nat>)
      requires Manner().Slow? && t.Match? && q in looks && q + 1 in looks && looks[q + 1].data == m.stream
      requires (forall r :: r in looks ==> r <= q + 1) && (q + 1 + MIN_MATCH <= |m.stream| ==> q + 1 in ins0)
      requires Grew(ins0, m.ins, q + 2, UpTo(q + t.len - 1, |m.stream| - MIN_MATCH)) && t.len >= MIN_MATCH
      ensures EntryRule(Manner(), Conf(), t, q, looks, m.ins) && Later(ins0, m.ins, q, |m.stream|)
    {
    }

    /** A match found is taken, by deflate_rle and deflate_fast. */
    lemma MatchRule(q: nat, dist: nat, len: nat)
      requires !Manner().Slow? && q in looks && looks[q].len == len >= MIN_MATCH && dist == q - looks[q].from
      requires q < |m.stream|
      ensures TokenRule(Manner(), Match(dist, len), q, looks, m.stream)
    {
    }

    lemma LitRule(q: nat)
      requires !Manner().Slow? && q in looks && looks[q].len < MIN_MATCH && q < |m.stream|
      ensures TokenRule(Manner(), Lit(m.stream[q]), q, looks, m.stream)
    {
    }

    /** A search at strstart joins the others. */
    lemma LooksMore(looks0: map<nat, Look>, ins0: set<nat>, l: Look, held: nat)
      requires looks == looks0[Pos() := l] && l.pos == Pos() && l.data == m.stream && Sound(Manner(), Conf(), l)
      requires ins0 <= m.ins <= ins0 + {Pos()} && (strategy != RunLength ==> l.ins == m.ins)
      requires Looked(Manner(), Conf(), looks0, m.stream, ins0, Pos()) && Widths(All()) == Pos() - held
      requires Follows(Manner(), Conf(), All(), looks0, m.stream, ins0)
      requires l.prev == MIN_MATCH - 1 ||
               (Manner().Slow? && Pos() > 0 && Pos() - 1 in looks0 && l.prev == Settled(Manner(), looks0[Pos() - 1]))
      ensures Looking(held) && looks[Pos()] == l
    {
      hide Looked, Follows, All, Widths;
      LookedMore(Manner(), Conf(), looks0, m.stream, ins0, m.ins, Pos(), l);
      FollowsMore(Manner(), Conf(), All(), looks0, l, m.stream, ins0, m.ins);
    }

    /** The run found by deflate_rle, as a search. */
    ghost method LookAtRun()
      requires Synced(0) && strategy == RunLength && Traced(0)
      requires if m.lookahead >= MIN_MATCH && m.strstart > 0
               then (matchLength == 0 || 3 <= matchLength <= MAX_MATCH) && matchLength <= m.lookahead &&
                    (matchLength > 0 ==> MatchAt(m.stream, Pos(), Pos() - 1, matchLength)) &&
                    (matchLength < m.lookahead && matchLength < MAX_MATCH ==>
                       !MatchAt(m.stream, Pos(), Pos() - 1, if matchLength == 0 then MIN_MATCH else matchLength + 1))
               else matchLength == 0
      modifies this`looks
      ensures Looking(0) && looks[Pos()].len == (if matchLength == 0 then MIN_MATCH - 1 else matchLength)
      ensures looks[Pos()].from == Pos() - 1
    {
      hide Covers, Continues, Replay, Heads, Links, Pow2, ValidParams, MatchAt, All, Widths, Looked, Follows;
      var chain := if m.lookahead >= MIN_MATCH && Pos() > 0 then [Pos() - 1] else [];
      var len := if matchLength == 0 then MIN_MATCH - 1 else matchLength;
      var l := Look(Pos(), m.stream, {}, MIN_MATCH - 1, chain, len, Pos() - 1);
      if MatchAt(m.stream, Pos(), Pos() - 1, len + 1) { MatchFits(m.stream, Pos(), Pos() - 1, len + 1); }
      var looks0 := looks;
      looks := looks[Pos() := l];
      LooksMore(looks0, m.ins, l, 0);
    }

    /** Output what deflate_rle has found: a run or a literal. */
    method EmitRun() returns (full: bool)
      requires Synced(0) && Open() && m.Clear() && m.lookahead > 0 && strategy == RunLength && Looking(0)
      requires looks[Pos()].from == Pos() - 1
      requires if matchLength >= MIN_MATCH
               then matchLength <= MAX_MATCH && matchLength <= m.lookahead && looks[Pos()].len == matchLength &&
                    MatchAt(m.stream, Pos(), Pos() - 1, matchLength)
               else looks[Pos()].len < MIN_MATCH
      modifies this`sym, this`matchLength, m`strstart, m`lookahead
      ensures Synced(0) && m.Clear() && (full <==> |sym| == symEnd) && |sym| <= symEnd
      ensures m.lookahead < old(m.lookahead) && m.strstart <= old(m.strstart) + MAX_MATCH && Traced(0)
    {
      hide Synced, MatchAt, Continues, Replay, Matcher.Valid, All, Widths, Looked, Follows, TokenRule, EntryRule;
      AllIs();
      PosIn(0);
      ghost var s0, all0, pos := sym, All(), Pos();
      NoEntries(Match(1, matchLength), pos);
      NoEntries(Lit(m.stream[pos]), pos);
      if matchLength >= MIN_MATCH {
        MatchRule(pos, 1, matchLength);
        full := EmitMatch(1, matchLength);
        Emitted(s0, all0, Match(1, matchLength), m.ins, pos, 0);
        matchLength := 0;
      } else {
        LitRule(pos);
        full := EmitLiteral();
        Emitted(s0, all0, Lit(m.stream[pos]), m.ins, pos, 0);
      }
    }

    /** One round of deflate_rle. stop tells to return for want of output space. */
    method RleRound() returns (stop: bool)
      requires Synced(0) && Open() && m.Clear() && m.Valid() && m.lookahead > 0
      requires m.strstart + MAX_MATCH < 2 * m.wSize <= 65536
      requires strategy == RunLength && Traced(0)
      modifies this`sym, this`blocks, this`looks, this`matchLength, m`blockStart, m`strstart, m`lookahead
      ensures Synced(0) && Open() && m.Clear() && m.lookahead < old(m.lookahead)
      ensures Traced(0) && (old(Packed()) ==> Packed())
    {
      hide Synced, MatchAt, Continues, Replay, Matcher.Valid, All, Widths, Looked, Follows, Packed, TokenRule;
      SymEndPositive();
      matchLength := 0;
      if m.lookahead >= MIN_MATCH && m.strstart > 0 { matchLength := RunOf(); }
      LookAtRun();
      var full := EmitRun();
      SymEndPositive();
      stop := false;
      if full { stop := FlushBlockOnly(false); }
    }

    /** deflate_rle: matches of distance one only. */
    method DeflateRle(flush: Flush) returns (state: BlockState)
      requires Synced(0) && Open() && m.Clear() && strategy == RunLength && Traced(0)
      modifies this`sym, this`blocks, this`looks, this`matchLength, m, m.window, m.prev, m.head
      ensures Returned(flush, state, 0) && m.stream + m.input == old(m.stream + m.input)
      ensures flush == Finish && state == NeedMore ==> |m.input| + m.lookahead < old(|m.input| + m.lookahead)
      ensures Traced(0) && (old(Packed()) && flush != SyncFlush ==> Packed())
    {
      hide Synced, AllOut, MatchAt, Continues, Replay, Matcher.Valid, All, Widths, Looked, Follows, Packed;
      SymEndPositive();
      while true
        invariant Traced(0) && (old(Packed()) ==> Packed())
        invariant Synced(0) && Open() && m.Clear() && m.stream + m.input == old(m.stream + m.input)
        invariant |m.input| + m.lookahead <= old(|m.input| + m.lookahead)
        decreases |m.input| + m.lookahead
      {
        if m.lookahead <= MAX_MATCH {
          Fill(0);
          if m.lookahead <= MAX_MATCH && flush == NoFlush { return NeedMore; }
          if m.lookahead == 0 { break; }
        }
        RoomForRun(0);
        var stop := RleRound();
        if stop { return NeedMore; }
      }
      RoomForRun(0);
      NoInsert();
      state := FlushRest(flush);
    }

    /** Past a lookahead of more than a match the window goes on. */
    lemma RoomForRun(held: nat)
      requires Synced(held)
      ensures m.Valid() && m.strstart + m.lookahead <= 2 * m.wSize == m.window.Length && m.wSize <= 32768
    {
      hide Covers, Continues, Replay, Heads, Links, Pow2, ValidParams;
    }

    /** deflate_fast's handling of a match: insert its strings only if it is not too long. */
    method FastMatch() returns (full: bool)
      requires Synced(0) && Open() && m.Inserted() && 3 <= matchLength <= MAX_MATCH && matchLength <= m.lookahead
      requires m.strstart + MIN_LOOKAHEAD <= 2 * m.wSize && strategy != HuffmanOnly && strategy != RunLength
      requires MatchAt(m.stream, m.base + m.strstart, m.base + m.matchStart, matchLength)
      modifies this`sym, this`matchLength, m`strstart, m`lookahead, m`insH, m`ins, m`top, m.head, m.prev
      ensures Synced(0) && m.Rolled() && (full <==> |sym| == symEnd) && |sym| <= symEnd && matchLength == 0
      ensures m.lookahead < old(m.lookahead) && m.strstart == old(m.strstart) + old(matchLength)
      ensures old(m.strstart) - m.matchStart >= 0
      ensures sym == old(sym) + [Match(old(m.strstart) - m.matchStart, old(matchLength))]
      ensures if old(matchLength) <= maxLazy && m.lookahead >= MIN_MATCH
              then Grew(old(m.ins), m.ins, old(Pos()) + 1, Pos()) else m.ins == old(m.ins)
      ensures m.lookahead == old(m.lookahead) - old(matchLength)
    {
      hide Covers, Continues, Replay, Heads, Links, Pow2, ValidParams, Rolling, MatchAt, Mirrors, Matcher.Valid,
           Matcher.Inserted, Matcher.Rolled, Grew;
      MatchDist(m.stream, m.base + m.strstart, m.base + m.matchStart, matchLength);
      InsertedClear();
      RoomForRun(0);
      full := TallyDist(m.strstart - m.matchStart, matchLength - MIN_MATCH, 0);
      if matchLength <= maxLazy && m.lookahead - matchLength >= MIN_MATCH {
        m.InsertAll(matchLength - 1);
        matchLength := 0;
        m.StepOn();
      } else {
        m.Advance(matchLength);
        matchLength := 0;
        m.RestartHash();
      }
    }

    /** Output the byte at strstart, whose string is inserted, as a literal. */
    method FastLiteral() returns (full: bool)
      requires Synced(0) && Open() && m.Inserted() && m.lookahead > 0
      modifies this`sym, m`strstart, m`lookahead
      ensures Synced(0) && m.Rolled() && (full <==> |sym| == symEnd) && |sym| <= symEnd
      ensures m.lookahead < old(m.lookahead) && m.strstart == old(m.strstart) + 1
      ensures old(Pos()) < |m.stream| && sym == old(sym) + [Lit(m.stream[old(Pos())])]
    {
      hide Covers, Continues, Replay, Heads, Links, Pow2, ValidParams, Rolling;
      full := TallyLit(m.window[m.strstart], 0);
      m.StepOn();
    }

    ghost function Depth(prevLength: nat): nat { if prevLength >= good then maxChain / 4 else maxChain }

    /** The strings that longest_match compares. */
    ghost function Chain(hashHead: nat, prevLength: nat): seq<nat>
      reads m, m.prev
    {
      Shifted(m.base, Walk(m.prev[..], hashHead, m.Limit(), Depth(prevLength)))
    }

    ghost function LookNow(prevLength: nat, chain: seq<nat>, r: nat): Look
      reads m
    {
      Look(Pos(), m.stream, m.ins, prevLength, chain, r, m.base + m.matchStart)
    }

    /** What longest_match has found is what an honest search finds. */
    lemma SearchHonest(hashHead: nat, prevLength: nat, r: nat, n: nat)
      requires Shape() && m.Valid() && m.Inserted() && m.lookahead >= MIN_MATCH && Pos() in m.ins
      requires m.Candidate(hashHead) && hashHead != NIL && prevLength < Conf().limit
      requires Link(m.hash, m.stream, m.base, m.ins, Pos(), hashHead)
      requires r <= m.lookahead && r <= MAX_MATCH && (r >= prevLength || r == m.lookahead)
      requires r > prevLength ==> MatchAt(m.stream, Pos(), m.base + m.matchStart, r)
      requires var w := Walk(m.prev[..], hashHead, m.Limit(), Depth(prevLength));
               1 <= n <= |w| && (n < |w| ==> w[n - 1] == m.matchStart && (r >= nice || r == m.lookahead)) &&
               (r < MAX_MATCH ==> m.NoneBetter(w[..n], r)) &&
               (r > prevLength ==> m.matchStart in w[..n] && m.NoneNearer(w[..n], Rival(prevLength, r, nice)))
      ensures Honest(Conf(), LookNow(prevLength, Chain(hashHead, prevLength), r))
    {
      hide Heads, Links, Link, Pow2, ValidParams, MatchAt, Rolling, SameHash, Best, Recent, Walk, WalkedAll, Rival,
           Alike;
      var steps := Depth(prevLength);
      var w, l := Walk(m.prev[..], hashHead, m.Limit(), steps), LookNow(prevLength, Chain(hashHead, prevLength), r);
      InsertedBelow();
      WalkRecent(m.hash, m.prev[..], m.stream, m.base, m.ins, m.top, Pos(), hashHead, m.Limit(), steps);
      FoundRecent(m.hash, m.base, m.strstart, hashHead, m.MaxDist(), steps, w, l);
      FoundBest(m.base, w, n, m.matchStart, nice, l);
      ChainSome(hashHead, prevLength);
    }

    lemma ChainSome(hashHead: nat, prevLength: nat)
      ensures Chain(hashHead, prevLength) != []
    {
    }

    lemma InsertedBelow()
      requires m.Valid() && m.Inserted()
      ensures forall q :: q in m.ins ==> q <= Pos()
      ensures |m.stream| == Pos() + m.lookahead && (m.base > 0 ==> m.strstart >= m.MaxDist())
    {
      hide Heads, Pow2, ValidParams, Rolling, SameHash, Link;
    }

    /** There was nothing to search for, or in. */
    lemma NoSearchHonest(hashHead: nat, prevLength: nat, r: nat)
      requires Shape() && m.Valid() && m.Inserted() && r < MIN_MATCH
      requires m.lookahead >= MIN_MATCH ==>
                 Pos() in m.ins && Link(m.hash, m.stream, m.base, m.ins, Pos(), hashHead)
      requires hashHead == NIL || prevLength >= Conf().limit || m.strstart - hashHead > m.MaxDist()
      ensures Honest(Conf(), LookNow(prevLength, [], r))
    {
      hide Heads, Links, Link, Pow2, ValidParams, Rolling, SameHash, Best, Recent;
      InsertedBelow();
      if m.lookahead >= MIN_MATCH && prevLength < Conf().limit {
        NoneRecent(m.hash, m.base, m.strstart, hashHead, m.MaxDist(), Depth(prevLength), LookNow(prevLength, [], r));
      }
    }

    /** Search the chain from hashHead, if the match held is not good enough and the chain begins near enough. */
    method Compare(hashHead: nat, length: nat, prevLength: nat, limit: nat) returns (r: nat, ghost chain: seq<nat>)
      requires Shape() && m.Valid() && m.Inserted() && m.strstart + MIN_LOOKAHEAD <= 2 * m.wSize
      requires 2 <= prevLength <= MAX_MATCH && length < MIN_MATCH && limit == Conf().limit
      requires hashHead != NIL ==>
                 m.lookahead >= MIN_MATCH && (m.strstart - hashHead <= m.MaxDist() ==> m.Candidate(hashHead))
      requires m.lookahead >= MIN_MATCH ==>
                 Pos() in m.ins && Link(m.hash, m.stream, m.base, m.ins, Pos(), hashHead)
      modifies m`matchStart
      ensures r == length ||
        (m.lookahead >= MIN_MATCH && 2 <= r <= MAX_MATCH && r <= m.lookahead &&
         (r > prevLength ==> MatchAt(m.stream, Pos(), m.base + m.matchStart, r)))
      ensures m.Valid() && Honest(Conf(), LookNow(prevLength, chain, r))
    {
      hide Heads, Links, Pow2, ValidParams, Rolling, MatchAt, Mirrors, Honest, Link, Walk, Matcher.NoneBetter,
           Matcher.NoneNearer, Matcher.Candidate, Chain;
      if hashHead != NIL && prevLength < limit && m.strstart - hashHead <= m.MaxDist() {
        ghost var n;
        r, n := m.LongestMatch(hashHead, prevLength, maxChain, good, nice);
        chain := Chain(hashHead, prevLength);
        SearchHonest(hashHead, prevLength, r, n);
      } else {
        r, chain := length, [];
        NoSearchHonest(hashHead, prevLength, r);
      }
    }

    /** Insert the string at strstart and look for a match of it. Nothing is tallied. */
    method FindMatch(ghost held: nat, length: nat, prevLength: nat, limit: nat) returns (r: nat)
      requires Synced(held) && m.Rolled() && m.strstart + MIN_LOOKAHEAD <= 2 * m.wSize && 2 <= prevLength <= MAX_MATCH
      requires Traced(held) && strategy != HuffmanOnly && strategy != RunLength && length < MIN_MATCH
      requires limit == Conf().limit
      requires prevLength == MIN_MATCH - 1 ||
               (Manner().Slow? && Pos() > 0 && Pos() - 1 in looks && prevLength == Settled(Manner(), looks[Pos() - 1]))
      modifies this`looks, m`insH, m`ins, m`top, m`matchStart, m.head, m.prev
      ensures Synced(held) && m.Inserted() && Looking(held)
      ensures r == length ||
        (m.lookahead >= MIN_MATCH && 2 <= r <= MAX_MATCH && r <= m.lookahead &&
         (r > prevLength ==> MatchAt(m.stream, Pos(), m.base + m.matchStart, r)))
      ensures looks == old(looks)[Pos() := looks[Pos()]]
      ensures looks[Pos()].len == r && looks[Pos()].prev == prevLength && looks[Pos()].from == m.base + m.matchStart
      ensures looks[Pos()].data == m.stream
    {
      hide Covers, Continues, Replay, MatchAt, Looked, Follows, All, Widths, Honest, Link, Settled, Kept, Tokens,
           HonestRun, Matcher.Valid, Matcher.Rolled, Matcher.Inserted, Matcher.Summed, Matcher.Candidate;
      ghost var looks0, ins0 := looks, m.ins;
      var hashHead := m.InsertHere();
      ghost var chain;
      r, chain := Compare(hashHead, length, prevLength, limit);
      ghost var l := LookNow(prevLength, chain, r);
      looks := looks[Pos() := l];
      LooksMore(looks0, ins0, l, held);
    }

    /** Output what deflate_fast has found: a match or a literal. */
    method EmitFound() returns (full: bool)
      requires Synced(0) && Open() && m.Inserted() && m.lookahead > 0 && m.strstart + MIN_LOOKAHEAD <= 2 * m.wSize
      requires strategy != HuffmanOnly && strategy != RunLength && level <= 3 && Looking(0)
      requires looks[Pos()].len == matchLength && looks[Pos()].from == m.base + m.matchStart
      requires looks[Pos()].data == m.stream
      requires matchLength >= MIN_MATCH ==>
                 matchLength <= MAX_MATCH && matchLength <= m.lookahead &&
                 MatchAt(m.stream, Pos(), m.base + m.matchStart, matchLength)
      modifies this`sym, this`matchLength, m`strstart, m`lookahead, m`insH, m`ins, m`top, m.head, m.prev
      ensures Synced(0) && m.Rolled() && (full <==> |sym| == symEnd) && |sym| <= symEnd && matchLength < MIN_MATCH
      ensures m.lookahead < old(m.lookahead) && m.strstart <= old(m.strstart) + MAX_MATCH && Traced(0)
    {
      hide Synced, MatchAt, Continues, Replay, Matcher.Valid, Matcher.Rolled, Matcher.Inserted, All, Widths, Looked,
           Follows, TokenRule, EntryRule, Grew, Later;
      AllIs();
      PosAt(0);
      RoomForRun(0);
      InsertedBelow();
      LookingHere(0);
      ghost var s0, all0, pos, ins0 := sym, All(), Pos(), m.ins;
      if matchLength >= MIN_MATCH {
        MatchDist(m.stream, Pos(), m.base + m.matchStart, matchLength);
        ghost var t := Match(m.strstart - m.matchStart, matchLength);
        MatchRule(pos, m.strstart - m.matchStart, matchLength);
        full := FastMatch();
        FastEntry(t, pos, ins0);
        Emitted(s0, all0, t, ins0, pos, 0);
      } else {
        LitRule(pos);
        full := FastLiteral();
        NoEntries(Lit(m.stream[pos]), pos);
        Emitted(s0, all0, Lit(m.stream[pos]), ins0, pos, 0);
      }
    }

    /** One round of deflate_fast. stop tells to return for want of output space. */
    method FastRound() returns (stop: bool)
      requires Synced(0) && Open() && m.Rolled() && matchLength < MIN_MATCH && prevLength == MIN_MATCH - 1
      requires m.lookahead > 0 && m.strstart + MIN_LOOKAHEAD <= 2 * m.wSize <= 65536
      requires strategy != HuffmanOnly && strategy != RunLength && level <= 3 && Traced(0)
      modifies this`sym, this`blocks, this`looks, this`matchLength, m`blockStart, m`strstart, m`lookahead, m`insH,
               m`ins, m`top, m`matchStart, m.head, m.prev
      ensures Synced(0) && Open() && m.Rolled() && matchLength < MIN_MATCH && m.lookahead < old(m.lookahead)
      ensures Traced(0) && (old(Packed()) ==> Packed())
    {
      hide Synced, MatchAt, Continues, Replay, Matcher.Valid, Matcher.Rolled, Matcher.Inserted, All, Widths, Looked,
           Follows, Packed;
      SymEndPositive();
      matchLength := FindMatch(0, matchLength, prevLength, MAX_MATCH);
      var full := EmitFound();
      SymEndPositive();
      stop := false;
      if full { stop := FlushBlockOnly(false); }
    }

    /** deflate_fast: every match found is taken. */
    method DeflateFast(flush: Flush) returns (state: BlockState)
      requires Synced(0) && Open() && m.Rolled() && matchLength < MIN_MATCH && prevLength == MIN_MATCH - 1
      requires strategy != HuffmanOnly && strategy != RunLength && level <= 3 && Traced(0)
      modifies this`sym, this`blocks, this`looks, this`matchLength, m, m.window, m.prev, m.head
      ensures Returned(flush, state, 0) && m.stream + m.input == old(m.stream + m.input) && m.Rolled()
      ensures matchLength < MIN_MATCH && (state == BlockDone ==> TailKept())
      ensures flush == Finish && state == NeedMore ==> |m.input| + m.lookahead < old(|m.input| + m.lookahead)
      ensures Traced(0) && (old(Packed()) && flush != SyncFlush ==> Packed())
    {
      hide Synced, AllOut, MatchAt, Continues, Replay, Matcher.Valid, Matcher.Rolled, Matcher.Inserted, Traced, Packed;
      SymEndPositive();
      while true
        invariant Synced(0) && Open() && m.Rolled() && matchLength < MIN_MATCH
        invariant Traced(0) && (old(Packed()) ==> Packed())
        invariant m.stream + m.input == old(m.stream + m.input)
        invariant |m.input| + m.lookahead <= old(|m.input| + m.lookahead)
        decreases |m.input| + m.lookahead
      {
        RolledClear();
        if m.lookahead < MIN_LOOKAHEAD {
          Fill(0);
          if m.lookahead < MIN_LOOKAHEAD && flush == NoFlush { return NeedMore; }
          if m.lookahead == 0 { break; }
        }
        RoomForRun(0);
        var stop := FastRound();
        RolledClear();
        if stop { return NeedMore; }
      }
      RoomForRun(0);
      state := EndFast(flush);
    }

    /** The end of deflate_fast: the rest of the block. */
    method EndFast(flush: Flush) returns (state: BlockState)
      requires Synced(0) && Open() && m.Rolled() && m.lookahead == 0 && m.input == [] && flush != NoFlush
      requires m.strstart <= 65535 && Traced(0)
      modifies this`sym, this`blocks, m`blockStart, m`insert
      ensures flush == Finish ==> state != NeedMore
      ensures Returned(flush, state, 0) && m.Rolled() && TailKept()
      ensures Traced(0) && (old(Packed()) && flush == Finish ==> Packed())
    {
      hide Synced, AllOut, Continues, Replay, Matcher.Valid, Matcher.Rolled, All, Widths, Looked, Follows, Packed;
      KeepTail();
      state := FlushRest(flush);
    }

    lemma InsertedClear()
      requires m.Inserted() && m.lookahead >= MIN_MATCH
      ensures m.insert == 0 && m.top <= m.base + m.strstart + 1
    {
    }

    lemma RolledClear()
      requires m.Rolled()
      ensures m.Clear()
    {
    }

    /** The last strings, for which there is no input yet, are to be inserted when more comes: just those. */
    ghost predicate TailKept()
      reads m`insert, m`strstart
    {
      m.insert <= m.strstart && m.insert < MIN_MATCH && (m.insert == m.strstart || m.insert == MIN_MATCH - 1)
    }

    /** The last strings are inserted when more input comes. */
    method KeepTail()
      requires Synced(0) && m.Rolled() && m.lookahead == 0
      modifies m`insert
      ensures Synced(0) && m.Rolled() && m.Clear() && TailKept()
    {
      hide Covers, Continues, Replay, Heads, Links, Pow2, ValidParams, Rolling;
      m.insert := if m.strstart < MIN_MATCH - 1 then m.strstart else MIN_MATCH - 1;
    }

    /** Take the match held for the byte before strstart. */
    method SlowMatch() returns (full: bool)
      requires Synced(1) && Open() && m.Inserted() && 3 <= prevLength <= MAX_MATCH && prevLength <= m.lookahead + 1
      requires MatchAt(m.stream, m.base + m.strstart - 1, m.base + prevMatch, prevLength)
      requires strategy != HuffmanOnly && strategy != RunLength
      modifies this`sym, this`matchLength, this`prevLength, this`matchAvailable, m`strstart, m`lookahead, m`insH, m`ins,
               m`top, m.head, m.prev
      ensures Synced(0) && m.Rolled() && (full <==> |sym| == symEnd) && |sym| <= symEnd && matchLength == 2
      ensures !matchAvailable
      ensures m.lookahead < old(m.lookahead) && m.strstart == old(m.strstart) - 1 + old(prevLength)
      ensures Grew(old(m.ins), m.ins, old(Pos()) + 1, UpTo(Pos() - 1, old(Pos()) + old(m.lookahead) - MIN_MATCH))
      ensures old(m.strstart) - 1 - prevMatch >= 0
      ensures sym == old(sym) + [Match(old(m.strstart) - 1 - prevMatch, old(prevLength))]
    {
      hide Covers, Continues, Replay, Heads, Links, Pow2, ValidParams, Rolling, MatchAt, Mirrors, Matcher.Valid,
           Matcher.Inserted, Matcher.Rolled, Grew;
      var maxInsert := m.strstart + m.lookahead - MIN_MATCH;
      MatchDist(m.stream, m.base + m.strstart - 1, m.base + prevMatch, prevLength);
      full := TallyDist(m.strstart - 1 - prevMatch, prevLength - MIN_MATCH, 1);
      m.InsertUpTo(prevLength - 2, maxInsert);
      prevLength := 0;
      matchAvailable := false;
      matchLength := MIN_MATCH - 1;
      m.StepOn();
    }

    /** Output the byte held back as a literal; the match found now, if any, is held instead. */
    method SlowLiteral() returns (full: bool)
      requires Synced(1) && Open() && m.Inserted() && m.lookahead > 0 && m.strstart <= 65535
      modifies this`sym, this`blocks, m`blockStart, m`strstart, m`lookahead
      ensures Synced(1) && m.Rolled() && Open() && (old(Packed()) ==> Packed())
      ensures m.lookahead == old(m.lookahead) - 1 && m.strstart == old(m.strstart) + 1
      ensures 0 < old(Pos()) <= |m.stream| && All() == old(All()) + [Lit(m.stream[old(Pos()) - 1])]
    {
      hide Covers, Continues, Replay, Matcher.Valid, Matcher.Inserted, Matcher.Rolled, Matcher.Summed, All, Packed,
           Kept;
      InsertedHere(1);
      full := HeldLiteral();
      m.StepOn();
    }

    lemma InsertedHere(held: nat)
      requires Synced(held)
      ensures m.Valid()
    {
    }

    method HeldLiteral() returns (full: bool)
      requires Synced(1) && Open() && m.strstart <= 65535
      modifies this`sym, this`blocks, m`blockStart
      ensures Synced(0) && Open() && (old(Packed()) ==> Packed())
      ensures 0 < Pos() <= |m.stream| && All() == old(All()) + [Lit(m.stream[Pos() - 1])]
    {
      hide Synced, Continues, Replay, Packed, Tokens;
      SymEndPositive();
      var tallied := TallyHeld();
      SymEndPositive();
      full := *;
      if tallied { full := FlushBlockOnly(false); }
    }

    method TallyHeld() returns (full: bool)
      requires Synced(1) && Open()
      modifies this`sym
      ensures Synced(0) && (full <==> |sym| == symEnd)
      ensures 0 < Pos() <= |m.stream| && sym == old(sym) + [Lit(m.stream[Pos() - 1])]
      ensures All() == old(All()) + [Lit(m.stream[Pos() - 1])]
    {
      hide Covers, Continues, Replay, Heads, Links, Pow2, ValidParams, Rolling, Tokens;
      full := TallyLit(m.window[m.strstart - 1], 1);
    }

    /** Hold the byte at strstart back. */
    method Hold()
      requires Synced(0) && m.Inserted() && m.lookahead > 0
      modifies this`matchAvailable, m`strstart, m`lookahead
      ensures Synced(1) && m.Rolled() && matchAvailable
      ensures m.lookahead == old(m.lookahead) - 1 && m.strstart == old(m.strstart) + 1
    {
      hide Covers, Continues, Replay, Matcher.Valid, Matcher.Inserted, Matcher.Rolled, Matcher.Summed, Kept;
      InsertedHere(0);
      matchAvailable := true;
      m.StepOn();
    }

    /** The literal that is still held back at the end of the input. */
    method LastLiteral()
      requires Synced(1) && Open() && m.lookahead == 0
      modifies this`sym
      ensures Synced(0) && 0 < Pos() == |m.stream| && All() == old(All()) + [Lit(m.stream[Pos() - 1])]
    {
      hide Synced, Continues, Replay, All;
      PosAt(1);
      var full := TallyHeld();
    }

    ghost function Held(): nat
      reads this`matchAvailable
    {
      if matchAvailable then 1 else 0
    }

    /** fill_window keeps the match held. */
    method FillLazy()
      requires Synced(Held()) && Open() && m.Rolled() && Lazy() && m.lookahead < MIN_LOOKAHEAD
      modifies m, m.window, m.prev, m.head
      ensures Synced(Held()) && m.Rolled() && m.Clear() && Lazy() && m.stream + m.input == old(m.stream + m.input)
      ensures m.strstart + MIN_LOOKAHEAD <= 2 * m.wSize && (m.lookahead >= MIN_LOOKAHEAD || m.input == [])
      ensures |m.input| + m.lookahead == old(|m.input| + m.lookahead)
      ensures (old(Traced(Held())) ==> Traced(Held())) && (old(HeldLook()) ==> HeldLook())
    {
      hide Synced, MatchAt, Continues, Replay, Matcher.Valid, Matcher.Rolled, Traced, Settled;
      ghost var s0, pos, from := m.stream, m.base + m.strstart - 1, m.base + m.matchStart;
      RolledClear();
      Fill(Held());
      if matchLength >= MIN_MATCH { MatchGrows(s0, m.stream, pos, from, matchLength); }
    }

    /** What deflate_slow holds, as it is kept in prev_length and prev_match during a round. */
    ghost predicate PrevLook()
      reads this`looks, this`matchAvailable, this`prevLength, this`prevMatch, m`base, m`strstart
    {
      if matchAvailable
      then Pos() > 0 && Pos() - 1 in looks && Settled(Manner(), looks[Pos() - 1]) == prevLength &&
           (prevLength >= MIN_MATCH ==> looks[Pos() - 1].from == m.base + prevMatch)
      else prevLength == MIN_MATCH - 1
    }

    /** The match held is taken, as there is none better at the next byte. */
    lemma TakenRule(q: nat, dist: nat)
      requires Manner().Slow? && q + 1 == Pos() && Pos() in looks && matchAvailable && PrevLook()
      requires prevLength >= MIN_MATCH && looks[Pos()].prev == prevLength
      requires Settled(Manner(), looks[Pos()]) <= prevLength
      requires dist == m.strstart - 1 - prevMatch && q < |m.stream|
      ensures TokenRule(Manner(), Match(dist, prevLength), q, looks, m.stream)
    {
      hide Settled;
    }

    /** There is no match held, or a better one at the next byte. */
    lemma GivenUpRule(q: nat)
      requires Manner().Slow? && q + 1 == Pos() && Pos() in looks && matchAvailable && PrevLook()
      requires looks[Pos()].prev == prevLength && q < |m.stream|
      requires prevLength < MIN_MATCH || Settled(Manner(), looks[Pos()]) > prevLength
      ensures TokenRule(Manner(), Lit(m.stream[q]), q, looks, m.stream)
    {
      hide Settled;
    }

    method TakeHeld() returns (full: bool)
      requires Synced(1) && Open() && m.Inserted() && 3 <= prevLength <= MAX_MATCH && prevLength <= m.lookahead + 1
      requires MatchAt(m.stream, Pos() - 1, m.base + prevMatch, prevLength) && m.lookahead > 0
      requires Manner().Slow? && strategy != HuffmanOnly && Looking(1) && PrevLook() && matchAvailable
      requires looks[Pos()].prev == prevLength && Settled(Manner(), looks[Pos()]) <= prevLength
      requires looks[Pos()].data == m.stream
      modifies this`sym, this`matchLength, this`prevLength, this`matchAvailable, m`strstart, m`lookahead, m`insH, m`ins,
               m`top, m.head, m.prev
      ensures Synced(0) && m.Rolled() && (full <==> |sym| == symEnd) && |sym| <= symEnd && matchLength == 2
      ensures !matchAvailable && m.lookahead < old(m.lookahead) && m.strstart <= old(m.strstart) + MAX_MATCH
      ensures Traced(0)
    {
      hide Synced, MatchAt, Continues, Replay, Matcher.Valid, Matcher.Rolled, Matcher.Inserted, All, Widths, Looked,
           Follows, TokenRule, Settled, EntryRule, Grew, Later;
      AllIs();
      PosAt(1);
      LookingHere(1);
      ghost var s0, all0, pos, ins0, len := sym, All(), Pos(), m.ins, prevLength;
      MatchDist(m.stream, Pos() - 1, m.base + prevMatch, prevLength);
      ghost var dist: nat := m.strstart - 1 - prevMatch;
      TakenRule(pos - 1, dist);
      full := SlowMatch();
      SlowEntry(Match(dist, len), pos - 1, ins0);
      Emitted(s0, all0, Match(dist, len), ins0, pos, 0);
    }

    /** Take the match held, give it up for a literal, or hold what has been found. */
    method Settle() returns (stop: bool)
      requires Synced(Held()) && Open() && m.Inserted() && m.lookahead > 0 && Manner().Slow? && strategy != HuffmanOnly
      requires m.strstart <= 65536 - MIN_LOOKAHEAD && Looking(Held()) && PrevLook()
      requires 2 <= matchLength <= MAX_MATCH && Settled(Manner(), looks[Pos()]) == matchLength
      requires looks[Pos()].prev == prevLength && looks[Pos()].from == m.base + m.matchStart
      requires looks[Pos()].data == m.stream
      requires prevLength >= MIN_MATCH ==>
                 matchAvailable && prevLength <= MAX_MATCH && prevLength <= m.lookahead + 1 &&
                 MatchAt(m.stream, Pos() - 1, m.base + prevMatch, prevLength)
      requires matchLength >= MIN_MATCH && matchLength > prevLength ==>
                 matchLength <= m.lookahead && MatchAt(m.stream, Pos(), m.base + m.matchStart, matchLength)
      modifies this`sym, this`blocks, this`matchLength, this`prevLength, this`matchAvailable, m`blockStart, m`strstart,
               m`lookahead, m`insH, m`ins, m`top, m.head, m.prev
      ensures Synced(Held()) && Open() && m.Rolled() && Lazy() && m.lookahead < old(m.lookahead)
      ensures Traced(Held()) && HeldLook() && (old(Packed()) ==> Packed())
    {
      hide Synced, MatchAt, Continues, Replay, Matcher.Valid, Matcher.Rolled, Matcher.Inserted, All, Widths, Looked,
           Follows, TokenRule, Settled, Packed, EntryRule, Later;
      SymEndPositive();
      stop := false;
      AllIs();
      PosIn(Held());
      ghost var all0, pos, ins0 := All(), Pos(), m.ins;
      if prevLength >= MIN_MATCH && matchLength <= prevLength {
        var full := TakeHeld();
        SymEndPositive();
        if full { stop := FlushBlockOnly(false); }
      } else if matchAvailable {
        GivenUpRule(pos - 1);
        stop := SlowLiteral();
        NoEntries(Lit(m.stream[pos - 1]), pos - 1);
        Traces(all0, Lit(m.stream[pos - 1]), ins0, pos + 1, 1);
      } else {
        Hold();
      }
    }

    /** What deflate_slow keeps of the length found. */
    lemma SettledIs(l: Look, r: nat, e: nat)
      requires Manner().Slow? && l.len == r && l.pos - l.from == m.strstart - m.matchStart
      requires e == if r <= 5 && (strategy == Filtered || (r == MIN_MATCH && m.strstart - m.matchStart > TOO_FAR))
                    then MIN_MATCH - 1 else r
      ensures Settled(Manner(), l) == e
    {
    }

    /** The searches before stay. */
    lemma PrevKept(looks0: map<nat, Look>, l: Look)
      requires looks == looks0[Pos() := l]
      requires if matchAvailable
               then Pos() > 0 && Pos() - 1 in looks0 && Settled(Manner(), looks0[Pos() - 1]) == prevLength &&
                    (prevLength >= MIN_MATCH ==> looks0[Pos() - 1].from == m.base + prevMatch)
               else prevLength == MIN_MATCH - 1
      ensures PrevLook()
    {
      hide Settled;
    }

    /** Look for a match longer than the one held. */
    method FindLonger()
      requires Synced(Held()) && m.Rolled() && Lazy() && m.lookahead > 0 && level > 3 && Traced(Held()) && HeldLook()
      requires m.strstart + MIN_LOOKAHEAD <= 2 * m.wSize && strategy != HuffmanOnly && strategy != RunLength
      modifies this`looks, this`matchLength, this`prevLength, this`prevMatch, m`insH, m`ins, m`top, m`matchStart,
               m.head, m.prev
      ensures Synced(Held()) && m.Inserted() && Looking(Held()) && PrevLook()
      ensures 2 <= matchLength <= MAX_MATCH && looks[Pos()].len == matchLength && looks[Pos()].pos == Pos()
      ensures looks[Pos()].prev == prevLength && looks[Pos()].from == m.base + m.matchStart
      ensures looks[Pos()].data == m.stream
      ensures prevLength >= MIN_MATCH ==>
                matchAvailable && prevLength <= MAX_MATCH && prevLength <= m.lookahead + 1 &&
                MatchAt(m.stream, Pos() - 1, m.base + prevMatch, prevLength)
      ensures matchLength >= MIN_MATCH && matchLength > prevLength ==>
                matchLength <= m.lookahead && MatchAt(m.stream, Pos(), m.base + m.matchStart, matchLength)
    {
      hide Synced, MatchAt, Continues, Replay, Matcher.Valid, Matcher.Rolled, Matcher.Inserted, Traced, Looking, Tokens,
           All, Widths, Settled, PrevLook, Unended;
      ghost var looks0 := looks;
      prevLength, prevMatch := matchLength, m.matchStart;
      matchLength := FindMatch(Held(), MIN_MATCH - 1, prevLength, maxLazy);
      LookingHere(Held());
      PrevKept(looks0, looks[Pos()]);
    }

    /** Look for a match longer than the one held, and discard a short one from too far away. */
    method LookLazily()
      requires Synced(Held()) && m.Rolled() && Lazy() && m.lookahead > 0 && level > 3 && Traced(Held()) && HeldLook()
      requires m.strstart + MIN_LOOKAHEAD <= 2 * m.wSize && strategy != HuffmanOnly && strategy != RunLength
      modifies this`looks, this`matchLength, this`prevLength, this`prevMatch, m`insH, m`ins, m`top, m`matchStart,
               m.head, m.prev
      ensures Synced(Held()) && m.Inserted() && Looking(Held()) && PrevLook()
      ensures 2 <= matchLength <= MAX_MATCH && Settled(Manner(), looks[Pos()]) == matchLength
      ensures looks[Pos()].prev == prevLength && looks[Pos()].from == m.base + m.matchStart
      ensures looks[Pos()].data == m.stream
      ensures prevLength >= MIN_MATCH ==>
                matchAvailable && prevLength <= MAX_MATCH && prevLength <= m.lookahead + 1 &&
                MatchAt(m.stream, Pos() - 1, m.base + prevMatch, prevLength)
      ensures matchLength >= MIN_MATCH && matchLength > prevLength ==>
                matchLength <= m.lookahead && MatchAt(m.stream, Pos(), m.base + m.matchStart, matchLength)
    {
      hide Synced, MatchAt, Continues, Replay, Matcher.Valid, Matcher.Rolled, Matcher.Inserted, Traced, Trace, Tokens,
           All, Widths, Settled, PrevLook, HeldLook, Lazy;
      FindLonger();
      ghost var r := matchLength;
      if matchLength <= 5 &&
         (strategy == Filtered || (matchLength == MIN_MATCH && m.strstart - m.matchStart > TOO_FAR)) {
        matchLength := MIN_MATCH - 1;
      }
      SettledIs(looks[Pos()], r, matchLength);
    }

    /** One round of deflate_slow. stop tells to return for want of output space. */
    method SlowRound() returns (stop: bool)
      requires Synced(Held()) && Open() && m.Rolled() && Lazy() && m.lookahead > 0
      requires m.strstart + MIN_LOOKAHEAD <= 2 * m.wSize <= 65536 && strategy != HuffmanOnly && strategy != RunLength
      requires level > 3 && Traced(Held()) && HeldLook()
      modifies this`sym, this`blocks, this`looks, this`matchLength, this`prevLength, this`prevMatch,
               this`matchAvailable, m`blockStart, m`strstart, m`lookahead, m`insH, m`ins, m`top, m`matchStart, m.head,
               m.prev
      ensures Synced(Held()) && Open() && m.Rolled() && Lazy() && m.lookahead < old(m.lookahead)
      ensures Traced(Held()) && HeldLook() && (old(Packed()) ==> Packed())
    {
      hide Synced, MatchAt, Continues, Replay, Matcher.Valid, Matcher.Rolled, Matcher.Inserted, Traced, Looking, Packed,
           HeldLook, PrevLook, Lazy, Settled, All, Widths, Tokens;
      LookLazily();
      stop := Settle();
    }

    /** deflate_slow: a match is taken only if there is none better at the next byte. */
    method DeflateSlow(flush: Flush) returns (state: BlockState)
      requires Synced(Held()) && Open() && m.Rolled() && Lazy() && strategy != HuffmanOnly && strategy != RunLength
      requires level > 3 && Traced(Held()) && HeldLook()
      modifies this`sym, this`blocks, this`looks, this`matchLength, this`prevLength, this`prevMatch,
               this`matchAvailable, m, m.window, m.prev, m.head
      ensures Returned(flush, state, Held()) && m.stream + m.input == old(m.stream + m.input) && m.Rolled() && Lazy()
      ensures flush == Finish && state == NeedMore ==> |m.input| + m.lookahead < old(|m.input| + m.lookahead)
      ensures Traced(Held()) && HeldLook() && (old(Packed()) && flush != SyncFlush ==> Packed())
      ensures state == BlockDone ==> TailKept()
    {
      hide Synced, AllOut, MatchAt, Continues, Replay, Matcher.Valid, Matcher.Rolled, Matcher.Inserted, Traced, Packed,
           HeldLook, Lazy, TailKept;
      SymEndPositive();
      while true
        invariant Synced(Held()) && Open() && m.Rolled() && Lazy() && m.stream + m.input == old(m.stream + m.input)
        invariant Traced(Held()) && HeldLook() && (old(Packed()) ==> Packed())
        invariant |m.input| + m.lookahead <= old(|m.input| + m.lookahead)
        decreases |m.input| + m.lookahead
      {
        RolledClear();
        if m.lookahead < MIN_LOOKAHEAD {
          FillLazy();
          if m.lookahead < MIN_LOOKAHEAD && flush == NoFlush { return NeedMore; }
          if m.lookahead == 0 { break; }
        }
        RoomForRun(Held());
        var stop := SlowRound();
        RolledClear();
        if stop { return NeedMore; }
      }
      RoomForRun(Held());
      state := EndSlow(flush);
    }

    /** The end of deflate_slow: a byte held back, and the rest of the block. */
    method EndSlow(flush: Flush) returns (state: BlockState)
      requires Synced(Held()) && Open() && m.Rolled() && Lazy() && strategy != HuffmanOnly && strategy != RunLength
      requires level > 3 && Traced(Held()) && HeldLook() && m.lookahead == 0 && m.input == [] && flush != NoFlush
      requires m.strstart <= 65535
      modifies this`sym, this`blocks, this`matchAvailable, m`blockStart, m`insert
      ensures flush == Finish ==> state != NeedMore
      ensures Returned(flush, state, Held()) && m.Rolled() && Lazy() && !matchAvailable && TailKept()
      ensures Traced(Held()) && HeldLook() && (old(Packed()) && flush == Finish ==> Packed())
    {
      hide Synced, AllOut, MatchAt, Continues, Replay, Matcher.Valid, Matcher.Rolled, Matcher.Inserted, All, Widths,
           Looked, Follows, Packed, Settled;
      if matchAvailable { EmitLast(); }
      KeepTail();
      state := FlushRest(flush);
    }

    /** The literal held back at the end of the input: nothing was found there. */
    method EmitLast()
      requires Synced(1) && Open() && m.lookahead == 0 && level > 3 && strategy != HuffmanOnly && strategy != RunLength
      requires matchAvailable && Traced(1) && HeldLook() && Lazy()
      modifies this`sym, this`matchAvailable
      ensures Synced(0) && Traced(0) && HeldLook() && Lazy() && !matchAvailable
    {
      hide Synced, Continues, Replay, Matcher.Valid, All, Widths, Looked, Follows, TokenRule;
      LastRule();
      ghost var all0 := All();
      LastLiteral();
      NoEntries(Lit(m.stream[Pos() - 1]), Pos() - 1);
      Traces(all0, Lit(m.stream[Pos() - 1]), m.ins, Pos(), 0);
      matchAvailable := false;
    }

    lemma LastRule()
      requires Synced(1) && m.lookahead == 0 && level > 3 && strategy != HuffmanOnly && strategy != RunLength
      requires matchAvailable && Traced(1) && HeldLook() && matchLength >= MIN_MATCH - 1
      ensures 0 < Pos() == |m.stream| && matchLength == 2
      ensures TokenRule(Manner(), Lit(m.stream[Pos() - 1]), Pos() - 1, looks, m.stream)
    {
      hide Covers, Continues, Replay, Heads, Links, Pow2, ValidParams, Kept, Follows, Recent, Best;
    }

    /** s->insert = 0 */
    method NoInsert()
      requires Synced(0) && m.Clear()
      modifies m`insert
      ensures Synced(0) && m.Clear()
    {
      hide Covers, Continues, Replay, Heads, Links, Pow2, ValidParams;
      m.insert := 0;
    }

    lemma SymEndPositive()
      ensures Synced(0) ==> 127 <= symEnd <= 32767 && |sym| <= symEnd
    {
    }

    /** fill_window keeps the tokens and the stream in step. */
    method Fill(ghost held: nat)
      requires Synced(held) && Open() && m.Clear() && m.lookahead < MIN_LOOKAHEAD && held <= 1
      modifies m, m.window, m.prev, m.head
      ensures Synced(held) && m.stream + m.input == old(m.stream + m.input) && old(m.stream) <= m.stream
      ensures m.strstart + MIN_LOOKAHEAD <= 2 * m.wSize && (m.lookahead >= MIN_LOOKAHEAD || m.input == [])
      ensures m.base + m.strstart == old(m.base + m.strstart) && m.base + m.matchStart == old(m.base + m.matchStart)
      ensures m.lookahead >= old(m.lookahead) && |m.input| + m.lookahead == old(|m.input| + m.lookahead)
      ensures m.base + m.blockStart == old(m.base + m.blockStart)
      ensures (old(m.Rolled()) ==> m.Rolled()) && m.Clear()
      ensures old(Traced(held)) && (old(m.Rolled()) || strategy == RunLength) ==> Traced(held)
    {
      hide Covers, Continues, Replay, Heads, Links, Pow2, ValidParams, AllOut, Rolling, Looked, Follows, All, Grew,
           Later, Widths;
      ghost var s0, i0, n, ins0 := m.stream, m.input, m.base + m.strstart - held, m.ins;
      ghost var lo := m.base + m.strstart - m.insert;
      m.FillWindow();
      PrefixOf(s0, i0, m.stream, m.input);
      if old(Traced(held)) && (old(m.Rolled()) || strategy == RunLength) && strategy != HuffmanOnly {
        if old(m.Rolled()) { WaitedLater(ins0, m.ins, lo, Pos() - m.insert, Widths(All()), |s0|); }
        TraceGrows(s0, ins0, Pos());
      }
      CoversGrows(Replay(blocks), sym, s0, m.stream, n);
      assert |s0 + i0| == |m.stream + m.input|;
      assert m.stream[..m.base + m.blockStart] == s0[..m.base + m.blockStart];
    }

    /** What holds between calls of the loop that the strategy and the level choose. */
    ghost predicate Ready()
      reads this, m, m.window, m.prev, m.head
    {
      1 <= level <= 9 && Synced(Held()) && Open() && m.Clear() && Traced(Held()) &&
      if strategy == HuffmanOnly then !matchAvailable && Spans()
      else if strategy == RunLength then !matchAvailable
      else if level <= 3 then !matchAvailable && m.Rolled() && matchLength < MIN_MATCH && prevLength == MIN_MATCH - 1
      else m.Rolled() && Lazy() && HeldLook()
    }

    /** deflate() calls the loop that the strategy or else the level chooses. */
    method RunLoop(flush: Flush) returns (state: BlockState)
      requires Ready()
      modifies this`sym, this`blocks, this`looks, this`matchLength, this`prevLength, this`prevMatch,
               this`matchAvailable, m, m.window, m.prev, m.head
      ensures Returned(flush, state, Held()) && m.stream + m.input == old(m.stream + m.input)
      ensures state == NeedMore || state == BlockDone ==> Ready()
      ensures Traced(Held()) && (old(Packed()) && flush != SyncFlush ==> Packed())
      ensures state == BlockDone && strategy != HuffmanOnly && strategy != RunLength ==> TailKept()
      ensures flush == Finish && state == NeedMore ==> |m.input| + m.lookahead < old(|m.input| + m.lookahead)
    {
      hide Synced, Lazy, AllOut, MatchAt, Continues, Replay, Matcher.Valid, Matcher.Rolled, Matcher.Clear, Unended,
           Trace, All, Widths, HeldLook, Packed, TailKept;
      if strategy == HuffmanOnly {
        state := DeflateHuff(flush);
      } else if strategy == RunLength {
        state := DeflateRle(flush);
      } else if level <= 3 {
        state := DeflateFast(flush);
      } else {
        state := DeflateSlow(flush);
      }
    }

    lemma ReadyKept()
      requires Ready()
      ensures Kept() && m.Summed()
    {
      hide Synced, Adler32Of, AllHandy;
      SyncedKept(Held());
    }

    lemma SyncedKept(held: nat)
      requires Synced(held)
      ensures Kept() && m.Summed()
    {
      hide Covers, Continues, Replay, Heads, Links, Pow2, ValidParams, Adler32Of;
    }

    /** More input at next_in. */
    method Feed(more: seq<Byte>)
      requires Ready()
      modifies m`input
      ensures Ready() && m.input == old(m.input) + more && m.stream == old(m.stream)
    {
      hide Covers, Continues, Replay, Heads, Links, Pow2, ValidParams, Rolling, MatchAt, Unended, Kept, Mirrors,
           Adler32Of, Shape, Spans, Open, Traced, HeldLook;
      m.input := m.input + more;
    }
  }

  /** Strings inserted now had no input before. */
  lemma WaitedLater(ins0: set<nat>, ins: set<nat>, lo: int, hi: int, from: nat, size: nat)
    requires Grew(ins0, ins, lo, hi) && (lo < hi ==> lo + MIN_MATCH > size)
    ensures Later(ins0, ins, from, size)
  {
  }

  lemma MatchDist(stream: seq<Byte>, pos: int, from: int, len: int)
    requires MatchAt(stream, pos, from, len)
    ensures 0 <= from < pos && pos - from <= 32768
  {
  }

  lemma RunSame(w: seq<Byte>, s: nat, prev: Byte, len: nat)
    requires 0 < s && s + len <= |w| && forall i :: s - 1 <= i < s + len ==> w[i] == prev
    ensures SameRun(w, s - 1, s, len)
  {
    var a := s - 1;
    forall k | 0 <= k < len ensures SameIn(w, a, s, k) { }
  }

  lemma NoTokensCover(h: seq<Byte>, stream: seq<Byte>, n: nat)
    requires n <= |stream| && h == stream[..n]
    ensures Covers(h, [], stream, n)
  {
  }

  /** The window holds the bytes of the block. */
  lemma BlockBytes(m: Matcher, h: seq<Byte>, out: seq<Byte>, buf: Option<seq<Byte>>)
    requires m.Valid() && 0 <= m.base + m.blockStart <= |m.stream| && h <= out
    requires h == m.stream[..m.base + m.blockStart] && out == m.stream[..m.base + m.strstart]
    requires m.blockStart >= 0 ==> m.blockStart <= m.strstart && buf == Some(m.window[m.blockStart..m.strstart])
    requires m.blockStart < 0 ==> buf == None
    ensures |out| - |h| == m.strstart - m.blockStart && (buf.Some? ==> out == h + buf.v)
  {
    hide Heads, Links, Pow2, ValidParams;
    if buf.Some? {
      assert buf.v == m.stream[m.base + m.blockStart..m.base + m.strstart];
    }
  }

  lemma SymEnd(memLevel: nat)
    requires 1 <= memLevel <= 9
    ensures 128 <= Shl(1, memLevel + 6) <= 32768
  {
    hide Shl, Pow2;
    ShlOne(memLevel + 6);
    Pow2Mono(7, memLevel + 6);
    Pow2Mono(memLevel + 6, 15);
    SevenFifteen();
  }

  /** A whole run of compression at any level above 0 and with any strategy: input in any portions,
      output space running out at any time. The blocks stand for exactly the input, the last of them, and
      no other, is marked as such, and each of the others fills the symbol buffer. Each token is what the
      search made at its place tells the chosen loop to output. */
  method CompressAll(chunks: seq<seq<Byte>>, wBits: nat, memLevel: nat, level: nat,
                     strategy: Strategy) returns (d: Deflater)
    requires 9 <= wBits <= 15 && 1 <= memLevel <= 9 && 1 <= level <= 9
    ensures Continues(d.blocks) && Replay(d.blocks) == Joined(chunks) && d.blocks != [] && d.blocks[|d.blocks| - 1].last
    ensures forall i :: 0 <= i < |d.blocks| - 1 ==> !d.blocks[i].last && |d.blocks[i].ts| == Shl(1, memLevel + 6) - 1
    ensures AllHandy(d.blocks, Shl(1, memLevel + 6), strategy) && d.m.adler == Adler32Of(Joined(chunks))
    ensures strategy != HuffmanOnly ==>
              var style, c := StyleFor(strategy, level), ConfigFor(wBits, memLevel, level);
              Follows(style, c, Tokens(d.blocks), d.looks, Joined(chunks), d.m.ins) &&
              Looked(style, c, d.looks, Joined(chunks), d.m.ins, |Joined(chunks)|)
  {
    hide Covers, Continues, Replay, Deflater.Synced, Deflater.Ready, Adler32Of, AllHandy, Joined, Shl, Deflater.Traced,
         ConfigFor, StyleFor, Deflater.Packed, Deflater.Kept, Deflater.AllOut, Deflater.Conf, Deflater.Held, Follows,
         Looked, Tokens, Unended;
    NonePortion<Byte>();
    d := new Deflater(wBits, memLevel, level, strategy);
    for i := 0 to |chunks|
      invariant fresh(d) && fresh(d.m) && fresh(d.m.window) && fresh(d.m.prev) && fresh(d.m.head)
      invariant d.symEnd == Shl(1, memLevel + 6) - 1 && d.strategy == strategy && d.level == level
      invariant d.Conf() == ConfigFor(wBits, memLevel, level)
      invariant d.Ready() && d.m.stream + d.m.input == Joined(chunks[..i]) && d.Packed()
    {
      d.Feed(chunks[i]);
      NextPortion(chunks, i);
      var state := d.RunLoop(NoFlush);
    }
    assert chunks[..|chunks|] == chunks;
    var state := NeedMore;
    d.ReadyKept();
    while state == NeedMore
      invariant fresh(d) && fresh(d.m) && fresh(d.m.window) && fresh(d.m.prev) && fresh(d.m.head)
      invariant state == NeedMore ==> d.Ready()
      invariant d.symEnd == Shl(1, memLevel + 6) - 1 && d.strategy == strategy && d.level == level
      invariant d.Conf() == ConfigFor(wBits, memLevel, level) && d.Kept() && d.m.Summed()
      invariant d.m.stream + d.m.input == Joined(chunks) && d.Packed()
      invariant state != NeedMore ==> d.AllOut() && d.m.input == [] && d.blocks != [] && d.blocks[|d.blocks| - 1].last
      invariant state != NeedMore ==> d.Synced(d.Held()) && d.Traced(d.Held())
      decreases state == NeedMore, |d.m.input| + d.m.lookahead
    {
      state := d.RunLoop(Finish);
      d.SyncedKept(d.Held());
    }
    d.RunEnds(Joined(chunks), d.Held());
  }

  /** Only the last block may be marked. */
  lemma {:induction false} OneLast(blocks: seq<Flushed>)
    requires Continues(blocks)
    ensures forall i :: 0 <= i < |blocks| - 1 ==> !blocks[i].last
    decreases |blocks|
  {
    hide Expand, Reachable, Replay;
    if blocks != [] {
      var init := blocks[..|blocks| - 1];
      OneLast(init);
      forall i | 0 <= i < |blocks| - 1 ensures !blocks[i].last {
        assert blocks[i] == init[i];
      }
    }
  }
}
