/** compress_block and the symbol buffer it reads (trees.c). */
module Compress {
  import opened Bits
  import opened Canonical
  import opened BitWriter
  import opened Format
  import opened Codec

  // ----- the symbol buffer -----

  /** A 16-bit number, low byte first. */
  function Pair(lo: nat, hi: nat): nat { lo + 256 * hi }

  /** The token that three bytes of the symbol buffer stand for. */
  function TokenOf(d0: Byte, d1: Byte, lc: Byte): Token {
    var dist := Pair(d0, d1);
    if dist == 0 then Lit(lc) else Match(dist, lc + 3)
  }

  function TokensOf(sym: seq<Byte>): (ts: seq<Token>)
    ensures |ts| == |sym| / 3
  {
    if |sym| < 3 then [] else TokensOf(sym[..|sym| - 3]) + [TokenOf(sym[|sym| - 3], sym[|sym| - 2], sym[|sym| - 1])]
  }

  /** The code values are those of the canonical code, for the symbols in use. */
  ghost predicate CodesOf(code: seq<nat>, len: seq<nat>) {
    |code| == |len| && ValidLens(len) && forall s :: 0 <= s < |len| && len[s] > 0 ==> code[s] == RevCode(len, s)
  }

  lemma {:induction false} TokensOfPrefix(sym: seq<Byte>, n: nat)
    requires |sym| % 3 == 0 && 3 * n <= |sym|
    ensures TokensOf(sym[..3 * n]) == TokensOf(sym)[..n]
    ensures 3 * n < |sym| ==> TokensOf(sym)[n] == TokenOf(sym[3 * n], sym[3 * n + 1], sym[3 * n + 2])
    decreases |sym|
  {
    if 3 * n == |sym| {
      assert sym[..3 * n] == sym;
    } else {
      var init := sym[..|sym| - 3];
      TokensOfPrefix(init, n);
      assert init[..3 * n] == sym[..3 * n];
    }
  }

  /** bits more bits fit below byte limit. */
  ghost predicate Below(w: BitWriter, bits: nat, limit: nat)
    reads w
  {
    8 * w.pending + w.biValid + bits < 8 * limit + 8
  }

  /** Only bytes from lo to hi - 1 have changed. */
  ghost predicate Untouched(b0: seq<Byte>, b: seq<Byte>, lo: nat, hi: nat) {
    lo <= hi && |b| == |b0| && forall i :: 0 <= i < |b| && (i < lo || hi <= i) ==> b[i] == b0[i]
  }

  method SendCode(w: BitWriter, s: nat, code: seq<nat>, len: seq<nat>)
    requires w.Valid() && s < |len| && len[s] > 0 && CodesOf(code, len) && w.pending + 2 <= w.pendingBuf.Length
    modifies w, w.pendingBuf
    ensures w.Valid() && w.Sent() == old(w.Sent()) + SymBits(len, s)
    ensures 8 * w.pending + w.biValid == 8 * old(w.pending) + old(w.biValid) + len[s]
    ensures Untouched(old(w.pendingBuf[..]), w.pendingBuf[..], old(w.pending), w.pending)
  {
    hide RevCode;
    w.SendBits(code[s], len[s]);
  }

  /** Send one symbol of the block: everything is written below byte limit. */
  method SendToken(w: BitWriter, dist: nat, lc: nat, lcode: seq<nat>, llen: seq<nat>, dcode: seq<nat>, dlen: seq<nat>,
                   ghost limit: nat)
    requires w.Valid() && CodesOf(lcode, llen) && CodesOf(dcode, dlen) && lc < 256 && dist <= 32768
    requires var t := if dist == 0 then Lit(lc) else Match(dist, lc + 3);
             Coded(Codes(llen, dlen), t) && Below(w, |TokBits(Codes(llen, dlen), t)|, limit)
    requires limit + 2 <= w.pendingBuf.Length
    modifies w, w.pendingBuf
    ensures var t := if dist == 0 then Lit(lc) else Match(dist, lc + 3);
            w.Valid() && w.Sent() == old(w.Sent()) + TokBits(Codes(llen, dlen), t) &&
            8 * w.pending + w.biValid == 8 * old(w.pending) + old(w.biValid) + |TokBits(Codes(llen, dlen), t)|
    ensures Untouched(old(w.pendingBuf[..]), w.pendingBuf[..], old(w.pending), w.pending) && w.pending <= limit
  {
    hide LengthCode, DistCode, Pow2, SymBits, CodesOf, LenExtra, DistExtra, RevCode;
    if dist == 0 {
      SendCode(w, lc, lcode, llen);
    } else {
      ghost var s0 := w.Sent();
      SendLength(w, lc, lcode, llen);
      SendDistance(w, dist - 1, dcode, dlen);
      ghost var a, b := SymBits(llen, 257 + LengthCode(lc)) + LenExtra(lc),
        SymBits(dlen, DistCode(dist - 1)) + DistExtra(dist - 1);
      assert s0 + a + b == s0 + (a + b);
    }
  }

  method SendLength(w: BitWriter, lc: nat, lcode: seq<nat>, llen: seq<nat>)
    requires w.Valid() && lc < 256 && CodesOf(lcode, llen) && HasCode(llen, 257 + LengthCode(lc))
    requires 8 * w.pending + w.biValid + llen[257 + LengthCode(lc)] < 8 * (w.pendingBuf.Length - 2) + 8
    requires w.pending + 2 <= w.pendingBuf.Length
    modifies w, w.pendingBuf
    ensures w.Valid() && w.Sent() == old(w.Sent()) + (SymBits(llen, 257 + LengthCode(lc)) + LenExtra(lc))
    ensures 8 * w.pending + w.biValid == 8 * old(w.pending) + old(w.biValid) + llen[257 + LengthCode(lc)] +
            |LenExtra(lc)|
    ensures Untouched(old(w.pendingBuf[..]), w.pendingBuf[..], old(w.pending), w.pending)
  {
    hide LengthCode, Pow2, SymBits, CodesOf, LenExtra, RevCode;
    ghost var s0 := w.Sent();
    var code := LengthCode(lc);
    SendCode(w, code + 257, lcode, llen);
    SendLengthExtra(w, lc, code);
    assert s0 + SymBits(llen, 257 + code) + LenExtra(lc) == s0 + (SymBits(llen, 257 + code) + LenExtra(lc));
  }

  method SendDistance(w: BitWriter, d: nat, dcode: seq<nat>, dlen: seq<nat>)
    requires w.Valid() && d < 32768 && CodesOf(dcode, dlen) && HasCode(dlen, DistCode(d))
    requires 8 * w.pending + w.biValid + dlen[DistCode(d)] < 8 * (w.pendingBuf.Length - 2) + 8
    requires w.pending + 2 <= w.pendingBuf.Length
    modifies w, w.pendingBuf
    ensures w.Valid() && w.Sent() == old(w.Sent()) + (SymBits(dlen, DistCode(d)) + DistExtra(d))
    ensures 8 * w.pending + w.biValid == 8 * old(w.pending) + old(w.biValid) + dlen[DistCode(d)] + |DistExtra(d)|
    ensures Untouched(old(w.pendingBuf[..]), w.pendingBuf[..], old(w.pending), w.pending)
  {
    hide DistCode, Pow2, SymBits, CodesOf, DistExtra, RevCode;
    ghost var s0 := w.Sent();
    var code := DistCode(d);
    SendCode(w, code, dcode, dlen);
    SendDistExtra(w, d, code);
    assert s0 + SymBits(dlen, code) + DistExtra(d) == s0 + (SymBits(dlen, code) + DistExtra(d));
  }

  method SendLengthExtra(w: BitWriter, lc: nat, code: nat)
    requires w.Valid() && lc < 256 && code == LengthCode(lc) && w.pending + 2 <= w.pendingBuf.Length
    modifies w, w.pendingBuf
    ensures w.Valid() && w.Sent() == old(w.Sent()) + LenExtra(lc)
    ensures 8 * w.pending + w.biValid == 8 * old(w.pending) + old(w.biValid) + |LenExtra(lc)|
    ensures Untouched(old(w.pendingBuf[..]), w.pendingBuf[..], old(w.pending), w.pending)
  {
    hide LengthCode, Pow2, ToBits;
    LengthCodeRange(lc);
    LengthParts(lc);
    var extra := EXTRA_LBITS[code];
    if extra != 0 {
      w.SendBits(lc - BASE_LENGTH[code], extra);
    } else {
      assert LenExtra(lc) == [];
    }
  }

  method SendDistExtra(w: BitWriter, d: nat, code: nat)
    requires w.Valid() && d < 32768 && code == DistCode(d) && w.pending + 2 <= w.pendingBuf.Length
    modifies w, w.pendingBuf
    ensures w.Valid() && w.Sent() == old(w.Sent()) + DistExtra(d)
    ensures 8 * w.pending + w.biValid == 8 * old(w.pending) + old(w.biValid) + |DistExtra(d)|
    ensures Untouched(old(w.pendingBuf[..]), w.pendingBuf[..], old(w.pending), w.pending)
  {
    hide DistCode, Pow2, ToBits;
    DistCodeRange(d);
    DistParts(d);
    var extra := EXTRA_DBITS[code];
    if extra != 0 {
      w.SendBits(d - BASE_DIST[code], extra);
    } else {
      assert DistExtra(d) == [];
    }
  }

  /** At every symbol, what has been written stays below what has still to be read, although the
      symbol buffer is the upper three quarters of the pending buffer. */
  ghost predicate NoOverlay(start: nat, litBufsize: nat, c: Codes, ts: seq<Token>)
    requires AllCoded(c, ts)
  {
    forall n :: 0 < n <= |ts| ==> start + |TokensBits(c, ts[..n])| < 8 * (litBufsize + 3 * n) + 8
  }

  /** Send the block data using the given trees: exactly the bits of the block's tokens. */
  method CompressBlock(w: BitWriter, litBufsize: nat, symNext: nat,
                       lcode: seq<nat>, llen: seq<nat>, dcode: seq<nat>, dlen: seq<nat>, ghost ts: seq<Token>)
    requires w.Valid() && w.pendingBuf.Length == 4 * litBufsize && symNext % 3 == 0 && symNext + 3 <= 3 * litBufsize
    requires ts == TokensOf(w.pendingBuf[litBufsize..litBufsize + symNext])
    requires CodesOf(lcode, llen) && CodesOf(dcode, dlen) && UsableCodes(Codes(llen, dlen))
    requires AllCoded(Codes(llen, dlen), ts)
    requires NoOverlay(8 * w.pending + w.biValid, litBufsize, Codes(llen, dlen), ts)
    requires w.pending + 2 <= litBufsize
    modifies w, w.pendingBuf
    ensures w.Valid() && w.Sent() == old(w.Sent()) + BlockBits(Codes(llen, dlen), ts)
    ensures 8 * w.pending + w.biValid == 8 * old(w.pending) + old(w.biValid) + |BlockBits(Codes(llen, dlen), ts)|
  {
    hide Pow2, SymBits, CodesOf, TokBits, TokenOf, Coded, TokensOf, Kraft, BytesBits, ToBits, NoOverlay, TokensBits,
         UsableCodes, BlockBits, RevCode;
    ghost var c, sym, start := Codes(llen, dlen), w.pendingBuf[litBufsize..litBufsize + symNext],
      8 * w.pending + w.biValid;
    ghost var s0 := w.Sent();
    var sx := 0;
    assert ts[..0] == [] && s0 + [] == s0;
    NoTokens(c);
    EndCode(c, ts);
    while sx < symNext
      invariant sx % 3 == 0 && sx <= symNext && w.Valid() && w.Sent() == s0 + TokensBits(c, ts[..sx / 3])
      invariant 8 * w.pending + w.biValid == start + |TokensBits(c, ts[..sx / 3])|
      invariant w.pending <= litBufsize + sx
      invariant Unread(w.pendingBuf[..], litBufsize, sx, sym)
    {
      SendNext(w, litBufsize, sx, lcode, llen, dcode, dlen, sym, ts, start);
      ghost var n := sx / 3;
      sx := sx + 3;
      assert s0 + TokensBits(c, ts[..n]) + TokBits(c, ts[n]) == s0 + (TokensBits(c, ts[..n]) + TokBits(c, ts[n]));
    }
    assert ts[..sx / 3] == ts;
    SendCode(w, END_BLOCK, lcode, llen);
    assert s0 + TokensBits(c, ts) + SymBits(llen, END_BLOCK) == s0 + (TokensBits(c, ts) + SymBits(llen, END_BLOCK));
  }

  lemma NoTokens(c: Codes)
    ensures TokensBits(c, []) == []
  {
  }

  lemma EndCode(c: Codes, ts: seq<Token>)
    requires UsableCodes(c) && AllCoded(c, ts)
    ensures |c.ll| > END_BLOCK && c.ll[END_BLOCK] > 0
    ensures BlockBits(c, ts) == TokensBits(c, ts) + SymBits(c.ll, END_BLOCK)
  {
  }

  /** The symbols from sx on are still in the buffer. */
  ghost predicate Unread(buf: seq<Byte>, litBufsize: nat, sx: nat, sym: seq<Byte>) {
    litBufsize + |sym| <= |buf| && forall i :: sx <= i < |sym| ==> buf[litBufsize + i] == sym[i]
  }

  /** Read and send the symbol at sx. */
  method SendNext(w: BitWriter, litBufsize: nat, sx: nat, lcode: seq<nat>, llen: seq<nat>, dcode: seq<nat>,
                  dlen: seq<nat>,
                  ghost sym: seq<Byte>, ghost ts: seq<Token>, ghost start: nat)
    requires w.Valid() && sx % 3 == 0 && sx + 3 <= |sym| && |sym| % 3 == 0 && |sym| + 3 <= 3 * litBufsize
    requires w.pendingBuf.Length == 4 * litBufsize && Unread(w.pendingBuf[..], litBufsize, sx, sym)
    requires ts == TokensOf(sym)
    requires CodesOf(lcode, llen) && CodesOf(dcode, dlen) && AllCoded(Codes(llen, dlen), ts)
    requires NoOverlay(start, litBufsize, Codes(llen, dlen), ts)
    requires 8 * w.pending + w.biValid == start + |TokensBits(Codes(llen, dlen), ts[..sx / 3])|
    modifies w, w.pendingBuf
    ensures w.Valid() && sx / 3 < |ts| && w.Sent() == old(w.Sent()) + TokBits(Codes(llen, dlen), ts[sx / 3])
    ensures TokensBits(Codes(llen, dlen), ts[..(sx + 3) / 3]) ==
            TokensBits(Codes(llen, dlen), ts[..sx / 3]) + TokBits(Codes(llen, dlen), ts[sx / 3])
    ensures 8 * w.pending + w.biValid == start + |TokensBits(Codes(llen, dlen), ts[..(sx + 3) / 3])|
    ensures w.pending <= litBufsize + sx + 3 && Unread(w.pendingBuf[..], litBufsize, sx + 3, sym)
  {
    hide Pow2, SymBits, CodesOf, TokBits, TokenOf, Coded, TokensOf, TokensBits, NoOverlay;
    ghost var c, n := Codes(llen, dlen), sx / 3;
    var dist := Pair(w.pendingBuf[litBufsize + sx], w.pendingBuf[litBufsize + sx + 1]);
    var lc := w.pendingBuf[litBufsize + sx + 2];
    TokenAt(sym, n, ts, dist, lc);
    NextToken(c, ts, n);
    RoomForToken(w, start, litBufsize, c, ts, n);
    ValidDist(c, ts[n]);
    SendToken(w, dist, lc, lcode, llen, dcode, dlen, litBufsize + sx + 3);
  }

  lemma ValidDist(c: Codes, t: Token)
    requires Coded(c, t)
    ensures t.Match? ==> t.dist <= 32768
  {
  }

  lemma RoomForToken(w: BitWriter, start: nat, litBufsize: nat, c: Codes, ts: seq<Token>, n: nat)
    requires AllCoded(c, ts) && NoOverlay(start, litBufsize, c, ts) && n < |ts| && Coded(c, ts[n])
    requires 8 * w.pending + w.biValid == start + |TokensBits(c, ts[..n])|
    requires TokensBits(c, ts[..n + 1]) == TokensBits(c, ts[..n]) + TokBits(c, ts[n])
    ensures Below(w, |TokBits(c, ts[n])|, litBufsize + 3 * (n + 1))
  {
  }

  lemma TokenAt(sym: seq<Byte>, n: nat, ts: seq<Token>, dist: nat, lc: Byte)
    requires |sym| % 3 == 0 && 3 * n < |sym| && ts == TokensOf(sym)
    requires dist == Pair(sym[3 * n], sym[3 * n + 1]) && lc == sym[3 * n + 2]
    ensures n < |ts| && ts[n] == if dist == 0 then Lit(lc) else Match(dist, lc + 3)
  {
    TokensOfPrefix(sym, n);
  }

  lemma NextToken(c: Codes, ts: seq<Token>, n: nat)
    requires AllCoded(c, ts) && n < |ts|
    ensures Coded(c, ts[n]) && TokensBits(c, ts[..n + 1]) == TokensBits(c, ts[..n]) + TokBits(c, ts[n])
  {
    assert ts[..n + 1][..n] == ts[..n];
  }
}
