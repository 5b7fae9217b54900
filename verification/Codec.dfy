/** The bits that stand for tokens (section 3.2.5 of RFC 1951), and the proof that the machine
    of the format reads back exactly the tokens they were made from. */
module Codec {
  import opened Bits
  import opened Canonical
  import opened DecodeTable
  import opened BitWriter
  import opened Format

  const EXTRA_LBITS: seq<nat> := [0, 0, 0, 0, 0, 0, 0, 0, 1, 1, 1, 1, 2, 2, 2, 2, 3, 3, 3, 3, 4, 4, 4, 4, 5, 5, 5, 5, 0]
  const EXTRA_DBITS: seq<nat> := [0, 0, 0, 0, 1, 1, 2, 2, 3, 3, 4, 4, 5, 5, 6, 6, 7, 7, 8, 8, 9, 9, 10, 10, 11, 11, 12,
                                  12, 13, 13]
  const BASE_LENGTH: seq<nat> := [0, 1, 2, 3, 4, 5, 6, 7, 8, 10, 12, 14, 16, 20, 24, 28, 32, 40, 48, 56,
                                  64, 80, 96, 112, 128, 160, 192, 224, 0]
  const BASE_DIST: seq<nat> := [0, 1, 2, 3, 4, 6, 8, 12, 16, 24, 32, 48, 64, 96, 128, 192, 256, 384, 512, 768,
                                1024, 1536, 2048, 3072, 4096, 6144, 8192, 12288, 16384, 24576]

  const LENGTH_CODES: nat := 29
  const D_CODES: nat := 30
  const END_BLOCK: nat := 256

  /** The last of the first n codes whose base is at most v. */
  function FindCode(base: seq<nat>, v: nat, n: nat): (c: nat)
    requires 0 < n <= |base| && base[0] == 0
    ensures c < n && base[c] <= v && (c + 1 < n ==> v < base[c + 1])
  {
    if n == 1 || base[n - 1] <= v then n - 1 else FindCode(base, v, n - 1)
  }

  /** The length code of a match of lc + 3 bytes; 258 bytes have a code of their own. */
  function LengthCode(lc: nat): (c: nat)
    requires lc < 256
    ensures c < LENGTH_CODES
  {
    if lc == 255 then 28 else FindCode(BASE_LENGTH, lc, 28)
  }

  /** The code of distance d + 1. */
  function DistCode(d: nat): (c: nat)
    requires d < 32768
    ensures c < D_CODES
  {
    FindCode(BASE_DIST, d, D_CODES)
  }

  /** inflate's bases and extra bits are those of deflate, for lengths from 3 and distances from 1. */
  lemma LengthBases(c: nat)
    requires c < LENGTH_CODES
    ensures LEXT[c] == 16 + EXTRA_LBITS[c] && EXTRA_LBITS[c] <= 5
    ensures c < 28 ==> LBASE[c] == 3 + BASE_LENGTH[c]
    ensures c == 28 ==> LBASE[c] == 258 && EXTRA_LBITS[c] == 0
  {
  }

  /** The length codes partition the lengths. */
  lemma LengthSpans(c: nat)
    requires c < 28
    ensures Pow2(EXTRA_LBITS[c]) == if c < 27 then BASE_LENGTH[c + 1] - BASE_LENGTH[c] else 256 - BASE_LENGTH[c]
  {
    hide Pow2;
    SmallPowers();
    if c < 8 { } else if c < 16 { } else if c < 24 { } else { }
  }

  lemma DistBases(c: nat)
    requires c < D_CODES
    ensures DEXT[c] == 16 + EXTRA_DBITS[c] && EXTRA_DBITS[c] <= 13
    ensures DBASE[c] == 1 + BASE_DIST[c]
  {
  }

  /** The distance codes partition the distances. */
  lemma DistSpans(c: nat)
    requires c < D_CODES
    ensures Pow2(EXTRA_DBITS[c]) == if c < 29 then BASE_DIST[c + 1] - BASE_DIST[c] else 32768 - BASE_DIST[c]
  {
    hide Pow2;
    SmallPowers();
    if c < 8 { } else if c < 16 { } else if c < 24 { } else { }
  }

  lemma SmallPowers()
    ensures Pow2(0) == 1 && Pow2(1) == 2 && Pow2(2) == 4 && Pow2(3) == 8 && Pow2(4) == 16 && Pow2(5) == 32
    ensures Pow2(6) == 64 && Pow2(7) == 128 && Pow2(8) == 256 && Pow2(9) == 512 && Pow2(10) == 1024
    ensures Pow2(11) == 2048 && Pow2(12) == 4096 && Pow2(13) == 8192
  {
  }

  lemma LengthCodeRange(lc: nat)
    requires lc < 256
    ensures var c := LengthCode(lc);
            if lc == 255 then c == 28 else c < 28 && BASE_LENGTH[c] <= lc < BASE_LENGTH[c] + Pow2(EXTRA_LBITS[c])
  {
    hide Pow2;
    if lc != 255 { LengthSpans(LengthCode(lc)); }
  }

  lemma DistCodeRange(d: nat)
    requires d < 32768
    ensures var c := DistCode(d); BASE_DIST[c] <= d < BASE_DIST[c] + Pow2(EXTRA_DBITS[c])
  {
    hide Pow2;
    DistSpans(DistCode(d));
  }

  // ----- the bits of tokens -----

  /** The code of symbol s, as sent. */
  function SymBits(lens: seq<nat>, s: nat): (b: seq<bool>)
    requires s < |lens|
    ensures |b| == lens[s]
  {
    ToBits(RevCode(lens, s), lens[s])
  }

  /** The extra length bits of a match of lc + 3 bytes. */
  function LenExtra(lc: nat): (b: seq<bool>)
    requires lc < 256
  {
    var c := LengthCode(lc);
    LengthCodeRange(lc);
    if c == 28 then [] else ToBits(lc - BASE_LENGTH[c], EXTRA_LBITS[c])
  }

  function DistExtra(d: nat): (b: seq<bool>)
    requires d < 32768
  {
    var c := DistCode(d);
    DistCodeRange(d);
    ToBits(d - BASE_DIST[c], EXTRA_DBITS[c])
  }

  /** Code lengths that a block of compressed data can use. */
  predicate UsableCodes(c: Codes) {
    END_BLOCK < |c.ll| <= 288 && |c.dl| <= 32 && ValidLens(c.ll) && ValidLens(c.dl) &&
    Kraft(c.ll) <= Pow2(MAXBITS) && Kraft(c.dl) <= Pow2(MAXBITS) && c.ll[END_BLOCK] > 0
  }

  predicate HasCode(lens: seq<nat>, s: nat) { s < |lens| && lens[s] > 0 }

  /** Every symbol that the token needs has a code. */
  predicate Coded(c: Codes, t: Token) {
    ValidToken(t) &&
    match t
    case Lit(b) => HasCode(c.ll, b)
    case Match(dist, len) => HasCode(c.ll, 257 + LengthCode(len - 3)) && HasCode(c.dl, DistCode(dist - 1))
  }

  function TokBits(c: Codes, t: Token): seq<bool>
    requires Coded(c, t)
  {
    match t
    case Lit(b) => SymBits(c.ll, b)
    case Match(dist, len) =>
      SymBits(c.ll, 257 + LengthCode(len - 3)) + LenExtra(len - 3) +
      (SymBits(c.dl, DistCode(dist - 1)) + DistExtra(dist - 1))
  }

  predicate AllCoded(c: Codes, ts: seq<Token>) {
    forall t :: t in ts ==> Coded(c, t)
  }

  function TokensBits(c: Codes, ts: seq<Token>): seq<bool>
    requires AllCoded(c, ts)
  {
    if ts == [] then [] else TokensBits(c, ts[..|ts| - 1]) + TokBits(c, ts[|ts| - 1])
  }

  /** The tokens and the end-of-block code. */
  function BlockBits(c: Codes, ts: seq<Token>): seq<bool>
    requires UsableCodes(c) && AllCoded(c, ts)
  {
    TokensBits(c, ts) + SymBits(c.ll, END_BLOCK)
  }

  // ----- reading symbols back -----

  lemma StartsWithUnique(lens: seq<nat>, s: nat, t: nat, q: seq<bool>)
    requires ValidLens(lens) && Kraft(lens) <= Pow2(MAXBITS)
    requires StartsWith(lens, s, q) && StartsWith(lens, t, q)
    ensures s == t
  {
    hide Kraft, RevCode, Pow2, Low, FromBits;
    if s != t {
      if lens[s] <= lens[t] { NotBoth(lens, s, t, q); } else { NotBoth(lens, t, s, q); }
    }
  }

  lemma NotBoth(lens: seq<nat>, s: nat, t: nat, q: seq<bool>)
    requires ValidLens(lens) && Kraft(lens) <= Pow2(MAXBITS) && s < |lens| && t < |lens| && s != t
    requires StartsWith(lens, s, q) && lens[s] <= lens[t]
    ensures !StartsWith(lens, t, q)
  {
    hide Kraft, RevCode, Pow2, Low, FromBits;
    PrefixFree(lens, s, t);
    if lens[t] <= |q| {
      var p := q[..lens[t]];
      assert p == p[..lens[s]] + p[lens[s]..] && p[..lens[s]] == q[..lens[s]];
      FromBitsConcat(p[..lens[s]], p[lens[s]..]);
    }
  }

  /** A symbol's code followed by anything is read as that symbol. */
  lemma ReadSym(lens: seq<nat>, s: nat, rest: seq<bool>)
    requires ValidLens(lens) && Kraft(lens) <= Pow2(MAXBITS) && s < |lens| && lens[s] > 0
    ensures DecodeSym(lens, SymBits(lens, s) + rest) == Found(s, lens[s])
  {
    hide Kraft, RevCode, Pow2, Low, FromBits, ToBits;
    var q := SymBits(lens, s) + rest;
    assert q[..lens[s]] == SymBits(lens, s);
    FromToBits(RevCode(lens, s), lens[s]);
    LowSmall(RevCode(lens, s), lens[s]);
    assert StartsWith(lens, s, q);
    StartsWithUnique(lens, s, DecodeSym(lens, q).s, q);
  }

  lemma Drop(a: seq<bool>, b: seq<bool>)
    ensures (a + b)[|a|..] == b
  {
  }

  // ----- reading tokens back -----

  lemma StepLen(s: State, c: Codes)
    requires s.mode == Len(c)
    ensures Step(s) == LenStep(s, c)
  {
    hide LenStep;
  }

  lemma StepLenExt(s: State, c: Codes, len: nat, extra: nat)
    requires s.mode == LenExt(c, len, extra) && |s.q| >= extra
    ensures Step(s) == Some(s.(mode := Dist(c, len + FromBits(s.q[..extra])), q := s.q[extra..]))
  {
    hide FromBits;
  }

  lemma StepDist(s: State, c: Codes, len: nat)
    requires s.mode == Dist(c, len)
    ensures Step(s) == DistStep(s, c, len)
  {
    hide DistStep;
  }

  lemma StepDistExt(s: State, c: Codes, len: nat, off: nat, extra: nat)
    requires s.mode == DistExt(c, len, off, extra) && |s.q| >= extra
    ensures Step(s) == Some(s.(mode := Copying(c, len, off + FromBits(s.q[..extra])), q := s.q[extra..]))
  {
    hide FromBits;
  }

  lemma StepCopying(s: State, c: Codes, len: nat, off: nat)
    requires s.mode == Copying(c, len, off) && 1 <= off <= |s.out|
    ensures Step(s) == Some(s.(mode := if len <= 1 then Len(c) else Copying(c, len - 1, off),
                               out := s.out + [s.out[|s.out| - off]]))
  {
    assert s.q[0..] == s.q;
  }

  lemma StepLiteral(s: State, c: Codes, b: Byte)
    requires s.mode == Literal(c, b)
    ensures Step(s) == Some(s.(mode := Len(c), out := s.out + [b]))
  {
    assert s.q[0..] == s.q;
  }

  /** Copying runs until the match is complete. */
  lemma {:induction false} CopyRun(s: State, c: Codes, len: nat, off: nat)
    requires s.mode == Copying(c, len, off) && len >= 1 && 1 <= off <= |s.out|
    ensures Quiet(s, s.(mode := Len(c), out := CopyFrom(s.out, off, len)))
    decreases len
  {
    hide Step, Quiet;
    StepCopying(s, c, len, off);
    var t := Step(s).v;
    QuietStep(s, t);
    if len > 1 {
      CopyRun(t, c, len - 1, off);
      QuietTrans(s, t, t.(mode := Len(c), out := CopyFrom(t.out, off, len - 1)));
    }
  }

  lemma LitSteps(s: State, c: Codes, b: Byte, rest: seq<bool>)
    requires UsableCodes(c) && Coded(c, Lit(b)) && s.mode == Len(c) && s.q == SymBits(c.ll, b) + rest
    ensures Quiet(s, s.(out := s.out + [b], q := rest))
  {
    hide Kraft, SymBits, Step, Quiet, DecodeSym;
    ReadSym(c.ll, b, rest);
    Drop(SymBits(c.ll, b), rest);
    var t := s.(mode := Literal(c, b), q := rest);
    StepLen(s, c);
    QuietStep(s, t);
    StepLiteral(t, c, b);
    QuietThen(s, t, s.(out := s.out + [b], q := rest));
  }

  lemma LengthSymLeads(s: State, c: Codes, k: nat, n: nat)
    requires k < LENGTH_CODES && n <= |s.q| && DecodeSym(c.ll, s.q) == Found(257 + k, n)
    ensures LBASE[k] >= 0 && LEXT[k] >= 16
    ensures LenStep(s, c) == Some(s.(mode := LenExt(c, LBASE[k], LEXT[k] - 16), q := s.q[n..]))
  {
    hide DecodeSym, Pow2, FromBits, Kraft, RevCode;
    ExtAtLeast16(k);
    var sym := 257 + k;
    assert sym - 257 == k;
  }

  /** Reading a length symbol. */
  lemma LengthSymStep(s: State, c: Codes, k: nat, rest: seq<bool>)
    requires UsableCodes(c) && k < LENGTH_CODES && s.mode == Len(c) && HasCode(c.ll, 257 + k)
    requires s.q == SymBits(c.ll, 257 + k) + rest
    ensures LBASE[k] >= 0 && LEXT[k] >= 16
    ensures Quiet(s, s.(mode := LenExt(c, LBASE[k], LEXT[k] - 16), q := rest))
  {
    hide Kraft, SymBits, Step, Quiet, DecodeSym, LenStep, Pow2;
    ReadSym(c.ll, 257 + k, rest);
    Drop(SymBits(c.ll, 257 + k), rest);
    StepLen(s, c);
    LengthSymLeads(s, c, k, |SymBits(c.ll, 257 + k)|);
    QuietStep(s, s.(mode := LenExt(c, LBASE[k], LEXT[k] - 16), q := rest));
  }

  /** The base and extra bits of a length say which length it is. */
  lemma LengthParts(lc: nat)
    requires lc < 256
    ensures var k := LengthCode(lc);
            LEXT[k] - 16 == |LenExtra(lc)| == EXTRA_LBITS[k] && LBASE[k] + FromBits(LenExtra(lc)) == lc + 3
  {
    hide Pow2, ToBits, FromBits, LengthCode;
    var k := LengthCode(lc);
    LengthCodeRange(lc);
    LengthBases(k);
    if k == 28 {
      NoBitsRead([]);
    } else {
      FromToBits(lc - BASE_LENGTH[k], EXTRA_LBITS[k]);
      LowSmall(lc - BASE_LENGTH[k], EXTRA_LBITS[k]);
    }
  }

  /** Length code and extra bits. */
  lemma LengthSteps(s: State, c: Codes, len: nat, rest: seq<bool>)
    requires UsableCodes(c) && s.mode == Len(c) && 3 <= len <= 258 && HasCode(c.ll, 257 + LengthCode(len - 3))
    requires s.q == SymBits(c.ll, 257 + LengthCode(len - 3)) + LenExtra(len - 3) + rest
    ensures Quiet(s, s.(mode := Dist(c, len), q := rest))
  {
    hide Kraft, SymBits, FromBits, LenExtra, Step, Quiet, LengthCode, UsableCodes, Pow2;
    var k, x := LengthCode(len - 3), LenExtra(len - 3);
    LengthParts(len - 3);
    assert s.q == SymBits(c.ll, 257 + k) + (x + rest);
    LengthSymStep(s, c, k, x + rest);
    var t := s.(mode := LenExt(c, LBASE[k], LEXT[k] - 16), q := x + rest);
    StepLenExt(t, c, LBASE[k], |x|);
    Take(x, rest);
    Drop(x, rest);
    QuietThen(s, t, s.(mode := Dist(c, len), q := rest));
  }

  lemma Take(a: seq<bool>, b: seq<bool>)
    ensures (a + b)[..|a|] == a
  {
  }

  lemma NoBitsRead(q: seq<bool>)
    ensures FromBits(q[..0]) == 0 && q[0..] == q
  {
    assert q[..0] == [];
  }

  /** Reading a distance symbol. */
  lemma DistSymStep(s: State, c: Codes, len: nat, k: nat, rest: seq<bool>)
    requires UsableCodes(c) && k < D_CODES && s.mode == Dist(c, len) && HasCode(c.dl, k)
    requires s.q == SymBits(c.dl, k) + rest
    ensures DBASE[k] >= 0 && DEXT[k] >= 16
    ensures Quiet(s, s.(mode := DistExt(c, len, DBASE[k], DEXT[k] - 16), q := rest))
  {
    hide Kraft, SymBits, Step, Quiet, DecodeSym;
    ReadSym(c.dl, k, rest);
    Drop(SymBits(c.dl, k), rest);
    StepDist(s, c, len);
    ExtAtLeast16(k);
    QuietStep(s, s.(mode := DistExt(c, len, DBASE[k], DEXT[k] - 16), q := rest));
  }

  lemma DistParts(d: nat)
    requires d < 32768
    ensures var k := DistCode(d);
            DEXT[k] - 16 == |DistExtra(d)| == EXTRA_DBITS[k] && DBASE[k] + FromBits(DistExtra(d)) == d + 1
  {
    hide Pow2, ToBits, FromBits, DistCode;
    var k := DistCode(d);
    DistCodeRange(d);
    DistBases(k);
    FromToBits(d - BASE_DIST[k], EXTRA_DBITS[k]);
    LowSmall(d - BASE_DIST[k], EXTRA_DBITS[k]);
  }

  /** Distance code and extra bits. */
  lemma DistSteps(s: State, c: Codes, len: nat, dist: nat, rest: seq<bool>)
    requires UsableCodes(c) && s.mode == Dist(c, len) && 1 <= dist <= 32768 && HasCode(c.dl, DistCode(dist - 1))
    requires s.q == SymBits(c.dl, DistCode(dist - 1)) + DistExtra(dist - 1) + rest
    ensures Quiet(s, s.(mode := Copying(c, len, dist), q := rest))
  {
    hide Kraft, SymBits, FromBits, DistExtra, Step, Quiet, DistCode;
    var k, x := DistCode(dist - 1), DistExtra(dist - 1);
    DistParts(dist - 1);
    assert s.q == SymBits(c.dl, k) + (x + rest);
    DistSymStep(s, c, len, k, x + rest);
    var t := s.(mode := DistExt(c, len, DBASE[k], DEXT[k] - 16), q := x + rest);
    StepDistExt(t, c, len, DBASE[k], |x|);
    Take(x, rest);
    Drop(x, rest);
    QuietThen(s, t, s.(mode := Copying(c, len, dist), q := rest));
  }

  /** The bits of a token make the machine produce what the token stands for. */
  lemma TokenSteps(s: State, c: Codes, t: Token, rest: seq<bool>)
    requires UsableCodes(c) && Coded(c, t) && s.mode == Len(c) && s.q == TokBits(c, t) + rest && InReach(s.out, t)
    ensures Quiet(s, s.(out := Apply(s.out, t), q := rest))
  {
    hide SymBits, LenExtra, DistExtra, Step, UsableCodes, Quiet;
    if t.Lit? {
      LitSteps(s, c, t.b, rest);
    } else {
      MatchSteps(s, c, t.dist, t.len, rest);
    }
  }

  lemma MatchSteps(s: State, c: Codes, dist: nat, len: nat, rest: seq<bool>)
    requires UsableCodes(c) && Coded(c, Match(dist, len)) && s.mode == Len(c)
    requires s.q == TokBits(c, Match(dist, len)) + rest
    requires 1 <= dist <= |s.out|
    ensures Quiet(s, s.(out := CopyFrom(s.out, dist, len), q := rest))
  {
    hide SymBits, LenExtra, DistExtra, Step, UsableCodes, Quiet, LengthCode, DistCode, CopyFrom;
    var a, b := SymBits(c.ll, 257 + LengthCode(len - 3)) + LenExtra(len - 3),
                SymBits(c.dl, DistCode(dist - 1)) + DistExtra(dist - 1);
    assert s.q == a + (b + rest);
    LengthSteps(s, c, len, b + rest);
    var u := s.(mode := Dist(c, len), q := b + rest);
    DistSteps(u, c, len, dist, rest);
    var v := s.(mode := Copying(c, len, dist), q := rest);
    QuietTrans(s, u, v);
    CopyRun(v, c, len, dist);
    QuietTrans(s, v, s.(out := CopyFrom(s.out, dist, len), q := rest));
  }

  /** Reading back all tokens of a block. */
  lemma {:induction false} TokensSteps(s: State, c: Codes, ts: seq<Token>, rest: seq<bool>)
    requires UsableCodes(c) && AllCoded(c, ts) && s.mode == Len(c) && s.q == TokensBits(c, ts) + rest
    requires Reachable(s.out, ts)
    ensures Quiet(s, s.(out := Expand(s.out, ts), q := rest))
  {
    hide Step, UsableCodes, Quiet, TokBits, Coded, Apply, InReach;
    if ts == [] {
      assert s.q == rest;
      QuietSelf(s);
    } else {
      var n := |ts| - 1;
      var last := TokBits(c, ts[n]) + rest;
      assert s.q == TokensBits(c, ts[..n]) + last;
      TokensSteps(s, c, ts[..n], last);
      var u := s.(out := Expand(s.out, ts[..n]), q := last);
      TokenSteps(u, c, ts[n], rest);
      QuietTrans(s, u, s.(out := Expand(s.out, ts), q := rest));
    }
  }

  /** The compressed data of a block is read back as exactly its tokens, and nothing beyond it is read. */
  lemma BlockRoundTrip(s: State, c: Codes, ts: seq<Token>, rest: seq<bool>)
    requires UsableCodes(c) && AllCoded(c, ts) && Reachable(s.out, ts)
    requires s.mode == Len(c) && s.q == BlockBits(c, ts) + rest
    ensures Quiet(s, s.(mode := Type, out := Expand(s.out, ts), q := rest))
  {
    hide Kraft, Quiet, TokensBits, Expand, Step, DecodeSym;
    var q1 := SymBits(c.ll, END_BLOCK) + rest;
    assert s.q == TokensBits(c, ts) + q1;
    TokensSteps(s, c, ts, q1);
    var u := s.(out := Expand(s.out, ts), q := q1);
    ReadSym(c.ll, END_BLOCK, rest);
    Drop(SymBits(c.ll, END_BLOCK), rest);
    StepLen(u, c);
    QuietThen(s, u, s.(mode := Type, out := Expand(s.out, ts), q := rest));
  }
}
