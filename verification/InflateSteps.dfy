/** The steps of the format's machine as inflate comes to them: with enough bits and without, and by
    the entry that a decoding table gives. */
module InflateSteps {
  import opened Bits
  import opened DecodeTable
  import opened BitWriter
  import opened Adler
  import opened Format
  import opened Codec
  import opened Fixed
  import opened InflateTable
  import opened Blocks
  import opened Feeding
  import opened Lookup
  import opened BitReader
  import opened SymbolReader

  lemma CopyShort(s: State)
    requires s.mode.Copy? && s.mode.n > 0 && s.q == BytesBits([])
    ensures Step(s) == None
  {
  }

  /** Copying some of the bytes of a stored block. */
  lemma {:induction false} CopyPart(s: State, bytes: seq<Byte>, rest: seq<bool>)
    requires s.mode.Copy? && |bytes| <= s.mode.n && s.q == BytesBits(bytes) + rest
    ensures Reaches(s, s.(mode := Copy(s.mode.n - |bytes|), out := s.out + bytes, q := rest))
    decreases |bytes|
  {
    hide Reaches, Step, ToBits, BytesBits;
    if bytes == [] {
      NoBytes();
      assert s.q == rest && s.out + bytes == s.out;
      ReachesSelf(s);
    } else {
      BytesBitsFirst(bytes[0], bytes[1..]);
      assert [bytes[0]] + bytes[1..] == bytes;
      var q1 := BytesBits(bytes[1..]) + rest;
      assert s.q == ToBits(bytes[0], 8) + q1;
      StepCopy(s, s.mode.n, bytes[0], q1);
      var t := s.(mode := Copy(s.mode.n - 1), out := s.out + [bytes[0]], q := q1);
      ReachesStep(s, t);
      CopyPart(t, bytes[1..], rest);
      assert s.out + [bytes[0]] + bytes[1..] == s.out + bytes;
      ReachesTrans(s, t, s.(mode := Copy(s.mode.n - |bytes|), out := s.out + bytes, q := rest));
    }
  }

  lemma TableGoes(s: State)
    requires s.mode == Table && |s.q| >= 14
    ensures Step(s) != None
  {
    hide FromBits, TypeStep, LenLensStep, CodeLensStep, LenStep, DistStep;
  }

  lemma TableShort(s: State)
    requires s.mode == Table && |s.q| < 14
    ensures Step(s) == None
  {
  }

  lemma TableFull(s: State, a: nat, b: nat, d: nat)
    requires s.mode == Table && |s.q| >= 14
    requires a == FromBits(s.q[..5]) && b == FromBits(s.q[5..][..5]) && d == FromBits(s.q[5..][5..][..4])
    ensures Step(s) == Some(if a + 257 > 286 || b + 1 > 30 then s.(mode := Bad, q := [])
                            else s.(mode := LenLens(a + 257, b + 1, d + 4, []), q := s.q[5..][5..][4..]))
  {
    hide FromBits, TypeStep, LenLensStep, CodeLensStep, LenStep, DistStep;
    assert s.q[5..][..5] == s.q[5..10] && s.q[5..][5..][..4] == s.q[10..14] && s.q[5..][5..][4..] == s.q[14..];
  }

  lemma LenLensGoes(s: State)
    requires s.mode.LenLens? && |s.q| >= 3
    ensures Step(s) != None
  {
    hide FromBits, TypeStep, CodeLensStep, LenStep, DistStep, Acceptable, Arrange;
  }

  lemma LenLensEnds(s: State)
    requires s.mode.LenLens? && |s.mode.got| >= s.mode.ncode
    ensures Step(s) != None
  {
    hide FromBits, TypeStep, CodeLensStep, LenStep, DistStep, Acceptable, Arrange;
  }

  lemma LenLensShort(s: State)
    requires s.mode.LenLens? && |s.mode.got| < s.mode.ncode && |s.q| < 3
    ensures Step(s) == None
  {
    hide TypeStep, CodeLensStep, LenStep, DistStep, Acceptable, Arrange;
  }

  lemma LenLensFull(s: State, v: nat)
    requires s.mode.LenLens? && |s.mode.got| < s.mode.ncode && |s.q| >= 3 && v == FromBits(s.q[..3])
    ensures Step(s) == Some(s.(mode := LenLens(s.mode.nlen, s.mode.ndist, s.mode.ncode, s.mode.got + [v]),
                               q := s.q[3..]))
  {
    hide FromBits, TypeStep, CodeLensStep, LenStep, DistStep, Acceptable, Arrange;
  }

  lemma LenLensEnd(s: State, all: seq<nat>)
    requires s.mode.LenLens? && s.mode.ncode <= |s.mode.got| <= 19 && all == Arrange(s.mode.got)
    ensures Step(s) == Some(if Acceptable(CODES, all) then s.(mode := CodeLens(s.mode.nlen, s.mode.ndist, all, []))
                            else s.(mode := Bad, q := []))
  {
    hide FromBits, TypeStep, CodeLensStep, LenStep, DistStep, Acceptable, Arrange;
    assert s.q[0..] == s.q;
  }

  /** While a code length waits for more bits, no symbol is in all but the last 8. */
  lemma CodeLensWaits(h: State, q: seq<bool>, bits: nat)
    requires h.mode.CodeLens? && Ok(h) && bits <= |q| && h.q == q[..bits] && bits > 7 && Step(h) == None
    ensures |h.mode.got| < h.mode.nlen + h.mode.ndist && Tight(q, bits, h.mode.cl)
  {
    hide FromBits, Acceptable, DecodeSym, Step, GoodLens;
    StepCodeLens(h);
    var cl, p := h.mode.cl, q[..bits - 8];
    if DecodeSym(cl, p) != More {
      assert h.q == p + q[bits - 8..bits];
      DecodeFed(CODES, cl, p, q[bits - 8..bits]);
      DecodedSym(cl, p);
    }
  }

  /** What the first-level entry for a code length tells. */
  lemma PeekedSym(cl: seq<nat>, q: seq<bool>, here: Code)
    requires Agrees(CODES, here, here.bits, DecodeSym(cl, q)) && |cl| == 19
    ensures here.val < 19 && (DecodeSym(cl, q) == Found(here.val,
                                                        here.bits) || (DecodeSym(cl, q) == Invalid && here == INVALID))
  {
    hide DecodeSym;
  }

  lemma CodeLensMore(s: State)
    requires s.mode.CodeLens? && |s.mode.got| < s.mode.nlen + s.mode.ndist && DecodeSym(s.mode.cl, s.q) == More
    ensures Step(s) == None
  {
    hide FromBits, Acceptable, DecodeSym, Step;
    StepCodeLens(s);
  }

  lemma CodeLensLength(s: State, val: nat, n: nat)
    requires s.mode.CodeLens? && |s.mode.got| < s.mode.nlen + s.mode.ndist && val < 16 && n <= |s.q|
    requires DecodeSym(s.mode.cl, s.q) == Found(val, n) || (DecodeSym(s.mode.cl, s.q) == Invalid && val == 0 && n == 1)
    ensures Step(s) == Some(s.(mode := CodeLens(s.mode.nlen, s.mode.ndist, s.mode.cl, s.mode.got + [val]),
                               q := s.q[n..]))
  {
    hide FromBits, Acceptable, DecodeSym, Step;
    StepCodeLens(s);
  }

  lemma CodeLensRepeats(s: State, sym: nat, n: nat)
    requires s.mode.CodeLens? && |s.mode.got| < s.mode.nlen + s.mode.ndist && 16 <= sym <= 18 && n <= |s.q|
    requires DecodeSym(s.mode.cl, s.q) == Found(sym, n)
    ensures |s.q| < n + RepeatBits(sym) ==> Step(s) == None
    ensures |s.q| >= n + RepeatBits(sym) ==>
              var m, count := s.mode, (if sym == 18 then 11 else 3) + FromBits(s.q[n..][..RepeatBits(sym)]);
              var v := if sym == 16 && m.got != [] then m.got[|m.got| - 1] else 0;
              Step(s) == Some(if (sym == 16 && m.got == []) || |m.got| + count > m.nlen + m.ndist
                              then s.(mode := Bad, q := [])
                              else s.(mode := CodeLens(m.nlen, m.ndist, m.cl, m.got + seq(count, _ => v)),
                                      q := s.q[n..][RepeatBits(sym)..]))
  {
    hide FromBits, Acceptable, DecodeSym, Step;
    StepCodeLens(s);
    if |s.q| >= n + RepeatBits(sym) {
      assert s.q[n..][..RepeatBits(sym)] == s.q[n..n + RepeatBits(sym)] &&
      s.q[n..][RepeatBits(sym)..] == s.q[n + RepeatBits(sym)..];
    }
  }

  lemma CodeLensEnd(s: State)
    requires s.mode.CodeLens? && |s.mode.got| == s.mode.nlen + s.mode.ndist && s.mode.nlen > 256 && s.mode.ndist > 0
    ensures Step(s) == Some(
              if s.mode.got[256] == 0 || !Acceptable(LENS, s.mode.got[..s.mode.nlen]) ||
                 !Acceptable(DISTS, s.mode.got[s.mode.nlen..])
              then s.(mode := Bad, q := [])
              else s.(mode := Len(Codes(s.mode.got[..s.mode.nlen], s.mode.got[s.mode.nlen..]))))
  {
    hide FromBits, Acceptable, DecodeSym, Step;
    StepCodeLens(s);
    assert s.q[0..] == s.q;
  }

  predicate Bit16(op: nat) { op / 16 % 2 == 1 }

  predicate Bit32(op: nat) { op / 32 % 2 == 1 }

  predicate Bit64(op: nat) { op / 64 % 2 == 1 }

  /** While a symbol or its extra bits wait for more bits, none is in those held. */
  lemma CodesWait(h: State)
    requires Step(h) == None
    ensures h.mode.Len? ==> DecodeSym(h.mode.c.ll, h.q) == More
    ensures h.mode.Dist? ==> DecodeSym(h.mode.c.dl, h.q) == More
    ensures h.mode.LenExt? || h.mode.DistExt? ==> |h.q| < h.mode.extra
    ensures !h.mode.Copying? && !h.mode.Literal?
  {
    hide FromBits, DecodeSym, TypeStep, LenLensStep, CodeLensStep;
  }

  lemma LenMore(s: State, c: Codes)
    requires s.mode == Len(c) && DecodeSym(c.ll, s.q) == More
    ensures Step(s) == None
  {
    hide FromBits, DecodeSym, Step;
    StepLen(s, c);
  }

  lemma DistMore(s: State, c: Codes, len: nat)
    requires s.mode == Dist(c, len) && DecodeSym(c.dl, s.q) == More
    ensures Step(s) == None
  {
    hide FromBits, DecodeSym, Step;
    StepDist(s, c, len);
  }

  lemma OpBits(op: nat)
    requires op == 0 || 16 <= op <= 29 || op == 64 || op == 68 || op == 96 || op == 193
    ensures Bit16(op) <==> 16 <= op <= 29
    ensures Bit32(op) <==> op == 96
    ensures Bit64(op) <==> op >= 64
  {
  }

  lemma LenOps(k: nat)
    requires k < 31
    ensures if k < 29 then 16 <= LEXT[k] <= 21 else LEXT[k] == (if k == 29 then 68 else 193)
  {
  }

  lemma DistOps(k: nat)
    requires k < 32
    ensures if k < 30 then 16 <= DEXT[k] <= 29 else DEXT[k] == 64
  {
  }

  /** The entry for a literal/length symbol, as its operation bits tell it. */
  lemma LenEntry(sym: nat, n: nat)
    requires sym < 288
    ensures var e := Entry(LENS, sym, n);
            if sym < 256 then e.op == 0 && e.val == sym
            else if sym == 256 then e.op == 96
            else if sym < 286 then 16 <= e.op <= 21 && e.val == LBASE[sym - 257] && e.op == LEXT[sym - 257]
            else e.op == 68 || e.op == 193
  {
    if sym >= 257 { LenOps(sym - 257); }
  }

  lemma DistEntry(sym: nat, n: nat)
    requires sym < 32
    ensures var e := Entry(DISTS, sym, n);
            if sym < 30 then 16 <= e.op <= 29 && e.val == DBASE[sym] && e.op == DEXT[sym] else e.op == 64
  {
    DistOps(sym);
  }

  /** What the entry found for a literal/length code leads to. */
  lemma LenRead(s: State, c: Codes, here: Code, n: nat)
    requires s.mode == Len(c) && n <= |s.q| && Agrees(LENS, here, n, DecodeSym(c.ll, s.q))
    ensures LenLeads(s, c, here, n)
  {
    hide FromBits, DecodeSym, Step, Bit16, Bit32, Bit64, Entry;
    StepLen(s, c);
    var d := DecodeSym(c.ll, s.q);
    if d.Found? { LenEntry(d.s, d.n); }
    OpBits(here.op);
  }

  ghost predicate LenLeads(s: State, c: Codes, here: Code, n: nat)
    requires n <= |s.q|
  {
    var (lit, base, end) := (here.op == 0, Bit16(here.op), Bit32(here.op));
    (lit || base || Bit64(here.op)) && (base ==> !end && !Bit64(here.op)) && (end ==> !base && !lit) &&
    (lit ==> !base && here.val < 256) &&
    Step(s) == Some(if lit then s.(mode := Literal(c, here.val), q := s.q[n..])
                    else if base then s.(mode := LenExt(c, here.val, here.op % 16), q := s.q[n..])
                    else if end then s.(mode := Type, q := s.q[n..])
                    else s.(mode := Bad, q := []))
  }

  ghost predicate DistLeads(s: State, c: Codes, len: nat, here: Code, n: nat)
    requires n <= |s.q|
  {
    (Bit16(here.op) <==> !Bit64(here.op)) &&
    Step(s) == Some(if Bit16(here.op) then s.(mode := DistExt(c, len, here.val, here.op % 16),
                                              q := s.q[n..]) else s.(mode := Bad, q := []))
  }

  /** What the entry found for a distance code leads to. */
  lemma DistRead(s: State, c: Codes, len: nat, here: Code, n: nat)
    requires s.mode == Dist(c, len) && n <= |s.q| && Agrees(DISTS, here, n, DecodeSym(c.dl, s.q))
    ensures DistLeads(s, c, len, here, n)
  {
    hide FromBits, DecodeSym, Step, Bit16, Bit64, Agrees, DistStep;
    StepDist(s, c, len);
    DistGoes(s, c, len);
    DistOp(here, n, DecodeSym(c.dl, s.q));
  }

  lemma DistOp(here: Code, n: nat, d: Symbol)
    requires Agrees(DISTS, here, n, d)
    ensures d == Invalid || (d.Found? && d.n == n && d.s < 32)
    ensures (Bit16(here.op) <==> !Bit64(here.op)) && (Bit16(here.op) <==> d.Found? && d.s < 30)
    ensures Bit16(here.op) ==> here.val == DBASE[d.s] && here.op % 16 == DEXT[d.s] - 16
  {
    hide Bit16, Bit64, Entry;
    if d.Found? { DistEntry(d.s, d.n); }
    OpBits(here.op);
  }

  lemma DistGoes(s: State, c: Codes, len: nat)
    ensures DecodeSym(c.dl, s.q) == Invalid ==> DistStep(s, c, len) == Some(s.(mode := Bad, q := []))
    ensures var d := DecodeSym(c.dl, s.q);
            d.Found? ==> DistStep(s, c, len) == Some(if d.s >= 30 then s.(mode := Bad, q := [])
                                                     else s.(mode := DistExt(c, len, DBASE[d.s], DEXT[d.s] - 16),
                                                             q := s.q[d.n..]))
  {
    hide FromBits;
  }

  /** Reading extra bits. */
  lemma ExtStep(s: State)
    requires s.mode.LenExt? || s.mode.DistExt?
    ensures |s.q| < s.mode.extra ==> Step(s) == None
    ensures |s.q| >= s.mode.extra ==>
              var v := FromBits(s.q[..s.mode.extra]);
              Step(s) == Some(s.(mode := if s.mode.LenExt? then Dist(s.mode.c, s.mode.len + v)
                                         else Copying(s.mode.c, s.mode.len, s.mode.off + v),
                                 q := s.q[s.mode.extra..]))
  {
    hide FromBits, TypeStep, LenLensStep, CodeLensStep, LenStep, DistStep;
  }

  lemma LiteralStep(s: State, c: Codes, b: nat)
    requires s.mode == Literal(c, b)
    ensures Step(s) == Some(s.(mode := Len(c), out := s.out + [b % 256]))
  {
    assert s.q[0..] == s.q;
  }

  lemma OkSizes(t: State)
    requires Ok(t)
    ensures t.mode.LenExt? ==> t.mode.extra <= 5
    ensures t.mode.DistExt? ==> t.mode.extra <= 13
    ensures t.mode.Copying? ==> 1 <= t.mode.len <= 258 && 1 <= t.mode.off <= 32768
  {
    hide GoodLens, Pow2;
  }

  lemma DropEnds(q: seq<bool>, n: nat)
    requires n <= |q|
    ensures Ends(q, q[n..])
  {
  }

  lemma MoreTaken(a: seq<bool>, q: seq<bool>, m: nat, b: seq<bool>)
    requires Ends(a, q) && 1 <= m <= |q| && Ends(q[m..], b)
    ensures Ends(a, b) && |b| < |q|
  {
  }

  lemma AtEnd(s: State)
    requires s.mode == Done || s.mode == Bad
    ensures Step(s) == None
  {
  }

  lemma CheckGoes(s: State)
    requires s.mode == Check && (!s.wrap || |s.q| >= 32)
    ensures Step(s) != None
  {
    hide FromBits, Adler32Of, Swap32;
  }

  lemma CheckShort(s: State)
    requires s.mode == Check && s.wrap && |s.q| < 32
    ensures Step(s) == None
  {
  }

  lemma NoCheck(s: State)
    requires s.mode == Check && !s.wrap
    ensures Step(s) == Some(s.(mode := Mode.Done))
  {
    assert s.q[0..] == s.q;
  }

  lemma CheckStep(s: State, v: nat)
    requires s.mode == Check && s.wrap && |s.q| >= 32 && v == FromBits(s.q[..32])
    ensures Step(s) == Some(if Swap32(v) != Adler32Of(s.out) then s.(mode := Bad, q := [])
                            else s.(mode := Mode.Done, q := s.q[32..]))
  {
    hide FromBits, Adler32Of, Swap32;
  }

  /** More input does not change what is in the accumulator. */
  lemma MoreStream(hold: nat, bits: nat, input: seq<Byte>, more: seq<Byte>)
    ensures Stream(hold, bits, input + more) == Stream(hold, bits, input) + BytesBits(more)
    ensures Stream(hold, bits, input + more)[..bits] == Stream(hold, bits, input)[..bits]
    ensures |BytesBits(more)| % 8 == 0
  {
    hide ToBits, BytesBits;
    BytesBitsConcat(input, more);
    var a := ToBits(hold, bits);
    assert a + (BytesBits(input) + BytesBits(more)) == a + BytesBits(input) + BytesBits(more);
  }

  lemma AlignedTwice(q: seq<bool>)
    ensures Aligned(Aligned(q)) == Aligned(q)
  {
  }

  lemma StoredGoes(s: State)
    requires s.mode == Stored && |s.q| >= 32
    ensures Step(s) != None
  {
    hide FromBits, TypeStep, LenLensStep, CodeLensStep, LenStep, DistStep;
  }

  lemma StoredShort(s: State)
    requires s.mode == Stored && |s.q| < 32
    ensures Step(s) == None
  {
  }

  lemma StoredFull(s: State, lo: nat, hi: nat)
    requires s.mode == Stored && |s.q| >= 32 && lo == FromBits(s.q[..16]) && hi == FromBits(s.q[16..][..16])
    ensures lo <= 65535 && hi <= 65535
    ensures Step(s) == Some(if lo + hi != 65535 then s.(mode := Bad, q := []) else s.(mode := Copy(lo), q := s.q[32..]))
  {
    hide Pow2, TypeStep, LenLensStep, CodeLensStep, LenStep, DistStep;
    assert s.q[16..][..16] == s.q[16..32];
    assert FromBits(s.q[..16]) < Pow2(16) && FromBits(s.q[16..32]) < Pow2(16);
    SixteenBits();
  }

  lemma TypeGoes(s: State)
    requires s.mode == Type && |s.q| >= 3
    ensures Step(s) != None
  {
    hide FromBits, FixedLl, FixedDl, Aligned;
  }

  lemma TypeLast(s: State)
    requires s.mode == Type && s.last
    ensures Step(s) == Some(s.(mode := Check, q := Aligned(s.q)))
  {
    hide FromBits, FixedLl, FixedDl, Aligned;
  }

  lemma TypeShort(s: State)
    requires s.mode == Type && !s.last && |s.q| < 3
    ensures Step(s) == None
  {
    hide FromBits, FixedLl, FixedDl, Aligned;
  }

  lemma TypeFull(s: State, b: nat, kind: nat)
    requires s.mode == Type && !s.last && |s.q| >= 3 && b == FromBits(s.q[..1]) && kind == FromBits(s.q[1..][..2])
    ensures kind == 0 ==> Step(s) == Some(s.(mode := Stored, last := b == 1, q := Aligned(s.q[1..][2..])))
    ensures kind == 1 ==> Step(s) == Some(s.(mode := Len(FixedCodes()), last := b == 1, q := s.q[1..][2..]))
    ensures kind == 2 ==> Step(s) == Some(s.(mode := Table, last := b == 1, q := s.q[1..][2..]))
    ensures kind > 2 ==> Step(s) == Some(s.(mode := Bad, last := b == 1, q := []))
  {
    hide FixedLl, FixedDl, Aligned;
    OneBit(s.q);
    assert s.q[1..][..2] == s.q[1..3] && s.q[1..][2..] == s.q[3..];
  }

  lemma OneBit(q: seq<bool>)
    requires q != []
    ensures FromBits(q[..1]) == if q[0] then 1 else 0
  {
    assert q[..1] == [q[0]] && q[..1][1..] == [];
  }

  lemma AlignedSize(q: seq<bool>)
    ensures |Aligned(q)| <= |q|
  {
  }
}
