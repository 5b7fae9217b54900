/** How inflate and inflate_fast read a symbol through a decoding table, pulling just enough bytes. */
module SymbolReader {
  import opened Bits
  import opened Canonical
  import opened DecodeTable
  import opened Format
  import opened Codec
  import opened Feeding
  import opened Lookup
  import opened BitReader

  /** The bits in the accumulator. */
  ghost function Held(r: BitReader): seq<bool>
    requires r.Valid()
    reads r
  {
    r.Q()[..r.bits]
  }

  /** At most 7 bits are in the accumulator, or not enough for a symbol. */
  ghost predicate Scant(r: BitReader, lens: seq<nat>)
    reads r
  {
    r.Valid() && (r.bits <= 7 || DecodeSym(lens, Held(r)) == More)
  }

  /** At most 7 bits, or no symbol in all but the last 8. */
  ghost predicate Tight(q: seq<bool>, bits: nat, lens: seq<nat>) {
    bits <= |q| && (bits <= 7 || DecodeSym(lens, q[..bits - 8]) == More)
  }

  /** What n bits less cannot be read in fewer. */
  lemma FewerBits(ty: CodeType, lens: seq<nat>, q: seq<bool>, a: nat, b: nat)
    requires GoodLens(ty, lens) && a <= b <= |q| && DecodeSym(lens, q[..b]) == More
    ensures DecodeSym(lens, q[..a]) == More
  {
    hide DecodeSym, GoodLens;
    if DecodeSym(lens, q[..a]) != More {
      assert q[..b] == q[..a] + q[a..b];
      DecodeFed(ty, lens, q[..a], q[a..b]);
    }
  }

  lemma ScantTight(ty: CodeType, lens: seq<nat>, r: BitReader)
    requires GoodLens(ty, lens) && Scant(r, lens)
    ensures Tight(r.Q(), r.bits, lens)
  {
    hide DecodeSym, GoodLens;
    if r.bits > 7 { FewerBits(ty, lens, r.Q(), r.bits - 8, r.bits); }
  }

  /** The symbol read takes all but at most 7 of the bits in hand. */
  lemma FewLeft(ty: CodeType, lens: seq<nat>, q: seq<bool>, bits: nat, n: nat, e: Code)
    requires GoodLens(ty, lens) && Tight(q, bits, lens) && 1 <= n <= bits && Agrees(ty, e, n, DecodeSym(lens, q))
    ensures bits - n <= 7
  {
    hide GoodLens, FromBits, RevCode, Pow2, Kraft;
    if bits - n > 7 {
      var p := q[..bits - 8];
      var r := DecodeSym(lens, q);
      assert q == p + q[bits - 8..];
      match r {
        case Found(s, k) => StartsFed(lens, s, p, q[bits - 8..]);
        case Invalid => NoSymbol(lens, q);
        case More =>
      }
    }
  }

  lemma NoSymbol(lens: seq<nat>, q: seq<bool>)
    ensures DecodeSym(lens, q).Invalid? ==> Kraft(lens) < Pow2(MAXBITS)
  {
    hide Kraft, Pow2, StartsWith;
  }

  /** What a lookup of the accumulator tells. */
  lemma LookUp(ty: CodeType, lens: seq<nat>, t: seq<Code>, root: nat, r: BitReader)
    requires GoodLens(ty, lens) && Decodes(t, root, ty, lens) && r.Valid()
    ensures var (e, n) := Resolve(t, root, r.hold);
            1 <= n <= MAXBITS && if n <= r.bits then Agrees(ty, e, n, DecodeSym(lens, r.Q()))
                                 else DecodeSym(lens, Held(r)) == More
  {
    hide Decodes, GoodLens, Resolve, DecodeSym, Stream, Agrees;
    DecodesParts(t, root, ty, lens);
    StreamHeld(r.hold, r.bits, r.input);
    LookupSym(ty, lens, t, root, r.hold, Held(r));
    var (e, n) := Resolve(t, root, r.hold);
    if n <= r.bits {
      assert r.Q() == Held(r) + r.Q()[r.bits..];
      AgreesMore(ty, lens, e, n, Held(r), r.Q()[r.bits..]);
    }
  }

  lemma AgreesMore(ty: CodeType, lens: seq<nat>, e: Code, n: nat, q: seq<bool>, x: seq<bool>)
    requires GoodLens(ty, lens) && Agrees(ty, e, n, DecodeSym(lens, q))
    ensures Agrees(ty, e, n, DecodeSym(lens, q + x))
  {
    hide DecodeSym, GoodLens;
    DecodeFed(ty, lens, q, x);
  }

  lemma RootInside(ty: CodeType, lens: seq<nat>, t: seq<Code>, root: nat, hold: nat)
    requires Decodes(t, root, ty, lens)
    ensures LinksInside(t, root) && Low(hold, root) < |t|
    ensures var here := t[Low(hold, root)];
            IsLink(here) ==> here.bits == root && here.val + Low(High(hold, root), here.op) < |t|
  {
    hide Low, High, Pow2;
  }

  /** The second-level index, as inflate computes it. */
  lemma SecondIndex(hold: nat, bits: nat, op: nat)
    ensures High(Low(hold, bits + op), bits) == Low(High(hold, bits), op)
  {
    HighOfLow(hold, bits, op);
  }

  /** Pulling a byte does not change what is already held. */
  lemma HeldOn(old_hold: nat, hold: nat, bits: nat, root: nat)
    requires Low(hold, bits) == old_hold && root <= bits
    ensures Low(hold, root) == Low(old_hold, root)
  {
    LowLow(hold, root, bits);
  }

  /** The first-level entry for the accumulator, with its code's bits in hand. */
  method FirstEntry(r: BitReader, t: seq<Code>, root: nat, ghost ty: CodeType, ghost lens: seq<nat>)
    returns (ok: bool, here: Code)
    requires GoodLens(ty, lens) && Decodes(t, root, ty, lens) && r.Valid() && Tight(r.Q(), r.bits, lens)
    modifies r
    ensures r.Valid() && r.Q() == old(r.Q()) && |r.input| <= |old(r.input)| && Tight(r.Q(), r.bits, lens)
    ensures LinksInside(t, root) && here == t[Low(r.hold, root)]
    ensures if ok then here.bits <= r.bits else r.input == [] && DecodeSym(lens, r.Q()) == More
  {
    hide Decodes, GoodLens, Resolve, DecodeSym, Stream, LinksInside, Low, High, Pow2;
    RootInside(ty, lens, t, root, r.hold);
    here := t[Low(r.hold, root)];
    while here.bits > r.bits
      invariant r.Valid() && r.Q() == old(r.Q()) && Tight(r.Q(), r.bits, lens) && LinksInside(t, root)
      invariant |r.input| <= |old(r.input)|
      invariant Low(r.hold, root) < |t| && here == t[Low(r.hold, root)]
      decreases |r.input|
    {
      LookUp(ty, lens, t, root, r);
      FirstOfTwo(t, root, r.hold);
      WholeHeld(r);
      ghost var b := r.bits;
      ok := r.PullByte();
      if !ok { return; }
      assert r.Q()[..r.bits - 8] == r.Q()[..b];
      RootInside(ty, lens, t, root, r.hold);
      here := t[Low(r.hold, root)];
    }
    ok := true;
  }

  lemma FirstOfTwo(t: seq<Code>, root: nat, hold: nat)
    requires LinksInside(t, root) && Low(hold, root) < |t|
    ensures t[Low(hold, root)].bits <= Resolve(t, root, hold).1
    ensures !IsLink(t[Low(hold, root)]) ==> Resolve(t, root, hold) == (t[Low(hold, root)], t[Low(hold, root)].bits)
  {
    hide Low, High, Pow2;
  }

  lemma WholeHeld(r: BitReader)
    requires r.Valid()
    ensures |r.Q()| == r.bits + 8 * |r.input|
    ensures r.input == [] ==> Held(r) == r.Q()
  {
    hide Stream;
    r.StreamSize();
  }

  /** The entry in a second-level table that the first-level entry link leads to. */
  method SecondEntry(r: BitReader, t: seq<Code>, root: nat, link: Code, ghost ty: CodeType, ghost lens: seq<nat>)
    returns (ok: bool, here: Code)
    requires GoodLens(ty, lens) && Decodes(t, root, ty, lens) && r.Valid() && Tight(r.Q(), r.bits, lens)
    requires LinksInside(t, root) && link == t[Low(r.hold, root)] && IsLink(link) && link.bits <= r.bits
    modifies r
    ensures r.Valid() && r.Q() == old(r.Q()) && |r.input| <= |old(r.input)| && Tight(r.Q(), r.bits, lens)
    ensures link.bits == root
    ensures if ok then link.bits + here.bits <= r.bits && Resolve(t, root, r.hold) == (here, link.bits + here.bits)
            else r.input == [] && DecodeSym(lens, r.Q()) == More
  {
    hide Decodes, GoodLens, Resolve, DecodeSym, Stream, LinksInside, Low, High, Pow2;
    RootInside(ty, lens, t, root, r.hold);
    SecondIndex(r.hold, link.bits, link.op);
    here := t[link.val + High(Low(r.hold, link.bits + link.op), link.bits)];
    SecondIs(t, root, r.hold);
    while link.bits + here.bits > r.bits
      invariant r.Valid() && r.Q() == old(r.Q()) && Tight(r.Q(), r.bits, lens) && |r.input| <= |old(r.input)|
      invariant root <= r.bits && Low(r.hold, root) < |t| && link == t[Low(r.hold, root)]
      invariant Resolve(t, root, r.hold) == (here, link.bits + here.bits)
      decreases |r.input|
    {
      LookUp(ty, lens, t, root, r);
      WholeHeld(r);
      ghost var b, h := r.bits, r.hold;
      ok := r.PullByte();
      if !ok { return; }
      HeldOn(h, r.hold, b, root);
      assert r.Q()[..r.bits - 8] == r.Q()[..b];
      RootInside(ty, lens, t, root, r.hold);
      SecondIndex(r.hold, link.bits, link.op);
      here := t[link.val + High(Low(r.hold, link.bits + link.op), link.bits)];
      SecondIs(t, root, r.hold);
    }
    ok := true;
  }

  lemma SecondIs(t: seq<Code>, root: nat, hold: nat)
    requires LinksInside(t, root) && Low(hold, root) < |t|
    ensures var here := t[Low(hold, root)];
            IsLink(here) ==> here.bits == root && here.val + Low(High(hold, root), here.op) < |t|
    ensures var here := t[Low(hold, root)];
            IsLink(here) ==> Resolve(t, root, hold) == (t[here.val + Low(High(hold, root), here.op)],
                                                        root + t[here.val + Low(High(hold, root), here.op)].bits)
  {
    hide Low, High, Pow2;
  }

  /** Read a symbol: the entry here of the symbol, its n bits dropped, or not ok if the input ends
      first. At most 7 bits are left in the accumulator. */
  method Decode(r: BitReader, t: seq<Code>, root: nat, ghost ty: CodeType, ghost lens: seq<nat>)
    returns (ok: bool, here: Code, ghost n: nat)
    requires GoodLens(ty, lens) && Decodes(t, root, ty, lens) && Scant(r, lens)
    modifies r
    ensures r.Valid() && |r.input| <= |old(r.input)|
    ensures ok ==>
            1 <= n <= |old(r.Q())| && Agrees(ty, here, n, DecodeSym(lens, old(r.Q()))) && r.Q() == old(r.Q())[n..] &&
            r.bits <= 7
    ensures !ok ==> r.input == [] && r.Q() == old(r.Q()) && DecodeSym(lens, r.Q()) == More
  {
    hide Decodes, GoodLens, Resolve, DecodeSym, Stream, LinksInside, Low, High, Pow2, Agrees, Tight;
    ScantTight(ty, lens, r);
    ghost var q0 := r.Q();
    n := 0;
    ok, here := FirstEntry(r, t, root, ty, lens);
    if !ok { return; }
    RootInside(ty, lens, t, root, r.hold);
    FirstOfTwo(t, root, r.hold);
    var first := 0;
    if IsLink(here) {
      var last := here;
      ok, here := SecondEntry(r, t, root, last, ty, lens);
      if !ok { return; }
      first := last.bits;
    }
    n := first + here.bits;
    LookUp(ty, lens, t, root, r);
    FewLeft(ty, lens, q0, r.bits, n, here);
    WholeHeld(r);
    if first > 0 { var d := r.TakeBits(first); }
    var v := r.TakeBits(here.bits);
    DropTwice(q0, first, here.bits);
  }

  lemma DropTwice(q: seq<bool>, a: nat, b: nat)
    requires a + b <= |q|
    ensures q[a..][b..] == q[a + b..] && q[0..] == q
  {
  }

  /** The entry of a code-length code for the accumulator; nothing is dropped yet. */
  method Peek(r: BitReader, t: seq<Code>, root: nat, ghost lens: seq<nat>) returns (ok: bool, here: Code)
    requires GoodLens(CODES, lens) && Decodes(t, root, CODES, lens) && NoLinks(t, root) && r.Valid()
    requires Tight(r.Q(), r.bits, lens)
    modifies r
    ensures r.Valid() && |r.input| <= |old(r.input)| && r.Q() == old(r.Q()) && Tight(r.Q(), r.bits, lens)
    ensures ok ==>
            1 <= here.bits <= r.bits && Agrees(CODES, here, here.bits, DecodeSym(lens, r.Q())) &&
            r.bits - here.bits <= 7
    ensures !ok ==> r.input == [] && DecodeSym(lens, r.Q()) == More
  {
    hide Decodes, GoodLens, Resolve, DecodeSym, Stream, LinksInside, Low, High, Pow2, Agrees, Tight;
    ok, here := FirstEntry(r, t, root, CODES, lens);
    if !ok { return; }
    RootInside(CODES, lens, t, root, r.hold);
    FirstOfTwo(t, root, r.hold);
    LookUp(CODES, lens, t, root, r);
    FewLeft(CODES, lens, r.Q(), r.bits, here.bits, here);
  }

  // ----- when a symbol has to be waited for -----

  /** Bits that are not enough for a symbol. */
  ghost predicate Waits(lens: seq<nat>, q: seq<bool>) { DecodeSym(lens, q) == More }

  /** The beginning of a code is not enough for a symbol. */
  lemma BeginningWaits(lens: seq<nat>, s: nat, n: nat)
    requires ValidLens(lens) && Kraft(lens) == Pow2(MAXBITS) && s < |lens| && n < lens[s]
    ensures Waits(lens, SymBits(lens, s)[..n])
  {
    hide Kraft, Pow2, RevCode, FromBits, ToBits, Low;
    var b := SymBits(lens, s);
    var q := b[..n];
    FromToBits(RevCode(lens, s), lens[s]);
    LowSmall(RevCode(lens, s), lens[s]);
    forall t: nat ensures !StartsWith(lens, t, q) {
      if StartsWith(lens, t, q) {
        PrefixFree(lens, t, s);
        assert q[..lens[t]] == b[..lens[t]];
        HeldLow(FromBits(b), b, lens[t]);
      }
    }
  }

  lemma NoWait(lens: seq<nat>, s: nat, q: seq<bool>)
    requires StartsWith(lens, s, q)
    ensures !Waits(lens, q)
  {
  }

  /** An incomplete code never waits: what is not a symbol's code is invalid at once. */
  lemma WaitsComplete(lens: seq<nat>, q: seq<bool>)
    requires Waits(lens, q) && q != []
    ensures Kraft(lens) >= Pow2(MAXBITS)
  {
    hide Kraft, Pow2;
  }

  /** Bits that are not enough for a symbol are fewer than some symbol has. */
  lemma WaitsForLonger(ty: CodeType, lens: seq<nat>, q: seq<bool>) returns (s: nat)
    requires GoodLens(ty, lens) && Waits(lens, q) && 1 <= |q|
    ensures s < |lens| && lens[s] > |q|
  {
    hide Pow2, RevCode, FromBits, Low, Kraft, Waits;
    SmallBits(q);
    WaitsComplete(lens, q);
    var w := Low(FromBits(q), MAXBITS);
    s := CompleteCode(lens, w);
    if lens[s] <= |q| {
      HeldLow(FromBits(q), q, lens[s]);
      LowLow(FromBits(q), lens[s], MAXBITS);
      NoWait(lens, s, q);
    }
  }

  lemma SmallBits(q: seq<bool>)
    ensures Low(FromBits(q), MAXBITS) < Pow2(MAXBITS) && Holds(FromBits(q), q)
  {
  }

  /** A number of bits can be too few for a symbol exactly when some symbol has more. With a symbol
      of nine bits or more, inflate can wait with eight in the accumulator, contrary to what
      inflate_fast's comment assumes. */
  lemma MayWait(ty: CodeType, lens: seq<nat>, n: nat)
    requires GoodLens(ty, lens) && 1 <= n
    ensures (exists q :: |q| == n && Waits(lens, q)) <==> exists s :: 0 <= s < |lens| && lens[s] > n
  {
    hide Kraft, Pow2, Waits;
    if q :| |q| == n && Waits(lens, q) { var s := WaitsForLonger(ty, lens, q); }
    if s: nat :| s < |lens| && lens[s] > n {
      BeginningWaits(lens, s, n);
      assert |SymBits(lens, s)[..n]| == n;
    }
  }
}
