/** Looking up the bits in hand in a decoding table reads the next symbol of the format, or tells
    that there are not enough of them. */
module Lookup {
  import opened Bits
  import opened Canonical
  import opened DecodeTable
  import opened Format
  import opened Codec
  import opened InflateTable
  import opened Feeding

  /** hold has exactly the bits q in it. */
  ghost predicate Holds(hold: nat, q: seq<bool>) { FromBits(q) == hold }

  /** The low bits of what is held are the first bits in hand. */
  lemma HeldLow(hold: nat, q: seq<bool>, n: nat)
    requires Holds(hold, q) && n <= |q|
    ensures FromBits(q[..n]) == Low(hold, n)
  {
    assert q == q[..n] + q[n..];
    FromBitsConcat(q[..n], q[n..]);
  }

  /** A symbol that the bits in hand start with is what the lookup finds. */
  lemma LookupFound(ty: CodeType, lens: seq<nat>, t: seq<Code>, root: nat, hold: nat, q: seq<bool>, s: nat)
    requires Decodes(t, root, ty, lens) && Holds(hold, q) && StartsWith(lens, s, q)
    ensures s < |lens| && Finds(t, root, hold, ty, s, lens[s])
  {
    hide RevCode, Low, FromBits, Pow2, LinksInside, Finds;
    HeldLow(hold, q, lens[s]);
  }

  /** Codes of at most one bit, none of which the bits in hand start with. */
  lemma LookupMissed(ty: CodeType, lens: seq<nat>, t: seq<Code>, root: nat, hold: nat, q: seq<bool>)
    requires Decodes(t, root, ty, lens) && Holds(hold, q) && q != []
    requires (forall s :: 0 <= s < |lens| ==> lens[s] <= 1) && forall s: nat :: !StartsWith(lens, s, q)
    ensures Resolve(t, root, hold) == (INVALID, 1)
  {
    hide RevCode, Low, FromBits, Pow2, LinksInside, Finds, Resolve;
    HeldLow(hold, q, 1);
    forall s: nat | s < |lens| && lens[s] > 0 ensures Low(hold, lens[s]) != RevCode(lens, s) {
      assert !StartsWith(lens, s, q);
    }
    assert Misses(lens, hold);
  }

  /** The lookup finds some symbol, or is of an incomplete code. */
  lemma LookupSome(ty: CodeType, lens: seq<nat>, t: seq<Code>, root: nat, hold: nat) returns (s: nat)
    requires Decodes(t, root, ty, lens) && GoodLens(ty, lens) && Resolve(t, root, hold) != (INVALID, 1)
    ensures s < |lens| && lens[s] > 0 && Low(hold, lens[s]) == RevCode(lens, s) && Finds(t, root, hold, ty, s, lens[s])
  {
    hide RevCode, Low, Pow2, LinksInside, Finds, Resolve, GoodLens;
    assert !Misses(lens, hold);
    s :| 0 <= s < |lens| && lens[s] > 0 && Low(hold, lens[s]) == RevCode(lens, s);
  }

  lemma FindsParts(t: seq<Code>, root: nat, hold: nat, ty: CodeType, s: nat, l: nat)
    requires LinksInside(t, root) && s < MaxSyms(ty) && Finds(t, root, hold, ty, s, l)
    ensures var (e, n) := Resolve(t, root, hold); n == l && e.op == Entry(ty, s, l).op && e.val == Entry(ty, s, l).val
  {
  }

  lemma IncompleteLens(ty: CodeType, lens: seq<nat>)
    requires GoodLens(ty, lens) && Kraft(lens) < Pow2(MAXBITS)
    ensures forall s :: 0 <= s < |lens| ==> lens[s] <= 1
  {
    hide Kraft, Pow2;
  }

  /** A lookup that needs no more bits than are in hand reads the symbol that the format reads. */
  ghost predicate Agrees(ty: CodeType, e: Code, n: nat, r: Symbol) {
    match r
    case Found(s, k) => k == n && s < MaxSyms(ty) && e.op == Entry(ty, s, n).op && e.val == Entry(ty, s, n).val
    case Invalid => e == INVALID && n == 1
    case More => false
  }

  /** The lookup takes 1 to 15 bits. If those are in hand, it reads what the format reads; if not,
      no symbol can be read yet. */
  lemma LookupSym(ty: CodeType, lens: seq<nat>, t: seq<Code>, root: nat, hold: nat, q: seq<bool>)
    requires GoodLens(ty, lens) && Decodes(t, root, ty, lens) && Holds(hold, q)
    ensures var (e, n) := Resolve(t, root, hold);
            1 <= n <= MAXBITS && if n <= |q| then Agrees(ty, e, n, DecodeSym(lens, q)) else DecodeSym(lens, q) == More
  {
    hide RevCode, Low, FromBits, Pow2, Kraft, StartsWith, LinksInside, Finds, Resolve, Entry, Decodes, Acceptable;
    DecodesParts(t, root, ty, lens);
    GoodKraft(ty, lens);
    if s: nat :| StartsWith(lens, s, q) {
      LookupFound(ty, lens, t, root, hold, q, s);
      FindsParts(t, root, hold, ty, s, lens[s]);
      StartsLength(lens, s, q);
      StartsWithUnique(lens, s, DecodeSym(lens, q).s, q);
    } else if Kraft(lens) < Pow2(MAXBITS) && q != [] {
      IncompleteLens(ty, lens);
      LookupMissed(ty, lens, t, root, hold, q);
    } else {
      NotYet(ty, lens, t, root, hold, q);
    }
  }

  lemma GoodKraft(ty: CodeType, lens: seq<nat>)
    requires GoodLens(ty, lens)
    ensures ValidLens(lens) && Kraft(lens) <= Pow2(MAXBITS)
  {
    hide Kraft, Pow2;
  }

  lemma StartsHeld(lens: seq<nat>, s: nat, hold: nat, q: seq<bool>)
    requires s < |lens| && 0 < lens[s] <= |q| && Low(hold, lens[s]) == RevCode(lens, s) && Holds(hold, q)
    ensures StartsWith(lens, s, q)
  {
    hide RevCode, Low, FromBits;
    HeldLow(hold, q, lens[s]);
  }

  lemma DecodesParts(t: seq<Code>, root: nat, ty: CodeType, lens: seq<nat>)
    requires Decodes(t, root, ty, lens)
    ensures LinksInside(t, root) && |lens| <= MaxSyms(ty)
  {
  }

  /** Without a symbol in hand, the lookup asks for more bits than there are. */
  lemma NotYet(ty: CodeType, lens: seq<nat>, t: seq<Code>, root: nat, hold: nat, q: seq<bool>)
    requires GoodLens(ty, lens) && Decodes(t, root, ty, lens) && Holds(hold, q)
    requires (forall s: nat :: !StartsWith(lens, s, q)) && (q == [] || Kraft(lens) >= Pow2(MAXBITS))
    ensures LinksInside(t, root) && |q| < Resolve(t, root, hold).1 <= MAXBITS && Resolve(t, root, hold).1 >= 1
  {
    hide RevCode, Low, FromBits, Pow2, Kraft, LinksInside, Finds, Resolve, Entry, StartsWith;
    DecodesParts(t, root, ty, lens);
    if q != [] && Resolve(t, root, hold) == (INVALID, 1) {
      assert Kraft(lens) == Pow2(MAXBITS);
      NoMiss(lens, hold);
      var s: nat :| s < |lens| && lens[s] > 0 && Low(hold, lens[s]) == RevCode(lens, s);
      assert Finds(t, root, hold, ty, s, lens[s]);
      FindsParts(t, root, hold, ty, s, lens[s]);
      StartsHeld(lens, s, hold, q);
    } else if Resolve(t, root, hold) != (INVALID, 1) {
      var s := LookupSome(ty, lens, t, root, hold);
      FindsParts(t, root, hold, ty, s, lens[s]);
      if lens[s] <= |q| { StartsHeld(lens, s, hold, q); }
    }
  }
}
