/** What the two-level decoding tables of inflate mean: table entries, the lookup that
    inflate performs on its bit accumulator, and the state of a table under construction. */
module DecodeTable {
  import opened Bits
  import opened Canonical

  /** One table entry: operation, code bits to drop, literal or base value or link offset. */
  datatype Code = Code(op: nat, bits: nat, val: nat)

  datatype CodeType = CODES | LENS | DISTS

  const LBASE: seq<nat> := [3, 4, 5, 6, 7, 8, 9, 10, 11, 13, 15, 17, 19, 23, 27, 31,
                            35, 43, 51, 59, 67, 83, 99, 115, 131, 163, 195, 227, 258, 0, 0]
  const LEXT: seq<nat> := [16, 16, 16, 16, 16, 16, 16, 16, 17, 17, 17, 17, 18, 18, 18, 18,
                           19, 19, 19, 19, 20, 20, 20, 20, 21, 21, 21, 21, 16, 68, 193]
  const DBASE: seq<nat> := [1, 2, 3, 4, 5, 7, 9, 13, 17, 25, 33, 49, 65, 97, 129, 193,
                            257, 385, 513, 769, 1025, 1537, 2049, 3073, 4097, 6145,
                            8193, 12289, 16385, 24577, 0, 0]
  const DEXT: seq<nat> := [16, 16, 16, 16, 17, 17, 18, 18, 19, 19, 20, 20, 21, 21, 22, 22,
                           23, 23, 24, 24, 25, 25, 26, 26, 27, 27,
                           28, 28, 29, 29, 64, 64]

  /** How many symbols a code of each type can have. */
  function MaxSyms(ty: CodeType): nat {
    match ty case CODES => 19 case LENS => 288 case DISTS => 32
  }

  /** The first symbol of each type that has a base and extra bits. */
  function MatchFrom(ty: CodeType): nat {
    match ty case CODES => 20 case LENS => 257 case DISTS => 0
  }

  /** The entry for symbol sym when nbits of its code remain to be dropped. */
  function Entry(ty: CodeType, sym: nat, nbits: nat): (e: Code)
    requires sym < MaxSyms(ty)
    ensures e.bits == nbits && (e.op == 0 || e.op >= 16)
  {
    if sym + 1 < MatchFrom(ty) then Code(0, nbits, sym)
    else if sym >= MatchFrom(ty) then
      if ty == LENS then
        ExtAtLeast16(sym - 257);
        Code(LEXT[sym - 257], nbits, LBASE[sym - 257])
      else
        ExtAtLeast16(sym);
        Code(DEXT[sym], nbits, DBASE[sym])
    else Code(96, nbits, 0)
  }

  lemma ExtAtLeast16(i: nat)
    ensures i < 31 ==> LEXT[i] >= 16
    ensures i < 32 ==> DEXT[i] >= 16
  {
  }

  const INVALID: Code := Code(64, 1, 0)

  predicate IsLink(e: Code) { e.op != 0 && e.op < 16 }

  /** The entry i places into the table that starts at base. */
  function Slot(c: seq<Code>, base: nat, i: nat): Code
    requires base + i < |c|
  {
    c[base + i]
  }

  /** Every link of the root table takes the root index bits and leads to a table inside t. */
  ghost predicate LinksInside(t: seq<Code>, root: nat) {
    Pow2(root) <= |t| &&
    forall i :: 0 <= i < Pow2(root) && IsLink(t[i]) ==> t[i].bits == root && t[i].val + Pow2(t[i].op) <= |t|
  }

  ghost predicate NoLinks(t: seq<Code>, root: nat) {
    Pow2(root) <= |t| && forall i :: 0 <= i < Pow2(root) ==> !IsLink(t[i])
  }

  /** What inflate finds for accumulator contents w, and how many bits of w that takes. */
  ghost function Resolve(t: seq<Code>, root: nat, w: nat): (Code, nat)
    requires LinksInside(t, root)
  {
    var here := t[Low(w, root)];
    if IsLink(here) then
      var next := Slot(t, here.val, Low(High(w, root), here.op));
      (next, here.bits + next.bits)
    else (here, here.bits)
  }

  /** The lookup of w finds symbol s, of length l. */
  ghost predicate Finds(t: seq<Code>, root: nat, w: nat, ty: CodeType, s: nat, l: nat)
    requires LinksInside(t, root) && s < MaxSyms(ty)
  {
    var (e, n) := Resolve(t, root, w);
    n == l && e.op == Entry(ty, s, l).op && e.val == Entry(ty, s, l).val
  }

  /** The table decodes the canonical code of lens: whenever the accumulator starts with the code
      of a symbol, the lookup finds that symbol and its length; other contents are invalid. */
  ghost predicate Decodes(t: seq<Code>, root: nat, ty: CodeType, lens: seq<nat>) {
    |lens| <= MaxSyms(ty) && LinksInside(t, root) &&
    (forall s: nat, w: nat {:trigger Low(w, lens[s])} ::
       s < |lens| && lens[s] > 0 && Low(w, lens[s]) == RevCode(lens, s) ==>
      Finds(t, root, w, ty, s, lens[s])) &&
    (forall w: nat :: Misses(lens, w) ==> Resolve(t, root, w) == (INVALID, 1))
  }

  /** The accumulator w does not start with any code of lens. */
  ghost predicate Misses(lens: seq<nat>, w: nat) {
    forall s: nat {:trigger lens[s]} :: s < |lens| && lens[s] > 0 ==> Low(w, lens[s]) != RevCode(lens, s)
  }

  // ----- a table under construction -----

  /** The codes being entered: lengths in ascending order, their symbols, and the sizes. */
  ghost predicate ValidCodes(ty: CodeType, root: nat, ls: seq<nat>, syms: seq<nat>) {
    Ascending(ls) && |syms| == |ls| && PosAt(ls, |ls|) <= Pow2(MAXBITS) && 1 <= root <= MAXBITS &&
    forall k :: 0 <= k < |syms| ==> syms[k] < MaxSyms(ty)
  }

  /** Every slot of the 2^n from base whose index has the low l bits h holds e. */
  ghost predicate Filled(c: seq<Code>, base: nat, n: nat, l: nat, h: nat, e: Code) {
    base + Pow2(n) <= |c| &&
    forall i :: 0 <= i < Pow2(n) && Low(i, l) == h ==> Slot(c, base, i) == e
  }

  /** The code with length l and stream bits h, longer than the root index, is in a sub-table that
      its root entry links to; that table is either finished (below next) or the current one (of
      curr index bits, at next, for the root index low). */
  ghost predicate PlacedLong(c: seq<Code>, tab: nat, root: nat, ty: CodeType, sym: nat, l: nat, h: nat,
                             low: nat, curr: nat, next: nat)
    requires sym < MaxSyms(ty) && root < l
  {
    tab + Pow2(root) <= |c| &&
    var link := Slot(c, tab, Low(h, root));
    IsLink(link) && link.bits == root && l <= root + link.op && Pow2(root) <= link.val &&
    (link.val + Pow2(link.op) <= next || (Low(h, root) == low && link.val == next && link.op == curr)) &&
    Filled(c, tab + link.val, link.op, l - root, High(h, root), Entry(ty, sym, l - root))
  }

  /** The code of sym is in the table. */
  ghost predicate Placed(c: seq<Code>, tab: nat, root: nat, ty: CodeType, sym: nat, l: nat, h: nat,
                         low: nat, curr: nat, next: nat)
    requires sym < MaxSyms(ty)
  {
    if l <= root then Filled(c, tab, root, l, h, Entry(ty, sym, l))
    else PlacedLong(c, tab, root, ty, sym, l, h, low, curr, next)
  }

  /** The first k codes are in a table of which used entries are taken; the table being filled
      has curr index bits and starts next entries after the root table's start. */
  ghost predicate Tables(c: seq<Code>, tab: nat, root: nat, ty: CodeType, ls: seq<nat>, syms: seq<nat>,
                         k: nat, drop: nat, low: nat, curr: nat, next: nat) {
    ValidCodes(ty, root, ls, syms) && k <= |ls| && tab + next + Pow2(curr) <= |c| &&
    (if drop == 0 then next == 0 && curr == root else drop == root && Pow2(root) <= next) &&
    forall j :: 0 <= j < k ==> Placed(c, tab, root, ty, syms[j], ls[j], HuffAt(ls, j), low, curr, next)
  }

  /** c' is c with e written to the slots of one table whose index has the low l bits h. */
  ghost predicate Written(c: seq<Code>, c': seq<Code>, base: nat, n: nat, l: nat, h: nat, e: Code) {
    base + Pow2(n) <= |c| && |c'| == |c| &&
    forall i :: 0 <= i < |c| ==>
      c'[i] == if base <= i < base + Pow2(n) && Low(i - base, l) == h then e else c[i]
  }

  lemma WrittenFilled(c: seq<Code>, c': seq<Code>, base: nat, n: nat, l: nat, h: nat, e: Code)
    requires Written(c, c', base, n, l, h, e)
    ensures Filled(c', base, n, l, h, e)
  {
    forall i | 0 <= i < Pow2(n) && Low(i, l) == h ensures Slot(c', base, i) == e {
      assert c'[base + i] == e;
    }
  }

  /** Writing slots for one code leaves alone those of another, which no index matches both. */
  lemma WrittenKeeps(c: seq<Code>, c': seq<Code>, base: nat, n: nat, l: nat, h: nat, e: Code,
                     base2: nat, n2: nat, l2: nat, h2: nat, e2: Code)
    requires Written(c, c', base, n, l, h, e) && Filled(c, base2, n2, l2, h2, e2)
    requires base2 + Pow2(n2) <= base || base + Pow2(n) <= base2 || (base == base2 && l2 <= l && Low(h, l2) != h2)
    ensures Filled(c', base2, n2, l2, h2, e2)
  {
    hide Low, Pow2;
    forall i | 0 <= i < Pow2(n2) && Low(i, l2) == h2 ensures Slot(c', base2, i) == e2 {
      assert Slot(c, base2, i) == e2;
      if base == base2 && l2 <= l { LowLow(i, l2, l); }
      assert c'[base2 + i] == c[base2 + i];
    }
  }

  /** Codes that agree on the root index but are not prefixes differ above it. */
  lemma DifferAbove(h: nat, l: nat, h': nat, root: nat)
    requires root <= l && h < Pow2(l) && Low(h', l) != h && Low(h, root) == Low(h', root)
    ensures Low(High(h', root), l - root) != High(h, root)
  {
    hide Low, High, Pow2, Shl;
    var x := Low(h', l);
    HighOfLow(h', root, l - root);
    LowLow(h', root, l);
    Split(x, root);
    Split(h, root);
  }

  /** A code already in the table survives the entry of one that it is not a prefix of. */
  lemma KeepsPlaced(c: seq<Code>, c': seq<Code>, tab: nat, root: nat, ty: CodeType, low: nat, curr: nat, next: nat,
                    drop: nat, sym: nat, l: nat, h: nat, l': nat, h': nat, e: Code)
    requires sym < MaxSyms(ty) && Placed(c, tab, root, ty, sym, l, h, low, curr, next)
    requires l <= l' && h < Pow2(l) && Low(h', l) != h
    requires if drop == 0 then next == 0 && l' <= root && curr == root
             else drop == root && l' > root && Pow2(root) <= next && low == Low(h', root)
    requires Written(c, c', tab + next, curr, l' - drop, High(h', drop), e)
    ensures Placed(c', tab, root, ty, sym, l, h, low, curr, next)
  {
    hide Low, Pow2, Entry, Filled, Written;
    if l <= root {
      WrittenKeeps(c, c', tab + next, curr, l' - drop, High(h', drop), e, tab, root, l, h, Entry(ty, sym, l));
    } else {
      KeepsLong(c, c', tab, root, ty, low, curr, next, sym, l, h, l', h', e);
    }
  }

  lemma KeepsLong(c: seq<Code>, c': seq<Code>, tab: nat, root: nat, ty: CodeType, low: nat, curr: nat, next: nat,
                  sym: nat, l: nat, h: nat, l': nat, h': nat, e: Code)
    requires sym < MaxSyms(ty) && root < l && PlacedLong(c, tab, root, ty, sym, l, h, low, curr, next)
    requires l <= l' && h < Pow2(l) && Low(h', l) != h && Pow2(root) <= next && low == Low(h', root)
    requires Written(c, c', tab + next, curr, l' - root, High(h', root), e)
    ensures PlacedLong(c', tab, root, ty, sym, l, h, low, curr, next)
  {
    hide Low, High, Pow2, Entry, Filled, Written;
    var link := Slot(c, tab, Low(h, root));
    SlotOutside(c, c', tab + next, curr, l' - root, High(h', root), e, tab, Low(h, root));
    if Low(h, root) == low { DifferAbove(h, l, h', root); }
    WrittenKeeps(c, c', tab + next, curr, l' - root, High(h', root), e,
                 tab + link.val, link.op, l - root, High(h, root), Entry(ty, sym, l - root));
  }

  lemma SlotOutside(c: seq<Code>, c': seq<Code>, base: nat, n: nat, l: nat, h: nat, e: Code, tab: nat, i: nat)
    requires Written(c, c', base, n, l, h, e) && tab + i < base
    ensures tab + i < |c| && |c'| == |c| && Slot(c', tab, i) == Slot(c, tab, i)
  {
    hide Low, Pow2;
    assert c'[tab + i] == c[tab + i];
  }

  /** The code just written is in the table. */
  lemma NowPlaced(c: seq<Code>, c': seq<Code>, tab: nat, root: nat, ty: CodeType, low: nat, curr: nat, next: nat,
                  drop: nat, sym: nat, l: nat, h: nat)
    requires sym < MaxSyms(ty) && 1 <= curr < 16 && tab + next + Pow2(curr) <= |c|
    requires if drop == 0 then next == 0 && l <= root && curr == root
             else drop == root && root < l <= root + curr && Pow2(root) <= next && low == Low(h, root) &&
                  Slot(c, tab, low) == Code(curr, root, next)
    requires Written(c, c', tab + next, curr, l - drop, High(h, drop), Entry(ty, sym, l - drop))
    ensures Placed(c', tab, root, ty, sym, l, h, low, curr, next)
  {
    hide Low, Pow2, Entry, Filled;
    WrittenFilled(c, c', tab + next, curr, l - drop, High(h, drop), Entry(ty, sym, l - drop));
    if drop != 0 {
      SlotOutside(c, c', tab + next, curr, l - drop, High(h, drop), Entry(ty, sym, l - drop), tab, low);
    }
  }

  /** A table that the slot at p is not a matching part of does not notice a write there. */
  lemma FilledUpdate(c: seq<Code>, base: nat, n: nat, l: nat, h: nat, e: Code, p: nat, v: Code)
    requires Filled(c, base, n, l, h, e) && p < |c|
    requires base <= p ==> Low(p - base, l) != h
    ensures Filled(c[p := v], base, n, l, h, e)
  {
    hide Low, Pow2;
    var c' := c[p := v];
    forall i | 0 <= i < Pow2(n) && Low(i, l) == h ensures Slot(c', base, i) == e {
      assert Slot(c, base, i) == e;
    }
  }

  /** Linking a new sub-table from a root slot that no code in the table uses. */
  lemma LinkKeeps(c: seq<Code>, tab: nat, root: nat, ty: CodeType, low: nat, curr: nat, next: nat,
                  sym: nat, l: nat, h: nat, low': nat, curr': nat, link': Code)
    requires sym < MaxSyms(ty) && Placed(c, tab, root, ty, sym, l, h, low, curr, next)
    requires low' < Pow2(root) && (if l <= root then Low(low', l) != h else Low(h, root) != low')
    requires tab + next + Pow2(curr) <= |c| && tab + low' < |c|
    ensures Placed(c[tab + low' := link'], tab, root, ty, sym, l, h, low', curr', next + Pow2(curr))
  {
    hide Low, High, Pow2, Entry, Filled;
    if l <= root {
      FilledUpdate(c, tab, root, l, h, Entry(ty, sym, l), tab + low', link');
    } else {
      var link := Slot(c, tab, Low(h, root));
      assert Slot(c[tab + low' := link'], tab, Low(h, root)) == link;
      FilledUpdate(c, tab + link.val, link.op, l - root, High(h, root), Entry(ty, sym, l - root), tab + low', link');
    }
  }

  /** A placed code is what the lookup finds for any accumulator whose low bits are its code. */
  lemma PlacedResolves(c: seq<Code>, tab: nat, root: nat, ty: CodeType, sym: nat, l: nat, h: nat,
                       low: nat, curr: nat, next: nat, t: seq<Code>, w: nat)
    requires sym < MaxSyms(ty) && Placed(c, tab, root, ty, sym, l, h, low, curr, next)
    requires tab + next + Pow2(curr) <= |c| && t == c[tab..tab + next + Pow2(curr)]
    requires Low(w, l) == h && LinksInside(t, root)
    ensures Finds(t, root, w, ty, sym, l)
  {
    hide Low, High, Pow2;
    if l <= root {
      LowLow(w, l, root);
      assert Slot(c, tab, Low(w, root)) == Entry(ty, sym, l);
      assert t[Low(w, root)] == c[tab + Low(w, root)];
    } else {
      LongResolves(c, tab, root, ty, sym, l, h, low, curr, next, t, w);
    }
  }

  lemma LongResolves(c: seq<Code>, tab: nat, root: nat, ty: CodeType, sym: nat, l: nat, h: nat,
                     low: nat, curr: nat, next: nat, t: seq<Code>, w: nat)
    requires sym < MaxSyms(ty) && root < l && PlacedLong(c, tab, root, ty, sym, l, h, low, curr, next)
    requires tab + next + Pow2(curr) <= |c| && t == c[tab..tab + next + Pow2(curr)]
    requires Low(w, l) == h && LinksInside(t, root)
    ensures Resolve(t, root, w) == (Entry(ty, sym, l - root), l)
  {
    hide Low, High, Pow2, Entry;
    var link := Slot(c, tab, Low(h, root));
    LowLow(w, root, l);
    assert t[Low(w, root)] == c[tab + Low(h, root)];
    HighOfLow(w, root, l - root);
    LowLow(High(w, root), l - root, link.op);
    var i := Low(High(w, root), link.op);
    assert Low(i, l - root) == High(h, root);
    assert Slot(c, tab + link.val, i) == Entry(ty, sym, l - root);
    assert Slot(t, link.val, i) == c[tab + link.val + i];
  }

  /** The root slot that a placed code starts in does not link outside the table. */
  lemma PlacedInside(c: seq<Code>, tab: nat, root: nat, ty: CodeType, sym: nat, l: nat, h: nat,
                     low: nat, curr: nat, next: nat, i: nat)
    requires sym < MaxSyms(ty) && Placed(c, tab, root, ty, sym, l, h, low, curr, next)
    requires i < Pow2(root) && Low(i, l) == h
    ensures tab + i < |c|
    ensures IsLink(c[tab + i]) ==>
              c[tab + i].bits == root && c[tab + i].val + Pow2(c[tab + i].op) <= next + Pow2(curr)
  {
    hide Low, High, Pow2;
    if l <= root {
      assert Slot(c, tab, i) == Entry(ty, sym, l);
    } else {
      LowLow(i, root, l);
      LowSmall(i, root);
      assert Slot(c, tab, i) == c[tab + i];
    }
  }
}
