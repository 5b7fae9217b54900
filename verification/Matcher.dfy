/** The sliding window and the hash chains of deflate.c: fill_window, slide_hash, INSERT_STRING and
    longest_match. Positions in the window are also positions in the stream of all input read so
    far: window index i is stream position base + i. */
module Matcher {
  import opened Bits
  import opened BitWriter
  import opened Adler
  import opened Hash

  const MIN_MATCH: nat := 3
  const MAX_MATCH: nat := 258
  const MIN_LOOKAHEAD: nat := 262
  const NIL: nat := 0

  /** i & w_mask, for window positions. */
  function Slot(i: nat, wSize: nat): (s: nat)
    ensures i < 2 * wSize ==> s < wSize
  {
    if i < wSize then i else i - wSize
  }

  // ----- what the arrays mean -----

  /** The first n bytes of the window are the end of the stream. */
  ghost predicate Mirrors(window: seq<Byte>, stream: seq<Byte>, base: nat, n: nat) {
    n <= |window| && base + n == |stream| && forall i :: 0 <= i < n ==> window[i] == stream[base + i]
  }

  /** Bytes read to the window after its contents. */
  lemma MirrorsMore(w0: seq<Byte>, w1: seq<Byte>, stream: seq<Byte>, more: seq<Byte>, base: nat, at: nat)
    requires Mirrors(w0, stream, base, at) && |w1| == |w0| && at + |more| <= |w1|
    requires forall k :: 0 <= k < at ==> w1[k] == w0[k]
    requires forall k :: 0 <= k < |more| ==> w1[at + k] == more[k]
    ensures Mirrors(w1, stream + more, base, at + |more|)
  {
    forall k | at <= k < at + |more| ensures w1[k] == more[k - at] { assert w1[at + (k - at)] == more[k - at]; }
  }

  /** The three bytes at a position have hash h. */
  ghost predicate Hashed(p: Params, stream: seq<Byte>, pos: nat, h: nat) {
    pos + 2 < |stream| && Hash3(p, stream[pos], stream[pos + 1], stream[pos + 2]) == h
  }

  ghost predicate SameHash(p: Params, stream: seq<Byte>, a: nat, b: nat) {
    exists h :: Hashed(p, stream, a, h) && Hashed(p, stream, b, h)
  }

  /** head[h] names the last inserted position with hash h, if the window still holds it. */
  ghost predicate Heads(p: Params, head: seq<nat>, stream: seq<Byte>, base: nat, ins: set<nat>) {
    (forall h :: 0 <= h < |head| && head[h] != NIL ==> base + head[h] in ins && Hashed(p, stream, base + head[h], h)) &&
    forall h, pos :: 0 <= h < |head| && pos in ins && base < pos && Hashed(p, stream, pos, h) ==> pos <= base + head[h]
  }

  /** q, a link from position pos, names the last earlier inserted position with the same hash, if the window
      still holds it. */
  ghost predicate Link(p: Params, stream: seq<Byte>, base: nat, ins: set<nat>, pos: nat, q: nat) {
    (q == NIL || (base + q in ins && base + q < pos && SameHash(p, stream, base + q, pos))) &&
    forall r :: r in ins && base < r < pos && SameHash(p, stream, r, pos) ==> r <= base + q
  }

  /** The links of the inserted positions less than a window below top are good. */
  ghost predicate Links(p: Params, prev: seq<nat>, stream: seq<Byte>, base: nat, ins: set<nat>, top: nat) {
    (forall pos :: pos in ins ==> pos < top) &&
    forall pos :: pos in ins && pos >= base && pos + |prev| >= top ==>
      pos - base < 2 * |prev| && Link(p, stream, base, ins, pos, prev[Slot(pos - base, |prev|)])
  }

  // ----- sliding -----

  function Dropped(m: nat, wSize: nat): nat { if m >= wSize then m - wSize else NIL }

  lemma HeadsSlide(p: Params, head: seq<nat>, head': seq<nat>, stream: seq<Byte>, base: nat, ins: set<nat>, wSize: nat)
    requires Heads(p, head, stream, base, ins) && |head'| == |head|
    requires forall h :: 0 <= h < |head| ==> head'[h] == Dropped(head[h], wSize)
    ensures Heads(p, head', stream, base + wSize, ins)
  {
    hide Hashed;
  }

  lemma LinksSlide(p: Params, prev: seq<nat>, prev': seq<nat>, stream: seq<Byte>, base: nat, ins: set<nat>, top: nat)
    requires Links(p, prev, stream, base, ins, top) && |prev'| == |prev|
    requires forall i :: 0 <= i < |prev| ==> prev'[i] == Dropped(prev[i], |prev|)
    ensures Links(p, prev', stream, base + |prev|, ins, top)
  {
    hide SameHash;
  }

  /** More input after the stream changes nothing about what is hashed. */
  lemma HashedMore(p: Params, stream: seq<Byte>, more: seq<Byte>, pos: nat, h: nat)
    requires Hashed(p, stream, pos, h)
    ensures Hashed(p, stream + more, pos, h)
  {
  }

  /** Nor can it give a new hash to what is already there. */
  lemma HashedBefore(p: Params, stream: seq<Byte>, more: seq<Byte>, pos: nat, h: nat)
    requires Hashed(p, stream + more, pos, h) && pos + 2 < |stream|
    ensures Hashed(p, stream, pos, h)
  {
  }

  lemma SameHashBefore(p: Params, stream: seq<Byte>, more: seq<Byte>, a: nat, b: nat)
    requires SameHash(p, stream + more, a, b) && a + 2 < |stream| && b + 2 < |stream|
    ensures SameHash(p, stream, a, b)
  {
    hide Hashed;
    var h :| Hashed(p, stream + more, a, h) && Hashed(p, stream + more, b, h);
    HashedBefore(p, stream, more, a, h);
    HashedBefore(p, stream, more, b, h);
  }

  lemma ChainsMore(p: Params, head: seq<nat>, prev: seq<nat>, stream: seq<Byte>, more: seq<Byte>, base: nat,
                   ins: set<nat>, top: nat)
    requires Heads(p, head, stream, base, ins) && Links(p, prev, stream, base, ins, top)
    requires top == 0 || top + 2 <= |stream|
    ensures Heads(p, head, stream + more, base, ins) && Links(p, prev, stream + more, base, ins, top)
  {
    hide Hashed;
    forall h | 0 <= h < |head| && head[h] != NIL ensures Hashed(p, stream + more, base + head[h], h) {
      HashedMore(p, stream, more, base + head[h], h);
    }
    forall h, pos | 0 <= h < |head| && pos in ins && base < pos && Hashed(p, stream + more, pos, h)
      ensures pos <= base + head[h]
    {
      HashedBefore(p, stream, more, pos, h);
    }
    forall pos | pos in ins && pos >= base && pos + |prev| >= top
      ensures Link(p, stream + more, base, ins, pos, prev[Slot(pos - base, |prev|)])
    {
      var q := prev[Slot(pos - base, |prev|)];
      if q != NIL {
        var h :| Hashed(p, stream, base + q, h) && Hashed(p, stream, pos, h);
        HashedMore(p, stream, more, base + q, h);
        HashedMore(p, stream, more, pos, h);
      }
      forall r | r in ins && base < r < pos && SameHash(p, stream + more, r, pos) ensures r <= base + q {
        SameHashBefore(p, stream, more, r, pos);
      }
    }
  }

  // ----- inserting -----

  lemma OneHash(p: Params, stream: seq<Byte>, pos: nat, g: nat, h: nat)
    requires Hashed(p, stream, pos, g) && Hashed(p, stream, pos, h)
    ensures g == h
  {
  }

  lemma HeadsInsert(p: Params, head: seq<nat>, stream: seq<Byte>, base: nat, ins: set<nat>, str: nat, h: nat)
    requires Heads(p, head, stream, base, ins) && h < |head| && Hashed(p, stream, base + str, h)
    requires forall pos :: pos in ins ==> pos <= base + str
    ensures Heads(p, head[h := str], stream, base, ins + {base + str})
  {
    hide Hashed;
    var at := base + str;
    forall g | Hashed(p, stream, at, g) ensures g == h { OneHash(p, stream, at, g, h); }
  }

  /** The slots of positions less than a window apart are different. */
  lemma OtherSlot(a: int, b: int, wSize: nat)
    requires 0 <= a < b < 2 * wSize && b - a < wSize
    ensures 0 <= Slot(a, wSize) < wSize && 0 <= Slot(b, wSize) < wSize && Slot(a, wSize) != Slot(b, wSize)
  {
  }

  lemma LinkMore(p: Params, stream: seq<Byte>, base: nat, ins: set<nat>, more: nat, pos: nat, q: nat)
    requires Link(p, stream, base, ins, pos, q) && more >= pos
    ensures Link(p, stream, base, ins + {more}, pos, q)
  {
    hide SameHash;
  }

  lemma LinksInsert(p: Params, prev: seq<nat>, stream: seq<Byte>, base: nat, ins: set<nat>, top: nat, str: nat, q: nat)
    requires Links(p, prev, stream, base, ins, top) && top <= base + str && str < 2 * |prev|
    requires Link(p, stream, base, ins, base + str, q)
    ensures Slot(str, |prev|) < |prev|
    ensures Links(p, prev[Slot(str, |prev|) := q], stream, base, ins + {base + str}, base + str + 1)
  {
    hide Link, Slot;
    var prev' := prev[Slot(str, |prev|) := q];
    var ins' := ins + {base + str};
    forall pos | pos in ins' && pos >= base && pos + |prev| >= base + str + 1
      ensures pos - base < 2 * |prev| && Link(p, stream, base, ins', pos, prev'[Slot(pos - base, |prev|)])
    {
      if pos == base + str {
        LinkMore(p, stream, base, ins, base + str, pos, q);
      } else {
        OtherSlot(pos - base, str, |prev|);
        LinkMore(p, stream, base, ins, base + str, pos, prev[Slot(pos - base, |prev|)]);
      }
    }
  }

  // ----- matches -----

  /** Bytes k after two positions are the same. */
  ghost predicate SameByte(s: seq<Byte>, a: int, b: int, k: int) {
    0 <= a + k < |s| && 0 <= b + k < |s| && s[a + k] == s[b + k]
  }

  /** The len bytes at pos are those at from, at most a window before; they may overlap. */
  ghost predicate MatchAt(stream: seq<Byte>, pos: int, from: int, len: int) {
    0 <= from < pos && pos - from <= 32768 && pos + len <= |stream| &&
    forall k :: 0 <= k < len ==> SameByte(stream, from, pos, k)
  }

  ghost predicate SameIn(w: seq<Byte>, a: nat, b: nat, k: int) {
    0 <= k && a + k < |w| && b + k < |w| && w[a + k] == w[b + k]
  }

  /** The first len bytes at two places of the window are the same. */
  ghost predicate SameRun(w: seq<Byte>, a: nat, b: nat, len: nat) {
    forall k :: 0 <= k < len ==> SameIn(w, a, b, k)
  }

  /** The positions that a search of at most chain steps comes to: from cur down the links, as long as
      they are above the limit. */
  function Walk(prev: seq<nat>, cur: nat, limit: nat, chain: nat): seq<nat>
    decreases chain
  {
    var i := Slot(cur, |prev|);
    [cur] + if i < |prev| && prev[i] > limit && chain > 1 then Walk(prev, prev[i], limit, chain - 1) else []
  }

  lemma WalkNext(prev: seq<nat>, seen: seq<nat>, cur: nat, limit: nat, chain: nat)
    requires Slot(cur, |prev|) < |prev|
    ensures var next := prev[Slot(cur, |prev|)];
            seen + Walk(prev, cur, limit, chain) ==
            (seen + [cur]) + if next > limit && chain > 1 then Walk(prev, next, limit, chain - 1) else []
  {
  }

  /** The length at which a match of a nearer string would have been preferred to one of len: that of another as long,
      or of one that is nice enough to end the search. */
  function Rival(prevLength: nat, len: nat, nice: nat): nat {
    var r := if len <= nice then len else nice;
    if r > prevLength then r else prevLength + 1
  }

  /** The strings from lo up to hi have been inserted, and no others. */
  ghost predicate Grew(before: set<nat>, ins: set<nat>, lo: int, hi: int) {
    forall p :: p in ins <==> p in before || lo <= p < hi
  }

  /** After the nearer of two positions. */
  function UpTo(a: int, b: int): int { (if a <= b then a else b) + 1 }

  lemma GrewNone(ins: set<nat>, lo: int, hi: int)
    requires hi <= lo
    ensures Grew(ins, ins, lo, hi)
  {
  }

  lemma GrewOne(before: set<nat>, ins: set<nat>, lo: int, hi: nat)
    requires Grew(before, ins, lo, hi) && lo <= hi
    ensures Grew(before, ins + {hi}, lo, hi + 1)
  {
  }

  /** hash_bits and hash_shift for a memLevel. */
  function HashFor(memLevel: nat): Params { Params(memLevel + 7, (memLevel + 7 + MIN_MATCH - 1) / MIN_MATCH) }

  class Matcher {
    const wSize: nat
    const hash: Params
    const window: array<Byte>
    const prev: array<nat>
    const head: array<nat>
    var strstart: nat
    var lookahead: nat
    var matchStart: int
    var blockStart: int
    var insert: nat
    var insH: nat
    var input: seq<Byte>          // next_in and avail_in
    var adler: nat                // of all input read so far
    ghost var stream: seq<Byte>   // all input read so far
    ghost var base: nat           // stream position of window index 0
    ghost var ins: set<nat>       // stream positions entered in the hash chains
    ghost var top: nat            // above all of them

    /** lm_init, with an empty hash table. */
    constructor (wBits: nat, memLevel: nat)
      requires 9 <= wBits <= 15 && 1 <= memLevel <= 9
      ensures Valid() && Rolled() && stream == [] && input == [] && base == 0 && strstart == 0 && lookahead == 0
      ensures blockStart == 0
      ensures wSize == Shl(1, wBits) && hash == HashFor(memLevel) && insert == 0
      ensures fresh(window) && fresh(head) && fresh(prev) && Summed()
    {
      hide Shl, Pow2;
      WindowSizes(wBits);
      wSize := Shl(1, wBits);
      hash := HashFor(memLevel);
      window := new Byte[2 * Shl(1, wBits)];
      prev := new nat[Shl(1, wBits)];
      head := new nat[Pow2(memLevel + 7)](_ => NIL);
      strstart, lookahead, matchStart, blockStart, insert, insH, input, adler := 0, 0, 0, 0, 0, 0, [], 1;
      stream, base, ins, top := [], 0, {}, 0;
      new;
      assert forall h :: 0 <= h < head.Length ==> head[..][h] == NIL;
    }

    ghost predicate Shape() {
      512 <= wSize <= 32768 && window.Length == 2 * wSize && prev.Length == wSize && prev != head &&
      ValidParams(hash) && head.Length == Pow2(hash.bits)
    }

    /** The check value is that of the input read. */
    ghost predicate Summed()
      reads this`adler, this`stream
    {
      adler == Adler32Of(stream)
    }

    /** MAX_DIST */
    function MaxDist(): int { wSize - MIN_LOOKAHEAD }

    ghost predicate Valid()
      reads this, window, prev, head
    {
      Shape() && Mirrors(window[..], stream, base, strstart + lookahead) &&
      Heads(hash, head[..], stream, base, ins) && Links(hash, prev[..], stream, base, ins, top) &&
      insert <= strstart && top <= base + strstart + 1 && (top == 0 || top + 2 <= |stream|) &&
      (base > 0 ==> strstart >= MaxDist())
    }

    /** Nothing from the strings still to be inserted on is inserted. */
    ghost predicate Clear()
      reads this`top, this`insert, this`base, this`strstart
    {
      top + insert <= base + strstart
    }

    /** There is no input yet for the strings still to be inserted. */
    ghost predicate Waiting()
      reads this`insert, this`lookahead
    {
      insert == 0 || insert + lookahead < MIN_MATCH
    }

    /** The hash is ready for the string at strstart, and nothing from there on is inserted. */
    ghost predicate Rolled()
      reads this`top, this`insert, this`base, this`strstart, this`lookahead, this`insH, window
    {
      Clear() && Waiting() &&
      (lookahead >= MIN_MATCH ==>
         strstart + 1 < window.Length && Rolling(hash, insH, window[strstart], window[strstart + 1]))
    }

    // ----- fill_window -----

    /** slide_hash */
    method SlideHash()
      requires Shape()
      modifies head, prev
      ensures forall h :: 0 <= h < head.Length ==> head[h] == Dropped(old(head[h]), wSize)
      ensures forall i :: 0 <= i < prev.Length ==> prev[i] == Dropped(old(prev[i]), wSize)
    {
      hide Pow2;
      var n := head.Length;
      while n > 0
        invariant 0 <= n <= head.Length && prev[..] == old(prev[..])
        invariant forall h :: 0 <= h < head.Length ==> head[h] == if h < n then old(head[h])
                                                                  else Dropped(old(head[h]), wSize)
      {
        n := n - 1;
        var m := head[n];
        head[n] := if m >= wSize then m - wSize else NIL;
      }
      n := wSize;
      while n > 0
        invariant 0 <= n <= wSize
        invariant forall h :: 0 <= h < head.Length ==> head[h] == Dropped(old(head[h]), wSize)
        invariant forall i :: 0 <= i < prev.Length ==> prev[i] == if i < n then old(prev[i])
                                                                  else Dropped(old(prev[i]), wSize)
      {
        n := n - 1;
        var m := prev[n];
        prev[n] := if m >= wSize then m - wSize else NIL;
      }
    }

    /** Copy n bytes from the upper half of the window to the lower one. */
    method MoveDown(n: nat)
      requires window.Length == 2 * wSize && n <= wSize
      modifies window
      ensures forall k :: 0 <= k < n ==> window[k] == old(window[k + wSize])
    {
      var i := 0;
      while i < n
        invariant 0 <= i <= n
        invariant forall k :: 0 <= k < i ==> window[k] == old(window[k + wSize])
        invariant forall k :: wSize <= k < 2 * wSize ==> window[k] == old(window[k])
      {
        window[i] := window[i + wSize];
        i := i + 1;
      }
    }

    /** Move the upper half of the window to the lower one: every index names the same stream
        position as before, or is forgotten. */
    method Slide(more: nat)
      requires Valid() && strstart >= wSize + MaxDist() && more == 2 * wSize - lookahead - strstart
      modifies this`matchStart, this`strstart, this`blockStart, this`insert, this`base, window, head, prev
      ensures Valid() && base == old(base) + wSize && base + strstart == old(base + strstart)
      ensures base + matchStart == old(base + matchStart) && base + blockStart == old(base + blockStart)
      ensures insert == if old(insert) > strstart then strstart else old(insert)
      ensures forall i :: 0 <= i < strstart + lookahead ==> window[i] == old(window[i + wSize])
    {
      hide Pow2, Heads, Links, ValidParams;
      ghost var h0: seq<nat>, p0: seq<nat> := head[..], prev[..];
      MoveDown(wSize - more);
      matchStart := matchStart - wSize;
      strstart := strstart - wSize;
      blockStart := blockStart - wSize;
      base := base + wSize;
      if insert > strstart { insert := strstart; }
      SlideHash();
      HeadsSlide(hash, h0, head[..], stream, base - wSize, ins, wSize);
      LinksSlide(hash, p0, prev[..], stream, base - wSize, ins, top);
    }

    /** read_buf: read up to size bytes to the window after the lookahead. */
    method ReadBuf(size: nat) returns (n: nat)
      requires Valid() && Summed() && strstart + lookahead + size <= 2 * wSize
      modifies this`input, this`stream, this`lookahead, this`adler, window
      ensures Valid() && Summed() && n == (if |old(input)| < size then |old(input)| else size)
      ensures lookahead == old(lookahead) + n && input == old(input)[n..] && stream == old(stream) + old(input)[..n]
      ensures forall i :: 0 <= i < strstart + old(lookahead) ==> window[i] == old(window[i])
    {
      hide Pow2, Heads, Links, ValidParams, Adler32Of, Mirrors;
      MirrorsBound();
      n := if |input| > size then size else |input|;
      ghost var w0: seq<Byte>, at := window[..], strstart + lookahead;
      var i := 0;
      while i < n
        modifies window
        invariant 0 <= i <= n
        invariant forall k :: 0 <= k < at ==> window[k] == w0[k]
        invariant forall k :: 0 <= k < i ==> window[at + k] == input[k]
      {
        window[strstart + lookahead + i] := input[i];
        i := i + 1;
      }
      adler := AdlerMore(adler, stream, input[..n]);
      ChainsMore(hash, head[..], prev[..], stream, input[..n], base, ins, top);
      MirrorsMore(w0, window[..], stream, input[..n], base, at);
      stream := stream + input[..n];
      input := input[n..];
      lookahead := lookahead + n;
    }

    /** INSERT_STRING: enter the string at str in the hash chains; matchHead is the chain it heads. */
    method InsertString(str: nat) returns (matchHead: nat)
      requires Valid() && str + 2 < strstart + lookahead && top <= base + str && str <= strstart
      requires Rolling(hash, insH, window[str], window[str + 1])
      modifies this`insH, this`ins, this`top, head, prev
      ensures Valid() && top == base + str + 1 && Rolling(hash, insH, window[str + 1], window[str + 2])
      ensures Link(hash, stream, base, ins, base + str, matchHead) && ins == old(ins) + {base + str}
      ensures insH < head.Length && Hashed(hash, stream, base + str, insH) && matchHead == old(head[..])[insH]
      ensures head[..] == old(head[..])[insH := str]
      ensures str < 2 * wSize && prev[..] == old(prev[..])[Slot(str, wSize) := matchHead]
      ensures matchHead < strstart + lookahead
    {
      hide Pow2, Heads, Links, ValidParams, Hash3, Rolling, Update;
      ghost var h0: seq<nat>, p0: seq<nat> := head[..], prev[..];
      RollOn(hash, insH, window[str], window[str + 1], window[str + 2]);
      insH := Update(hash, insH, window[str + 2]);
      assert Hashed(hash, stream, base + str, insH);
      matchHead := head[insH];
      HeadLink(hash, h0, p0, stream, base, ins, top, str, insH);
      InsBelow(hash, p0, stream, base, ins, top);
      HeadsInsert(hash, h0, stream, base, ins, str, insH);
      LinksInsert(hash, p0, stream, base, ins, top, str, matchHead);
      prev[Slot(str, wSize)] := matchHead;
      assert prev[..] == p0[Slot(str, wSize) := matchHead];
      head[insH] := str;
      assert head[..] == h0[insH := str];
      ins := ins + {base + str};
      top := base + str + 1;
    }

    /** The strings that could not be inserted for want of input. */
    method InsertPending()
      requires Valid() && lookahead + insert >= MIN_MATCH && Clear()
      modifies this`insH, this`ins, this`top, this`insert, head, prev
      ensures Valid() && Rolled() && insert <= old(insert)
      ensures Grew(old(ins), ins, base + strstart - old(insert), base + strstart - insert)
    {
      hide Pow2, Heads, Links, ValidParams, Hash3, Rolling, Update, Link, Grew, Mirrors;
      var str := strstart - insert;
      MirrorsBound();
      insH := window[str];
      insH := Update(hash, insH, window[str + 1]);
      ShapeParams();
      RollStart(hash, window[str], window[str + 1]);
      GrewNone(ins, base + str, base + str);
      while insert > 0
        invariant Valid() && str == strstart - insert && top <= base + str && insert <= old(insert)
        invariant Grew(old(ins), ins, base + strstart - old(insert), base + str)
        invariant lookahead + insert >= MIN_MATCH && Rolling(hash, insH, window[str], window[str + 1])
        decreases insert
      {
        GrewOne(old(ins), ins, base + strstart - old(insert), base + str);
        var matchHead := InsertString(str);
        str := str + 1;
        insert := insert - 1;
        if lookahead + insert < MIN_MATCH { break; }
      }
    }

    /** Free space at the end of the window, after a slide if strstart has come too far. */
    method MakeRoom() returns (more: nat)
      requires Valid() && Clear() && lookahead < MIN_LOOKAHEAD
      modifies this`matchStart, this`strstart, this`blockStart, this`insert, this`base, window, head, prev
      ensures Valid() && Clear() && (old(Rolled()) ==> Rolled() && insert == old(insert))
      ensures strstart + MIN_LOOKAHEAD <= 2 * wSize && more == 2 * wSize - lookahead - strstart >= 2
      ensures base + strstart == old(base + strstart) && base + matchStart == old(base + matchStart)
      ensures base + blockStart == old(base + blockStart) && base >= old(base) && (old(strstart) >= 1 ==> strstart >= 1)
    {
      hide Pow2, Heads, Links, Rolling, Mirrors;
      MirrorsBound();
      more := 2 * wSize - lookahead - strstart;
      if strstart >= wSize + MaxDist() {
        Slide(more);
        more := more + wSize;
      }
    }

    /** Read, and make the hash ready again. */
    method ReadMore(more: nat)
      requires Valid() && Summed() && Clear() && strstart + lookahead + more <= 2 * wSize && more > 0 && input != []
      modifies this`lookahead, this`insert, this`insH, this`input, this`stream, this`adler, this`ins, this`top, window,
               head, prev
      ensures Valid() && Summed() && Rolled() && lookahead > old(lookahead) && insert <= old(insert)
      ensures Grew(old(ins), ins, base + strstart - old(insert), base + strstart - insert)
      ensures stream + input == old(stream) + old(input) && |input| < |old(input)| && |old(stream)| <= |stream|
    {
      hide Pow2, Heads, Links, Rolling, Mirrors, Summed;
      ghost var s1, i1 := stream, input;
      var n := ReadBuf(more);
      assert s1 + i1[..n] + i1[n..] == s1 + i1;
      if lookahead + insert >= MIN_MATCH { InsertPending(); }
    }

    /** fill_window: slide when the lookahead comes near the end of the window, and read. Stream
        positions do not move; strstart ends at least MIN_LOOKAHEAD below the end of the window. */
    method FillWindow()
      requires Valid() && Summed() && Clear() && lookahead < MIN_LOOKAHEAD
      modifies this`strstart, this`lookahead, this`matchStart, this`blockStart, this`insert, this`insH, this`input,
               this`stream, this`adler, this`base, this`ins, this`top, window, head, prev
      ensures Valid() && Summed() && Clear()
      ensures old(Rolled()) ==> Rolled() && insert <= old(insert) &&
                                Grew(old(ins), ins, base + strstart - old(insert), base + strstart - insert)
      ensures strstart + MIN_LOOKAHEAD <= 2 * wSize && (lookahead >= MIN_LOOKAHEAD || input == [])
      ensures base + strstart == old(base + strstart) && base + matchStart == old(base + matchStart)
      ensures base + blockStart == old(base + blockStart) && base >= old(base) && lookahead >= old(lookahead)
      ensures stream + input == old(stream) + old(input) && |old(stream)| <= |stream|
      ensures (old(strstart) >= 1 ==> strstart >= 1) && old(ins) <= ins
    {
      hide Pow2, Heads, Links, Rolling, Mirrors, Valid, Rolled, Summed;
      RolledTop();
      while true
        invariant Valid() && Summed() && Clear()
        invariant old(Rolled()) ==> Rolled() && insert <= old(insert) &&
                                    Grew(old(ins), ins, base + strstart - old(insert), base + strstart - insert)
        invariant base + strstart == old(base + strstart) && base + matchStart == old(base + matchStart)
        invariant base + blockStart == old(base + blockStart) && base >= old(base) && lookahead >= old(lookahead)
        invariant stream + input == old(stream) + old(input) && |old(stream)| <= |stream| && lookahead < MIN_LOOKAHEAD
        invariant (old(strstart) >= 1 ==> strstart >= 1) && old(ins) <= ins
        decreases |input|
      {
        var more := MakeRoom();
        if input == [] { break; }
        ReadMore(more);
        RolledTop();
        if !(lookahead < MIN_LOOKAHEAD && input != []) { break; }
      }
    }

    lemma RolledTop()
      ensures Rolled() ==> Clear()
    {
    }

    /** Move on by n bytes of the lookahead. */
    method Advance(n: nat)
      requires Valid() && n <= lookahead
      modifies this`strstart, this`lookahead
      ensures Valid() && strstart == old(strstart) + n && lookahead == old(lookahead) - n
    {
      hide Pow2, Heads, Links, Rolling, ValidParams;
      strstart := strstart + n;
      lookahead := lookahead - n;
    }

    /** The string at strstart has been inserted, if there is input for one, and the hash is ready for
        the next. */
    ghost predicate Inserted()
      reads this`top, this`insert, this`base, this`strstart, this`lookahead, this`insH, window
    {
      top + insert <= base + strstart + 1 && Waiting() &&
      if lookahead >= MIN_MATCH then
        top == base + strstart + 1 && strstart + 2 < window.Length &&
        Rolling(hash, insH, window[strstart + 1], window[strstart + 2])
      else Clear()
    }

    /** Insert the string at strstart; hashHead is the head of its chain. */
    method InsertHere() returns (hashHead: nat)
      requires Valid() && Rolled()
      modifies this`insH, this`ins, this`top, head, prev
      ensures Valid() && Inserted()
      ensures hashHead != NIL ==>
              lookahead >= MIN_MATCH && hashHead < strstart &&
              (strstart - hashHead <= MaxDist() ==> Candidate(hashHead))
      ensures if lookahead >= MIN_MATCH
              then Link(hash, stream, base, ins, base + strstart, hashHead) && ins == old(ins) + {base + strstart}
              else hashHead == NIL && ins == old(ins)
    {
      hide Pow2, Heads, Links, Rolling, ValidParams, Mirrors, SameHash;
      hashHead := NIL;
      if lookahead >= MIN_MATCH {
        MirrorsBound();
        hashHead := InsertString(strstart);
      }
    }

    /** strstart++ */
    method StepOn()
      requires Valid() && Inserted() && lookahead > 0
      modifies this`strstart, this`lookahead
      ensures Valid() && Rolled() && strstart == old(strstart) + 1 && lookahead == old(lookahead) - 1
    {
      hide Pow2, Heads, Links, Rolling, ValidParams, Mirrors;
      Advance(1);
    }

    /** Move over n strings and insert them. */
    method InsertAll(n: nat)
      requires Valid() && Inserted() && n >= 1 && lookahead >= n + MIN_MATCH
      modifies this`strstart, this`lookahead, this`insH, this`ins, this`top, head, prev
      ensures Valid() && Inserted() && strstart == old(strstart) + n && lookahead == old(lookahead) - n
      ensures Grew(old(ins), ins, old(base + strstart) + 1, base + strstart + 1)
    {
      hide Pow2, Heads, Links, Rolling, ValidParams, Mirrors, Grew;
      var left := n;
      GrewNone(ins, base + strstart + 1, base + strstart + 1);
      while left > 0
        invariant 0 <= left <= n && Valid() && Inserted()
        invariant strstart == old(strstart) + (n - left) && lookahead == old(lookahead) - (n - left)
        invariant Grew(old(ins), ins, old(base + strstart) + 1, base + strstart + 1)
      {
        StepOn();
        MirrorsBound();
        GrewOne(old(ins), ins, old(base + strstart) + 1, base + strstart);
        var hashHead := InsertString(strstart);
        left := left - 1;
      }
    }

    /** Move over n strings and insert those up to maxInsert, the last that there is input for. */
    method InsertUpTo(n: nat, maxInsert: int)
      requires Valid() && Inserted() && n >= 1 && lookahead >= n && maxInsert == strstart + lookahead - MIN_MATCH
      modifies this`strstart, this`lookahead, this`insH, this`ins, this`top, head, prev
      ensures Valid() && Inserted() && strstart == old(strstart) + n && lookahead == old(lookahead) - n
      ensures Grew(old(ins), ins, old(base + strstart) + 1, UpTo(base + strstart, base + maxInsert))
    {
      hide Pow2, Heads, Links, Rolling, ValidParams, Mirrors, Grew;
      var left := n;
      GrewNone(ins, base + strstart + 1, UpTo(base + strstart, base + maxInsert));
      while left > 0
        invariant 0 <= left <= n && Valid() && Inserted()
        invariant strstart == old(strstart) + (n - left) && lookahead == old(lookahead) - (n - left)
        invariant Grew(old(ins), ins, old(base + strstart) + 1, UpTo(base + strstart, base + maxInsert))
      {
        StepOn();
        MirrorsBound();
        if strstart <= maxInsert {
          GrewOne(old(ins), ins, old(base + strstart) + 1, base + strstart);
          var hashHead := InsertString(strstart);
        }
        left := left - 1;
      }
    }

    /** Start the hash anew at strstart. */
    method RestartHash()
      requires Valid() && Clear() && insert == 0 && strstart + 1 < window.Length
      modifies this`insH
      ensures Valid() && Rolled()
    {
      hide Pow2, Heads, Links, Rolling, Mirrors, ValidParams;
      ShapeParams();
      RollStart(hash, window[strstart], window[strstart + 1]);
      insH := window[strstart];
      insH := Update(hash, insH, window[strstart + 1]);
    }

    // ----- longest_match -----

    /** Length of the common run at cur and strstart, whose first three bytes are known to be equal:
        eight comparisons between checks for the end of the longest match. */
    method CompareRun(cur: nat) returns (len: nat)
      requires Shape() && cur < strstart && strstart + MIN_LOOKAHEAD <= 2 * wSize
      requires SameRun(window[..], cur, strstart, 3)
      ensures 3 <= len <= MAX_MATCH && SameRun(window[..], cur, strstart, len)
      ensures len < MAX_MATCH ==> window[cur + len] != window[strstart + len]
    {
      hide Pow2;
      len := 2;
      var same := true;
      while same && len < MAX_MATCH
        invariant 2 <= len <= MAX_MATCH && (same ==> len % 8 == 2) && (!same ==> 3 <= len)
        invariant forall k :: 0 <= k < len || (same && k == len) ==> SameIn(window[..], cur, strstart, k)
        invariant !same && len < MAX_MATCH ==> window[cur + len] != window[strstart + len]
        decreases MAX_MATCH - len
      {
        var c, start := 0, len;
        while same && c < 8
          invariant 0 <= c <= 8 && len == start + c && start % 8 == 2 && start < MAX_MATCH
          invariant !same ==> 3 <= len && c >= 1
          invariant forall k :: 0 <= k < len || (same && k == len) ==> SameIn(window[..], cur, strstart, k)
          invariant !same && len < MAX_MATCH ==> window[cur + len] != window[strstart + len]
        {
          len := len + 1;
          c := c + 1;
          if window[strstart + len] != window[cur + len] { same := false; }
        }
      }
    }

    /** A string that the current one may match: it is in the dictionary, has the same hash, and is
        not too far away. */
    ghost predicate Candidate(cur: nat)
      reads this`strstart, this`base, this`ins, this`stream
    {
      cur < strstart && strstart - cur <= MaxDist() && base + cur in ins &&
      SameHash(hash, stream, base + cur, base + strstart)
    }

    /** Where a chain is left. */
    function Limit(): nat
      reads this`strstart
    {
      if strstart > MaxDist() then strstart - MaxDist() else NIL
    }

    /** The best match found so far, in the window. */
    ghost predicate BestSoFar(len: nat)
      reads this, window
    {
      0 <= matchStart < strstart && strstart - matchStart <= MaxDist() && SameRun(window[..], matchStart, strstart, len)
    }

    /** A link that is not too old is a candidate. */
    lemma NextCandidate(cur: nat, q: nat)
      requires Valid() && Candidate(cur) && top == base + strstart + 1 && q == prev[Slot(cur, wSize)]
      requires q > Limit()
      ensures Candidate(q) && q < cur
    {
      hide Pow2, Heads, Links, SameHash, Mirrors, ValidParams, Link;
      LinkAt(hash, prev[..], stream, base, ins, top, base + cur);
      LinkTrans(hash, stream, base, ins, base + cur, base + strstart, q);
    }

    /** A candidate that starts with the same two bytes has the same third byte. */
    lemma ThirdSame(cur: nat)
      requires Valid() && Candidate(cur) && lookahead >= MIN_MATCH
      requires window[cur] == window[strstart] && window[cur + 1] == window[strstart + 1]
      ensures SameRun(window[..], cur, strstart, 3)
    {
      hide Pow2, Heads, Links, Hash3;
      var h :| Hashed(hash, stream, base + cur, h) && Hashed(hash, stream, base + strstart, h);
      ThirdByte(hash, window[cur], window[cur + 1], window[cur + 2], window[strstart + 2]);
    }

    /** Compare a candidate, unless a look at four bytes shows that it cannot be better. */
    method TryMatch(cur: nat, bestLen: nat, scanEnd1: Byte, scanEnd: Byte) returns (len: nat)
      requires Valid() && Candidate(cur) && strstart + MIN_LOOKAHEAD <= 2 * wSize && lookahead >= MIN_MATCH
      requires 1 <= bestLen <= MAX_MATCH && scanEnd1 == window[strstart + bestLen - 1]
      requires scanEnd == window[strstart + bestLen]
      ensures len <= MAX_MATCH && (len > bestLen ==> SameRun(window[..], cur, strstart, len))
      ensures NoRun(cur, (if len > bestLen then len else bestLen) + 1)
    {
      hide Pow2, Heads, Links, Hash3, SameHash, Mirrors, SameRun, ValidParams;
      len := 0;
      if window[cur + bestLen] == scanEnd && window[cur + bestLen - 1] == scanEnd1 &&
         window[cur] == window[strstart] && window[cur + 1] == window[strstart + 1]
      {
        ThirdSame(cur);
        len := CompareRun(cur);
        if len < MAX_MATCH { Differ(cur, len, (if len > bestLen then len else bestLen) + 1); }
      } else {
        var k := if window[cur] != window[strstart] then 0 else if window[cur + 1] != window[strstart + 1] then 1
                 else if window[cur + bestLen] != scanEnd then bestLen else bestLen - 1;
        Differ(cur, k, bestLen + 1);
      }
    }

    /** There is no common run of n bytes, or it would be longer than matches can be. */
    ghost predicate NoRun(cur: nat, n: nat)
      reads this`strstart, window
    {
      n <= MAX_MATCH ==> !SameRun(window[..], cur, strstart, n)
    }

    /** A byte that differs ends every common run. */
    lemma Differ(cur: nat, k: nat, n: nat)
      requires k < n && cur + k < window.Length && strstart + k < window.Length
      requires window[cur + k] != window[strstart + k]
      ensures NoRun(cur, n)
    {
      assert !SameIn(window[..], cur, strstart, k);
    }

    /** The search for a better match than one of len bytes among these strings: none has one, and, if
        the match at from is a better one, those nearer have none as long. */
    ghost predicate Searched(seen: seq<nat>, len: nat, better: bool, from: int)
      reads this`strstart, window
    {
      forall c :: c in seen ==> NoRun(c, len + 1) && (better && c > from ==> NoRun(c, len))
    }

    lemma NoneSeen(all: seq<nat>, len: nat)
      requires len <= MAX_MATCH
      ensures BestOf([], len, len) && all == [] + all
    {
    }

    lemma SeenNoBetter(seen: seq<nat>, cur: nat, len: nat, better: bool, from: int)
      requires Searched(seen, len, better, from) && NoRun(cur, len + 1) && (better ==> cur < from)
      ensures Searched(seen + [cur], len, better, from)
    {
      hide SameRun;
    }

    lemma SeenBetter(seen: seq<nat>, cur: nat, len: nat, run: nat, better: bool, from: int)
      requires Searched(seen, len, better, from) && NoRun(cur, run + 1) && run > len
      ensures Searched(seen + [cur], run, true, cur)
    {
      forall c | c in seen ensures NoRun(c, run) && NoRun(c, run + 1) { assert NoRun(c, len + 1); }
    }

    /** None of these strings has a longer match than len. */
    ghost predicate NoneBetter(chain: seq<nat>, len: nat)
      reads this
    {
      forall c :: c in chain ==> !MatchAt(stream, base + strstart, base + c, len + 1)
    }

    /** None of these strings that is nearer than the match has one of len bytes. */
    ghost predicate NoneNearer(chain: seq<nat>, len: nat)
      reads this
    {
      forall c :: c in chain && c > matchStart ==> !MatchAt(stream, base + strstart, base + c, len)
    }

    lemma SearchedMatches(seen: seq<nat>, prevLength: nat, bestLen: nat, len: nat)
      requires Valid() && BestOf(seen, prevLength, bestLen) && len < MAX_MATCH
      requires len == if bestLen <= lookahead then bestLen else lookahead
      ensures NoneBetter(seen, len)
    {
      hide Pow2, Heads, Links, SameRun, MatchAt, Mirrors, ValidParams;
      MirrorsSize();
      forall c | c in seen ensures !MatchAt(stream, base + strstart, base + c, len + 1) {
        if MatchAt(stream, base + strstart, base + c, len + 1) {
          MatchFits(stream, base + strstart, base + c, len + 1);
          assert NoRun(c, len + 1);
          MatchRuns(window[..], stream, base, strstart, lookahead, c, len + 1);
        }
      }
    }

    /** Strings nearer than the match cannot rival it. */
    ghost predicate NoRival(seen: seq<nat>, len: nat)
      reads this`strstart, this`matchStart, window
    {
      forall c :: c in seen && c > matchStart ==> NoRun(c, len)
    }

    /** No match of these strings is longer. */
    ghost predicate Short(seen: seq<nat>, len: nat)
      reads this`strstart, window
    {
      forall c :: c in seen ==> NoRun(c, len + 1)
    }

    /** What has been compared before falls short of both the best match and a nice one. */
    lemma RivalsShort(seen: seq<nat>, cur: nat, prevLength: nat, bestLen: nat, run: nat, nice: nat)
      requires BestOf(seen + [cur], prevLength, run) && run > prevLength && run >= bestLen >= prevLength
      requires run > bestLen ==> matchStart == cur && Short(seen, bestLen)
      requires bestLen == prevLength || bestLen < nice
      ensures NoRival(seen + [cur], Rival(prevLength, run, nice))
    {
      hide SameRun, BestSoFar;
      if run > nice {
        forall c | c in seen + [cur] && c > matchStart ensures NoRun(c, Rival(prevLength, run, nice)) {
          assert c in seen && NoRun(c, bestLen + 1);
          Longer(c, bestLen + 1, Rival(prevLength, run, nice));
        }
      }
    }

    lemma Longer(c: nat, n: nat, n': nat)
      requires NoRun(c, n) && n <= n'
      ensures NoRun(c, n')
    {
    }

    lemma NearerMatches(seen: seq<nat>, rival: nat)
      requires Valid() && NoRival(seen, rival) && rival <= MAX_MATCH
      ensures NoneNearer(seen, rival)
    {
      hide Pow2, Heads, Links, SameRun, MatchAt, Mirrors, ValidParams;
      MirrorsSize();
      forall c | c in seen && c > matchStart ensures !MatchAt(stream, base + strstart, base + c, rival) {
        if MatchAt(stream, base + strstart, base + c, rival) {
          MatchFits(stream, base + strstart, base + c, rival);
          assert NoRun(c, rival);
          MatchRuns(window[..], stream, base, strstart, lookahead, c, rival);
        }
      }
    }

    lemma MirrorsSize()
      requires Valid()
      ensures |stream| == base + strstart + lookahead
    {
    }

    /** The best match among the strings seen so far, if it is better than the previous one. */
    ghost predicate BestOf(seen: seq<nat>, prevLength: nat, len: nat)
      reads this, window
    {
      prevLength <= len <= MAX_MATCH && Searched(seen, len, len > prevLength, matchStart) &&
      (len > prevLength ==> BestSoFar(len))
    }

    /** Compare one string of the chain with the best match so far. */
    method TryNext(cur: nat, prevLength: nat, bestLen: nat, nice: nat, scanEnd1: Byte, scanEnd: Byte,
                   ghost seen: seq<nat>) returns (len: nat)
      requires Valid() && Candidate(cur) && strstart + MIN_LOOKAHEAD <= 2 * wSize && lookahead >= MIN_MATCH
      requires 1 <= prevLength && BestOf(seen, prevLength, bestLen) && (bestLen > prevLength ==> cur < matchStart)
      requires scanEnd1 == window[strstart + bestLen - 1] && scanEnd == window[strstart + bestLen]
      requires bestLen == prevLength || bestLen < nice
      modifies this`matchStart
      ensures bestLen <= len <= MAX_MATCH && BestOf(seen + [cur], prevLength, len)
      ensures matchStart == if len > bestLen then cur else old(matchStart)
      ensures len > prevLength ==> NoRival(seen + [cur], Rival(prevLength, len, nice))
    {
      hide Pow2, Heads, Links, Hash3, SameHash, Mirrors, SameRun, ValidParams, Link, MatchAt, Candidate, BestSoFar,
           Searched, NoRun, NoRival, Rival, Short;
      var run := TryMatch(cur, bestLen, scanEnd1, scanEnd);
      if run > bestLen {
        SearchedShort(seen, bestLen, bestLen > prevLength, matchStart);
        SeenBetter(seen, cur, bestLen, run, bestLen > prevLength, matchStart);
        matchStart := cur;
        BestNow(cur, run);
        len := run;
      } else {
        SeenNoBetter(seen, cur, bestLen, bestLen > prevLength, matchStart);
        len := bestLen;
      }
      if len > prevLength { RivalsShort(seen, cur, prevLength, bestLen, len, nice); }
    }

    /** The loop of longest_match: compare the strings of the chain from hashHead until a match is nice enough, or the
        chain is left. */
    method FollowChain(hashHead: nat, prevLength: nat, maxChain: nat, niceMatch: nat)
      returns (bestLen: nat, ghost seen: seq<nat>)
      requires Valid() && Candidate(hashHead) && top == base + strstart + 1
      requires strstart + MIN_LOOKAHEAD <= 2 * wSize && 1 <= prevLength <= MAX_MATCH && maxChain >= 1
      requires lookahead >= MIN_MATCH
      modifies this`matchStart
      ensures BestOf(seen, prevLength, bestLen) && seen != [] && seen <= Walk(prev[..], hashHead, Limit(), maxChain)
      ensures seen == Walk(prev[..], hashHead, Limit(), maxChain) ||
              (bestLen > prevLength && bestLen >= niceMatch && seen[|seen| - 1] == matchStart)
      ensures if bestLen > prevLength
              then matchStart in seen && NoRival(seen, Rival(prevLength, bestLen, niceMatch))
              else matchStart == old(matchStart)
    {
      hide Pow2, Heads, Links, Hash3, SameHash, Mirrors, SameRun, ValidParams, Link, MatchAt, Candidate, BestSoFar,
           Walk, Searched, NoRival, Rival, BestOf;
      var chain: nat, cur: nat := maxChain, hashHead;
      bestLen, seen := prevLength, [];
      var limit := Limit();
      var scanEnd1, scanEnd := window[strstart + bestLen - 1], window[strstart + bestLen];
      ghost var links: seq<nat> := prev[..];
      ghost var all: seq<nat> := Walk(links, cur, limit, chain);
      NoneSeen(all, bestLen);
      while true
        invariant Candidate(cur) && chain >= 1 && prevLength <= bestLen <= MAX_MATCH
        invariant BestOf(seen, prevLength, bestLen) && (bestLen == prevLength || bestLen < niceMatch)
        invariant scanEnd1 == window[strstart + bestLen - 1] && scanEnd == window[strstart + bestLen]
        invariant if bestLen > prevLength then cur < matchStart && matchStart in seen
                  else matchStart == old(matchStart)
        invariant all == seen + Walk(links, cur, limit, chain)
        decreases chain
      {
        CandidateBelow(cur);
        WalkNext(links, seen, cur, limit, chain);
        var run := TryNext(cur, prevLength, bestLen, niceMatch, scanEnd1, scanEnd, seen);
        seen := seen + [cur];
        if run > bestLen {
          bestLen := run;
          if run >= niceMatch { break; }
          scanEnd1, scanEnd := window[strstart + bestLen - 1], window[strstart + bestLen];
        }
        var next := prev[Slot(cur, wSize)];
        if next <= limit { break; }
        NextCandidate(cur, next);
        cur := next;
        chain := chain - 1;
        if chain == 0 { break; }
      }
    }

    /** longest_match: follow the hash chain from hashHead, and compare the first n strings of it, all of them unless
        a match is nice enough to stop there; the chain is left after maxChain steps, or a quarter of them if the
        previous match is good. A length above prevLength is that of a match at matchStart. None of the strings
        compared has a longer one, and none nearer has one as long, or as nice. */
    method LongestMatch(hashHead: nat, prevLength: nat, maxChain: nat, good: nat, nice: nat)
      returns (len: nat, ghost n: nat)
      requires Valid() && Candidate(hashHead) && top == base + strstart + 1
      requires strstart + MIN_LOOKAHEAD <= 2 * wSize && 1 <= prevLength <= MAX_MATCH && maxChain >= 4
      requires lookahead >= MIN_MATCH
      modifies this`matchStart
      ensures len <= lookahead && len <= MAX_MATCH && (len >= prevLength || len == lookahead)
      ensures var w := Walk(prev[..], hashHead, Limit(), if prevLength >= good then maxChain / 4 else maxChain);
              1 <= n <= |w| && (n < |w| ==> w[n - 1] == matchStart && (len >= nice || len == lookahead)) &&
              (len < MAX_MATCH ==> NoneBetter(w[..n], len)) &&
              (len > prevLength ==> matchStart in w[..n] && NoneNearer(w[..n], Rival(prevLength, len, nice)))
      ensures len > prevLength ==>
              0 <= matchStart && strstart - matchStart <= MaxDist() &&
              MatchAt(stream, base + strstart, base + matchStart, len)
      ensures len <= prevLength && len < lookahead ==> matchStart == old(matchStart)
    {
      hide Pow2, Heads, Links, Hash3, SameHash, Mirrors, SameRun, ValidParams, Link, MatchAt, Candidate, BestSoFar,
           Walk, Searched, NoneBetter, NoneNearer, NoRival;
      var chain := maxChain;
      if prevLength >= good { chain := chain / 4; }
      var niceMatch := if nice > lookahead then lookahead else nice;
      ghost var seen;
      len, seen := FollowChain(hashHead, prevLength, chain, niceMatch);
      ghost var bestLen := len;
      len := if len <= lookahead then len else lookahead;
      n := |seen|;
      Compared(Walk(prev[..], hashHead, Limit(), chain), seen, prevLength, bestLen, len, nice, niceMatch);
    }

    /** What the search has shown of the window holds for the stream. */
    lemma Compared(all: seq<nat>, seen: seq<nat>, prevLength: nat, bestLen: nat, len: nat, nice: nat, niceMatch: nat)
      requires Valid() && BestOf(seen, prevLength, bestLen) && seen <= all
      requires len == (if bestLen <= lookahead then bestLen else lookahead)
      requires niceMatch == (if nice > lookahead then lookahead else nice)
      requires bestLen > prevLength ==> NoRival(seen, Rival(prevLength, bestLen, niceMatch))
      ensures seen == all[..|seen|] && (len < MAX_MATCH ==> NoneBetter(seen, len))
      ensures len > prevLength ==>
                0 <= matchStart && strstart - matchStart <= MaxDist() &&
                MatchAt(stream, base + strstart, base + matchStart, len) &&
                NoneNearer(seen, Rival(prevLength, len, nice))
    {
      hide Pow2, Heads, Links, SameRun, MatchAt, Mirrors, ValidParams, Searched, NoneBetter, NoneNearer, NoRival;
      BestMatches(seen, prevLength, bestLen, len);
      if len < MAX_MATCH { SearchedMatches(seen, prevLength, bestLen, len); }
      if len > prevLength { NearerMatches(seen, Rival(prevLength, len, nice)); }
    }

    lemma SearchedShort(seen: seq<nat>, len: nat, better: bool, from: int)
      requires Searched(seen, len, better, from)
      ensures Short(seen, len)
    {
    }

    lemma BestNow(cur: nat, len: nat)
      requires Candidate(cur) && matchStart == cur && SameRun(window[..], cur, strstart, len)
      ensures BestSoFar(len)
    {
      hide SameRun, SameHash;
    }

    lemma CandidateBelow(cur: nat)
      requires Candidate(cur)
      ensures cur < strstart
    {
    }

    lemma BestMatches(seen: seq<nat>, prevLength: nat, bestLen: nat, len: nat)
      requires Valid() && BestOf(seen, prevLength, bestLen) && len <= bestLen && len <= lookahead
      ensures len > prevLength ==>
                0 <= matchStart && strstart - matchStart <= MaxDist() &&
                MatchAt(stream, base + strstart, base + matchStart, len)
    {
      hide Pow2, Heads, Links, SameRun, MatchAt, Mirrors;
      if len > prevLength {
        RunMatches(window[..], stream, base, strstart, lookahead, matchStart, bestLen, len);
      }
    }

    lemma MirrorsBound()
      requires Valid()
      ensures strstart + lookahead <= 2 * wSize
    {
    }

    lemma ShapeParams()
      requires Shape()
      ensures ValidParams(hash)
    {
    }
  }

  lemma MatchFits(stream: seq<Byte>, pos: int, from: int, len: int)
    requires MatchAt(stream, pos, from, len)
    ensures pos + len <= |stream|
  {
  }

  /** The head of a chain is a good link for a new string with the same hash. */
  lemma HeadLink(p: Params, head: seq<nat>, prev: seq<nat>, stream: seq<Byte>, base: nat, ins: set<nat>, top: nat,
                 str: nat, h: nat)
    requires Heads(p, head, stream, base, ins) && Links(p, prev, stream, base, ins, top) && top <= base + str
    requires h < |head| && Hashed(p, stream, base + str, h)
    ensures Link(p, stream, base, ins, base + str, head[h])
  {
    hide Hashed;
    forall r | r in ins && base < r < base + str && SameHash(p, stream, r, base + str) ensures r <= base + head[h] {
      var g :| Hashed(p, stream, r, g) && Hashed(p, stream, base + str, g);
      OneHash(p, stream, base + str, g, h);
    }
  }

  lemma InsBelow(p: Params, prev: seq<nat>, stream: seq<Byte>, base: nat, ins: set<nat>, top: nat)
    requires Links(p, prev, stream, base, ins, top)
    ensures forall pos :: pos in ins ==> pos < top
  {
  }

  lemma LinkAt(p: Params, prev: seq<nat>, stream: seq<Byte>, base: nat, ins: set<nat>, top: nat, pos: nat)
    requires Links(p, prev, stream, base, ins, top) && pos in ins && pos >= base && pos + |prev| >= top && |prev| > 0
    ensures pos - base < 2 * |prev| && Link(p, stream, base, ins, pos, prev[Slot(pos - base, |prev|)])
  {
    hide SameHash;
  }

  lemma SameHashTrans(p: Params, stream: seq<Byte>, a: nat, b: nat, c: nat)
    requires SameHash(p, stream, a, b) && SameHash(p, stream, b, c)
    ensures SameHash(p, stream, a, c)
  {
    hide Hash3;
    var h :| Hashed(p, stream, a, h) && Hashed(p, stream, b, h);
    assert Hashed(p, stream, c, h);
  }

  lemma LinkTrans(p: Params, stream: seq<Byte>, base: nat, ins: set<nat>, pos: nat, pos': nat, q: nat)
    requires Link(p, stream, base, ins, pos, q) && q != NIL && SameHash(p, stream, pos, pos')
    ensures base + q in ins && base + q < pos && SameHash(p, stream, base + q, pos')
  {
    hide SameHash;
    SameHashTrans(p, stream, base + q, pos, pos');
  }

  /** A run in the window, cut to the lookahead, is a match in the stream. */
  lemma RunMatches(window: seq<Byte>, stream: seq<Byte>, base: nat, strstart: nat, lookahead: nat, from: nat, run: nat,
                   len: nat)
    requires Mirrors(window, stream, base, strstart + lookahead) && SameRun(window, from, strstart, run)
    requires from < strstart && strstart - from <= 32768 && len <= run && len <= lookahead
    ensures MatchAt(stream, base + strstart, base + from, len)
  {
    var a, b := base + from, base + strstart;
    forall k | 0 <= k < len ensures SameByte(stream, a, b, k) {
      assert SameIn(window, from, strstart, k);
    }
  }

  lemma MatchRuns(window: seq<Byte>, stream: seq<Byte>, base: nat, strstart: nat, lookahead: nat, from: nat, len: nat)
    requires Mirrors(window, stream, base, strstart + lookahead) && MatchAt(stream, base + strstart, base + from, len)
    requires len <= lookahead
    ensures SameRun(window, from, strstart, len)
  {
    forall k | 0 <= k < len ensures SameIn(window, from, strstart, k) {
      assert SameByte(stream, base + from, base + strstart, k);
    }
  }

  lemma WindowSizes(wBits: nat)
    requires 9 <= wBits <= 15
    ensures 512 <= Shl(1, wBits) <= 32768
  {
    hide Shl, Pow2;
    ShlOne(wBits);
    Pow2Mono(9, wBits);
    Pow2Mono(wBits, 15);
    assert Pow2(9) == 512 && Pow2(15) == 32768 by { NineFifteen(); }
  }

  lemma NineFifteen()
    ensures Pow2(9) == 512 && Pow2(15) == 32768
  {
    assert Pow2(9) == 512;
  }
}
