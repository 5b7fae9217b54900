/** What the searches of deflate_fast, deflate_slow and deflate_rle look at and find, and the tokens that follow from
    them. A position here is one in the stream of all input. */
module Search {
  import opened BitWriter
  import opened Format
  import opened Hash
  import opened Matcher

  /** A search for a match of the string at pos: the input read by then, the strings inserted by then, the length
      that a match must exceed, the strings compared, and the length found with the place it was found at. */
  datatype Look = Look(pos: nat, data: seq<Byte>, ins: set<nat>, prev: nat, chain: seq<nat>, len: nat, from: int)

  /** Strings at or before this position are too far away. */
  function Horizon(pos: nat, maxDist: int): nat { if pos > maxDist then pos - maxDist else 0 }

  /** An earlier string that was inserted, has the same hash and is not too far away. */
  ghost predicate Matchable(p: Params, l: Look, maxDist: int, c: nat) {
    c in l.ins && 0 < c < l.pos <= c + maxDist && SameHash(p, l.data, c, l.pos)
  }

  ghost predicate Falling(s: seq<nat>) { forall i, j :: 0 <= i < j < |s| ==> s[i] > s[j] }

  /** Every such string is in the chain, or comes after steps of them. */
  ghost predicate Complete(p: Params, l: Look, maxDist: int, steps: nat) {
    forall q :: q in l.ins && Horizon(l.pos, maxDist) < q < l.pos && SameHash(p, l.data, q, l.pos) ==>
      (q in l.chain || (0 < |l.chain| == steps && q < l.chain[steps - 1]))
  }

  /** The chain is that of the last strings inserted that have the same hash and are not too far away, at most
      steps of them, the nearest first. */
  ghost predicate Recent(p: Params, l: Look, maxDist: int, steps: nat) {
    |l.chain| <= steps && (forall c :: c in l.chain ==> Matchable(p, l, maxDist, c)) && Falling(l.chain) &&
    Complete(p, l, maxDist, steps)
  }

  /** The longest match among the strings of the chain, if it is longer than prev, and the nearest of that length; but
      the nearest of length nice or more ends the search. */
  ghost predicate Best(l: Look, nice: nat)
    requires l.pos <= |l.data|
  {
    var avail := |l.data| - l.pos;
    l.len <= avail && l.len <= MAX_MATCH && (l.len >= l.prev || l.len == avail) &&
    (l.len > l.prev ==>
      l.from in l.chain && MatchAt(l.data, l.pos, l.from, l.len) &&
      (l.len < MAX_MATCH ==> !MatchAt(l.data, l.pos, l.from, l.len + 1)) &&
      forall c :: c in l.chain && c > l.from ==> !MatchAt(l.data, l.pos, c, Rival(l.prev, l.len, nice))) &&
    (l.len < nice && l.len < avail && l.len < MAX_MATCH ==>
      forall c :: c in l.chain ==> !MatchAt(l.data, l.pos, c, l.len + 1))
  }

  /** What configures a search: lengths at which it is not begun (max_lazy), is cut to a quarter (good_match) and may
      end (nice_match), and the number of strings compared; and the length up to which deflate_fast inserts all
      strings of a match (max_insert_length). */
  datatype Config = Config(hash: Params, maxDist: int, limit: nat, good: nat, nice: nat, maxChain: nat, inserts: nat)

  /** A search as longest_match makes it: the string is inserted if it is whole, and the last strings with the same
      hash are compared, unless the match held is long enough. */
  ghost predicate Honest(c: Config, l: Look) {
    l.pos <= |l.data| && (forall q :: q in l.ins ==> q <= l.pos) &&
    (|l.data| - l.pos >= MIN_MATCH ==> l.pos in l.ins) &&
    (if |l.data| - l.pos >= MIN_MATCH && l.prev < c.limit
     then Recent(c.hash, l, c.maxDist, if l.prev >= c.good then c.maxChain / 4 else c.maxChain)
     else l.chain == []) &&
    if l.chain == [] then l.len < MIN_MATCH else Best(l, c.nice)
  }

  /** What deflate_rle looks at: only the byte before. */
  ghost predicate HonestRun(l: Look) {
    l.pos <= |l.data| && l.prev == MIN_MATCH - 1 &&
    l.chain == (if |l.data| - l.pos >= MIN_MATCH && l.pos > 0 then [l.pos - 1] else []) &&
    if l.chain == [] then l.len < MIN_MATCH else Best(l, MAX_MATCH)
  }

  // ----- which tokens follow -----

  const TOO_FAR: nat := 4096

  /** deflate_rle, deflate_fast and deflate_slow, the last with or without Z_FILTERED. */
  datatype Style = Runs | Fast | Slow(filtered: bool)

  ghost predicate Sound(style: Style, c: Config, l: Look) { if style.Runs? then HonestRun(l) else Honest(c, l) }

  /** The length found, unless deflate_slow discards it: a short match with Z_FILTERED, or one of three bytes from
      too far away. */
  function Settled(style: Style, l: Look): nat {
    if style.Slow? && l.len <= 5 && (style.filtered || (l.len == MIN_MATCH && l.pos - l.from > TOO_FAR))
    then MIN_MATCH - 1 else l.len
  }

  /** A match found at q is given up for a longer one at the next byte. */
  predicate Deferred(style: Style, looks: map<nat, Look>, q: nat)
    requires q in looks
  {
    style.Slow? && q + 1 in looks && Settled(style, looks[q + 1]) > Settled(style, looks[q])
  }

  /** The token at q: the match found there, unless it is given up, and else a literal. For deflate_slow the next
      byte has been looked at as well, for something longer. */
  ghost predicate TokenRule(style: Style, t: Token, q: nat, looks: map<nat, Look>, stream: seq<Byte>) {
    q in looks && q < |stream| &&
    var e := Settled(style, looks[q]);
    (style.Slow? && e >= MIN_MATCH ==> q + 1 in looks && looks[q + 1].prev == e) &&
    match t
    case Lit(b) => (e < MIN_MATCH || Deferred(style, looks, q)) && b == stream[q]
    case Match(dist, len) => e >= MIN_MATCH && !Deferred(style, looks, q) && dist == q - looks[q].from && len == e
  }

  /** How many bytes a token stands for. */
  function Width(t: Token): nat {
    match t
    case Lit(_) => 1
    case Match(_, len) => len
  }

  function Widths(ts: seq<Token>): nat {
    if ts == [] then 0 else Widths(ts[..|ts| - 1]) + Width(ts[|ts| - 1])
  }

  /** How much input there was when the match at q was taken. */
  function Known(style: Style, looks: map<nat, Look>, q: nat): nat
    requires q in looks && (style.Slow? ==> q + 1 in looks)
  {
    |looks[if style.Slow? then q + 1 else q].data|
  }

  /** Of the strings inside the match at q that there was input for, deflate_slow inserts all, and deflate_fast all or
      none. */
  ghost predicate Entered(style: Style, c: Config, q: nat, len: nat, known: nat, ins: set<nat>) {
    forall k :: q < k < q + len && k + MIN_MATCH <= known ==>
      (k in ins <==> style.Slow? || (len <= c.inserts && q + len + MIN_MATCH <= known))
  }

  /** The strings inside a match are inserted before any later search. */
  ghost predicate EntryRule(style: Style, c: Config, t: Token, q: nat, looks: map<nat, Look>, ins: set<nat>) {
    t.Match? && !style.Runs? && q in looks && (style.Slow? ==> q + 1 in looks) ==>
      var known := Known(style, looks, q);
      Entered(style, c, q, t.len, known, ins) &&
      forall r :: r in looks && r >= q + t.len ==> Entered(style, c, q, t.len, known, looks[r].ins)
  }

  /** All tokens follow from the searches at their places, and their strings are inserted. */
  ghost predicate Follows(style: Style, c: Config, ts: seq<Token>, looks: map<nat, Look>, stream: seq<Byte>,
                          ins: set<nat>)
  {
    ts == [] ||
    (var init, t := ts[..|ts| - 1], ts[|ts| - 1];
     Follows(style, c, init, looks, stream, ins) && TokenRule(style, t, Widths(init), looks, stream) &&
     EntryRule(style, c, t, Widths(init), looks, ins))
  }

  /** Searches made before end, in the order of their places: each is sound, knows the strings of those before it, and
      had to better the match found one byte before, or none. */
  ghost predicate Looked(style: Style, c: Config, looks: map<nat, Look>, stream: seq<Byte>, ins: set<nat>, end: nat) {
    (forall q :: q in looks ==>
      q < end && looks[q].pos == q && looks[q].data <= stream && Sound(style, c, looks[q]) &&
      PrevRule(style, looks, q) && (Whole(style, looks[q]) ==> q in ins)) &&
    forall q, r :: q in looks && r in looks && q < r && Whole(style, looks[q]) ==> q in looks[r].ins
  }

  /** The string was there to be inserted. */
  predicate Whole(style: Style, l: Look) { !style.Runs? && |l.data| - l.pos >= MIN_MATCH }

  predicate PrevRule(style: Style, looks: map<nat, Look>, q: nat)
    requires q in looks
  {
    looks[q].prev == MIN_MATCH - 1 ||
    (style.Slow? && q > 0 && q - 1 in looks && looks[q].prev == Settled(style, looks[q - 1]))
  }

  lemma FollowsPush(style: Style, c: Config, ts: seq<Token>, t: Token, looks: map<nat, Look>, stream: seq<Byte>,
                    ins: set<nat>)
    requires Follows(style, c, ts, looks, stream, ins) && TokenRule(style, t, Widths(ts), looks, stream)
    requires EntryRule(style, c, t, Widths(ts), looks, ins)
    ensures Follows(style, c, ts + [t], looks, stream, ins) && Widths(ts + [t]) == Widths(ts) + Width(t)
  {
    hide TokenRule, EntryRule;
    assert (ts + [t])[..|ts|] == ts;
  }

  /** A search at a place that no token stands for yet changes nothing. */
  lemma {:induction false} FollowsMore(style: Style, c: Config, ts: seq<Token>, looks: map<nat, Look>, l: Look,
                                       stream: seq<Byte>, ins: set<nat>, ins': set<nat>)
    requires Follows(style, c, ts, looks, stream, ins) && l.pos !in looks && Widths(ts) <= l.pos
    requires ins <= ins' <= ins + {l.pos}
    requires !style.Runs? ==> l.ins == ins'
    ensures Follows(style, c, ts, looks[l.pos := l], stream, ins')
  {
    hide TokenRule, EntryRule;
    if ts != [] {
      var init, t := ts[..|ts| - 1], ts[|ts| - 1];
      FollowsMore(style, c, init, looks, l, stream, ins, ins');
      RulesMore(style, c, t, Widths(init), looks, l, stream, ins, ins');
    }
  }

  lemma RulesMore(style: Style, c: Config, t: Token, q: nat, looks: map<nat, Look>, l: Look, stream: seq<Byte>,
                  ins: set<nat>, ins': set<nat>)
    requires TokenRule(style, t, q, looks, stream) && EntryRule(style, c, t, q, looks, ins)
    requires l.pos !in looks && q + Width(t) <= l.pos && (!style.Runs? ==> l.ins == ins')
    requires ins <= ins' <= ins + {l.pos}
    ensures TokenRule(style, t, q, looks[l.pos := l], stream) && EntryRule(style, c, t, q, looks[l.pos := l], ins')
  {
    hide Entered;
    var looks' := looks[l.pos := l];
    if t.Match? && !style.Runs? {
      var known := Known(style, looks, q);
      EnteredMore(style, c, q, t.len, known, ins, ins', l.pos, |stream|);
      forall r | r in looks' && r >= q + t.len ensures Entered(style, c, q, t.len, known, looks'[r].ins) {
        if r != l.pos { assert r in looks; }
      }
    }
  }

  /** Strings inserted after the match, or without input then, do not matter. */
  lemma EnteredMore(style: Style, c: Config, q: nat, len: nat, known: nat, ins: set<nat>, ins': set<nat>, from: nat,
                    size: nat)
    requires Entered(style, c, q, len, known, ins) && q + len <= from
    requires ins <= ins' && forall p :: p in ins' ==> p in ins || p >= from || (p + MIN_MATCH > size >= known)
    ensures Entered(style, c, q, len, known, ins')
  {
  }

  /** More input; strings inserted after those of the tokens, or that there was no input for. */
  ghost predicate Later(ins: set<nat>, ins': set<nat>, from: nat, size: nat) {
    ins <= ins' && forall p :: p in ins' ==> p in ins || p >= from || p + MIN_MATCH > size
  }

  lemma {:induction false} FollowsGrows(style: Style, c: Config, ts: seq<Token>, looks: map<nat, Look>,
                                        stream: seq<Byte>, more: seq<Byte>, ins: set<nat>, ins': set<nat>, from: nat)
    requires Follows(style, c, ts, looks, stream, ins) && stream <= more && Widths(ts) <= from
    requires style.Runs? || Later(ins, ins', from, |stream|)
    requires forall q :: q in looks ==> |looks[q].data| <= |stream|
    ensures Follows(style, c, ts, looks, more, ins')
  {
    hide TokenRule, EntryRule, Later;
    if ts != [] {
      var init, t := ts[..|ts| - 1], ts[|ts| - 1];
      FollowsGrows(style, c, init, looks, stream, more, ins, ins', from);
      RulesGrow(style, c, t, Widths(init), looks, stream, more, ins, ins', from);
    }
  }

  lemma RulesGrow(style: Style, c: Config, t: Token, q: nat, looks: map<nat, Look>, stream: seq<Byte>,
                  more: seq<Byte>, ins: set<nat>, ins': set<nat>, from: nat)
    requires TokenRule(style, t, q, looks, stream) && EntryRule(style, c, t, q, looks, ins) && stream <= more
    requires q + Width(t) <= from && (style.Runs? || Later(ins, ins', from, |stream|))
    requires forall q :: q in looks ==> |looks[q].data| <= |stream|
    ensures TokenRule(style, t, q, looks, more) && EntryRule(style, c, t, q, looks, ins')
  {
    hide Entered;
    if t.Match? && !style.Runs? {
      EnteredMore(style, c, q, t.len, Known(style, looks, q), ins, ins', from, |stream|);
    }
  }

  lemma LookedMore(style: Style, c: Config, looks: map<nat, Look>, stream: seq<Byte>, ins: set<nat>, ins': set<nat>,
                   end: nat, l: Look)
    requires Looked(style, c, looks, stream, ins, end) && l.pos == end && l.data == stream && Sound(style, c, l)
    requires ins <= ins' && (!style.Runs? ==> l.ins == ins') && (Whole(style, l) ==> end in ins')
    requires l.prev == MIN_MATCH - 1 ||
             (style.Slow? && end > 0 && end - 1 in looks && l.prev == Settled(style, looks[end - 1]))
    ensures Looked(style, c, looks[end := l], stream, ins', end + 1) && end !in looks
  {
    hide Sound;
    var looks' := looks[end := l];
    forall q | q in looks ensures q != end && PrevRule(style, looks', q) { assert PrevRule(style, looks, q); }
  }

  lemma LookedGrows(style: Style, c: Config, looks: map<nat, Look>, stream: seq<Byte>, more: seq<Byte>, ins: set<nat>,
                    ins': set<nat>, end: nat, end': nat)
    requires Looked(style, c, looks, stream, ins, end) && stream <= more && ins <= ins' && end <= end'
    ensures Looked(style, c, looks, more, ins', end')
  {
    hide Sound;
  }

  lemma LookedSeen(style: Style, c: Config, looks: map<nat, Look>, stream: seq<Byte>, ins: set<nat>, end: nat)
    requires Looked(style, c, looks, stream, ins, end)
    ensures forall q :: q in looks ==> |looks[q].data| <= |stream|
  {
    hide Sound;
  }

  // ----- the hash chains give the last strings inserted -----

  lemma SameHashSym(p: Params, stream: seq<Byte>, a: nat, b: nat)
    requires SameHash(p, stream, a, b)
    ensures SameHash(p, stream, b, a)
  {
    hide Hashed;
  }

  /** An inserted string, at window index r, with the same hash as that at pos. */
  ghost predicate Alike(p: Params, stream: seq<Byte>, base: nat, ins: set<nat>, pos: nat, r: nat) {
    base + r in ins && SameHash(p, stream, base + r, pos)
  }

  /** Strings alike from base + limit up to base + cur are on the walk, or after its end. */
  ghost predicate WalkedAll(p: Params, stream: seq<Byte>, base: nat, ins: set<nat>, pos: nat, cur: nat, limit: nat,
                            steps: nat, w: seq<nat>) {
    forall r: nat :: limit < r <= cur && Alike(p, stream, base, ins, pos, r) ==>
      (r in w || (0 < |w| == steps && r < w[steps - 1]))
  }

  /** What a walk down the links from cur comes to. */
  ghost predicate WalkIs(p: Params, stream: seq<Byte>, base: nat, ins: set<nat>, pos: nat, cur: nat, limit: nat,
                         steps: nat, w: seq<nat>) {
    1 <= |w| <= steps && w[0] == cur && Falling(w) &&
    (forall c :: c in w ==> c <= cur && (c == cur || c > limit) && Alike(p, stream, base, ins, pos, c)) &&
    WalkedAll(p, stream, base, ins, pos, cur, limit, steps, w)
  }

  lemma {:induction false} WalkRecent(p: Params, prev: seq<nat>, stream: seq<Byte>, base: nat, ins: set<nat>, top: nat,
                                      pos: nat, cur: nat, limit: nat, steps: nat)
    requires Links(p, prev, stream, base, ins, top) && base + cur in ins && base + cur < pos && steps >= 1
    requires SameHash(p, stream, base + cur, pos) && |prev| > 0
    requires base + cur + |prev| >= top && base + limit + 1 + |prev| >= top
    ensures WalkIs(p, stream, base, ins, pos, cur, limit, steps, Walk(prev, cur, limit, steps))
    decreases steps
  {
    hide SameHash, Links, Link;
    var w := Walk(prev, cur, limit, steps);
    LinkAt(p, prev, stream, base, ins, top, base + cur);
    var next := prev[Slot(cur, |prev|)];
    WalkFirst(prev, cur, limit, steps);
    LinkNext(p, stream, base, ins, base + cur, pos, next);
    forall r: nat | 0 < r < cur && Alike(p, stream, base, ins, pos, r) ensures r <= next { assert base + r in ins; }
    if next > limit && steps > 1 {
      WalkRecent(p, prev, stream, base, ins, top, pos, next, limit, steps - 1);
      WalkMore(p, stream, base, ins, pos, cur, next, limit, steps, Walk(prev, next, limit, steps - 1));
    }
  }

  lemma WalkFirst(prev: seq<nat>, cur: nat, limit: nat, steps: nat)
    requires Slot(cur, |prev|) < |prev|
    ensures var next := prev[Slot(cur, |prev|)];
            Walk(prev, cur, limit, steps) ==
            [cur] + if next > limit && steps > 1 then Walk(prev, next, limit, steps - 1) else []
  {
  }

  /** The link of a string with the same hash leads to the next one before it. */
  lemma LinkNext(p: Params, stream: seq<Byte>, base: nat, ins: set<nat>, at: nat, pos: nat, q: nat)
    requires Link(p, stream, base, ins, at, q) && SameHash(p, stream, at, pos)
    ensures q != NIL ==> base + q in ins && base + q < at && SameHash(p, stream, base + q, pos)
    ensures forall r :: r in ins && base < r < at && SameHash(p, stream, r, pos) ==> r <= base + q
  {
    hide SameHash;
    if q != NIL { SameHashTrans(p, stream, base + q, at, pos); }
    SameHashSym(p, stream, at, pos);
    forall r | r in ins && base < r < at && SameHash(p, stream, r, pos) ensures r <= base + q {
      SameHashTrans(p, stream, r, pos, at);
    }
  }

  lemma WalkMore(p: Params, stream: seq<Byte>, base: nat, ins: set<nat>, pos: nat, cur: nat, next: nat, limit: nat,
                 steps: nat, w: seq<nat>)
    requires steps > 1 && WalkIs(p, stream, base, ins, pos, next, limit, steps - 1, w) && limit < next < cur
    requires Alike(p, stream, base, ins, pos, cur)
    requires forall r: nat :: 0 < r < cur && Alike(p, stream, base, ins, pos, r) ==> r <= next
    ensures WalkIs(p, stream, base, ins, pos, cur, limit, steps, [cur] + w)
  {
    hide Alike;
    var v := [cur] + w;
    forall c | c in v ensures c <= cur && (c == cur || c > limit) && Alike(p, stream, base, ins, pos, c) {
      if c != cur { assert c in w; }
    }
    forall i, j | 0 <= i < j < |v| ensures v[i] > v[j] { assert v[j] == w[j - 1] && w[j - 1] in w; }
    forall r: nat | limit < r <= cur && Alike(p, stream, base, ins, pos, r)
      ensures r in v || (|v| == steps && r < v[steps - 1])
    {
      if r == cur { assert v[0] == r; }
    }
  }

  /** Positions in the window as positions in the stream. */
  function Shifted(base: nat, w: seq<nat>): (s: seq<nat>)
    ensures |s| == |w| && forall i :: 0 <= i < |w| ==> s[i] == base + w[i]
  {
    seq(|w|, i requires 0 <= i < |w| => base + w[i])
  }

  lemma HorizonIs(base: nat, strstart: nat, maxDist: nat)
    requires base > 0 ==> strstart >= maxDist
    ensures base + (if strstart > maxDist then strstart - maxDist else NIL) == Horizon(base + strstart, maxDist)
  {
  }

  /** A search that follows the chain from its head. */
  lemma FoundRecent(p: Params, base: nat, strstart: nat, cur: nat, maxDist: nat, steps: nat, w: seq<nat>, l: Look)
    requires l.pos == base + strstart && l.chain == Shifted(base, w) && (base > 0 ==> strstart >= maxDist)
    requires WalkIs(p, l.data, base, l.ins, l.pos, cur, if strstart > maxDist then strstart - maxDist else NIL, steps,
                    w)
    requires Link(p, l.data, base, l.ins, l.pos, cur) && 0 < cur < strstart && strstart - cur <= maxDist
    ensures Recent(p, l, maxDist, steps)
  {
    hide SameHash;
    HorizonIs(base, strstart, maxDist);
    forall c | c in l.chain ensures Matchable(p, l, maxDist, c) {
      var i :| 0 <= i < |w| && c == base + w[i];
      assert w[i] in w;
    }
    FoundAll(p, base, strstart, cur, maxDist, steps, w, l);
  }

  lemma FoundAll(p: Params, base: nat, strstart: nat, cur: nat, maxDist: nat, steps: nat, w: seq<nat>, l: Look)
    requires l.pos == base + strstart && l.chain == Shifted(base, w) && (base > 0 ==> strstart >= maxDist)
    requires WalkedAll(p, l.data, base, l.ins, l.pos, cur, if strstart > maxDist then strstart - maxDist else NIL,
                       steps, w)
    requires Link(p, l.data, base, l.ins, l.pos, cur)
    ensures Complete(p, l, maxDist, steps)
  {
    hide SameHash;
    HorizonIs(base, strstart, maxDist);
    forall q | q in l.ins && Horizon(l.pos, maxDist) < q < l.pos && SameHash(p, l.data, q, l.pos)
      ensures q in l.chain || (0 < |l.chain| == steps && q < l.chain[steps - 1])
    {
      var r: nat := q - base;
      assert Alike(p, l.data, base, l.ins, l.pos, r);
      if r in w {
        var i :| 0 <= i < |w| && w[i] == r;
        assert l.chain[i] == q;
      }
    }
  }

  /** No search, as the head of the chain is too far away or there is none. */
  lemma NoneRecent(p: Params, base: nat, strstart: nat, cur: nat, maxDist: nat, steps: nat, l: Look)
    requires l.pos == base + strstart && l.chain == [] && (base > 0 ==> strstart >= maxDist)
    requires Link(p, l.data, base, l.ins, l.pos, cur) && (cur == NIL || strstart - cur > maxDist)
    ensures Recent(p, l, maxDist, steps)
  {
    hide SameHash;
    HorizonIs(base, strstart, maxDist);
  }

  /** What longest_match promises of the first n strings of the walk, as a search. */
  lemma FoundBest(base: nat, w: seq<nat>, n: nat, matchStart: int, nice: nat, l: Look)
    requires l.pos <= |l.data| && l.chain == Shifted(base, w) && l.from == base + matchStart && l.len <= MAX_MATCH
    requires l.len <= |l.data| - l.pos && (l.len >= l.prev || l.len == |l.data| - l.pos)
    requires Falling(w) && 1 <= n <= |w|
    requires n < |w| ==> w[n - 1] == matchStart && (l.len >= nice || l.len == |l.data| - l.pos)
    requires l.len < MAX_MATCH ==> forall c :: c in w[..n] ==> !MatchAt(l.data, l.pos, base + c, l.len + 1)
    requires l.len > l.prev ==>
               matchStart in w[..n] && MatchAt(l.data, l.pos, l.from, l.len) &&
               forall c :: c in w[..n] && c > matchStart ==>
                 !MatchAt(l.data, l.pos, base + c, Rival(l.prev, l.len, nice))
    ensures Best(l, nice)
  {
    hide MatchAt, Rival;
    if l.len > l.prev {
      var j :| 0 <= j < n && w[j] == matchStart;
      assert l.chain[j] == l.from && w[j] in w[..n];
      forall c | c in l.chain && c > l.from ensures !MatchAt(l.data, l.pos, c, Rival(l.prev, l.len, nice)) {
        var i :| 0 <= i < |w| && l.chain[i] == c;
        assert i < j && w[i] in w[..n];
      }
    }
    if l.len < nice && l.len < |l.data| - l.pos && l.len < MAX_MATCH {
      forall c | c in l.chain ensures !MatchAt(l.data, l.pos, c, l.len + 1) {
        var i :| 0 <= i < |w| && l.chain[i] == c;
        assert w[i] in w[..n];
      }
    }
  }
}
