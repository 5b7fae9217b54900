/** tr_static_init of trees.c: the tables of length and distance codes, whose lookups (_length_code
    and the macro d_code) are the codes of the format, and the static trees. */
module StaticInit {
  import opened Bits
  import opened Canonical
  import opened Format
  import opened Codec
  import opened Fixed
  import opened GenCodes

  // ----- codes by their bases -----

  /** The first n bases ascend. */
  predicate Ascends(base: seq<nat>, n: nat) {
    0 < n <= |base| && base[0] == 0 && forall i, j :: 0 <= i < j < n ==> base[i] < base[j]
  }

  /** The code of v is the one whose span v is in. */
  lemma CodeIs(base: seq<nat>, v: nat, n: nat, c: nat)
    requires Ascends(base, n) && c < n && base[c] <= v && (c + 1 < n ==> v < base[c + 1])
    ensures FindCode(base, v, n) == c
  {
  }

  lemma {:induction false} StepsAscend(base: seq<nat>, n: nat)
    requires 0 < n <= |base| && base[0] == 0 && forall c :: 0 <= c < n - 1 ==> Rises(base, c)
    ensures Ascends(base, n)
  {
    if n > 1 {
      StepsAscend(base, n - 1);
      assert Rises(base, n - 2);
    }
  }

  predicate Rises(base: seq<nat>, c: nat) { c + 1 < |base| && base[c] < base[c + 1] }

  lemma LengthsAscend()
    ensures Ascends(BASE_LENGTH, 28)
  {
    hide Pow2;
    forall c | 0 <= c < 27 ensures Rises(BASE_LENGTH, c) { LengthSpans(c); }
    StepsAscend(BASE_LENGTH, 28);
  }

  lemma DistsAscend()
    ensures Ascends(BASE_DIST, D_CODES)
  {
    hide Pow2;
    forall c | 0 <= c < D_CODES - 1 ensures Rises(BASE_DIST, c) { DistSpans(c); }
    StepsAscend(BASE_DIST, D_CODES);
  }

  // ----- length codes -----

  function LengthStart(c: nat): nat
    requires c <= 28
  {
    if c < 28 then BASE_LENGTH[c] else 256
  }

  /** The codes of the lengths below n. */
  ghost predicate LengthCodes(t: seq<nat>, n: nat) {
    n <= |t| && forall i :: 0 <= i < n ==> t[i] == FindCode(BASE_LENGTH, i, 28)
  }

  /** for (n = 0; n < (1 << extra); n++) t[at++] = code */
  method Fill(t: array<nat>, at: nat, count: nat, code: nat)
    requires at + count <= t.Length
    modifies t
    ensures forall i :: 0 <= i < t.Length ==> t[i] == if at <= i < at + count then code else old(t[i])
  {
    var n := 0;
    while n < count
      invariant 0 <= n <= count
      invariant forall i :: 0 <= i < t.Length ==> t[i] == if at <= i < at + n then code else old(t[i])
    {
      t[at + n] := code;
      n := n + 1;
    }
  }

  lemma LengthSpanCodes(c: nat, v: nat)
    requires c < 28 && LengthStart(c) <= v < LengthStart(c + 1)
    ensures FindCode(BASE_LENGTH, v, 28) == c
  {
    LengthsAscend();
    CodeIs(BASE_LENGTH, v, 28, c);
  }

  lemma LengthSpan(c: nat)
    requires c < 28
    ensures LengthStart(c) + Pow2(EXTRA_LBITS[c]) == LengthStart(c + 1) <= 256
  {
    hide Pow2;
    LengthSpans(c);
    LengthsAscend();
    if c + 1 < 28 { LengthBelow(c + 1); }
  }

  lemma LengthBelow(c: nat)
    requires c < 28
    ensures BASE_LENGTH[c] <= 224
  {
    LengthsAscend();
    if c < 27 { assert BASE_LENGTH[c] < BASE_LENGTH[27]; }
  }

  /** The mapping for all codes but the last. */
  method LengthRuns(base: array<nat>, lengthCode: array<nat>)
    requires base.Length == LENGTH_CODES && lengthCode.Length == 256 && base != lengthCode
    modifies base, lengthCode
    ensures LengthCodes(lengthCode[..], 256) && forall i :: 0 <= i < 28 ==> base[i] == BASE_LENGTH[i]
  {
    hide Pow2, FindCode;
    var length, code := 0, 0;
    while code < LENGTH_CODES - 1
      invariant 0 <= code <= 28 && length == LengthStart(code) && LengthCodes(lengthCode[..], length)
      invariant forall i :: 0 <= i < code ==> base[i] == BASE_LENGTH[i]
    {
      base[code] := length;
      LengthSpan(code);
      Fill(lengthCode, length, Pow2(EXTRA_LBITS[code]), code);
      length := length + Pow2(EXTRA_LBITS[code]);
      forall i | LengthStart(code) <= i < length
        ensures FindCode(BASE_LENGTH, i, 28) == code
      {
        LengthSpanCodes(code, i);
      }
      code := code + 1;
    }
  }

  /** The mapping from lengths to length codes. The length 258 could be sent in two ways; it gets the
      code that has no extra bits. */
  method LengthTables() returns (base: array<nat>, lengthCode: array<nat>)
    ensures fresh(base) && base[..] == BASE_LENGTH && fresh(lengthCode) && lengthCode.Length == 256
    ensures forall lc :: 0 <= lc < 256 ==> lengthCode[lc] == LengthCode(lc)
  {
    hide FindCode;
    base, lengthCode := new nat[LENGTH_CODES], new nat[256];
    LengthRuns(base, lengthCode);
    base[28] := 0;  // as static storage starts out
    ghost var t: seq<nat> := lengthCode[..];
    lengthCode[255] := 28;
    forall lc | 0 <= lc < 256 ensures lengthCode[lc] == LengthCode(lc) {
      if lc < 255 { assert lengthCode[lc] == t[lc]; }
    }
  }

  // ----- distance codes -----

  /** d_code */
  function DCode(t: seq<nat>, d: nat): nat
    requires |t| == 512 && d < 32768
  {
    if d < 256 then t[d] else t[256 + d / 128]
  }

  lemma DistSpanCodes(c: nat, v: nat)
    requires c < D_CODES && BASE_DIST[c] <= v < BASE_DIST[c] + Pow2(EXTRA_DBITS[c])
    ensures v < 32768 && DistCode(v) == c
  {
    hide Pow2;
    DistSpans(c);
    DistsAscend();
    if c + 1 < D_CODES { DistBelow(c + 1); }
    CodeIs(BASE_DIST, v, D_CODES, c);
  }

  lemma DistBelow(c: nat)
    requires c < D_CODES
    ensures BASE_DIST[c] <= 24576
  {
    DistsAscend();
    if c < 29 { assert BASE_DIST[c] < BASE_DIST[29]; }
  }

  function DistStart(c: nat): nat
    requires c <= D_CODES
  {
    if c < D_CODES then BASE_DIST[c] else 32768
  }

  lemma DistSpan(c: nat)
    requires c < D_CODES
    ensures DistStart(c) + Pow2(EXTRA_DBITS[c]) == DistStart(c + 1) <= 32768
    ensures c < 16 ==> DistStart(c + 1) <= 256
    ensures DistStart(16) == 256
  {
    hide Pow2;
    DistSpans(c);
    DistsAscend();
    if c + 1 < D_CODES { DistBelow(c + 1); }
    if c + 1 < 16 { assert BASE_DIST[c + 1] < BASE_DIST[16]; }
  }

  /** From code 16 on all spans are multiples of 128. */
  lemma UpperSpan(c: nat)
    requires 16 <= c < D_CODES
    ensures EXTRA_DBITS[c] >= 7 && 128 * Pow2(EXTRA_DBITS[c] - 7) == Pow2(EXTRA_DBITS[c])
  {
    assert EXTRA_DBITS[c] >= 7;
    assert Pow2(7) == 128;
    Pow2Add(7, EXTRA_DBITS[c] - 7);
  }

  /** The codes of the distances below n, of which those from 256 on are looked up 128 at a time. */
  ghost predicate DistCodes(t: seq<nat>, n: nat) {
    |t| == 512 && n <= 32768 && forall d :: 0 <= d < n ==> DCode(t, d) == DistCode(d)
  }

  /** The mapping for the first 16 codes. */
  method LowerTables(base: array<nat>, distCode: array<nat>)
    requires base.Length == D_CODES && distCode.Length == 512 && base != distCode
    modifies base, distCode
    ensures DistCodes(distCode[..], 256) && forall i :: 0 <= i < 16 ==> base[i] == BASE_DIST[i]
  {
    hide Pow2, DistCode;
    var dist, code := 0, 0;
    while code < 16
      invariant 0 <= code <= 16 && dist == DistStart(code) <= 256 && DistCodes(distCode[..], dist)
      invariant forall i :: 0 <= i < code ==> base[i] == BASE_DIST[i]
    {
      base[code] := dist;
      DistSpan(code);
      Fill(distCode, dist, Pow2(EXTRA_DBITS[code]), code);
      dist := dist + Pow2(EXTRA_DBITS[code]);
      forall i | DistStart(code) <= i < dist ensures DistCode(i) == code { DistSpanCodes(code, i); }
      code := code + 1;
    }
    DistSpan(0);
  }

  /** The mapping for the other codes, with all distances divided by 128. */
  method UpperTables(base: array<nat>, distCode: array<nat>)
    requires base.Length == D_CODES && distCode.Length == 512 && base != distCode
    requires DistCodes(distCode[..], 256) && forall i :: 0 <= i < 16 ==> base[i] == BASE_DIST[i]
    modifies base, distCode
    ensures DistCodes(distCode[..], 32768) && base[..] == BASE_DIST
  {
    hide Pow2, DistCode;
    var dist, code := 2, 16;
    DistSpan(0);
    while code < D_CODES
      invariant 16 <= code <= D_CODES && 128 * dist == DistStart(code) && 2 <= dist <= 256
      invariant DistCodes(distCode[..], 128 * dist)
      invariant forall i :: 0 <= i < code ==> base[i] == BASE_DIST[i]
    {
      base[code] := 128 * dist;
      DistSpan(code);
      UpperSpan(code);
      var n := Pow2(EXTRA_DBITS[code] - 7);
      ghost var before: seq<nat> := distCode[..];
      Fill(distCode, 256 + dist, n, code);
      UpperKept(before, distCode[..], dist, n, code);
      dist := dist + n;
      code := code + 1;
    }
  }

  lemma UpperKept(t: seq<nat>, t': seq<nat>, dist: nat, n: nat, code: nat)
    requires 16 <= code < D_CODES && 128 * dist == DistStart(code) && 128 * n == Pow2(EXTRA_DBITS[code]) && 2 <= dist
    requires dist + n <= 256
    requires DistCodes(t, 128 * dist) && |t'| == 512
    requires forall i :: 0 <= i < 512 ==> t'[i] == if 256 + dist <= i < 256 + dist + n then code else t[i]
    ensures DistCodes(t', 128 * (dist + n))
  {
    hide Pow2, DistCode;
    forall d | 0 <= d < 128 * (dist + n) ensures DCode(t', d) == DistCode(d) {
      if d < 128 * dist {
        assert DCode(t, d) == DistCode(d);
      } else {
        DistSpanCodes(code, d);
      }
    }
  }

  method DistTables() returns (base: array<nat>, distCode: array<nat>)
    ensures fresh(base) && base[..] == BASE_DIST && fresh(distCode)
    ensures distCode.Length == 512 && forall d :: 0 <= d < 32768 ==> DCode(distCode[..], d) == DistCode(d)
  {
    base, distCode := new nat[D_CODES], new nat[512];
    LowerTables(base, distCode);
    UpperTables(base, distCode);
  }

  // ----- the static trees -----

  /** The static literal tree: its lengths and codes. */
  method StaticLtree() returns (fc: array<nat>, dl: array<nat>)
    ensures fresh(fc) && fresh(dl) && fc.Length == dl.Length == 288 && dl[..] == FixedLl()
    ensures forall n :: 0 <= n < 288 ==> fc[n] == RevCode(FixedLl(), n)
  {
    hide Kraft, Pow2, RevCode, Count;
    fc, dl := new nat[288], new nat[288];
    var blCount := new nat[MAXBITS + 1](_ => 0);
    var n := 0;
    CountsZero(FixedLl());
    while n < 288
      invariant 0 <= n <= 288 && fresh(fc) && fresh(dl) && dl[..n] == FixedLl()[..n]
      invariant CountsOf(blCount[..], FixedLl()[..n])
    {
      var len := if n <= 143 then 8 else if n <= 255 then 9 else if n <= 279 then 7 else 8;
      dl[n] := len;
      assert len == FixedLl()[n];
      CountNext(FixedLl(), n);
      blCount[len] := blCount[len] + 1;
      assert dl[..n + 1] == FixedLl()[..n + 1];
      n := n + 1;
    }
    assert FixedLl()[..288] == FixedLl() && dl[..287 + 1] == FixedLl();
    FixedComplete();
    GenCodes.GenCodes(fc, dl, 287, blCount);
  }

  /** Fixed distance codes are the numbers themselves. */
  lemma FixedDistCode(n: nat)
    requires n < 32
    ensures RevCode(FixedDl(), n) == Rev(n, 5)
  {
    hide Kraft, Pow2, RevCode, Count, Rev, FixedDl, FirstCode;
    FixedComplete();
    FixedDistCounts(n);
    FixedDistCounts(32);
    assert FixedDl()[..32] == FixedDl() && FixedDl()[n] == 5 by { FiveBits(n); }
    RevCodeIs(FixedDl(), n);
    FirstCodeStep(FixedDl(), 1);
    FirstCodeStep(FixedDl(), 2);
    FirstCodeStep(FixedDl(), 3);
    FirstCodeStep(FixedDl(), 4);
    FirstCodeStep(FixedDl(), 5);
  }

  lemma FiveBits(n: nat)
    requires n < 32
    ensures FixedDl()[n] == 5 && FixedDl()[..32] == FixedDl()
  {
  }

  /** The static distance tree is trivial. */
  method StaticDtree() returns (fc: array<nat>)
    ensures fresh(fc) && fc.Length == D_CODES && forall n :: 0 <= n < D_CODES ==> fc[n] == RevCode(FixedDl(), n)
  {
    hide RevCode, Rev, FixedDl;
    fc := new nat[D_CODES];
    for n := 0 to D_CODES
      invariant forall i :: 0 <= i < n ==> fc[i] == RevCode(FixedDl(), i)
    {
      var c := BiReverse(n, 5);
      FixedDistCode(n);
      fc[n] := c;
    }
  }
}
