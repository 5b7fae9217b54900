/** gen_codes and bi_reverse of trees.c: code bit strings from code lengths. */
module GenCodes {
  import opened Bits
  import opened Canonical

  /** Reverse the first len bits of a code, one bit at a time. */
  method BiReverse(code: nat, len: nat) returns (res: nat)
    requires 1 <= len
    ensures res == Rev(code, len)
  {
    hide Rev, Shl;
    var c, l: nat, r: nat := code, len, 0;
    ghost var done: nat := 0;
    ReverseStart(code, len);
    while l > 0
      invariant r == 2 * done && Rev(code, len) == Shl(done, l) + Rev(c, l)
    {
      ReverseStep(done, c, l);
      OrBit(done, c % 2);
      r := Or(r, c % 2);
      done := r;
      c := c / 2;
      r := 2 * r;
      l := l - 1;
    }
    ReverseEnd(done, c);
    res := r / 2;
  }

  lemma OrBit(d: nat, b: nat)
    requires b < 2
    ensures Or(2 * d, b) == 2 * d + b
  {
    if d > 0 { OrZero(d); }
  }

  lemma ReverseStart(code: nat, len: nat)
    ensures Rev(code, len) == Shl(0, len) + Rev(code, len)
  {
    ShlZero(len);
  }

  lemma ReverseStep(done: nat, c: nat, l: nat)
    requires l > 0
    ensures Shl(done, l) + Rev(c, l) == Shl(2 * done + c % 2, l - 1) + Rev(c / 2, l - 1)
  {
    ShlInto(done, l - 1);
    ShlAdd(2 * done, c % 2, l - 1);
  }

  lemma ReverseEnd(done: nat, c: nat)
    ensures Shl(done, 0) + Rev(c, 0) == done
  {
  }

  // ----- code values stay within their lengths, hence within 16 bits -----

  lemma FirstCodeFits(lens: seq<nat>, b: nat)
    requires 1 <= b <= MAXBITS && Kraft(lens) <= Pow2(MAXBITS)
    ensures FirstCode(lens, b) + Count(lens, b) <= Pow2(b) <= 32768
  {
    hide Shl, FirstCode, Count, KraftTo;
    FirstCodePos(lens, b);
    var f, c := FirstCode(lens, b), Count(lens, b);
    ShlAdd(f, c, MAXBITS - b);
    assert KraftTo(lens, b) == KraftTo(lens, b - 1) + Shl(c, MAXBITS - b) by { KraftUnfold(lens, b); }
    KraftBound(lens, b);
    Pow2Mono(b, MAXBITS);
    FifteenBits();
    if f + c > Pow2(b) {
      ShlMono(Pow2(b), f + c, MAXBITS - b);
      ShlOne(b);
      ShlShl(1, b, MAXBITS - b);
      ShlOne(MAXBITS);
    }
  }

  lemma KraftUnfold(lens: seq<nat>, b: nat)
    requires 1 <= b <= MAXBITS
    ensures KraftTo(lens, b) == KraftTo(lens, b - 1) + Shl(Count(lens, b), MAXBITS - b)
  {
  }

  lemma {:induction false} KraftBound(lens: seq<nat>, b: nat)
    requires b <= MAXBITS
    ensures KraftTo(lens, b) <= Kraft(lens)
    decreases MAXBITS - b
  {
    if b < MAXBITS { KraftBound(lens, b + 1); }
  }

  /** bl_count holds the length statistics of lens. */
  predicate CountsOf(blCount: seq<nat>, lens: seq<nat>) {
    |blCount| == MAXBITS + 1 && blCount[0] == 0 && forall b :: 1 <= b <= MAXBITS ==> blCount[b] == Count(lens, b)
  }

  /** Set the code field of every symbol with a nonzero length to its canonical code, as it is sent:
      dl holds the lengths and fc the codes of the symbols 0 to maxCode. */
  method GenCodes(fc: array<nat>, dl: array<nat>, maxCode: int, blCount: array<nat>)
    requires -1 <= maxCode < dl.Length && maxCode < fc.Length && fc != dl && fc != blCount
    requires ValidLens(dl[..maxCode + 1]) && Kraft(dl[..maxCode + 1]) <= Pow2(MAXBITS)
    requires CountsOf(blCount[..], dl[..maxCode + 1])
    modifies fc
    ensures forall n :: 0 <= n < fc.Length ==>
              fc[n] == if n <= maxCode && dl[n] != 0 then RevCode(dl[..maxCode + 1], n) else old(fc[n])
  {
    hide Pow2, Kraft, FirstCode, Rev, Count, Seg, RevCode, CountsOf;
    ghost var lens := dl[..maxCode + 1];
    var nextCode := NextCodes(blCount, lens);
    for n := 0 to maxCode + 1
      invariant forall b :: 1 <= b <= MAXBITS ==> nextCode[b] == FirstCode(lens, b) + Count(lens[..n], b)
      invariant forall i :: 0 <= i < fc.Length ==>
                  fc[i] == if i < n && lens[i] != 0 then RevCode(lens, i) else old(fc[i])
    {
      var len := dl[n];
      assert len == lens[n];
      CountNext(lens, n);
      if len != 0 {
        var c := BiReverse(nextCode[len], len);
        RevCodeIs(lens, n);
        nextCode[len] := nextCode[len] + 1;
        fc[n] := c % 65536;
      }
    }
  }

  lemma RevCodeIs(lens: seq<nat>, n: nat)
    requires n < |lens| && 1 <= lens[n] <= MAXBITS && Kraft(lens) <= Pow2(MAXBITS)
    ensures RevCode(lens, n) == Rev(FirstCode(lens, lens[n]) + Count(lens[..n], lens[n]), lens[n]) < 65536
  {
    hide Pow2, Rev, FirstCode, Count;
    Pow2Mono(lens[n], MAXBITS);
    FifteenBits();
  }

  /** The first code value for each bit length. */
  method NextCodes(blCount: array<nat>, ghost lens: seq<nat>) returns (nextCode: array<nat>)
    requires CountsOf(blCount[..], lens) && Kraft(lens) <= Pow2(MAXBITS)
    ensures fresh(nextCode) && nextCode.Length == MAXBITS + 1
    ensures forall b :: 1 <= b <= MAXBITS ==> nextCode[b] == FirstCode(lens, b) + Count(lens[..0], b)
  {
    hide Pow2, Kraft, FirstCode, Count, Seg;
    nextCode := new nat[MAXBITS + 1];
    var code := 0;
    for bits := 1 to MAXBITS + 1
      invariant bits == 1 ==> code == 0
      invariant bits > 1 ==> code == FirstCode(lens, bits - 1)
      invariant forall b :: 1 <= b < bits ==> nextCode[b] == FirstCode(lens, b)
    {
      FirstCodeStep(lens, bits);
      FirstCodeFits(lens, bits);
      code := (code + blCount[bits - 1]) * 2;
      nextCode[bits] := code % 65536;
    }
    CountsZero(lens);
  }

  lemma FifteenBits()
    ensures Pow2(MAXBITS) == 32768
  {
    assert Pow2(15) == 32768;
  }

  lemma FirstCodeStep(lens: seq<nat>, b: nat)
    requires 1 <= b
    ensures b == 1 ==> FirstCode(lens, b) == 0
    ensures b > 1 ==> FirstCode(lens, b) == (FirstCode(lens, b - 1) + Count(lens, b - 1)) * 2
  {
  }

  lemma CountsZero(lens: seq<nat>)
    ensures forall b :: Count(lens[..0], b) == 0
  {
    assert lens[..0] == [];
  }

  lemma CountNext(lens: seq<nat>, n: nat)
    requires n < |lens|
    ensures forall b :: Count(lens[..n + 1], b) == Count(lens[..n], b) + if lens[n] == b then 1 else 0
  {
    assert lens[..n + 1][..n] == lens[..n];
  }
}
