/** The bit accumulator of inflate.c: PULLBYTE, NEEDBITS, BITS, DROPBITS, BYTEBITS and INITBITS over
    the input of the current call. */
module BitReader {
  import opened Bits
  import opened BitWriter
  import opened Format
  import opened Codec
  import opened Blocks
  import opened Lookup

  /** The bits of hold, least significant first, and then those of the bytes to come. */
  function Stream(hold: nat, bits: nat, input: seq<Byte>): (q: seq<bool>)
    ensures |q| == bits + 8 * |input|
  {
    ToBits(hold, bits) + BytesBits(input)
  }

  lemma StreamPull(hold: nat, bits: nat, input: seq<Byte>)
    requires input != [] && hold < Pow2(bits)
    ensures hold + Shl(input[0], bits) < Pow2(bits + 8)
    ensures Stream(hold + Shl(input[0], bits), bits + 8, input[1..]) == Stream(hold, bits, input)
  {
    hide ToBits, Shl, Pow2, BytesBits;
    SixteenBits();
    SumBelow(hold, bits, input[0], 8);
    ToBitsConcat(hold, bits, input[0], 8);
    BytesBitsFirst(input[0], input[1..]);
    assert [input[0]] + input[1..] == input;
    assert ToBits(hold, bits) + ToBits(input[0], 8) + BytesBits(input[1..]) ==
           ToBits(hold, bits) + (ToBits(input[0], 8) + BytesBits(input[1..]));
  }

  lemma StreamDrop(hold: nat, bits: nat, input: seq<Byte>, n: nat)
    requires n <= bits && hold < Pow2(bits)
    ensures High(hold, n) < Pow2(bits - n)
    ensures Stream(High(hold, n), bits - n, input) == Stream(hold, bits, input)[n..]
    ensures FromBits(Stream(hold, bits, input)[..n]) == Low(hold, n)
  {
    hide ToBits, High, Low, Pow2, BytesBits, FromBits;
    HighBelow(hold, n, bits - n);
    ToBitsSplit(hold, n, bits - n);
    var a, b := ToBits(hold, n), ToBits(High(hold, n), bits - n);
    assert a + b + BytesBits(input) == a + (b + BytesBits(input));
    Take(a, b + BytesBits(input));
    Drop(a, b + BytesBits(input));
    FromToBits(hold, n);
  }

  /** The bits in hand are those of hold. */
  lemma StreamHeld(hold: nat, bits: nat, input: seq<Byte>)
    requires hold < Pow2(bits)
    ensures Holds(hold, Stream(hold, bits, input)[..bits]) && FromBits(Stream(hold, bits, input)[..bits]) == hold
  {
    hide ToBits, Low, Pow2, BytesBits, FromBits;
    StreamDrop(hold, bits, input, bits);
    LowSmall(hold, bits);
  }

  lemma StreamEmpty(hold: nat, input: seq<Byte>)
    ensures Stream(hold, 0, input) == BytesBits(input)
  {
    assert [] + BytesBits(input) == BytesBits(input);
  }

  /** b is the end of a. */
  ghost predicate Ends<T>(a: seq<T>, b: seq<T>) { |b| <= |a| && b == a[|a| - |b|..] }

  lemma EndsTrans<T>(a: seq<T>, b: seq<T>, c: seq<T>)
    requires Ends(a, b) && Ends(b, c)
    ensures Ends(a, c)
  {
  }

  /** Whole bytes in the accumulator that have come from the input given in0 can go back to it. */
  lemma StreamBack(hold: nat, bits: nat, input: seq<Byte>, q0: seq<bool>, h0: nat, b0: nat, in0: seq<Byte>)
    requires hold < Pow2(bits) && q0 == Stream(h0, b0, in0) && Ends(q0, Stream(hold, bits, input)) && Ends(in0, input)
    requires bits / 8 <= |in0| - |input|
    ensures Stream(Low(hold, bits % 8), bits % 8, in0[|in0| - |input| - bits / 8..]) == Stream(hold, bits, input)
  {
    hide ToBits, High, Low, Pow2, BytesBits, FromBits;
    var m, k, q := bits % 8, |in0| - |input| - bits / 8, Stream(hold, bits, input);
    assert in0 == in0[..k] + in0[k..];
    BytesBitsConcat(in0[..k], in0[k..]);
    assert q0 == (ToBits(h0, b0) + BytesBits(in0[..k])) + BytesBits(in0[k..]);
    assert q[m..] == BytesBits(in0[k..]);
    StreamDrop(hold, bits, input, m);
    ToFromBits(q[..m]);
    assert q == q[..m] + q[m..];
  }

  class BitReader {
    var input: seq<Byte>  // next_in and avail_in
    var hold: nat
    var bits: nat

    constructor ()
      ensures Valid() && input == [] && bits == 0
    {
      input, hold, bits := [], 0, 0;
    }

    ghost predicate Valid()
      reads this
    {
      hold < Pow2(bits)
    }

    /** All bits not yet used. */
    ghost function Q(): seq<bool>
      reads this
    {
      Stream(hold, bits, input)
    }

    method PullByte() returns (ok: bool)
      requires Valid()
      modifies this
      ensures Valid() && Q() == old(Q()) && ok == (old(input) != [])
      ensures if ok then bits == old(bits) + 8 && input == old(input)[1..] && Low(hold, old(bits)) == old(hold)
              else bits == old(bits) && hold == old(hold) && input == old(input)
    {
      hide Stream, Shl, Low, Pow2;
      if input == [] { return false; }
      StreamPull(hold, bits, input);
      LowHighOf(input[0], hold, bits);
      hold := hold + Shl(input[0], bits);
      bits := bits + 8;
      input := input[1..];
      ok := true;
    }

    /** Get n bits into the accumulator, unless the input ends first. */
    method NeedBits(n: nat) returns (ok: bool)
      requires Valid()
      modifies this
      ensures Valid() && Q() == old(Q()) && |input| <= |old(input)|
      ensures if ok then bits >= n && (bits == old(bits) || bits <= n + 7)
              else bits < n && input == [] && bits >= old(bits)
      ensures (bits - old(bits)) % 8 == 0
    {
      hide Stream, Low, Pow2;
      ok := true;
      while bits < n
        invariant Valid() && Q() == old(Q()) && bits >= old(bits) && |input| <= |old(input)|
        invariant bits == old(bits) || bits <= n + 7
        invariant (bits - old(bits)) % 8 == 0
      {
        ok := PullByte();
        if !ok { return; }
      }
    }

    /** BITS(n) and DROPBITS(n) */
    method TakeBits(n: nat) returns (v: nat)
      requires Valid() && n <= bits
      modifies this`hold, this`bits
      ensures Valid() && bits == old(bits) - n && Q() == old(Q())[n..] && v == FromBits(old(Q())[..n]) && v < Pow2(n)
      ensures hold == High(old(hold), n)
    {
      hide Stream, Low, High, Pow2, FromBits;
      StreamDrop(hold, bits, input, n);
      v := Low(hold, n);
      hold := High(hold, n);
      bits := bits - n;
    }

    /** BYTEBITS() */
    method ByteBits()
      requires Valid()
      modifies this`hold, this`bits
      ensures Valid() && Q() == Aligned(old(Q())) && bits == old(bits) / 8 * 8
    {
      hide Stream, Low, High, Pow2, FromBits;
      var n := bits % 8;
      StreamDrop(hold, bits, input, n);
      StreamSize();
      hold := High(hold, n);
      bits := bits - n;
    }

    lemma StreamSize()
      ensures |Q()| == bits + 8 * |input|
    {
    }

    /** INITBITS() */
    method InitBits()
      requires Valid()
      modifies this`hold, this`bits
      ensures Valid() && bits == 0 && Q() == old(Q())[old(bits)..]
    {
      hide Stream, Low, High, Pow2, FromBits;
      StreamDrop(hold, bits, input, bits);
      HoldNone(High(hold, bits));
      hold := 0;
      bits := 0;
    }

    lemma HoldNone(h: nat)
      requires h < Pow2(0)
      ensures h == 0
    {
    }

    /** Return unused bytes, of those pulled from in0, to the input. */
    method GiveBack(in0: seq<Byte>, ghost h0: nat, ghost b0: nat)
      requires Valid() && Ends(Stream(h0, b0, in0), Q()) && Ends(in0, input) && bits / 8 <= |in0| - |input|
      modifies this
      ensures Valid() && bits <= 7 && Q() == old(Q())
    {
      hide Stream, Low, Pow2, Ends;
      StreamBack(hold, bits, input, Stream(h0, b0, in0), h0, b0, in0);
      var len := bits / 8;
      input := in0[|in0| - |input| - len..];
      bits := bits - 8 * len;
      hold := Low(hold, bits);
    }
  }
}
