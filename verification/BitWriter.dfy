/** The bit output of trees.c: send_bits, bi_flush, bi_windup and put_byte, over the bit buffer
    and the pending buffer of deflate_state. */
module BitWriter {
  import opened Bits

  type Byte = b: nat | b < 256

  /** The bits of a sequence of bytes, in stream order. */
  function BytesBits(bytes: seq<Byte>): (s: seq<bool>)
    ensures |s| == 8 * |bytes|
  {
    if bytes == [] then [] else BytesBits(bytes[..|bytes| - 1]) + ToBits(bytes[|bytes| - 1], 8)
  }

  lemma BytesBitsPush(bytes: seq<Byte>, b: Byte)
    ensures BytesBits(bytes + [b]) == BytesBits(bytes) + ToBits(b, 8)
  {
    assert (bytes + [b])[..|bytes|] == bytes;
  }

  /** n zero bits. */
  function Zeros(n: nat): (s: seq<bool>)
    ensures |s| == n
  {
    seq(n, _ => false)
  }

  lemma {:induction false} ToBitsZeros(v: nat, k: nat, n: nat)
    requires v < Pow2(k) && k <= n
    ensures ToBits(v, n) == ToBits(v, k) + Zeros(n - k)
  {
    if n > 0 {
      if k > 0 { ToBitsZeros(v / 2, k - 1, n - 1); } else { ToBitsZeros(v, 0, n - 1); }
    }
  }

  class BitWriter {
    const pendingBuf: array<Byte>
    var pending: nat
    var biBuf: nat
    var biValid: nat
    var biUsed: nat

    ghost predicate Valid()
      reads this
    {
      pending <= pendingBuf.Length && biValid <= 16 && biBuf < Pow2(biValid)
    }

    /** All bits sent so far and not yet taken from the pending buffer. */
    ghost function Sent(): seq<bool>
      requires Valid()
      reads this, pendingBuf
    {
      BytesBits(pendingBuf[..pending]) + ToBits(biBuf, biValid)
    }

    constructor (buf: array<Byte>)
      ensures Valid() && Sent() == [] && pendingBuf == buf && pending == 0 && biValid == 0
    {
      pendingBuf, pending, biBuf, biValid, biUsed := buf, 0, 0, 0, 0;
    }

    method PutByte(c: nat)
      requires pending < pendingBuf.Length
      modifies this`pending, pendingBuf
      ensures pending == old(pending) + 1 <= pendingBuf.Length
      ensures pendingBuf[..] == old(pendingBuf[..])[old(pending) := Low(c, 8)]
      ensures BytesBits(pendingBuf[..pending]) == BytesBits(old(pendingBuf[..pending])) + ToBits(c, 8)
    {
      LowByte(c);
      pendingBuf[pending] := Low(c, 8);
      pending := pending + 1;
      assert pendingBuf[..pending] == old(pendingBuf[..pending]) + [Low(c, 8)];
      BytesBitsPush(old(pendingBuf[..pending]), Low(c, 8));
      ToBitsLow(c, 8);
    }

    /** put_short: the low byte and then the high byte of w. */
    method PutShort(w: nat)
      requires pending + 2 <= pendingBuf.Length
      modifies this`pending, pendingBuf
      ensures pending == old(pending) + 2 <= pendingBuf.Length
      ensures forall i :: 0 <= i < pendingBuf.Length && (i < old(pending) || i >= pending) ==>
                pendingBuf[i] == old(pendingBuf[i])
      ensures BytesBits(pendingBuf[..pending]) == BytesBits(old(pendingBuf[..pending])) + ToBits(w, 16)
    {
      hide Low, High, Pow2, ToBits, BytesBits;
      PutByte(w);
      PutByte(High(w, 8));
      ToBitsSplit(w, 8, 8);
    }

    /** Send a value on length bits. */
    method SendBits(value: nat, length: nat)
      requires Valid() && 1 <= length <= 16 && value < Pow2(length) && pending + 2 <= pendingBuf.Length
      modifies this`pending, this`biBuf, this`biValid, pendingBuf
      ensures Valid() && Sent() == old(Sent()) + ToBits(value, length)
      ensures pending == old(pending) || pending == old(pending) + 2
      ensures 8 * pending + biValid == 8 * old(pending) + old(biValid) + length && biValid > 0
      ensures forall i :: 0 <= i < pendingBuf.Length && (i < old(pending) || i >= pending) ==>
                pendingBuf[i] == old(pendingBuf[i])
    {
      hide Low, High, Pow2, ToBits, BytesBits, Shl, Or;
      ghost var bytes, bits := BytesBits(pendingBuf[..pending]), ToBits(biBuf, biValid);
      OrAbove(biBuf, value, biValid);
      SendFits(biBuf, biValid, value, length);
      if biValid > 16 - length {
        biBuf := Low(Or(biBuf, Shl(value, biValid)), 16);
        PutShort(biBuf);
        biBuf := High(value, 16 - biValid);
        biValid := biValid + length - 16;
        assert bytes + (bits + ToBits(value, length)) == bytes + bits + ToBits(value, length);
      } else {
        biBuf := Low(Or(biBuf, Shl(value, biValid)), 16);
        biValid := biValid + length;
      }
    }

    /** Flush the bit buffer, keeping at most 7 bits in it. */
    method BiFlush()
      requires Valid() && (biValid < 8 || pending + 2 <= pendingBuf.Length)
      modifies this`pending, this`biBuf, this`biValid, pendingBuf
      ensures Valid() && Sent() == old(Sent()) && biValid <= 7
      ensures 8 * pending + biValid == 8 * old(pending) + old(biValid)
    {
      hide Low, High, Pow2, ToBits, BytesBits;
      NoBits();
      if biValid == 16 {
        PutShort(biBuf);
        biBuf := 0;
        biValid := 0;
      } else if biValid >= 8 {
        ToBitsSplit(biBuf, 8, biValid - 8);
        HighBelow(biBuf, 8, biValid - 8);
        ghost var bytes := BytesBits(pendingBuf[..pending]);
        ghost var lo, hi := ToBits(biBuf, 8), ToBits(High(biBuf, 8), biValid - 8);
        PutByte(biBuf);
        biBuf := High(biBuf, 8);
        biValid := biValid - 8;
        assert bytes + (lo + hi) == bytes + lo + hi;
      }
    }

    /** Flush the bit buffer and align the output on a byte boundary. */
    method BiWindup()
      requires Valid() && pending + 2 <= pendingBuf.Length
      modifies this, pendingBuf
      ensures Valid() && biValid == 0 && exists n :: 0 <= n < 8 && Sent() == old(Sent()) + Zeros(n)
      ensures 8 * pending == (8 * old(pending) + old(biValid) + 7) / 8 * 8
    {
      hide Low, High, Pow2, ToBits, BytesBits;
      NoBits();
      ghost var bytes, bits, n := BytesBits(pendingBuf[..pending]), ToBits(biBuf, biValid), 0;
      if biValid > 8 {
        n := 16 - biValid;
        ToBitsZeros(biBuf, biValid, 16);
        PutShort(biBuf);
      } else if biValid > 0 {
        n := 8 - biValid;
        ToBitsZeros(biBuf, biValid, 8);
        PutByte(biBuf);
      }
      biUsed := (biValid + 7) % 8 + 1;
      biBuf := 0;
      biValid := 0;
      assert bytes + (bits + Zeros(n)) == bytes + bits + Zeros(n);
      assert Sent() == old(Sent()) + Zeros(n);
    }
  }

  lemma LowByte(c: nat)
    ensures Low(c, 8) < 256
  {
    assert Pow2(8) == 256;
  }

  lemma NoBits()
    ensures Pow2(0) == 1 && ToBits(0, 0) == []
  {
  }

  /** Placing the bits of a value above the valid bits, in one buffer or across two. */
  lemma SendFits(buf: nat, valid: nat, value: nat, length: nat)
    requires valid <= 16 && 1 <= length <= 16 && buf < Pow2(valid) && value < Pow2(length)
    ensures var x := Shl(value, valid) + buf;
            valid + length <= 16 ==>
              Low(x, 16) == x < Pow2(valid + length) &&
              ToBits(x, valid + length) == ToBits(buf, valid) + ToBits(value, length)
    ensures var x := Shl(value, valid) + buf;
            valid + length > 16 ==>
              High(value, 16 - valid) < Pow2(valid + length - 16) &&
              ToBits(Low(x, 16), 16) + ToBits(High(value, 16 - valid), valid + length - 16)
                == ToBits(buf, valid) + ToBits(value, length)
  {
    hide Low, High, Pow2, ToBits, Shl;
    var x := Shl(value, valid) + buf;
    ToBitsConcat(buf, valid, value, length);
    LowHighOf(value, buf, valid);
    if valid + length <= 16 {
      SumBelow(buf, valid, value, length);
      Pow2Mono(valid + length, 16);
      LowSmall(x, 16);
    } else {
      HighBelow(value, 16 - valid, valid + length - 16);
      ToBitsSplit(x, 16, valid + length - 16);
      ToBitsLow(x, 16);
      HighHigh(x, valid, 16 - valid);
    }
  }

  lemma SumBelow(buf: nat, valid: nat, value: nat, length: nat)
    requires buf < Pow2(valid) && value < Pow2(length)
    ensures Shl(value, valid) + buf < Pow2(valid + length)
  {
    ShlMono(value, Pow2(length), valid);
    ShlOne(length);
    ShlShl(1, length, valid);
    ShlOne(length + valid);
  }
}
