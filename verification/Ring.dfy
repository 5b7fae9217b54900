/** The sliding window of inflate.c, a ring buffer of the last 32K of output: updatewindow and
    inflateGetDictionary. */
module Ring {
  import opened BitWriter

  const WSIZE: nat := 32768

  type Size = n: nat | n == 0 || n == WSIZE

  type Place = n: nat | n <= WSIZE

  /** Where the byte k back from the end of the output is. */
  function At(wnext: nat, k: nat): int {
    if k <= wnext then wnext - k else wnext + WSIZE - k
  }

  /** The ring has the last whave bytes of the output hist, and all of a window if there are so many. */
  ghost predicate Keeps(window: seq<Byte>, wsize: nat, wnext: nat, whave: nat, hist: seq<Byte>) {
    |window| == WSIZE && wnext < WSIZE && whave == (if |hist| < WSIZE then |hist| else WSIZE) &&
    (if wsize == 0 then hist == [] && wnext == 0 else wsize == WSIZE && (whave < WSIZE ==> wnext == whave)) &&
    forall k :: 1 <= k <= whave ==> 0 <= At(wnext, k) < WSIZE && window[At(wnext, k)] == hist[|hist| - k]
  }

  /** Output that fits before the end of the ring. */
  lemma Appended(w: seq<Byte>, w': seq<Byte>, wnext: nat, whave: nat, hist: seq<Byte>, out: seq<Byte>)
    requires |w'| == |w| && wnext + |out| <= WSIZE && |out| < WSIZE
    requires Keeps(w, WSIZE, wnext, whave, hist)
    requires forall i :: 0 <= i < |w| ==> w'[i] == if wnext <= i < wnext + |out| then out[i - wnext] else w[i]
    ensures Keeps(w', WSIZE, if wnext + |out| == WSIZE then 0 else wnext + |out|,
                  if whave < WSIZE then whave + |out| else whave, hist + out)
  {
    var n, all := |out|, hist + out;
    var wnext' := if wnext + n == WSIZE then 0 else wnext + n;
    var whave' := if whave < WSIZE then whave + n else whave;
    forall k | 1 <= k <= whave' ensures 0 <= At(wnext', k) < WSIZE && w'[At(wnext', k)] == all[|all| - k] {
      if k > n {
        assert 0 <= At(wnext, k - n) < WSIZE && w[At(wnext, k - n)] == hist[|hist| - (k - n)];
        assert At(wnext', k) == At(wnext, k - n);
      }
    }
  }

  /** Output that goes around the end of the ring. */
  lemma Wrapped(w: seq<Byte>, w': seq<Byte>, wnext: nat, whave: nat, hist: seq<Byte>, out: seq<Byte>)
    requires |w'| == |w| && |out| < WSIZE && wnext + |out| > WSIZE
    requires Keeps(w, WSIZE, wnext, whave, hist)
    requires forall i :: 0 <= i < |w| ==>
               w'[i] == if i >= wnext then out[i - wnext] else if i < wnext + |out| - WSIZE then out[WSIZE - wnext + i]
                        else w[i]
    ensures Keeps(w', WSIZE, wnext + |out| - WSIZE, WSIZE, hist + out)
  {
    var n, all := |out|, hist + out;
    var wnext' := wnext + n - WSIZE;
    forall k | 1 <= k <= WSIZE ensures 0 <= At(wnext', k) < WSIZE && w'[At(wnext', k)] == all[|all| - k] {
      if k > n {
        assert 0 <= At(wnext, k - n) < WSIZE && w[At(wnext, k - n)] == hist[|hist| - (k - n)];
        assert At(wnext', k) == At(wnext, k - n);
      }
    }
  }

  class Ring {
    const window: array<Byte>
    var wsize: Size
    var whave: nat
    var wnext: Place

    constructor ()
      ensures Keeps(window[..], wsize, wnext, whave, []) && fresh(window)
    {
      window := new Byte[WSIZE];
      wsize, whave, wnext := 0, 0, 0;
    }

    ghost predicate Holds(hist: seq<Byte>)
      reads this, window
    {
      Keeps(window[..], wsize, wnext, whave, hist)
    }

    /** zmemcpy to the window */
    method CopyIn(at: nat, bytes: seq<Byte>)
      requires at + |bytes| <= window.Length
      modifies window
      ensures forall i :: 0 <= i < window.Length ==> window[i] == if at <= i < at + |bytes| then bytes[i - at]
                                                                  else old(window[i])
    {
      var i := 0;
      while i < |bytes|
        invariant 0 <= i <= |bytes|
        invariant forall j :: 0 <= j < window.Length ==> window[j] == if at <= j < at + i then bytes[j - at]
                                                                      else old(window[j])
      {
        window[at + i] := bytes[i];
        i := i + 1;
      }
    }

    /** updatewindow: keep the end of the output of a call. */
    method UpdateWindow(out: seq<Byte>, ghost hist: seq<Byte>)
      requires window.Length == WSIZE
      modifies this, window
      ensures old(Holds(hist)) ==> Holds(hist + out)
      ensures wsize == WSIZE
    {
      ghost var holds := Holds(hist);
      if wsize == 0 {
        wsize := WSIZE;
        wnext := 0;
        whave := 0;
      }
      var copy := |out|;
      if copy >= wsize {
        CopyIn(0, out[|out| - wsize..]);
        wnext := 0;
        whave := wsize;
      } else {
        var dist: nat := wsize - wnext;
        if dist > copy { dist := copy; }
        ghost var w: seq<Byte> := window[..];
        CopyIn(wnext, out[..dist]);
        copy := copy - dist;
        if copy > 0 {
          CopyIn(0, out[dist..]);
          if holds { Wrapped(w, window[..], wnext, whave, hist, out); }
          wnext := copy;
          whave := wsize;
        } else {
          if holds { Appended(w, window[..], wnext, whave, hist, out); }
          wnext := wnext + dist;
          if wnext == wsize { wnext := 0; }
          if whave < wsize { whave := whave + dist; }
        }
      }
    }

    /** inflateGetDictionary: the window's contents in order. */
    method GetDictionary(ghost hist: seq<Byte>) returns (dict: seq<Byte>)
      requires Holds(hist)
      ensures |dict| == whave <= |hist| && dict == hist[|hist| - whave..]
    {
      dict := window[wnext..whave] + window[..wnext];
      forall i | 0 <= i < whave ensures dict[i] == hist[|hist| - whave + i] {
        assert window[..][At(wnext, whave - i)] == hist[|hist| - (whave - i)];
      }
    }
  }
}
