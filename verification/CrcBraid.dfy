/** The tables of crc32.c and crc32_z: bytes up to a word boundary, then N interleaved braids of
    W-byte words, then the bytes that are left (N = 5, W = 8, little endian). */
module CrcBraid {
  import opened Gf2
  import opened GfMultiply
  import opened PowersOfX
  import opened Crc

  const N: nat := 5
  const W: nat := 8

  // ----- a byte at a time -----

  function Wide(b: bv8): bv32 { b as bv32 }

  /** x & 0xff */
  function LowByte(x: bv32): bv8 { (x & 0xff) as bv8 }

  /** x >> 8 */
  function Down(x: bv32): bv32 { x >> 8 }

  function High24(x: bv32): bv32 { x & 0xffffff00 }

  lemma SplitLow(x: bv32)
    ensures x == Xor(High24(x), Wide(LowByte(x)))
  {
    assert x == (x & 0xffffff00) ^ (x & 0xff);
  }

  lemma HighDown(x: bv32)
    ensures Step8(High24(x)) == Down(x)
  {
    ByteDown(High24(x));
    assert (x & 0xffffff00) & 0xff == 0 && (x & 0xffffff00) >> 8 == x >> 8;
  }

  lemma DownXor(c: bv32, b: bv8)
    ensures Down(Xor(c, Wide(b))) == Down(c)
  {
    assert (c ^ (b as bv32)) >> 8 == c >> 8;
  }

  /** The CRC of a byte. */
  function ByteCrc(b: bv8): bv32 { Steps(Wide(b), 8) }

  lemma EightIs(c: bv32)
    ensures Steps(c, 8) == Step8(c)
  {
    hide Step;
    ByteStep(c, 0);
  }

  /** Eight steps on the register are one lookup. */
  lemma OneByte(x: bv32)
    ensures Steps(x, 8) == Xor(Down(x), ByteCrc(LowByte(x)))
  {
    hide *;
    SplitLow(x);
    StepsXor(High24(x), Wide(LowByte(x)), 8);
    EightIs(High24(x));
    HighDown(x);
    ByteCrcIs(LowByte(x));
  }

  lemma ByteCrcIs(b: bv8)
    ensures ByteCrc(b) == Steps(Wide(b), 8)
  {
    hide Steps;
  }

  function Index(b: bv8): nat { b as nat }

  function ByteAt(i: nat): bv8
    requires i < 256
  {
    i as bv8
  }

  lemma IndexAt(b: bv8)
    ensures Index(b) < 256 && ByteAt(Index(b)) == b
  {
  }

  /** crc_table */
  ghost predicate ByteTable(t: seq<bv32>) {
    |t| == 256 && forall i: nat :: i < 256 ==> t[i] == ByteCrc(ByteAt(i))
  }

  /** An entry of the table: eight steps, one bit each. */
  method MakeEntry(b: bv8) returns (p: bv32)
    ensures p == ByteCrc(b)
  {
    hide Steps, Step, Wide, ByteCrc;
    p := Wide(b);
    StepsStart(p);
    var j: nat := 0;
    while j < 8
      invariant j <= 8 && p == Steps(Wide(b), j)
    {
      StepLast(Wide(b), j);
      p := Step(p);
      j := j + 1;
    }
    ByteCrcIs(b);
  }

  /** The CRC of bytes table of make_crc_table. */
  method MakeCrcTable() returns (t: array<bv32>)
    ensures fresh(t) && ByteTable(t[..])
  {
    hide ByteAt, ByteCrc;
    t := new bv32[256];
    var i: nat := 0;
    while i < 256
      invariant i <= 256 && forall j: nat :: j < i ==> t[j] == ByteCrc(ByteAt(j))
    {
      t[i] := MakeEntry(ByteAt(i));
      i := i + 1;
    }
  }

  lemma StepsStart(c: bv32)
    ensures Steps(c, 0) == c
  {
  }

  /** crc = (crc >> 8) ^ crc_table[(crc ^ *buf++) & 0xff] */
  method PutByte(t: array<bv32>, c: bv32, b: bv8, ghost seen: seq<bv8>, ghost start: bv32) returns (r: bv32)
    requires ByteTable(t[..]) && c == CrcFrom(start, seen)
    ensures r == CrcFrom(start, seen + [b])
  {
    hide *;
    var x := Xor(c, Wide(b));
    r := Xor(Down(c), Entry(t, LowByte(x)));
    DownXor(c, b);
    OneByte(x);
    CrcMore(start, seen, b);
  }

  lemma CrcMore(c: bv32, seen: seq<bv8>, b: bv8)
    ensures CrcFrom(c, seen + [b]) == Steps(Xor(CrcFrom(c, seen), Wide(b)), 8)
  {
    hide Steps, Xor;
    assert (seen + [b])[..|seen + [b]| - 1] == seen;
  }

  function Entry(t: array<bv32>, b: bv8): (p: bv32)
    requires ByteTable(t[..])
    reads t
    ensures p == ByteCrc(b)
  {
    IndexAt(b);
    t[..][Index(b)]
  }

  // ----- a word at a time -----

  function Xor64(a: bv64, b: bv64): bv64 { a ^ b }

  function Wide64(c: bv32): bv64 { c as bv64 }

  function LowByte64(x: bv64): bv8 { (x & 0xff) as bv8 }

  function Down64(x: bv64): bv64 { x >> 8 }

  /** The n low bytes of x, least significant first. */
  function Bytes(x: bv64, n: nat): (b: seq<bv8>)
    ensures |b| == n
    decreases n
  {
    if n == 0 then [] else [LowByte64(x)] + Bytes(Down64(x), n - 1)
  }

  /** x >> (8 * n) */
  function DownBy(x: bv64, n: nat): bv64
    decreases n
  {
    if n == 0 then x else DownBy(Down64(x), n - 1)
  }

  lemma XorDown(w: bv64, c: bv32)
    ensures Down64(Xor64(w, Wide64(c))) == Xor64(Down64(w), Wide64(Down(c)))
  {
  }

  lemma XorLow(w: bv64, c: bv32)
    ensures LowByte64(Xor64(w, Wide64(c))) == LowByte(Xor(Wide(LowByte64(w)), c))
  {
  }

  lemma Xor64Assoc(a: bv64, b: bv64, c: bv64)
    ensures Xor64(Xor64(a, b), c) == Xor64(a, Xor64(b, c))
  {
  }

  lemma WideXor(a: bv32, b: bv32)
    ensures Wide64(Xor(a, b)) == Xor64(Wide64(a), Wide64(b))
  {
  }

  lemma XorWide(x: bv64, a: bv32, b: bv32)
    ensures Xor64(Xor64(x, Wide64(a)), Wide64(b)) == Xor64(x, Wide64(Xor(a, b)))
  {
    hide *;
    Xor64Assoc(x, Wide64(a), Wide64(b));
    WideXor(a, b);
  }

  lemma WideInjective(a: bv32, b: bv32)
    requires Wide64(a) == Wide64(b)
    ensures a == b
  {
  }

  lemma NoneWide(a: bv32, x: bv64)
    ensures Xor64(0, Wide64(a)) == Wide64(a) && Xor64(x, Wide64(0)) == x
  {
  }

  /** data = (data >> 8) ^ crc_table[data & 0xff] */
  function Shift(x: bv64): bv64 { Xor64(Down64(x), Wide64(ByteCrc(LowByte64(x)))) }

  function Shifts(x: bv64, n: nat): bv64
    decreases n
  {
    if n == 0 then x else Shifts(Shift(x), n - 1)
  }

  /** Shifting out a byte of a word that has a register added to it. */
  lemma ShiftOne(w: bv64, c: bv32)
    ensures Shift(Xor64(w, Wide64(c))) == Xor64(Down64(w), Wide64(Steps(Xor(c, Wide(LowByte64(w))), 8)))
  {
    hide *;
    var x, y := Xor64(w, Wide64(c)), Xor(c, Wide(LowByte64(w)));
    ShiftIs(x);
    XorDown(w, c);
    XorLow(w, c);
    XorComm(c, Wide(LowByte64(w)));
    DownXor(c, LowByte64(w));
    OneByte(y);
    XorWide(Down64(w), Down(c), ByteCrc(LowByte(y)));
  }

  lemma ShiftIs(x: bv64)
    ensures Shift(x) == Xor64(Down64(x), Wide64(ByteCrc(LowByte64(x))))
  {
    hide Xor64, Down64, Wide64, ByteCrc, LowByte64;
  }

  /** After n shifts the n low bytes of w are in the register. */
  lemma {:induction false} ShiftsAre(w: bv64, c: bv32, n: nat)
    ensures Shifts(Xor64(w, Wide64(c)), n) == Xor64(DownBy(w, n), Wide64(CrcFrom(c, Bytes(w, n))))
    decreases n
  {
    hide Xor64, Wide64, Shift, Down64, LowByte64, Steps, Xor, Wide;
    if n > 0 {
      var b, rest := LowByte64(w), Bytes(Down64(w), n - 1);
      var d := Steps(Xor(c, Wide(b)), 8);
      ShiftOne(w, c);
      ShiftsAre(Down64(w), d, n - 1);
      CrcConcat(c, [b], rest);
      CrcMore(c, [], b);
      assert [] + [b] == [b];
    }
  }

  /** The CRC of the bytes of a word. */
  function WordCrc(x: bv64): bv32 { CrcFrom(0, Bytes(x, 8)) }

  lemma AllDown(x: bv64)
    ensures DownBy(x, 8) == 0
  {
    hide Down64;
    var y := Down64(Down64(Down64(Down64(x))));
    assert DownBy(x, 8) == DownBy(Down64(x), 7) == DownBy(Down64(Down64(x)), 6) ==
           DownBy(Down64(Down64(Down64(x))), 5) == DownBy(y, 4);
    assert DownBy(y, 4) == DownBy(Down64(y), 3) == DownBy(Down64(Down64(y)), 2) == DownBy(Down64(Down64(Down64(y))), 1);
    DownEight(x);
  }

  lemma DownEight(x: bv64)
    ensures Down64(Down64(Down64(Down64(Down64(Down64(Down64(Down64(x)))))))) == 0
  {
  }

  lemma ShiftWord(w: bv64, c: bv32)
    ensures Shifts(Xor64(w, Wide64(c)), 8) == Wide64(CrcFrom(c, Bytes(w, 8)))
  {
    hide *;
    ShiftsAre(w, c, 8);
    AllDown(w);
    NoneWide(CrcFrom(c, Bytes(w, 8)), 0);
  }

  /** The register may as well be added to the word. */
  lemma WordBytes(w: bv64, c: bv32)
    ensures WordCrc(Xor64(w, Wide64(c))) == CrcFrom(c, Bytes(w, 8))
  {
    hide Xor64, Wide64, CrcFrom, Shifts, Bytes;
    var x := Xor64(w, Wide64(c));
    ShiftWord(w, c);
    ShiftWord(x, 0);
    NoneWide(0, x);
    WideInjective(CrcFrom(c, Bytes(w, 8)), CrcFrom(0, Bytes(x, 8)));
  }

  function Narrow(x: bv64): bv32 { (x & 0xffffffff) as bv32 }

  lemma NarrowWide(c: bv32)
    ensures Narrow(Wide64(c)) == c
  {
  }

  /** crc_word */
  method CrcWord(t: array<bv32>, data: bv64) returns (r: bv32)
    requires ByteTable(t[..])
    ensures r == WordCrc(data)
  {
    hide Xor64, Wide64, Down64, LowByte64, ByteCrc, CrcFrom, Bytes, ByteTable, Shift, Narrow;
    var d, k := data, 0;
    while k < W
      invariant k <= W && Shifts(d, W - k) == Shifts(data, W)
    {
      ShiftIs(d);
      d := Xor64(Down64(d), Wide64(Entry(t, LowByte64(d))));
      k := k + 1;
    }
    NoneWide(0, data);
    ShiftWord(data, 0);
    NarrowWide(WordCrc(data));
    r := Narrow(d);
  }

  // ----- the braids -----

  /** crc_braid_table: what a byte of a word does to the register N words later. */
  ghost predicate BraidTable(t: seq<seq<bv32>>) {
    |t| == W && forall k: nat :: k < W ==> BraidRow(t[k], k)
  }

  ghost predicate BraidRow(row: seq<bv32>, k: nat)
    requires k < W
  {
    |row| == 256 && forall i: nat :: i < 256 ==> row[i] == Steps(Wide(ByteAt(i)), 8 * (N * W - k))
  }

  function Top(b: bv8): bv32 { (b as bv32) << 24 }

  lemma TopDown(b: bv8)
    ensures Step8(Step8(Step8(Top(b)))) == Wide(b)
  {
    hide Step8;
    ByteDown(Top(b));
    ByteDown((b as bv32) << 16);
    ByteDown((b as bv32) << 8);
    TopShifts(b as bv32);
  }

  lemma TopShifts(x: bv32)
    requires x & 0xffffff00 == 0
    ensures (x << 24) & 0xff == 0 && (x << 24) >> 8 == x << 16 && (x << 16) & 0xff == 0 && (x << 16) >> 8 == x << 8
    ensures (x << 8) & 0xff == 0 && (x << 8) >> 8 == x
  {
  }

  /** Multiplying a byte in the most significant bits by a power of x. */
  lemma TopTimes(b: bv8, n: nat)
    ensures Mul(Top(b), Power(n + 24)) == Steps(Wide(b), n)
  {
    hide *;
    MulComm(Top(b), Power(n + 24));
    MulPower(n + 24, Top(b));
    ByteStep(Top(b), n + 16);
    ByteStep(Step8(Top(b)), n + 8);
    ByteStep(Step8(Step8(Top(b))), n);
    TopDown(b);
  }

  lemma MulComm(a: bv32, b: bv32)
    ensures Mul(a, b) == Mul(b, a)
  {
    hide Times, Coeffs;
    OwnResidue(a);
    OwnResidue(b);
    TimesTimes(Coeffs(a, 32), Coeffs(b, 32), ONE);
  }

  lemma TopNonzero(b: bv8)
    requires b != 0
    ensures Top(b) != 0
  {
  }

  /** One row of the tables of braid, for byte k of a word. */
  method MakeRow(powers: array<bv32>, k: nat) returns (row: seq<bv32>)
    requires Powers(powers[..]) && k < W
    ensures BraidRow(row, k)
  {
    hide Steps, Power, Mul, Top, Wide, ByteAt, Powers;
    var p := X2nmodp(powers, (N * W + 3 - k) * 8, 0);
    var a := new bv32[256];
    a[0] := 0;
    NoByte(8 * (N * W - k));
    var i: nat := 1;
    while i < 256
      invariant 1 <= i <= 256 && forall j: nat :: j < i ==> a[j] == Steps(Wide(ByteAt(j)), 8 * (N * W - k))
    {
      SomeByte(i);
      TopNonzero(ByteAt(i));
      TopTimes(ByteAt(i), 8 * (N * W - k));
      var q := Multmodp(Top(ByteAt(i)), p);
      a[i] := q;
      i := i + 1;
    }
    row := a[..];
  }

  lemma NoByte(n: nat)
    ensures Steps(Wide(ByteAt(0)), n) == 0
  {
    StepsNone(n);
  }

  lemma SomeByte(i: nat)
    requires 0 < i < 256
    ensures ByteAt(i) != 0
  {
  }

  /** braid */
  method Braid(powers: array<bv32>) returns (t: seq<seq<bv32>>)
    requires Powers(powers[..])
    ensures BraidTable(t)
  {
    hide BraidRow, Powers;
    t := [];
    var k: nat := 0;
    while k < W
      invariant k <= W && |t| == k && forall j: nat :: j < k ==> BraidRow(t[j], j)
    {
      var row := MakeRow(powers, k);
      t := t + [row];
      k := k + 1;
    }
  }

  function BraidAt(t: seq<seq<bv32>>, k: nat, b: bv8): (p: bv32)
    requires BraidTable(t) && k < W
    ensures p == Steps(Wide(b), 8 * (N * W - k))
  {
    IndexAt(b);
    t[k][Index(b)]
  }

  lemma {:induction false} NthByte(x: bv64, n: nat, k: nat)
    requires k < n
    ensures Bytes(x, n)[k] == LowByte64(DownBy(x, k))
    decreases k
  {
    hide Down64, LowByte64;
    if k > 0 {
      assert Bytes(x, n)[k] == Bytes(Down64(x), n - 1)[k - 1] && DownBy(x, k) == DownBy(Down64(x), k - 1);
      NthByte(Down64(x), n - 1, k - 1);
    }
  }

  /** The tables' entries for all bytes of a word, added up: the CRC of the word, N - 1 words later. */
  method BraidWord(t: seq<seq<bv32>>, word: bv64) returns (crc: bv32)
    requires BraidTable(t)
    ensures crc == Steps(WordCrc(word), 8 * (N * W - W))
  {
    hide Steps, Xor, Wide, LowByte64, DownBy, CrcFrom, Bytes, BraidTable;
    ghost var b := Bytes(word, 8);
    crc := 0;
    var k: nat := 0;
    NoCrc(8 * N * W);
    while k < W
      invariant k <= W && crc == Steps(CrcFrom(0, b[..k]), 8 * (N * W - k))
    {
      var x := LowByte64(DownBy(word, k));
      NthByte(word, 8, k);
      assert b[..k + 1] == b[..k] + [x];
      CrcMore(0, b[..k], x);
      ghost var c, m := CrcFrom(0, b[..k]), 8 * (N * W - k);
      StepsAdd(Xor(c, Wide(x)), 8, m - 8);
      StepsXor(c, Wide(x), m);
      crc := Xor(crc, BraidAt(t, k, x));
      k := k + 1;
    }
    assert b[..8] == b;
  }

  lemma NoCrc(n: nat)
    ensures CrcFrom(0, []) == 0 && Steps(0, n) == 0
  {
    StepsNone(n);
  }

  /** What the braids' registers v amount to, N words later. */
  function Weighted(v: seq<bv32>): bv32
    decreases |v|
  {
    if v == [] then 0 else Steps(Xor(Weighted(v[..|v| - 1]), v[|v| - 1]), 64)
  }

  /** The last block: each braid's word, with the register so far added. */
  function Chain(v: seq<bv32>, ws: seq<bv64>): bv32
    requires |v| == |ws|
    decreases |v|
  {
    if v == [] then 0
    else CrcFrom(Xor(v[|v| - 1], Chain(v[..|v| - 1], ws[..|v| - 1])), Bytes(ws[|v| - 1], 8))
  }

  function AllBytes(ws: seq<bv64>): (b: seq<bv8>)
    ensures |b| == 8 * |ws|
    decreases |ws|
  {
    if ws == [] then [] else AllBytes(ws[..|ws| - 1]) + Bytes(ws[|ws| - 1], 8)
  }

  lemma {:induction false} ChainIs(v: seq<bv32>, ws: seq<bv64>)
    requires |v| == |ws|
    ensures Chain(v, ws) == Xor(Weighted(v), CrcFrom(0, AllBytes(ws)))
    decreases |v|
  {
    hide Steps, Xor, CrcFrom, Bytes;
    NoCrc(0);
    XorNone(0);
    if v != [] {
      var n := |v| - 1;
      var l, b := v[n], Bytes(ws[n], 8);
      ChainIs(v[..n], ws[..n]);
      var u, z := Weighted(v[..n]), CrcFrom(0, AllBytes(ws[..n]));
      CrcSplit(Xor(l, Xor(u, z)), b);
      CrcConcat(0, AllBytes(ws[..n]), b);
      CrcSplit(z, b);
      XorLaws(l, u, z);
      StepsXor(Xor(u, l), z, 64);
      XorAssoc(Steps(Xor(u, l), 64), Steps(z, 64), CrcFrom(0, b));
    }
  }

  /** One round of the main loop. */
  ghost predicate Round(v: seq<bv32>, ws: seq<bv64>, v': seq<bv32>, m: nat) {
    |v| == |ws| == |v'| && forall j :: 0 <= j < |v| ==> v'[j] == Steps(CrcFrom(v[j], Bytes(ws[j], 8)), m)
  }

  lemma {:induction false} RoundIs(v: seq<bv32>, ws: seq<bv64>, v': seq<bv32>, m: nat)
    requires Round(v, ws, v', m)
    ensures Weighted(v') == Steps(Chain(v, ws), 64 + m)
    decreases |v|
  {
    hide Steps, Xor, CrcFrom, Bytes;
    if v == [] {
      NoCrc(64 + m);
    } else {
      var n := |v| - 1;
      var l, b, c := v[n], Bytes(ws[n], 8), Chain(v[..n], ws[..n]);
      RoundIs(v[..n], ws[..n], v'[..n], m);
      var a := CrcFrom(l, b);
      CrcSplit(Xor(l, c), b);
      CrcSplit(l, b);
      StepsXor(l, c, 64);
      var s, t, z := Steps(l, 64), Steps(c, 64), CrcFrom(0, b);
      XorLaws(s, t, z);
      XorAssoc(t, s, z);
      StepsXor(t, a, 64 + m);
      StepsXor(Steps(c, 64 + m), Steps(a, m), 64);
      StepsAdd(c, 64 + m, 64);
      StepsAdd(c, 64, 64 + m);
      StepsAdd(a, m, 64);
    }
  }

  lemma {:induction false} FirstBraid(c: bv32, n: nat)
    ensures Weighted([c] + seq(n, _ => 0)) == Steps(c, 64 * (n + 1))
    decreases n
  {
    hide Steps, Xor;
    var v := [c] + seq(n, _ => 0 as bv32);
    XorNone(c);
    if n == 0 {
      assert v[..0] == [];
    } else {
      assert v[..n] == [c] + seq(n - 1, _ => 0 as bv32);
      FirstBraid(c, n - 1);
      XorNone(Steps(c, 64 * n));
      StepsAdd(c, 64 * n, 64);
    }
  }

  // ----- words in memory -----

  function Up64(x: bv64): bv64 { x << 8 }

  function Wide8(b: bv8): bv64 { b as bv64 }

  /** The bytes b as a little-endian word. */
  function Word(b: seq<bv8>): bv64
    decreases |b|
  {
    if b == [] then 0 else Xor64(Wide8(b[0]), Up64(Word(b[1..])))
  }

  lemma LowOfWord(b: bv8, x: bv64)
    ensures LowByte64(Xor64(Wide8(b), Up64(x))) == b
  {
  }

  /** The most significant byte is 0. */
  predicate Short(x: bv64) { x >> 56 == 0 }

  lemma DownOfWord(b: bv8, x: bv64)
    requires Short(x)
    ensures Down64(Xor64(Wide8(b), Up64(x))) == x
  {
  }

  /** Nothing above n bytes. */
  predicate Within(x: bv64, n: nat)
    decreases n
  {
    if n == 0 then x == 0 else Within(Down64(x), n - 1)
  }

  lemma {:induction false} WithinMore(x: bv64, n: nat)
    requires Within(x, n)
    ensures Within(x, n + 1)
    decreases n
  {
    if n > 0 { WithinMore(Down64(x), n - 1); }
  }

  lemma {:induction false} WithinSeven(x: bv64, n: nat)
    requires Within(x, n) && n <= 7
    ensures Within(x, 7)
    decreases 7 - n
  {
    if n < 7 {
      WithinMore(x, n);
      WithinSeven(x, n + 1);
    }
  }

  lemma SevenDown(x: bv64)
    ensures Down64(Down64(Down64(Down64(Down64(Down64(Down64(x))))))) == 0 ==> Short(x)
  {
  }

  lemma WithinShort(x: bv64)
    requires Within(x, 7)
    ensures Short(x)
  {
    hide Down64, Short;
    SevenDown(x);
    var y := Down64(Down64(Down64(x)));
    assert Within(x, 7) == Within(Down64(x), 6) == Within(Down64(Down64(x)), 5) == Within(y, 4);
    assert Within(y, 4) == Within(Down64(y), 3) == Within(Down64(Down64(y)), 2) == Within(Down64(Down64(Down64(y))), 1);
  }

  /** Loading a word keeps its bytes. */
  lemma {:induction false} WordIs(b: seq<bv8>)
    requires |b| <= 8
    ensures Bytes(Word(b), |b|) == b && Within(Word(b), |b|)
    decreases |b|
  {
    hide Down64, LowByte64, Xor64, Wide8, Up64, Short;
    if b != [] {
      var x := Word(b[1..]);
      WordIs(b[1..]);
      WithinSeven(x, |b| - 1);
      WithinShort(x);
      LowOfWord(b[0], x);
      DownOfWord(b[0], x);
    }
  }

  /** The n words from the start of b. */
  function Words(b: seq<bv8>, n: nat): (ws: seq<bv64>)
    requires 8 * n <= |b|
    ensures |ws| == n
  {
    if n == 0 then [] else Words(b, n - 1) + [Word(b[8 * (n - 1)..8 * n])]
  }

  lemma {:induction false} WordsBytes(b: seq<bv8>, n: nat)
    requires 8 * n <= |b|
    ensures AllBytes(Words(b, n)) == b[..8 * n]
  {
    hide Word, Bytes;
    if n > 0 {
      WordsBytes(b, n - 1);
      WordIs(b[8 * (n - 1)..8 * n]);
      assert Words(b, n)[..n - 1] == Words(b, n - 1);
      assert b[..8 * n] == b[..8 * (n - 1)] + b[8 * (n - 1)..8 * n];
    }
  }

  // ----- crc32_z -----

  /** One round of the main loop: each braid takes its word. */
  method BraidRound(t: seq<seq<bv32>>, v: seq<bv32>, ws: seq<bv64>) returns (v': seq<bv32>)
    requires BraidTable(t) && |v| == |ws| == N
    ensures Round(v, ws, v', 8 * (N * W - W))
  {
    hide Xor64, Wide64, BraidTable, Steps, CrcFrom, Bytes;
    v' := [];
    var j := 0;
    while j < N
      invariant 0 <= j <= N && |v'| == j
      invariant forall i :: 0 <= i < j ==> v'[i] == Steps(CrcFrom(v[i], Bytes(ws[i], 8)), 8 * (N * W - W))
    {
      var word := Xor64(ws[j], Wide64(v[j]));
      WordBytes(ws[j], v[j]);
      var crc := BraidWord(t, word);
      v' := v' + [crc];
      j := j + 1;
    }
  }

  /** The last block: the braids' registers are combined. */
  method LastBlock(t: array<bv32>, v: seq<bv32>, ws: seq<bv64>) returns (crc: bv32)
    requires ByteTable(t[..]) && |v| == |ws| == N
    ensures crc == Chain(v, ws)
  {
    hide Xor64, Wide64, ByteTable, CrcFrom, Bytes, Xor;
    crc := 0;
    var j := 0;
    while j < N
      invariant 0 <= j <= N && crc == Chain(v[..j], ws[..j])
    {
      assert v[..j + 1][..j] == v[..j] && ws[..j + 1][..j] == ws[..j];
      XorWide(ws[j], v[j], crc);
      WordBytes(ws[j], Xor(v[j], crc));
      crc := CrcWord(t, Xor64(Xor64(ws[j], Wide64(v[j])), Wide64(crc)));
      j := j + 1;
    }
    assert v[..j] == v && ws[..j] == ws;
  }

  /** The registers after a round stand for a register that has taken all the words. */
  lemma RoundKeeps(r: bv32, v: seq<bv32>, ws: seq<bv64>, v': seq<bv32>)
    requires |v| == N && Round(v, ws, v', 8 * (N * W - W)) && Weighted(v) == Steps(r, 8 * N * W)
    ensures |v'| == N && Weighted(v') == Steps(CrcFrom(r, AllBytes(ws)), 8 * N * W)
  {
    hide Steps, Xor, CrcFrom, Bytes, Weighted, Chain, AllBytes;
    RoundIs(v, ws, v', 8 * (N * W - W));
    ChainIs(v, ws);
    CrcSplit(r, AllBytes(ws));
  }

  lemma ChainEnds(r: bv32, v: seq<bv32>, ws: seq<bv64>)
    requires |v| == |ws| == N && Weighted(v) == Steps(r, 8 * N * W)
    ensures Chain(v, ws) == CrcFrom(r, AllBytes(ws))
  {
    hide Steps, Xor, CrcFrom, Bytes, Weighted, Chain, AllBytes;
    ChainIs(v, ws);
    CrcSplit(r, AllBytes(ws));
  }

  /** The register after blks blocks of N words. */
  method Blocks(t: array<bv32>, braid: seq<seq<bv32>>, start: bv32, buf: seq<bv8>, blks: nat) returns (crc: bv32)
    requires ByteTable(t[..]) && BraidTable(braid) && blks >= 1 && |buf| == blks * (N * W)
    ensures crc == CrcFrom(start, buf)
  {
    hide Xor64, Wide64, ByteTable, BraidTable, CrcFrom, Bytes, Xor, Steps, Weighted, Chain, Round, AllBytes, Words;
    var v := [start] + seq(N - 1, _ => 0 as bv32);
    FirstBraid(start, N - 1);
    var left, pos := blks, 0;
    NoBytes(start);
    left := left - 1;
    while left > 0
      invariant 0 <= left < blks && pos == (blks - 1 - left) * (N * W) && |v| == N
      invariant pos + N * W <= |buf| && Weighted(v) == Steps(CrcFrom(start, buf[..pos]), 8 * N * W)
    {
      var ws := Words(buf[pos..], N);
      WordsBytes(buf[pos..], N);
      var v' := BraidRound(braid, v, ws);
      RoundKeeps(CrcFrom(start, buf[..pos]), v, ws, v');
      BlockTaken(start, buf, pos);
      v := v';
      pos := pos + N * W;
      left := left - 1;
    }
    var ws := Words(buf[pos..], N);
    WordsBytes(buf[pos..], N);
    ChainEnds(CrcFrom(start, buf[..pos]), v, ws);
    BlockTaken(start, buf, pos);
    assert buf[..pos + N * W] == buf;
    crc := LastBlock(t, v, ws);
  }

  lemma NoBytes(c: bv32)
    ensures CrcFrom(c, []) == c
  {
  }

  lemma BlockTaken(c: bv32, buf: seq<bv8>, pos: nat)
    requires pos + N * W <= |buf|
    ensures CrcFrom(CrcFrom(c, buf[..pos]), buf[pos..][..8 * N]) == CrcFrom(c, buf[..pos + N * W])
  {
    hide CrcFrom;
    CrcConcat(c, buf[..pos], buf[pos..][..8 * N]);
    assert buf[..pos] + buf[pos..][..8 * N] == buf[..pos + N * W];
  }

  /** Bytes one at a time, from pos up to end. */
  method PutBytes(t: array<bv32>, start: bv32, c: bv32, buf: seq<bv8>, pos: nat, end: nat) returns (r: bv32)
    requires ByteTable(t[..]) && pos <= end <= |buf| && c == CrcFrom(start, buf[..pos])
    ensures r == CrcFrom(start, buf[..end])
  {
    hide ByteTable, CrcFrom;
    r := c;
    var i := pos;
    while i < end
      invariant pos <= i <= end && r == CrcFrom(start, buf[..i])
    {
      assert buf[..i + 1] == buf[..i] + [buf[i]];
      r := PutByte(t, r, buf[i], buf[..i], start);
      i := i + 1;
    }
  }

  /** crc32_z: buf is at address addr in memory; crc is the CRC of what comes before it. */
  method Crc32z(t: array<bv32>, braid: seq<seq<bv32>>, crc: bv32, buf: seq<bv8>, addr: nat) returns (r: bv32)
    requires ByteTable(t[..]) && BraidTable(braid)
    ensures r == Xor(CrcFrom(Xor(crc, 0xffffffff), buf), 0xffffffff)
  {
    hide ByteTable, BraidTable, CrcFrom, Xor;
    var start := Xor(crc, 0xffffffff);
    var c, pos := start, 0;
    NoBytes(start);
    if |buf| >= N * W + W - 1 {
      // compute the CRC up to a word boundary
      while pos < |buf| && (addr + pos) % W != 0
        invariant 0 <= pos <= |buf| && pos <= (W - addr % W) % W && c == CrcFrom(start, buf[..pos])
      {
        assert buf[..pos + 1] == buf[..pos] + [buf[pos]];
        c := PutByte(t, c, buf[pos], buf[..pos], start);
        pos := pos + 1;
      }
      // compute the CRC on as many blocks of N words as are available
      var blks := (|buf| - pos) / (N * W);
      var end := pos + blks * (N * W);
      c := Blocks(t, braid, c, buf[pos..end], blks);
      CrcConcat(start, buf[..pos], buf[pos..end]);
      assert buf[..pos] + buf[pos..end] == buf[..end];
      pos := end;
    }
    // eight bytes at a time, and then what is left
    while |buf| - pos >= 8
      invariant 0 <= pos <= |buf| && c == CrcFrom(start, buf[..pos])
    {
      c := PutBytes(t, start, c, buf, pos, pos + 8);
      pos := pos + 8;
    }
    c := PutBytes(t, start, c, buf, pos, |buf|);
    assert buf[..|buf|] == buf;
    r := Xor(c, 0xffffffff);
  }

  /** With all tables made: the CRC of a buffer wherever it is in memory, and the CRC of two buffers
      from one call after the other. */
  method Crc32Twice(x: seq<bv8>, y: seq<bv8>, addrX: nat, addrY: nat) returns (r: bv32)
    ensures r == Crc32Of(x + y)
  {
    hide ByteTable, BraidTable, Powers, CrcFrom, Xor;
    var t := MakeCrcTable();
    var powers := MakePowers();
    var braid := Braid(powers);
    var a := Crc32z(t, braid, 0, x, addrX);
    r := Crc32z(t, braid, a, y, addrY);
    XorLaws(0xffffffff, CrcFrom(0xffffffff, x), 0);
    XorLaws(CrcFrom(0xffffffff, x), 0xffffffff, 0xffffffff);
    XorLaws(0, 0xffffffff, 0);
    XorNone(0xffffffff);
    XorNone(CrcFrom(0xffffffff, x));
    CrcConcat(0xffffffff, x, y);
  }
}
