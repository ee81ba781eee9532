/** The table-driven checksum for little-endian machines: one byte per look-up at the
    unaligned ends and eight bytes per step in between (slicing-by-8). */
module Crc32cSoftware {
  import opened Wrappers
  import opened Gf2
  import opened Crc32c

  /** Eight bytes loaded as one little-endian word. */
  function LittleEndian(b: seq<byte>): nat
    decreases |b|
  {
    if b == [] then 0 else b[0] + 256 * LittleEndian(b[1..])
  }

  /** Row `k` of the table advances a byte by `k + 1` bytes of zeros. */
  ghost predicate TableFilled(table: array2<word32>)
    reads table
  {
    table.Length0 == 8 && table.Length1 == 256 &&
    forall k, n | 0 <= k < 8 && 0 <= n < 256 :: table[k, n] == Zeros(8 * (k + 1), n)
  }

  ghost predicate RowFilled(table: array2<word32>, k: nat, upto: nat)
    requires table.Length0 == 8 && table.Length1 == 256
    reads table
  {
    k < 8 && upto <= 256 && forall n | 0 <= n < upto :: table[k, n] == Zeros(8 * (k + 1), n)
  }

  lemma ShiftTwice(n: nat, c: nat)
    ensures Zeros(n + 1, c) == Shift(Zeros(n, c))
  {
    ZerosAdd(n, 1, c);
    assert Zeros(1, Zeros(n, c)) == Zeros(0, Shift(Zeros(n, c)));
  }

  lemma NextRow(k: nat, n: byte)
    ensures Zeros(8 * k, n) <= ONES
    ensures Xor(Zeros(8, Zeros(8 * k, n) % 256), Zeros(8 * k, n) / 256) == Zeros(8 * (k + 1), n) <= ONES
  {
    hide Zeros, Xor, Shift;
    ZerosAdd(8 * k, 8, n);
    ZerosByByte(Zeros(8 * k, n));
    ZerosIn32(8 * k, n);
    ZerosIn32(8 * (k + 1), n);
  }

  method BitStep(c: word32) returns (r: word32)
    ensures r == Shift(c)
  {
    ShiftIn32(c);
    XorZero(c / 2);
    r := if c % 2 == 1 then Xor(c / 2, POLY) else c / 2;
  }

  /** One byte through the first table row. */
  lemma TableStep(c: nat, b: byte)
    ensures FeedBits(c, 8, b) == Xor(Zeros(8, Xor(c, b) % 256), c / 256)
  {
    hide *;
    FeedByte(c, b);
    ZerosByByte(Xor(c, b));
    XorSplit256(c, b);
    XorZero(c / 256);
  }

  /** The table's first row, one bit at a time. */
  method FillFirstRow(t: array2<word32>)
    requires t.Length0 == 8 && t.Length1 == 256
    modifies t
    ensures RowFilled(t, 0, 256)
  {
    hide Zeros, Xor, Shift;
    for n := 0 to 256
      invariant RowFilled(t, 0, n)
    {
      var crc: word32 := n;
      ZerosNone(n);
      for bit := 0 to 8
        invariant crc == Zeros(bit, n)
        invariant RowFilled(t, 0, n)
      {
        ShiftTwice(bit, n);
        crc := BitStep(crc);
      }
      t[0, n] := crc;
    }
  }

  /** Column `n` of the other rows, each row from the one before. */
  method FillColumn(t: array2<word32>, n: nat)
    requires t.Length0 == 8 && t.Length1 == 256 && n < 256
    requires RowFilled(t, 0, 256)
    modifies t
    ensures forall k | 0 <= k < 8 :: t[k, n] == Zeros(8 * (k + 1), n)
    ensures forall k, m | 0 <= k < 8 && 0 <= m < 256 && m != n :: t[k, m] == old(t[k, m])
  {
    hide Zeros, Xor, Shift;
    var crc := t[0, n];
    for k := 1 to 8
      invariant crc == Zeros(8 * k, n)
      invariant RowFilled(t, 0, 256)
      invariant forall j | 0 <= j < k :: t[j, n] == Zeros(8 * (j + 1), n)
      invariant forall j, m | 0 <= j < 8 && 0 <= m < 256 && m != n :: t[j, m] == old(t[j, m])
    {
      NextRow(k, n);
      crc := Xor(t[0, crc % 256], crc / 256);
      t[k, n] := crc;
    }
  }

  // ----- eight bytes at a time -----

  /** Byte `i` of a `k`-byte word, advanced over the `k - i` bytes from it to the word's end. */
  function Slices(w: nat, k: nat): nat
    decreases k
  {
    if k == 0 then 0 else Xor(Zeros(8 * k, w % 256), Slices(w / 256, k - 1))
  }

  lemma {:induction false} SlicesLinear(a: nat, b: nat, k: nat)
    ensures Slices(Xor(a, b), k) == Xor(Slices(a, k), Slices(b, k))
    decreases k
  {
    hide Xor, Zeros;
    if k == 0 {
      XorZero(0);
    } else {
      XorSplit256(a, b);
      ZerosLinear(8 * k, a % 256, b % 256);
      SlicesLinear(a / 256, b / 256, k - 1);
      XorSwap(Zeros(8 * k, a % 256), Zeros(8 * k, b % 256), Slices(a / 256, k - 1), Slices(b / 256, k - 1));
    }
  }

  lemma {:induction false} FeedIsSlices(d: seq<byte>)
    ensures Feed(0, d) == Slices(LittleEndian(d), |d|)
    decreases |d|
  {
    hide Xor, Zeros, FeedBits;
    if d != [] {
      var k := |d[1..]|;
      FeedByte(0, d[0]);
      XorZero(d[0]);
      XorZero(Zeros(8, d[0]));
      FeedLinear(Zeros(8, d[0]), 0, d[1..]);
      ZerosAdd(8, 8 * k, d[0]);
      assert 8 + 8 * k == 8 * |d|;
      FeedIsSlices(d[1..]);
    }
  }

  function Pow256(k: nat): nat {
    if k == 0 then 1 else 256 * Pow256(k - 1)
  }

  lemma {:induction false} SlicesOfRegister(c: nat, k: nat)
    requires c < Pow256(k)
    ensures Slices(c, k) == Zeros(8 * k, c)
    decreases k
  {
    hide Xor, Zeros;
    if k == 0 {
      ZerosNone(0);
    } else {
      SlicesOfRegister(c / 256, k - 1);
      XorJoin256(c % 256, c / 256);
      ZerosLinear(8 * k, c % 256, 256 * (c / 256));
      ZerosAdd(8, 8 * (k - 1), 256 * (c / 256));
      Pow2Eight();
      ZerosOfHigh(8, c / 256);
    }
  }

  /** Eight bytes folded into the register as one little-endian word. */
  lemma WordStep(c: word32, d: seq<byte>)
    requires |d| == 8
    ensures Feed(c, d) == Slices(Xor(c, LittleEndian(d)), 8)
  {
    hide Xor, Zeros, Feed, Slices, LittleEndian;
    assert Pow256(4) == 256 * 256 * 256 * 256;
    assert Pow256(8) >= Pow256(4);
    SlicesOfRegister(c, 8);
    FeedLinear(c, 0, d);
    XorZero(c);
    FeedIsSlices(d);
    SlicesLinear(c, LittleEndian(d), 8);
  }

  lemma {:induction false} LittleEndianBound(d: seq<byte>)
    ensures LittleEndian(d) < Pow256(|d|)
    decreases |d|
  {
    if d != [] {
      LittleEndianBound(d[1..]);
    }
  }

  lemma WordBound(c: word32, d: seq<byte>)
    requires |d| == 8
    ensures Xor(c, LittleEndian(d)) < 0x1_0000_0000_0000_0000
  {
    hide Xor, LittleEndian;
    LittleEndianBound(d);
    assert Pow256(4) == 256 * 256 * 256 * 256;
    assert Pow256(8) == 0x1_0000_0000_0000_0000;
    Pow2ThirtyTwo();
    Pow2Add(32, 32);
    XorBound(64, c, LittleEndian(d));
  }

  /** The eight look-ups of one step, in the order in which they are combined. */
  function Lookups(w: nat): nat {
    Xor(Xor(Xor(Xor(Xor(Xor(Xor(
      Zeros(64, w % 256),
      Zeros(56, w / 0x100 % 256)),
      Zeros(48, w / 0x1_0000 % 256)),
      Zeros(40, w / 0x100_0000 % 256)),
      Zeros(32, w / 0x1_0000_0000 % 256)),
      Zeros(24, w / 0x100_0000_0000 % 256)),
      Zeros(16, w / 0x1_0000_0000_0000 % 256)),
      Zeros(8, w / 0x100_0000_0000_0000))
  }

  lemma XorChain(a: nat, b: nat, c: nat, d: nat, e: nat, f: nat, g: nat, h: nat)
    ensures Xor(Xor(Xor(Xor(Xor(Xor(Xor(a, b), c), d), e), f), g), h) ==
            Xor(a, Xor(b, Xor(c, Xor(d, Xor(e, Xor(f, Xor(g, h)))))))
  {
    hide *;
    XorAssociates(f, g, h);
    XorAssociates(e, f, Xor(g, h));
    XorAssociates(Xor(e, f), g, h);
    var efgh := Xor(Xor(Xor(e, f), g), h);
    var x := Xor(Xor(Xor(a, b), c), d);
    XorAssociates(Xor(Xor(x, e), f), g, h);
    XorAssociates(Xor(x, e), f, Xor(g, h));
    XorAssociates(x, e, Xor(f, Xor(g, h)));
    XorAssociates(Xor(Xor(a, b), c), d, efgh);
    XorAssociates(Xor(a, b), c, Xor(d, efgh));
    XorAssociates(a, b, Xor(c, Xor(d, efgh)));
  }

  lemma NestedShifts(w: nat)
    requires w < 0x1_0000_0000_0000_0000
    ensures w / 0x1_0000 == w / 0x100 / 256 && w / 0x100_0000 == w / 0x1_0000 / 256
    ensures w / 0x1_0000_0000 == w / 0x100_0000 / 256 && w / 0x100_0000_0000 == w / 0x1_0000_0000 / 256
    ensures w / 0x1_0000_0000_0000 == w / 0x100_0000_0000 / 256
    ensures w / 0x100_0000_0000_0000 == w / 0x1_0000_0000_0000 / 256 < 256
  {
  }

  lemma SliceUnfolds(w: nat, k: nat)
    ensures Slices(w / 256, 0) == 0
    ensures Slices(w, k + 1) == Xor(Zeros(8 * (k + 1), w % 256), Slices(w / 256, k))
  {
  }

  lemma LookupsAreSlices(w: nat)
    requires w < 0x1_0000_0000_0000_0000
    ensures Lookups(w) == Slices(w, 8)
  {
    hide Xor, Zeros, Slices;
    var w1, w2, w3, w4 := w / 0x100, w / 0x1_0000, w / 0x100_0000, w / 0x1_0000_0000;
    var w5, w6, w7 := w / 0x100_0000_0000, w / 0x1_0000_0000_0000, w / 0x100_0000_0000_0000;
    NestedShifts(w);
    SliceUnfolds(w, 7);
    SliceUnfolds(w1, 6);
    SliceUnfolds(w2, 5);
    SliceUnfolds(w3, 4);
    SliceUnfolds(w4, 3);
    SliceUnfolds(w5, 2);
    SliceUnfolds(w6, 1);
    SliceUnfolds(w7, 0);
    XorZero(Zeros(8, w7));
    XorChain(Zeros(64, w % 256), Zeros(56, w1 % 256), Zeros(48, w2 % 256), Zeros(40, w3 % 256),
             Zeros(32, w4 % 256), Zeros(24, w5 % 256), Zeros(16, w6 % 256), Zeros(8, w7));
  }

  // ----- the checksum -----

  lemma {:induction false} FeedSnoc(c: nat, a: seq<byte>, k: nat, n: nat)
    requires k + n <= |a|
    ensures Feed(c, a[..k + n]) == Feed(Feed(c, a[..k]), a[k..k + n])
  {
    assert a[..k + n] == a[..k] + a[k..k + n];
    FeedConcat(c, a[..k], a[k..k + n]);
  }

  lemma FeedOne(c: nat, b: byte)
    ensures Feed(c, [b]) == FeedBits(c, 8, b)
  {
    assert Feed(c, [b]) == Feed(FeedBits(c, 8, b), []);
  }

  class SoftwareCrc {
    const table: array2<word32>

    constructor ()
      ensures TableFilled(table) && fresh(table)
    {
      hide Zeros;
      var t := new word32[8, 256]((i, j) => 0);
      FillFirstRow(t);
      for n := 0 to 256
        invariant RowFilled(t, 0, 256)
        invariant forall k, m | 0 <= k < 8 && 0 <= m < n :: t[k, m] == Zeros(8 * (k + 1), m)
      {
        FillColumn(t, n);
      }
      table := t;
    }

    method ByteStep(c: word32, b: byte) returns (r: word32)
      requires TableFilled(table)
      ensures r == FeedBits(c, 8, b)
    {
      hide Zeros, Xor, FeedBits;
      TableStep(c, b);
      FeedBitsIn32(c, 8, b);
      r := Xor(table[0, Xor(c, b) % 256], c / 256);
    }

    method EightByteStep(c: word32, d: seq<byte>) returns (r: word32)
      requires TableFilled(table) && |d| == 8
      ensures r == Feed(c, d)
    {
      hide Zeros, Xor, Slices, Feed, LittleEndian;
      var w := Xor(c, LittleEndian(d));
      WordBound(c, d);
      var result := Xor(Xor(Xor(Xor(Xor(Xor(Xor(
        table[7, w % 256],
        table[6, w / 0x100 % 256]),
        table[5, w / 0x1_0000 % 256]),
        table[4, w / 0x100_0000 % 256]),
        table[3, w / 0x1_0000_0000 % 256]),
        table[2, w / 0x100_0000_0000 % 256]),
        table[1, w / 0x1_0000_0000_0000 % 256]),
        table[0, w / 0x100_0000_0000_0000]);
      assert result == Lookups(w);
      LookupsAreSlices(w);
      WordStep(c, d);
      FeedIn32(c, d);
      r := result;
    }

    /** The software checksum of a buffer that starts `align` bytes past an eight-byte boundary
        is the bit-at-a-time checksum. */
    method Compute(crc: word32, buf: seq<byte>, align: nat) returns (r: word32)
      requires TableFilled(table)
      ensures r == Checksum(crc, buf)
    {
      hide Xor, Feed, FeedBits, Zeros;
      XorIn32(crc, ONES);
      ghost var start := Xor(crc, ONES);
      var c: word32 := Xor(crc, ONES);
      var next := 0;
      assert Feed(start, buf[..0]) == start by { FeedNothing(start); }
      while next < |buf| && (align + next) % 8 != 0
        invariant next <= |buf|
        invariant c == Feed(start, buf[..next])
      {
        FeedSnoc(start, buf, next, 1);
        FeedOne(c, buf[next]);
        assert buf[next..next + 1] == [buf[next]];
        c := ByteStep(c, buf[next]);
        next := next + 1;
      }
      while |buf| - next >= 8
        invariant next <= |buf|
        invariant c == Feed(start, buf[..next])
      {
        FeedSnoc(start, buf, next, 8);
        c := EightByteStep(c, buf[next..next + 8]);
        next := next + 8;
      }
      while next < |buf|
        invariant next <= |buf|
        invariant c == Feed(start, buf[..next])
      {
        FeedSnoc(start, buf, next, 1);
        FeedOne(c, buf[next]);
        assert buf[next..next + 1] == [buf[next]];
        c := ByteStep(c, buf[next]);
        next := next + 1;
      }
      assert buf[..next] == buf;
      XorIn32(c, ONES);
      r := Xor(c, ONES);
    }
  }

  lemma FeedNothing(c: nat)
    ensures Feed(c, []) == c
  {
  }
}
