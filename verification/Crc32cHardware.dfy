/** The checksum for processors with a CRC-32C instruction: three interleaved streams joined by
    operators that append a fixed number of zero bytes, built as 32 x 32 matrices over GF(2). */
module Crc32cHardware {
  import opened Wrappers
  import opened Gf2
  import opened Crc32c
  import opened Crc32cSoftware

  const LONG: nat := 2048
  const SHORT: nat := 256

  // ----- matrices over GF(2): row n is the image of bit n -----

  /** The product of a matrix and a vector. */
  function Times(mat: seq<word32>, v: nat): nat
    decreases |mat|
  {
    if mat == [] then 0 else Xor(if v % 2 == 1 then mat[0] else 0, Times(mat[1..], v / 2))
  }

  /** `v` shifted left by `k` bits. */
  function Up(k: nat, v: nat): nat {
    if k == 0 then v else 2 * Up(k - 1, v)
  }

  /** `mat` appends `n` zero bits to a register. */
  ghost predicate AppendsZeros(mat: seq<word32>, n: nat) {
    |mat| == 32 && forall k | 0 <= k < 32 :: mat[k] == Zeros(n, Up(k, 1))
  }

  lemma {:induction false} TimesZero(mat: seq<word32>)
    ensures Times(mat, 0) == 0
    decreases |mat|
  {
    if mat != [] {
      TimesZero(mat[1..]);
      XorZero(0);
    }
  }

  lemma {:induction false} RowsFromAppend(mat: seq<word32>, n: nat, k: nat, v: nat)
    requires AppendsZeros(mat, n) && k <= 32 && v < Pow2(32 - k)
    ensures Times(mat[k..], v) == Zeros(n, Up(k, v))
    decreases 32 - k
  {
    hide Xor, Zeros, Up;
    if k == 32 {
      UpZero(32);
      ZerosOfZero(n);
    } else {
      assert mat[k..][1..] == mat[k + 1..];
      RowsFromAppend(mat, n, k + 1, v / 2);
      SplitLowBit(v);
      UpLinear(k, v % 2, 2 * (v / 2));
      UpDouble(k, v / 2);
      ZerosLinear(n, Up(k, v % 2), Up(k + 1, v / 2));
      UpZero(k);
      ZerosOfZero(n);
    }
  }

  lemma {:induction false} UpZero(k: nat)
    ensures Up(k, 0) == 0
  {
    if k != 0 {
      UpZero(k - 1);
    }
  }

  lemma {:induction false} UpDouble(k: nat, v: nat)
    ensures Up(k, 2 * v) == Up(k + 1, v)
  {
    if k != 0 {
      UpDouble(k - 1, v);
    }
  }

  lemma {:induction false} UpLinear(k: nat, a: nat, b: nat)
    ensures Up(k, Xor(a, b)) == Xor(Up(k, a), Up(k, b))
  {
    hide Xor;
    if k != 0 {
      UpLinear(k - 1, a, b);
      XorOfJoined(0, Up(k - 1, a), 0, Up(k - 1, b));
    }
  }

  /** The product with such a matrix is the register after the zeros. */
  lemma AppendApplies(mat: seq<word32>, n: nat, v: word32)
    requires AppendsZeros(mat, n)
    ensures Times(mat, v) == Zeros(n, v)
  {
    Pow2ThirtyTwo();
    RowsFromAppend(mat, n, 0, v);
    assert mat[0..] == mat;
    assert Up(0, v) == v;
  }

  lemma {:induction false} TimesIn32(mat: seq<word32>, v: nat)
    ensures Times(mat, v) <= ONES
    decreases |mat|
  {
    if mat != [] {
      TimesIn32(mat[1..], v / 2);
      XorIn32(if v % 2 == 1 then mat[0] else 0, Times(mat[1..], v / 2));
    }
  }

  method MatrixTimes(mat: array<word32>, v: word32) returns (sum: word32)
    requires mat.Length == 32
    ensures sum == Times(mat[..], v)
  {
    hide Xor, Times;
    sum := 0;
    var vec: nat, row: nat := v, 0;
    Pow2ThirtyTwo();
    assert mat[0..] == mat[..];
    XorZero(Times(mat[..], v));
    while vec != 0
      invariant row <= 32 && vec < Pow2(32 - row)
      invariant Xor(sum, Times(mat[row..], vec)) == Times(mat[..], v)
      decreases vec
    {
      assert row < 32 by { assert Pow2(0) == 1; }
      var term := if vec % 2 == 1 then mat[row] else 0;
      TimesUnfolds(mat[row..], vec);
      assert mat[row..][1..] == mat[row + 1..];
      XorAssociates(sum, term, Times(mat[row + 1..], vec / 2));
      XorIn32(sum, term);
      XorZero(sum);
      if vec % 2 == 1 {
        sum := Xor(sum, mat[row]);
      }
      vec := vec / 2;
      row := row + 1;
    }
    TimesZero(mat[row..]);
    XorZero(sum);
  }

  lemma TimesUnfolds(mat: seq<word32>, v: nat)
    requires mat != []
    ensures Times(mat, v) == Xor(if v % 2 == 1 then mat[0] else 0, Times(mat[1..], v / 2))
  {
  }

  /** Squaring the operator doubles the zeros it appends. */
  method MatrixSquare(square: array<word32>, mat: array<word32>, ghost n: nat)
    requires square != mat && square.Length == mat.Length == 32
    requires AppendsZeros(mat[..], n)
    modifies square
    ensures AppendsZeros(square[..], 2 * n)
  {
    hide Zeros, Times;
    for k := 0 to 32
      invariant forall j | 0 <= j < k :: square[j] == Zeros(2 * n, Up(j, 1))
      invariant mat[..] == old(mat[..])
    {
      AppendApplies(mat[..], n, mat[k]);
      ZerosAdd(n, n, Up(k, 1));
      assert n + n == 2 * n;
      square[k] := MatrixTimes(mat, mat[k]);
    }
  }

  // ----- the operator that appends len zero bytes -----

  /** The largest power of two not above `len`, and one for an empty length. */
  function TopPower(len: nat): nat {
    if len < 2 then 1 else 2 * TopPower(len / 2)
  }

  lemma {:induction false} UpIsPow2(k: nat)
    ensures Up(k, 1) == Pow2(k)
  {
    if k != 0 {
      UpIsPow2(k - 1);
    }
  }

  lemma {:induction false} Pow2Grows(m: nat, n: nat)
    requires m <= n
    ensures Pow2(m) <= Pow2(n)
  {
    if m < n {
      Pow2Grows(m, n - 1);
    }
  }

  lemma BitIn32(k: nat)
    requires k < 32
    ensures Up(k, 1) <= ONES
  {
    UpIsPow2(k);
    Pow2Grows(k, 31);
    Pow2ThirtyTwo();
  }

  lemma OneZeroBit(k: nat)
    ensures Zeros(1, Up(k, 1)) == if k == 0 then POLY else Up(k - 1, 1)
  {
    hide Xor;
    assert Zeros(1, Up(k, 1)) == Shift(Up(k, 1));
    if k == 0 {
      XorZero(POLY);
    } else {
      ShiftEven(Up(k - 1, 1));
    }
  }

  /** The operator for one zero bit. */
  method OneBitOperator(odd: array<word32>)
    requires odd.Length == 32
    modifies odd
    ensures AppendsZeros(odd[..], 1)
  {
    hide Zeros, Up;
    var row := 1;
    odd[0] := POLY;
    OneZeroBit(0);
    assert row == Up(0, 1) by { UpIsPow2(0); }
    for n := 1 to 32
      invariant row == Up(n - 1, 1)
      invariant forall k | 0 <= k < n :: odd[k] == Zeros(1, Up(k, 1))
    {
      OneZeroBit(n);
      BitIn32(n - 1);
      odd[n] := row;
      row := row * 2;
      assert row == Up(n, 1) by { UpIsPow2(n); UpIsPow2(n - 1); }
    }
  }

  /** The bits appended after squaring once more than `len` can be halved. */
  function Squared(bits: nat, len: nat): nat
    decreases len
  {
    if len < 2 then 2 * bits else Squared(2 * bits, len / 2)
  }

  lemma {:induction false} SquaringReaches(bits: nat, len: nat)
    ensures Squared(bits, len) == 2 * bits * TopPower(len)
    decreases len
  {
    if len >= 2 {
      SquaringReaches(2 * bits, len / 2);
    }
  }

  /** The operator for `len` zero bytes when `len` is a power of two, and otherwise for the
      largest power of two below it. */
  method ZerosOperator(even: array<word32>, len: nat)
    requires even.Length == 32
    modifies even
    ensures AppendsZeros(even[..], 8 * TopPower(len))
  {
    hide AppendsZeros, TopPower;
    var odd := new word32[32](i => 0);
    OneBitOperator(odd);
    MatrixSquare(even, odd, 1);
    MatrixSquare(odd, even, 2);
    var l := len;
    ghost var bits: nat := 4;
    SquaringReaches(4, len);
    while true
      invariant AppendsZeros(odd[..], bits)
      invariant Squared(bits, l) == 8 * TopPower(len)
      decreases l
    {
      MatrixSquare(even, odd, bits);
      bits := 2 * bits;
      if l / 2 == 0 {
        return;
      }
      l := l / 2;
      MatrixSquare(odd, even, bits);
      bits := 2 * bits;
      if l / 2 == 0 {
        break;
      }
      l := l / 2;
    }
    ghost var answer := odd[..];
    assert AppendsZeros(answer, 8 * TopPower(len));
    for n := 0 to 32
      invariant odd[..] == answer && |answer| == 32
      invariant forall k | 0 <= k < n :: even[k] == answer[k]
    {
      even[n] := odd[n];
    }
    assert even[..] == answer;
  }

  // ----- the operator as four byte-indexed tables -----

  function BytePlace(j: nat): nat {
    if j == 0 then 1 else 256 * BytePlace(j - 1)
  }

  /** Table `j` advances byte `j` of a register over `n` zero bits. */
  ghost predicate ZeroTables(zeros: array2<word32>, n: nat)
    reads zeros
  {
    zeros.Length0 == 4 && zeros.Length1 == 256 &&
    forall j, b | 0 <= j < 4 && 0 <= b < 256 :: zeros[j, b] == Zeros(n, b * BytePlace(j))
  }

  lemma BytePlaces()
    ensures BytePlace(0) == 1 && BytePlace(1) == 0x100
    ensures BytePlace(2) == 0x1_0000 && BytePlace(3) == 0x100_0000
  {
    assert BytePlace(1) == 256 * BytePlace(0);
    assert BytePlace(2) == 256 * BytePlace(1);
    assert BytePlace(3) == 256 * BytePlace(2);
  }

  method FillZeroTables(zeros: array2<word32>, len: nat)
    requires zeros.Length0 == 4 && zeros.Length1 == 256
    modifies zeros
    ensures ZeroTables(zeros, 8 * TopPower(len))
  {
    hide Zeros, Times, BytePlace;
    var op := new word32[32](i => 0);
    ZerosOperator(op, len);
    ghost var n := 8 * TopPower(len);
    BytePlaces();
    for b := 0 to 256
      invariant AppendsZeros(op[..], n)
      invariant forall j, a | 0 <= j < 4 && 0 <= a < b :: zeros[j, a] == Zeros(n, a * BytePlace(j))
    {
      AppendApplies(op[..], n, b);
      AppendApplies(op[..], n, b * 0x100);
      AppendApplies(op[..], n, b * 0x1_0000);
      AppendApplies(op[..], n, b * 0x100_0000);
      zeros[0, b] := MatrixTimes(op, b);
      zeros[1, b] := MatrixTimes(op, b * 0x100);
      zeros[2, b] := MatrixTimes(op, b * 0x1_0000);
      zeros[3, b] := MatrixTimes(op, b * 0x100_0000);
    }
  }

  lemma RegisterBytes(c: word32)
    ensures Xor(Xor(Xor(c % 256, c / 0x100 % 256 * 0x100), c / 0x1_0000 % 256 * 0x1_0000),
                c / 0x100_0000 * 0x100_0000) == c
    ensures c / 0x100_0000 < 256
  {
    hide Xor, BytePlace;
    BytePlaces();
    SumOfBytes(c);
    JoinAt(c % 256, c / 0x100 % 256, 1);
    JoinAt(c % 256 + c / 0x100 % 256 * 0x100, c / 0x1_0000 % 256, 2);
    JoinAt(c % 256 + c / 0x100 % 256 * 0x100 + c / 0x1_0000 % 256 * 0x1_0000, c / 0x100_0000, 3);
  }

  lemma SumOfBytes(c: word32)
    ensures c % 256 + c / 0x100 % 256 * 0x100 < 0x1_0000
    ensures c % 256 + c / 0x100 % 256 * 0x100 + c / 0x1_0000 % 256 * 0x1_0000 < 0x100_0000
    ensures c % 256 + c / 0x100 % 256 * 0x100 + c / 0x1_0000 % 256 * 0x1_0000 + c / 0x100_0000 * 0x100_0000 == c
    ensures c / 0x100_0000 < 256
  {
    var d1, d2, d3 := c / 0x100, c / 0x1_0000, c / 0x100_0000;
    assert d2 == d1 / 256 && d3 == d2 / 256 by { NestedShifts(c); }
    RebuildFrom(c, 256);
    RebuildFrom(d1, 256);
    RebuildFrom(d2, 256);
  }

  lemma {:induction false} JoinAt(low: nat, b: nat, j: nat)
    requires low < BytePlace(j)
    ensures Xor(low, b * BytePlace(j)) == low + b * BytePlace(j)
  {
    hide Xor;
    if j == 0 {
      XorZero(b);
    } else {
      var high := b * BytePlace(j - 1);
      assert b * BytePlace(j) == 256 * high;
      JoinAt(low / 256, b, j - 1);
      XorSplit256(low, 256 * high);
      XorZero(low % 256);
    }
  }

  method ShiftByTables(zeros: array2<word32>, crc: word32, ghost n: nat) returns (r: word32)
    requires ZeroTables(zeros, n)
    ensures r == Zeros(n, crc)
  {
    hide Zeros, Xor, BytePlace;
    BytePlaces();
    RegisterBytes(crc);
    var b1, b2, b3 := crc / 0x100 % 256, crc / 0x1_0000 % 256, crc / 0x100_0000;
    var low2 := Xor(crc % 256, b1 * 0x100);
    ZerosLinear(n, crc % 256, b1 * 0x100);
    ZerosLinear(n, low2, b2 * 0x1_0000);
    ZerosLinear(n, Xor(low2, b2 * 0x1_0000), b3 * 0x100_0000);
    ZerosIn32(n, crc);
    r := Xor(Xor(Xor(zeros[0, crc % 256], zeros[1, b1]), zeros[2, b2]), zeros[3, b3]);
  }

  // ----- the checksum -----

  /** What the processor's eight-byte instruction computes from a little-endian load. */
  function Instruction64(c: word32, w: nat): (r: word32)
  {
    FeedIn32(c, BytesOf(w, 8));
    Feed(c, BytesOf(w, 8))
  }

  function Instruction8(c: word32, b: byte): (r: word32)
  {
    FeedBitsIn32(c, 8, b);
    FeedBits(c, 8, b)
  }

  /** The low `n` bytes of a word, least significant first. */
  function BytesOf(w: nat, n: nat): (d: seq<byte>)
    ensures |d| == n
    decreases n
  {
    if n == 0 then [] else [w % 256] + BytesOf(w / 256, n - 1)
  }

  lemma {:induction false} LoadedBytes(d: seq<byte>)
    ensures BytesOf(LittleEndian(d), |d|) == d
    decreases |d|
  {
    if d != [] {
      LoadedBytes(d[1..]);
      LowByte(d[0], LittleEndian(d[1..]));
      assert d == [d[0]] + d[1..];
    }
  }

  lemma LowByte(b: byte, rest: nat)
    ensures (b + 256 * rest) % 256 == b && (b + 256 * rest) / 256 == rest
  {
  }

  /** Three adjacent blocks checksummed apart and joined by appending zeros. */
  lemma JoinStreams(c: nat, a: seq<byte>, b: seq<byte>, d: seq<byte>, n: nat)
    requires |b| == |d| && n == 8 * |b|
    ensures Feed(c, a + b + d) == Xor(Zeros(n, Xor(Zeros(n, Feed(c, a)), Feed(0, b))), Feed(0, d))
  {
    hide Feed, Xor, Zeros;
    FeedConcat(c, a + b, d);
    FeedConcat(c, a, b);
    var ca := Feed(c, a);
    XorZero(ca);
    FeedLinear(ca, 0, b);
    var cab := Feed(ca, b);
    XorZero(cab);
    FeedLinear(cab, 0, d);
  }

  method Load(buf: seq<byte>, at: nat) returns (w: nat)
    requires at + 8 <= |buf|
    ensures forall c: word32 :: Instruction64(c, w) == Feed(c, buf[at..at + 8])
  {
    w := LittleEndian(buf[at..at + 8]);
    LoadedBytes(buf[at..at + 8]);
  }

  /** Three consecutive blocks of `size` bytes, eight bytes of each at a time. */
  method ThreeBlocks(zeros: array2<word32>, c: word32, buf: seq<byte>, start: nat, size: nat) returns (r: word32)
    requires size > 0 && size % 8 == 0 && start + 3 * size <= |buf|
    requires ZeroTables(zeros, 8 * size)
    ensures r == Feed(c, buf[start..start + 3 * size])
  {
    hide Feed, Xor, Zeros, Instruction64, ZeroTables;
    var crc0: word32, crc1: word32, crc2: word32 := c, 0, 0;
    var next := start;
    var end := start + size;
    assert buf[start..start] == buf[start + size..start + size] == buf[start + 2 * size..start + 2 * size] == [];
    FeedNothing(c);
    FeedNothing(0);
    while next < end
      invariant start <= next <= end && (next - start) % 8 == 0
      invariant crc0 == Feed(c, buf[start..next])
      invariant crc1 == Feed(0, buf[start + size..next + size])
      invariant crc2 == Feed(0, buf[start + 2 * size..next + 2 * size])
    {
      assert next + 8 <= end;
      var x := Load(buf, next);
      var y := Load(buf, next + size);
      var z := Load(buf, next + 2 * size);
      ExtendSlice(c, buf, start, next);
      ExtendSlice(0, buf, start + size, next + size);
      ExtendSlice(0, buf, start + 2 * size, next + 2 * size);
      crc0 := Instruction64(crc0, x);
      crc1 := Instruction64(crc1, y);
      crc2 := Instruction64(crc2, z);
      next := next + 8;
    }
    var a, b, d := buf[start..end], buf[end..end + size], buf[end + size..end + 2 * size];
    JoinStreams(c, a, b, d, 8 * size);
    assert buf[start..start + 3 * size] == a + b + d;
    var shifted := ShiftByTables(zeros, crc0, 8 * size);
    XorIn32(shifted, crc1);
    crc0 := Xor(shifted, crc1);
    shifted := ShiftByTables(zeros, crc0, 8 * size);
    XorIn32(shifted, crc2);
    r := Xor(shifted, crc2);
  }

  lemma ExtendSlice(c: nat, buf: seq<byte>, start: nat, next: nat)
    requires start <= next && next + 8 <= |buf|
    ensures Feed(c, buf[start..next + 8]) == Feed(Feed(c, buf[start..next]), buf[next..next + 8])
  {
    assert buf[start..next + 8] == buf[start..next] + buf[next..next + 8];
    FeedConcat(c, buf[start..next], buf[next..next + 8]);
  }

  lemma ConstantLengths()
    ensures TopPower(LONG) == LONG && TopPower(SHORT) == SHORT
  {
    assert TopPower(4) == 4;
    assert TopPower(16) == 4 * TopPower(4);
    assert TopPower(64) == 4 * TopPower(16);
    assert TopPower(256) == 4 * TopPower(64);
    assert TopPower(2048) == 8 * TopPower(256);
  }

  class HardwareCrc {
    const longTables: array2<word32>
    const shortTables: array2<word32>

    ghost predicate Ready()
      reads longTables, shortTables
    {
      ZeroTables(longTables, 8 * LONG) && ZeroTables(shortTables, 8 * SHORT)
    }

    constructor ()
      ensures Ready() && fresh(longTables) && fresh(shortTables)
    {
      var l := new word32[4, 256]((i, j) => 0);
      var s := new word32[4, 256]((i, j) => 0);
      FillZeroTables(l, LONG);
      FillZeroTables(s, SHORT);
      ConstantLengths();
      longTables := l;
      shortTables := s;
    }

    /** The interleaved checksum of a buffer that starts `align` bytes past an eight-byte boundary
        is the bit-at-a-time checksum. */
    method Compute(crc: word32, buf: seq<byte>, align: nat) returns (r: word32)
      requires Ready()
      ensures r == Checksum(crc, buf)
    {
      hide Xor, Feed, FeedBits, Zeros, ZeroTables, Instruction64;
      XorIn32(crc, ONES);
      ghost var start := Xor(crc, ONES);
      var c: word32 := Xor(crc, ONES);
      var next := 0;
      FeedNothing(start);
      while next < |buf| && (align + next) % 8 != 0
        invariant next <= |buf|
        invariant c == Feed(start, buf[..next])
      {
        FeedSnoc(start, buf, next, 1);
        FeedOne(c, buf[next]);
        assert buf[next..next + 1] == [buf[next]];
        c := Instruction8(c, buf[next]);
        next := next + 1;
      }
      while |buf| - next >= 3 * LONG
        invariant next <= |buf|
        invariant c == Feed(start, buf[..next])
      {
        FeedSnoc(start, buf, next, 3 * LONG);
        c := ThreeBlocks(longTables, c, buf, next, LONG);
        next := next + 3 * LONG;
      }
      while |buf| - next >= 3 * SHORT
        invariant next <= |buf|
        invariant c == Feed(start, buf[..next])
      {
        FeedSnoc(start, buf, next, 3 * SHORT);
        c := ThreeBlocks(shortTables, c, buf, next, SHORT);
        next := next + 3 * SHORT;
      }
      var end := next + (|buf| - next - (|buf| - next) % 8);
      while next < end
        invariant next <= end <= |buf| && (end - next) % 8 == 0
        invariant c == Feed(start, buf[..next])
      {
        FeedSnoc(start, buf, next, 8);
        var w := Load(buf, next);
        c := Instruction64(c, w);
        next := next + 8;
      }
      while next < |buf|
        invariant next <= |buf|
        invariant c == Feed(start, buf[..next])
      {
        FeedSnoc(start, buf, next, 1);
        FeedOne(c, buf[next]);
        assert buf[next..next + 1] == [buf[next]];
        c := Instruction8(c, buf[next]);
        next := next + 1;
      }
      assert buf[..next] == buf;
      XorIn32(c, ONES);
      r := Xor(c, ONES);
    }
  }
}
