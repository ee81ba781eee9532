/** CRC-32C: the bit-at-a-time reference (section 12.1 of RFC 3720) and the algebra
    (linearity, concatenation, appended zeros) that the faster forms rely on. */
module Crc32c {
  import opened Wrappers
  import opened Gf2

  type word32 = w: nat | w < 0x1_0000_0000

  // The Castagnoli polynomial with its bits reversed.
  const POLY: word32 := 0x82f63b78
  const ONES: word32 := 0xffffffff

  // ----- the reference -----

  /** One message bit enters the register. */
  function FeedBit(c: nat, bit: nat): nat {
    Shift(Xor(c, bit))
  }

  function Shift(c: nat): nat {
    Xor(c / 2, if c % 2 == 1 then POLY else 0)
  }

  /** The low `n` bits of `b` enter the register, least significant first. */
  function FeedBits(c: nat, n: nat, b: nat): nat
    decreases n
  {
    if n == 0 then c else FeedBits(FeedBit(c, b % 2), n - 1, b / 2)
  }

  /** The register after a whole message. */
  function Feed(c: nat, data: seq<byte>): nat
    decreases |data|
  {
    if data == [] then c else Feed(FeedBits(c, 8, data[0]), data[1..])
  }

  /** The checksum continued from `crc`, inverted before and after. */
  function Checksum(crc: word32, data: seq<byte>): (r: word32)
  {
    XorIn32(crc, ONES);
    FeedIn32(Xor(crc, ONES), data);
    XorIn32(Feed(Xor(crc, ONES), data), ONES);
    Xor(Feed(Xor(crc, ONES), data), ONES)
  }

  lemma XorIn32(a: nat, b: nat)
    requires a <= ONES && b <= ONES
    ensures Xor(a, b) <= ONES
  {
    Pow2ThirtyTwo();
    XorBound(32, a, b);
  }

  lemma ShiftIn32(c: nat)
    requires c <= ONES
    ensures Shift(c) <= ONES
  {
    XorIn32(c / 2, if c % 2 == 1 then POLY else 0);
  }

  lemma {:induction false} FeedBitsIn32(c: nat, n: nat, b: nat)
    requires c <= ONES
    ensures FeedBits(c, n, b) <= ONES
    decreases n
  {
    if n != 0 {
      XorIn32(c, b % 2);
      ShiftIn32(Xor(c, b % 2));
      FeedBitsIn32(FeedBit(c, b % 2), n - 1, b / 2);
    }
  }

  lemma {:induction false} FeedIn32(c: nat, data: seq<byte>)
    requires c <= ONES
    ensures Feed(c, data) <= ONES
    decreases |data|
  {
    if data != [] {
      FeedBitsIn32(c, 8, data[0]);
      FeedIn32(FeedBits(c, 8, data[0]), data[1..]);
    }
  }

  // ----- the register as a linear map -----

  /** The register after `n` zero bits. */
  function Zeros(n: nat, c: nat): nat {
    if n == 0 then c else Zeros(n - 1, Shift(c))
  }

  lemma ShiftLinear(a: nat, b: nat)
    ensures Shift(Xor(a, b)) == Xor(Shift(a), Shift(b))
  {
    hide Xor;
    var pa, pb := if a % 2 == 1 then POLY else 0, if b % 2 == 1 then POLY else 0;
    XorHalf(a, b);
    XorZero(0);
    XorZero(POLY);
    XorSelf(POLY);
    assert (if Xor(a, b) % 2 == 1 then POLY else 0) == Xor(pa, pb);
    XorSwap(a / 2, b / 2, pa, pb);
  }

  lemma {:induction false} ZerosLinear(n: nat, a: nat, b: nat)
    ensures Zeros(n, Xor(a, b)) == Xor(Zeros(n, a), Zeros(n, b))
  {
    hide Xor, Shift;
    if n != 0 {
      ShiftLinear(a, b);
      ZerosLinear(n - 1, Shift(a), Shift(b));
    }
  }

  lemma {:induction false} ZerosAdd(m: nat, n: nat, c: nat)
    ensures Zeros(m + n, c) == Zeros(n, Zeros(m, c))
  {
    hide Xor, Shift;
    if m != 0 {
      ZerosAdd(m - 1, n, Shift(c));
    }
  }

  lemma {:induction false} ZerosOfZero(n: nat)
    ensures Zeros(n, 0) == 0
  {
    if n != 0 {
      XorZero(0);
      ZerosOfZero(n - 1);
    }
  }

  lemma {:induction false} ZerosIn32(n: nat, c: nat)
    requires c <= ONES
    ensures Zeros(n, c) <= ONES
  {
    hide Xor, Shift;
    if n != 0 {
      ShiftIn32(c);
      ZerosIn32(n - 1, Shift(c));
    }
  }

  lemma ShiftEven(x: nat)
    ensures Shift(2 * x) == x
  {
    XorZero(x);
  }

  /** Bits above the register's low end only move down. */
  lemma {:induction false} ZerosOfHigh(n: nat, x: nat)
    ensures Zeros(n, Pow2(n) * x) == x
  {
    hide Xor, Shift;
    if n != 0 {
      assert Pow2(n) * x == 2 * (Pow2(n - 1) * x);
      ShiftEven(Pow2(n - 1) * x);
      ZerosOfHigh(n - 1, x);
    }
  }

  /** The step that table look-ups use: only the low byte needs the polynomial. */
  lemma ZerosByByte(c: nat)
    ensures Zeros(8, c) == Xor(Zeros(8, c % 256), c / 256)
  {
    hide *;
    XorJoin256(c % 256, c / 256);
    ZerosLinear(8, c % 256, 256 * (c / 256));
    Pow2Eight();
    ZerosOfHigh(8, c / 256);
  }

  lemma {:induction false} FeedBitsAreMixed(c: nat, n: nat, b: nat)
    requires b < Pow2(n)
    ensures FeedBits(c, n, b) == Zeros(n, Xor(c, b))
    decreases n
  {
    hide Xor, Shift;
    if n == 0 {
      XorZero(c);
    } else {
      var mixed := Xor(c, b % 2);
      FeedBitsAreMixed(Shift(mixed), n - 1, b / 2);
      XorAssociates(c, b % 2, 2 * (b / 2));
      SplitLowBit(b);
      ShiftLinear(mixed, 2 * (b / 2));
      ShiftEven(b / 2);
    }
  }

  lemma SplitLowBit(b: nat)
    ensures Xor(b % 2, 2 * (b / 2)) == b
  {
    XorOfJoined(b % 2, 0, 0, b / 2);
    XorZero(b / 2);
  }

  /** A byte is mixed into the register and followed by eight zeros. */
  lemma FeedByte(c: nat, b: byte)
    ensures FeedBits(c, 8, b) == Zeros(8, Xor(c, b))
  {
    Pow2Eight();
    FeedBitsAreMixed(c, 8, b);
  }

  // ----- messages -----

  lemma {:induction false} FeedConcat(c: nat, a: seq<byte>, b: seq<byte>)
    ensures Feed(c, a + b) == Feed(Feed(c, a), b)
    decreases |a|
  {
    if a == [] {
      assert a + b == b;
    } else {
      assert (a + b)[1..] == a[1..] + b;
      FeedConcat(FeedBits(c, 8, a[0]), a[1..], b);
    }
  }

  /** Checksumming in pieces is checksumming the whole: crc(crc(c, a), b) = crc(c, a + b). */
  lemma ChecksumConcat(crc: word32, a: seq<byte>, b: seq<byte>)
    ensures Checksum(Checksum(crc, a), b) == Checksum(crc, a + b)
  {
    hide Xor, Feed;
    var mid := Feed(Xor(crc, ONES), a);
    FeedConcat(Xor(crc, ONES), a, b);
    XorAssociates(mid, ONES, ONES);
    XorSelf(ONES);
    XorZero(mid);
  }

  /** A change of the initial register shows up as that change pushed through |data| zero bytes. */
  lemma {:induction false} FeedLinear(c: nat, d: nat, data: seq<byte>)
    ensures Feed(Xor(c, d), data) == Xor(Zeros(8 * |data|, c), Feed(d, data))
    decreases |data|
  {
    hide Xor, Zeros, FeedBits;
    if data == [] {
      ZerosNone(c);
    } else {
      var b := data[0];
      FeedByte(Xor(c, d), b);
      FeedByte(d, b);
      XorAssociates(c, d, b);
      ZerosLinear(8, c, Xor(d, b));
      FeedLinear(Zeros(8, c), Zeros(8, Xor(d, b)), data[1..]);
      ZerosAdd(8, 8 * |data[1..]|, c);
      assert 8 * |data| == 8 + 8 * |data[1..]|;
    }
  }

  lemma ZerosNone(c: nat)
    ensures Zeros(0, c) == c
  {
  }
}
