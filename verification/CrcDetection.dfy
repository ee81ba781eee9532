/** What the checksum detects: any change within 32 consecutive bits. */
module CrcDetection {
  import opened Wrappers
  import opened Gf2
  import opened Crc32c
  import opened CrcPolynomial

  lemma ShiftIsZero(c: nat)
    requires c <= ONES && Shift(c) == 0
    ensures c == 0
  {
    hide Xor;
    XorIsZero(c / 2, if c % 2 == 1 then POLY else 0);
  }

  /** No two registers become the same. */
  lemma ShiftInjective(c: nat, d: nat)
    requires c <= ONES && d <= ONES && c != d
    ensures Shift(c) != Shift(d)
  {
    hide Xor, Shift;
    ShiftLinear(c, d);
    XorIn32(c, d);
    XorIsZero(c, d);
    XorIsZero(Shift(c), Shift(d));
    if Shift(c) == Shift(d) { ShiftIsZero(Xor(c, d)); }
  }

  lemma XorInjective(c: nat, a: nat, b: nat)
    requires a != b
    ensures Xor(c, a) != Xor(c, b)
  {
    hide Xor;
    XorSwap(c, a, c, b);
    XorSelf(c);
    XorZero(Xor(a, b));
    XorIsZero(a, b);
    XorIsZero(Xor(c, a), Xor(c, b));
  }

  /** What follows a difference does not undo it. */
  lemma {:induction false} FeedAllInjective(c: nat, d: nat, bits: seq<nat>)
    requires c <= ONES && d <= ONES && c != d && AllBits(bits)
    ensures FeedAll(c, bits) != FeedAll(d, bits)
    decreases |bits|
  {
    hide Xor, Shift;
    if bits != [] {
      var m := bits[0];
      XorCommutes(c, m);
      XorCommutes(d, m);
      XorInjective(m, c, d);
      XorIn32(c, m);
      XorIn32(d, m);
      ShiftIn32(Xor(c, m));
      ShiftIn32(Xor(d, m));
      ShiftInjective(Xor(c, m), Xor(d, m));
      FeedAllInjective(FeedBit(c, m), FeedBit(d, m), bits[1..]);
    }
  }

  lemma {:induction false} FeedAllIn32(c: nat, bits: seq<nat>)
    requires c <= ONES && AllBits(bits)
    ensures FeedAll(c, bits) <= ONES
    decreases |bits|
  {
    hide Xor, Shift;
    if bits != [] {
      XorIn32(c, bits[0]);
      ShiftIn32(Xor(c, bits[0]));
      FeedAllIn32(FeedBit(c, bits[0]), bits[1..]);
    }
  }

  /** The number with the given bits, the first least significant. */
  function Number(bits: seq<nat>): nat {
    if bits == [] then 0 else bits[0] + 2 * Number(bits[1..])
  }

  lemma {:induction false} BitsOfNumber(bits: seq<nat>)
    requires AllBits(bits)
    ensures ByteBits(Number(bits), |bits|) == bits && Number(bits) < Pow2(|bits|)
    decreases |bits|
  {
    hide ByteBits, Pow2;
    if bits == [] {
      NoBits();
    } else {
      BitsOfNumber(bits[1..]);
      BitsOfJoined(bits[0], Number(bits[1..]), |bits| - 1);
      assert bits == [bits[0]] + bits[1..];
    }
  }

  lemma NoBits()
    ensures ByteBits(0, 0) == [] && Pow2(0) == 1
  {
  }

  lemma BitsOfJoined(bit: nat, rest: nat, n: nat)
    requires bit < 2 && rest < Pow2(n)
    ensures ByteBits(bit + 2 * rest, n + 1) == [bit] + ByteBits(rest, n) && bit + 2 * rest < Pow2(n + 1)
  {
    assert (bit + 2 * rest) % 2 == bit && (bit + 2 * rest) / 2 == rest;
  }

  lemma {:induction false} ZerosInjective(n: nat, c: nat, d: nat)
    requires c <= ONES && d <= ONES && c != d
    ensures Zeros(n, c) != Zeros(n, d)
  {
    hide Shift;
    if n != 0 {
      ShiftIn32(c);
      ShiftIn32(d);
      ShiftInjective(c, d);
      ZerosInjective(n - 1, Shift(c), Shift(d));
    }
  }

  lemma {:induction false} PowersGrow(m: nat, n: nat)
    requires m <= n
    ensures Pow2(m) <= Pow2(n)
    decreases n
  {
    if m < n { PowersGrow(m, n - 1); }
  }

  /** At most 32 different bits leave different registers. */
  lemma WindowDetected(c: nat, u: seq<nat>, v: seq<nat>)
    requires c <= ONES && AllBits(u) && AllBits(v) && |u| == |v| <= 32 && u != v
    ensures FeedAll(c, u) != FeedAll(c, v)
  {
    hide Xor, Shift, Zeros, FeedAll, Number, ByteBits, FeedBits;
    var n, a, b := |u|, Number(u), Number(v);
    BitsOfNumber(u);
    BitsOfNumber(v);
    FeedBitsByBit(c, n, a);
    FeedBitsByBit(c, n, b);
    FeedBitsAreMixed(c, n, a);
    FeedBitsAreMixed(c, n, b);
    PowersGrow(n, 32);
    Pow2ThirtyTwo();
    hide Pow2;
    XorIn32(c, a);
    XorIn32(c, b);
    XorInjective(c, a, b);
    ZerosInjective(n, Xor(c, a), Xor(c, b));
  }

  /** Two texts of the same length that differ, but only within 32 bits from bit `at` on. */
  ghost predicate Burst(a: seq<byte>, b: seq<byte>, at: nat) {
    && |a| == |b| && a != b
    && forall i | 0 <= i < 8 * |a| && !(at <= i < at + 32) :: Bits(a)[i] == Bits(b)[i]
  }

  lemma {:induction false} ByteBitsInjective(a: nat, b: nat, n: nat)
    requires a < Pow2(n) && b < Pow2(n) && a != b
    ensures ByteBits(a, n) != ByteBits(b, n)
  {
    if n != 0 {
      var x, y := ByteBits(a, n), ByteBits(b, n);
      assert x[0] == a % 2 && y[0] == b % 2 && x[1..] == ByteBits(a / 2, n - 1) && y[1..] == ByteBits(b / 2, n - 1);
      if a / 2 != b / 2 { ByteBitsInjective(a / 2, b / 2, n - 1); }
    }
  }

  lemma {:induction false} BitsInjective(a: seq<byte>, b: seq<byte>)
    requires |a| == |b| && a != b
    ensures Bits(a) != Bits(b)
    decreases |a|
  {
    hide ByteBits;
    var x, y := Bits(a), Bits(b);
    assert x[..8] == ByteBits(a[0], 8) && y[..8] == ByteBits(b[0], 8);
    assert x[8..] == Bits(a[1..]) && y[8..] == Bits(b[1..]);
    if a[0] != b[0] {
      Pow2Eight();
      ByteBitsInjective(a[0], b[0], 8);
    } else {
      assert a == [a[0]] + a[1..] && b == [b[0]] + b[1..];
      BitsInjective(a[1..], b[1..]);
    }
  }

  lemma SplitDetected(c: nat, p: seq<nat>, u: seq<nat>, v: seq<nat>, s: seq<nat>)
    requires c <= ONES && AllBits(p) && AllBits(u) && AllBits(v) && AllBits(s) && |u| == |v| <= 32 && u != v
    ensures FeedAll(c, p + (u + s)) != FeedAll(c, p + (v + s))
  {
    hide FeedAll, AllBits;
    var d := FeedAll(c, p);
    FeedAllConcat(c, p, u + s);
    FeedAllConcat(c, p, v + s);
    FeedAllConcat(d, u, s);
    FeedAllConcat(d, v, s);
    FeedAllIn32(c, p);
    WindowDetected(d, u, v);
    FeedAllIn32(d, u);
    FeedAllIn32(d, v);
    FeedAllInjective(FeedAll(d, u), FeedAll(d, v), s);
  }

  function Lesser(a: nat, b: nat): nat { if a < b then a else b }

  lemma Windows(x: seq<nat>, y: seq<nat>, at: nat) returns (lo: nat, hi: nat)
    requires |x| == |y| && x != y && forall i | 0 <= i < |x| && !(at <= i < at + 32) :: x[i] == y[i]
    ensures lo <= hi <= |x| && hi - lo <= 32 && x[lo..hi] != y[lo..hi]
    ensures x == x[..lo] + (x[lo..hi] + x[hi..]) && y == x[..lo] + (y[lo..hi] + x[hi..])
  {
    lo, hi := Lesser(at, |x|), Lesser(at + 32, |x|);
    assert x[..lo] == y[..lo] && x[hi..] == y[hi..];
    assert x == x[..lo] + (x[lo..hi] + x[hi..]) && y == y[..lo] + (y[lo..hi] + y[hi..]);
  }

  /** A burst of at most 32 bits always changes the register. */
  lemma BurstChangesFeed(c: word32, a: seq<byte>, b: seq<byte>, at: nat)
    requires Burst(a, b, at)
    ensures Feed(c, a) != Feed(c, b)
  {
    hide FeedAll, Feed, ByteBits, FeedBits, Pow2;
    var x, y := Bits(a), Bits(b);
    BitsInjective(a, b);
    hide Bits;
    var lo, hi := Windows(x, y, at);
    FeedByBit(c, a);
    FeedByBit(c, b);
    SplitDetected(c, x[..lo], x[lo..hi], y[lo..hi], x[hi..]);
  }

  /** So does it the checksum. */
  lemma BurstDetected(crc: word32, a: seq<byte>, b: seq<byte>, at: nat)
    requires Burst(a, b, at)
    ensures Checksum(crc, a) != Checksum(crc, b)
  {
    hide Feed, Xor, Burst;
    XorIn32(crc, ONES);
    var c := Xor(crc, ONES);
    BurstChangesFeed(c, a, b, at);
    XorCommutes(Feed(c, a), ONES);
    XorCommutes(Feed(c, b), ONES);
    XorInjective(ONES, Feed(c, a), Feed(c, b));
  }

  /** What is appended to two messages neither hides nor makes a difference between their checksums. */
  lemma ChecksumInjective(a: word32, b: word32, data: seq<byte>)
    requires a != b
    ensures Checksum(a, data) != Checksum(b, data)
  {
    hide Feed, FeedAll, Xor, Bits;
    var c, d := Xor(a, ONES), Xor(b, ONES);
    XorIn32(a, ONES);
    XorIn32(b, ONES);
    XorCommutes(a, ONES);
    XorCommutes(b, ONES);
    XorInjective(ONES, a, b);
    FeedByBit(c, data);
    FeedByBit(d, data);
    FeedAllInjective(c, d, Bits(data));
    XorCommutes(Feed(c, data), ONES);
    XorCommutes(Feed(d, data), ONES);
    XorInjective(ONES, Feed(c, data), Feed(d, data));
  }

  lemma {:induction false} BitsOfConcat(a: seq<byte>, b: seq<byte>)
    ensures Bits(a + b) == Bits(a) + Bits(b)
    decreases |a|
  {
    hide ByteBits;
    if a == [] {
      assert a + b == b;
    } else {
      assert (a + b)[1..] == a[1..] + b;
      BitsOfConcat(a[1..], b);
      assert ByteBits(a[0], 8) + (Bits(a[1..]) + Bits(b)) == ByteBits(a[0], 8) + Bits(a[1..]) + Bits(b);
    }
  }

  /** Up to four changed bytes in a row are a burst. */
  lemma BytesAreBurst(front: seq<byte>, a: seq<byte>, b: seq<byte>, back: seq<byte>)
    requires |a| == |b| <= 4 && a != b
    ensures Burst(front + a + back, front + b + back, 8 * |front|)
  {
    hide Bits;
    BitsOfConcat(front + a, back);
    BitsOfConcat(front, a);
    BitsOfConcat(front + b, back);
    BitsOfConcat(front, b);
    var x, y := front + a + back, front + b + back;
    assert x[|front|..|front| + |a|] == a && y[|front|..|front| + |b|] == b;
  }
}
