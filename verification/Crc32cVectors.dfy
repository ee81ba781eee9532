/** The reference on examples of section B.4 of RFC 3720.  Registers are evaluated as bit-vectors, which are tied to
    the reference bit by bit. */
module Crc32cVectors {
  import opened Gf2
  import opened Wrappers
  import opened Crc32c

  function Low(w: bv32): (x: nat)
    ensures x < 2
  {
    if w & 1 == 1 then 1 else 0
  }

  function Half(w: bv32): bv32 {
    w >> 1
  }

  function Mix(a: bv32, b: bv32): bv32 {
    a ^ b
  }

  /** The number that the low `n` bits of a bit-vector write. */
  function Word(w: bv32, n: nat): nat
    decreases n
  {
    if n == 0 then 0 else Low(w) + 2 * Word(Half(w), n - 1)
  }

  lemma LowXor(a: bv32, b: bv32)
    ensures Half(Mix(a, b)) == Mix(Half(a), Half(b)) && Low(Mix(a, b)) == (Low(a) + Low(b)) % 2
  {
  }

  lemma WordStep(w: bv32, n: nat)
    ensures Word(w, 0) == 0 && Word(w, n + 1) == Low(w) + 2 * Word(Half(w), n)
  {
    hide Low, Half;
  }

  lemma {:induction false} WordXor(a: bv32, b: bv32, n: nat)
    ensures Word(Mix(a, b), n) == Xor(Word(a, n), Word(b, n))
    decreases n
  {
    hide Xor, Low, Half, Word, Mix;
    if n == 0 {
      WordStep(a, 0);
      WordStep(b, 0);
      WordStep(Mix(a, b), 0);
      XorZero(0);
    } else {
      var x, y := Half(a), Half(b);
      LowXor(a, b);
      WordXor(x, y, n - 1);
      WordStep(a, n - 1);
      WordStep(b, n - 1);
      WordStep(Mix(a, b), n - 1);
      XorOfJoined(Low(a), Word(x, n - 1), Low(b), Word(y, n - 1));
    }
  }

  function ShiftBits(w: bv32): bv32 {
    (w >> 1) ^ (if w & 1 == 1 then 0x82f63b78 else 0)
  }

  function ZeroBits(n: nat, w: bv32): bv32
    decreases n
  {
    if n == 0 then w else ZeroBits(n - 1, ShiftBits(w))
  }

  lemma HalfTwice(w: bv32)
    ensures Half(w) == w >> 1 && Half(w >> 1) == w >> 2 && Half(w >> 2) == w >> 3 && Half(w >> 3) == w >> 4
  {
  }

  lemma WordNibble(w: bv32, n: nat)
    ensures Word(w, n + 4) == Low(w) + 2 * Low(w >> 1) + 4 * Low(w >> 2) + 8 * Low(w >> 3) + 16 * Word(w >> 4, n)
  {
    hide Low, Half, Word;
    HalfTwice(w);
    WordStep(w, n + 3);
    WordStep(w >> 1, n + 2);
    WordStep(w >> 2, n + 1);
    WordStep(w >> 3, n);
  }

  function Value(w: bv32): nat {
    Word(w, 32)
  }

  lemma PolyValue()
    ensures Value(0x82f63b78) == 0x82f63b78
  {
    hide Word;
    WordNibble(0x82f63b78, 28);
    WordNibble(0x82f63b7, 24);
    WordNibble(0x82f63b, 20);
    WordNibble(0x82f63, 16);
    WordNibble(0x82f6, 12);
    WordNibble(0x82f, 8);
    WordNibble(0x82, 4);
    WordNibble(0x8, 0);
    WordStep(0, 0);
  }

  lemma OnesValue()
    ensures Value(0xffffffff) == 0xffffffff
  {
    hide Word;
    WordNibble(0xffffffff, 28);
    WordNibble(0xfffffff, 24);
    WordNibble(0xffffff, 20);
    WordNibble(0xfffff, 16);
    WordNibble(0xffff, 12);
    WordNibble(0xfff, 8);
    WordNibble(0xff, 4);
    WordNibble(0xf, 0);
    WordStep(0, 0);
  }

  lemma ZerosSumValue()
    ensures Value(0x8a9136aa) == 0x8a9136aa
  {
    hide Word;
    WordNibble(0x8a9136aa, 28);
    WordNibble(0x8a9136a, 24);
    WordNibble(0x8a9136, 20);
    WordNibble(0x8a913, 16);
    WordNibble(0x8a91, 12);
    WordNibble(0x8a9, 8);
    WordNibble(0x8a, 4);
    WordNibble(0x8, 0);
    WordStep(0, 0);
  }

  lemma {:induction false} WordOfZero(n: nat)
    ensures Word(0, n) == 0
  {
    if n != 0 { WordOfZero(n - 1); }
  }

  function Halves(n: nat, w: bv32): bv32
    decreases n
  {
    if n == 0 then w else Halves(n - 1, Half(w))
  }

  lemma {:induction false} WordOfFew(n: nat, w: bv32)
    requires Halves(n, w) == 0
    ensures Word(w, n + 1) == Word(w, n)
    decreases n
  {
    hide Half;
    if n == 0 {
      WordOfZero(1);
    } else {
      WordOfFew(n - 1, Half(w));
    }
  }

  lemma FourHalves(n: nat, w: bv32)
    ensures Halves(n + 4, w) == Halves(n, w >> 4)
  {
    HalfTwice(w);
    hide Half;
    assert Halves(n + 4, w) == Halves(n + 3, w >> 1) == Halves(n + 2, w >> 2) == Halves(n + 1, w >> 3);
  }

  lemma EightHalves(n: nat, w: bv32)
    ensures Halves(n + 8, w) == Halves(n, w >> 8)
  {
    hide Halves;
    FourHalves(n + 4, w);
    FourHalves(n, w >> 4);
  }

  lemma SixteenHalves(n: nat, w: bv32)
    ensures Halves(n + 16, w) == Halves(n, w >> 16)
  {
    hide Halves;
    EightHalves(n + 8, w);
    EightHalves(n, w >> 8);
  }

  lemma HalvesVanish(w: bv32)
    ensures Halves(31, Half(w)) == 0
  {
    hide Halves;
    var x := w >> 1;
    SixteenHalves(15, x);
    EightHalves(7, x >> 16);
    FourHalves(3, x >> 16 >> 8);
    ThreeHalves(x >> 16 >> 8 >> 4);
  }

  lemma ThreeHalves(w: bv32)
    ensures Halves(3, w) == w >> 3
  {
    HalfTwice(w);
    hide Half;
    assert Halves(3, w) == Halves(2, w >> 1) == Halves(1, w >> 2) == Halves(0, w >> 3);
  }

  lemma ShiftValue(w: bv32)
    ensures Shift(Value(w)) == Value(ShiftBits(w))
  {
    hide Xor, Word, Halves, Low;
    WordStep(w, 31);
    HalvesVanish(w);
    WordOfFew(31, Half(w));
    var p := if w & 1 == 1 then 0x82f63b78 else 0;
    WordXor(Half(w), p, 32);
    PolyValue();
    WordOfZero(32);
    LowIsOne(w);
  }

  lemma LowIsOne(w: bv32)
    ensures Low(w) == 1 <==> w & 1 == 1
  {
  }

  lemma {:induction false} ZerosValue(n: nat, w: bv32)
    ensures Zeros(n, Value(w)) == Value(ZeroBits(n, w))
    decreases n
  {
    hide Shift, ShiftBits, Value;
    if n != 0 {
      ShiftValue(w);
      ZerosValue(n - 1, ShiftBits(w));
    }
  }

  lemma {:induction false} ZeroBitsAdd(m: nat, n: nat, w: bv32)
    ensures ZeroBits(m + n, w) == ZeroBits(n, ZeroBits(m, w))
    decreases m
  {
    hide ShiftBits;
    if m != 0 { ZeroBitsAdd(m - 1, n, ShiftBits(w)); }
  }

  // ----- zero bytes -----

  function Blank(n: nat): seq<byte> {
    seq(n, i => 0)
  }

  lemma {:induction false} FeedBlank(c: nat, n: nat)
    ensures Feed(c, Blank(n)) == Zeros(8 * n, c)
    decreases n
  {
    hide Xor, Zeros, FeedBits;
    if n == 0 {
      ZerosNone(c);
    } else {
      FeedByte(c, 0);
      XorZero(c);
      assert Blank(n)[0] == 0 && Blank(n)[1..] == Blank(n - 1);
      FeedBlank(Zeros(8, c), n - 1);
      ZerosAdd(8, 8 * (n - 1), c);
    }
  }

  lemma ZeroBytes1()
    ensures ZeroBits(64, 0xffffffff) == 0x73d74d75
  {
    assert ZeroBits(8, 0xffffffff) == 0xad82acae;
    assert ZeroBits(8, 0xad82acae) == 0x0e9e882d;
    assert ZeroBits(8, 0x0e9e882d) == 0x9f9b5c85;
    assert ZeroBits(8, 0x9f9b5c85) == 0xb798b438;
    assert ZeroBits(8, 0xb798b438) == 0xba8d89ca;
    assert ZeroBits(8, 0xba8d89ca) == 0xa8d58375;
    assert ZeroBits(8, 0xa8d58375) == 0x44c19592;
    assert ZeroBits(8, 0x44c19592) == 0x73d74d75;
    hide ZeroBits;
    ZeroBitsAdd(8, 56, 0xffffffff);
    ZeroBitsAdd(8, 48, 0xad82acae);
    ZeroBitsAdd(8, 40, 0x0e9e882d);
    ZeroBitsAdd(8, 32, 0x9f9b5c85);
    ZeroBitsAdd(8, 24, 0xb798b438);
    ZeroBitsAdd(8, 16, 0xba8d89ca);
    ZeroBitsAdd(8, 8, 0xa8d58375);
    ZeroBitsAdd(8, 0, 0x44c19592);
    assert ZeroBits(0, 0x73d74d75) == 0x73d74d75 by { NoBits(0x73d74d75); }
  }

  lemma ZeroBytes2()
    ensures ZeroBits(64, 0x73d74d75) == 0xbd8f6515
  {
    assert ZeroBits(8, 0x73d74d75) == 0x441a975c;
    assert ZeroBits(8, 0x441a975c) == 0x1c220f94;
    assert ZeroBits(8, 0x1c220f94) == 0x552e4907;
    assert ZeroBits(8, 0x552e4907) == 0xd49f4aa2;
    assert ZeroBits(8, 0xd49f4aa2) == 0x43a45a1b;
    assert ZeroBits(8, 0x43a45a1b) == 0x8994c80e;
    assert ZeroBits(8, 0x8994c80e) == 0xacf12bef;
    assert ZeroBits(8, 0xacf12bef) == 0xbd8f6515;
    hide ZeroBits;
    ZeroBitsAdd(8, 56, 0x73d74d75);
    ZeroBitsAdd(8, 48, 0x441a975c);
    ZeroBitsAdd(8, 40, 0x1c220f94);
    ZeroBitsAdd(8, 32, 0x552e4907);
    ZeroBitsAdd(8, 24, 0xd49f4aa2);
    ZeroBitsAdd(8, 16, 0x43a45a1b);
    ZeroBitsAdd(8, 8, 0x8994c80e);
    ZeroBitsAdd(8, 0, 0xacf12bef);
    assert ZeroBits(0, 0xbd8f6515) == 0xbd8f6515 by { NoBits(0xbd8f6515); }
  }

  lemma ZeroBytes3()
    ensures ZeroBits(64, 0xbd8f6515) == 0x7b041311
  {
    assert ZeroBits(8, 0xbd8f6515) == 0x25125c16;
    assert ZeroBits(8, 0x25125c16) == 0x36da32db;
    assert ZeroBits(8, 0x36da32db) == 0x4a6c90a2;
    assert ZeroBits(8, 0x4a6c90a2) == 0x433aa9c1;
    assert ZeroBits(8, 0x433aa9c1) == 0x31a59f6e;
    assert ZeroBits(8, 0x31a59f6e) == 0xcd8f89da;
    assert ZeroBits(8, 0xcd8f89da) == 0xb8fc461a;
    assert ZeroBits(8, 0xb8fc461a) == 0x7b041311;
    hide ZeroBits;
    ZeroBitsAdd(8, 56, 0xbd8f6515);
    ZeroBitsAdd(8, 48, 0x25125c16);
    ZeroBitsAdd(8, 40, 0x36da32db);
    ZeroBitsAdd(8, 32, 0x4a6c90a2);
    ZeroBitsAdd(8, 24, 0x433aa9c1);
    ZeroBitsAdd(8, 16, 0x31a59f6e);
    ZeroBitsAdd(8, 8, 0xcd8f89da);
    ZeroBitsAdd(8, 0, 0xb8fc461a);
    assert ZeroBits(0, 0x7b041311) == 0x7b041311 by { NoBits(0x7b041311); }
  }

  lemma ZeroBytes4()
    ensures ZeroBits(64, 0x7b041311) == 0x756ec955
  {
    assert ZeroBits(8, 0x7b041311) == 0xe24e407f;
    assert ZeroBits(8, 0xe24e407f) == 0x2f692669;
    assert ZeroBits(8, 0x2f692669) == 0x195b2188;
    assert ZeroBits(8, 0x195b2188) == 0x08363896;
    assert ZeroBits(8, 0x08363896) == 0xb4012dc7;
    assert ZeroBits(8, 0xb4012dc7) == 0x17f34302;
    assert ZeroBits(8, 0x17f34302) == 0xe12c83b4;
    assert ZeroBits(8, 0xe12c83b4) == 0x756ec955;
    hide ZeroBits;
    ZeroBitsAdd(8, 56, 0x7b041311);
    ZeroBitsAdd(8, 48, 0xe24e407f);
    ZeroBitsAdd(8, 40, 0x2f692669);
    ZeroBitsAdd(8, 32, 0x195b2188);
    ZeroBitsAdd(8, 24, 0x08363896);
    ZeroBitsAdd(8, 16, 0xb4012dc7);
    ZeroBitsAdd(8, 8, 0x17f34302);
    ZeroBitsAdd(8, 0, 0xe12c83b4);
    assert ZeroBits(0, 0x756ec955) == 0x756ec955 by { NoBits(0x756ec955); }
  }

  lemma NoBits(w: bv32)
    ensures ZeroBits(0, w) == w
  {
  }

  lemma AllZeroBytes()
    ensures ZeroBits(256, 0xffffffff) == 0x756ec955
  {
    hide ZeroBits;
    ZeroBytes1();
    ZeroBytes2();
    ZeroBytes3();
    ZeroBytes4();
    ZeroBitsAdd(64, 192, 0xffffffff);
    ZeroBitsAdd(64, 128, 0x73d74d75);
    ZeroBitsAdd(64, 64, 0xbd8f6515);
  }

  lemma LastFlip()
    ensures Mix(0x756ec955, 0xffffffff) == 0x8a9136aa
  {
  }

  /** 32 bytes of zeros. */
  lemma ThirtyTwoZeros()
    ensures Checksum(0, Blank(32)) == 0x8a9136aa
  {
    hide Xor, Feed, Zeros, ZeroBits, Mix, Word, Blank;
    var r: bv32 := 0x756ec955;
    XorZero(ONES);
    OnesValue();
    FeedBlank(ONES, 32);
    ZerosValue(256, 0xffffffff);
    AllZeroBytes();
    WordXor(r, 0xffffffff, 32);
    LastFlip();
    ZerosSumValue();
  }
}
