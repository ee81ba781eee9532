/** Machine words as naturals: shifts are division and multiplication by powers of two,
    masks are remainders, and exclusive-or is defined bit by bit.  The lemmas make
    exclusive-or the addition of a vector space over GF(2). */
module Gf2 {

  function Pow2(n: nat): (p: nat)
    ensures p > 0
  {
    if n == 0 then 1 else 2 * Pow2(n - 1)
  }

  function Xor(a: nat, b: nat): nat
    decreases a + b
  {
    if a == 0 && b == 0 then 0 else (a % 2 + b % 2) % 2 + 2 * Xor(a / 2, b / 2)
  }

  lemma XorHalf(a: nat, b: nat)
    ensures Xor(a, b) / 2 == Xor(a / 2, b / 2)
    ensures Xor(a, b) % 2 == (a % 2 + b % 2) % 2
  {
  }

  lemma {:induction false} XorZero(a: nat)
    ensures Xor(a, 0) == a && Xor(0, a) == a
  {
    if a != 0 {
      XorZero(a / 2);
    }
  }

  lemma {:induction false} XorSelf(a: nat)
    ensures Xor(a, a) == 0
  {
    if a != 0 {
      XorSelf(a / 2);
    }
  }

  lemma {:induction false} XorCommutes(a: nat, b: nat)
    ensures Xor(a, b) == Xor(b, a)
    decreases a + b
  {
    if a != 0 || b != 0 {
      XorCommutes(a / 2, b / 2);
    }
  }

  /** Exclusive-or of two words given as low bit and rest. */
  lemma XorOfJoined(x: nat, a: nat, y: nat, b: nat)
    requires x < 2 && y < 2
    ensures Xor(x + 2 * a, y + 2 * b) == (x + y) % 2 + 2 * Xor(a, b)
  {
    hide Xor;
    assert (x + 2 * a) / 2 == a && (y + 2 * b) / 2 == b;
    XorHalf(x + 2 * a, y + 2 * b);
    RebuildFrom(Xor(x + 2 * a, y + 2 * b), 2);
  }

  lemma RebuildFrom(x: nat, d: nat)
    requires d > 0
    ensures x == x % d + d * (x / d)
  {
  }

  lemma {:induction false} XorAssociates(a: nat, b: nat, c: nat)
    ensures Xor(Xor(a, b), c) == Xor(a, Xor(b, c))
    decreases a + b + c
  {
    hide Xor;
    if a + b + c == 0 {
      XorZero(0);
    } else {
      XorAssociates(a / 2, b / 2, c / 2);
      AssociateJoined(a % 2, a / 2, b % 2, b / 2, c % 2, c / 2);
      RebuildFrom(a, 2);
      RebuildFrom(b, 2);
      RebuildFrom(c, 2);
    }
  }

  lemma AssociateJoined(x: nat, a: nat, y: nat, b: nat, z: nat, c: nat)
    requires x < 2 && y < 2 && z < 2
    requires Xor(Xor(a, b), c) == Xor(a, Xor(b, c))
    ensures Xor(Xor(x + 2 * a, y + 2 * b), z + 2 * c) == Xor(x + 2 * a, Xor(y + 2 * b, z + 2 * c))
  {
    hide Xor;
    XorOfJoined(x, a, y, b);
    XorOfJoined((x + y) % 2, Xor(a, b), z, c);
    XorOfJoined(y, b, z, c);
    XorOfJoined(x, a, (y + z) % 2, Xor(b, c));
    ParityAssociates(x, y, z);
  }

  lemma ParityAssociates(x: nat, y: nat, z: nat)
    requires x < 2 && y < 2 && z < 2
    ensures ((x + y) % 2 + z) % 2 == (x + (y + z) % 2) % 2
  {
  }

  /** (w ^ x) ^ (y ^ z) = (w ^ y) ^ (x ^ z) */
  lemma XorSwap(w: nat, x: nat, y: nat, z: nat)
    ensures Xor(Xor(w, x), Xor(y, z)) == Xor(Xor(w, y), Xor(x, z))
  {
    XorAssociates(w, x, Xor(y, z));
    XorAssociates(x, y, z);
    XorCommutes(x, y);
    XorAssociates(y, x, z);
    XorAssociates(w, y, Xor(x, z));
  }

  lemma {:induction false} XorBound(n: nat, a: nat, b: nat)
    requires a < Pow2(n) && b < Pow2(n)
    ensures Xor(a, b) < Pow2(n)
  {
    if n != 0 {
      XorBound(n - 1, a / 2, b / 2);
    }
  }

  lemma XorSplit4(a: nat, b: nat)
    ensures Xor(a, b) / 4 == Xor(a / 4, b / 4)
    ensures Xor(a, b) % 4 == Xor(a % 4, b % 4)
  {
    hide Xor;
    var x, x1, y, y1 := a % 4 % 2, a % 4 / 2, b % 4 % 2, b % 4 / 2;
    RebuildTwice(a);
    RebuildTwice(b);
    XorOfJoined(x, x1 + 2 * (a / 4), y, y1 + 2 * (b / 4));
    XorOfJoined(x1, a / 4, y1, b / 4);
    XorOfJoined(x, x1, y, y1);
    XorOfBits(x1, y1);
    FourParts((x + y) % 2, (x1 + y1) % 2, Xor(a / 4, b / 4));
  }

  lemma RebuildTwice(a: nat)
    ensures a == a % 4 % 2 + 2 * (a % 4 / 2 + 2 * (a / 4))
    ensures a % 4 == a % 4 % 2 + 2 * (a % 4 / 2) && a % 4 / 2 < 2
  {
  }

  lemma FourParts(x: nat, y: nat, high: nat)
    requires x < 2 && y < 2
    ensures (x + 2 * (y + 2 * high)) / 4 == high && (x + 2 * (y + 2 * high)) % 4 == x + 2 * y
  {
  }

  lemma XorOfBits(x: nat, y: nat)
    requires x < 2 && y < 2
    ensures Xor(x, y) == (x + y) % 2
  {
    XorZero(0);
    XorOfJoined(x, 0, y, 0);
  }

  lemma Nested16(x: nat)
    ensures x / 16 == x / 4 / 4
    ensures x % 16 == x % 4 + 4 * (x / 4 % 4)
    ensures x % 16 % 4 == x % 4 && x % 16 / 4 == x / 4 % 4
  {
  }

  lemma XorSplit16(a: nat, b: nat)
    ensures Xor(a, b) / 16 == Xor(a / 16, b / 16)
    ensures Xor(a, b) % 16 == Xor(a % 16, b % 16)
  {
    hide Xor;
    Nested16(a);
    Nested16(b);
    Nested16(Xor(a, b));
    XorSplit4(a, b);
    XorSplit4(a / 4, b / 4);
    assert Xor(a, b) / 16 == Xor(a / 16, b / 16);
    XorSplit4(a % 16, b % 16);
    RebuildFrom(Xor(a % 16, b % 16), 4);
  }

  lemma Nested256(x: nat)
    ensures x / 256 == x / 16 / 16
    ensures x % 256 == x % 16 + 16 * (x / 16 % 16)
    ensures x % 256 % 16 == x % 16 && x % 256 / 16 == x / 16 % 16
  {
  }

  /** Shifting right by a byte and masking the low byte both distribute over exclusive-or. */
  lemma XorSplit256(a: nat, b: nat)
    ensures Xor(a, b) / 256 == Xor(a / 256, b / 256)
    ensures Xor(a, b) % 256 == Xor(a % 256, b % 256)
  {
    hide Xor;
    Nested256(a);
    Nested256(b);
    Nested256(Xor(a, b));
    XorSplit16(a, b);
    XorSplit16(a / 16, b / 16);
    assert Xor(a, b) / 256 == Xor(a / 256, b / 256);
    XorSplit16(a % 256, b % 256);
    RebuildFrom(Xor(a % 256, b % 256), 16);
  }

  /** A word is the exclusive-or of its low byte and of the rest left in place. */
  lemma XorJoin256(low: nat, high: nat)
    requires low < 256
    ensures Xor(low, 256 * high) == low + 256 * high
  {
    hide Xor;
    XorSplit256(low, 256 * high);
    XorZero(low);
    XorZero(high);
  }

  lemma {:induction false} Pow2Add(m: nat, n: nat)
    ensures Pow2(m + n) == Pow2(m) * Pow2(n)
  {
    if m != 0 {
      Pow2Add(m - 1, n);
    }
  }

  lemma Pow2Eight()
    ensures Pow2(8) == 256
  {
    assert Pow2(4) == 16;
    assert Pow2(8) == 16 * Pow2(4) by { Pow2Add(4, 4); }
  }

  lemma Pow2ThirtyTwo()
    ensures Pow2(32) == 0x1_0000_0000
  {
    Pow2Eight();
    Pow2Add(8, 8);
    Pow2Add(16, 16);
  }
}
