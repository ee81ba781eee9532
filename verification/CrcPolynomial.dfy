/** What the checksum is: the remainder of the message, as a polynomial over GF(2), by the generator that section 12.1
    of RFC 3720 gives by its exponents. */
module CrcPolynomial {
  import opened Wrappers
  import opened Gf2
  import opened Crc32c

  // ----- polynomials: bit e of a number is the coefficient of x^e -----

  const EXPONENTS: seq<nat> := [32, 28, 27, 26, 25, 23, 22, 20, 19, 18, 14, 13, 11, 10, 9, 8, 6, 0]

  function Polynomial(exponents: seq<nat>): nat {
    if exponents == [] then 0 else Pow2(exponents[0]) + Polynomial(exponents[1..])
  }

  function Generator(): nat { Polynomial(EXPONENTS) }

  function Times(q: nat, g: nat): nat {
    if q == 0 then 0 else Xor(if q % 2 == 1 then g else 0, 2 * Times(q / 2, g))
  }

  /** `p` is a multiple of the generator plus `r`, whose degree is below 32. */
  ghost predicate IsRemainder(r: nat, p: nat) {
    r < Pow2(32) && exists q: nat :: p == Xor(Times(q, Generator()), r)
  }

  /** A polynomial times x^n. */
  function Raise(n: nat, a: nat): nat { if n == 0 then a else 2 * Raise(n - 1, a) }

  lemma {:induction false} RaiseAdds(n: nat, a: nat, b: nat)
    ensures Xor(Raise(n, a), Raise(n, b)) == Raise(n, Xor(a, b))
  {
    hide Xor;
    if n != 0 {
      RaiseAdds(n - 1, a, b);
      XorOfJoined(0, Raise(n - 1, a), 0, Raise(n - 1, b));
    }
  }

  lemma {:induction false} RaiseTwice(n: nat, a: nat)
    ensures Raise(n, 2 * a) == Raise(n + 1, a) && Raise(n, 0) == 0
  {
    if n != 0 {
      RaiseTwice(n - 1, a);
    }
  }

  /** Adding a smaller number does not clear the top. */
  lemma {:induction false} HighStays(n: nat, a: nat, b: nat)
    requires a >= Pow2(n) > b
    ensures Xor(a, b) >= Pow2(n)
  {
    hide Xor;
    if n == 0 {
      XorZero(a);
    } else {
      HighStays(n - 1, a / 2, b / 2);
      XorHalf(a, b);
    }
  }

  lemma {:induction false} TimesAdds(p: nat, q: nat, g: nat)
    ensures Times(Xor(p, q), g) == Xor(Times(p, g), Times(q, g))
    decreases p + q
  {
    hide Xor;
    if p == 0 || q == 0 {
      XorZero(p);
      XorZero(q);
      XorZero(Times(p, g));
      XorZero(Times(q, g));
    } else {
      TimesAdds(p / 2, q / 2, g);
      XorHalf(p, q);
      TimesStep(p, g);
      TimesStep(q, g);
      TimesStep(Xor(p, q), g);
      XorOfJoined(0, Times(p / 2, g), 0, Times(q / 2, g));
      var a, b := if p % 2 == 1 then g else 0, if q % 2 == 1 then g else 0;
      XorSwap(a, 2 * Times(p / 2, g), b, 2 * Times(q / 2, g));
      XorZero(g);
      XorZero(0);
      XorSelf(g);
    }
  }

  lemma TimesStep(q: nat, g: nat)
    ensures Times(q, g) == Xor(if q % 2 == 1 then g else 0, 2 * Times(q / 2, g))
  {
    XorZero(0);
  }

  lemma {:induction false} TimesPower(n: nat, g: nat)
    ensures Times(Pow2(n), g) == Raise(n, g)
  {
    hide Xor, Times;
    if n == 0 {
      TimesOne(g);
    } else {
      TimesPower(n - 1, g);
      TimesTwo(Pow2(n - 1), g);
    }
  }

  lemma TimesOne(g: nat)
    ensures Times(1, g) == g
  {
    XorZero(g);
  }

  lemma TimesTwo(q: nat, g: nat)
    ensures Times(2 * q, g) == 2 * Times(q, g)
  {
    hide Xor;
    TimesStep(2 * q, g);
    XorZero(2 * Times(q, g));
  }

  /** A multiple of a polynomial of degree 32 has at least that degree, unless it is zero. */
  lemma {:induction false} MultipleIsLarge(q: nat, g: nat)
    requires q > 0 && Pow2(32) <= g < 2 * Pow2(32)
    ensures Times(q, g) >= Pow2(32)
  {
    hide Xor;
    TimesStep(q, g);
    if q == 1 {
      XorZero(g);
    } else {
      MultipleIsLarge(q / 2, g);
      HighStays(33, 2 * Times(q / 2, g), if q % 2 == 1 then g else 0);
      XorCommutes(2 * Times(q / 2, g), if q % 2 == 1 then g else 0);
    }
  }

  /** There is only one remainder. */
  lemma RemainderUnique(p: nat, r: nat, s: nat)
    requires IsRemainder(r, p) && IsRemainder(s, p)
    ensures r == s
  {
    var a: nat :| p == Xor(Times(a, Generator()), r);
    var b: nat :| p == Xor(Times(b, Generator()), s);
    hide Xor, Times, Generator, Pow2;
    var g := Generator();
    TimesAdds(a, b, g);
    Cancel(Times(a, g), r, Times(b, g), s);
    XorBound(32, r, s);
    GeneratorIs();
    Pow2ThirtyTwo();
    if Xor(a, b) > 0 {
      MultipleIsLarge(Xor(a, b), g);
    }
    TimesNothing(g);
    XorIsZero(r, s);
  }

  lemma TimesNothing(g: nat)
    ensures Times(0, g) == 0
  {
  }

  lemma Cancel(a: nat, r: nat, b: nat, s: nat)
    requires Xor(a, r) == Xor(b, s)
    ensures Xor(a, b) == Xor(r, s)
  {
    hide Xor;
    XorSwap(a, r, b, s);
    XorSelf(Xor(b, s));
    XorIsZero(Xor(a, b), Xor(r, s));
  }

  lemma {:induction false} XorIsZero(a: nat, b: nat)
    ensures Xor(a, b) == 0 <==> a == b
    decreases a + b
  {
    if a != 0 || b != 0 {
      XorIsZero(a / 2, b / 2);
    }
  }

  // ----- bit order -----

  /** The term x^n, or nothing. */
  function Coefficient(bit: nat, n: nat): nat { if bit == 1 then Pow2(n) else 0 }

  /** The low `n` bits of a word in reverse. */
  function Mirror(w: nat, n: nat): nat {
    if n == 0 then 0 else Coefficient(w % 2, n - 1) + Mirror(w / 2, n - 1)
  }

  /** The bits of a message in the order in which they enter: of each byte the least significant first. */
  function Bits(data: seq<byte>): (bits: seq<nat>)
    ensures |bits| == 8 * |data| && forall i | 0 <= i < |bits| :: bits[i] < 2
  {
    if data == [] then [] else ByteBits(data[0], 8) + Bits(data[1..])
  }

  function ByteBits(b: nat, n: nat): (bits: seq<nat>)
    ensures |bits| == n && forall i | 0 <= i < n :: bits[i] < 2
  {
    if n == 0 then [] else [b % 2] + ByteBits(b / 2, n - 1)
  }

  /** The polynomial of a message: its first bit is the highest coefficient. */
  function Message(bits: seq<nat>): nat {
    if bits == [] then 0 else Coefficient(bits[0], |bits| - 1) + Message(bits[1..])
  }

  lemma {:induction false} SumWithTop(n: nat, x: nat, u: nat)
    requires u < Pow2(n)
    ensures Xor(Coefficient(x, n), u) == Coefficient(x, n) + u
  {
    hide Xor;
    if x != 1 {
      XorZero(u);
    } else if n == 0 {
      XorZero(1);
    } else {
      SumWithTop(n - 1, x, u / 2);
      XorOfJoined(0, Pow2(n - 1), u % 2, u / 2);
    }
  }

  /** Words with one bit above `n` others. */
  lemma XorWithTop(n: nat, x: nat, u: nat, y: nat, v: nat)
    requires x < 2 && y < 2 && u < Pow2(n) && v < Pow2(n)
    ensures Xor(Coefficient(x, n) + u, Coefficient(y, n) + v) == Coefficient((x + y) % 2, n) + Xor(u, v)
  {
    hide Xor, Pow2;
    SumWithTop(n, x, u);
    SumWithTop(n, y, v);
    XorSwap(Coefficient(x, n), u, Coefficient(y, n), v);
    XorZero(Pow2(n));
    XorZero(0);
    XorSelf(Pow2(n));
    XorBound(n, u, v);
    SumWithTop(n, (x + y) % 2, Xor(u, v));
  }

  lemma {:induction false} MirrorBound(w: nat, n: nat)
    ensures Mirror(w, n) < Pow2(n)
  {
    if n != 0 {
      MirrorBound(w / 2, n - 1);
    }
  }

  lemma {:induction false} MirrorAdds(a: nat, b: nat, n: nat)
    ensures Mirror(Xor(a, b), n) == Xor(Mirror(a, n), Mirror(b, n))
  {
    hide Xor;
    if n == 0 {
      XorZero(0);
    } else {
      XorHalf(a, b);
      MirrorAdds(a / 2, b / 2, n - 1);
      MirrorBound(a / 2, n - 1);
      MirrorBound(b / 2, n - 1);
      XorWithTop(n - 1, a % 2, Mirror(a / 2, n - 1), b % 2, Mirror(b / 2, n - 1));
    }
  }

  lemma {:induction false} MirrorShort(w: nat, n: nat)
    requires w < Pow2(n)
    ensures Mirror(w, n + 1) == 2 * Mirror(w, n)
  {
    if n != 0 {
      MirrorShort(w / 2, n - 1);
    }
  }

  lemma MirrorZero(n: nat)
    ensures Mirror(0, n) == 0
  {
    if n != 0 {
      MirrorZero(n - 1);
    }
  }

  // ----- the generator and the constant of the code -----

  lemma PowersOfTwo()
    ensures Pow2(0) == 1 && Pow2(6) == 0x40 && Pow2(8) == 0x100 && Pow2(9) == 0x200 && Pow2(10) == 0x400
    ensures Pow2(11) == 0x800 && Pow2(13) == 0x2000 && Pow2(14) == 0x4000 && Pow2(18) == 0x40000
    ensures Pow2(19) == 0x80000 && Pow2(20) == 0x100000 && Pow2(22) == 0x400000 && Pow2(23) == 0x800000
    ensures Pow2(25) == 0x2000000 && Pow2(26) == 0x4000000 && Pow2(27) == 0x8000000 && Pow2(28) == 0x10000000
    ensures Pow2(32) == 0x100000000
  {
    assert Pow2(6) == 0x40 && Pow2(8) == 4 * Pow2(6) && Pow2(10) == 4 * Pow2(8) && Pow2(12) == 4 * Pow2(10);
    assert Pow2(14) == 4 * Pow2(12) && Pow2(16) == 4 * Pow2(14) && Pow2(18) == 4 * Pow2(16);
    assert Pow2(20) == 4 * Pow2(18) && Pow2(22) == 4 * Pow2(20) && Pow2(24) == 4 * Pow2(22);
    assert Pow2(26) == 4 * Pow2(24) && Pow2(28) == 4 * Pow2(26) && Pow2(30) == 4 * Pow2(28);
  }

  lemma FromExponent(i: nat)
    requires i < |EXPONENTS|
    ensures Polynomial(EXPONENTS[i..]) == Pow2(EXPONENTS[i]) + Polynomial(EXPONENTS[i + 1..])
  {
    assert EXPONENTS[i..][1..] == EXPONENTS[i + 1..];
  }

  lemma GeneratorIs()
    ensures Generator() == 0x11edc6f41
  {
    PowersOfTwo();
    FromTen();
    FromFive();
    hide Pow2, Polynomial;
    FromExponent(4);
    FromExponent(3);
    FromExponent(2);
    FromExponent(1);
    FromExponent(0);
    assert EXPONENTS[0..] == EXPONENTS;
  }

  lemma FromFive()
    ensures Polynomial(EXPONENTS[5..]) == 0xdc6f41
  {
    PowersOfTwo();
    FromTen();
    hide Pow2, Polynomial;
    FromExponent(9);
    FromExponent(8);
    FromExponent(7);
    FromExponent(6);
    FromExponent(5);
  }

  lemma FromTen()
    ensures Polynomial(EXPONENTS[10..]) == 0x6f41
  {
    PowersOfTwo();
    assert Polynomial([]) == 0 && EXPONENTS[18..] == [];
    hide Pow2, Polynomial;
    FromExponent(17);
    FromExponent(16);
    FromExponent(15);
    FromExponent(14);
    FromExponent(13);
    FromExponent(12);
    FromExponent(11);
    FromExponent(10);
  }

  /** Four bits of a mirrored word, in place. */
  lemma MirrorNibble(w: nat, n: nat, p: nat)
    requires p == Pow2(n)
    ensures Mirror(w, n + 4) ==
            (if w % 2 == 1 then 8 * p else 0) + (if w / 2 % 2 == 1 then 4 * p else 0) +
            (if w / 4 % 2 == 1 then 2 * p else 0) + (if w / 8 % 2 == 1 then p else 0) + Mirror(w / 16, n)
  {
    assert w / 2 / 2 == w / 4 && w / 4 / 2 == w / 8 && w / 8 / 2 == w / 16;
    assert Pow2(n + 1) == 2 * p && Pow2(n + 2) == 4 * p && Pow2(n + 3) == 8 * p;
    hide Pow2;
    assert Mirror(w, n + 4) == Coefficient(w % 2, n + 3) + Mirror(w / 2, n + 3);
    assert Mirror(w / 2, n + 3) == Coefficient(w / 2 % 2, n + 2) + Mirror(w / 4, n + 2);
    assert Mirror(w / 4, n + 2) == Coefficient(w / 4 % 2, n + 1) + Mirror(w / 8, n + 1);
    assert Mirror(w / 8, n + 1) == Coefficient(w / 8 % 2, n) + Mirror(w / 16, n);
  }

  /** The constant in the code is the generator without its leading term, in reverse. */
  lemma PolyIsGenerator()
    ensures Xor(Pow2(32), Mirror(POLY, 32)) == Generator()
  {
    GeneratorIs();
    PowersOfTwo();
    MirrorOfPoly();
    hide Xor, Pow2, Mirror;
    SumWithTop(32, 1, Mirror(POLY, 32));
  }

  lemma MirrorOfPoly()
    ensures Mirror(POLY, 32) == 0x1edc6f41
  {
    hide Mirror, Pow2, Coefficient;
    PowersOfTwo();
    MorePowers();
    MirrorZero(0);
    MirrorNibble(8, 0, 1);
    MirrorNibble(0x82, 4, 0x10);
    MirrorNibble(0x82f, 8, 0x100);
    MirrorNibble(0x82f6, 12, 0x1000);
    MirrorNibble(0x82f63, 16, 0x10000);
    MirrorNibble(0x82f63b, 20, 0x100000);
    MirrorNibble(0x82f63b7, 24, 0x1000000);
    MirrorNibble(0x82f63b78, 28, 0x10000000);
  }

  lemma MorePowers()
    ensures Pow2(4) == 16 && Pow2(12) == 0x1000 && Pow2(16) == 0x10000 && Pow2(24) == 0x1000000
  {
    PowersOfTwo();
    assert Pow2(12) == 2 * Pow2(11) && Pow2(16) == 4 * Pow2(14) && Pow2(24) == 2 * Pow2(23);
  }

  // ----- the register is the remainder -----

  function FeedAll(c: nat, bits: seq<nat>): nat
    decreases |bits|
  {
    if bits == [] then c else FeedAll(FeedBit(c, bits[0]), bits[1..])
  }

  lemma {:induction false} FeedAllConcat(c: nat, a: seq<nat>, b: seq<nat>)
    ensures FeedAll(c, a + b) == FeedAll(FeedAll(c, a), b)
    decreases |a|
  {
    hide FeedBit;
    if a == [] {
      assert a + b == b;
    } else {
      assert (a + b)[1..] == a[1..] + b;
      FeedAllConcat(FeedBit(c, a[0]), a[1..], b);
    }
  }

  lemma {:induction false} FeedBitsByBit(c: nat, n: nat, b: nat)
    ensures FeedBits(c, n, b) == FeedAll(c, ByteBits(b, n))
    decreases n
  {
    hide FeedBit;
    if n != 0 {
      FeedBitsByBit(FeedBit(c, b % 2), n - 1, b / 2);
      assert ByteBits(b, n)[1..] == ByteBits(b / 2, n - 1);
    }
  }

  /** Feeding bytes is feeding their bits. */
  lemma {:induction false} FeedByBit(c: nat, data: seq<byte>)
    ensures Feed(c, data) == FeedAll(c, Bits(data))
    decreases |data|
  {
    hide FeedBits, ByteBits;
    if data != [] {
      FeedBitsByBit(c, 8, data[0]);
      FeedAllConcat(c, ByteBits(data[0], 8), Bits(data[1..]));
      FeedByBit(FeedBits(c, 8, data[0]), data[1..]);
    }
  }

  /** One step divides: the register doubled is the new register, with the generator taken away if it fits. */
  lemma ShiftDivides(c: nat)
    requires c <= ONES
    ensures Xor(Mirror(Shift(c), 32), if c % 2 == 1 then Generator() else 0) == 2 * Mirror(c, 32)
  {
    hide Xor, Generator;
    PowersOfTwo();
    assert c / 2 < Pow2(31);
    MirrorShort(c / 2, 31);
    var half := Mirror(c / 2, 32);
    assert 2 * Mirror(c, 32) == Coefficient(c % 2, 32) + half;
    MirrorAdds(c / 2, if c % 2 == 1 then POLY else 0, 32);
    MirrorBound(c / 2, 32);
    hide Pow2, Mirror;
    if c % 2 == 1 {
      var p := Mirror(POLY, 32);
      PolyIsGenerator();
      SumWithTop(32, 1, half);
      XorCommutes(half, p);
      XorSwap(p, half, p, Pow2(32));
      XorCommutes(p, Pow2(32));
      XorSelf(p);
      XorCommutes(half, Pow2(32));
      XorZero(Xor(Pow2(32), half));
    } else {
      MirrorZero(32);
      XorZero(half);
    }
  }

  /** The message with 32 zeros appended, and the register added to its first bits. */
  function Dividend(c: nat, bits: seq<nat>): nat {
    Xor(Raise(|bits|, Mirror(c, 32)), Raise(32, Message(bits)))
  }

  predicate AllBits(bits: seq<nat>) { forall i | 0 <= i < |bits| :: bits[i] < 2 }

  lemma {:induction false} MessageBound(bits: seq<nat>)
    requires AllBits(bits)
    ensures Message(bits) < Pow2(|bits|)
    decreases |bits|
  {
    if bits != [] { MessageBound(bits[1..]); }
  }

  lemma MirrorOfBit(m: nat, n: nat)
    requires m < 2 && n > 0
    ensures Mirror(m, n) == Coefficient(m, n - 1)
  {
    hide Coefficient;
    MirrorZero(n - 1);
  }

  lemma MessageStep(bits: seq<nat>)
    requires bits != []
    ensures Message(bits) == Coefficient(bits[0], |bits| - 1) + Message(bits[1..])
  {
  }

  lemma {:induction false} RaiseTerm(m: nat, a: nat, b: nat)
    ensures Raise(a, Coefficient(m, b)) == Coefficient(m, a + b)
  {
    if a != 0 {
      RaiseTerm(m, a - 1, b);
    }
  }

  /** One bit more: the dividend is the one of the next register, with the generator added if it was taken away. */
  lemma DividendStep(c: nat, bits: seq<nat>)
    requires c <= ONES && bits != [] && AllBits(bits)
    ensures var x, n := Xor(c, bits[0]), |bits| - 1;
            Dividend(c, bits) ==
            Xor(Dividend(Shift(x), bits[1..]), Raise(n, if x % 2 == 1 then Generator() else 0))
  {
    hide Xor, Generator, Mirror, Message, Pow2, Shift, Coefficient, Raise;
    var m, rest, n := bits[0], bits[1..], |bits| - 1;
    var x := Xor(c, m);
    var taken := if x % 2 == 1 then Generator() else 0;
    MessageStep(bits);
    XorIn32(c, m);
    ShiftDivides(x);
    MessageBound(rest);
    SumWithTop(n, m, Message(rest));
    RaiseAdds(32, Coefficient(m, n), Message(rest));
    RaiseTerm(m, 32, n);
    RaiseTerm(m, n, 32);
    TwiceMirror(c, m);
    RaiseAdds(n, 2 * Mirror(c, 32), Coefficient(m, 32));
    RaiseAdds(n, Mirror(Shift(x), 32), taken);
    RaiseTwice(n, Mirror(c, 32));
    Rearrange(Raise(n, 2 * Mirror(c, 32)), Coefficient(m, n + 32), Raise(32, Message(rest)),
              Raise(n, Mirror(Shift(x), 32)), Raise(n, taken));
  }

  lemma TwiceMirror(c: nat, m: nat)
    requires m < 2
    ensures 2 * Mirror(Xor(c, m), 32) == Xor(2 * Mirror(c, 32), Coefficient(m, 32))
  {
    hide Xor, Mirror, Pow2, Coefficient;
    MirrorAdds(c, m, 32);
    MirrorOfBit(m, 32);
    NextTerm(m, 31);
    XorOfJoined(0, Mirror(c, 32), 0, Coefficient(m, 31));
  }

  lemma NextTerm(m: nat, n: nat)
    ensures Coefficient(m, n + 1) == 2 * Coefficient(m, n)
  {
  }

  lemma Rearrange(a: nat, b: nat, msg: nat, d: nat, e: nat)
    requires Xor(a, b) == Xor(d, e)
    ensures Xor(a, Xor(b, msg)) == Xor(Xor(d, msg), e)
  {
    hide Xor;
    XorAssociates(a, b, msg);
    XorAssociates(d, e, msg);
    XorCommutes(e, msg);
    XorAssociates(d, msg, e);
  }

  /** Feeding bits divides, and the register is what is left over. */
  lemma {:induction false} FeedDivides(c: nat, bits: seq<nat>) returns (q: nat)
    requires c <= ONES && AllBits(bits)
    ensures Dividend(c, bits) == Xor(Times(q, Generator()), Mirror(FeedAll(c, bits), 32))
    decreases |bits|
  {
    hide Xor, Generator, Mirror, Shift, Times, Dividend;
    if bits == [] {
      q := 0;
      DivideNothing(c);
    } else {
      var x, n := Xor(c, bits[0]), |bits| - 1;
      XorIn32(c, bits[0]);
      ShiftIn32(x);
      DividendStep(c, bits);
      var q1 := FeedDivides(Shift(x), bits[1..]);
      var more := if x % 2 == 1 then Pow2(n) else 0;
      q := Xor(q1, more);
      TimesAdds(q1, more, Generator());
      TimesPower(n, Generator());
      TimesNothing(Generator());
      RaiseTwice(n, 0);
      hide Pow2, Raise;
      var m := Mirror(FeedAll(c, bits), 32);
      XorAssociates(Times(q1, Generator()), m, Times(more, Generator()));
      XorCommutes(m, Times(more, Generator()));
      XorAssociates(Times(q1, Generator()), Times(more, Generator()), m);
    }
  }

  lemma DivideNothing(c: nat)
    ensures Dividend(c, []) == Xor(Times(0, Generator()), Mirror(FeedAll(c, []), 32))
  {
    hide Xor, Mirror, Generator;
    XorZero(Mirror(c, 32));
    RaiseTwice(32, 0);
    assert Message([]) == 0;
  }

  /** For every register and message: the register after the message, read in reverse, is the remainder of the message
      followed by 32 zeros, with the register added to its first bits, by the generator. */
  lemma FeedIsRemainder(c: word32, data: seq<byte>)
    ensures IsRemainder(Mirror(Feed(c, data), 32), Dividend(c, Bits(data)))
  {
    hide Dividend, Times, Generator, FeedAll, Xor, Mirror;
    FeedByBit(c, data);
    var q := FeedDivides(c, Bits(data));
    MirrorBound(Feed(c, data), 32);
  }

  /** The checksum of a message is the complement of the remainder that an all-ones register leaves. */
  lemma ChecksumIsRemainder(data: seq<byte>)
    ensures IsRemainder(Mirror(Xor(Checksum(0, data), ONES), 32), Dividend(ONES, Bits(data)))
  {
    hide Dividend, Xor, Mirror, IsRemainder, Feed;
    XorZero(ONES);
    var r := Feed(ONES, data);
    XorAssociates(r, ONES, ONES);
    XorSelf(ONES);
    XorZero(r);
    FeedIsRemainder(ONES, data);
  }

  lemma {:induction false} MirrorIsZero(w: nat, n: nat)
    requires w < Pow2(n) && Mirror(w, n) == 0
    ensures w == 0
  {
    if n != 0 {
      MirrorIsZero(w / 2, n - 1);
    }
  }

  /** No other register is the remainder. */
  lemma OnlyRegister(c: word32, data: seq<byte>, w: word32)
    requires IsRemainder(Mirror(w, 32), Dividend(c, Bits(data)))
    ensures w == Feed(c, data)
  {
    hide Dividend, Xor, Mirror, IsRemainder, Feed;
    var r := Feed(c, data);
    FeedIsRemainder(c, data);
    RemainderUnique(Dividend(c, Bits(data)), Mirror(w, 32), Mirror(r, 32));
    FeedIn32(c, data);
    XorIn32(w, r);
    Pow2ThirtyTwo();
    MirrorAdds(w, r, 32);
    XorSelf(Mirror(r, 32));
    MirrorIsZero(Xor(w, r), 32);
    XorIsZero(w, r);
  }
}
