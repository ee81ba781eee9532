/** The strict integer parser of the protocol reader: it accepts exactly what printing a 64-bit
    integer produces. */
module StrictInteger {
  import opened Wrappers
  import opened Decimal

  /** The 64-bit integer a text is the printed form of, if there is one. */
  ghost function Printed(s: string): (r: Option<int>)
    ensures r.Some? ==> LONG_MIN <= r.value <= LONG_MAX && s == Dec(r.value)
    ensures r.None? ==> forall v | LONG_MIN <= v <= LONG_MAX :: s != Dec(v)
  {
    if v :| LONG_MIN <= v <= LONG_MAX && s == Dec(v) then Some(v) else None
  }

  lemma DigitsInjective(a: nat, b: nat)
    requires Digits(a) == Digits(b)
    ensures a == b
  {
    ValueOfDigits(a);
    ValueOfDigits(b);
  }

  lemma DecInjective(a: int, b: int)
    requires Dec(a) == Dec(b)
    ensures a == b
  {
    var m, n := if a < 0 then -a else a, if b < 0 then -b else b;
    DigitsShape(m);
    DigitsShape(n);
    hide Digits;
    assert (Dec(a)[0] == '-' <==> a < 0) && (Dec(b)[0] == '-' <==> b < 0);
    if a < 0 { assert Dec(a)[1..] == Digits(m) && Dec(b)[1..] == Digits(n); }
    DigitsInjective(m, n);
  }

  lemma PrintedOf(v: int)
    requires LONG_MIN <= v <= LONG_MAX
    ensures Printed(Dec(v)) == Some(v)
  {
    DecInjective(Printed(Dec(v)).value, v);
  }

  lemma DigitsGrow(v: nat, c: char)
    requires v > 0 && IsDigit(c)
    ensures Digits(v) + [c] == Digits(v * 10 + DigitValue(c))
  {
    var w := v * 10 + DigitValue(c);
    assert w / 10 == v && w % 10 == DigitValue(c);
  }

  /** A number is at least ten times any proper prefix of its digits. */
  lemma {:induction false} PrefixIsSmaller(w: nat, v: nat)
    requires |Digits(v)| < |Digits(w)| && Digits(w)[..|Digits(v)|] == Digits(v)
    ensures w >= 10 * v
  {
    var n := |Digits(w)| - 1;
    if w < 10 {
      DigitsShape(v);
    } else if |Digits(v)| == n {
      assert Digits(w)[..n] == Digits(w / 10);
      DigitsInjective(v, w / 10);
    } else {
      assert Digits(w / 10)[..|Digits(v)|] == Digits(w)[..|Digits(v)|];
      PrefixIsSmaller(w / 10, v);
    }
  }

  /** A text whose digits begin with those of a number too large is not a printed 64-bit integer. */
  lemma TooLarge(s: string, start: nat, i: nat, v: nat)
    requires start <= i <= |s| && s[start..i] == Digits(v) && v > 0
    requires start == (if s != [] && s[0] == '-' then 1 else 0)
    requires (if i < |s| then 10 * v else v) > (if start == 1 then -LONG_MIN else LONG_MAX)
    ensures Printed(s) == None
  {
    if Printed(s).Some? {
      var w := Printed(s).value;
      var m := if w < 0 then -w else w;
      DigitsShape(m);
      hide Digits;
      assert s[start..] == Digits(m);
      assert Digits(m)[..i - start] == Digits(v);
      if i < |s| {
        PrefixIsSmaller(m, v);
      } else {
        assert s[start..i] == s[start..];
        DigitsInjective(m, v);
      }
    }
  }

  lemma DecChars(w: int, i: nat)
    requires i < |Dec(w)|
    ensures IsDigit(Dec(w)[i]) || (i == 0 && Dec(w)[0] == '-')
  {
    DigitsShape(if w < 0 then -w else w);
  }

  /** A character out of place. */
  lemma NotPrinted(s: string, i: nat)
    requires i < |s|
    requires !IsDigit(s[i]) && !(i == 0 && s[0] == '-')
    ensures Printed(s) == None
  {
    if Printed(s).Some? { DecChars(Printed(s).value, i); }
  }

  lemma SignedShape(s: string)
    requires Printed(s).Some?
    ensures s != [] && s != "-"
    ensures s[0] == '0' ==> s == "0"
    ensures s[0] == '-' ==> |s| > 1 && s[1] != '0'
  {
    var w := Printed(s).value;
    var m := if w < 0 then -w else w;
    DigitsShape(m);
    if w < 0 { assert s[1..] == Digits(m) && s[1] == Digits(m)[0]; }
  }

  /** string2ll: reads a strictly formed integer, watching for overflow of an unsigned accumulator. */
  method StringToLongLong(s: string) returns (r: Option<int>)
    ensures r == Printed(s)
  {
    hide Printed, Digits;
    if Printed(s).Some? { SignedShape(s); }
    if |s| == 0 { return None; }
    if |s| == 1 && s[0] == '0' {
      PrintedOf(0);
      assert Dec(0) == "0" by { DigitsShape(0); }
      return Some(0);
    }
    var negative := s[0] == '-';
    var start := if negative then 1 else 0;
    if start == |s| { assert s == "-"; return None; }
    if !('1' <= s[start] <= '9') {
      if IsDigit(s[start]) { assert s[start] == '0'; } else { NotPrinted(s, start); }
      return None;
    }
    var v := DigitValue(s[start]);
    var i := start + 1;
    assert s[start..i] == Digits(v) by { assert s[start..i] == [s[start]]; FirstDigit(s[start]); }
    while i < |s| && IsDigit(s[i])
      invariant start < i <= |s| && 0 < v <= ULONG_MAX && s[start..i] == Digits(v)
    {
      if v > ULONG_MAX / 10 { TooLarge(s, start, i, v); return None; }
      ghost var w := v * 10 + DigitValue(s[i]);
      DigitsGrow(v, s[i]);
      assert s[start..i + 1] == s[start..i] + [s[i]];
      v := v * 10;
      if v > ULONG_MAX - DigitValue(s[i]) { TooLarge(s, start, i + 1, w); return None; }
      v := v + DigitValue(s[i]);
      i := i + 1;
    }
    if i < |s| { NotPrinted(s, i); return None; }
    assert s[start..] == Digits(v) by { assert s[start..] == s[start..i]; }
    if negative {
      if v > -LONG_MIN { TooLarge(s, start, i, v); return None; }
      assert s == "-" + Digits(v) && s == Dec(-v);
      PrintedOf(-v);
      return Some(-v);
    }
    if v > LONG_MAX { TooLarge(s, start, i, v); return None; }
    assert s == Dec(v);
    PrintedOf(v);
    return Some(v);
  }

  lemma FirstDigit(c: char)
    requires '1' <= c <= '9'
    ensures Digits(DigitValue(c)) == [c] && DigitValue(c) > 0
  {
  }
}
