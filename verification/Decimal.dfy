/** Integers as text: what printf writes for %d, %ld and %llu, and what strtoll and strtoull
    read back.  A byte of text is a `char`. */
module Decimal {
  import opened Wrappers

  const INT_MIN: int := -0x8000_0000
  const INT_MAX: int := 0x7fff_ffff
  const LONG_MIN: int := -0x8000_0000_0000_0000
  const LONG_MAX: int := 0x7fff_ffff_ffff_ffff
  const ULONG_MAX: int := 0xffff_ffff_ffff_ffff

  // ----- printing -----

  function DigitChar(d: nat): char
    requires d < 10
  {
    '0' + d as char
  }

  function Digits(n: nat): string {
    if n < 10 then [DigitChar(n)] else Digits(n / 10) + [DigitChar(n % 10)]
  }

  function Dec(i: int): string {
    if i < 0 then "-" + Digits(-i) else Digits(i)
  }

  predicate IsDigit(c: char) {
    '0' <= c <= '9'
  }

  ghost predicate AllDigits(s: string) {
    forall i | 0 <= i < |s| :: IsDigit(s[i])
  }

  lemma {:induction false} DigitsShape(n: nat)
    ensures Digits(n) != [] && AllDigits(Digits(n))
    ensures Digits(n)[0] == '0' <==> n == 0
    ensures n == 0 ==> Digits(n) == "0"
  {
    if n >= 10 {
      DigitsShape(n / 10);
    }
  }

  /** A number below ten to the `k` prints in at most `k` digits. */
  lemma {:induction false} DigitsLength(n: nat, k: nat)
    requires k > 0 && n < Pow10(k)
    ensures |Digits(n)| <= k
    decreases k
  {
    if n >= 10 {
      DigitsLength(n / 10, k - 1);
    }
  }

  function Pow10(k: nat): nat {
    if k == 0 then 1 else 10 * Pow10(k - 1)
  }

  // ----- scanning -----

  function DigitValue(c: char): nat {
    if '0' <= c <= '9' then c as int - '0' as int
    else if 'a' <= c <= 'z' then c as int - 'a' as int + 10
    else if 'A' <= c <= 'Z' then c as int - 'A' as int + 10
    else 36
  }

  /** How many leading characters are digits of the base. */
  function Run(s: string, base: nat): (n: nat)
    ensures n <= |s|
    ensures forall i | 0 <= i < n :: DigitValue(s[i]) < base
    ensures n < |s| ==> DigitValue(s[n]) >= base
  {
    if s == [] || DigitValue(s[0]) >= base then 0 else 1 + Run(s[1..], base)
  }

  function Value(s: string, base: nat): nat {
    if s == [] then 0 else Value(s[..|s| - 1], base) * base + DigitValue(s[|s| - 1])
  }

  function Blanks(s: string): (n: nat)
    ensures n <= |s|
  {
    if s == [] || !(s[0] == ' ' || '\t' <= s[0] <= '\r') then 0 else 1 + Blanks(s[1..])
  }

  /** A number found at the head of a string: its value and where it ends. */
  datatype Scan = NotANumber | Number(value: int, end: nat)

  /** An unsigned number.  Base zero takes 0x for hexadecimal and a leading 0 for octal. */
  function ScanMagnitude(s: string, base: nat): (r: Scan)
    ensures r.Number? ==> 0 < r.end <= |s| && r.value >= 0
  {
    var hex := (base == 0 || base == 16) && |s| > 2 && s[0] == '0' && (s[1] == 'x' || s[1] == 'X')
      && DigitValue(s[2]) < 16;
    var k := if hex then 2 else 0;
    var b := if hex then 16 else if base != 0 then base else if s != [] && s[0] == '0' then 8 else 10;
    var n := Run(s[k..], b);
    if n == 0 then NotANumber else Number(Value(s[k..k + n], b), k + n)
  }

  /** The conversion behind strtoll and strtoull, before any range check. */
  function ScanNumber(s: string, base: nat): (r: Scan)
    ensures r.Number? ==> 0 < r.end <= |s|
  {
    var i := Blanks(s);
    var j := if i < |s| && (s[i] == '-' || s[i] == '+') then i + 1 else i;
    match ScanMagnitude(s[j..], base)
    case NotANumber => NotANumber
    case Number(v, end) => Number(if j > i && s[i] == '-' then -v else v, j + end)
  }

  /** strtoll with its range check, as parseLongLong, parseLong and parseInt use it. */
  function ParseRange(s: string, low: int, high: int): (r: Option<int>)
    ensures r.Some? ==> low <= r.value <= high
  {
    match ScanNumber(s, 0)
    case NotANumber => None
    case Number(v, _) => if low <= v <= high then Some(v) else None
  }

  /** strtoull: a minus sign negates modulo 2^64. */
  function ParseUnsigned(s: string): (r: Option<int>)
    ensures r.Some? ==> 0 <= r.value <= ULONG_MAX
  {
    match ScanNumber(s, 0)
    case NotANumber => None
    case Number(v, _) =>
      if 0 <= v <= ULONG_MAX then Some(v)
      else if -ULONG_MAX <= v < 0 then Some(v + ULONG_MAX + 1)
      else None
  }

  // ----- reading back what was printed -----

  lemma {:induction false} RunOfDigits(a: string, t: string, base: nat)
    requires forall i | 0 <= i < |a| :: DigitValue(a[i]) < base
    requires t == [] || DigitValue(t[0]) >= base
    ensures Run(a + t, base) == |a|
    decreases |a|
  {
    if a == [] {
      assert a + t == t;
    } else {
      assert (a + t)[1..] == a[1..] + t;
      RunOfDigits(a[1..], t, base);
    }
  }

  lemma {:induction false} ValueOfDigits(n: nat)
    ensures Value(Digits(n), 10) == n
  {
    if n < 10 {
      assert Value([], 10) == 0;
      assert Digits(n)[..0] == [];
    } else {
      var d := Digits(n);
      ValueOfDigits(n / 10);
      assert d[..|d| - 1] == Digits(n / 10);
    }
  }

  lemma ScanPrintedMagnitude(n: nat, t: string, base: nat)
    requires base == 0 || base == 10
    requires t == [] || t[0] == '\r' || t[0] == '\n'
    ensures ScanMagnitude(Digits(n) + t, base) == Number(n, |Digits(n)|)
  {
    hide ScanMagnitude;
    if n == 0 { ScanPrintedZero(t, base); } else { ScanPrintedPositive(n, t, base); }
  }

  lemma ScanPrintedZero(t: string, base: nat)
    requires base == 0 || base == 10
    requires t == [] || t[0] == '\r' || t[0] == '\n'
    ensures ScanMagnitude(Digits(0) + t, base) == Number(0, |Digits(0)|)
  {
    var d := Digits(0);
    DigitsShape(0);
    hide Digits, Run, Value;
    var whole := d + t;
    assert whole[0..] == whole && whole[0..|d|] == d == "0";
    assert t != [] ==> whole[1] == t[0];
    RunOfDigits(d, t, if base == 0 then 8 else 10);
    ValueOfZero(if base == 0 then 8 else 10);
  }

  lemma ScanPrintedPositive(n: nat, t: string, base: nat)
    requires n > 0 && (base == 0 || base == 10)
    requires t == [] || t[0] == '\r' || t[0] == '\n'
    ensures ScanMagnitude(Digits(n) + t, base) == Number(n, |Digits(n)|)
  {
    hide Digits, Run, Value;
    var d := Digits(n);
    DigitsShape(n);
    var whole := d + t;
    assert whole[0] == d[0] != '0';
    assert whole[0..] == whole && whole[0..|d|] == d;
    RunOfDigits(d, t, 10);
    ValueOfDigits(n);
  }

  lemma ValueOfZero(base: nat)
    ensures Value("0", base) == 0
  {
    assert "0"[..0] == [];
    assert Value("0", base) == Value([], base) * base + 0;
  }

  /** Reading what was printed gives the number back and stops right after it. */
  lemma ScanPrinted(i: int, t: string, base: nat)
    requires base == 0 || base == 10
    requires t == [] || t[0] == '\r' || t[0] == '\n'
    ensures ScanNumber(Dec(i) + t, base) == Number(i, |Dec(i)|)
  {
    hide ScanMagnitude, Digits;
    var n := if i < 0 then -i else i;
    DigitsShape(n);
    ScanPrintedMagnitude(n, t, base);
    var s := Dec(i) + t;
    assert s[0] == if i < 0 then '-' else Digits(n)[0];
    assert Blanks(s) == 0;
    assert s[if i < 0 then 1 else 0..] == Digits(n) + t;
  }

  // ----- other bases, with base zero -----

  /** 0x and a hexadecimal digit start a hexadecimal number, which goes as far as such digits do. */
  lemma ScanHexadecimal(s: string, n: nat)
    requires |s| > 2 && s[0] == '0' && s[1] in {'x', 'X'} && n > 0
    requires 2 + n <= |s| && (forall i | 2 <= i < 2 + n :: DigitValue(s[i]) < 16)
    requires 2 + n < |s| ==> DigitValue(s[2 + n]) >= 16
    ensures ScanMagnitude(s, 0) == Number(Value(s[2..2 + n], 16), 2 + n)
  {
    hide Run, Value, DigitValue;
    assert DigitValue(s[2]) < 16;
    RunOfDigits(s[2..2 + n], s[2 + n..], 16);
    assert s[2..] == s[2..2 + n] + s[2 + n..];
  }

  /** Any other leading zero starts an octal number. */
  lemma ScanOctal(s: string, n: nat)
    requires 0 < n <= |s| && s[0] == '0' && (|s| > 1 ==> s[1] !in {'x', 'X'})
    requires (forall i | 0 <= i < n :: DigitValue(s[i]) < 8) && (n < |s| ==> DigitValue(s[n]) >= 8)
    ensures ScanMagnitude(s, 0) == Number(Value(s[..n], 8), n)
  {
    hide Run, Value, DigitValue;
    RunOfDigits(s[..n], s[n..], 8);
    assert s[..n] + s[n..] == s && s[0..] == s && s[0..n] == s[..n];
  }
}
