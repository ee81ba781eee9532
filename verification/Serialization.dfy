/** The payloads of log entries: integers and strings with a type prefix, written into buffers whose size is
    computed beforehand. */
module Serialization {
  import opened Wrappers
  import opened Decimal

  const WORD: int := ULONG_MAX + 1

  // ----- text -----

  function IntText(prefix: char, v: nat): string { [prefix] + Digits(v) + "\n" }

  function StrText(s: string): string { IntText('$', |s|) + s + "\n" }

  function StrsText(ss: seq<string>): string {
    if ss == [] then "" else StrText(ss[0]) + StrsText(ss[1..])
  }

  // ----- sizes -----

  function IntSize(v: nat): nat {
    if v < 10 then 3
    else if v < 100 then 4
    else if v < 1000 then 5
    else if v < 10000 then 6
    else if v < 100000 then 7
    else if v < 1000000 then 8
    else if v < 10000000 then 9
    else 22
  }

  function StrSize(s: string): nat { IntSize(|s|) + |s| + 1 }

  function StrsSize(ss: seq<string>): nat {
    if ss == [] then 0 else StrSize(ss[0]) + StrsSize(ss[1..])
  }

  lemma DigitsAtLeast(v: nat, k: nat)
    requires v >= Pow10(k)
    ensures |Digits(v)| > k
    decreases k
  {
    if k > 0 { DigitsAtLeast(v / 10, k - 1); }
  }

  /** The size of an integer is always enough, and exact below ten million. */
  lemma IntFits(prefix: char, v: nat)
    requires v <= ULONG_MAX
    ensures |IntText(prefix, v)| <= IntSize(v) && 3 <= |IntText(prefix, v)|
    ensures v < 10000000 ==> |IntText(prefix, v)| == IntSize(v)
    ensures v >= 10000000 && |IntText(prefix, v)| == IntSize(v) ==> v >= 10000000000000000000
  {
    DigitsShape(v);
    assert Pow10(5) == 100000 && Pow10(6) == 1000000 && Pow10(7) == 10000000;
    assert Pow10(10) == 10000000000 && Pow10(15) == 1000000000000000 && Pow10(19) == 10000000000000000000;
    assert Pow10(20) == 100000000000000000000;
    DigitsLength(v, 20);
    if v < 10000000000000000000 { DigitsLength(v, 19); }
    SmallFits(v);
  }

  lemma SmallFits(v: nat)
    ensures v < 10000000 ==> |Digits(v)| == IntSize(v) - 2
  {
    if v < 10000000 && v >= 10 { SmallFits(v / 10); }
  }

  lemma StrFits(s: string)
    requires |s| <= ULONG_MAX
    ensures |StrText(s)| <= StrSize(s)
  {
    IntFits('$', |s|);
  }

  // ----- decoding -----

  /** One more digit, in a 64-bit accumulator. */
  function Accumulate(tmp: nat, c: char): nat { (tmp * 10 + DigitValue(c)) % WORD }

  function ScanDigits(s: string, i: nat, tmp: nat): (r: Option<(nat, nat)>)
    requires i < |s|
    ensures r.Some? ==> i < r.value.1 <= |s|
    decreases |s| - i
  {
    if s[i] == '\n' then Some((tmp, i + 1))
    else if !IsDigit(s[i]) || i + 1 == |s| then None
    else ScanDigits(s, i + 1, Accumulate(tmp, s[i]))
  }

  /** The value of an integer at the head of a buffer, and how many bytes it takes. */
  function DecodeInt(s: string, prefix: char): (r: Option<(nat, nat)>)
    ensures r.Some? ==> 0 < r.value.1 <= |s|
  {
    if |s| < 3 || s[0] != prefix then None else ScanDigits(s, 1, 0)
  }

  function DecodeStr(s: string): (r: Option<(string, nat)>)
    ensures r.Some? ==> 0 < r.value.1 <= |s|
  {
    match DecodeInt(s, '$')
    case None => None
    case Some((len, n)) => if n + len >= |s| then None else Some((s[n..n + len], n + len + 1))
  }

  function DecodeStrs(s: string, count: nat): (r: Option<(seq<string>, nat)>)
    ensures r.Some? ==> r.value.1 <= |s| && |r.value.0| == count
    decreases count
  {
    if count == 0 then Some(([], 0))
    else
      match DecodeStr(s)
      case None => None
      case Some((x, n)) =>
        match DecodeStrs(s[n..], count - 1)
        case None => None
        case Some((xs, m)) => Some(([x] + xs, n + m))
  }

  // ----- what was written reads back -----

  lemma AccumulateSmall(tmp: nat, c: char)
    requires tmp * 10 + DigitValue(c) < WORD
    ensures Accumulate(tmp, c) == tmp * 10 + DigitValue(c)
  {
  }

  lemma {:induction false} PrefixValue(d: string, i: nat)
    requires i <= |d| && AllDigits(d)
    ensures Value(d[..i], 10) <= Value(d, 10)
    decreases |d| - i
  {
    if i == |d| {
      assert d[..i] == d;
    } else {
      assert d[..i + 1][..i] == d[..i];
      PrefixValue(d, i + 1);
    }
  }

  lemma {:induction false} ScanWritten(d: string, i: nat, s: string, tmp: nat, c: char, t: string)
    requires i <= |d| && AllDigits(d) && s == [c] + d + "\n" + t && Value(d, 10) < WORD && tmp == Value(d[..i], 10)
    ensures ScanDigits(s, i + 1, tmp) == Some((Value(d, 10), |d| + 2))
    decreases |d| - i
  {
    hide Accumulate;
    if i == |d| {
      assert d[..i] == d && s[i + 1] == '\n';
    } else {
      assert s[i + 1] == d[i];
      assert d[..i + 1][..i] == d[..i] && d[..i + 1][i] == d[i];
      PrefixValue(d, i + 1);
      AccumulateSmall(tmp, d[i]);
      ScanWritten(d, i + 1, s, tmp * 10 + DigitValue(d[i]), c, t);
    }
  }

  /** An integer reads back, whatever follows it. */
  lemma IntReadsBack(prefix: char, v: nat, t: string)
    requires v <= ULONG_MAX
    ensures DecodeInt(IntText(prefix, v) + t, prefix) == Some((v, |IntText(prefix, v)|))
  {
    var d := Digits(v);
    DigitsShape(v);
    ValueOfDigits(v);
    hide Digits, Value;
    assert Value(d[..0], 10) == 0 by { NoValue(d); }
    ScanWritten(d, 0, IntText(prefix, v) + t, 0, prefix, t);
  }

  lemma NoValue(d: string)
    ensures Value(d[..0], 10) == 0
  {
  }

  lemma StrReadsBack(x: string, t: string)
    requires |x| <= ULONG_MAX
    ensures DecodeStr(StrText(x) + t) == Some((x, |StrText(x)|))
  {
    hide IntText, DecodeInt;
    var head := IntText('$', |x|);
    var s := StrText(x) + t;
    assert s == head + (x + "\n" + t);
    IntReadsBack('$', |x|, x + "\n" + t);
    assert s[|head|..|head| + |x|] == x;
  }

  ghost predicate AllShort(ss: seq<string>) { forall i | 0 <= i < |ss| :: |ss[i]| <= ULONG_MAX }

  lemma StrsCons(s: string, x: string, n: nat, xs: seq<string>, m: nat)
    requires n <= |s| && DecodeStr(s) == Some((x, n)) && DecodeStrs(s[n..], |xs|) == Some((xs, m))
    ensures DecodeStrs(s, |xs| + 1) == Some(([x] + xs, n + m))
  {
    hide DecodeStr;
  }

  lemma {:induction false} StrsReadBack(ss: seq<string>, t: string)
    requires AllShort(ss)
    ensures DecodeStrs(StrsText(ss) + t, |ss|) == Some((ss, |StrsText(ss)|))
    decreases |ss|
  {
    hide StrText, DecodeStr, DecodeStrs;
    if ss == [] {
      NoStrs(StrsText(ss) + t);
    } else {
      var x, rest := StrText(ss[0]), StrsText(ss[1..]) + t;
      assert StrsText(ss) + t == x + rest;
      StrReadsBack(ss[0], rest);
      StrsReadBack(ss[1..], t);
      assert (x + rest)[|x|..] == rest;
      StrsCons(x + rest, ss[0], |x|, ss[1..], |StrsText(ss[1..])|);
      assert ss == [ss[0]] + ss[1..];
    }
  }

  lemma NoStrs(s: string)
    ensures DecodeStrs(s, 0) == Some(([], 0))
  {
  }

  // ----- writing and reading with cursors -----

  /** A buffer being filled: `p` bytes written, `sz` bytes left. */
  class Encoder {
    const buf: array<char>
    var p: nat
    var sz: nat

    ghost predicate Valid()
      reads this
    {
      p + sz == buf.Length
    }

    ghost function Text(): string
      requires Valid()
      reads this, buf
    {
      buf[..p]
    }

    constructor (size: nat)
      ensures Valid() && p == 0 && sz == size && Text() == "" && fresh(buf)
    {
      buf := new char[size];
      p, sz := 0, size;
    }

    method Put(text: string)
      requires Valid() && |text| <= sz
      modifies this, buf
      ensures Valid() && Text() == old(Text()) + text && sz == old(sz) - |text|
    {
      var i := 0;
      while i < |text|
        invariant 0 <= i <= |text| && p == old(p) && sz == old(sz) && p + sz == buf.Length
        invariant buf[..p + i] == old(buf[..p]) + text[..i]
      {
        buf[p + i] := text[i];
        assert text[..i + 1] == text[..i] + [text[i]];
        assert buf[..p + i + 1] == buf[..p + i] + [text[i]];
        i := i + 1;
      }
      assert text[..i] == text;
      p, sz := p + |text|, sz - |text|;
    }

    /** encodeInteger: formats with a terminator, so it needs one byte more than the text. */
    method Integer(prefix: char, v: nat) returns (ok: bool)
      requires Valid()
      modifies this, buf
      ensures Valid() && (ok <==> |IntText(prefix, v)| < old(sz))
      ensures ok ==> Text() == old(Text()) + IntText(prefix, v) && sz == old(sz) - |IntText(prefix, v)|
      ensures !ok ==> Text() == old(Text()) && sz == old(sz)
    {
      var text := IntText(prefix, v);
      if |text| >= sz { return false; }
      Put(text);
      buf[p] := '\0';
      return true;
    }

    /** encodeString. */
    method Str(s: string) returns (ok: bool)
      requires Valid()
      modifies this, buf
      ensures Valid() && (ok <==> |StrText(s)| <= old(sz))
      ensures ok ==> Text() == old(Text()) + StrText(s) && sz == old(sz) - |StrText(s)|
    {
      hide IntText;
      ok := Integer('$', |s|);
      if !ok { return; }
      if |s| >= sz { return false; }
      Put(s);
      Put("\n");
      assert old(Text()) + IntText('$', |s|) + s + "\n" == old(Text()) + StrText(s);
    }
  }

  /** decodeInteger, on the unread part of a buffer. */
  method ReadInt(s: string, prefix: char) returns (r: Option<(nat, nat)>)
    ensures r == DecodeInt(s, prefix)
  {
    hide Accumulate;
    if |s| < 3 || s[0] != prefix { return None; }
    var tmp: nat, i: nat := 0, 1;
    while s[i] != '\n'
      invariant 1 <= i < |s| && ScanDigits(s, i, tmp) == DecodeInt(s, prefix)
      decreases |s| - i
    {
      if !('0' <= s[i] <= '9') { return None; }
      tmp := Accumulate(tmp, s[i]);
      i := i + 1;
      if i == |s| { return None; }
    }
    return Some((tmp, i + 1));
  }

  method ReadStr(s: string) returns (r: Option<(string, nat)>)
    ensures r == DecodeStr(s)
  {
    hide DecodeInt;
    var h := ReadInt(s, '$');
    if h == None { return None; }
    var (len, n) := h.value;
    if len >= |s| - n { return None; }
    return Some((s[n..n + len], n + len + 1));
  }

  /** Several strings in a row. */
  method ReadStrs(s: string, count: nat) returns (r: Option<(seq<string>, nat)>)
    ensures r == DecodeStrs(s, count)
  {
    hide DecodeStr, DecodeStrs;
    var xs: seq<string> := [];
    var at: nat := 0;
    StrsSoFarStart(s, count);
    while |xs| < count
      invariant |xs| <= count && at <= |s| && StrsSoFar(s, count, xs, at)
      decreases count - |xs|
    {
      StrsSoFarNext(s, count, xs, at);
      var x := ReadStr(s[at..]);
      if x == None { return None; }
      xs, at := xs + [x.value.0], at + x.value.1;
    }
    StrsSoFarEnd(s, count, xs, at);
    return Some((xs, at));
  }

  /** The first strings have been read up to `at`. */
  ghost predicate StrsSoFar(s: string, count: nat, xs: seq<string>, at: nat)
    requires |xs| <= count && at <= |s|
  {
    DecodeStrs(s, count) == match DecodeStrs(s[at..], count - |xs|)
                            case None => None
                            case Some((rest, m)) => Some((xs + rest, at + m))
  }

  lemma StrsSoFarStart(s: string, count: nat)
    ensures StrsSoFar(s, count, [], 0)
  {
    hide DecodeStrs;
    assert s[0..] == s;
    var r := DecodeStrs(s, count);
    if r.Some? { assert [] + r.value.0 == r.value.0; }
  }

  lemma StrsSoFarNext(s: string, count: nat, xs: seq<string>, at: nat)
    requires |xs| < count && at <= |s| && StrsSoFar(s, count, xs, at)
    ensures var x := DecodeStr(s[at..]);
            if x.None? then DecodeStrs(s, count) == None
            else at + x.value.1 <= |s| && StrsSoFar(s, count, xs + [x.value.0], at + x.value.1)
  {
    hide DecodeStr;
    var x := DecodeStr(s[at..]);
    if x.Some? {
      assert s[at..][x.value.1..] == s[at + x.value.1..];
      var rest := DecodeStrs(s[at + x.value.1..], count - |xs| - 1);
      if rest.Some? { assert xs + ([x.value.0] + rest.value.0) == xs + [x.value.0] + rest.value.0; }
    }
  }

  lemma StrsSoFarEnd(s: string, count: nat, xs: seq<string>, at: nat)
    requires |xs| == count && at <= |s| && StrsSoFar(s, count, xs, at)
    ensures DecodeStrs(s, count) == Some((xs, at))
  {
    assert xs + [] == xs;
  }
}
