/** The bulk-string framing used by the log and metadata files: what is written, what a read
    at an offset yields, that a whole field reads back and that a torn one never does. */
module MultiBulk {
  import opened Wrappers
  import opened Decimal
  import opened FileIO

  const CRLF := "\r\n"
  const LINE_CAP: nat := 62     // a 64-byte line buffer less the terminator
  const FIELD_SIZE: nat := 64   // the buffer for short fields

  // ----- writing -----

  function LengthLine(kind: char, n: int): string {
    [kind] + Dec(n) + CRLF
  }

  function Bulk(s: string): string {
    LengthLine('$', |s|) + s + CRLF
  }

  function Bulks(fields: seq<string>): string {
    if fields == [] then [] else Bulk(fields[0]) + Bulks(fields[1..])
  }

  // ----- reading: the value and the offset after it -----

  function ParseLength(d: string, off: nat, kind: char): (r: Option<(int, nat)>)
    ensures r.Some? ==> off < r.value.1 <= |d|
  {
    match Line(From(d, off), LINE_CAP)
    case None => None
    case Some(line) =>
      var rest := line[1..];
      if line[0] != kind then None
      else match ScanNumber(rest, 0)
      case NotANumber => None
      case Number(v, end) =>
        if INT_MIN <= v <= INT_MAX && CRLF <= rest[end..] then Some((v, off + |line|)) else None
  }

  /** One bulk string of at most `limit` bytes; without a limit, of any length. */
  function ParseBulk(d: string, off: nat, limit: Option<nat>): (r: Option<(string, nat)>)
    ensures r.Some? ==> off < r.value.1 <= |d|
  {
    var head := ParseLength(d, off, '$');
    if head.None? then None else ParseBody(d, head.value.1, head.value.0, limit)
  }

  /** The `len` bytes of a bulk string and the line end after them. */
  function ParseBody(d: string, at: nat, len: int, limit: Option<nat>): (r: Option<(string, nat)>)
    ensures r.Some? ==> at < r.value.1 <= |d|
  {
    if 0 <= len && (limit.Some? ==> len <= limit.value) && at + len + 2 <= |d| && d[at + len..at + len + 2] == CRLF
    then Some((d[at..at + len], at + len + 2))
    else None
  }

  function ParseBulks(d: string, off: nat, limits: seq<Option<nat>>): (r: Option<(seq<string>, nat)>)
    ensures r.Some? ==> off + |limits| <= r.value.1 && |r.value.0| == |limits| && (limits != [] ==> r.value.1 <= |d|)
    decreases |limits|
  {
    if limits == [] then Some(([], off))
    else
      match ParseBulk(d, off, limits[0])
      case None => None
      case Some((s, next)) =>
        match ParseBulks(d, next, limits[1..])
        case None => None
        case Some((ss, end)) => Some(([s] + ss, end))
  }

  /** A short field as the C string left in its buffer: the last byte of the buffer is always
      the terminator, and the first terminator ends the string. */
  function CString(s: string): string {
    UpToNul(if |s| < FIELD_SIZE then s else s[..FIELD_SIZE - 1])
  }

  function UpToNul(s: string): string {
    if s == [] || s[0] == '\0' then [] else [s[0]] + UpToNul(s[1..])
  }

  // ----- what was written reads back -----

  /** `d` has all of `piece` at `off`. */
  ghost predicate At(d: string, off: nat, piece: string) {
    off + |piece| <= |d| && d[off..off + |piece|] == piece
  }

  /** `d` stops inside `piece`, which starts at `off`. */
  ghost predicate TornAt(d: string, off: nat, piece: string) {
    off <= |d| < off + |piece| && d[off..] == piece[..|d| - off]
  }

  lemma LineOfLength(kind: char, n: int)
    requires INT_MIN <= n <= INT_MAX && kind != '\n'
    ensures |LengthLine(kind, n)| <= 14 && |LengthLine(kind, n)| == |Dec(n)| + 3
    ensures Newline(LengthLine(kind, n)) == |LengthLine(kind, n)| - 1
  {
    var m := if n < 0 then -n else n;
    DigitsShape(m);
    assert Pow10(5) == 100000;
    assert Pow10(10) == 10_000_000_000;
    DigitsLength(m, 10);
    var a := [kind] + Dec(n) + "\r";
    assert LengthLine(kind, n) == a + "\n";
    NewlineAfter(a, "\n");
  }

  lemma LengthAt(d: string, off: nat, kind: char, n: int)
    requires INT_MIN <= n <= INT_MAX && kind != '\n' && At(d, off, LengthLine(kind, n))
    ensures ParseLength(d, off, kind) == Some((n, off + |LengthLine(kind, n)|))
  {
    hide Newline, Line, ScanNumber, Dec;
    var line := LengthLine(kind, n);
    LineOfLength(kind, n);
    LineAt(From(d, off), line, LINE_CAP);
    assert line[1..] == Dec(n) + CRLF;
    ScanPrinted(n, CRLF, 0);
    assert line[1..][|Dec(n)|..] == CRLF;
  }

  lemma LineAt(rest: string, line: string, cap: nat)
    requires line <= rest && line != [] && Newline(line) == |line| - 1 && |line| <= cap
    ensures Line(rest, cap) == Some(line)
  {
    var a := line[..|line| - 1];
    assert rest == a + rest[|a|..];
    assert rest[|a|] == '\n' && Newline(rest[|a|..]) == 0;
    NewlineAfter(a, rest[|a|..]);
    assert rest[..|line|] == line;
  }

  lemma LengthTorn(d: string, off: nat, kind: char, n: int)
    requires INT_MIN <= n <= INT_MAX && kind != '\n' && TornAt(d, off, LengthLine(kind, n))
    ensures ParseLength(d, off, kind) == None
  {
    var line := LengthLine(kind, n);
    LineOfLength(kind, n);
    var rest := From(d, off);
    assert rest == line[..|rest|];
    assert '\n' !in line[..|line| - 1];
    assert forall i | 0 <= i < |rest| :: rest[i] == line[..|line| - 1][i];
    NewlineAfter(rest, []);
    assert rest + [] == rest;
  }

  ghost predicate Fits(s: string, limit: Option<nat>) {
    |s| <= INT_MAX && (limit.None? || |s| <= limit.value)
  }

  lemma SliceOfSlice(d: string, off: nat, n: nat, i: nat, j: nat)
    requires off + n <= |d| && i <= j <= n
    ensures d[off..off + n][i..j] == d[off + i..off + j]
  {
    var l, r := d[off..off + n][i..j], d[off + i..off + j];
    assert forall k | 0 <= k < j - i :: l[k] == r[k];
  }

  lemma BulkAt(d: string, off: nat, s: string, limit: Option<nat>)
    requires Fits(s, limit) && At(d, off, Bulk(s))
    ensures ParseBulk(d, off, limit) == Some((s, off + |Bulk(s)|))
  {
    hide ParseLength, LengthLine;
    var head := LengthLine('$', |s|);
    var b := Bulk(s);
    var at := off + |head|;
    assert b[..|head|] == head && b[|head|..|head| + |s|] == s && b[|head| + |s|..] == CRLF;
    SliceOfSlice(d, off, |b|, 0, |head|);
    LengthAt(d, off, '$', |s|);
    SliceOfSlice(d, off, |b|, |head|, |head| + |s|);
    SliceOfSlice(d, off, |b|, |head| + |s|, |b|);
  }

  lemma BulkTorn(d: string, off: nat, s: string, limit: Option<nat>)
    requires Fits(s, limit) && TornAt(d, off, Bulk(s))
    ensures ParseBulk(d, off, limit) == None
  {
    hide ParseLength, LengthLine;
    var head := LengthLine('$', |s|);
    var b := Bulk(s);
    var n := |d| - off;
    if n < |head| {
      assert d[off..] == b[..n] == head[..n];
      LengthTorn(d, off, '$', |s|);
    } else {
      assert d[off..off + |head|] == b[..n][..|head|] == head;
      LengthAt(d, off, '$', |s|);
    }
  }

  ghost predicate AllFit(fields: seq<string>, limits: seq<Option<nat>>) {
    |fields| == |limits| && forall i | 0 <= i < |fields| :: Fits(fields[i], limits[i])
  }

  lemma {:induction false} BulksAt(d: string, off: nat, fields: seq<string>, limits: seq<Option<nat>>)
    requires AllFit(fields, limits) && At(d, off, Bulks(fields))
    ensures ParseBulks(d, off, limits) == Some((fields, off + |Bulks(fields)|))
    decreases |fields|
  {
    hide ParseBulk, Bulk;
    if fields != [] {
      var b, rest := Bulk(fields[0]), Bulks(fields[1..]);
      var n := |b + rest|;
      assert (b + rest)[..|b|] == b && (b + rest)[|b|..] == rest;
      SliceOfSlice(d, off, n, 0, |b|);
      SliceOfSlice(d, off, n, |b|, n);
      BulkAt(d, off, fields[0], limits[0]);
      BulksAt(d, off + |b|, fields[1..], limits[1..]);
      assert fields == [fields[0]] + fields[1..];
    }
  }

  /** No proper prefix of a run of fields reads as that run. */
  lemma {:induction false} BulksTorn(d: string, off: nat, fields: seq<string>, limits: seq<Option<nat>>)
    requires AllFit(fields, limits) && TornAt(d, off, Bulks(fields))
    ensures ParseBulks(d, off, limits) == None
    decreases |fields|
  {
    hide ParseBulk, Bulk;
    var b, rest := Bulk(fields[0]), Bulks(fields[1..]);
    var n := |d| - off;
    if n < |b| {
      assert (b + rest)[..n] == b[..n];
      BulkTorn(d, off, fields[0], limits[0]);
    } else {
      assert (b + rest)[..n][..|b|] == b && (b + rest)[..n][|b|..] == rest[..n - |b|];
      assert d[off..off + |b|] == d[off..][..|b|] && d[off + |b|..] == d[off..][|b|..];
      BulkAt(d, off, fields[0], limits[0]);
      BulksTorn(d, off + |b|, fields[1..], limits[1..]);
    }
  }

  lemma {:induction false} CStringOfText(s: string)
    requires |s| < FIELD_SIZE && '\0' !in s
    ensures CString(s) == s
  {
    UpToNulOfText(s);
  }

  lemma {:induction false} UpToNulOfText(s: string)
    requires '\0' !in s
    ensures UpToNul(s) == s
    decreases |s|
  {
    if s != [] {
      UpToNulOfText(s[1..]);
    }
  }

  lemma DecIsText(i: int)
    requires LONG_MIN <= i <= ULONG_MAX
    ensures |Dec(i)| <= 20 && CString(Dec(i)) == Dec(i)
    ensures Fits(Dec(i), Some(FIELD_SIZE))
  {
    var m := if i < 0 then -i else i;
    DigitsShape(m);
    assert Pow10(5) == 100000;
    assert Pow10(10) == 10_000_000_000;
    assert Pow10(15) == 1_000_000_000_000_000;
    if i < 0 {
      assert Pow10(19) == 10_000_000_000_000_000_000;
      DigitsLength(m, 19);
    } else {
      assert Pow10(20) == 100_000_000_000_000_000_000;
      DigitsLength(m, 20);
    }
    CStringOfText(Dec(i));
  }

  /** A printed number in a short field parses to itself. */
  lemma ParsePrinted(i: int, low: int, high: int)
    requires low <= i <= high && LONG_MIN <= i <= ULONG_MAX
    ensures ParseRange(CString(Dec(i)), low, high) == Some(i)
    ensures 0 <= i ==> ParseUnsigned(CString(Dec(i))) == Some(i)
  {
    hide Dec, ScanNumber, CString;
    DecIsText(i);
    ScanPrinted(i, [], 0);
    assert Dec(i) + [] == Dec(i);
  }

  /** And a printed number outside the range does not parse. */
  lemma RangeChecked(i: int, low: int, high: int)
    requires LONG_MIN <= i <= ULONG_MAX
    ensures ParseRange(CString(Dec(i)), low, high) == if low <= i <= high then Some(i) else None
  {
    hide Dec, ScanNumber, CString;
    DecIsText(i);
    ScanPrinted(i, [], 0);
    assert Dec(i) + [] == Dec(i);
  }
}
