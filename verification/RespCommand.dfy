/** Formatting a command, and reading it back. */
module RespCommand {
  import opened Wrappers
  import opened Decimal
  import opened StrictInteger
  import opened RespProtocol

  const CRLF := "\r\n"

  function BulkText(arg: string): string { "$" + Digits(|arg|) + CRLF + arg + CRLF }

  function Args(argv: seq<string>): string {
    if argv == [] then "" else Args(argv[..|argv| - 1]) + BulkText(argv[|argv| - 1])
  }

  function Command(argv: seq<string>): string { "*" + Digits(|argv|) + CRLF + Args(argv) }

  // ----- precomputed sizes -----

  lemma DigitsOfHead(v: nat)
    requires v >= 10000
    ensures |Digits(v)| == |Digits(v / 10000)| + 4
  {
    assert v / 10 / 10 == v / 100 && v / 100 / 10 == v / 1000 && v / 1000 / 10 == v / 10000;
    assert |Digits(v)| == |Digits(v / 10)| + 1;
    assert |Digits(v / 10)| == |Digits(v / 100)| + 1;
    assert |Digits(v / 100)| == |Digits(v / 1000)| + 1;
  }

  lemma SmallDigits(w: nat)
    ensures w < 10000 ==> |Digits(w)| == if w < 10 then 1 else if w < 100 then 2 else if w < 1000 then 3 else 4
  {
    if 10 <= w < 10000 {
      assert |Digits(w)| == |Digits(w / 10)| + 1;
      if w >= 100 { assert |Digits(w / 10)| == |Digits(w / 10 / 10)| + 1; }
      if w >= 1000 { assert |Digits(w / 10 / 10)| == |Digits(w / 10 / 10 / 10)| + 1; }
    }
  }

  /** The number of decimal digits, four at a time. */
  method CountDigits(v: nat) returns (result: nat)
    ensures result == |Digits(v)|
  {
    result := 1;
    var w := v;
    while true
      invariant result >= 1 && result - 1 + |Digits(w)| == |Digits(v)|
      decreases w
    {
      SmallDigits(w);
      if w < 10 { return result; }
      if w < 100 { return result + 1; }
      if w < 1000 { return result + 2; }
      if w < 10000 { return result + 3; }
      DigitsOfHead(w);
      w := w / 10000;
      result := result + 4;
    }
  }

  method BulkLength(len: nat) returns (n: nat)
    ensures forall s: string | |s| == len :: |BulkText(s)| == n
  {
    var d := CountDigits(len);
    n := 1 + d + 2 + len + 2;
  }

  /** Copies text into a buffer. */
  method Put(buf: array<char>, pos: nat, text: string) returns (next: nat)
    requires pos + |text| <= buf.Length
    modifies buf
    ensures next == pos + |text| && buf[..next] == old(buf[..pos]) + text
  {
    var i := 0;
    while i < |text|
      invariant 0 <= i <= |text| && buf[..pos] == old(buf[..pos]) && buf[pos..pos + i] == text[..i]
    {
      buf[pos + i] := text[i];
      i := i + 1;
    }
    assert buf[..pos + |text|] == buf[..pos] + buf[pos..pos + |text|];
    return pos + |text|;
  }

  lemma ArgsPrefix(argv: seq<string>, j: nat)
    requires j < |argv|
    ensures Args(argv[..j + 1]) == Args(argv[..j]) + BulkText(argv[j])
  {
    assert argv[..j + 1][..j] == argv[..j];
  }

  lemma {:induction false} ArgsFit(argv: seq<string>, j: nat)
    requires j <= |argv|
    ensures |Args(argv[..j])| <= |Args(argv)|
    decreases |argv| - j
  {
    if j == |argv| {
      assert argv[..j] == argv;
    } else {
      ArgsPrefix(argv, j);
      ArgsFit(argv, j + 1);
    }
  }

  function Start(n: nat): string { "*" + Digits(n) + CRLF }

  method CommandLength(argv: seq<string>) returns (totlen: nat)
    ensures totlen == |Command(argv)|
  {
    var d := CountDigits(|argv|);
    totlen := 1 + d + 2;
    var j := 0;
    assert argv[..0] == [];
    while j < |argv|
      invariant 0 <= j <= |argv| && totlen == 1 + d + 2 + |Args(argv[..j])|
    {
      var n := BulkLength(|argv[j]|);
      ArgsPrefix(argv, j);
      assert |BulkText(argv[j])| == n;
      totlen := totlen + n;
      j := j + 1;
    }
    assert argv[..j] == argv;
  }

  /** Writes one argument. */
  method PutBulk(buf: array<char>, pos: nat, arg: string) returns (next: nat)
    requires pos + |BulkText(arg)| <= buf.Length
    modifies buf
    ensures next == pos + |BulkText(arg)| && buf[..next] == old(buf[..pos]) + BulkText(arg)
  {
    ghost var done := buf[..pos];
    next := Put(buf, pos, "$" + Digits(|arg|) + CRLF);
    next := Put(buf, next, arg);
    next := Put(buf, next, CRLF);
    assert buf[..next] == done + ("$" + Digits(|arg|) + CRLF) + arg + CRLF == done + BulkText(arg);
  }

  /** Formats a command into a buffer of exactly the size computed beforehand. */
  method FormatCommandArgv(argv: seq<string>) returns (cmd: array<char>, totlen: nat)
    ensures fresh(cmd) && cmd.Length == totlen + 1
    ensures cmd[..totlen] == Command(argv) && cmd[totlen] == '\0'
  {
    hide BulkText, Args, Digits;
    totlen := CommandLength(argv);
    cmd := new char[totlen + 1];
    assert Command(argv) == Start(|argv|) + Args(argv);
    var pos := Put(cmd, 0, Start(|argv|));
    var j := 0;
    NoArgs(argv);
    assert cmd[..0] == [];
    while j < |argv|
      invariant 0 <= j <= |argv| && fresh(cmd) && pos == |Start(|argv|)| + |Args(argv[..j])| <= totlen
      invariant cmd[..pos] == Start(|argv|) + Args(argv[..j])
    {
      ArgsPrefix(argv, j);
      ArgsFit(argv, j + 1);
      pos := PutBulk(cmd, pos, argv[j]);
      assert Start(|argv|) + Args(argv[..j]) + BulkText(argv[j]) == Start(|argv|) + Args(argv[..j + 1]);
      j := j + 1;
    }
    assert argv[..j] == argv;
    assert pos == totlen;
    cmd[pos] := '\0';
    assert cmd[..totlen] == Command(argv);
  }

  lemma NoArgs(argv: seq<string>)
    ensures Args(argv[..0]) == ""
  {
  }

  // ----- reading back -----

  lemma {:induction false} CrLfAfter(line: string, t: string)
    requires forall i | 0 <= i < |line| :: line[i] != '\r'
    ensures CrLf(line + CRLF + t) == Some(|line|)
  {
    var s := line + CRLF + t;
    if line != [] {
      assert s[1..] == line[1..] + CRLF + t;
      CrLfAfter(line[1..], t);
    }
  }

  lemma NumberLine(n: nat, t: string)
    requires n <= LONG_MAX
    ensures var s := Digits(n) + CRLF + t;
            CrLf(s) == Some(|Digits(n)|) && Printed(s[..|Digits(n)|]) == Some(n) && s[|Digits(n)| + 2..] == t
  {
    DigitsShape(n);
    CrLfAfter(Digits(n), t);
    PrintedOf(n);
    var s := Digits(n) + CRLF + t;
    assert s[..|Digits(n)|] == Digits(n) == Dec(n);
  }

  lemma BulkParts(line: string, arg: string, t: string)
    ensures var rest := line + CRLF + (arg + CRLF + t);
            var n := |line|;
            && rest[n + 2..n + 2 + |arg|] == arg && rest[n + 2 + |arg| + 2..] == t && n + 2 + |arg| + 2 <= |rest|
  {
    var rest := line + CRLF + (arg + CRLF + t);
    assert rest[|line| + 2..] == arg + CRLF + t;
  }

  lemma BulkReadsBack(arg: string, t: string, isDouble: DoubleTest)
    requires |arg| <= LONG_MAX
    ensures ParseReply(BulkText(arg) + t, isDouble) == Done(Text(String, arg), t)
  {
    hide CrLf, Printed, Digits, BulkText, ParseReply, ParseBulk;
    var line := Digits(|arg|);
    var rest := line + CRLF + (arg + CRLF + t);
    BulkStarts(arg, t);
    NumberLine(|arg|, arg + CRLF + t);
    BulkParts(line, arg, t);
    BulkParsed(rest, |line|, arg, t);
    BulkIsReply(rest, arg, t, isDouble);
  }

  lemma BulkStarts(arg: string, t: string)
    ensures BulkText(arg) + t == "$" + (Digits(|arg|) + CRLF + (arg + CRLF + t))
  {
    hide Digits;
    Regroup("$", Digits(|arg|), CRLF, arg, CRLF, t);
  }

  lemma Regroup(a: string, b: string, c: string, d: string, e: string, t: string)
    ensures a + b + c + d + e + t == a + (b + c + (d + e + t))
  {
  }

  lemma BulkIsReply(rest: string, arg: string, t: string, isDouble: DoubleTest)
    requires ParseBulk(String, rest) == Done(Text(String, arg), t)
    ensures ParseReply("$" + rest, isDouble) == Done(Text(String, arg), t)
  {
    hide ParseBulk;
    assert ("$" + rest)[0] == '$' && ("$" + rest)[1..] == rest;
  }

  lemma BulkParsed(rest: string, n: nat, arg: string, t: string)
    requires CrLf(rest) == Some(n) && Printed(rest[..n]) == Some(|arg|)
    requires n + 2 + |arg| + 2 <= |rest| && rest[n + 2..n + 2 + |arg|] == arg && rest[n + 2 + |arg| + 2..] == t
    ensures ParseBulk(String, rest) == Done(Text(String, arg), t)
  {
    hide CrLf, Printed;
  }

  function Texts(argv: seq<string>): seq<Reply> { seq(|argv|, i requires 0 <= i < |argv| => Text(String, argv[i])) }

  lemma {:induction false} ArgsCons(argv: seq<string>)
    requires argv != []
    ensures Args(argv) == BulkText(argv[0]) + Args(argv[1..])
  {
    hide BulkText;
    var n := |argv| - 1;
    if n == 0 {
      assert argv[..0] == [] && argv[1..] == [];
    } else {
      ArgsCons(argv[..n]);
      var first, rest := argv[0], argv[1..];
      assert argv[..n][1..] == rest[..n - 1] && argv[..n][0] == first && rest[n - 1] == argv[n];
      assert Args(rest) == Args(rest[..n - 1]) + BulkText(argv[n]);
      assert BulkText(first) + Args(rest[..n - 1]) + BulkText(argv[n]) == BulkText(first) + Args(rest);
    }
  }

  lemma ItemsFirst(n: nat, s: string, first: Reply, rest: string, items: seq<Reply>, t: string, isDouble: DoubleTest)
    requires n > 0 && ParseReply(s, isDouble) == Done(first, rest)
             && ParseItems(n - 1, rest, isDouble) == AllDone(items, t)
    ensures ParseItems(n, s, isDouble) == AllDone([first] + items, t)
  {
    hide ParseReply;
  }

  lemma {:induction false} ArgsReadBack(argv: seq<string>, t: string, isDouble: DoubleTest)
    requires forall i | 0 <= i < |argv| :: |argv[i]| <= LONG_MAX
    ensures ParseItems(|argv|, Args(argv) + t, isDouble) == AllDone(Texts(argv), t)
    decreases |argv|
  {
    hide ParseReply, BulkText, ParseTyped;
    if argv == [] {
      assert Args(argv) + t == t;
    } else {
      var rest := Args(argv[1..]) + t;
      ArgsCons(argv);
      assert Args(argv) + t == BulkText(argv[0]) + rest;
      BulkReadsBack(argv[0], rest, isDouble);
      ArgsReadBack(argv[1..], t, isDouble);
      hide ParseItems, Args;
      ItemsFirst(|argv|, Args(argv) + t, Text(String, argv[0]), rest, Texts(argv[1..]), t, isDouble);
      assert Texts(argv) == [Text(String, argv[0])] + Texts(argv[1..]);
    }
  }

  lemma ArrayParsed(s: string, n: nat, body: string, items: seq<Reply>, t: string, isDouble: DoubleTest)
    requires ParseHeader(Array, s) == Count(n, body) && ParseItems(n, body, isDouble) == AllDone(items, t)
    ensures ParseReply("*" + s, isDouble) == Done(Items(Array, items), t)
  {
    hide ParseHeader, ParseItems;
    assert ("*" + s)[1..] == s;
  }

  /** Within the reader's limits. */
  ghost predicate Fits(argv: seq<string>) {
    |argv| <= MAX_ELEMENTS && forall i | 0 <= i < |argv| :: |argv[i]| <= LONG_MAX
  }

  /** A formatted command is read back as the array of its arguments, with nothing left over. */
  lemma CommandReadsBack(argv: seq<string>, t: string, isDouble: DoubleTest)
    requires Fits(argv)
    ensures ParseReply(Command(argv) + t, isDouble) == Done(Items(Array, Texts(argv)), t)
  {
    hide CrLf, Printed, Digits, ParseItems, ParseReply, Texts, Args;
    var body := Args(argv) + t;
    var rest := Digits(|argv|) + CRLF + body;
    assert Command(argv) + t == "*" + rest;
    NumberLine(|argv|, body);
    ArgsReadBack(argv, t, isDouble);
    assert ParseHeader(Array, rest) == Count(|argv|, body);
    ArrayParsed(rest, |argv|, body, Texts(argv), t, isDouble);
  }

  function Commands(list: seq<seq<string>>): string {
    if list == [] then "" else Command(list[0]) + Commands(list[1..])
  }

  function Arrays(list: seq<seq<string>>): seq<Reply> {
    if list == [] then [] else [Items(Array, Texts(list[0]))] + Arrays(list[1..])
  }

  /** A pipeline of commands is read as exactly those commands. */
  lemma {:induction false} PipelineReadsBack(list: seq<seq<string>>, isDouble: DoubleTest)
    requires forall k | 0 <= k < |list| :: Fits(list[k])
    ensures Stream(Commands(list), isDouble) == Replies(Arrays(list), Waiting)
    decreases |list|
  {
    hide ParseItems, ParseTyped, Command, Texts;
    if list != [] {
      CommandReadsBack(list[0], Commands(list[1..]), isDouble);
      PipelineReadsBack(list[1..], isDouble);
    }
  }
}
