/** Printing replies as a server sends them, and reading them back. */
module RespPrinter {
  import opened Wrappers
  import opened Decimal
  import opened StrictInteger
  import opened RespProtocol
  import opened RespReader

  const EOL := "\r\n"

  /** A reply as the protocol writes it: its type byte, then a line, a counted text, or a count and the elements. */
  function Print(r: Reply): string
    decreases r
  {
    match r
    case Text(kind, text) =>
      if kind == Error then "-" + text + EOL
      else if kind == Status then "+" + text + EOL
      else "$" + Dec(|text|) + EOL + text + EOL
    case Verbatim(format, text) => "=" + Dec(|format + ":" + text|) + EOL + (format + ":" + text) + EOL
    case Number(value) => ":" + Dec(value) + EOL
    case Real(text) => "," + text + EOL
    case Null => "_" + "" + EOL
    case Flag(on) => "#" + (if on then "t" else "f") + EOL
    case Items(kind, items) =>
      if kind == Map then "%" + Dec(|items| / 2) + EOL + PrintAll(items)
      else (if kind == Set then "~" else if kind == Push then ">" else "*") + Dec(|items|) + EOL + PrintAll(items)
  }

  function PrintAll(rs: seq<Reply>): string
    decreases rs
  {
    if rs == [] then "" else Print(rs[0]) + PrintAll(rs[1..])
  }

  /** A text that fits on a line. */
  ghost predicate OneLine(s: string) { forall i | 0 <= i < |s| - 1 :: !(s[i] == '\r' && s[i + 1] == '\n') }

  /** The replies the protocol has, within its limits. */
  ghost predicate Printable(r: Reply, isDouble: DoubleTest)
    decreases r
  {
    match r
    case Text(kind, text) =>
      (kind in {Error, Status} && OneLine(text)) || (kind == String && |text| <= LONG_MAX)
    case Verbatim(format, text) => |format| == 3 && |text| + 4 <= LONG_MAX
    case Number(value) => LONG_MIN <= value <= LONG_MAX
    case Real(text) => |text| < DOUBLE_SIZE && isDouble(text) && OneLine(text)
    case Null => true
    case Flag(_) => true
    case Items(kind, items) =>
      && (if kind == Map then |items| % 2 == 0 && |items| / 2 <= MAX_ELEMENTS
          else kind in {Array, Set, Push} && |items| <= MAX_ELEMENTS)
      && AllPrintable(items, isDouble)
  }

  ghost predicate AllPrintable(rs: seq<Reply>, isDouble: DoubleTest)
    decreases rs
  {
    rs == [] || (Printable(rs[0], isDouble) && AllPrintable(rs[1..], isDouble))
  }

  // ----- lines -----

  lemma {:induction false} LineEnds(line: string, t: string)
    requires OneLine(line)
    ensures CrLf(line + EOL + t) == Some(|line|)
  {
    var s := line + EOL + t;
    if line != [] {
      assert s[0] == line[0] && s[1] == if |line| > 1 then line[1] else '\r';
      assert s[1..] == line[1..] + EOL + t;
      LineEnds(line[1..], t);
    }
  }

  lemma LineParts(line: string, t: string)
    ensures (line + EOL + t)[..|line|] == line && (line + EOL + t)[|line| + 2..] == t
  {
  }

  lemma NumberIsLine(v: int)
    requires LONG_MIN <= v <= LONG_MAX
    ensures OneLine(Dec(v)) && Printed(Dec(v)) == Some(v)
  {
    hide Digits, Printed;
    PrintedOf(v);
    DigitsShape(if v < 0 then -v else v);
  }

  lemma Typed(c: char, kind: Kind, rest: string, isDouble: DoubleTest)
    requires KindOf(c) == Some(kind)
    ensures ParseReply([c] + rest, isDouble) == ParseTyped(kind, rest, isDouble)
  {
    hide ParseTyped;
    assert ([c] + rest)[1..] == rest;
  }

  lemma LineBack(c: char, kind: Kind, line: string, r: Reply, t: string, isDouble: DoubleTest)
    requires KindOf(c) == Some(kind) && !IsBulk(kind) && !IsAggregate(kind) && OneLine(line)
    requires LineReply(kind, line, isDouble) == Done(r, "")
    ensures ParseReply([c] + line + EOL + t, isDouble) == Done(r, t)
  {
    hide ParseReply, LineReply, CrLf, KindOf;
    var rest := line + EOL + t;
    LineEnds(line, t);
    LineParts(line, t);
    Typed(c, kind, rest, isDouble);
    assert [c] + line + EOL + t == [c] + rest;
  }

  // ----- counted texts -----

  lemma CountedParts(line: string, body: string, t: string)
    ensures var s, n := line + EOL + (body + EOL + t), |line|;
            && s[n + 2..n + 2 + |body|] == body && s[n + 2 + |body| + 2..] == t && n + 2 + |body| + 2 <= |s|
  {
    var s := line + EOL + (body + EOL + t);
    assert s[|line| + 2..] == body + EOL + t;
  }

  lemma BulkBack(c: char, kind: Kind, body: string, r: Reply, t: string, isDouble: DoubleTest)
    requires KindOf(c) == Some(kind) && IsBulk(kind) && |body| <= LONG_MAX && BulkReply(kind, body) == Done(r, "")
    ensures ParseReply([c] + Dec(|body|) + EOL + body + EOL + t, isDouble) == Done(r, t)
  {
    hide ParseReply, BulkReply, CrLf, KindOf, Printed, Dec, ParseBulk;
    var line := Dec(|body|);
    var rest := line + EOL + (body + EOL + t);
    NumberIsLine(|body|);
    LineEnds(line, body + EOL + t);
    LineParts(line, body + EOL + t);
    CountedParts(line, body, t);
    BulkFound(kind, rest, |line|, body, r, t);
    Typed(c, kind, rest, isDouble);
    Regrouped([c], line, body, t);
  }

  lemma Regrouped(c: string, line: string, body: string, t: string)
    ensures c + line + EOL + body + EOL + t == c + (line + EOL + (body + EOL + t))
  {
  }

  lemma BulkFound(kind: Kind, s: string, n: nat, body: string, r: Reply, t: string)
    requires CrLf(s) == Some(n) && Printed(s[..n]) == Some(|body|) && BulkReply(kind, body) == Done(r, "")
    requires n + 2 + |body| + 2 <= |s| && s[n + 2..n + 2 + |body|] == body && s[n + 2 + |body| + 2..] == t
    ensures ParseBulk(kind, s) == Done(r, t)
  {
    hide CrLf, Printed, BulkReply;
  }

  // ----- aggregates -----

  lemma HeaderFound(kind: Kind, n: nat, body: string)
    requires n <= MAX_ELEMENTS
    ensures ParseHeader(kind, Dec(n) + EOL + body) == Count(if kind == Map then n * 2 else n, body)
  {
    hide CrLf, Printed, Dec;
    NumberIsLine(n);
    LineEnds(Dec(n), body);
    LineParts(Dec(n), body);
  }

  lemma ItemsBack(c: char, kind: Kind, n: nat, body: string, items: seq<Reply>, t: string, isDouble: DoubleTest)
    requires KindOf(c) == Some(kind) && IsAggregate(kind) && n <= MAX_ELEMENTS
    requires ParseItems(if kind == Map then n * 2 else n, body, isDouble) == AllDone(items, t)
    ensures ParseReply([c] + Dec(n) + EOL + body, isDouble) == Done(Items(kind, items), t)
  {
    hide ParseReply, ParseHeader, ParseItems, KindOf, Dec;
    var rest := Dec(n) + EOL + body;
    HeaderFound(kind, n, body);
    Typed(c, kind, rest, isDouble);
    assert [c] + Dec(n) + EOL + body == [c] + rest;
  }

  // ----- every reply -----

  /** What is printed is read back, with what follows left over: for every reply within the protocol's limits. */
  lemma {:induction false} ReadsBack(r: Reply, t: string, isDouble: DoubleTest)
    requires Printable(r, isDouble)
    ensures ParseReply(Print(r) + t, isDouble) == Done(r, t)
    decreases r
  {
    hide ParseReply, ParseItems, Dec, Printed, PrintAll;
    match r
    case Text(kind, text) =>
      if kind == Error {
        LineBack('-', Error, text, r, t, isDouble);
      } else if kind == Status {
        LineBack('+', Status, text, r, t, isDouble);
      } else {
        BulkBack('$', String, text, r, t, isDouble);
      }
    case Verbatim(format, text) =>
      var body := format + ":" + text;
      assert body[..3] == format && body[3] == ':' && body[4..] == text;
      BulkBack('=', Verb, body, r, t, isDouble);
    case Number(value) =>
      NumberIsLine(value);
      LineBack(':', Integer, Dec(value), r, t, isDouble);
    case Real(text) => LineBack(',', Double, text, r, t, isDouble);
    case Null => LineBack('_', Nil, "", r, t, isDouble);
    case Flag(on) => LineBack('#', Bool, if on then "t" else "f", r, t, isDouble);
    case Items(kind, items) =>
      AllReadBack(items, t, isDouble);
      AggregateBack(kind, items, t, isDouble);
  }

  lemma AggregateBack(kind: Kind, items: seq<Reply>, t: string, isDouble: DoubleTest)
    requires Printable(Items(kind, items), isDouble)
    requires ParseItems(|items|, PrintAll(items) + t, isDouble) == AllDone(items, t)
    ensures ParseReply(Print(Items(kind, items)) + t, isDouble) == Done(Items(kind, items), t)
  {
    hide ParseReply, ParseItems, Dec, PrintAll, AllPrintable;
    var body := PrintAll(items) + t;
    var n := if kind == Map then |items| / 2 else |items|;
    var c := if kind == Map then '%' else if kind == Set then '~' else if kind == Push then '>' else '*';
    ItemsBack(c, kind, n, body, items, t, isDouble);
    assert Print(Items(kind, items)) == [c] + Dec(n) + EOL + PrintAll(items);
    assert Print(Items(kind, items)) + t == [c] + Dec(n) + EOL + body;
  }

  lemma {:induction false} AllReadBack(rs: seq<Reply>, t: string, isDouble: DoubleTest)
    requires AllPrintable(rs, isDouble)
    ensures ParseItems(|rs|, PrintAll(rs) + t, isDouble) == AllDone(rs, t)
    decreases rs
  {
    hide ParseReply, Print, Printable;
    if rs == [] {
      assert PrintAll(rs) + t == t;
    } else {
      var rest := PrintAll(rs[1..]) + t;
      assert PrintAll(rs) + t == Print(rs[0]) + rest;
      ReadsBack(rs[0], rest, isDouble);
      AllReadBack(rs[1..], t, isDouble);
      assert [rs[0]] + rs[1..] == rs;
    }
  }

  /** A printed stream is read as exactly its replies. */
  lemma {:induction false} StreamReadsBack(rs: seq<Reply>, isDouble: DoubleTest)
    requires AllPrintable(rs, isDouble)
    ensures Stream(PrintAll(rs), isDouble) == Replies(rs, Waiting)
    decreases rs
  {
    hide ParseReply, Print, Printable;
    if rs == [] {
      EmptyStream(isDouble);
    } else {
      ReadsBack(rs[0], PrintAll(rs[1..]), isDouble);
      StreamReadsBack(rs[1..], isDouble);
      assert [rs[0]] + rs[1..] == rs;
    }
  }

  /** Printed replies that arrive in any chunks are returned one by one, and nothing else. */
  method ReadPrinted(rs: seq<Reply>, chunks: seq<string>, isDouble: DoubleTest) returns (replies: seq<Reply>, end: End)
    requires AllPrintable(rs, isDouble) && Concat(chunks) == PrintAll(rs)
    ensures replies == rs && end == Waiting
  {
    hide Stream, Print, Printable, AllPrintable;
    replies, end := ReadChunks(chunks, isDouble);
    StreamReadsBack(rs, isDouble);
  }

  // ----- what is refused, and the older forms of nil -----

  /** The type bytes are these twelve: any other is an error at once, and these alone are waited on. */
  lemma TypeBytes(c: char, t: string, isDouble: DoubleTest)
    ensures c !in "-+:,_$*%~#=>" ==> ParseReply([c] + t, isDouble) == Bad(BadType(c))
    ensures c in "-+:,_$*%~#=>" <==> ParseReply([c], isDouble) == More
  {
    hide ParseTyped;
    assert [c][1..] == [];
    if c in "-+:,_$*%~#=>" { EmptyWaits(KindOf(c).value, isDouble); }
  }

  lemma EmptyWaits(kind: Kind, isDouble: DoubleTest)
    ensures ParseTyped(kind, [], isDouble) == More
  {
    hide ParseItems;
  }

  /** Lines that are no integer, or no double of at most 325 bytes, are errors. */
  lemma LinesChecked(line: string, t: string, isDouble: DoubleTest)
    requires OneLine(line)
    ensures (forall v | LONG_MIN <= v <= LONG_MAX :: line != Dec(v)) ==>
              ParseReply(":" + line + EOL + t, isDouble) == Bad(BadInteger)
    ensures |line| > 325 ==> ParseReply("," + line + EOL + t, isDouble) == Bad(LongDouble)
    ensures |line| <= 325 && !isDouble(line) ==> ParseReply("," + line + EOL + t, isDouble) == Bad(BadDouble)
  {
    hide CrLf, Dec, ParseReply;
    LineEnds(line, t);
    LineParts(line, t);
    Typed(':', Integer, line + EOL + t, isDouble);
    Typed(',', Double, line + EOL + t, isDouble);
    assert ":" + line + EOL + t == ":" + (line + EOL + t) && "," + line + EOL + t == "," + (line + EOL + t);
  }

  /** Counts of aggregates: minus one is nil, anything else out of range an error. */
  lemma CountsChecked(c: char, n: int, t: string, isDouble: DoubleTest)
    requires c in "*%~>" && LONG_MIN <= n <= LONG_MAX
    ensures ParseReply([c] + Dec(n) + EOL + t, isDouble) == Bad(CountRange) <== n < -1 || n > 0xffff_ffff
    ensures n == -1 ==> ParseReply([c] + Dec(n) + EOL + t, isDouble) == Done(Null, t)
  {
    hide CrLf, Printed, Dec, ParseItems, ParseReply;
    NumberIsLine(n);
    LineEnds(Dec(n), t);
    LineParts(Dec(n), t);
    Typed(c, KindOf(c).value, Dec(n) + EOL + t, isDouble);
    assert [c] + Dec(n) + EOL + t == [c] + (Dec(n) + EOL + t);
  }

  /** Lengths of texts: minus one is nil, anything below an error, and a text is not there before its last byte is. */
  lemma LengthsChecked(c: char, n: int, t: string, isDouble: DoubleTest)
    requires c in "$=" && LONG_MIN <= n <= LONG_MAX
    ensures n < -1 ==> ParseReply([c] + Dec(n) + EOL + t, isDouble) == Bad(BulkRange)
    ensures n == -1 ==> ParseReply([c] + Dec(n) + EOL + t, isDouble) == Done(Null, t)
    ensures n >= 0 && |t| < n + 2 ==> ParseReply([c] + Dec(n) + EOL + t, isDouble) == More
  {
    hide CrLf, Printed, Dec, ParseReply, BulkReply;
    NumberIsLine(n);
    LineEnds(Dec(n), t);
    LineParts(Dec(n), t);
    Typed(c, KindOf(c).value, Dec(n) + EOL + t, isDouble);
    assert [c] + Dec(n) + EOL + t == [c] + (Dec(n) + EOL + t);
  }
}
