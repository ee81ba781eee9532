/** The replies of the Redis serialization protocol: a recursive parser, and the facts that make
    incremental parsing possible. */
module RespProtocol {
  import opened Wrappers
  import opened StrictInteger

  const MAX_ELEMENTS: int := 0xffff_ffff
  const DOUBLE_SIZE := 326

  datatype Kind = Error | Status | Integer | Double | Nil | String | Array | Map | Set | Bool | Verb | Push

  datatype Reply =
    | Text(kind: Kind, text: string)
    | Verbatim(format: string, text: string)
    | Number(value: int)
    | Real(text: string)
    | Null
    | Flag(on: bool)
    | Items(kind: Kind, items: seq<Reply>)

  datatype Fault =
    | BadType(byte: char) | BadInteger | LongDouble | BadDouble | BadBulkLength | BulkRange | BadVerbatim
    | BadCount | CountRange

  /** A reply and the input after it, not enough input yet, or a protocol error. */
  datatype Parse = Done(reply: Reply, rest: string) | More | Bad(fault: Fault)

  datatype ParseMany = AllDone(items: seq<Reply>, rest: string) | SomeMore | SomeBad(fault: Fault)

  /** The header of an aggregate: its number of elements, or nil. */
  datatype Header = Count(n: nat, rest: string) | NoItems(rest: string) | NoHeader | BadHeader(fault: Fault)

  function KindOf(c: char): Option<Kind> {
    match c
    case '-' => Some(Error)
    case '+' => Some(Status)
    case ':' => Some(Integer)
    case ',' => Some(Double)
    case '_' => Some(Nil)
    case '$' => Some(String)
    case '*' => Some(Array)
    case '%' => Some(Map)
    case '~' => Some(Set)
    case '#' => Some(Bool)
    case '=' => Some(Verb)
    case '>' => Some(Push)
    case _ => None
  }

  predicate IsAggregate(kind: Kind) { kind in {Array, Map, Set, Push} }

  predicate IsBulk(kind: Kind) { kind in {String, Verb} }

  /** Where the first line ends. */
  function CrLf(s: string): (r: Option<nat>)
    ensures r.Some? ==> r.value + 1 < |s| && s[r.value] == '\r' && s[r.value + 1] == '\n'
  {
    if |s| < 2 then None
    else if s[0] == '\r' && s[1] == '\n' then Some(0)
    else
      match CrLf(s[1..])
      case None => None
      case Some(i) => Some(i + 1)
  }

  // ----- the recursive parser; `isDouble` says which texts strtod accepts -----

  type DoubleTest = string -> bool

  ghost function LineReply(kind: Kind, line: string, isDouble: DoubleTest): Parse {
    match kind
    case Integer => if Printed(line).Some? then Done(Number(Printed(line).value), "") else Bad(BadInteger)
    case Double =>
      if |line| >= DOUBLE_SIZE then Bad(LongDouble) else if isDouble(line) then Done(Real(line), "") else Bad(BadDouble)
    case Nil => Done(Null, "")
    case Bool => Done(Flag(line != [] && (line[0] == 't' || line[0] == 'T')), "")
    case _ => Done(Text(kind, line), "")
  }

  ghost function ParseLine(kind: Kind, s: string, isDouble: DoubleTest): (r: Parse)
    ensures r.Done? ==> |r.rest| < |s|
  {
    match CrLf(s)
    case None => More
    case Some(n) =>
      match LineReply(kind, s[..n], isDouble)
      case Done(reply, _) => Done(reply, s[n + 2..])
      case other => other
  }

  ghost function BulkReply(kind: Kind, body: string): Parse {
    if kind != Verb then Done(Text(kind, body), "")
    else if |body| < 4 || body[3] != ':' then Bad(BadVerbatim)
    else Done(Verbatim(body[..3], body[4..]), "")
  }

  ghost function ParseBulk(kind: Kind, s: string): (r: Parse)
    ensures r.Done? ==> |r.rest| < |s|
  {
    match CrLf(s)
    case None => More
    case Some(n) =>
      var len := Printed(s[..n]);
      if len == None then Bad(BadBulkLength)
      else if len.value < -1 then Bad(BulkRange)
      else if len.value == -1 then Done(Null, s[n + 2..])
      else if n + 2 + len.value + 2 > |s| then More
      else
        match BulkReply(kind, s[n + 2..n + 2 + len.value])
        case Done(reply, _) => Done(reply, s[n + 2 + len.value + 2..])
        case other => other
  }

  ghost function ParseHeader(kind: Kind, s: string): (r: Header)
    ensures r.Count? || r.NoItems? ==> |r.rest| < |s|
  {
    match CrLf(s)
    case None => NoHeader
    case Some(n) =>
      var count := Printed(s[..n]);
      if count == None then BadHeader(BadCount)
      else if count.value < -1 || count.value > MAX_ELEMENTS then BadHeader(CountRange)
      else if count.value == -1 then NoItems(s[n + 2..])
      else Count(if kind == Map then count.value * 2 else count.value, s[n + 2..])
  }

  ghost function ParseTyped(kind: Kind, s: string, isDouble: DoubleTest): (r: Parse)
    ensures r.Done? ==> |r.rest| < |s|
    decreases |s|, 0
  {
    if IsBulk(kind) then ParseBulk(kind, s)
    else if !IsAggregate(kind) then ParseLine(kind, s, isDouble)
    else
      match ParseHeader(kind, s)
      case NoHeader => More
      case BadHeader(fault) => Bad(fault)
      case NoItems(rest) => Done(Null, rest)
      case Count(n, rest) =>
        match ParseItems(n, rest, isDouble)
        case AllDone(items, after) => Done(Items(kind, items), after)
        case SomeMore => More
        case SomeBad(fault) => Bad(fault)
  }

  ghost function ParseReply(s: string, isDouble: DoubleTest): (r: Parse)
    ensures r.Done? ==> |r.rest| < |s|
    decreases |s|, 1
  {
    if s == [] then More
    else if KindOf(s[0]) == None then Bad(BadType(s[0]))
    else ParseTyped(KindOf(s[0]).value, s[1..], isDouble)
  }

  ghost function ParseItems(n: nat, s: string, isDouble: DoubleTest): (r: ParseMany)
    ensures r.AllDone? ==> |r.items| == n && |r.rest| <= |s|
    decreases |s|, 2
  {
    if n == 0 then AllDone([], s)
    else
      match ParseReply(s, isDouble)
      case More => SomeMore
      case Bad(fault) => SomeBad(fault)
      case Done(first, rest) =>
        match ParseItems(n - 1, rest, isDouble)
        case AllDone(items, after) => AllDone([first] + items, after)
        case other => other
  }

  // ----- more input does not change what is decided -----

  function Extended(p: Parse, t: string): Parse { if p.Done? then Done(p.reply, p.rest + t) else p }

  function ManyExtended(p: ParseMany, t: string): ParseMany { if p.AllDone? then AllDone(p.items, p.rest + t) else p }

  lemma {:induction false} CrLfExtends(s: string, t: string)
    requires CrLf(s).Some?
    ensures CrLf(s + t) == CrLf(s)
  {
    assert (s + t)[0] == s[0] && (s + t)[1] == s[1];
    if !(s[0] == '\r' && s[1] == '\n') {
      assert (s + t)[1..] == s[1..] + t;
      CrLfExtends(s[1..], t);
    }
  }

  lemma LineExtends(kind: Kind, s: string, t: string, isDouble: DoubleTest)
    requires !ParseLine(kind, s, isDouble).More?
    ensures ParseLine(kind, s + t, isDouble) == Extended(ParseLine(kind, s, isDouble), t)
  {
    hide CrLf, Printed, LineReply;
    CrLfExtends(s, t);
    var n := CrLf(s).value;
    assert (s + t)[..n] == s[..n] && (s + t)[n + 2..] == s[n + 2..] + t;
  }

  lemma BulkExtends(kind: Kind, s: string, t: string)
    requires !ParseBulk(kind, s).More?
    ensures ParseBulk(kind, s + t) == Extended(ParseBulk(kind, s), t)
  {
    hide CrLf, Printed, BulkReply;
    CrLfExtends(s, t);
    var n := CrLf(s).value;
    assert (s + t)[..n] == s[..n] && (s + t)[n + 2..] == s[n + 2..] + t;
    var len := Printed(s[..n]);
    if len.Some? && len.value >= 0 {
      var m := n + 2 + len.value;
      assert (s + t)[n + 2..m] == s[n + 2..m] && (s + t)[m + 2..] == s[m + 2..] + t;
    }
  }

  lemma HeaderExtends(kind: Kind, s: string, t: string)
    requires !ParseHeader(kind, s).NoHeader?
    ensures var h := ParseHeader(kind, s);
            ParseHeader(kind, s + t) == match h
                                        case Count(n, rest) => Count(n, rest + t)
                                        case NoItems(rest) => NoItems(rest + t)
                                        case other => other
  {
    CrLfExtends(s, t);
    var n := CrLf(s).value;
    assert (s + t)[..n] == s[..n] && (s + t)[n + 2..] == s[n + 2..] + t;
  }

  lemma {:induction false} TypedExtends(kind: Kind, s: string, t: string, isDouble: DoubleTest)
    requires !ParseTyped(kind, s, isDouble).More?
    ensures ParseTyped(kind, s + t, isDouble) == Extended(ParseTyped(kind, s, isDouble), t)
    decreases |s|, 0
  {
    if IsBulk(kind) {
      BulkExtends(kind, s, t);
    } else if !IsAggregate(kind) {
      LineExtends(kind, s, t, isDouble);
    } else {
      HeaderExtends(kind, s, t);
      var h := ParseHeader(kind, s);
      if h.Count? { ItemsExtend(h.n, h.rest, t, isDouble); }
    }
  }

  lemma {:induction false} ReplyExtends(s: string, t: string, isDouble: DoubleTest)
    requires !ParseReply(s, isDouble).More?
    ensures ParseReply(s + t, isDouble) == Extended(ParseReply(s, isDouble), t)
    decreases |s|, 1
  {
    assert (s + t)[0] == s[0] && (s + t)[1..] == s[1..] + t;
    if KindOf(s[0]).Some? { TypedExtends(KindOf(s[0]).value, s[1..], t, isDouble); }
  }

  lemma {:induction false} ItemsExtend(n: nat, s: string, t: string, isDouble: DoubleTest)
    requires !ParseItems(n, s, isDouble).SomeMore?
    ensures ParseItems(n, s + t, isDouble) == ManyExtended(ParseItems(n, s, isDouble), t)
    decreases |s|, 2
  {
    hide ParseReply, ParseTyped;
    if n > 0 {
      ReplyExtends(s, t, isDouble);
      var p := ParseReply(s, isDouble);
      if p.Done? { ItemsExtend(n - 1, p.rest, t, isDouble); }
    }
  }

  // ----- a whole stream -----

  /** What follows the replies of a stream: an incomplete reply (or nothing), or an error. */
  datatype End = Waiting | Failed(fault: Fault)

  datatype Replies = Replies(replies: seq<Reply>, end: End)

  /** All the replies of a stream, in order, and its end. */
  ghost function Stream(s: string, isDouble: DoubleTest): Replies
    decreases |s|
  {
    match ParseReply(s, isDouble)
    case More => Replies([], Waiting)
    case Bad(fault) => Replies([], Failed(fault))
    case Done(r, rest) => Prepend([r], Stream(rest, isDouble))
  }

  function Prepend(first: seq<Reply>, more: Replies): Replies { Replies(first + more.replies, more.end) }

  // ----- resuming in the middle of a reply -----

  /** An aggregate under way: how many elements it will have, and those read so far. */
  datatype Frame = Frame(kind: Kind, count: nat, items: seq<Reply>)

  predicate FramesOk(stack: seq<Frame>) {
    forall i | 0 <= i < |stack| :: |stack[i].items| < stack[i].count
  }

  /** The aggregates under way are completed after one more element. */
  ghost function Finish(stack: seq<Frame>, r: Reply, s: string, isDouble: DoubleTest): Parse
    requires FramesOk(stack)
    decreases |stack|
  {
    if stack == [] then Done(r, s)
    else
      var n := |stack| - 1;
      var top := stack[n];
      match ParseItems(top.count - |top.items| - 1, s, isDouble)
      case SomeMore => More
      case SomeBad(fault) => Bad(fault)
      case AllDone(more, rest) => Finish(stack[..n], Items(top.kind, top.items + [r] + more), rest, isDouble)
  }

  /** The rest of a reply whose open aggregates, and possibly the type of its current item, are known. */
  ghost function Resume(kind: Option<Kind>, stack: seq<Frame>, s: string, isDouble: DoubleTest): Parse
    requires FramesOk(stack)
  {
    match (if kind.None? then ParseReply(s, isDouble) else ParseTyped(kind.value, s, isDouble))
    case Done(r, rest) => Finish(stack, r, rest, isDouble)
    case other => other
  }

  /** Completing an item completes the aggregates of which it is the last element. */
  function Settle(stack: seq<Frame>, r: Reply): (p: (seq<Frame>, Option<Reply>))
    requires FramesOk(stack)
    ensures FramesOk(p.0) && (p.1.Some? ==> p.0 == [])
    decreases |stack|
  {
    if stack == [] then ([], Some(r))
    else
      var n := |stack| - 1;
      var top := stack[n];
      if |top.items| == top.count - 1 then Settle(stack[..n], Items(top.kind, top.items + [r]))
      else (stack[..n] + [top.(items := top.items + [r])], None)
  }

  lemma {:induction false} SettleMeans(stack: seq<Frame>, r: Reply, s: string, isDouble: DoubleTest)
    requires FramesOk(stack)
    ensures var p := Settle(stack, r);
            Finish(stack, r, s, isDouble) == if p.1.Some? then Done(p.1.value, s) else Resume(None, p.0, s, isDouble)
    decreases |stack|
  {
    if stack != [] {
      var n := |stack| - 1;
      var top := stack[n];
      if |top.items| == top.count - 1 {
        assert top.items + [r] + [] == top.items + [r];
        SettleMeans(stack[..n], Items(top.kind, top.items + [r]), s, isDouble);
      } else {
        NextItem(stack[..n], top.(items := top.items + [r]), s, isDouble);
        OneMore(stack, r, s, isDouble);
      }
    }
  }

  /** An open aggregate with elements still to come. */
  ghost function Rest(below: seq<Frame>, top: Frame, s: string, isDouble: DoubleTest): Parse
    requires FramesOk(below) && |top.items| < top.count
  {
    match ParseItems(top.count - |top.items|, s, isDouble)
    case SomeMore => More
    case SomeBad(fault) => Bad(fault)
    case AllDone(more, rest) => Finish(below, Items(top.kind, top.items + more), rest, isDouble)
  }

  lemma NextItem(below: seq<Frame>, top: Frame, s: string, isDouble: DoubleTest)
    requires FramesOk(below) && |top.items| < top.count
    ensures Resume(None, below + [top], s, isDouble) == Rest(below, top, s, isDouble)
  {
    var stack := below + [top];
    assert stack[..|stack| - 1] == below;
    var p := ParseReply(s, isDouble);
    if p.Done? {
      var q := ParseItems(top.count - |top.items| - 1, p.rest, isDouble);
      if q.AllDone? { assert top.items + [p.reply] + q.items == top.items + ([p.reply] + q.items); }
    }
  }

  lemma OneMore(stack: seq<Frame>, r: Reply, s: string, isDouble: DoubleTest)
    requires FramesOk(stack) && stack != [] && |stack[|stack| - 1].items| + 1 < stack[|stack| - 1].count
    ensures var n := |stack| - 1;
            Finish(stack, r, s, isDouble) == Rest(stack[..n], stack[n].(items := stack[n].items + [r]), s, isDouble)
  {
  }
}
