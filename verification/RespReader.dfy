/** The incremental reply reader: input arrives in chunks, replies are taken out as they complete. */
module RespReader {
  import opened Wrappers
  import opened StrictInteger
  import opened RespProtocol

  /** What reading one item does: go on with the next one, complete the reply, wait for input, or fail. */
  datatype Step =
    | Advanced(kind: Option<Kind>, stack: seq<Frame>, rest: string)
    | Completed(reply: Reply, rest: string)
    | Stalled(kind: Option<Kind>, rest: string)
    | Broken(fault: Fault)

  ghost function Settled(stack: seq<Frame>, r: Reply, rest: string): (st: Step)
    requires FramesOk(stack)
    ensures st.Advanced? || st.Completed?
  {
    var p := Settle(stack, r);
    if p.1.Some? then Completed(p.1.value, rest) else Advanced(None, p.0, rest)
  }

  ghost function StepTyped(kind: Kind, stack: seq<Frame>, s: string, isDouble: DoubleTest): Step
    requires FramesOk(stack)
  {
    if IsAggregate(kind) then
      match ParseHeader(kind, s)
      case NoHeader => Stalled(Some(kind), s)
      case BadHeader(fault) => Broken(fault)
      case NoItems(rest) => Settled(stack, Null, rest)
      case Count(n, rest) =>
        if n == 0 then Settled(stack, Items(kind, []), rest) else Advanced(None, stack + [Frame(kind, n, [])], rest)
    else
      match (if IsBulk(kind) then ParseBulk(kind, s) else ParseLine(kind, s, isDouble))
      case More => Stalled(Some(kind), s)
      case Bad(fault) => Broken(fault)
      case Done(r, rest) => Settled(stack, r, rest)
  }

  ghost function StepItem(kind: Option<Kind>, stack: seq<Frame>, s: string, isDouble: DoubleTest): Step
    requires FramesOk(stack)
  {
    if kind.Some? then StepTyped(kind.value, stack, s, isDouble)
    else if s == [] then Stalled(None, s)
    else if KindOf(s[0]) == None then Broken(BadType(s[0]))
    else StepTyped(KindOf(s[0]).value, stack, s[1..], isDouble)
  }

  /** What is left to parse after a step, with input `f` still to come. */
  ghost function Remaining(st: Step, stack: seq<Frame>, f: string, isDouble: DoubleTest): Parse
    requires FramesOk(stack) && (st.Advanced? ==> FramesOk(st.stack))
  {
    match st
    case Advanced(kind, now, rest) => Resume(kind, now, rest + f, isDouble)
    case Completed(r, rest) => Done(r, rest + f)
    case Stalled(kind, rest) => Resume(kind, stack, rest + f, isDouble)
    case Broken(fault) => Bad(fault)
  }

  lemma StepFrames(kind: Option<Kind>, stack: seq<Frame>, s: string, isDouble: DoubleTest)
    requires FramesOk(stack)
    ensures var st := StepItem(kind, stack, s, isDouble);
            (st.Advanced? ==> FramesOk(st.stack) && |st.rest| < |s|) && (st.Completed? ==> |st.rest| < |s|)
  {
    hide ParseBulk, ParseLine, ParseHeader, Settle;
  }

  ghost function AfterItems(kind: Kind, stack: seq<Frame>, q: ParseMany, isDouble: DoubleTest): Parse
    requires FramesOk(stack)
  {
    match q
    case AllDone(items, after) => Finish(stack, Items(kind, items), after, isDouble)
    case SomeMore => More
    case SomeBad(fault) => Bad(fault)
  }

  ghost function AfterHeader(kind: Kind, stack: seq<Frame>, h: Header, isDouble: DoubleTest): Parse
    requires FramesOk(stack)
  {
    match h
    case NoHeader => More
    case BadHeader(fault) => Bad(fault)
    case NoItems(rest) => Finish(stack, Null, rest, isDouble)
    case Count(n, rest) => AfterItems(kind, stack, ParseItems(n, rest, isDouble), isDouble)
  }

  /** Opening an aggregate leaves the same to parse. */
  lemma OpenMeans(kind: Kind, n: nat, stack: seq<Frame>, s: string, isDouble: DoubleTest)
    requires FramesOk(stack) && n > 0
    ensures Resume(None, stack + [Frame(kind, n, [])], s, isDouble) ==
            AfterItems(kind, stack, ParseItems(n, s, isDouble), isDouble)
  {
    hide Resume, Finish, ParseItems;
    NextItem(stack, Frame(kind, n, []), s, isDouble);
    var q := ParseItems(n, s, isDouble);
    if q.AllDone? { assert [] + q.items == q.items; }
  }

  lemma ResumeAggregate(kind: Kind, stack: seq<Frame>, s: string, isDouble: DoubleTest)
    requires FramesOk(stack) && IsAggregate(kind)
    ensures Resume(Some(kind), stack, s, isDouble) == AfterHeader(kind, stack, ParseHeader(kind, s), isDouble)
  {
    hide ParseHeader, Finish, ParseItems;
  }

  lemma AggregateMeans(kind: Kind, stack: seq<Frame>, s: string, f: string, isDouble: DoubleTest)
    requires FramesOk(stack) && IsAggregate(kind)
    ensures var st := StepTyped(kind, stack, s, isDouble);
            && (st.Advanced? ==> FramesOk(st.stack))
            && Resume(Some(kind), stack, s + f, isDouble) == Remaining(st, stack, f, isDouble)
  {
    var h := ParseHeader(kind, s);
    hide ParseHeader, Settle, Finish, ParseItems, Resume;
    if !h.NoHeader? {
      HeaderExtends(kind, s, f);
      ResumeAggregate(kind, stack, s + f, isDouble);
    }
    match h
    case NoHeader =>
    case BadHeader(_) =>
    case NoItems(rest) => SettleMeans(stack, Null, rest + f, isDouble);
    case Count(n, rest) =>
      if n == 0 {
        NoneLeft(rest + f, isDouble);
        SettleMeans(stack, Items(kind, []), rest + f, isDouble);
      } else {
        OpenMeans(kind, n, stack, rest + f, isDouble);
      }
  }

  lemma NoneLeft(s: string, isDouble: DoubleTest)
    ensures ParseItems(0, s, isDouble) == AllDone([], s)
  {
  }

  lemma ItemMeans(kind: Kind, stack: seq<Frame>, s: string, f: string, isDouble: DoubleTest)
    requires FramesOk(stack) && !IsAggregate(kind)
    ensures var st := StepTyped(kind, stack, s, isDouble);
            && (st.Advanced? ==> FramesOk(st.stack))
            && Resume(Some(kind), stack, s + f, isDouble) == Remaining(st, stack, f, isDouble)
  {
    hide ParseBulk, ParseLine, Settle, Finish, ParseReply, ParseItems, ParseHeader;
    var p := if IsBulk(kind) then ParseBulk(kind, s) else ParseLine(kind, s, isDouble);
    if !p.More? {
      if IsBulk(kind) { BulkExtends(kind, s, f); } else { LineExtends(kind, s, f, isDouble); }
      if p.Done? { SettleMeans(stack, p.reply, p.rest + f, isDouble); }
    }
  }

  /** A step decides nothing that more input could change. */
  lemma StepMeans(kind: Option<Kind>, stack: seq<Frame>, s: string, f: string, isDouble: DoubleTest)
    requires FramesOk(stack)
    ensures var st := StepItem(kind, stack, s, isDouble);
            && (st.Advanced? ==> FramesOk(st.stack))
            && Resume(kind, stack, s + f, isDouble) == Remaining(st, stack, f, isDouble)
  {
    hide StepTyped, Finish, ParseTyped;
    if kind.Some? {
      TypedMeans(kind.value, stack, s, f, isDouble);
    } else if s != [] {
      assert (s + f)[0] == s[0] && (s + f)[1..] == s[1..] + f;
      if KindOf(s[0]).Some? { TypedMeans(KindOf(s[0]).value, stack, s[1..], f, isDouble); }
    }
  }

  lemma TypedMeans(kind: Kind, stack: seq<Frame>, s: string, f: string, isDouble: DoubleTest)
    requires FramesOk(stack)
    ensures var st := StepTyped(kind, stack, s, isDouble);
            && (st.Advanced? ==> FramesOk(st.stack))
            && Resume(Some(kind), stack, s + f, isDouble) == Remaining(st, stack, f, isDouble)
  {
    hide StepTyped, Resume, Remaining;
    if IsAggregate(kind) { AggregateMeans(kind, stack, s, f, isDouble); }
      else { ItemMeans(kind, stack, s, f, isDouble); }
  }

  // ----- what a reader has read and what it still owes -----

  /** The replies still to come from a reader's state, given its unread input. */
  ghost function Owed(active: bool, kind: Option<Kind>, stack: seq<Frame>, s: string, isDouble: DoubleTest): Replies
    requires FramesOk(stack)
  {
    if !active then Stream(s, isDouble)
    else
      match Resume(kind, stack, s, isDouble)
      case Done(r, rest) => Prepend([r], Stream(rest, isDouble))
      case More => Replies([], Waiting)
      case Bad(fault) => Replies([], Failed(fault))
  }

  /** Whatever input follows, the replies taken out and those still owed are those of the whole input. */
  ghost predicate Tracks(fed: string, taken: seq<Reply>, active: bool, kind: Option<Kind>, stack: seq<Frame>, s: string,
                         isDouble: DoubleTest)
  {
    FramesOk(stack) &&
    forall f: string :: Prepend(taken, Owed(active, kind, stack, s + f, isDouble)) == Stream(fed + f, isDouble)
  }

  ghost predicate Fails(fed: string, taken: seq<Reply>, fault: Fault, isDouble: DoubleTest) {
    forall f: string :: Stream(fed + f, isDouble) == Replies(taken, Failed(fault))
  }

  lemma TracksFeed(fed: string, taken: seq<Reply>, active: bool, kind: Option<Kind>, stack: seq<Frame>, s: string,
                   chunk: string, isDouble: DoubleTest)
    requires Tracks(fed, taken, active, kind, stack, s, isDouble)
    ensures Tracks(fed + chunk, taken, active, kind, stack, s + chunk, isDouble)
  {
    hide Owed, Stream;
    forall f: string
      ensures Prepend(taken, Owed(active, kind, stack, s + chunk + f, isDouble)) == Stream(fed + chunk + f, isDouble)
    {
      assert s + chunk + f == s + (chunk + f) && fed + chunk + f == fed + (chunk + f);
    }
  }

  lemma TracksStart(fed: string, taken: seq<Reply>, s: string, isDouble: DoubleTest)
    requires Tracks(fed, taken, false, None, [], s, isDouble)
    ensures Tracks(fed, taken, true, None, [], s, isDouble)
  {
    forall f: string ensures Prepend(taken, Owed(true, None, [], s + f, isDouble)) == Stream(fed + f, isDouble) {
      assert Owed(true, None, [], s + f, isDouble) == Owed(false, None, [], s + f, isDouble);
    }
  }

  lemma TracksStep(fed: string, taken: seq<Reply>, kind: Option<Kind>, stack: seq<Frame>, s: string,
                   isDouble: DoubleTest)
    requires Tracks(fed, taken, true, kind, stack, s, isDouble)
    ensures match StepItem(kind, stack, s, isDouble)
            case Advanced(now, frames, rest) => Tracks(fed, taken, true, now, frames, rest, isDouble)
            case Stalled(now, rest) => Tracks(fed, taken, true, now, stack, rest, isDouble)
            case Completed(r, rest) => Tracks(fed, taken + [r], false, None, [], rest, isDouble)
            case Broken(fault) => Fails(fed, taken, fault, isDouble)
  {
    hide StepItem, Resume, Stream;
    StepMeans(kind, stack, s, "", isDouble);
    var st := StepItem(kind, stack, s, isDouble);
    forall f: string
      ensures Prepend(taken, Owed(true, kind, stack, s + f, isDouble)) == Stream(fed + f, isDouble)
      ensures Resume(kind, stack, s + f, isDouble) == Remaining(st, stack, f, isDouble)
    {
      StepMeans(kind, stack, s, f, isDouble);
    }
    match st
    case Advanced(now, frames, rest) =>
      forall f: string
        ensures Prepend(taken, Owed(true, now, frames, rest + f, isDouble)) == Stream(fed + f, isDouble) {
        assert Resume(kind, stack, s + f, isDouble) == Resume(now, frames, rest + f, isDouble);
      }
    case Stalled(now, rest) =>
      forall f: string ensures Prepend(taken, Owed(true, now, stack, rest + f, isDouble)) == Stream(fed + f, isDouble) {
        assert Resume(kind, stack, s + f, isDouble) == Resume(now, stack, rest + f, isDouble);
      }
    case Completed(r, rest) =>
      forall f: string
        ensures Prepend(taken + [r], Owed(false, None, [], rest + f, isDouble)) == Stream(fed + f, isDouble) {
        assert Resume(kind, stack, s + f, isDouble) == Done(r, rest + f);
        var more := Stream(rest + f, isDouble);
        assert taken + ([r] + more.replies) == taken + [r] + more.replies;
      }
    case Broken(fault) =>
      forall f: string ensures Stream(fed + f, isDouble) == Replies(taken, Failed(fault)) {
        assert Resume(kind, stack, s + f, isDouble) == Bad(fault);
        assert taken + [] == taken;
      }
  }

  lemma StalledWaits(kind: Option<Kind>, stack: seq<Frame>, s: string, isDouble: DoubleTest)
    requires FramesOk(stack) && StepItem(kind, stack, s, isDouble).Stalled?
    ensures Resume(kind, stack, s, isDouble) == More
  {
    hide StepTyped, Finish, ParseTyped;
    if kind.Some? {
      TypedStalled(kind.value, stack, s, isDouble);
    } else if s != [] {
      TypedStalled(KindOf(s[0]).value, stack, s[1..], isDouble);
    }
  }

  lemma TypedStalled(kind: Kind, stack: seq<Frame>, s: string, isDouble: DoubleTest)
    requires FramesOk(stack) && StepTyped(kind, stack, s, isDouble).Stalled?
    ensures ParseTyped(kind, s, isDouble) == More
  {
    hide ParseBulk, ParseLine, ParseHeader;
  }

  // ----- the reader -----

  /** Finds the end of the first line. */
  method SeekNewline(s: string) returns (r: Option<nat>)
    ensures r == CrLf(s)
  {
    hide Later;
    var pos := 0;
    LaterStart(s);
    while pos + 1 < |s|
      invariant 0 <= pos <= |s| && Later(s, pos)
    {
      while pos + 1 < |s| && s[pos] != '\r'
        invariant 0 <= pos <= |s| && Later(s, pos)
        decreases |s| - pos
      {
        LaterStep(s, pos);
        pos := pos + 1;
      }
      if pos + 1 >= |s| { LaterEnd(s, pos); return None; }
      if s[pos + 1] == '\n' { LaterEnd(s, pos); return Some(pos); }
      LaterStep(s, pos);
      pos := pos + 1;
    }
    LaterEnd(s, pos);
    return None;
  }

  lemma LaterStart(s: string)
    ensures Later(s, 0)
  {
    assert s[0..] == s;
  }

  lemma LaterStep(s: string, pos: nat)
    requires pos + 1 < |s| && Later(s, pos) && !(s[pos] == '\r' && s[pos + 1] == '\n')
    ensures Later(s, pos + 1)
  {
    assert s[pos..][1..] == s[pos + 1..] && s[pos..][0] == s[pos] && s[pos..][1] == s[pos + 1];
  }

  lemma LaterEnd(s: string, pos: nat)
    requires pos <= |s| && Later(s, pos)
    requires pos + 1 >= |s| || (s[pos] == '\r' && s[pos + 1] == '\n')
    ensures CrLf(s) == if pos + 1 >= |s| then None else Some(pos)
  {
    if pos + 1 < |s| { assert s[pos..][0] == s[pos] && s[pos..][1] == s[pos + 1]; }
  }

  /** The search may go on from a position. */
  ghost predicate Later(s: string, pos: nat)
    requires pos <= |s|
  {
    CrLf(s) == match CrLf(s[pos..])
                  case None => None
                  case Some(i) => Some(pos + i)
  }

  class Reader {
    const isDouble: DoubleTest
    var buf: string
    var pos: nat
    var fault: Option<Fault>
    var active: bool
    var kind: Option<Kind>
    var stack: seq<Frame>
    var root: Option<Reply>
    ghost var fed: string
    ghost var taken: seq<Reply>

    ghost predicate Shape()
      reads this
    {
      pos <= |buf| && FramesOk(stack) && (!active ==> kind == None && stack == [])
    }

    /** The replies taken out and those owed are those of all the input fed, whatever follows; after an
        error, nothing can follow. */
    ghost predicate Valid()
      reads this
    {
      && Shape()
      && (fault.None? ==> Tracks(fed, taken, active, kind, stack, buf[pos..], isDouble))
      && (fault.Some? ==> Fails(fed, taken, fault.value, isDouble))
    }

    constructor (isDouble: DoubleTest)
      ensures Valid() && fed == "" && taken == [] && fault == None && this.isDouble == isDouble
    {
      this.isDouble := isDouble;
      buf, pos, fault, active, kind, stack, root, fed, taken := "", 0, None, false, None, [], None, "", [];
      new;
      forall f: string ensures Prepend([], Owed(false, None, [], "" + f, isDouble)) == Stream("" + f, isDouble) {
        assert [] + Stream("" + f, isDouble).replies == Stream("" + f, isDouble).replies;
      }
      assert buf[pos..] == "";
    }

    /** Hands over more input; refused after an error. */
    method Feed(chunk: string) returns (ok: bool)
      requires Valid()
      modifies this
      ensures Valid() && taken == old(taken) && fault == old(fault)
      ensures ok <==> old(fault).None?
      ensures fed == if ok then old(fed) + chunk else old(fed)
    {
      if fault.Some? { return false; }
      TracksFeed(fed, taken, active, kind, stack, buf[pos..], chunk, isDouble);
      assert (buf + chunk)[pos..] == buf[pos..] + chunk;
      buf := buf + chunk;
      fed := fed + chunk;
      return true;
    }

    /** The state a step leads to. */
    ghost predicate Reached(st: Step, before: seq<Frame>)
      reads this
    {
      && pos <= |buf|
      && match st
         case Advanced(k, frames, rest) => fault == None && active && kind == k && stack == frames && buf[pos..] == rest
         case Completed(r, rest) => fault == None && !active && kind == None && stack == [] && root == Some(r)
           && buf[pos..] == rest
         case Stalled(k, rest) => fault == None && active && kind == k && stack == before && buf[pos..] == rest
         case Broken(f) => fault == Some(f) && stack == before && active
    }

    /** Takes a completed item into account: closes the aggregates it completes. */
    method MoveToNextTask(r: Reply)
      requires Shape() && active && fault == None
      modifies this`active, this`kind, this`stack, this`root
      ensures Reached(Settled(old(stack), r, buf[pos..]), old(stack))
    {
      var item := r;
      while stack != []
        invariant FramesOk(stack) && active && Settle(stack, item) == Settle(old(stack), r)
        decreases |stack|
      {
        var n := |stack| - 1;
        var top := stack[n];
        if |top.items| == top.count - 1 {
          item := Items(top.kind, top.items + [item]);
          stack := stack[..n];
        } else {
          stack := stack[..n] + [top.(items := top.items + [item])];
          kind := None;
          return;
        }
      }
      active, kind, root := false, None, Some(item);
    }

    method ReadLine() returns (line: Option<string>)
      requires Shape()
      modifies this`pos
      ensures old(pos) <= pos <= |buf|
      ensures var n := CrLf(old(buf[pos..]));
              if n.None? then line == None && pos == old(pos)
              else line == Some(old(buf[pos..])[..n.value]) && buf[pos..] == old(buf[pos..])[n.value + 2..]
    {
      var n := SeekNewline(buf[pos..]);
      if n == None { return None; }
      line := Some(buf[pos..][..n.value]);
      assert buf[pos..][n.value + 2..] == buf[pos + n.value + 2..];
      pos := pos + n.value + 2;
    }

    method ProcessLine() returns (ok: bool)
      requires Shape() && active && fault == None && kind.Some? && !IsAggregate(kind.value) && !IsBulk(kind.value)
      modifies this
      ensures buf == old(buf) && fed == old(fed) && taken == old(taken) && old(pos) <= pos
      ensures var st := StepTyped(old(kind).value, old(stack), old(buf[pos..]), isDouble);
              Reached(st, old(stack)) && ok == (st.Advanced? || st.Completed?)
    {
      hide CrLf, Settled, ParseHeader, ParseBulk, Printed;
      var line := ReadLine();
      if line == None { return false; }
      var reply;
      if kind.value == Integer {
        var v := StringToLongLong(line.value);
        if v == None { fault := Some(BadInteger); return false; }
        reply := Number(v.value);
      } else if kind.value == Double {
        if |line.value| >= DOUBLE_SIZE { fault := Some(LongDouble); return false; }
        if !isDouble(line.value) { fault := Some(BadDouble); return false; }
        reply := Real(line.value);
      } else if kind.value == Nil {
        reply := Null;
      } else if kind.value == Bool {
        reply := Flag(line.value != [] && (line.value[0] == 't' || line.value[0] == 'T'));
      } else {
        reply := Text(kind.value, line.value);
      }
      MoveToNextTask(reply);
      return true;
    }

    /** A bulk item at the head of the input, if it is all there. */
    method ReadBulk(s: string) returns (r: Parse, bytelen: nat)
      requires kind.Some?
      ensures r == ParseBulk(kind.value, s)
      ensures r.Done? ==> bytelen <= |s| && r.rest == s[bytelen..]
    {
      hide CrLf, Printed;
      bytelen := 0;
      var n := SeekNewline(s);
      if n == None { return More, 0; }
      var len := StringToLongLong(s[..n.value]);
      if len == None { return Bad(BadBulkLength), 0; }
      if len.value < -1 { return Bad(BulkRange), 0; }
      bytelen := n.value + 2;
      if len.value == -1 { return Done(Null, s[bytelen..]), bytelen; }
      bytelen := bytelen + len.value + 2;
      if bytelen > |s| { return More, 0; }
      var body := s[n.value + 2..n.value + 2 + len.value];
      if kind.value == Verb {
        if len.value < 4 || s[n.value + 5] != ':' { return Bad(BadVerbatim), 0; }
        return Done(Verbatim(body[..3], body[4..]), s[bytelen..]), bytelen;
      }
      return Done(Text(kind.value, body), s[bytelen..]), bytelen;
    }

    method ProcessBulk() returns (ok: bool)
      requires Shape() && active && fault == None && kind.Some? && IsBulk(kind.value)
      modifies this
      ensures buf == old(buf) && fed == old(fed) && taken == old(taken) && old(pos) <= pos
      ensures var st := StepTyped(old(kind).value, old(stack), old(buf[pos..]), isDouble);
              Reached(st, old(stack)) && ok == (st.Advanced? || st.Completed?)
    {
      hide ParseBulk, ParseHeader, ParseLine, Settled;
      var r, bytelen := ReadBulk(buf[pos..]);
      if r.More? { return false; }
      if r.Bad? { fault := Some(r.fault); return false; }
      assert buf[pos + bytelen..] == buf[pos..][bytelen..];
      pos := pos + bytelen;
      MoveToNextTask(r.reply);
      return true;
    }

    method ProcessAggregate() returns (ok: bool)
      requires Shape() && active && fault == None && kind.Some? && IsAggregate(kind.value)
      modifies this
      ensures buf == old(buf) && fed == old(fed) && taken == old(taken) && old(pos) <= pos
      ensures var st := StepTyped(old(kind).value, old(stack), old(buf[pos..]), isDouble);
              Reached(st, old(stack)) && ok == (st.Advanced? || st.Completed?)
    {
      hide CrLf, ParseBulk, ParseLine, Printed;
      var line := ReadLine();
      if line == None { return false; }
      var elements := StringToLongLong(line.value);
      if elements == None { fault := Some(BadCount); return false; }
      if elements.value < -1 || elements.value > MAX_ELEMENTS { fault := Some(CountRange); return false; }
      if elements.value == -1 {
        MoveToNextTask(Null);
      } else {
        var n := if kind.value == Map then elements.value * 2 else elements.value;
        if n > 0 {
          stack := stack + [Frame(kind.value, n, [])];
          kind := None;
        } else {
          MoveToNextTask(Items(kind.value, []));
        }
      }
      return true;
    }

    /** Reads the type of the current item, unless known, and then the item. */
    method ProcessItem() returns (ok: bool)
      requires Shape() && active && fault == None
      modifies this
      ensures buf == old(buf) && fed == old(fed) && taken == old(taken) && old(pos) <= pos
      ensures var st := StepItem(old(kind), old(stack), old(buf[pos..]), isDouble);
              Reached(st, old(stack)) && ok == (st.Advanced? || st.Completed?)
    {
      hide StepTyped, CrLf;
      if kind == None {
        if pos == |buf| { return false; }
        var c := buf[pos];
        assert buf[pos..][0] == c && buf[pos..][1..] == buf[pos + 1..];
        pos := pos + 1;
        kind := KindOf(c);
        if kind == None { fault := Some(BadType(c)); return false; }
      }
      if IsAggregate(kind.value) {
        ok := ProcessAggregate();
      } else if IsBulk(kind.value) {
        ok := ProcessBulk();
      } else {
        ok := ProcessLine();
      }
    }

    /** Reads items until the reply is complete, the input is used up, or an error is found; hands out the
        reply.  Nothing handed out means that every complete reply of the input has been taken. */
    method GetReply() returns (ok: bool, reply: Option<Reply>)
      requires Valid()
      modifies this
      ensures Valid() && fed == old(fed)
      ensures ok <==> fault.None?
      ensures old(fault).Some? ==> fault == old(fault)
      ensures taken == old(taken) + if reply.Some? then [reply.value] else []
      ensures pos <= |buf| && |buf[pos..]| <= |old(buf[pos..])|
      ensures reply.Some? ==> ok && |buf[pos..]| < |old(buf[pos..])|
      ensures ok && reply.None? ==> Stream(fed, isDouble) == Replies(taken, Waiting)
      ensures !ok ==> Stream(fed, isDouble) == Replies(taken, Failed(fault.value))
    {
      reply := None;
      hide StepItem, Stream, Owed;
      if fault.Some? {
        FailsNow(fed, taken, fault.value, isDouble);
        return false, None;
      }
      if |buf| == 0 {
        NothingOwed(fed, taken, active, kind, stack, isDouble);
        return true, None;
      }
      if !active {
        TracksStart(fed, taken, buf[pos..], isDouble);
        active, kind, stack := true, None, [];
      }
      root := None;
      ok := ProcessItems();
      if fault.Some? {
        FailsNow(fed, taken, fault.value, isDouble);
        return false, None;
      }
      if pos >= 1024 {
        assert buf[pos..][0..] == buf[pos..];
        buf := buf[pos..];
        pos := 0;
      }
      if !active {
        reply := root;
        root := None;
      } else {
        WaitingNow(fed, taken, kind, stack, buf[pos..], isDouble);
      }
      ok := true;
    }

    /** The processing loop. */
    method ProcessItems() returns (ok: bool)
      requires Shape() && active && fault == None && root == None
      requires Tracks(fed, taken, true, kind, stack, buf[pos..], isDouble)
      modifies this
      ensures Valid() && fed == old(fed) && buf == old(buf) && |buf[pos..]| <= |old(buf[pos..])|
      ensures fault.None? && !active ==>
                root.Some? && taken == old(taken) + [root.value] && |buf[pos..]| < |old(buf[pos..])|
      ensures fault.None? && active ==> taken == old(taken) && Resume(kind, stack, buf[pos..], isDouble) == More
      ensures fault.Some? ==> taken == old(taken)
    {
      hide StepItem, Tracks, Fails, Resume;
      ok := true;
      while active
        invariant Shape() && fault == None && fed == old(fed) && buf == old(buf)
        invariant |buf[pos..]| <= |old(buf[pos..])|
        invariant active ==> taken == old(taken) && Tracks(fed, taken, true, kind, stack, buf[pos..], isDouble)
        invariant !active ==> root.Some? && taken == old(taken) + [root.value] && |buf[pos..]| < |old(buf[pos..])| &&
                              Tracks(fed, taken, false, None, [], buf[pos..], isDouble)
        decreases active, |buf| - pos
      {
        ghost var k, frames, rest := kind, stack, buf[pos..];
        TracksStep(fed, taken, kind, stack, buf[pos..], isDouble);
        StepFrames(kind, stack, buf[pos..], isDouble);
        ok := ProcessItem();
        ghost var st := StepItem(k, frames, rest, isDouble);
        if !ok {
          if st.Stalled? { StalledIsStable(k, frames, rest, isDouble); }
          return;
        }
        if st.Completed? { taken := taken + [st.reply]; }
      }
    }
  }

  lemma StalledIsStable(kind: Option<Kind>, stack: seq<Frame>, s: string, isDouble: DoubleTest)
    requires FramesOk(stack) && StepItem(kind, stack, s, isDouble).Stalled?
    ensures var st := StepItem(kind, stack, s, isDouble);
            Resume(st.kind, stack, st.rest, isDouble) == More
  {
    StepMeans(kind, stack, s, "", isDouble);
    StalledWaits(kind, stack, s, isDouble);
    hide StepItem, Resume;
    assert s + "" == s;
    var st := StepItem(kind, stack, s, isDouble);
    assert st.rest + "" == st.rest;
  }

  lemma FailsNow(fed: string, taken: seq<Reply>, fault: Fault, isDouble: DoubleTest)
    requires Fails(fed, taken, fault, isDouble)
    ensures Stream(fed, isDouble) == Replies(taken, Failed(fault))
  {
    assert fed + "" == fed;
  }

  lemma WaitingNow(fed: string, taken: seq<Reply>, kind: Option<Kind>, stack: seq<Frame>, s: string,
                   isDouble: DoubleTest)
    requires Tracks(fed, taken, true, kind, stack, s, isDouble) && Resume(kind, stack, s, isDouble) == More
    ensures Stream(fed, isDouble) == Replies(taken, Waiting)
  {
    assert fed + "" == fed && s + "" == s && taken + [] == taken;
    assert Prepend(taken, Owed(true, kind, stack, s + "", isDouble)) == Stream(fed + "", isDouble);
  }

  lemma NothingOwed(fed: string, taken: seq<Reply>, active: bool, kind: Option<Kind>, stack: seq<Frame>,
                    isDouble: DoubleTest)
    requires Tracks(fed, taken, active, kind, stack, "", isDouble)
    ensures Stream(fed, isDouble) == Replies(taken, Waiting)
  {
    assert fed + "" == fed && "" + "" == "" && taken + [] == taken;
    assert Prepend(taken, Owed(active, kind, stack, "" + "", isDouble)) == Stream(fed + "", isDouble);
    assert ParseReply("", isDouble) == More;
    if kind.Some? { NothingTyped(kind.value, isDouble); }
    assert Owed(active, kind, stack, "", isDouble) == Replies([], Waiting);
  }

  lemma NothingTyped(kind: Kind, isDouble: DoubleTest)
    ensures ParseTyped(kind, "", isDouble) == More
  {
    assert CrLf("") == None;
  }

  // ----- any chunking -----

  function Concat(chunks: seq<string>): string {
    if chunks == [] then "" else Concat(chunks[..|chunks| - 1]) + chunks[|chunks| - 1]
  }

  /** Takes out every complete reply. */
  method Drain(r: Reader) returns (replies: seq<Reply>)
    requires r.Valid()
    modifies r
    ensures r.Valid() && r.fed == old(r.fed) && r.taken == old(r.taken) + replies
    ensures Stream(r.fed, r.isDouble) == Replies(r.taken, if r.fault.Some? then Failed(r.fault.value) else Waiting)
    ensures old(r.fault).Some? ==> r.fault == old(r.fault)
  {
    hide Stream, Reader.Valid;
    replies := [];
    var ok, reply := r.GetReply();
    while reply.Some?
      invariant r.Valid() && r.fed == old(r.fed)
      invariant r.taken == old(r.taken) + replies + if reply.Some? then [reply.value] else []
      invariant reply.None? ==>
                  Stream(r.fed, r.isDouble) == Replies(r.taken, if r.fault.Some? then Failed(r.fault.value)
                    else Waiting)
      invariant old(r.fault).Some? ==> r.fault == old(r.fault)
      invariant r.pos <= |r.buf|
      decreases |r.buf[r.pos..]|, reply.Some?
    {
      replies := replies + [reply.value];
      ok, reply := r.GetReply();
    }
  }

  /** Feeding a stream in any chunks yields the replies, or the replies and the first error, of the whole. */
  method ReadChunks(chunks: seq<string>, isDouble: DoubleTest) returns (replies: seq<Reply>, end: End)
    ensures Replies(replies, end) == Stream(Concat(chunks), isDouble)
  {
    hide Stream, Reader.Valid;
    var r := new Reader(isDouble);
    replies := [];
    var i := 0;
    assert chunks[..0] == [];
    EmptyStream(isDouble);
    while i < |chunks|
      invariant 0 <= i <= |chunks| && r.Valid() && r.isDouble == isDouble && r.taken == replies && fresh(r)
      invariant r.fed <= Concat(chunks[..i]) && (r.fault.None? ==> r.fed == Concat(chunks[..i]))
      invariant Stream(Concat(chunks[..i]), isDouble) == Replies(replies, if r.fault.Some? then Failed(r.fault.value)
                else Waiting)
    {
      assert chunks[..i + 1][..i] == chunks[..i];
      var ok := r.Feed(chunks[i]);
      var more := Drain(r);
      replies := replies + more;
      i := i + 1;
      if r.fault.Some? { FailsForGood(r, Concat(chunks[..i])); }
    }
    assert chunks[..i] == chunks;
    end := if r.fault.Some? then Failed(r.fault.value) else Waiting;
  }

  lemma EmptyStream(isDouble: DoubleTest)
    ensures Stream("", isDouble) == Replies([], Waiting)
  {
  }

  lemma FailsForGood(r: Reader, whole: string)
    requires r.Valid() && r.fault.Some? && r.fed <= whole
    ensures Stream(whole, r.isDouble) == Replies(r.taken, Failed(r.fault.value))
  {
    assert whole == r.fed + whole[|r.fed|..];
  }
}
