/** Shard groups as text: one value to a line, and lists of groups framed by their lengths. */
module ShardText {
  import opened Wrappers
  import opened Decimal
  import opened FileIO
  import opened SlotMaps

  const ID_LEN := 32
  const NODE_ID_LEN := 40
  const HOST_SIZE := 256
  const PORT_SIZE := 32
  const UINT: int := 0x1_0000_0000

  // ----- writing -----

  function KindCode(kind: Kind): nat {
    match kind
    case Stable => 1
    case Importing => 2
    case Migrating => 3
    case Unknown => 0
  }

  function KindOfCode(code: nat): Kind {
    if code == 1 then Stable else if code == 2 then Importing else if code == 3 then Migrating else Unknown
  }

  function NumberLine(n: nat): string { Digits(n) + "\n" }

  function RangeText(r: SlotRange): string
    requires RangeFits(r)
  {
    NumberLine(r.start) + NumberLine(r.end) + NumberLine(KindCode(r.kind)) + NumberLine(r.session)
  }

  function AddrText(n: Node): string { n.host + ":" + Digits(n.port) }

  function NodeText(n: Node): string { n.id + "\n" + AddrText(n) + "\n" }

  function RangesText(rs: seq<SlotRange>): string
    requires forall i | 0 <= i < |rs| :: RangeFits(rs[i])
  {
    if rs == [] then "" else RangeText(rs[0]) + RangesText(rs[1..])
  }

  function NodesText(ns: seq<Node>): string {
    if ns == [] then "" else NodeText(ns[0]) + NodesText(ns[1..])
  }

  function GroupText(g: ShardGroup): string
    requires GroupFits(g)
  {
    g.id + "\n" + NumberLine(|g.ranges|) + NumberLine(|g.nodes|) + RangesText(g.ranges) + NodesText(g.nodes)
  }

  // ----- what a group may contain -----

  predicate RangeFits(r: SlotRange) {
    0 <= r.start < UINT && 0 <= r.end < UINT && 0 <= r.session <= ULONG_MAX && r.kind != Unknown
  }

  /** A C string of one line. */
  predicate Plain(s: string) { '\n' !in s && '\0' !in s }

  /** Hosts may contain colons. */
  predicate NodeFits(n: Node) {
    |n.id| <= NODE_ID_LEN && Plain(n.id) && |n.host| < HOST_SIZE && Plain(n.host) && 1 <= n.port <= 65535
  }

  predicate GroupFits(g: ShardGroup) {
    && |g.id| <= ID_LEN && Plain(g.id) && |g.ranges| < UINT && |g.nodes| < UINT
    && (forall i | 0 <= i < |g.ranges| :: RangeFits(g.ranges[i]))
    && (forall i | 0 <= i < |g.nodes| :: NodeFits(g.nodes[i]))
  }

  // ----- reading: a value and what follows it, a rejected text, or a failed assertion -----

  datatype Read<+T> = Got(value: T, rest: string) | Rejected | Panic

  function LineEnd(s: string): (r: Option<nat>)
    ensures r.Some? ==> r.value < |s| && s[r.value] == '\n'
  {
    if Newline(s) < |s| then Some(Newline(s)) else None
  }

  function ReadLine(s: string): (r: Read<string>)
    ensures r.Got? ==> |r.rest| < |s|
  {
    match LineEnd(s)
    case None => Rejected
    case Some(n) => Got(s[..n], s[n + 1..])
  }

  /** The result of strtoul: negation and overflow as in C. */
  function Unsigned(v: int): nat { if v > ULONG_MAX || v < -ULONG_MAX then ULONG_MAX else v % (ULONG_MAX + 1) }

  /** strtoul, with the assertion that it stops at the end of the line. */
  function ReadNumber(s: string): (r: Read<nat>)
    ensures r.Got? ==> |r.rest| < |s| && r.value <= ULONG_MAX
  {
    match LineEnd(s)
    case None => Rejected
    case Some(n) =>
      match ScanNumber(s, 10)
      case NotANumber => if n == 0 then Got(0, s[1..]) else Panic
      case Number(v, end) => if end == n then Got(Unsigned(v), s[n + 1..]) else Panic
  }

  /** The last colon. */
  function Colon(s: string): (r: Option<nat>)
    ensures r.Some? ==> r.value < |s| && s[r.value] == ':'
  {
    if s == [] then None
    else if s[|s| - 1] == ':' then Some(|s| - 1)
    else Colon(s[..|s| - 1])
  }

  /** Host and port; an overlong host is cut. */
  function ParseAddr(s: string): Option<(string, nat)> {
    match Colon(s)
    case None => None
    case Some(c) =>
      var port := s[c + 1..];
      if |port| >= PORT_SIZE || port == [] then None
      else
        match ScanNumber(port, 10)
        case NotANumber => None
        case Number(v, end) =>
          if end != |port| || Unsigned(v) < 1 || Unsigned(v) > 65535 then None
          else Some((if c >= HOST_SIZE then s[..HOST_SIZE - 1] else s[..c], Unsigned(v)))
  }

  function ReadRange(s: string): Read<SlotRange> {
    match ReadNumber(s)
    case Rejected => Rejected
    case Panic => Panic
    case Got(start, s1) =>
      match ReadNumber(s1)
      case Rejected => Rejected
      case Panic => Panic
      case Got(end, s2) =>
        match ReadNumber(s2)
        case Rejected => Rejected
        case Panic => Panic
        case Got(code, s3) =>
          match ReadNumber(s3)
          case Rejected => Rejected
          case Panic => Panic
          case Got(session, s4) => Got(SlotRange(start % UINT, end % UINT, KindOfCode(code % UINT), session), s4)
  }

  function ReadNode(s: string): Read<Node> {
    match ReadLine(s)
    case Panic => Panic
    case Rejected => Rejected
    case Got(id, s1) =>
      if |id| > NODE_ID_LEN then Rejected
      else
        match ReadLine(s1)
        case Panic => Panic
        case Rejected => Rejected
        case Got(addr, s2) =>
          match ParseAddr(addr)
          case None => Rejected
          case Some((host, port)) => Got(Node(id, host, port), s2)
  }

  function ReadRanges(s: string, n: nat): Read<seq<SlotRange>>
    decreases n
  {
    if n == 0 then Got([], s)
    else
      match ReadRange(s)
      case Rejected => Rejected
      case Panic => Panic
      case Got(r, rest) =>
        match ReadRanges(rest, n - 1)
        case Rejected => Rejected
        case Panic => Panic
        case Got(rs, after) => Got([r] + rs, after)
  }

  function ReadNodes(s: string, n: nat): Read<seq<Node>>
    decreases n
  {
    if n == 0 then Got([], s)
    else
      match ReadNode(s)
      case Rejected => Rejected
      case Panic => Panic
      case Got(r, rest) =>
        match ReadNodes(rest, n - 1)
        case Rejected => Rejected
        case Panic => Panic
        case Got(rs, after) => Got([r] + rs, after)
  }

  function ReadGroup(s: string): Read<ShardGroup> {
    match ReadLine(s)
    case Panic => Panic
    case Rejected => Rejected
    case Got(id, s1) =>
      if |id| > ID_LEN then Rejected
      else
        match ReadNumber(s1)
        case Rejected => Rejected
        case Panic => Panic
        case Got(ranges, s2) =>
          match ReadNumber(s2)
          case Rejected => Rejected
          case Panic => Panic
          case Got(nodes, s3) =>
            match ReadRanges(s3, ranges % UINT)
            case Rejected => Rejected
            case Panic => Panic
            case Got(rs, s4) =>
              match ReadNodes(s4, nodes % UINT)
              case Rejected => Rejected
              case Panic => Panic
              case Got(ns, rest) => Got(ShardGroup(id, rs, ns), rest)
  }

  // ----- reading back -----

  lemma LineEndAfter(line: string, t: string)
    requires '\n' !in line
    ensures LineEnd(line + "\n" + t) == Some(|line|)
  {
    NewlineAfter(line, "\n" + t);
    assert line + ("\n" + t) == line + "\n" + t;
  }

  lemma LineReadsBack(line: string, t: string)
    requires '\n' !in line
    ensures ReadLine(line + "\n" + t) == Got(line, t)
  {
    LineEndAfter(line, t);
    hide LineEnd;
    var s := line + "\n" + t;
    assert s[..|line|] == line && s[|line| + 1..] == t;
  }

  lemma DigitsHaveNo(n: nat, c: char)
    requires !IsDigit(c)
    ensures c !in Digits(n)
  {
    DigitsShape(n);
  }

  lemma UnsignedSmall(v: int)
    requires 0 <= v <= ULONG_MAX
    ensures Unsigned(v) == v
  {
  }

  lemma NumberReadsBack(n: nat, t: string)
    requires n <= ULONG_MAX
    ensures ReadNumber(NumberLine(n) + t) == Got(n, t)
  {
    hide LineEnd, ScanNumber, Digits, Unsigned;
    var d := Digits(n);
    var s := NumberLine(n) + t;
    DigitsHaveNo(n, '\n');
    LineEndAfter(d, t);
    assert s == Dec(n) + ("\n" + t);
    ScanPrinted(n, "\n" + t, 10);
    UnsignedSmall(n);
    assert s[|d| + 1..] == t;
  }

  lemma RangeReadsBack(r: SlotRange, t: string)
    requires RangeFits(r)
    ensures ReadRange(RangeText(r) + t) == Got(r, t)
  {
    hide NumberLine, ReadNumber;
    var a, b, c, d := NumberLine(r.start), NumberLine(r.end), NumberLine(KindCode(r.kind)), NumberLine(r.session);
    var t3 := d + t;
    var t2 := c + t3;
    var t1 := b + t2;
    assert RangeText(r) + t == a + t1;
    NumberReadsBack(r.start, t1);
    NumberReadsBack(r.end, t2);
    NumberReadsBack(KindCode(r.kind), t3);
    NumberReadsBack(r.session, t);
  }

  lemma {:induction false} ColonBefore(host: string, port: string)
    requires ':' !in port
    ensures Colon(host + ":" + port) == Some(|host|)
    decreases |port|
  {
    var s := host + ":" + port;
    if port != [] {
      var n := |port| - 1;
      assert s[|s| - 1] == port[n] && port[n] in port;
      assert s[..|s| - 1] == host + ":" + port[..n];
      ColonBefore(host, port[..n]);
    }
  }

  lemma PortLength(n: nat)
    requires n <= 65535
    ensures |Digits(n)| <= 5
  {
    assert Pow10(5) == 100000;
    DigitsLength(n, 5);
  }

  lemma AddrParts(host: string, port: string)
    ensures var s := host + ":" + port; s[|host| + 1..] == port && s[..|host|] == host
  {
  }

  /** A host with any colons of its own reads back. */
  lemma AddrReadsBack(n: Node)
    requires NodeFits(n)
    ensures ParseAddr(AddrText(n)) == Some((n.host, n.port))
  {
    hide Colon, ScanNumber, Digits, Unsigned;
    var port := Digits(n.port);
    DigitsHaveNo(n.port, ':');
    ColonBefore(n.host, port);
    PortLength(n.port);
    DigitsShape(n.port);
    ScanPrinted(n.port, "", 10);
    UnsignedSmall(n.port);
    assert port + "" == port;
    AddrParts(n.host, port);
    ParsedAddr(AddrText(n), n.host, port, n.port);
  }

  lemma ParsedAddr(s: string, host: string, port: string, v: nat)
    requires |host| < |s| && Colon(s) == Some(|host|) && s[|host| + 1..] == port && s[..|host|] == host
    requires 0 < |port| < PORT_SIZE && |host| < HOST_SIZE && ScanNumber(port, 10) == Number(v, |port|)
    requires Unsigned(v) == v && 1 <= v <= 65535
    ensures ParseAddr(s) == Some((host, v))
  {
    hide Colon, ScanNumber, Unsigned;
  }

  lemma NodeReadsBack(n: Node, t: string)
    requires NodeFits(n)
    ensures ReadNode(NodeText(n) + t) == Got(n, t)
  {
    hide ReadLine, ParseAddr;
    var t1 := AddrText(n) + "\n" + t;
    assert NodeText(n) + t == n.id + "\n" + t1;
    LineReadsBack(n.id, t1);
    DigitsHaveNo(n.port, '\n');
    assert '\n' !in AddrText(n);
    LineReadsBack(AddrText(n), t);
    AddrReadsBack(n);
  }

  lemma {:induction false} RangesReadBack(rs: seq<SlotRange>, t: string)
    requires forall i | 0 <= i < |rs| :: RangeFits(rs[i])
    ensures ReadRanges(RangesText(rs) + t, |rs|) == Got(rs, t)
    decreases |rs|
  {
    hide RangeText, ReadRange;
    if rs == [] {
      assert RangesText(rs) + t == t;
    } else {
      var rest := RangesText(rs[1..]) + t;
      assert RangesText(rs) + t == RangeText(rs[0]) + rest;
      RangeReadsBack(rs[0], rest);
      RangesReadBack(rs[1..], t);
      assert rs == [rs[0]] + rs[1..];
    }
  }

  lemma {:induction false} NodesReadBack(ns: seq<Node>, t: string)
    requires forall i | 0 <= i < |ns| :: NodeFits(ns[i])
    ensures ReadNodes(NodesText(ns) + t, |ns|) == Got(ns, t)
    decreases |ns|
  {
    hide NodeText, ReadNode;
    if ns == [] {
      assert NodesText(ns) + t == t;
    } else {
      var rest := NodesText(ns[1..]) + t;
      assert NodesText(ns) + t == NodeText(ns[0]) + rest;
      NodeReadsBack(ns[0], rest);
      NodesReadBack(ns[1..], t);
      assert ns == [ns[0]] + ns[1..];
    }
  }

  /** Deserializing a serialized group gives it back. */
  lemma GroupReadsBack(g: ShardGroup, t: string)
    requires GroupFits(g)
    ensures ReadGroup(GroupText(g) + t) == Got(g, t)
  {
    hide NumberLine, RangesText, NodesText, ReadLine, ReadNumber, ReadRanges, ReadNodes;
    var t3 := NodesText(g.nodes) + t;
    var t2 := RangesText(g.ranges) + t3;
    var t1 := NumberLine(|g.nodes|) + t2;
    var t0 := NumberLine(|g.ranges|) + t1;
    assert GroupText(g) + t == g.id + "\n" + t0;
    LineReadsBack(g.id, t0);
    NumberReadsBack(|g.ranges|, t1);
    NumberReadsBack(|g.nodes|, t2);
    RangesReadBack(g.ranges, t3);
    NodesReadBack(g.nodes, t);
  }

  // ----- lists of groups -----

  function Frame(g: ShardGroup): string
    requires GroupFits(g)
  {
    NumberLine(|GroupText(g)|) + GroupText(g) + "\n"
  }

  function Frames(gs: seq<ShardGroup>): string
    requires forall i | 0 <= i < |gs| :: GroupFits(gs[i])
  {
    if gs == [] then "" else Frame(gs[0]) + Frames(gs[1..])
  }

  /** The payload of a REPLACE entry. */
  function PayloadText(gs: seq<ShardGroup>): string
    requires forall i | 0 <= i < |gs| :: GroupFits(gs[i])
  {
    NumberLine(|gs|) + Frames(gs)
  }

  /** Here a missing line end fails the assertion too. */
  function ReadCount(s: string): Read<nat> {
    match ReadNumber(s)
    case Rejected => Panic
    case other => other
  }

  function ReadFrame(s: string): Read<ShardGroup> {
    match ReadCount(s)
    case Rejected => Rejected
    case Panic => Panic
    case Got(len, rest) =>
      if len > |rest| then Panic
      else
        match ReadGroup(rest[..len])
        case Rejected => Rejected
        case Panic => Panic
        case Got(g, _) => Got(g, if len < |rest| then rest[len + 1..] else "")
  }

  function ReadFrames(s: string, n: nat): Read<seq<ShardGroup>>
    decreases n
  {
    if n == 0 then Got([], s)
    else
      match ReadFrame(s)
      case Rejected => Rejected
      case Panic => Panic
      case Got(g, rest) =>
        match ReadFrames(rest, n - 1)
        case Rejected => Rejected
        case Panic => Panic
        case Got(gs, after) => Got([g] + gs, after)
  }

  function ReadPayload(s: string): Read<seq<ShardGroup>> {
    match ReadCount(s)
    case Rejected => Rejected
    case Panic => Panic
    case Got(n, rest) => ReadFrames(rest, n)
  }

  lemma FrameReadsBack(g: ShardGroup, t: string)
    requires GroupFits(g) && |GroupText(g)| <= ULONG_MAX
    ensures ReadFrame(Frame(g) + t) == Got(g, t)
  {
    hide NumberLine, GroupText, ReadNumber, ReadGroup;
    var text := GroupText(g);
    var rest := text + "\n" + t;
    assert Frame(g) + t == NumberLine(|text|) + rest;
    NumberReadsBack(|text|, rest);
    assert rest[..|text|] == text && rest[|text| + 1..] == t;
    GroupReadsBack(g, "");
    assert text + "" == text;
  }

  lemma {:induction false} FramesReadBack(gs: seq<ShardGroup>, t: string)
    requires forall i | 0 <= i < |gs| :: GroupFits(gs[i]) && |GroupText(gs[i])| <= ULONG_MAX
    ensures ReadFrames(Frames(gs) + t, |gs|) == Got(gs, t)
    decreases |gs|
  {
    hide Frame, ReadFrame, GroupFits, GroupText;
    if gs == [] {
      assert Frames(gs) + t == t;
    } else {
      var rest := Frames(gs[1..]) + t;
      assert Frames(gs) + t == Frame(gs[0]) + rest;
      FrameReadsBack(gs[0], rest);
      FramesReadBack(gs[1..], t);
      assert gs == [gs[0]] + gs[1..];
    }
  }

  /** The payload of a REPLACE entry splits back into exactly the submitted groups. */
  lemma PayloadReadsBack(gs: seq<ShardGroup>)
    requires |gs| <= ULONG_MAX && forall i | 0 <= i < |gs| :: GroupFits(gs[i]) && |GroupText(gs[i])| <= ULONG_MAX
    ensures ReadPayload(PayloadText(gs)) == Got(gs, "")
  {
    hide NumberLine, Frames, ReadNumber, ReadFrames, GroupFits, GroupText;
    NumberReadsBack(|gs|, Frames(gs));
    FramesReadBack(gs, "");
    assert Frames(gs) + "" == Frames(gs);
  }

  // ----- the code -----

  const SLACK := 4096

  /** The size of a buffer after a piece has been added to its `used` bytes. */
  function Grown(size: nat, used: nat, len: nat): nat {
    if used + len < size then size
    else if used + len - size > SLACK then size + len + 1
    else size + SLACK
  }

  /** A growing text buffer. */
  class TextBuffer {
    var text: string
    var size: nat

    ghost predicate Valid()
      reads this
    {
      |text| < size
    }

    constructor (size: nat)
      requires size > 0
      ensures Valid() && text == "" && this.size == size
    {
      text, this.size := "", size;
    }

    /** catsnprintf: appends, enlarging the buffer when needed.  Its assertion fails exactly when the text
        exceeds the space available by 4096 bytes. */
    method Cat(piece: string) returns (ok: bool)
      requires Valid()
      modifies this
      ensures ok <==> |piece| != old(size - |text|) + SLACK
      ensures ok ==> Valid() && text == old(text) + piece && size == Grown(old(size), |old(text)|, |piece|)
    {
      var avail := size - |text|;
      if |piece| >= avail {
        if |piece| - avail > SLACK {
          size := size + |piece| + 1;
        } else {
          size := size + SLACK;
        }
        avail := size - |text|;
        if |piece| >= avail { return false; }
      }
      text := text + piece;
      return true;
    }
  }

  lemma DigitsShort(n: nat)
    requires n <= ULONG_MAX
    ensures |Digits(n)| <= 20
  {
    assert Pow10(10) == 10000000000 && Pow10(20) == 100000000000000000000;
    DigitsLength(n, 20);
  }

  lemma RangeTextShort(r: SlotRange)
    requires RangeFits(r)
    ensures |RangeText(r)| <= 84
  {
    DigitsShort(r.start);
    DigitsShort(r.end);
    DigitsShort(KindCode(r.kind));
    DigitsShort(r.session);
  }

  lemma NodeTextShort(n: Node)
    requires NodeFits(n)
    ensures |NodeText(n)| <= 303
  {
    PortLength(n.port);
  }

  lemma RangesSnoc(rs: seq<SlotRange>, i: nat)
    requires i < |rs| && forall k | 0 <= k < |rs| :: RangeFits(rs[k])
    ensures RangesText(rs[..i + 1]) == RangesText(rs[..i]) + RangeText(rs[i])
    decreases i
  {
    hide RangeText;
    if i == 0 {
      assert rs[..1][1..] == [] && rs[..0] == [];
      assert RangesText(rs[..1]) == RangeText(rs[0]) + "";
    } else {
      RangesSnoc(rs[1..], i - 1);
      assert rs[..i + 1][1..] == rs[1..][..i] && rs[..i][1..] == rs[1..][..i - 1];
      assert rs[..i + 1][0] == rs[0] && rs[..i][0] == rs[0] && rs[1..][i - 1] == rs[i];
    }
  }

  lemma NodesSnoc(ns: seq<Node>, i: nat)
    requires i < |ns|
    ensures NodesText(ns[..i + 1]) == NodesText(ns[..i]) + NodeText(ns[i])
    decreases i
  {
    hide NodeText;
    if i == 0 {
      assert ns[..1][1..] == [] && ns[..0] == [];
      assert NodesText(ns[..1]) == NodeText(ns[0]) + "";
    } else {
      NodesSnoc(ns[1..], i - 1);
      assert ns[..i + 1][1..] == ns[1..][..i] && ns[..i][1..] == ns[1..][..i - 1];
      assert ns[..i + 1][0] == ns[0] && ns[..i][0] == ns[0] && ns[1..][i - 1] == ns[i];
    }
  }

  method CatRanges(buf: TextBuffer, rs: seq<SlotRange>) returns (ok: bool)
    requires buf.Valid() && forall k | 0 <= k < |rs| :: RangeFits(rs[k])
    modifies buf
    ensures ok && buf.Valid() && buf.text == old(buf.text) + RangesText(rs)
  {
    hide RangeText, RangesText;
    var i := 0;
    EmptyRanges(rs);
    assert old(buf.text) + "" == old(buf.text);
    while i < |rs|
      invariant 0 <= i <= |rs| && buf.Valid() && buf.text == old(buf.text) + RangesText(rs[..i])
    {
      RangeTextShort(rs[i]);
      RangesSnoc(rs, i);
      ok := buf.Cat(RangeText(rs[i]));
      assert old(buf.text) + RangesText(rs[..i]) + RangeText(rs[i]) == old(buf.text) + RangesText(rs[..i + 1]);
      i := i + 1;
    }
    assert rs[..i] == rs;
    ok := true;
  }

  lemma EmptyRanges(rs: seq<SlotRange>)
    requires forall k | 0 <= k < |rs| :: RangeFits(rs[k])
    ensures RangesText(rs[..0]) == ""
  {
  }

  method CatNodes(buf: TextBuffer, ns: seq<Node>) returns (ok: bool)
    requires buf.Valid() && forall k | 0 <= k < |ns| :: NodeFits(ns[k])
    modifies buf
    ensures ok && buf.Valid() && buf.text == old(buf.text) + NodesText(ns)
  {
    hide NodeText, NodesText, NodeFits;
    var i := 0;
    EmptyNodes(ns);
    assert old(buf.text) + "" == old(buf.text);
    while i < |ns|
      invariant 0 <= i <= |ns| && buf.Valid() && buf.text == old(buf.text) + NodesText(ns[..i])
    {
      NodeTextShort(ns[i]);
      NodesSnoc(ns, i);
      ok := buf.Cat(NodeText(ns[i]));
      assert old(buf.text) + NodesText(ns[..i]) + NodeText(ns[i]) == old(buf.text) + NodesText(ns[..i + 1]);
      i := i + 1;
    }
    assert ns[..i] == ns;
    ok := true;
  }

  lemma EmptyNodes(ns: seq<Node>)
    ensures NodesText(ns[..0]) == ""
  {
  }

  /** Serializes a group; the buffer's assertion never fails. */
  method SerializeGroup(g: ShardGroup) returns (text: string, ok: bool)
    requires GroupFits(g)
    ensures ok && text == GroupText(g)
  {
    hide NumberLine, RangesText, NodesText, RangeFits, NodeFits;
    var buf := new TextBuffer(23 + 305 * |g.nodes| + 1 + 34 * |g.ranges| + 1);
    ok := buf.Cat(g.id + "\n");
    NumberLineShort(|g.ranges|);
    NumberLineShort(|g.nodes|);
    ok := buf.Cat(NumberLine(|g.ranges|) + NumberLine(|g.nodes|));
    ok := CatRanges(buf, g.ranges);
    ok := CatNodes(buf, g.nodes);
    text := buf.text;
    assert text == GroupText(g);
    ok := true;
  }

  lemma NumberLineShort(n: nat)
    requires n <= ULONG_MAX
    ensures |NumberLine(n)| <= 21
  {
    DigitsShort(n);
  }

  /** No frame of the list exceeds by exactly 4096 bytes the space left when its turn comes. */
  predicate Roomy(size: nat, used: nat, gs: seq<ShardGroup>)
    requires forall i | 0 <= i < |gs| :: GroupFits(gs[i])
    decreases |gs|
  {
    gs == [] ||
    var n := |Frame(gs[0])|;
    used + n != size + SLACK && Roomy(Grown(size, used, n), used + n, gs[1..])
  }

  lemma RoomyFrom(size: nat, used: nat, gs: seq<ShardGroup>, i: nat)
    requires i < |gs| && forall k | 0 <= k < |gs| :: GroupFits(gs[k])
    ensures var n := |Frame(gs[i])|;
            Roomy(size, used, gs[i..]) <==>
              used + n != size + SLACK && Roomy(Grown(size, used, n), used + n, gs[i + 1..])
  {
    hide Frame, GroupFits;
    assert gs[i..][1..] == gs[i + 1..];
  }

  /** Builds the payload of a REPLACE entry; the buffer's assertion holds exactly for roomy lists. */
  method SerializeGroups(gs: seq<ShardGroup>) returns (ok: bool, text: string)
    requires |gs| <= ULONG_MAX && forall i | 0 <= i < |gs| :: GroupFits(gs[i])
    ensures ok <==> Roomy(SLACK, |NumberLine(|gs|)|, gs)
    ensures ok ==> text == PayloadText(gs)
  {
    hide GroupFits, GroupText, Frame, Frames, NumberLine, Roomy;
    var buf := new TextBuffer(SLACK);
    NumberLineShort(|gs|);
    ok := buf.Cat(NumberLine(|gs|));
    var i := 0;
    EmptyFrames(gs);
    assert gs[0..] == gs && buf.text == NumberLine(|gs|);
    while i < |gs|
      invariant 0 <= i <= |gs| && buf.Valid() && fresh(buf) && buf.text == NumberLine(|gs|) + Frames(gs[..i])
      invariant Roomy(buf.size, |buf.text|, gs[i..]) <==> Roomy(SLACK, |NumberLine(|gs|)|, gs)
    {
      FramesSnoc(gs, i);
      RoomyFrom(buf.size, |buf.text|, gs, i);
      var piece, _ := SerializeFrame(gs[i]);
      ok := buf.Cat(piece);
      if !ok { return false, ""; }
      assert NumberLine(|gs|) + Frames(gs[..i]) + piece == NumberLine(|gs|) + Frames(gs[..i + 1]);
      i := i + 1;
    }
    assert gs[..i] == gs && gs[i..] == [];
    RoomyNone(buf.size, |buf.text|);
    return true, buf.text;
  }

  lemma RoomyNone(size: nat, used: nat)
    ensures Roomy(size, used, [])
  {
  }

  // ----- a list that is not -----

  function Repeat(c: char, n: nat): (s: string)
    ensures |s| == n && forall i | 0 <= i < n :: s[i] == c
  {
    seq(n, _ => c)
  }

  const LONG_NODE := Node(Repeat('n', 40), Repeat('h', 255), 65535)
  const LAST_NODE := Node(Repeat('n', 40), Repeat('h', 208), 65535)
  const WHOLE_RANGE := SlotRange(0, 16383, Stable, 0)

  function Unlucky(): ShardGroup { ShardGroup(Repeat('g', 32), [WHOLE_RANGE], seq(26, _ => LONG_NODE) + [LAST_NODE]) }

  lemma UnluckyFits()
    ensures GroupFits(Unlucky())
  {
    var g := Unlucky();
    assert forall i | 0 <= i < |g.nodes| :: g.nodes[i] == LONG_NODE || g.nodes[i] == LAST_NODE;
  }

  lemma PortDigits()
    ensures |Digits(65535)| == 5 && |Digits(27)| == 2 && |Digits(8184)| == 4 && |Digits(16383)| == 5
    ensures |Digits(0)| == 1 && |Digits(1)| == 1
  {
    assert |Digits(65535)| == |Digits(6553)| + 1;
    assert |Digits(16383)| == |Digits(1638)| + 1;
    FourDigits(6553);
    FourDigits(8184);
    FourDigits(1638);
    assert |Digits(27)| == |Digits(2)| + 1;
  }

  lemma FourDigits(n: nat)
    requires 1000 <= n < 10000
    ensures |Digits(n)| == 4
  {
    assert |Digits(n)| == |Digits(n / 10)| + 1;
    assert |Digits(n / 10)| == |Digits(n / 10 / 10)| + 1;
  }

  lemma {:induction false} NodesLength(ns: seq<Node>, n: Node)
    requires forall i | 0 <= i < |ns| :: ns[i] == n
    ensures |NodesText(ns)| == |ns| * |NodeText(n)|
  {
    hide NodeText;
    if ns != [] { NodesLength(ns[1..], n); }
  }

  lemma NodeLength(n: Node)
    requires n.port == 65535
    ensures |NodeText(n)| == |n.id| + |n.host| + 8
  {
    PortDigits();
    hide Digits;
  }

  lemma UnluckyNodes()
    ensures |NodesText(Unlucky().nodes)| == 26 * 303 + 256 && |Unlucky().nodes| == 27
  {
    hide NodesText, NodeText;
    var g := Unlucky();
    var many := seq(26, _ => LONG_NODE);
    NodeLength(LONG_NODE);
    NodeLength(LAST_NODE);
    NodesLength(many, LONG_NODE);
    NodesSnoc(g.nodes, 26);
    assert g.nodes[..26] == many && g.nodes[..27] == g.nodes;
  }

  lemma UnluckyRange()
    ensures RangeFits(WHOLE_RANGE) && |RangesText([WHOLE_RANGE])| == 12
  {
    PortDigits();
    hide Digits;
    OneRange(WHOLE_RANGE);
  }

  lemma UnluckyLength()
    requires GroupFits(Unlucky())
    ensures |GroupText(Unlucky())| == 8184 && |Frame(Unlucky())| == 8190
  {
    UnluckyNodes();
    UnluckyRange();
    PortDigits();
    hide Digits, NodesText, RangesText, GroupFits;
    assert |NumberLine(1)| == 2 && |NumberLine(27)| == 3 && |NumberLine(8184)| == 5;
  }

  lemma OneRange(r: SlotRange)
    requires RangeFits(r)
    ensures RangesText([r]) == RangeText(r)
  {
    assert [r][1..] == [];
    assert RangesText([r]) == RangeText(r) + "";
  }

  /** One group of 27 nodes, within all the limits, fails the buffer's assertion. */
  lemma UnluckyIsNotRoomy()
    ensures GroupFits(Unlucky()) && !Roomy(SLACK, |NumberLine(1)|, [Unlucky()])
  {
    UnluckyFits();
    UnluckyLength();
    PortDigits();
    hide Digits, Frame, Unlucky, GroupFits;
    assert |NumberLine(1)| == 2;
  }

  method SerializeFrame(g: ShardGroup) returns (piece: string, ok: bool)
    requires GroupFits(g)
    ensures ok && piece == Frame(g)
  {
    hide GroupText, NumberLine;
    piece, ok := SerializeGroup(g);
    piece := NumberLine(|piece|) + piece + "\n";
  }

  lemma EmptyFrames(gs: seq<ShardGroup>)
    requires forall i | 0 <= i < |gs| :: GroupFits(gs[i])
    ensures Frames(gs[..0]) == ""
  {
  }

  lemma FramesSnoc(gs: seq<ShardGroup>, i: nat)
    requires i < |gs| && forall k | 0 <= k < |gs| :: GroupFits(gs[k])
    ensures Frames(gs[..i + 1]) == Frames(gs[..i]) + Frame(gs[i])
    decreases i
  {
    hide Frame, GroupFits;
    if i == 0 {
      assert gs[..1][1..] == [] && gs[..0] == [];
      assert Frames(gs[..1]) == Frame(gs[0]) + "";
    } else {
      FramesSnoc(gs[1..], i - 1);
      assert gs[..i + 1][1..] == gs[1..][..i] && gs[..i][1..] == gs[1..][..i - 1];
      assert gs[..i + 1][0] == gs[0] && gs[..i][0] == gs[0] && gs[1..][i - 1] == gs[i];
    }
  }

  /** The result of reading on after some ranges. */
  function RangesAfter(done: seq<SlotRange>, more: Read<seq<SlotRange>>): Read<seq<SlotRange>> {
    if more.Got? then Got(done + more.value, more.rest) else more
  }

  method TakeRanges(s: string, n: nat) returns (r: Read<seq<SlotRange>>)
    ensures r == ReadRanges(s, n)
  {
    hide ReadRange;
    var done: seq<SlotRange>, rest := [], s;
    RangesStart(s, n);
    while |done| < n
      invariant |done| <= n && RangesAfter(done, ReadRanges(rest, n - |done|)) == ReadRanges(s, n)
      decreases n - |done|
    {
      var x := ReadRange(rest);
      if x.Rejected? { return Rejected; }
      if x.Panic? { return Panic; }
      RangesNext(done, x.value, ReadRanges(x.rest, n - |done| - 1));
      done, rest := done + [x.value], x.rest;
    }
    assert done + [] == done;
    return Got(done, rest);
  }

  lemma RangesStart(s: string, n: nat)
    ensures RangesAfter([], ReadRanges(s, n)) == ReadRanges(s, n)
  {
    var r := ReadRanges(s, n);
    if r.Got? { assert [] + r.value == r.value; }
  }

  lemma RangesNext(done: seq<SlotRange>, x: SlotRange, more: Read<seq<SlotRange>>)
    ensures RangesAfter(done, if more.Got? then Got([x] + more.value, more.rest) else more) == RangesAfter(done + [x],
            more)
  {
    if more.Got? { assert done + ([x] + more.value) == done + [x] + more.value; }
  }

  /** The result of reading on after some nodes. */
  function NodesAfter(done: seq<Node>, more: Read<seq<Node>>): Read<seq<Node>> {
    if more.Got? then Got(done + more.value, more.rest) else more
  }

  method TakeNodes(s: string, n: nat) returns (r: Read<seq<Node>>)
    ensures r == ReadNodes(s, n)
  {
    hide ReadNode;
    var done: seq<Node>, rest := [], s;
    NodesStart(s, n);
    while |done| < n
      invariant |done| <= n && NodesAfter(done, ReadNodes(rest, n - |done|)) == ReadNodes(s, n)
      decreases n - |done|
    {
      var x := ReadNode(rest);
      if x.Rejected? { return Rejected; }
      if x.Panic? { return Panic; }
      NodesNext(done, x.value, ReadNodes(x.rest, n - |done| - 1));
      done, rest := done + [x.value], x.rest;
    }
    assert done + [] == done;
    return Got(done, rest);
  }

  lemma NodesStart(s: string, n: nat)
    ensures NodesAfter([], ReadNodes(s, n)) == ReadNodes(s, n)
  {
    var r := ReadNodes(s, n);
    if r.Got? { assert [] + r.value == r.value; }
  }

  lemma NodesNext(done: seq<Node>, x: Node, more: Read<seq<Node>>)
    ensures NodesAfter(done, if more.Got? then Got([x] + more.value, more.rest) else more) == NodesAfter(done + [x],
            more)
  {
    if more.Got? { assert done + ([x] + more.value) == done + [x] + more.value; }
  }

  /** The result of reading on after some groups. */
  function FramesAfter(done: seq<ShardGroup>, more: Read<seq<ShardGroup>>): Read<seq<ShardGroup>> {
    if more.Got? then Got(done + more.value, more.rest) else more
  }

  method TakeFrames(s: string, n: nat) returns (r: Read<seq<ShardGroup>>)
    ensures r == ReadFrames(s, n)
  {
    hide ReadFrame;
    var done: seq<ShardGroup>, rest := [], s;
    FramesStart(s, n);
    while |done| < n
      invariant |done| <= n && FramesAfter(done, ReadFrames(rest, n - |done|)) == ReadFrames(s, n)
      decreases n - |done|
    {
      var x := ReadFrame(rest);
      if x.Rejected? { return Rejected; }
      if x.Panic? { return Panic; }
      FramesNext(done, x.value, ReadFrames(x.rest, n - |done| - 1));
      done, rest := done + [x.value], x.rest;
    }
    assert done + [] == done;
    return Got(done, rest);
  }

  lemma FramesStart(s: string, n: nat)
    ensures FramesAfter([], ReadFrames(s, n)) == ReadFrames(s, n)
  {
    var r := ReadFrames(s, n);
    if r.Got? { assert [] + r.value == r.value; }
  }

  lemma FramesNext(done: seq<ShardGroup>, x: ShardGroup, more: Read<seq<ShardGroup>>)
    ensures FramesAfter(done, if more.Got? then Got([x] + more.value, more.rest) else more) == FramesAfter(done + [x],
            more)
  {
    if more.Got? { assert done + ([x] + more.value) == done + [x] + more.value; }
  }

  /** Deserializes a group. */
  method DeserializeGroup(s: string) returns (r: Read<ShardGroup>)
    ensures r == ReadGroup(s)
  {
    hide ReadLine, ReadNumber, ReadRanges, ReadNodes;
    var id := ReadLine(s);
    if !id.Got? { return if id.Panic? then Panic else Rejected; }
    if |id.value| > ID_LEN { return Rejected; }
    var ranges := ReadNumber(id.rest);
    if !ranges.Got? { return if ranges.Panic? then Panic else Rejected; }
    var nodes := ReadNumber(ranges.rest);
    if !nodes.Got? { return if nodes.Panic? then Panic else Rejected; }
    var rs := TakeRanges(nodes.rest, ranges.value % UINT);
    if !rs.Got? { return if rs.Panic? then Panic else Rejected; }
    var ns := TakeNodes(rs.rest, nodes.value % UINT);
    if !ns.Got? { return if ns.Panic? then Panic else Rejected; }
    return Got(ShardGroup(id.value, rs.value, ns.value), ns.rest);
  }

  /** Splits the payload of a REPLACE entry. */
  method DeserializeGroups(s: string) returns (r: Read<seq<ShardGroup>>)
    ensures r == ReadPayload(s)
  {
    hide ReadNumber, ReadFrames;
    var n := ReadCount(s);
    if !n.Got? { return if n.Panic? then Panic else Rejected; }
    r := TakeFrames(n.rest, n.value);
  }
}
