/** The entries of the log that RedisRaft itself defines: command arrays, imports, key lists and timeouts. */
module Payloads {
  import opened Wrappers
  import opened Decimal
  import opened Serialization

  // ----- command arrays -----

  datatype CommandArray = CommandArray(asking: bool, flags: nat, acl: Option<string>, commands: seq<seq<string>>)

  function Bit(b: bool): nat { if b then 1 else 0 }

  function AclText(acl: Option<string>): string { if acl.Some? then acl.value else "" }

  function CmdText(c: seq<string>): string { IntText('*', |c|) + StrsText(c) }

  function CmdsText(cs: seq<seq<string>>): string {
    if cs == [] then "" else CmdText(cs[0]) + CmdsText(cs[1..])
  }

  function ArrayText(a: CommandArray): string {
    IntText('*', Bit(a.asking)) + IntText('*', a.flags) + StrText(AclText(a.acl)) + IntText('*', |a.commands|) +
      CmdsText(a.commands)
  }

  function CmdSize(c: seq<string>): nat { IntSize(|c| + 1) + StrsSize(c) }

  function CmdsSize(cs: seq<seq<string>>): nat {
    if cs == [] then 0 else CmdSize(cs[0]) + CmdsSize(cs[1..])
  }

  function ArraySize(a: CommandArray): nat {
    IntSize(Bit(a.asking)) + IntSize(a.flags) + IntSize(|a.commands|) + CmdsSize(a.commands) + StrSize(AclText(a.acl))
  }

  /** At least one command, each with at least one argument, and lengths that a machine word holds. */
  ghost predicate ArrayOk(a: CommandArray) {
    && a.flags <= ULONG_MAX && |AclText(a.acl)| <= ULONG_MAX
    && 0 < |a.commands| <= ULONG_MAX && forall i | 0 <= i < |a.commands| :: CmdOk(a.commands[i])
  }

  ghost predicate CmdOk(c: seq<string>) { 0 < |c| <= ULONG_MAX && AllShort(c) }

  function DecodeCmd(s: string): (r: Option<(seq<string>, nat)>)
    ensures r.Some? ==> 0 < r.value.1 <= |s|
  {
    match DecodeInt(s, '*')
    case None => None
    case Some((argc, n)) =>
      if argc == 0 then None
      else
        match DecodeStrs(s[n..], argc)
        case None => None
        case Some((argv, m)) => Some((argv, n + m))
  }

  function DecodeCmds(s: string, count: nat): Option<seq<seq<string>>>
    decreases count
  {
    if count == 0 then Some([])
    else
      match DecodeCmd(s)
      case None => None
      case Some((c, n)) =>
        match DecodeCmds(s[n..], count - 1)
        case None => None
        case Some(cs) => Some([c] + cs)
  }

  function DecodeArray(s: string): Option<CommandArray> {
    match DecodeInt(s, '*')
    case None => None
    case Some((asking, n)) =>
      var s1 := s[n..];
      match DecodeInt(s1, '*')
      case None => None
      case Some((flags, n1)) =>
        var s2 := s1[n1..];
        match DecodeStr(s2)
        case None => None
        case Some((acl, n2)) =>
          var s3 := s2[n2..];
          match DecodeInt(s3, '*')
          case None => None
          case Some((count, n3)) =>
            if count == 0 then None
            else
              match DecodeCmds(s3[n3..], count)
              case None => None
              case Some(cs) => Some(CommandArray(asking != 0, flags, if acl == "" then None else Some(acl), cs))
  }

  /** An empty ACL is read back as none. */
  function Normal(a: CommandArray): CommandArray { if a.acl == Some("") then a.(acl := None) else a }

  lemma CmdReadsBack(c: seq<string>, t: string)
    requires CmdOk(c)
    ensures DecodeCmd(CmdText(c) + t) == Some((c, |CmdText(c)|))
  {
    hide IntText, StrsText, DecodeInt, DecodeStrs;
    var head, rest := IntText('*', |c|), StrsText(c) + t;
    assert CmdText(c) + t == head + rest;
    IntReadsBack('*', |c|, rest);
    assert (head + rest)[|head|..] == rest;
    StrsReadBack(c, t);
  }

  lemma {:induction false} CmdsReadBack(cs: seq<seq<string>>, t: string)
    requires forall i | 0 <= i < |cs| :: CmdOk(cs[i])
    ensures DecodeCmds(CmdsText(cs) + t, |cs|) == Some(cs)
    decreases |cs|
  {
    hide CmdText, DecodeCmd, CmdOk;
    if cs != [] {
      var x, rest := CmdText(cs[0]), CmdsText(cs[1..]) + t;
      assert CmdsText(cs) + t == x + rest;
      CmdReadsBack(cs[0], rest);
      assert (x + rest)[|x|..] == rest;
      CmdsReadBack(cs[1..], t);
      assert cs == [cs[0]] + cs[1..];
    }
  }

  /** A command array reads back, whatever follows it in the buffer. */
  lemma ArrayReadsBack(a: CommandArray, t: string)
    requires ArrayOk(a)
    ensures DecodeArray(ArrayText(a) + t) == Some(Normal(a))
  {
    hide IntText, StrText, CmdsText, DecodeInt, DecodeStr, DecodeCmds, CmdOk;
    var a0, a1, a2, a3 := IntText('*', Bit(a.asking)), IntText('*', a.flags), StrText(AclText(a.acl)),
      IntText('*', |a.commands|);
    var t3 := CmdsText(a.commands) + t;
    var t2 := a3 + t3;
    var t1 := a2 + t2;
    var t0 := a1 + t1;
    assert ArrayText(a) + t == a0 + t0;
    IntReadsBack('*', Bit(a.asking), t0);
    assert (a0 + t0)[|a0|..] == t0;
    IntReadsBack('*', a.flags, t1);
    assert t0[|a1|..] == t1;
    StrReadsBack(AclText(a.acl), t2);
    assert t1[|a2|..] == t2;
    IntReadsBack('*', |a.commands|, t3);
    assert t2[|a3|..] == t3;
    CmdsReadBack(a.commands, t);
  }

  lemma StrsSizeFrom(ss: seq<string>, i: nat)
    requires i < |ss|
    ensures StrsSize(ss[i..]) == StrSize(ss[i]) + StrsSize(ss[i + 1..]) && ss[i..][1..] == ss[i + 1..]
  {
  }

  lemma {:induction false} StrsTextSnoc(ss: seq<string>, i: nat)
    requires i < |ss|
    ensures StrsText(ss[..i + 1]) == StrsText(ss[..i]) + StrText(ss[i])
    decreases i
  {
    hide StrText;
    if i == 0 {
      assert ss[..1][1..] == [];
      assert StrsText(ss[..1]) == StrText(ss[0]) + "";
      assert StrsText(ss[..0]) == "";
    } else {
      StrsTextSnoc(ss[1..], i - 1);
      assert ss[..i + 1][1..] == ss[1..][..i] && ss[..i][1..] == ss[1..][..i - 1];
      assert ss[..i + 1][0] == ss[0] && ss[..i][0] == ss[0] && ss[1..][i - 1] == ss[i];
    }
  }

  /** Writes strings; the space left always suffices. */
  method WriteStrs(enc: Encoder, ss: seq<string>, ghost spare: nat) returns (ok: bool)
    requires enc.Valid() && AllShort(ss) && enc.sz >= StrsSize(ss) + spare
    modifies enc, enc.buf
    ensures enc.Valid() && ok && enc.sz >= spare && enc.Text() == old(enc.Text()) + StrsText(ss)
  {
    hide StrText, StrsText;
    var j := 0;
    assert ss[0..] == ss;
    NoText(ss);
    assert old(enc.Text()) + "" == old(enc.Text());
    while j < |ss|
      invariant 0 <= j <= |ss| && enc.Valid() && enc.sz >= StrsSize(ss[j..]) + spare
      invariant enc.Text() == old(enc.Text()) + StrsText(ss[..j])
    {
      StrsSizeFrom(ss, j);
      StrFits(ss[j]);
      StrsTextSnoc(ss, j);
      ok := enc.Str(ss[j]);
      assert old(enc.Text()) + StrsText(ss[..j]) + StrText(ss[j]) == old(enc.Text()) + StrsText(ss[..j + 1]);
      j := j + 1;
    }
    assert ss[..j] == ss;
    ok := true;
  }

  lemma NoText(ss: seq<string>)
    ensures StrsText(ss[..0]) == ""
  {
  }

  lemma CmdsSizeFrom(cs: seq<seq<string>>, i: nat)
    requires i < |cs|
    ensures CmdsSize(cs[i..]) == CmdSize(cs[i]) + CmdsSize(cs[i + 1..])
  {
    assert cs[i..][1..] == cs[i + 1..];
  }

  lemma {:induction false} CmdsTextSnoc(cs: seq<seq<string>>, i: nat)
    requires i < |cs|
    ensures CmdsText(cs[..i + 1]) == CmdsText(cs[..i]) + CmdText(cs[i])
    decreases i
  {
    hide CmdText;
    if i == 0 {
      assert cs[..1][1..] == [];
      assert CmdsText(cs[..1]) == CmdText(cs[0]) + "";
      assert CmdsText(cs[..0]) == "";
    } else {
      CmdsTextSnoc(cs[1..], i - 1);
      assert cs[..i + 1][1..] == cs[1..][..i] && cs[..i][1..] == cs[1..][..i - 1];
      assert cs[..i + 1][0] == cs[0] && cs[..i][0] == cs[0] && cs[1..][i - 1] == cs[i];
    }
  }

  lemma IntSizeGrows(v: nat)
    ensures 3 <= IntSize(v) <= IntSize(v + 1)
  {
  }

  /** Writes one command. */
  method WriteCommand(enc: Encoder, c: seq<string>, ghost spare: nat) returns (ok: bool)
    requires enc.Valid() && CmdOk(c) && enc.sz >= CmdSize(c) + spare
    modifies enc, enc.buf
    ensures enc.Valid() && ok && enc.sz >= spare && enc.Text() == old(enc.Text()) + CmdText(c)
  {
    hide IntText, StrsText;
    IntFits('*', |c|);
    IntSizeGrows(|c|);
    assert StrsSize(c) > 0;
    ok := enc.Integer('*', |c|);
    ok := WriteStrs(enc, c, spare);
    assert old(enc.Text()) + IntText('*', |c|) + StrsText(c) == old(enc.Text()) + CmdText(c);
  }

  /** Writes the commands one after another. */
  method WriteCommands(enc: Encoder, cs: seq<seq<string>>) returns (ok: bool)
    requires enc.Valid() && (forall i | 0 <= i < |cs| :: CmdOk(cs[i])) && enc.sz >= CmdsSize(cs)
    modifies enc, enc.buf
    ensures enc.Valid() && ok && enc.Text() == old(enc.Text()) + CmdsText(cs)
  {
    hide CmdText, CmdsText, CmdSize, CmdOk;
    var i := 0;
    assert cs[0..] == cs;
    assert CmdsText(cs[..0]) == "" by { NoCommands(cs); }
    assert old(enc.Text()) + "" == old(enc.Text());
    while i < |cs|
      invariant 0 <= i <= |cs| && enc.Valid() && enc.sz >= CmdsSize(cs[i..])
      invariant enc.Text() == old(enc.Text()) + CmdsText(cs[..i])
    {
      CmdsSizeFrom(cs, i);
      CmdsTextSnoc(cs, i);
      ok := WriteCommand(enc, cs[i], CmdsSize(cs[i + 1..]));
      assert old(enc.Text()) + CmdsText(cs[..i]) + CmdText(cs[i]) == old(enc.Text()) + CmdsText(cs[..i + 1]);
      i := i + 1;
    }
    assert cs[..i] == cs;
    ok := true;
  }

  lemma NoCommands(cs: seq<seq<string>>)
    ensures CmdsText(cs[..0]) == ""
  {
  }

  function HeadText(a: CommandArray): string {
    IntText('*', Bit(a.asking)) + IntText('*', a.flags) + StrText(AclText(a.acl)) + IntText('*', |a.commands|)
  }

  /** Writes everything before the commands. */
  method WriteHead(enc: Encoder, a: CommandArray) returns (ok: bool)
    requires ArrayOk(a) && enc.Valid() && enc.p == 0 && enc.sz == ArraySize(a)
    modifies enc, enc.buf
    ensures enc.Valid() && ok && enc.sz >= CmdsSize(a.commands) && enc.Text() == HeadText(a)
  {
    IntFits('*', Bit(a.asking));
    IntFits('*', a.flags);
    StrFits(AclText(a.acl));
    IntFits('*', |a.commands|);
    CommandsTakeSpace(a.commands);
    ghost var a0, a1 := IntText('*', Bit(a.asking)), IntText('*', a.flags);
    ghost var a2, a3 := StrText(AclText(a.acl)), IntText('*', |a.commands|);
    hide IntText, StrText, StrSize, IntSize, CmdsSize, ArrayOk;
    ok := enc.Integer('*', Bit(a.asking));
    assert enc.Text() == a0;
    ok := enc.Integer('*', a.flags);
    assert enc.Text() == a0 + a1;
    ok := enc.Str(AclText(a.acl));
    assert enc.Text() == a0 + a1 + a2;
    ok := enc.Integer('*', |a.commands|);
    assert enc.Text() == a0 + a1 + a2 + a3;
    ok := true;
  }

  /** Serializes a command array into a buffer of the computed size.  None of the encoder's assertions fails,
      and decoding the buffer gives the array back. */
  method SerializeArray(a: CommandArray) returns (enc: Encoder, ok: bool)
    requires ArrayOk(a)
    ensures ok && enc.Valid() && enc.buf.Length == ArraySize(a) && ArrayText(a) <= enc.buf[..]
    ensures DecodeArray(enc.buf[..]) == Some(Normal(a))
  {
    hide HeadText, CmdsText, ArraySize, DecodeArray;
    enc := new Encoder(ArraySize(a));
    ok := WriteHead(enc, a);
    ok := WriteCommands(enc, a.commands);
    WholeArray(a, enc.Text(), enc.buf[..]);
    ok := true;
  }

  lemma WholeArray(a: CommandArray, text: string, whole: string)
    requires ArrayOk(a) && text == HeadText(a) + CmdsText(a.commands) && text <= whole
    ensures ArrayText(a) <= whole && DecodeArray(whole) == Some(Normal(a))
  {
    assert text == ArrayText(a);
    hide ArrayText, DecodeArray, HeadText, CmdsText;
    assert whole == text + whole[|text|..];
    ArrayReadsBack(a, whole[|text|..]);
  }

  lemma CommandsTakeSpace(cs: seq<seq<string>>)
    requires cs != []
    ensures CmdsSize(cs) >= 3
  {
    IntSizeGrows(|cs[0]|);
  }

  /** Reads one command. */
  method ReadCommand(s: string) returns (r: Option<(seq<string>, nat)>)
    ensures r == DecodeCmd(s)
  {
    hide DecodeInt, DecodeStrs;
    var h := ReadInt(s, '*');
    if h == None || h.value.0 == 0 { return None; }
    var n := h.value.1;
    var args := ReadStrs(s[n..], h.value.0);
    if args == None { return None; }
    return Some((args.value.0, n + args.value.1));
  }

  ghost predicate CmdsSoFar(s: string, count: nat, cs: seq<seq<string>>, at: nat)
    requires |cs| <= count && at <= |s|
  {
    DecodeCmds(s, count) == match DecodeCmds(s[at..], count - |cs|)
                            case None => None
                            case Some(rest) => Some(cs + rest)
  }

  lemma CmdsSoFarStart(s: string, count: nat)
    ensures CmdsSoFar(s, count, [], 0)
  {
    hide DecodeCmds;
    assert s[0..] == s;
    var r := DecodeCmds(s, count);
    if r.Some? { assert [] + r.value == r.value; }
  }

  lemma CmdsSoFarNext(s: string, count: nat, cs: seq<seq<string>>, at: nat)
    requires |cs| < count && at <= |s| && CmdsSoFar(s, count, cs, at)
    ensures var c := DecodeCmd(s[at..]);
            if c.None? then DecodeCmds(s, count) == None
            else at + c.value.1 <= |s| && CmdsSoFar(s, count, cs + [c.value.0], at + c.value.1)
  {
    hide DecodeCmd;
    var c := DecodeCmd(s[at..]);
    if c.Some? {
      assert s[at..][c.value.1..] == s[at + c.value.1..];
      var rest := DecodeCmds(s[at + c.value.1..], count - |cs| - 1);
      if rest.Some? { assert cs + ([c.value.0] + rest.value) == cs + [c.value.0] + rest.value; }
    }
  }

  lemma CmdsSoFarEnd(s: string, count: nat, cs: seq<seq<string>>, at: nat)
    requires |cs| == count && at <= |s| && CmdsSoFar(s, count, cs, at)
    ensures DecodeCmds(s, count) == Some(cs)
  {
    assert cs + [] == cs;
  }

  /** Deserializes a command array. */
  method DeserializeArray(s: string) returns (r: Option<CommandArray>)
    ensures r == DecodeArray(s)
  {
    hide DecodeInt, DecodeStr, DecodeCmd, DecodeCmds;
    var asking := ReadInt(s, '*');
    if asking == None { return None; }
    var s1 := s[asking.value.1..];
    var flags := ReadInt(s1, '*');
    if flags == None { return None; }
    var s2 := s1[flags.value.1..];
    var acl := ReadStr(s2);
    if acl == None { return None; }
    var s3 := s2[acl.value.1..];
    var count := ReadInt(s3, '*');
    if count == None || count.value.0 == 0 { return None; }
    var s4 := s3[count.value.1..];
    var cs: seq<seq<string>> := [];
    var at: nat := 0;
    CmdsSoFarStart(s4, count.value.0);
    while |cs| < count.value.0
      invariant |cs| <= count.value.0 && at <= |s4| && CmdsSoFar(s4, count.value.0, cs, at)
      decreases count.value.0 - |cs|
    {
      CmdsSoFarNext(s4, count.value.0, cs, at);
      var c := ReadCommand(s4[at..]);
      if c == None { return None; }
      cs, at := cs + [c.value.0], at + c.value.1;
    }
    CmdsSoFarEnd(s4, count.value.0, cs, at);
    return Some(CommandArray(asking.value.0 != 0, flags.value.0, if acl.value.0 == "" then None else Some(acl.value.0),
      cs));
  }

  // ----- imports -----

  datatype Import = Import(term: nat, session: nat, keys: seq<(string, string)>)

  function Pairs(keys: seq<(string, string)>): seq<string> {
    if keys == [] then [] else [keys[0].0, keys[0].1] + Pairs(keys[1..])
  }

  function Paired(ss: seq<string>): seq<(string, string)> {
    if |ss| < 2 then [] else [(ss[0], ss[1])] + Paired(ss[2..])
  }

  lemma {:induction false} PairedPairs(keys: seq<(string, string)>)
    ensures |Pairs(keys)| == 2 * |keys| && Paired(Pairs(keys)) == keys
  {
    if keys != [] {
      PairedPairs(keys[1..]);
      assert Pairs(keys)[2..] == Pairs(keys[1..]);
      assert keys == [keys[0]] + keys[1..];
    }
  }

  function ImportText(m: Import): string {
    IntText('*', m.term) + IntText('*', m.session) + IntText('*', |m.keys|) + StrsText(Pairs(m.keys))
  }

  function ImportSize(m: Import): nat { IntSize(m.term) + IntSize(m.session) + IntSize(|m.keys|) +
                      StrsSize(Pairs(m.keys)) }

  function DecodeImport(s: string): Option<Import> {
    match DecodeInt(s, '*')
    case None => None
    case Some((term, n)) =>
      var s1 := s[n..];
      match DecodeInt(s1, '*')
      case None => None
      case Some((session, n1)) =>
        var s2 := s1[n1..];
        match DecodeInt(s2, '*')
        case None => None
        case Some((count, n2)) =>
          if term == 0 || count == 0 then None
          else
            match DecodeStrs(s2[n2..], 2 * count)
            case None => None
            case Some((ss, _)) => Some(Import(term, session, Paired(ss)))
  }

  ghost predicate ImportOk(m: Import) {
    0 < m.term <= ULONG_MAX && m.session <= ULONG_MAX && 0 < |m.keys| <= ULONG_MAX && AllShort(Pairs(m.keys))
  }

  lemma ImportReadsBack(m: Import, t: string)
    requires ImportOk(m)
    ensures DecodeImport(ImportText(m) + t) == Some(m)
  {
    hide IntText, StrsText, DecodeInt, DecodeStrs, Paired, Pairs;
    var a0, a1, a2 := IntText('*', m.term), IntText('*', m.session), IntText('*', |m.keys|);
    PairedPairs(m.keys);
    var t2 := StrsText(Pairs(m.keys)) + t;
    var t1 := a2 + t2;
    var t0 := a1 + t1;
    assert ImportText(m) + t == a0 + t0;
    IntReadsBack('*', m.term, t0);
    assert (a0 + t0)[|a0|..] == t0;
    IntReadsBack('*', m.session, t1);
    assert t0[|a1|..] == t1;
    IntReadsBack('*', |m.keys|, t2);
    assert t1[|a2|..] == t2;
    StrsReadBack(Pairs(m.keys), t);
  }

  /** Serializes an import; none of the assertions fails and decoding gives it back. */
  method SerializeImport(m: Import) returns (enc: Encoder, ok: bool)
    requires ImportOk(m)
    ensures ok && enc.Valid() && enc.buf.Length == ImportSize(m) && DecodeImport(enc.buf[..]) == Some(m)
  {
    IntFits('*', m.term);
    IntFits('*', m.session);
    IntFits('*', |m.keys|);
    PairedPairs(m.keys);
    StringsTakeSpace(Pairs(m.keys));
    ghost var a0, a1, a2 := IntText('*', m.term), IntText('*', m.session), IntText('*', |m.keys|);
    hide IntText, StrsText, DecodeImport, Pairs, IntSize, StrsSize;
    enc := new Encoder(ImportSize(m));
    ok := enc.Integer('*', m.term);
    assert enc.Text() == a0;
    ok := enc.Integer('*', m.session);
    assert enc.Text() == a0 + a1;
    ok := enc.Integer('*', |m.keys|);
    assert enc.Text() == a0 + a1 + a2;
    ok := WriteStrs(enc, Pairs(m.keys), 0);
    WholeImport(m, enc.Text(), enc.buf[..]);
    ok := true;
  }

  lemma WholeImport(m: Import, text: string, whole: string)
    requires ImportOk(m) && text == ImportText(m) && text <= whole
    ensures DecodeImport(whole) == Some(m)
  {
    hide ImportText, DecodeImport;
    assert whole == text + whole[|text|..];
    ImportReadsBack(m, whole[|text|..]);
  }

  lemma StringsTakeSpace(ss: seq<string>)
    requires ss != []
    ensures StrsSize(ss) >= 1
  {
  }

  // ----- timeouts -----

  function TimeoutText(idx: nat, error: bool): string { IntText('*', idx) + IntText('*', Bit(error)) }

  /** Index, error flag, and how many bytes are left over. */
  function DecodeTimeout(s: string): Option<(nat, bool, nat)> {
    match DecodeInt(s, '*')
    case None => None
    case Some((idx, n)) =>
      match DecodeInt(s[n..], '*')
      case None => None
      case Some((error, m)) => Some((idx, error == 1, |s| - n - m))
  }

  /** Serializes a timeout entry, with a byte to spare. */
  method SerializeTimeout(idx: nat, error: bool) returns (enc: Encoder, ok: bool)
    requires idx <= ULONG_MAX
    ensures ok && enc.Valid() && enc.buf.Length == IntSize(idx) + IntSize(Bit(error)) + 1
    ensures TimeoutText(idx, error) <= enc.buf[..]
  {
    hide IntText;
    IntFits('*', idx);
    IntFits('*', Bit(error));
    enc := new Encoder(IntSize(idx) + IntSize(Bit(error)) + 1);
    ok := enc.Integer('*', idx);
    ok := enc.Integer('*', Bit(error));
    assert enc.Text() == TimeoutText(idx, error);
    ok := true;
  }

  /** A timeout entry reads back; the decoder's assertion that one byte is left holds exactly for indexes
      below ten million (a raft index is a signed 64-bit number). */
  lemma TimeoutReadsBack(idx: nat, error: bool, s: string)
    requires idx <= LONG_MAX && TimeoutText(idx, error) <= s && |s| == IntSize(idx) + IntSize(Bit(error)) + 1
    ensures var r := DecodeTimeout(s);
            r.Some? && r.value.0 == idx && r.value.1 == error && (r.value.2 == 1 <==> idx < 10000000)
  {
    hide IntText, DecodeInt;
    var a, b := IntText('*', idx), IntText('*', Bit(error));
    var t := s[|a| + |b|..];
    assert s == a + b + t == a + (b + t);
    IntReadsBack('*', idx, b + t);
    assert s[|a|..] == b + t;
    IntReadsBack('*', Bit(error), t);
    IntFits('*', idx);
    IntFits('*', Bit(error));
  }

  // ----- key lists -----

  function KeysText(keys: seq<string>): string {
    if keys == [] then "" else keys[0] + "\0" + KeysText(keys[1..])
  }

  function KeysSize(keys: seq<string>): nat {
    if keys == [] then 0 else |keys[0]| + 1 + KeysSize(keys[1..])
  }

  /** The decoder splits at terminators. */
  function SplitKeys(s: string, count: nat): (r: seq<string>)
    ensures |r| == count
    decreases count
  {
    if count == 0 then []
    else
      var n := Length(s);
      [s[..n]] + SplitKeys(if n < |s| then s[n + 1..] else "", count - 1)
  }

  /** strlen, within the buffer. */
  function Length(s: string): (n: nat)
    ensures n <= |s|
  {
    if s == [] || s[0] == '\0' then 0 else 1 + Length(s[1..])
  }

  function DecodeKeys(s: string): Option<seq<string>> {
    match DecodeInt(s, '*')
    case None => None
    case Some((count, n)) => Some(SplitKeys(s[n..], count))
  }

  ghost predicate Plain(keys: seq<string>) { forall i | 0 <= i < |keys| :: '\0' !in keys[i] }

  lemma {:induction false} LengthOf(k: string, t: string)
    requires '\0' !in k
    ensures Length(k + "\0" + t) == |k|
  {
    var s := k + "\0" + t;
    if k != [] {
      assert s[1..] == k[1..] + "\0" + t;
      assert s[0] == k[0] && k[0] in k;
      LengthOf(k[1..], t);
    }
  }

  lemma {:induction false} KeysSplitBack(keys: seq<string>)
    requires Plain(keys)
    ensures SplitKeys(KeysText(keys), |keys|) == keys
    decreases |keys|
  {
    hide Length, SplitKeys;
    if keys == [] {
      NoKeys(KeysText(keys));
    } else {
      var k, rest := keys[0], KeysText(keys[1..]);
      LengthOf(k, rest);
      KeysSplitBack(keys[1..]);
      FirstKey(k, rest, |keys|);
      assert keys == [k] + keys[1..];
    }
  }

  lemma NoKeys(s: string)
    ensures SplitKeys(s, 0) == []
  {
  }

  lemma FirstKey(k: string, rest: string, count: nat)
    requires count > 0 && Length(k + "\0" + rest) == |k|
    ensures SplitKeys(k + "\0" + rest, count) == [k] + SplitKeys(rest, count - 1)
  {
    hide Length;
    var s := k + "\0" + rest;
    assert s[..|k|] == k && s[|k| + 1..] == rest;
  }

  lemma {:induction false} LengthIsPlain(s: string)
    ensures '\0' !in s[..Length(s)]
  {
    if s != [] && s[0] != '\0' {
      LengthIsPlain(s[1..]);
      assert s[..Length(s)] == [s[0]] + s[1..][..Length(s[1..])];
    }
  }

  /** Splitting at terminators never yields a key that contains one. */
  lemma {:induction false} SplitIsPlain(s: string, count: nat)
    ensures Plain(SplitKeys(s, count))
    decreases count
  {
    hide Length;
    if count > 0 {
      LengthIsPlain(s);
      SplitIsPlain(if Length(s) < |s| then s[Length(s) + 1..] else "", count - 1);
    }
  }

  /** The keys read back exactly when none of them contains a terminator. */
  lemma KeysReadBack(keys: seq<string>)
    requires |keys| <= ULONG_MAX
    ensures DecodeKeys(IntText('*', |keys|) + KeysText(keys)) == Some(keys) <==> Plain(keys)
  {
    hide IntText, DecodeInt, SplitKeys, Plain;
    var a, t := IntText('*', |keys|), KeysText(keys);
    IntReadsBack('*', |keys|, t);
    assert (a + t)[|a|..] == t;
    SplitIsPlain(t, |keys|);
    if Plain(keys) { KeysSplitBack(keys); }
  }

  /** A key with a terminator in it, which Redis allows, comes back as another key. */
  lemma BinaryKeyIsCut()
    ensures LockSerializable(["a\0b"]) && DecodeKeys(IntText('*', 1) + KeysText(["a\0b"])) != Some(["a\0b"])
  {
    OneKey("a\0b");
    assert "a\0b"[1] == '\0' && !Plain(["a\0b"]) by { assert ["a\0b"][0][1] in ["a\0b"][0]; }
    KeysReadBack(["a\0b"]);
  }

  ghost predicate Distinct(keys: seq<string>) { forall i, j | 0 <= i < j < |keys| :: keys[i] != keys[j] }

  /** Collects the distinct keys and their total size. */
  method Collect(argv: seq<string>) returns (keys: seq<string>, total: nat)
    ensures Distinct(keys) && (forall k :: k in keys <==> k in argv) && total == KeysSize(keys)
  {
    keys, total := [], 0;
    var i := 0;
    while i < |argv|
      invariant 0 <= i <= |argv| && Distinct(keys) && total == KeysSize(keys)
      invariant forall k :: k in keys <==> k in argv[..i]
    {
      assert argv[..i + 1] == argv[..i] + [argv[i]];
      if argv[i] !in keys {
        KeysSizeSnoc(keys, argv[i]);
        keys, total := keys + [argv[i]], total + |argv[i]| + 1;
      }
      i := i + 1;
    }
    assert argv[..i] == argv;
  }

  lemma {:induction false} KeysSizeSnoc(keys: seq<string>, k: string)
    ensures KeysSize(keys + [k]) == KeysSize(keys) + |k| + 1 && KeysText(keys + [k]) == KeysText(keys) + k + "\0"
  {
    if keys == [] {
      assert keys + [k] == [k] && [k][1..] == [];
    } else {
      assert (keys + [k])[1..] == keys[1..] + [k];
      KeysSizeSnoc(keys[1..], k);
    }
  }

  lemma {:induction false} KeysSizeConcat(a: seq<string>, b: seq<string>)
    ensures KeysSize(a + b) == KeysSize(a) + KeysSize(b)
    decreases |a|
  {
    if a == [] {
      assert a + b == b;
    } else {
      assert (a + b)[1..] == a[1..] + b;
      KeysSizeConcat(a[1..], b);
    }
  }

  lemma KeysSizeWithout(keys: seq<string>, i: nat)
    requires i < |keys|
    ensures KeysSize(keys) == KeysSize(keys[..i] + keys[i + 1..]) + |keys[i]| + 1
  {
    assert keys == keys[..i] + ([keys[i]] + keys[i + 1..]);
    KeysSizeConcat(keys[..i], [keys[i]] + keys[i + 1..]);
    KeysSizeConcat(keys[..i], keys[i + 1..]);
    assert ([keys[i]] + keys[i + 1..])[1..] == keys[i + 1..];
  }

  /** Walks the dictionary of keys, in whatever order it keeps them. */
  method Walk(keys: seq<string>) returns (order: seq<string>)
    requires Distinct(keys)
    ensures Distinct(order) && (forall k :: k in order <==> k in keys) && |order| == |keys|
            && KeysSize(order) == KeysSize(keys)
  {
    order := [];
    var rest := keys;
    while rest != []
      invariant Distinct(order) && Distinct(rest) && (forall k :: k in order ==> k !in rest)
      invariant (forall k :: k in order || k in rest <==> k in keys) && |order| + |rest| == |keys|
      invariant KeysSize(order) + KeysSize(rest) == KeysSize(keys)
      decreases |rest|
    {
      var i: nat :| i < |rest|;
      var next := rest[..i] + rest[i + 1..];
      KeysSizeSnoc(order, rest[i]);
      KeysSizeWithout(rest, i);
      assert forall k :: k in rest <==> k in next || k == rest[i] by {
        assert rest == rest[..i] + [rest[i]] + rest[i + 1..];
      }
      assert rest[i] !in next;
      order, rest := order + [rest[i]], next;
    }
  }

  /** The serializer bounds the count by the space of the keys alone: its assertion holds exactly when the keys
      take more bytes than the count, and the last assertion exactly when the count's size is exact. */
  predicate LockSerializable(keys: seq<string>) {
    |IntText('*', |keys|)| < KeysSize(keys) && |IntText('*', |keys|)| == IntSize(|keys|)
  }

  /** Serializes the keys to be locked, in the order in which the dictionary keeps them. */
  method SerializeLockKeys(argv: seq<string>) returns (ok: bool, text: string, keys: seq<string>)
    ensures Distinct(keys) && (forall k :: k in keys <==> k in argv)
    ensures ok <==> LockSerializable(keys)
    ensures ok ==> text == IntText('*', |keys|) + KeysText(keys)
    ensures ok && |keys| <= ULONG_MAX ==> (DecodeKeys(text) == Some(keys) <==> Plain(keys))
  {
    hide IntText, DecodeKeys;
    var dict, total := Collect(argv);
    var ks := Walk(dict);
    keys := ks;
    var left: int := IntSize(|ks|) + total;
    text := IntText('*', |ks|);
    if |text| >= total { return false, "", ks; }
    left := left - |text|;
    var i := 0;
    KeysTaken(ks);
    while i < |ks|
      invariant 0 <= i <= |ks| && text == IntText('*', |ks|) + KeysText(ks[..i])
      invariant left == IntSize(|ks|) + total - |IntText('*', |ks|)| - KeysSize(ks[..i])
    {
      assert ks[..i + 1] == ks[..i] + [ks[i]];
      KeysSizeSnoc(ks[..i], ks[i]);
      text := text + ks[i] + "\0";
      left := left - (|ks[i]| + 1);
      i := i + 1;
    }
    assert ks[..i] == ks;
    if left != 0 { return false, "", ks; }
    if |ks| <= ULONG_MAX { KeysReadBack(ks); }
    return true, text, ks;
  }

  lemma KeysTaken(keys: seq<string>)
    ensures KeysText(keys[..0]) == "" && KeysSize(keys[..0]) == 0
  {
  }

  /** A single key can be serialized exactly when it has at least three bytes. */
  lemma OneKey(k: string)
    ensures LockSerializable([k]) <==> |k| >= 3
  {
    assert [k][1..] == [];
    assert KeysSize([k]) == |k| + 1 + KeysSize([k][1..]);
    IntFits('*', 1);
    assert |[k]| == 1;
  }

  /** Splits the keys out again. */
  method DeserializeLockKeys(s: string) returns (r: Option<seq<string>>)
    ensures r == DecodeKeys(s)
  {
    hide DecodeInt, Length;
    var h := ReadInt(s, '*');
    if h == None { return None; }
    var keys: seq<string>, rest := [], s[h.value.1..];
    while |keys| < h.value.0
      invariant |keys| <= h.value.0
      invariant keys + SplitKeys(rest, h.value.0 - |keys|) == SplitKeys(s[h.value.1..], h.value.0)
      decreases h.value.0 - |keys|
    {
      var n := Length(rest);
      var tail := if n < |rest| then rest[n + 1..] else "";
      assert keys + ([rest[..n]] + SplitKeys(tail, h.value.0 - |keys| - 1)) ==
             keys + [rest[..n]] + SplitKeys(tail, h.value.0 - |keys| - 1);
      keys, rest := keys + [rest[..n]], tail;
    }
    assert keys + [] == keys;
    return Some(keys);
  }
}
