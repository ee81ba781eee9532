/** No proper beginning of a serialized group, command array or import reads as one. */
module TornTexts {
  import opened Wrappers
  import opened Decimal
  import opened FileIO
  import opened SlotMaps
  import Serialization
  import Payloads
  import opened ShardText

  /** Where a text is cut: in its first piece, or in what follows. */
  lemma CutPlace(s: string, p: string, t: string)
    requires s < p + t
    ensures |s| < |p| ==> s < p
    ensures |s| >= |p| ==> s == p + s[|p|..] && s[|p|..] < t
  {
    var whole := p + t;
    assert s == whole[..|s|];
    if |s| < |p| {
      assert s == p[..|s|];
    } else {
      assert s[..|p|] == p && s[|p|..] == t[..|s| - |p|];
    }
  }

  // ----- shard groups -----

  lemma NoLineEnd(s: string)
    requires '\n' !in s
    ensures LineEnd(s) == None
  {
    NewlineAfter(s, []);
    assert s + [] == s;
  }

  lemma LineTorn(s: string, line: string)
    requires '\n' !in line && s < line + "\n"
    ensures ReadLine(s) == Rejected && ReadNumber(s) == Rejected
  {
    hide LineEnd, ScanNumber;
    assert s == line[..|s|];
    NoLineEnd(s);
  }

  /** A line and what follows, cut: the line is missing, or it is read and what follows is cut. */
  lemma CutLine(s: string, line: string, t: string)
    requires '\n' !in line && s < line + "\n" + t
    ensures ReadLine(s) == Rejected || (ReadLine(s).Got? && ReadLine(s).value == line && ReadLine(s).rest < t)
  {
    hide ReadLine, ReadNumber;
    CutPlace(s, line + "\n", t);
    if |s| < |line + "\n"| {
      LineTorn(s, line);
    } else {
      LineReadsBack(line, s[|line| + 1..]);
    }
  }

  lemma CutNumber(s: string, n: nat, t: string)
    requires n <= ULONG_MAX && s < NumberLine(n) + t
    ensures ReadNumber(s) == Rejected || (ReadNumber(s).Got? && ReadNumber(s).value == n && ReadNumber(s).rest < t)
  {
    hide ReadLine, ReadNumber, Digits;
    CutPlace(s, NumberLine(n), t);
    if |s| < |NumberLine(n)| {
      DigitsHaveNo(n, '\n');
      LineTorn(s, Digits(n));
    } else {
      NumberReadsBack(n, s[|NumberLine(n)|..]);
    }
  }

  lemma CutRange(s: string, r: SlotRange, t: string)
    requires RangeFits(r) && s < RangeText(r) + t
    ensures ReadRange(s) == Rejected || (ReadRange(s).Got? && ReadRange(s).value == r && ReadRange(s).rest < t)
  {
    hide NumberLine, ReadNumber;
    var a, b, c, d := NumberLine(r.start), NumberLine(r.end), NumberLine(KindCode(r.kind)), NumberLine(r.session);
    assert RangeText(r) + t == a + (b + (c + (d + t)));
    CutNumber(s, r.start, b + (c + (d + t)));
    if ReadNumber(s).Got? {
      var s1 := ReadNumber(s).rest;
      CutNumber(s1, r.end, c + (d + t));
      if ReadNumber(s1).Got? {
        var s2 := ReadNumber(s1).rest;
        CutNumber(s2, KindCode(r.kind), d + t);
        if ReadNumber(s2).Got? { CutNumber(ReadNumber(s2).rest, r.session, t); }
      }
    }
  }

  lemma CutNode(s: string, n: Node, t: string)
    requires NodeFits(n) && s < NodeText(n) + t
    ensures ReadNode(s) == Rejected || (ReadNode(s).Got? && ReadNode(s).value == n && ReadNode(s).rest < t)
  {
    hide ReadLine, ParseAddr, Digits;
    var addr := AddrText(n);
    assert NodeText(n) + t == n.id + "\n" + (addr + "\n" + t);
    CutLine(s, n.id, addr + "\n" + t);
    DigitsHaveNo(n.port, '\n');
    assert '\n' !in addr;
    if ReadLine(s).Got? {
      CutLine(ReadLine(s).rest, addr, t);
      AddrReadsBack(n);
    }
  }

  lemma {:induction false} CutRanges(s: string, rs: seq<SlotRange>, t: string)
    requires (forall i | 0 <= i < |rs| :: RangeFits(rs[i])) && s < RangesText(rs) + t
    ensures ReadRanges(s, |rs|) == Rejected ||
            (ReadRanges(s, |rs|).Got? && ReadRanges(s, |rs|).value == rs && ReadRanges(s, |rs|).rest < t)
    decreases |rs|
  {
    hide RangeText, ReadRange;
    if rs == [] {
      assert RangesText(rs) + t == t;
    } else {
      var rest := RangesText(rs[1..]) + t;
      assert RangesText(rs) + t == RangeText(rs[0]) + rest;
      CutRange(s, rs[0], rest);
      if ReadRange(s).Got? { CutRanges(ReadRange(s).rest, rs[1..], t); }
      assert rs == [rs[0]] + rs[1..];
    }
  }

  lemma {:induction false} CutNodes(s: string, ns: seq<Node>)
    requires (forall i | 0 <= i < |ns| :: NodeFits(ns[i])) && s < NodesText(ns)
    ensures ReadNodes(s, |ns|) == Rejected
    decreases |ns|
  {
    hide NodeText, ReadNode;
    if ns != [] {
      CutNode(s, ns[0], NodesText(ns[1..]));
      if ReadNode(s).Got? { CutNodes(ReadNode(s).rest, ns[1..]); }
    }
  }

  /** For every group: its text cut anywhere is rejected, without a failed assertion. */
  lemma GroupTorn(s: string, g: ShardGroup)
    requires GroupFits(g) && s < GroupText(g)
    ensures ReadGroup(s) == Rejected
  {
    hide NumberLine, RangesText, NodesText, ReadLine, ReadNumber, ReadRanges, ReadNodes;
    var t2 := RangesText(g.ranges) + NodesText(g.nodes);
    var t1 := NumberLine(|g.nodes|) + t2;
    var t0 := NumberLine(|g.ranges|) + t1;
    assert GroupText(g) == g.id + "\n" + t0;
    CutLine(s, g.id, t0);
    if ReadLine(s).Got? {
      var s1 := ReadLine(s).rest;
      CutNumber(s1, |g.ranges|, t1);
      if ReadNumber(s1).Got? {
        var s2 := ReadNumber(s1).rest;
        CutNumber(s2, |g.nodes|, t2);
        if ReadNumber(s2).Got? {
          var s3 := ReadNumber(s2).rest;
          CutRanges(s3, g.ranges, NodesText(g.nodes));
          if ReadRanges(s3, |g.ranges|).Got? { CutNodes(ReadRanges(s3, |g.ranges|).rest, g.nodes); }
        }
      }
    }
  }

  /** A group whose id is longer than 32 bytes is rejected. */
  lemma LongIdRejected(id: string, t: string)
    requires '\n' !in id && |id| > 32
    ensures ReadGroup(id + "\n" + t) == Rejected
  {
    hide ReadLine, ReadNumber, ReadRanges, ReadNodes;
    LineReadsBack(id, t);
  }

  // ----- entries -----

  lemma {:induction false} DigitsOnly(s: string, i: nat, tmp: nat)
    requires i < |s| && forall j | i <= j < |s| :: IsDigit(s[j])
    ensures Serialization.ScanDigits(s, i, tmp) == None
    decreases |s| - i
  {
    if i + 1 < |s| { DigitsOnly(s, i + 1, Serialization.Accumulate(tmp, s[i])); }
  }

  lemma IntTorn(s: string, prefix: char, v: nat)
    requires s < Serialization.IntText(prefix, v)
    ensures Serialization.DecodeInt(s, prefix) == None
  {
    DigitsShape(v);
    hide Digits;
    if |s| >= 3 {
      assert forall j | 1 <= j < |s| :: s[j] == Digits(v)[j - 1];
      DigitsOnly(s, 1, 0);
    }
  }

  /** A number and what follows, cut: the number does not decode, or it does and what follows is cut. */
  lemma CutInt(s: string, prefix: char, v: nat, t: string)
    requires v <= ULONG_MAX && s < Serialization.IntText(prefix, v) + t
    ensures Serialization.DecodeInt(s, prefix) == None ||
            (Serialization.DecodeInt(s, prefix) == Some((v, |Serialization.IntText(prefix, v)|)) &&
             s[|Serialization.IntText(prefix, v)|..] < t)
  {
    hide Serialization.IntText, Serialization.DecodeInt;
    var p := Serialization.IntText(prefix, v);
    CutPlace(s, p, t);
    if |s| < |p| { IntTorn(s, prefix, v); } else { Serialization.IntReadsBack(prefix, v, s[|p|..]); }
  }

  lemma StrTorn(s: string, x: string)
    requires |x| <= ULONG_MAX && s < Serialization.StrText(x)
    ensures Serialization.DecodeStr(s) == None
  {
    hide Serialization.IntText, Serialization.DecodeInt;
    assert Serialization.StrText(x) == Serialization.IntText('$', |x|) + (x + "\n");
    CutInt(s, '$', |x|, x + "\n");
  }

  lemma CutStr(s: string, x: string, t: string)
    requires |x| <= ULONG_MAX && s < Serialization.StrText(x) + t
    ensures Serialization.DecodeStr(s) == None ||
            (Serialization.DecodeStr(s) == Some((x, |Serialization.StrText(x)|)) && s[|Serialization.StrText(x)|..] < t)
  {
    hide Serialization.StrText, Serialization.DecodeStr;
    var p := Serialization.StrText(x);
    CutPlace(s, p, t);
    if |s| < |p| { StrTorn(s, x); } else { Serialization.StrReadsBack(x, s[|p|..]); }
  }

  lemma {:induction false} StrsTorn(s: string, ss: seq<string>)
    requires Serialization.AllShort(ss) && s < Serialization.StrsText(ss)
    ensures Serialization.DecodeStrs(s, |ss|) == None
    decreases |ss|
  {
    hide Serialization.StrText, Serialization.DecodeStr;
    if ss != [] {
      var n := |Serialization.StrText(ss[0])|;
      CutStr(s, ss[0], Serialization.StrsText(ss[1..]));
      if Serialization.DecodeStr(s).Some? { StrsTorn(s[n..], ss[1..]); }
    }
  }

  lemma CmdTorn(s: string, c: seq<string>)
    requires Payloads.CmdOk(c) && s < Payloads.CmdText(c)
    ensures Payloads.DecodeCmd(s) == None
  {
    hide Serialization.IntText, Serialization.DecodeInt, Serialization.StrsText, Serialization.DecodeStrs;
    CutInt(s, '*', |c|, Serialization.StrsText(c));
    if Serialization.DecodeInt(s, '*').Some? { StrsTorn(s[|Serialization.IntText('*', |c|)|..], c); }
  }

  lemma {:induction false} CmdsTorn(s: string, cs: seq<seq<string>>)
    requires (forall i | 0 <= i < |cs| :: Payloads.CmdOk(cs[i])) && s < Payloads.CmdsText(cs)
    ensures Payloads.DecodeCmds(s, |cs|) == None
    decreases |cs|
  {
    hide Payloads.CmdText, Payloads.DecodeCmd, Payloads.CmdOk;
    if cs != [] {
      var p := Payloads.CmdText(cs[0]);
      CutPlace(s, p, Payloads.CmdsText(cs[1..]));
      if |s| < |p| {
        CmdTorn(s, cs[0]);
      } else {
        Payloads.CmdReadsBack(cs[0], s[|p|..]);
        CmdsTorn(s[|p|..], cs[1..]);
      }
    }
  }

  /** For every command array: its serialized form cut anywhere does not decode. */
  lemma ArrayTorn(s: string, a: Payloads.CommandArray)
    requires Payloads.ArrayOk(a) && s < Payloads.ArrayText(a)
    ensures Payloads.DecodeArray(s) == None
  {
    hide Serialization.IntText, Serialization.StrText, Serialization.DecodeInt, Serialization.DecodeStr;
    hide Payloads.CmdsText, Payloads.DecodeCmds, Payloads.CmdOk;
    var acl := Payloads.AclText(a.acl);
    var a0, a1, a2, a3 := Serialization.IntText('*', Payloads.Bit(a.asking)), Serialization.IntText('*', a.flags),
      Serialization.StrText(acl), Serialization.IntText('*', |a.commands|);
    var t3 := Payloads.CmdsText(a.commands);
    assert Payloads.ArrayText(a) == a0 + (a1 + (a2 + (a3 + t3)));
    CutInt(s, '*', Payloads.Bit(a.asking), a1 + (a2 + (a3 + t3)));
    if Serialization.DecodeInt(s, '*').Some? {
      var s1 := s[|a0|..];
      CutInt(s1, '*', a.flags, a2 + (a3 + t3));
      if Serialization.DecodeInt(s1, '*').Some? {
        var s2 := s1[|a1|..];
        CutStr(s2, acl, a3 + t3);
        if Serialization.DecodeStr(s2).Some? {
          var s3 := s2[|a2|..];
          CutInt(s3, '*', |a.commands|, t3);
          if Serialization.DecodeInt(s3, '*').Some? { CmdsTorn(s3[|a3|..], a.commands); }
        }
      }
    }
  }

  /** So with every import. */
  lemma ImportTorn(s: string, m: Payloads.Import)
    requires Payloads.ImportOk(m) && s < Payloads.ImportText(m)
    ensures Payloads.DecodeImport(s) == None
  {
    hide Serialization.IntText, Serialization.DecodeInt, Serialization.StrsText, Serialization.DecodeStrs;
    hide Payloads.Paired, Payloads.Pairs;
    var a0, a1, a2 := Serialization.IntText('*', m.term), Serialization.IntText('*', m.session),
      Serialization.IntText('*', |m.keys|);
    var t2 := Serialization.StrsText(Payloads.Pairs(m.keys));
    Payloads.PairedPairs(m.keys);
    assert Payloads.ImportText(m) == a0 + (a1 + (a2 + t2));
    CutInt(s, '*', m.term, a1 + (a2 + t2));
    if Serialization.DecodeInt(s, '*').Some? {
      var s1 := s[|a0|..];
      CutInt(s1, '*', m.session, a2 + t2);
      if Serialization.DecodeInt(s1, '*').Some? {
        var s2 := s1[|a1|..];
        CutInt(s2, '*', |m.keys|, t2);
        if Serialization.DecodeInt(s2, '*').Some? { StrsTorn(s2[|a2|..], Payloads.Pairs(m.keys)); }
      }
    }
  }
}
