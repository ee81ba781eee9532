/** What the formats look like, byte for byte, on small values: the round trips elsewhere do not depend on the choice of
    tags, codes and separators, these do. */
module FileFormats {
  import opened Wrappers
  import opened Decimal
  import opened MultiBulk
  import IndexWords
  import PageCodec
  import Metadata
  import Serialization
  import Payloads
  import SlotMaps
  import ShardText

  lemma SmallNumbers()
    ensures Digits(0) == "0" && Digits(1) == "1" && Digits(2) == "2" && Digits(3) == "3" && Digits(4) == "4"
    ensures Digits(5) == "5" && Digits(6) == "6" && Digits(7) == "7" && Digits(8) == "8"
    ensures Digits(10) == "10" && Digits(32) == "32"
  {
    assert Digits(10) == Digits(1) + "0" && Digits(32) == Digits(3) + "2";
  }

  // ----- the log page, the index and the metadata -----

  /** One field: its length and its bytes, each with a line end. */
  lemma FieldFormat()
    ensures Bulk("ab") == "$2\r\nab\r\n" && Bulk("") == "$0\r\n\r\n" && LengthLine('*', 7) == "*7\r\n"
  {
    SmallNumbers();
    hide Digits;
  }

  lemma One()
    ensures Dec(1) == "1" && LengthLine('*', 6) == "*6\r\n"
  {
    SmallNumbers();
    hide Digits;
  }

  lemma FiveBulks(a: string, b: string, c: string, d: string, e: string)
    ensures Bulks([a, b, c, d, e]) == Bulk(a) + Bulk(b) + Bulk(c) + Bulk(d) + Bulk(e)
  {
    hide Bulk;
    assert [a, b, c, d, e][1..] == [b, c, d, e] && [b, c, d, e][1..] == [c, d, e] && [c, d, e][1..] == [d, e];
    assert [d, e][1..] == [e] && [e][1..] == [];
    assert Bulks([e]) == Bulk(e);
    assert Bulks([d, e]) == Bulk(d) + Bulk(e);
    assert Bulks([c, d, e]) == Bulk(c) + (Bulk(d) + Bulk(e));
  }

  lemma SixBulks(a: string, b: string, c: string, d: string, e: string, f: string)
    ensures Bulks([a, b, c, d, e, f]) == Bulk(a) + Bulk(b) + Bulk(c) + Bulk(d) + Bulk(e) + Bulk(f)
  {
    hide Bulk;
    assert [a, b, c, d, e, f][1..] == [b, c, d, e, f];
    FiveBulks(b, c, d, e, f);
  }

  lemma EntryFormat(term: int, id: int, session: int, kind: int, data: string)
    ensures PageCodec.EntryBody(PageCodec.Entry(term, id, session, kind, data)) ==
            "*7\r\n" + Bulk("ENTRY") + Bulk(Dec(term)) + Bulk(Dec(id)) + Bulk(Dec(session)) + Bulk(Dec(kind)) +
              Bulk(data)
  {
    FieldFormat();
    hide LengthLine, Dec, Bulk;
    var e := PageCodec.Entry(term, id, session, kind, data);
    FiveBulks("ENTRY", Dec(term), Dec(id), Dec(session), Dec(kind));
    EntryEnds(e);
  }

  lemma EntryEnds(e: PageCodec.Entry)
    ensures PageCodec.EntryBody(e) == LengthLine('*', 7) + Bulks(PageCodec.EntryFields(e)) + Bulk(e.data)
  {
    hide LengthLine, Bulks;
  }

  lemma HeaderFormat(h: PageCodec.Header)
    ensures PageCodec.HeaderHead(h) ==
            "*7\r\n" + Bulk("RAFTLOG") + Bulk("1") + Bulk(h.dbid) + Bulk(Dec(h.nodeId)) + Bulk(Dec(h.prevTerm)) +
            Bulk(Dec(h.prevIdx))
  {
    hide LengthLine, Dec, Bulk, Bulks;
    FieldFormat();
    One();
    SixBulks("RAFTLOG", "1", h.dbid, Dec(h.nodeId), Dec(h.prevTerm), Dec(h.prevIdx));
  }

  lemma MetadataFormat(m: Metadata.Meta)
    ensures Metadata.MetaText(m) ==
            "*6\r\n" + Bulk("METADATA") + Bulk("1") + Bulk(m.dbid) + Bulk(Dec(m.nodeId)) + Bulk(Dec(m.term)) +
            Bulk(Dec(m.vote))
  {
    hide LengthLine, Dec, Bulk, Bulks;
    One();
    SixBulks("METADATA", "1", m.dbid, Dec(m.nodeId), Dec(m.term), Dec(m.vote));
  }

  lemma IndexFormat()
    ensures IndexWords.Word(0x0102) == [2 as char, 1 as char] + seq(6, i => 0 as char)
  {
    assert IndexWords.LittleEndianChars(0, 0) == [];
    assert IndexWords.LittleEndianChars(0, 6) == seq(6, i => 0 as char) by { Zeros(6); }
    assert IndexWords.LittleEndianChars(1, 7) == [1 as char] + IndexWords.LittleEndianChars(0, 6);
  }

  lemma {:induction false} Zeros(k: nat)
    ensures IndexWords.LittleEndianChars(0, k) == seq(k, i => 0 as char)
  {
    if k > 0 { Zeros(k - 1); }
  }

  // ----- entries of the Raft log -----

  lemma StringFormat(n: nat, s: string)
    requires |s| == n
    ensures Serialization.StrText(s) == "$" + Digits(n) + "\n" + s + "\n"
  {
    hide Digits;
  }

  lemma CommandFormat()
    ensures Payloads.ArrayText(Payloads.CommandArray(true, 5, None, [["SET", "k"]])) ==
            "*1\n" + "*5\n" + "$0\n\n" + "*1\n" + ("*2\n" + "$3\nSET\n" + "$1\nk\n")
  {
    SmallNumbers();
    hide Digits;
    StringFormat(0, "");
    StringFormat(3, "SET");
    StringFormat(1, "k");
    assert ["SET", "k"][1..] == ["k"] && ["k"][1..] == [];
    assert [["SET", "k"]][1..] == [];
    hide Serialization.StrText;
    assert Payloads.CmdText(["SET", "k"]) == "*2\n" + "$3\nSET\n" + "$1\nk\n";
    assert Payloads.CmdsText([["SET", "k"]]) == Payloads.CmdText(["SET", "k"]);
  }

  lemma ImportFormat()
    ensures Payloads.ImportText(Payloads.Import(2, 7, [("k", "v")])) == "*2\n" + "*7\n" + "*1\n" + "$1\nk\n" + "$1\nv\n"
  {
    SmallNumbers();
    hide Digits;
    StringFormat(1, "k");
    StringFormat(1, "v");
    assert [("k", "v")][1..] == [];
    assert Payloads.Pairs([("k", "v")]) == ["k", "v"];
    assert ["k", "v"][1..] == ["v"] && ["v"][1..] == [];
    hide Serialization.StrText;
    assert Serialization.StrsText(["k", "v"]) == "$1\nk\n" + "$1\nv\n";
  }

  lemma TimeoutFormat()
    ensures Payloads.TimeoutText(10, true) == "*10\n*1\n" && Payloads.TimeoutText(3, false) == "*3\n*0\n"
  {
    SmallNumbers();
    hide Digits;
  }

  lemma GroupFormat()
    ensures var g := SlotMaps.ShardGroup("g", [SlotMaps.SlotRange(0, 10, SlotMaps.Importing, 7)],
                                         [SlotMaps.Node("n", "h", 32)]);
            && ShardText.GroupFits(g)
            && ShardText.GroupText(g) == "g\n" + "1\n" + "1\n" + ("0\n" + "10\n" + "2\n" + "7\n") + ("n\n" + "h:32\n")
  {
    SmallNumbers();
    hide Digits;
    var r, n := SlotMaps.SlotRange(0, 10, SlotMaps.Importing, 7), SlotMaps.Node("n", "h", 32);
    assert [r][1..] == [] && [n][1..] == [];
    assert ShardText.RangesText([r]) == ShardText.RangeText(r) && ShardText.NodesText([n]) == ShardText.NodeText(n);
  }

  lemma KindCodes()
    ensures ShardText.KindCode(SlotMaps.Stable) == 1 && ShardText.KindCode(SlotMaps.Importing) == 2
    ensures ShardText.KindCode(SlotMaps.Migrating) == 3
  {
  }
}
