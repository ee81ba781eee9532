/** Loading page files, in particular page files that a crash cut short. */
module PageRecovery {
  import opened Wrappers
  import opened FileIO
  import opened Crc32c
  import opened PageCodec

  /** What loading finds: entries, where each starts, the running checksum and the end. */
  datatype Loaded = Loaded(entries: seq<Entry>, offsets: seq<nat>, crc: word32, end: nat)

  /** Entries are taken until one is torn or its checksum does not continue the chain. */
  function LoadFrom(d: string, off: nat, crc: word32): (r: Loaded)
    requires off <= |d|
    ensures |r.entries| == |r.offsets| && off <= r.end <= |d|
    decreases |d| - off
  {
    match ParseEntry(d, off)
    case None => Loaded([], [], crc, off)
    case Some((e, stored, next)) =>
      var c := NextCrc(crc, e);
      if c != stored then Loaded([], [], crc, off)
      else
        var r := LoadFrom(d, next, c);
        Loaded([e] + r.entries, [off] + r.offsets, r.crc, r.end)
  }

  /** A page is opened only when its header parses and carries its own checksum. */
  function OpenPage(d: string): (r: Option<(Header, nat)>)
    ensures r.Some? ==> r.value.1 <= |d|
  {
    match ParseHeader(d, 0)
    case None => None
    case Some((h, crc, end)) => if HeaderCrc(h) == crc then Some((h, end)) else None
  }

  /** Where the entries of a page start. */
  function Offsets(es: seq<Entry>, crc: word32, base: nat): (r: seq<nat>)
    ensures |r| == |es|
  {
    if es == [] then [] else [base] + Offsets(es[1..], NextCrc(crc, es[0]), base + |EntryText(es[0], crc)|)
  }

  /** How many entries fit entirely in the first `room` bytes of the chain. */
  function WholeEntries(es: seq<Entry>, crc: word32, room: nat): (m: nat)
    ensures m <= |es|
    decreases |es|
  {
    if es == [] || room < |EntryText(es[0], crc)| then 0
    else 1 + WholeEntries(es[1..], NextCrc(crc, es[0]), room - |EntryText(es[0], crc)|)
  }

  lemma EntryNotEmpty(e: Entry, crc: word32)
    ensures EntryText(e, crc) != []
  {
  }

  lemma NothingParsesAtEnd(d: string)
    ensures ParseEntry(d, |d|) == None
  {
    assert From(d, |d|) == [];
  }

  /** The bytes after `off` are a chain cut at any byte: exactly the whole entries come back. */
  lemma {:induction false} LoadCutChain(d: string, off: nat, es: seq<Entry>, crc: word32)
    requires AllWellFormed(es) && off <= |d| && d[off..] <= Chain(es, crc)
    ensures var m := WholeEntries(es, crc, |d| - off);
            LoadFrom(d, off, crc) ==
            Loaded(es[..m], Offsets(es[..m], crc, off), ChainCrc(es[..m], crc), off + |Chain(es[..m], crc)|)
    decreases |es|
  {
    hide ParseEntry, EntryText, NextCrc;
    if es == [] {
      NothingParsesAtEnd(d);
    } else {
      var e, rest := es[0], es[1..];
      var text, next := EntryText(e, crc), NextCrc(crc, e);
      var n := |d| - off;
      EntryNotEmpty(e, crc);
      if n < |text| {
        assert d[off..] == text[..n];
        EntryTorn(d, off, e, crc);
      } else {
        assert d[off..off + |text|] == d[off..][..|text|] == text;
        assert d[off + |text|..] == d[off..][|text|..] <= Chain(rest, next);
        EntryAt(d, off, e, crc);
        LoadCutChain(d, off + |text|, rest, next);
        var m := WholeEntries(rest, next, n - |text|);
        FirstAnd(es, m);
        assert LoadFrom(d, off + |text|, next) ==
               Loaded(rest[..m], Offsets(rest[..m], next, off + |text|), ChainCrc(rest[..m], next),
                      off + |text| + |Chain(rest[..m], next)|);
      }
    }
  }

  lemma FirstAnd(es: seq<Entry>, m: nat)
    requires es != [] && m <= |es[1..]|
    ensures es[..m + 1] == [es[0]] + es[1..][..m]
    ensures es[..m + 1][0] == es[0] && es[..m + 1][1..] == es[1..][..m]
  {
  }

  /** The whole entries are the longest prefix that fits. */
  lemma {:induction false} WholeEntriesExact(es: seq<Entry>, crc: word32, room: nat)
    ensures var m := WholeEntries(es, crc, room);
            |Chain(es[..m], crc)| <= room && (m < |es| ==> room < |Chain(es[..m + 1], crc)|)
    decreases |es|
  {
    hide EntryText, NextCrc;
    if es != [] {
      var text, next := EntryText(es[0], crc), NextCrc(crc, es[0]);
      if room < |text| {
        FirstAnd(es, 0);
        assert es[..1] == [es[0]];
        assert |Chain(es[..1], crc)| >= |text|;
      } else {
        WholeEntriesExact(es[1..], next, room - |text|);
        var m := WholeEntries(es[1..], next, room - |text|);
        FirstAnd(es, m);
        if m < |es[1..]| {
          FirstAnd(es, m + 1);
        }
      }
    }
  }

  /** Crash recovery of one page: a file cut at any byte after its header loads exactly the
      entries wholly contained in it, with their offsets and running checksum. */
  lemma CutPageRecovers(h: Header, es: seq<Entry>, k: nat)
    requires HeaderOk(h) && AllWellFormed(es) && |HeaderText(h)| <= k <= |PageText(h, es)|
    ensures var d := PageText(h, es)[..k];
            var base := |HeaderText(h)|;
            var m := WholeEntries(es, HeaderCrc(h), k - base);
            && OpenPage(d) == Some((h, base))
            && LoadFrom(d, base, HeaderCrc(h)) ==
               Loaded(es[..m], Offsets(es[..m], HeaderCrc(h), base), ChainCrc(es[..m], HeaderCrc(h)),
                 |PageText(h, es[..m])|)
            && |PageText(h, es[..m])| <= k && (m < |es| ==> k < |PageText(h, es[..m + 1])|)
  {
    hide ParseHeader, HeaderText, HeaderCrc, Chain, LoadFrom, Offsets, WholeEntries, ChainCrc;
    var head, chain := HeaderText(h), Chain(es, HeaderCrc(h));
    var d := PageText(h, es)[..k];
    assert d[0..|head|] == head;
    HeaderAt(d, h);
    assert d[|head|..] == chain[..k - |head|];
    LoadCutChain(d, |head|, es, HeaderCrc(h));
    WholeEntriesExact(es, HeaderCrc(h), k - |head|);
  }

  // ----- appending and looking up -----

  lemma {:induction false} ChainSplit(a: seq<Entry>, b: seq<Entry>, crc: word32)
    ensures Chain(a + b, crc) == Chain(a, crc) + Chain(b, ChainCrc(a, crc))
    ensures ChainCrc(a + b, crc) == ChainCrc(b, ChainCrc(a, crc))
    decreases |a|
  {
    hide EntryText, NextCrc;
    if a == [] {
      assert a + b == b;
    } else {
      assert (a + b)[1..] == a[1..] + b;
      ChainSplit(a[1..], b, NextCrc(crc, a[0]));
    }
  }

  lemma {:induction false} OffsetsSplit(a: seq<Entry>, b: seq<Entry>, crc: word32, base: nat)
    ensures Offsets(a + b, crc, base) == Offsets(a, crc, base) + Offsets(b, ChainCrc(a, crc), base + |Chain(a, crc)|)
    decreases |a|
  {
    hide EntryText, NextCrc;
    if a == [] {
      assert a + b == b;
    } else {
      var text, next := EntryText(a[0], crc), NextCrc(crc, a[0]);
      assert (a + b)[1..] == a[1..] + b;
      OffsetsSplit(a[1..], b, next, base + |text|);
      assert |Chain(a, crc)| == |text| + |Chain(a[1..], next)|;
    }
  }

  lemma ChainOne(e: Entry, crc: word32, base: nat)
    ensures Chain([e], crc) == EntryText(e, crc) && ChainCrc([e], crc) == NextCrc(crc, e)
    ensures Offsets([e], crc, base) == [base]
  {
    hide EntryText, NextCrc;
    assert [e][1..] == [];
  }

  /** One more entry: its text, its place and its checksum all go at the end. */
  lemma ChainAppend(es: seq<Entry>, e: Entry, crc: word32, base: nat)
    ensures Chain(es + [e], crc) == Chain(es, crc) + EntryText(e, ChainCrc(es, crc))
    ensures ChainCrc(es + [e], crc) == NextCrc(ChainCrc(es, crc), e)
    ensures Offsets(es + [e], crc, base) == Offsets(es, crc, base) + [base + |Chain(es, crc)|]
  {
    hide Chain, ChainCrc, Offsets, EntryText, NextCrc;
    ChainSplit(es, [e], crc);
    OffsetsSplit(es, [e], crc, base);
    ChainOne(e, ChainCrc(es, crc), base + |Chain(es, crc)|);
  }

  /** Entry `k` sits right after the entries before it, at its recorded offset. */
  lemma ChainAtIndex(es: seq<Entry>, crc: word32, base: nat, k: nat)
    requires k < |es|
    ensures Offsets(es, crc, base)[k] == base + |Chain(es[..k], crc)|
    ensures Offsets(es[..k], crc, base) == Offsets(es, crc, base)[..k]
    ensures Chain(es[..k], crc) + EntryText(es[k], ChainCrc(es[..k], crc)) <= Chain(es, crc)
  {
    hide Chain, ChainCrc, Offsets, EntryText, NextCrc;
    var a, one, b := es[..k], [es[k]], es[k + 1..];
    var crcA := ChainCrc(a, crc);
    var at := base + |Chain(a, crc)|;
    assert es == a + (one + b) && es[..k + 1] == a + one;
    ChainSplit(a, one + b, crc);
    ChainSplit(one, b, crcA);
    ChainOne(es[k], crcA, at);
    OffsetsSplit(a, one + b, crc, base);
    OffsetsSplit(one, b, crcA, at);
  }
}
