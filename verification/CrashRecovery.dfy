/** A run of the log, a crash at any moment after it, and the start that follows. */
module CrashRecovery {
  import opened Wrappers
  import opened Statuses
  import opened FileIO
  import opened MultiBulk
  import opened PageCodec
  import opened PageRecovery
  import opened LogPages
  import opened Logs
  import opened LogStores
  import opened LogRuns

  // ----- one page file -----

  /** The kernel always holds a page's whole header, then a prefix of its entries' text. */
  lemma PageOnDisk(p: LogPage, kept: nat)
    requires p.Valid() && kept <= |p.file.disk|
    ensures HeaderOk(p.Head()) && AllWellFormed(p.entries) && p.synced <= |p.entries|
    ensures |HeaderText(p.Head())| <= |p.file.disk| <= |PageText(p.Head(), p.entries)|
    ensures p.file.disk[..kept] == PageText(p.Head(), p.entries)[..kept]
    ensures p.Flushed() ==> |p.file.disk| == |PageText(p.Head(), p.entries)|
    ensures p.Durable() <= |p.file.disk| <= OFFSET_MAX
  {
    hide HeaderText, PageText, SizeOf;
    assert p.file.disk + p.file.buf[..p.file.wpos] == PageText(p.Head(), p.entries);
  }

  lemma TornHeader(h: Header, es: seq<Entry>, k: nat)
    requires k < |HeaderText(h)|
    ensures k <= |PageText(h, es)| && TornAt(PageText(h, es)[..k], 0, HeaderText(h))
  {
    hide HeaderText;
    assert PageText(h, es)[..k] == HeaderText(h)[..k];
  }

  /** A page file opens exactly when its header survived. */
  lemma OpensIff(h: Header, es: seq<Entry>, k: nat)
    requires HeaderOk(h) && AllWellFormed(es) && k <= |PageText(h, es)|
    ensures OpenPage(PageText(h, es)[..k]).Some? <==> k >= |HeaderText(h)|
    ensures k >= |HeaderText(h)| ==> OpenPage(PageText(h, es)[..k]).value.0 == h
  {
    hide HeaderText, PageText, ParseHeader;
    if k >= |HeaderText(h)| {
      CutPageRecovers(h, es, k);
    } else {
      TornHeader(h, es, k);
      HeaderTorn(PageText(h, es)[..k], h);
    }
  }

  /** A file that lost nothing gives back every entry. */
  lemma NothingCut(c: CutPage)
    requires c.Ok() && c.at == |PageText(c.header, c.entries)|
    ensures c.Whole() == c.entries
  {
    hide CutPage.Whole, HeaderText, PageText, SizeOf;
    WholeSize(c.header, c.entries);
    DurableRecovered(c, |c.entries|);
  }

  lemma SizeIsChain(h: Header, es: seq<Entry>, n: nat)
    requires n <= |es|
    ensures SizeOf(h, es, n) == |HeaderText(h)| + |Chain(es[..n], HeaderCrc(h))|
  {
    hide HeaderText, HeaderCrc, Chain;
  }

  /** A file that kept the bytes of the first `n` entries gives these back. */
  lemma DurableRecovered(c: CutPage, n: nat)
    requires c.Ok() && n <= |c.entries| && SizeOf(c.header, c.entries, n) <= c.at
    ensures n <= |c.Whole()|
  {
    hide HeaderText, HeaderCrc, Chain, WholeEntries, PageText, SizeOf;
    var es, crc := c.entries, HeaderCrc(c.header);
    var m := |c.Whole()|;
    WholeEntriesExact(es, crc, c.at - |HeaderText(c.header)|);
    if m < n {
      SizeGrows(c.header, es, m + 1, n);
      SizeIsChain(c.header, es, m + 1);
    }
  }

  // ----- both files -----

  /** A file cut anywhere. */
  ghost predicate Left(c: CutPage) {
    HeaderOk(c.header) && AllWellFormed(c.entries) && c.at <= |PageText(c.header, c.entries)|
  }

  ghost function LeftBytes(c: CutPage): string
    requires Left(c)
  {
    PageText(c.header, c.entries)[..c.at]
  }

  predicate HasHeader(c: CutPage) { |HeaderText(c.header)| <= c.at }

  lemma LeftOpens(c: CutPage)
    requires Left(c)
    ensures OpenPage(LeftBytes(c)).Some? <==> HasHeader(c)
    ensures HasHeader(c) ==> c.Ok() && c.Bytes() == LeftBytes(c) && OpenPage(LeftBytes(c)).value.0 == c.header
  {
    hide HeaderText, PageText, HeaderOk, OpenPage;
    OpensIff(c.header, c.entries, c.at);
  }

  /** What a crash left of the page files, and how many entries of each had been synced. */
  datatype Image = Image(first: CutPage, second: Option<CutPage>, synced0: nat, synced1: nat) {

    ghost predicate Valid() {
      && Left(first) && synced0 <= |first.entries|
      && (second.Some? ==>
            && Left(second.value) && synced1 <= |second.value.entries|
            && Continues(first.header, first.entries, second.value.header))
    }

    ghost predicate HeadersSurvive() { HasHeader(first) && (second.Some? ==> HasHeader(second.value)) }

    /** The bytes that were synced are all there. */
    ghost predicate DurableKept()
      requires Valid()
    {
      && SizeOf(first.header, first.entries, synced0) <= first.at
      && (second.Some? ==> SizeOf(second.value.header, second.value.entries, synced1) <= second.value.at)
    }

    ghost predicate NothingLost() {
      && first.at == |PageText(first.header, first.entries)|
      && (second.Some? ==> second.value.at == |PageText(second.value.header, second.value.entries)|)
    }

    /** The entries of the log before the crash. */
    ghost function Entries(): seq<Entry> {
      if second.None? then first.entries else first.entries + second.value.entries
    }

    ghost predicate FirstSynced() { second.Some? ==> synced0 == |first.entries| }

    ghost function Synced(): nat {
      if second.None? || synced0 < |first.entries| then synced0 else |first.entries| + synced1
    }

    /** The recovered entries are a prefix of the log's, and all of them when nothing was lost. */
    lemma RecoveredOf()
      requires Valid() && HeadersSurvive()
      ensures first.Ok() && (second.Some? ==> second.value.Ok()) && Recovered(first, second) <= Entries()
      ensures NothingLost() ==> Recovered(first, second) == Entries()
    {
      hide HeaderText, PageText, HeaderOk, CutPage.Whole;
      RecoveredIsPrefix(first, second);
      if NothingLost() {
        NothingCut(first);
        if second.Some? { NothingCut(second.value); }
      }
    }

    /** When the synced bytes survive, so do the headers and every entry that was synced. */
    lemma DurableSurvives()
      requires Valid() && DurableKept()
      ensures HeadersSurvive() && first.Ok() && synced0 <= |first.Whole()|
      ensures second.Some? ==> second.value.Ok() && synced1 <= |second.value.Whole()|
      ensures FirstSynced() ==> Synced() <= |Recovered(first, second)|
    {
      hide CutPage.Whole, HeaderText, PageText, HeaderOk, SizeOf;
      DurableRecovered(first, synced0);
      if second.Some? { DurableRecovered(second.value, synced1); }
      assert first.Whole() <= first.entries;
    }
  }

  /** How many of the first `n` entries the file has. */
  ghost function Among(n: nat, c: CutPage): nat
    requires c.Ok()
  {
    if n <= |c.Whole()| then n else |c.Whole()|
  }

  /** The log found after a crash, if there is one: it opens exactly when the headers survived, and holds the entries
      whose text survived.  The process stops only if a call into the kernel fails. */
  ghost predicate FoundAs(st: Status, again: Log?, image: Image)
    reads again, if again == null then {} else again.Repr()
    requires image.Valid()
  {
    && (st == Error <==> !image.HeadersSurvive()) && (image.DurableKept() ==> st != Error)
    && (st == Panic ==> again != null && again.Failures() > 0)
    && (st == Ok ==>
          && again != null && again.Valid() && again.View().prev == image.first.header.prevIdx && again.Failures() == 0
          && image.first.Ok() && (image.second.Some? ==> image.second.value.Ok())
          && again.View().entries == Recovered(image.first, image.second) <= image.Entries()
          && (image.NothingLost() ==> again.View().entries == image.Entries())
          && (image.DurableKept() && image.FirstSynced() ==>
                image.Synced() <= |again.View().entries| && again.FirstSynced() && image.Synced() <= again.Synced()))
  }

  /** Open and load the files that a crash left. */
  method Start(d0: string, d1: Option<string>, ghost image: Image) returns (st: Status, again: Log?)
    requires image.Valid() && |d0| <= OFFSET_MAX && d0 == LeftBytes(image.first)
    requires image.second.Some? <==> d1.Some?
    requires d1.Some? ==> |d1.value| <= OFFSET_MAX && d1.value == LeftBytes(image.second.value)
    ensures FoundAs(st, again, image) && (again != null ==> fresh(again.Repr()))
  {
    hide LogPage.Valid, LogPage.Opened, Left, LeftBytes, HasHeader, OpenPage, CutPage.Ok, CutPage.Whole, CutPage.Bytes;
    hide Recovered, FoundAs, Image.DurableKept;
    ghost var c0, c1 := image.first, image.second;
    LeftOpens(c0);
    if c1.Some? { LeftOpens(c1.value); }
    st, again := Log.Open(d0, d1);
    if st == Ok {
      ghost var known1 := if c1.None? then 0 else Among(image.synced1, c1.value);
      st := again.LoadAfterCrash(c0, c1, Among(image.synced0, c0), known1);
      if st == Ok {
        FoundLog(again, image);
        return;
      }
    }
    FoundNone(st, again, image);
  }

  lemma FoundNone(st: Status, again: Log?, image: Image)
    requires image.Valid() && st != Ok && (st == Error <==> !image.HeadersSurvive())
    requires st == Panic ==> again != null && again.Failures() > 0
    ensures FoundAs(st, again, image)
  {
    hide Left, HasHeader, SizeOf;
    if image.DurableKept() { image.DurableSurvives(); }
  }

  lemma FoundLog(again: Log, image: Image)
    requires image.Valid() && image.HeadersSurvive() && again.Valid() && again.page0.Head() == image.first.header
    requires again.Failures() == 0
    requires image.first.Ok() && (image.second.Some? ==> image.second.value.Ok())
    requires again.View().entries == Recovered(image.first, image.second)
    requires again.page0.synced == Among(image.synced0, image.first)
    requires if again.page1 == null then
               image.second.None? || image.second.value.Whole() == [] || image.first.Whole() != image.first.entries
             else
               && image.second.Some? && again.page0.entries == image.first.entries
               && again.page1.synced == Among(image.synced1, image.second.value)
    ensures FoundAs(Ok, again, image)
  {
    hide LogPage.Valid, Left, HasHeader, CutPage.Ok, CutPage.Whole, Recovered, SizeOf, Log.Synced, Log.FirstSynced;
    hide Image.Synced, Image.FirstSynced, Image.NothingLost, Image.Entries, Continues;
    image.RecoveredOf();
    if image.DurableKept() {
      image.DurableSurvives();
      if image.FirstSynced() { KnownAgain(again, image); }
    }
  }

  lemma KnownAgain(again: Log, image: Image)
    requires image.first.Ok() && (image.second.Some? ==> image.second.value.Ok()) && image.FirstSynced()
    requires image.synced0 <= |image.first.Whole()|
    requires image.second.Some? ==> image.synced1 <= |image.second.value.Whole()|
    requires again.Valid() && again.View().entries == Recovered(image.first, image.second)
    requires again.page0.synced == image.synced0
    requires if again.page1 == null then
               image.second.None? || image.second.value.Whole() == [] || image.first.Whole() != image.first.entries
             else
               image.second.Some? && again.page0.entries == image.first.entries && again.page1.synced == image.synced1
    ensures again.FirstSynced() && image.Synced() <= again.Synced()
  {
    hide CutPage.Ok, CutPage.Whole, LogPage.Valid;
    assert image.first.Whole() <= image.first.entries;
  }

  // ----- a running log -----

  /** The first `kept` bytes of a page file; `kept` is all of them when only the process dies. */
  ghost function Survivor(p: LogPage, kept: nat): CutPage
    reads p
  {
    CutPage(p.Head(), p.entries, kept)
  }

  ghost function ImageOf(log: Log, kept0: nat, kept1: nat): Image
    reads log, log.page0, log.page1
  {
    if log.page1 == null then Image(Survivor(log.page0, kept0), None, log.page0.synced, 0)
    else Image(Survivor(log.page0, kept0), Some(Survivor(log.page1, kept1)), log.page0.synced, log.page1.synced)
  }

  /** At most `kept0` and `kept1` bytes of the two page files, within what the kernel holds. */
  ghost predicate Kept(log: Log, kept0: nat, kept1: nat)
    reads log, log.Repr()
  {
    kept0 <= |log.page0.file.disk| && (log.page1 != null ==> kept1 <= |log.page1.file.disk|)
  }

  /** Whatever is kept of a running log's files is an image of the log. */
  lemma ImageIsValid(log: Log, kept0: nat, kept1: nat)
    requires log.Valid() && Kept(log, kept0, kept1)
    ensures var image := ImageOf(log, kept0, kept1);
            && image.Valid() && image.Entries() == log.View().entries && image.first.header.prevIdx == log.View().prev
            && image.Synced() == log.Synced() && image.FirstSynced() == log.FirstSynced()
            && log.page0.file.disk[..kept0] == LeftBytes(image.first) && kept0 <= OFFSET_MAX
            && (log.page1 != null ==>
                  log.page1.file.disk[..kept1] == LeftBytes(image.second.value) && kept1 <= OFFSET_MAX)
  {
    hide LogPage.Valid, HeaderText, PageText, HeaderOk, SizeOf;
    PageOnDisk(log.page0, kept0);
    if log.page1 != null {
      PageOnDisk(log.page1, kept1);
    }
  }

  /** The death of the process alone costs no header and nothing that was synced; and nothing at all if no bytes
      waited in the buffers. */
  lemma ProcessDeath(log: Log, kept0: nat, kept1: nat)
    requires log.Valid() && kept0 == |log.page0.file.disk| && (log.page1 != null ==> kept1 == |log.page1.file.disk|)
    ensures var image := ImageOf(log, kept0, kept1);
            image.Valid() && image.HeadersSurvive() && image.DurableKept() && (log.Flushed() ==> image.NothingLost())
  {
    hide LogPage.Valid, HeaderText, PageText, HeaderOk, SizeOf;
    ImageIsValid(log, kept0, kept1);
    PageOnDisk(log.page0, kept0);
    if log.page1 != null {
      PageOnDisk(log.page1, kept1);
    }
  }

  /** Start again from what a crash left of a running log's files. */
  method Reopen(log: Log, kept0: nat, kept1: nat) returns (st: Status, again: Log?, ghost image: Image)
    requires log.Valid() && Kept(log, kept0, kept1)
    ensures image == ImageOf(log, kept0, kept1) && image.Valid() && image.Entries() == old(log.View()).entries
    ensures image.Synced() == old(log.Synced()) && image.FirstSynced() == old(log.FirstSynced())
    ensures FoundAs(st, again, image) && (again != null ==> fresh(again.Repr()))
  {
    hide LogPage.Valid, Log.Valid, LeftBytes, Image.Valid, FoundAs, Log.Synced, Log.FirstSynced, Image.Synced;
    hide Image.FirstSynced, Image.Entries, Log.View;
    ImageIsValid(log, kept0, kept1);
    image := ImageOf(log, kept0, kept1);
    var d0 := log.page0.file.disk[..kept0];
    var d1 := if log.page1 == null then None else Some(log.page1.file.disk[..kept1]);
    st, again := Start(d0, d1, image);
  }

  /** Any calls, then a crash that keeps any part of the files, then a start.  The log found is `FoundAs` the image the
      crash left: it opens exactly when the headers survived and holds exactly the entries whose text survived.  If the
      bytes that were synced survived, every entry synced in the run, and not removed since, is there. */
  method RunCrashReopen(store: LogStore, calls: seq<Call>, pick0: nat, pick1: nat)
    returns (replies: seq<Reply>, last: Outcome, kept0: nat, kept1: nat, st: Status, again: Log?,
             ghost views: seq<LogView>, ghost flushed: seq<bool>, ghost marks: seq<nat>, ghost failures: seq<nat>,
             ghost image: Image)
    requires store.Valid() && forall i | 0 <= i < |calls| :: CallOk(calls[i])
    modifies store.Repr()
    ensures Explained(views, calls, replies, flushed, failures) && views[0] == old(store.View())
    ensures MarkedBy(marks, views, calls) && marks[0] == 0
    ensures last.Replied? ==>
              && |replies| == |calls| && image == ImageOf(store.log, kept0, kept1)
              && kept0 == Least(pick0, |store.log.page0.file.disk|)
              && (store.log.page1 != null ==> kept1 == Least(pick1, |store.log.page1.file.disk|))
              && image.Valid() && image.Entries() == views[|replies|].entries && FoundAs(st, again, image)
    ensures last.Replied? && st == Ok && old(store.log.FirstSynced()) && image.Valid() && image.DurableKept() ==>
              again != null && marks[|replies|] <= |again.View().entries|
  {
    hide LogPage.Valid, Step, CallOk, Explained, MarkedBy, Log.Synced, Log.FirstSynced, Image.Synced, Image.FirstSynced;
    hide Image.Valid, Image.Entries, ImageOf, Log.View;
    replies, last, views, flushed, marks, failures := LogRuns.Run(store, calls);
    st, again, kept0, kept1, image := Panic, null, 0, 0, ImageOf(store.log, 0, 0);
    if last.Replied? {
      kept0 := Least(pick0, |store.log.page0.file.disk|);
      if store.log.page1 != null {
        kept1 := Least(pick1, |store.log.page1.file.disk|);
      }
      st, again, image := Reopen(store.log, kept0, kept1);
    }
  }

  function Least(a: nat, b: nat): nat { if a < b then a else b }
}
