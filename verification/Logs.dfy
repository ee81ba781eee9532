/** The persistent log: one page, or two while a compaction is under way. */
module Logs {
  import opened Wrappers
  import opened Statuses
  import opened Decimal
  import opened FileIO
  import opened PageCodec
  import opened PageRecovery
  import opened LogPages

  /** The log as one indexed sequence: the entries after index `prev` and, while a compaction is
      under way, the index after which the second page starts. */
  datatype LogView = LogView(prev: int, entries: seq<Entry>, split: Option<int>) {

    ghost function At(idx: int): Option<Entry> {
      if prev < idx <= prev + |entries| then Some(entries[idx - prev - 1]) else None
    }

    /** At most `n` consecutive entries that start at `idx`. */
    ghost function Batch(idx: int, n: nat): seq<Entry> {
      if At(idx) == None then []
      else
        var rest := entries[idx - prev - 1..];
        if |rest| < n then rest else rest[..n]
    }

    /** Without the entries from `from` on; cutting into the first page gives up the second. */
    ghost function Cut(from: int): LogView
      requires At(from).Some?
    {
      LogView(prev, entries[..from - prev - 1], if split.Some? && from <= split.value then None else split)
    }

    /** With the second page alone. */
    ghost function Compacted(): LogView
      requires split.Some? && prev <= split.value <= prev + |entries|
    {
      LogView(split.value, entries[split.value - prev..], None)
    }
  }

  class Log {
    var page0: LogPage
    var page1: LogPage?
    ghost var gone: nat       // calls into the kernel that failed on pages the log no longer has

    ghost function Repr(): set<object>
      reads this
    {
      {this} + page0.Repr() + (if page1 == null then {} else page1.Repr())
    }

    ghost predicate Valid()
      reads this, Repr()
    {
      && this !in page0.Repr() && page0.Valid()
      && (page1 != null ==>
            && this !in page1.Repr() && page0.Repr() !! page1.Repr() && page1.Valid()
            && Continues(page0.Head(), page0.entries, page1.Head()))
    }

    ghost predicate Flushed()
      reads this, Repr()
    {
      page0.Flushed() && (page1 != null ==> page1.Flushed())
    }

    ghost function View(): LogView
      reads this, page0, page1
    {
      if page1 == null then LogView(page0.prevLogIdx, page0.entries, None)
      else LogView(page0.prevLogIdx, page0.entries + page1.entries, Some(page1.prevLogIdx))
    }

    /** How many calls into the kernel have failed. */
    ghost function Failures(): nat
      reads this, Repr()
    {
      gone + page0.Failures() + if page1 == null then 0 else page1.Failures()
    }

    /** How many of the log's entries are durable. */
    ghost function Synced(): nat
      reads this, page0, page1
    {
      if page1 == null || page0.synced < |page0.entries| then page0.synced else |page0.entries| + page1.synced
    }

    /** The first page was synced before there was a second. */
    ghost predicate FirstSynced()
      reads this, page0, page1
    {
      page1 != null ==> page0.synced == |page0.entries|
    }

    constructor (p0: LogPage, p1: LogPage?)
      ensures page0 == p0 && page1 == p1 && gone == 0
    {
      page0 := p0;
      page1 := p1;
      gone := 0;
    }

    lemma SplitInRange()
      requires Valid()
      ensures View().split.Some? ==> View().prev < View().split.value <= View().prev + |View().entries|
    {
      hide LogPage.Valid;
    }

    method FirstIdx() returns (n: int)
      ensures n == View().prev + 1
    {
      n := page0.prevLogIdx + 1;
    }

    method CurrentIdx() returns (n: int)
      requires Valid()
      ensures n == View().prev + |View().entries|
    {
      n := if page1 != null then page1.index else page0.index;
    }

    method Count() returns (n: int)
      requires Valid()
      ensures n == |View().entries|
    {
      n := page0.numEntries;
      if page1 != null {
        n := n + page1.numEntries;
      }
    }

    method Append(e: Entry) returns (st: Status)
      requires Valid() && WellFormed(e)
      modifies Repr()
      ensures Repr() == old(Repr())
      ensures st != Panic ==> Valid()
      ensures st == Ok ==> View() == old(View()).(entries := old(View()).entries + [e])
      ensures st == Error ==> View() == old(View())
      ensures st != Panic ==> Synced() == old(Synced()) && (old(FirstSynced()) ==> FirstSynced())
      ensures old(Failures()) <= Failures() && (st == Ok <==> Failures() == old(Failures()))
    {
      hide LogPage.Consistent, LogPage.Stored;
      if page1 != null {
        ghost var a, b := page0.entries, page1.entries;
        st := page1.Append(e);
        assert a + b + [e] == a + (b + [e]);
      } else {
        st := page0.Append(e);
      }
    }

    /** Exactly the entry at that index, or nothing outside the log. */
    method Get(idx: int) returns (r: Option<Entry>, fault: bool)
      requires Valid()
      modifies Repr() - {this, page0, page1}
      ensures Valid() && View() == old(View()) && Repr() == old(Repr())
      ensures fault ==> !old(Flushed()) && r == None
      ensures !fault ==> r == View().At(idx)
      ensures old(Flushed()) ==> Flushed()
      ensures old(Failures()) <= Failures() && (fault <==> old(Failures()) < Failures())
    {
      hide LogPage.Consistent, LogPage.Stored;
      r, fault := None, false;
      if page1 != null {
        r, fault := page1.Get(idx);
      }
      if r == None {
        var fault0;
        r, fault0 := page0.Get(idx);
        fault := fault || fault0;
      }
    }

    /** What was durable still is, as far as there are entries. */
    ghost predicate KeptSynced(n: nat, first: bool)
      reads this, page0, page1
    {
      first ==> FirstSynced() && (n <= Synced() || |View().entries| <= Synced())
    }

    /** Remove the entries from `from` on.  When buffered bytes cannot be written out first, the
        call still reports success but nothing has been removed. */
    method Delete(from: int) returns (st: Status, fault: bool)
      requires Valid()
      modifies Repr()
      ensures Repr() <= old(Repr())
      ensures st != Panic ==> Valid()
      ensures fault ==> !old(Flushed()) && st == Ok && View() == old(View())
      ensures st == Error <==> old(View()).At(from) == None
      ensures st == Error ==> View() == old(View())
      ensures st == Ok && !fault ==> View() == old(View()).Cut(from)
      ensures st != Panic ==> KeptSynced(old(Synced()), old(FirstSynced()))
      ensures old(Failures()) <= Failures() && (st == Panic || fault <==> old(Failures()) < Failures())
    {
      hide LogPage.Consistent, LogPage.Stored;
      fault := false;
      var count := Count();
      var first := FirstIdx();
      var current := CurrentIdx();
      if count == 0 || from < first || from > current {
        return Error, false;
      }
      if page1 == null {
        st, fault := page0.Delete(from);
        return if st == Panic then Panic else Ok, fault;
      }
      st, fault := DeleteFromTwo(from);
    }

    /** Give up the second page. */
    method Drop()
      requires page1 != null
      modifies this
      ensures page0 == old(page0) && page1 == null && Failures() == old(Failures())
    {
      gone := gone + page1.Failures();
      page1 := null;
    }

    method DeleteFromTwo(from: int) returns (st: Status, fault: bool)
      requires Valid() && page1 != null && View().At(from).Some?
      modifies Repr()
      ensures Repr() <= old(Repr()) && st != Error
      ensures st != Panic ==> Valid()
      ensures fault ==> !old(Flushed()) && st == Ok && View() == old(View())
      ensures st == Ok && !fault ==> View() == old(View()).Cut(from)
      ensures st != Panic ==> KeptSynced(old(Synced()), old(FirstSynced()))
      ensures old(Failures()) <= Failures() && (st == Panic || fault <==> old(Failures()) < Failures())
    {
      hide LogPage.Consistent, LogPage.Stored;
      TakeOfConcat(page0.entries, page1.entries, from - page0.prevLogIdx - 1);
      var st0, fault0 := page0.Delete(from);
      if st0 == Panic {
        return Panic, false;
      }
      var st1, fault1 := page1.Delete(from);
      if st1 == Panic {
        return Panic, false;
      }
      if page0.index != page1.prevLogIdx {
        Drop();
      }
      return Ok, fault0 || fault1;
    }

    /** Start over after `idx`.  The page invariant survives exactly when the first page was empty. */
    method Reset(idx: int, term: int) returns (st: Status)
      requires Valid() && 0 <= idx <= LONG_MAX && LONG_MIN <= term <= LONG_MAX
      modifies Repr()
      ensures st != Panic && Repr() <= old(Repr()) && page0 == old(page0)
      ensures st == Ok ==> View() == LogView(idx, [], None) && page0.prevLogTerm == term
      ensures st == Ok ==> (Valid() <==> old(page0.entries) == []) && FirstSynced()
      ensures old(Failures()) <= Failures() && (st == Ok <==> Failures() == old(Failures()))
    {
      hide LogPage.Consistent, Continues;
      if page1 != null {
        Drop();
      }
      st := page0.Reset(idx, term);
    }

    /** Open the second page after the last entry of the first. */
    method CompactionBegin(leftover: string) returns (st: Status)
      requires Valid() && |leftover| <= OFFSET_MAX && page0.index <= LONG_MAX
      modifies Repr()
      ensures fresh(Repr() - old(Repr()))
      ensures st != Panic ==> Valid()
      ensures old(View()).split.Some? ==> st == Ok && View() == old(View())
      ensures st == Error ==> View() == old(View())
      ensures st == Ok && old(View()).split.None? ==>
                |old(View()).entries| > 1 && View() == old(View()).(split := Some(View().prev + |View().entries|))
      ensures st != Panic && old(FirstSynced()) ==> FirstSynced() && old(Synced()) <= Synced()
      ensures old(Failures()) <= Failures() && (old(View()).split.Some? ==> Failures() == old(Failures()))
      ensures old(View()).split.None? && |old(View()).entries| <= 1 ==> st == Error && Failures() == old(Failures())
      ensures st == Panic ==> old(Failures()) < Failures()
      ensures st == Error && |old(View()).entries| > 1 ==> old(Failures()) < Failures()
    {
      hide LogPage.Consistent, LogPage.Stored, LogPage.Durable, File.Valid, File.Contents;
      PagesUsable();
      if page1 != null {
        return Ok;
      }
      if page0.numEntries <= 1 {
        return Error;
      }
      assert page0.entries + [] == page0.entries;
      st := AddPage(leftover);
    }

    /** Sync the page and create the one after it. */
    method AddPage(leftover: string) returns (st: Status)
      requires Valid() && page1 == null && page0.entries != []
      requires |leftover| <= OFFSET_MAX && page0.index <= LONG_MAX
      modifies Repr()
      ensures fresh(Repr() - old(Repr())) && page0 == old(page0)
      ensures st != Panic ==>
                Valid() && page0.entries == old(page0.entries) && page0.prevLogIdx == old(page0.prevLogIdx)
      ensures st != Panic ==> page0.synced == |page0.entries|
      ensures st == Error ==> page1 == null
      ensures st == Ok ==> page1 != null && page1.entries == [] && page1.synced == 0 && page1.prevLogIdx == page0.index
      ensures old(Failures()) <= Failures() && (st == Ok <==> Failures() == old(Failures()))
    {
      hide LogPage.Consistent, LogPage.Stored, LogPage.Durable, LogPage.Failures, File.Valid, File.Contents;
      var e := SyncLast();
      if e == None {
        return Panic;
      }
      page0.NextHeaderOk();
      ghost var tried;
      var second;
      second, tried := LogPage.Create(leftover, page0.dbid, page0.nodeId, e.value.term, page0.index);
      if second == null {
        gone := gone + tried.Failures();
        return Error;
      }
      page1 := second;
      return Ok;
    }

    /** Read the last entry of the only page and sync the page; nothing if either fails. */
    method SyncLast() returns (e: Option<Entry>)
      requires Valid() && page1 == null && page0.entries != []
      modifies page0.Repr()
      ensures Valid() && page0.entries == old(page0.entries) && page0.Head() == old(page0.Head())
      ensures old(page0.Failures()) <= page0.Failures()
      ensures if page0.Failures() == old(page0.Failures())
              then e == Some(page0.entries[|page0.entries| - 1]) && page0.synced == |page0.entries|
              else e == None
    {
      hide LogPage.Consistent, LogPage.Stored, LogPage.Durable, LogPage.Failures, File.Valid, File.Contents;
      PagesUsable();
      var fault;
      e, fault := page0.Get(page0.index);
      if e.Some? {
        PagesUsable();
        var ok := page0.Sync(true);
        if !ok {
          return None;
        }
      }
    }

    /** The second page takes the place of the first; without one an assertion stops the process. */
    method CompactionEnd() returns (st: Status)
      requires Valid()
      modifies this
      ensures Repr() <= old(Repr()) && st != Error
      ensures old(View()).split == None ==> st == Panic
      ensures old(Failures()) <= Failures()
      ensures old(View()).split.Some? ==> (st == Ok <==> Failures() == old(Failures()))
      ensures st == Ok ==>
                Valid() && old(View()).prev < old(View()).split.value <= old(View()).prev + |old(View()).entries|
                           && View() == old(View()).Compacted()
                           && FirstSynced() && old(Synced()) <= Synced() + (|old(View()).entries| - |View().entries|)
    {
      hide LogPage.Consistent, LogPage.Stored;
      if page1 == null {
        return Panic;
      }
      var renamed: bool := *;
      if !renamed {
        gone := gone + 1;
        return Panic;
      }
      gone := gone + page0.Failures();
      page0 := page1;
      page1 := null;
      return Ok;
    }

    /** Sync the page in use; a failure stops the process.  Then every entry is durable. */
    method Sync(fsync: bool) returns (st: Status)
      requires Valid()
      modifies Repr()
      ensures st != Error && Repr() == old(Repr())
      ensures st == Ok ==> Valid() && View() == old(View())
      ensures st == Ok && old(FirstSynced()) ==>
                FirstSynced() && Synced() == if fsync then |View().entries| else old(Synced())
      ensures old(Failures()) <= Failures() && (st == Ok <==> Failures() == old(Failures()))
    {
      hide LogPage.Consistent, LogPage.Stored, LogPage.Durable;
      PagesUsable();
      var ok;
      if page1 != null {
        ok := page1.Sync(fsync);
      } else {
        ok := page0.Sync(fsync);
      }
      st := if ok then Ok else Panic;
    }

    lemma PagesUsable()
      requires Valid()
      ensures page0.file != page0.idxfile && page0.file.buf != page0.idxfile.buf && page0.file.Valid()
      ensures page1 != null ==>
                page1.file != page1.idxfile && page1.file.buf != page1.idxfile.buf && page1.file.Valid()
      ensures page0.synced <= |page0.entries| && (page1 != null ==> page1.synced <= |page1.entries|)
    {
      hide LogPage.Durable;
    }

    /** Open the page files found on disk.  A second page whose header does not open makes the
        whole log fail to open. */
    static method Open(d0: string, d1: Option<string>) returns (st: Status, log: Log?)
      requires |d0| <= OFFSET_MAX && (d1.Some? ==> |d1.value| <= OFFSET_MAX)
      ensures st == Ok <==> log != null
      ensures st == Error <==> OpenPage(d0) == None || (d1.Some? && OpenPage(d1.value) == None)
      ensures st == Panic ==> d1.Some? && OpenPage(d0).Some? && OpenPage(d1.value).Some? &&
                              !SameLog(OpenPage(d0).value.0, OpenPage(d1.value).value.0)
      ensures log != null ==> fresh(log.Repr()) && log.JustOpened(d0, d1) && log.Failures() == 0
    {
      hide OpenPage, LogPage.Opened;
      var p0 := LogPage.Open(d0);
      if p0 == null {
        return Error, null;
      }
      if d1.None? {
        log := new Log(p0, null);
        return Ok, log;
      }
      var p1 := LogPage.Open(d1.value);
      if p1 == null {
        return Error, null;
      }
      st, log := Join(p0, p1, d0, d1.value);
    }

    /** Both pages must belong to the same log. */
    static method Join(p0: LogPage, p1: LogPage, ghost d0: string, ghost d1: string) returns (st: Status, log: Log?)
      requires p0.Opened(d0) && p1.Opened(d1) && p0.Repr() !! p1.Repr()
      ensures st != Error && (st == Ok <==> log != null) && (st == Panic <==> !SameLog(p0.Head(), p1.Head()))
      ensures log != null ==> fresh(log) && log.page0 == p0 && log.page1 == p1 && log.JustOpened(d0, Some(d1))
      ensures log != null ==> log.Failures() == p0.Failures() + p1.Failures()
    {
      hide LogPage.Opened;
      if p0.nodeId != p1.nodeId || p0.dbid != p1.dbid {
        return Panic, null;
      }
      log := new Log(p0, p1);
      return Ok, log;
    }

    ghost predicate JustOpened(d0: string, d1: Option<string>)
      reads this, Repr()
    {
      && this !in page0.Repr() && page0.Opened(d0)
      && (d1.Some? <==> page1 != null)
      && (page1 != null ==> this !in page1.Repr() && page0.Repr() !! page1.Repr() && page1.Opened(d1.value))
    }

    /** Load both pages after a crash that cut each file at some byte past its header, where the first
        `known0` and `known1` entries are known to be durable.  The second page is kept only if it has an
        entry and the first page is complete. */
    method LoadAfterCrash(ghost c0: CutPage, ghost c1: Option<CutPage>, ghost known0: nat, ghost known1: nat)
      returns (st: Status)
      requires c0.Ok() && (c1.Some? ==> c1.value.Ok() && Continues(c0.header, c0.entries, c1.value.header))
      requires JustOpened(c0.Bytes(), if c1.None? then None else Some(c1.value.Bytes()))
      requires known0 <= |c0.Whole()| && (c1.Some? ==> known1 <= |c1.value.Whole()|)
      modifies Repr()
      ensures st != Error && Repr() <= old(Repr())
      ensures st == Ok ==> Valid() && page0.Head() == c0.header && View().entries == Recovered(c0, c1)
      ensures st == Ok ==> page0.synced == known0 && (page1 != null ==> page1.synced == known1)
      ensures st == Ok ==>
                if page1 == null then c1.None? || c1.value.Whole() == [] || c0.Whole() != c0.entries
                else c1.Some? && page0.entries == c0.entries
      ensures old(Failures()) <= Failures() && (st == Ok <==> Failures() == old(Failures()))
    {
      hide LogPage.Consistent, LogPage.Stored, LogPage.Opened, CutPage.Ok, CutPage.Whole, CutPage.Bytes;
      st := LoadCut(page0, c0, known0);
      if st != Ok || page1 == null {
        return;
      }
      st := LoadCut(page1, c1.value, known1);
      if st != Ok {
        return;
      }
      assert c0.entries[..|c0.entries|] == c0.entries;
      if page1.numEntries == 0 || page1.prevLogIdx != page0.index {
        Drop();
      }
    }
  }

  method LoadCut(p: LogPage, ghost c: CutPage, ghost known: nat) returns (st: Status)
    requires c.Ok() && p.Opened(c.Bytes()) && known <= |c.Whole()|
    modifies p.Repr()
    ensures st != Error
    ensures st == Ok ==> p.Valid() && p.Head() == c.header && p.entries == c.Whole() && p.synced == known
    ensures old(p.Failures()) <= p.Failures() && (st == Ok <==> p.Failures() == old(p.Failures()))
  {
    hide LogPage.Consistent, LogPage.Stored, LogPage.Opened, HeaderOk, PageText, HeaderText, HeaderCrc, WholeEntries;
    st := p.LoadAfterCrash(c.header, c.entries, c.at, known);
  }

  /** A page file as a crash left it: the first `at` bytes of what was written. */
  datatype CutPage = CutPage(header: Header, entries: seq<Entry>, at: nat) {

    ghost predicate Ok() {
      HeaderOk(header) && AllWellFormed(entries) && |HeaderText(header)| <= at <= |PageText(header, entries)|
    }

    ghost function Bytes(): string
      requires Ok()
    {
      PageText(header, entries)[..at]
    }

    /** The entries wholly contained in the file. */
    ghost function Whole(): (es: seq<Entry>)
      requires Ok()
      ensures es <= entries
    {
      entries[..WholeEntries(entries, HeaderCrc(header), at - |HeaderText(header)|)]
    }
  }

  ghost function Recovered(c0: CutPage, c1: Option<CutPage>): seq<Entry>
    requires c0.Ok() && (c1.Some? ==> c1.value.Ok())
  {
    if c1.Some? && c0.Whole() == c0.entries then c0.entries + c1.value.Whole() else c0.Whole()
  }

  /** What is recovered is always a prefix of what was written. */
  lemma RecoveredIsPrefix(c0: CutPage, c1: Option<CutPage>)
    requires c0.Ok() && (c1.Some? ==> c1.value.Ok())
    ensures Recovered(c0, c1) <= if c1.None? then c0.entries else c0.entries + c1.value.entries
  {
    hide CutPage.Whole, CutPage.Ok;
  }

  lemma TakeOfConcat(a: seq<Entry>, b: seq<Entry>, k: nat)
    requires k <= |a| + |b|
    ensures (a + b)[..k] == if k <= |a| then a[..k] else a + b[..k - |a|]
  {
  }

  predicate SameLog(h0: Header, h1: Header) { h0.dbid == h1.dbid && h0.nodeId == h1.nodeId }

  /** The second page's header names the last entry of the first page. */
  ghost predicate Continues(h0: Header, es0: seq<Entry>, h1: Header) {
    && es0 != []
    && h1 == Header(h0.dbid, h0.nodeId, es0[|es0| - 1].term, h0.prevIdx + |es0|)
  }
}
