/** The log as the Raft library sees it: the persistent pages with the entry cache in front. */
module LogStores {
  import opened Wrappers
  import opened Statuses
  import opened Decimal
  import opened FileIO
  import opened PageCodec
  import opened LogPages
  import opened Logs
  import opened EntryCaches

  const CACHE_INIT_SIZE: nat := 512

  /** The cache holds the last entries of the log. */
  ghost predicate IsTail(v: LogView, startIdx: int, cached: seq<Entry>) {
    cached == [] ||
    (startIdx > v.prev && startIdx + |cached| == v.prev + |v.entries| + 1
     && cached == v.entries[|v.entries| - |cached|..])
  }

  lemma BatchGrows(v: LogView, idx: int, k: nat)
    requires |v.Batch(idx, k)| == k && v.At(idx + k).Some?
    ensures v.Batch(idx, k + 1) == v.Batch(idx, k) + [v.At(idx + k).value]
  {
  }

  lemma BatchEnds(v: LogView, idx: int, k: nat, n: nat)
    requires |v.Batch(idx, k)| == k < n && v.At(idx + k) == None
    ensures v.Batch(idx, n) == v.Batch(idx, k)
  {
  }

  class LogStore {
    var log: Log
    var cache: EntryCache

    ghost function Repr(): set<object>
      reads this, log, cache
    {
      {this, cache, cache.ptrs} + log.Repr()
    }

    ghost predicate Separate()
      reads this, log, cache
    {
      this !in log.Repr() && cache !in log.Repr() && cache.ptrs !in log.Repr()
    }

    ghost predicate Valid()
      reads this, log, cache, Repr()
    {
      && Separate() && log.Valid() && cache.Valid() && View().prev >= 0
      && IsTail(View(), cache.startIdx, cache.contents)
    }

    ghost function View(): LogView
      reads this, log, log.page0, log.page1
    {
      log.View()
    }

    constructor (log: Log, overhead: nat)
      requires log.Valid() && log.View().prev >= 0
      ensures Valid() && this.log == log && View() == log.View() && fresh(Repr() - log.Repr())
    {
      hide Log.Valid, LogPage.Valid;
      this.log := log;
      cache := new EntryCache(CACHE_INIT_SIZE, overhead);
      new;
      assert Separate() && log.Valid();
    }

    /** Append; the cache's contiguity assertion never fails. */
    method Append(e: Entry) returns (st: Status)
      requires Valid() && WellFormed(e)
      modifies Repr()
      ensures fresh(Repr() - old(Repr()))
      ensures st != Panic ==> Valid()
      ensures st == Ok ==> View() == old(View()).(entries := old(View()).entries + [e])
      ensures st == Error ==> View() == old(View())
      ensures st != Panic ==> log.KeptSynced(old(log.Synced()), old(log.FirstSynced()))
      ensures old(log.Failures()) <= log.Failures() && (st == Ok <==> log.Failures() == old(log.Failures()))
    {
      hide Log.Valid, Log.View, LogPage.Valid, EntryCache.Valid, Log.Synced, Log.FirstSynced;
      ghost var v := View();
      st := log.Append(e);
      assert Separate() && cache.Valid();
      if st == Ok {
        CacheNewest(v, e);
      }
    }

    /** Put the entry just appended to the log at the end of the cache. */
    method CacheNewest(ghost v: LogView, e: Entry)
      requires Separate() && log.Valid() && cache.Valid() && v.prev >= 0
      requires IsTail(v, cache.startIdx, cache.contents) && View() == v.(entries := v.entries + [e])
      modifies cache, cache.ptrs
      ensures Valid() && View() == old(View())
      ensures cache.ptrs == old(cache.ptrs) || fresh(cache.ptrs)
    {
      hide Log.Valid, Log.View, LogPage.Valid, EntryCache.Valid;
      var idx := log.CurrentIdx();
      cache.Shape();
      TailGrows(v, cache.startIdx, cache.contents, e);
      var contiguous := cache.Append(e, idx);
      assert contiguous;
      assert Separate() && log.Valid();
    }

    method CurrentIdx() returns (n: int)
      requires Valid()
      ensures Valid() && n == View().prev + |View().entries|
    {
      hide Log.Valid;
      n := log.CurrentIdx();
    }

    method FirstIdx() returns (n: int)
      requires Valid()
      ensures Valid() && n == View().prev + 1
    {
      hide Log.Valid;
      n := log.FirstIdx();
    }

    method Count() returns (n: int)
      requires Valid()
      ensures Valid() && n == |View().entries|
    {
      hide Log.Valid;
      n := log.Count();
    }

    /** Exactly the entry at that index, or nothing outside the log; a fault is a failure to write
        out buffered bytes before reading a page for an entry that is not in the cache. */
    method Get(idx: nat) returns (r: Option<Entry>, fault: bool)
      requires Valid()
      modifies log.Repr() - {log, log.page0, log.page1}
      ensures Valid() && View() == old(View()) && log.Repr() == old(log.Repr()) && Repr() == old(Repr())
      ensures log == old(log) && log.page0 == old(log.page0) && log.page1 == old(log.page1)
      ensures fault ==> !old(log.Flushed()) && r == None
      ensures !fault ==> r == View().At(idx)
      ensures old(log.Flushed()) ==> log.Flushed()
      ensures log.Synced() == old(log.Synced()) && log.FirstSynced() == old(log.FirstSynced())
      ensures old(log.Failures()) <= log.Failures() && (fault <==> old(log.Failures()) < log.Failures())
    {
      hide Log.Valid, Log.View, LogPage.Valid, EntryCache.Valid, Log.Flushed;
      cache.Shape();
      r := cache.Get(idx);
      fault := false;
      if r == None {
        r, fault := log.Get(idx);
        assert Separate() && log.Valid() && cache.Valid();
      }
    }

    /** Consecutive entries from `idx` on, as many as there are up to `n`. */
    method GetBatch(idx: nat, n: nat) returns (r: seq<Entry>, fault: bool)
      requires Valid()
      modifies log.Repr() - {log, log.page0, log.page1}
      ensures Valid() && View() == old(View()) && log.Repr() == old(log.Repr()) && Repr() == old(Repr())
      ensures fault ==> !old(log.Flushed())
      ensures !fault ==> r == View().Batch(idx, n)
      ensures old(log.Failures()) <= log.Failures() && (fault <==> old(log.Failures()) < log.Failures())
      ensures log.KeptSynced(old(log.Synced()), old(log.FirstSynced()))
    {
      hide LogStore.Valid, LogStore.View, LogStore.Repr, Log.Flushed, Log.Repr, LogView.At, LogView.Batch;
      r, fault := [], false;
      ghost var v := View();
      BatchStarts(v, idx);
      while |r| < n
        invariant Valid() && View() == v
        invariant |r| <= n && r == v.Batch(idx, |r|)
        invariant !fault && (old(log.Flushed()) ==> log.Flushed()) && log.Failures() == old(log.Failures())
        invariant log.Repr() == old(log.Repr()) && Repr() == old(Repr())
        invariant log.Synced() == old(log.Synced()) && log.FirstSynced() == old(log.FirstSynced())
        invariant log == old(log) && log.page0 == old(log.page0) && log.page1 == old(log.page1)
        decreases n - |r|
      {
        var e;
        e, fault := Get(idx + |r|);
        if e == None {
          if !fault {
            BatchEnds(v, idx, |r|, n);
          }
          return;
        }
        BatchGrows(v, idx, |r|);
        r := r + [e.value];
      }
    }

    /** Remove the entries from `from` on, in the cache and in the log.  A fault leaves the log as it was behind a
        shortened cache: the two agree then exactly if the cache had nothing before `from`. */
    method Pop(from: nat) returns (st: Status, fault: bool)
      requires Valid()
      modifies Repr()
      ensures Repr() <= old(Repr())
      ensures fault ==> !old(log.Flushed()) && st == Ok
      ensures st == Error <==> old(View()).At(from) == None
      ensures st == Error || fault ==> View() == old(View())
      ensures st == Ok && !fault ==> View() == old(View()).Cut(from)
      ensures st != Panic && !fault ==> Valid()
      ensures fault ==> (Valid() <==> old(cache.len) == 0 || from <= old(cache.startIdx))
      ensures old(log.Failures()) <= log.Failures()
      ensures st == Panic || fault <==> old(log.Failures()) < log.Failures()
      ensures st != Panic ==> log.KeptSynced(old(log.Synced()), old(log.FirstSynced()))
    {
      hide Log.Valid, Log.View, LogPage.Valid, EntryCache.Valid, Log.Flushed, Log.Synced, Log.FirstSynced,
        Log.KeptSynced;
      hide IsTail, LogView.At, LogView.Cut, Log.Repr;
      ghost var v, start, cached := View(), cache.startIdx, cache.contents;
      cache.Shape();
      TailCut(v, start, cached, from);
      CutCache(from);
      cache.Shape();
      st, fault := log.Delete(from);
      if st != Panic {
        assert cache.Valid() && log.Valid() && Separate();
        TailEmpty(View(), cache.startIdx);
        TailEmpty(v, start);
        CutPrev(v, from);
      }
    }

    /** Drop the cached entries from `from` on; the log is not touched. */
    method CutCache(from: nat)
      requires Valid()
      modifies cache, cache.ptrs
      ensures Separate() && log.Valid() && cache.Valid() && View() == old(View()) && cache.ptrs == old(cache.ptrs)
      ensures log.Flushed() == old(log.Flushed()) && log.Failures() == old(log.Failures())
      ensures from >= old(cache.startIdx + cache.len) ==>
                cache.contents == old(cache.contents) && cache.startIdx == old(cache.startIdx)
      ensures from < old(cache.startIdx + cache.len) ==>
                var kept := if from < old(cache.startIdx) then 0 else from - old(cache.startIdx);
                cache.contents == old(cache.contents)[..kept]
                  && (cache.len > 0 ==> cache.startIdx == old(cache.startIdx))
    {
      hide Log.Valid, Log.View, LogPage.Valid, EntryCache.Valid, Log.Flushed, IsTail;
      cache.Shape();
      var deleted := cache.DeleteTail(from);
    }

    /** Compaction is over: entries before `first` leave the cache and the first page is dropped.
        The library calls this once per snapshot, with an index after the first page's last. */
    method Poll(first: nat) returns (st: Status)
      requires Valid() && (View().split.Some? ==> first > View().split.value)
      modifies Repr()
      ensures Repr() <= old(Repr())
      ensures st != Error && (old(View()).split == None ==> st == Panic)
      ensures old(log.Failures()) <= log.Failures()
      ensures old(View()).split.Some? ==> (st == Ok <==> log.Failures() == old(log.Failures()))
      ensures st == Ok ==>
                Valid() && old(View()).prev < old(View()).split.value <= old(View()).prev + |old(View()).entries|
                           && View() == old(View()).Compacted()
                           && log.FirstSynced()
                           && old(log.Synced()) <= log.Synced() + (|old(View()).entries| - |View().entries|)
    {
      hide Log.Valid, Log.View, LogPage.Valid, EntryCache.Valid, LogView.Compacted, IsTail, Log.Synced, Log.FirstSynced,
        Log.Failures;
      DropCached(first);
      log.SplitInRange();
      assert Separate();
      st := log.CompactionEnd();
      assert Separate() && cache.Valid();
    }

    /** Drop the cached entries before `first`: the cache is then a tail of the second page; the log is not touched. */
    method DropCached(first: nat)
      requires Valid() && (View().split.Some? ==> first > View().split.value)
      modifies cache, cache.ptrs
      ensures Separate() && log.Valid() && cache.Valid() && cache.ptrs == old(cache.ptrs)
      ensures View() == old(View()) && log.Failures() == old(log.Failures())
      ensures log.Synced() == old(log.Synced()) && log.FirstSynced() == old(log.FirstSynced())
      ensures View().split.Some? ==>
                && View().prev < View().split.value <= View().prev + |View().entries|
                && View().Compacted().prev >= 0 && IsTail(View().Compacted(), cache.startIdx, cache.contents)
    {
      hide Log.Valid, Log.View, LogPage.Valid, EntryCache.Valid, LogView.Compacted, IsTail, Log.Synced, Log.FirstSynced,
        Log.Failures;
      ghost var v := View();
      log.SplitInRange();
      if v.split.Some? {
        TailDropped(v, cache.startIdx, cache.contents, first);
        TailEmpty(v.Compacted(), 0);
      }
      cache.Shape();
      var deleted := cache.DeleteHead(first);
      cache.Shape();
      assert log.Valid() && View() == v;
    }

    /** Start over after `index - 1`, with an empty cache.  The log is sound afterwards exactly when
        its first page had no entries. */
    method Reset(index: nat, term: int) returns (st: Status)
      requires Valid() && 1 <= index <= LONG_MAX + 1 && LONG_MIN <= term <= LONG_MAX
      modifies Repr()
      ensures fresh(Repr() - old(Repr())) && st != Panic
      ensures st == Ok ==> View() == LogView(index - 1, [], None) && log.page0.prevLogTerm == term
      ensures st == Ok ==> (Valid() <==> old(log.page0.entries) == []) && log.FirstSynced()
      ensures old(log.Failures()) <= log.Failures() && (st == Ok <==> log.Failures() == old(log.Failures()))
    {
      hide LogPage.Valid, LogPage.Consistent, EntryCache.Valid, LogPage.Failures;
      st := log.Reset(index - 1, term);
      cache := new EntryCache(CACHE_INIT_SIZE, cache.overhead);
      assert Separate();
    }

    /** Shrinking the cache does not change the log. */
    method CompactCache(maxMemory: nat)
      requires Valid()
      modifies cache, cache.ptrs
      ensures Valid() && View() == old(View()) && Repr() == old(Repr()) && log.Failures() == old(log.Failures())
      ensures log.KeptSynced(old(log.Synced()), old(log.FirstSynced()))
    {
      hide Log.Valid, Log.View, LogPage.Valid, EntryCache.Valid;
      ghost var start, cached := cache.startIdx, cache.contents;
      cache.Shape();
      var deleted := cache.Compact(maxMemory);
      cache.Shape();
      assert log.Valid();
      TailOfTail(View(), start, cached, deleted);
    }

    method CompactionBegin(leftover: string) returns (st: Status)
      requires Valid() && |leftover| <= OFFSET_MAX && log.page0.index <= LONG_MAX
      modifies log.Repr()
      ensures fresh(Repr() - old(Repr()))
      ensures st != Panic ==> Valid()
      ensures old(View()).split.Some? ==> st == Ok && View() == old(View())
      ensures st == Error ==> View() == old(View())
      ensures st == Ok && old(View()).split.None? ==>
                |old(View()).entries| > 1 && View() == old(View()).(split := Some(View().prev + |View().entries|))
      ensures st != Panic ==> log.KeptSynced(old(log.Synced()), old(log.FirstSynced()))
      ensures old(log.Failures()) <= log.Failures()
      ensures log.Failures() == old(log.Failures()) ==>
                st == if old(View()).split.Some? || |old(View()).entries| > 1 then Ok else Error
    {
      hide Log.Valid, Log.View, LogPage.Valid, EntryCache.Valid, Log.Synced, Log.FirstSynced;
      st := log.CompactionBegin(leftover);
      if st != Panic {
        assert Separate() && cache.Valid();
      }
    }

    /** Sync the log: every entry is then durable. */
    method Sync(fsync: bool) returns (st: Status)
      requires Valid()
      modifies Repr()
      ensures st != Error && Repr() == old(Repr())
      ensures st == Ok ==> Valid() && View() == old(View())
      ensures st == Ok && old(log.FirstSynced()) ==>
                log.FirstSynced() && log.Synced() == if fsync then |View().entries| else old(log.Synced())
      ensures old(log.Failures()) <= log.Failures() && (st == Ok <==> log.Failures() == old(log.Failures()))
    {
      hide Log.Valid, Log.View, LogPage.Valid, EntryCache.Valid, Log.Synced, Log.FirstSynced;
      st := log.Sync(fsync);
      assert Separate() && cache.Valid();
    }
  }

  lemma BatchStarts(v: LogView, idx: int)
    ensures v.Batch(idx, 0) == []
  {
  }

  lemma TailGrows(v: LogView, start: int, cached: seq<Entry>, e: Entry)
    requires IsTail(v, start, cached)
    ensures cached != [] ==> start + |cached| == v.prev + |v.entries| + 1
    ensures IsTail(v.(entries := v.entries + [e]), if cached == [] then v.prev + |v.entries| + 1 else start,
            cached + [e])
  {
  }

  lemma TailCut(v: LogView, start: int, cached: seq<Entry>, from: int)
    requires IsTail(v, start, cached) && start >= 0
    ensures v.At(from).Some? && cached != [] ==>
              var kept := if from < start then 0 else from - start;
              && from < start + |cached| && kept <= |cached|
              && IsTail(v.Cut(from), start, cached[..kept])
              && (kept > 0 ==> !IsTail(v, start, cached[..kept]))
    ensures v.At(from) == None && cached != [] && from < start + |cached| ==> from < start
  {
  }

  lemma CutPrev(v: LogView, from: int)
    ensures v.At(from).Some? ==> v.Cut(from).prev == v.prev
  {
  }

  lemma TailDropped(v: LogView, start: int, cached: seq<Entry>, first: int)
    requires IsTail(v, start, cached)
    requires v.split.Some? && v.prev < v.split.value <= v.prev + |v.entries| && first > v.split.value
    ensures v.Compacted().prev == v.split.value
    ensures first < start ==> IsTail(v.Compacted(), start, cached)
    ensures first >= start ==>
              var d := if first - start < |cached| then first - start else |cached|;
              IsTail(v.Compacted(), start + d, cached[d..])
  {
    if first >= start && first - start < |cached| {
      var d := first - start;
      assert cached[d..] == v.entries[|v.entries| - |cached| + d..];
    }
  }

  lemma TailEmpty(v: LogView, start: int)
    ensures IsTail(v, start, [])
  {
  }

  lemma TailOfTail(v: LogView, start: int, cached: seq<Entry>, k: nat)
    requires IsTail(v, start, cached) && k <= |cached|
    ensures IsTail(v, start + k, cached[k..])
  {
  }
}
