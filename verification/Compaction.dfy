/** Log compaction and snapshots as a step system with a crash possible between any two steps
    (section 7 of the extended Raft paper).  Log entries are represented by their terms. */
module Compaction {
  import opened Wrappers

  datatype Snap = Snap(idx: nat, term: int)

  /** A page file: unreadable, or a header, entries and how many of them are durable. */
  datatype Page = Torn | Page(prevIdx: nat, prevTerm: int, terms: seq<int>, synced: nat) {
    function Last(): nat
      requires Page?
    {
      prevIdx + |terms|
    }
  }

  /** The snapshot file, the log file and the second log file. */
  datatype Disk = Disk(rdb: Option<Snap>, p0: Page, p1: Option<Page>)

  datatype Phase =
    | Up
    | Popping(before: Disk)         // pages are cut, or a second page deleted, and the log is not synced yet
    | Creating                      // the second page is being created
    | RdbRenamed(next: Snap)        // finalizing: snapshot renamed, directory not synced
    | RdbSynced                     // finalizing: snapshot in place, log not switched yet
    | LogRenamed                    // finalizing: log renamed, directory not synced
    | LoadRenamed(next: Snap)       // loading: received snapshot renamed, directory not synced
    | ResetUnlink(target: Snap)     // the log is to start over after `target`: delete the second page
    | ResetTruncate(target: Snap)   // ... then empty the first
    | ResetHeader(target: Snap)     // ... then write its new header
    | Down
    | OpenFailed                    // a page header could not be read at start
    | TermMismatch                  // the snapshot's term is below the log's previous term
    | IndexMismatch                 // the snapshot does not reach the log, or is missing
    | AssertFailed                  // LogCompactionEnd found no second page

  /** `base` is the index of the snapshot the node is running from.  `hist` holds the terms of the
      entries the cluster has committed; `safe` is the highest index this node has reported both
      committed and durable. */
  datatype State = State(
    disk: Disk, phase: Phase, base: nat, commit: nat, applied: nat, snapshot: Option<Snap>,
    hist: seq<int>, safe: nat)

  datatype Event =
    | Append(term: int) | PopCut(from: nat) | PopUnlink | PopSync
    | Commit(n: nat) | Apply(n: nat) | HistoryGrows(more: seq<int>) | Fsync | Acknowledge(n: nat)
    | CompactionCreate | CompactionReady
    | SnapshotStart | SnapshotCancel
    | FinishRename | FinishSync | FinishLogRename | FinishLogSync
    | LoadRename(snap: Snap) | LoadSync | Unlink | Truncate | WriteHeader
    | Crash(lost0: nat, lost1: nat, variant: nat) | Restart

  // ----- the log on disk -----

  function TermAt(hist: seq<int>, idx: nat): int
    requires idx <= |hist|
  {
    if idx == 0 then 0 else hist[idx - 1]
  }

  ghost predicate Sorted(hist: seq<int>) {
    (forall i | 0 <= i < |hist| :: hist[i] >= 0) &&
    forall i, j | 0 <= i <= j < |hist| :: hist[i] <= hist[j]
  }

  function LastPage(d: Disk): Page {
    match d.p1
    case Some(p) => p
    case None => d.p0
  }

  function WithLastPage(d: Disk, p: Page): Disk {
    if d.p1.Some? then d.(p1 := Some(p)) else d.(p0 := p)
  }

  function Synced(d: Disk): Disk
    requires LastPage(d).Page?
  {
    WithLastPage(d, LastPage(d).(synced := |LastPage(d).terms|))
  }

  /** The term stored for an index, if the pages hold it. */
  function LogTerm(d: Disk, idx: nat): Option<int>
    requires d.p0.Page?
  {
    if d.p0.prevIdx < idx <= d.p0.Last() then Some(d.p0.terms[idx - d.p0.prevIdx - 1])
    else
      match d.p1
      case Some(Page(prev, _, terms, _)) =>
        if prev == d.p0.Last() && prev < idx <= prev + |terms| then Some(terms[idx - prev - 1]) else None
      case _ => None
  }

  /** An entry is committed when the cluster has committed the same entry at its index. */
  predicate Committed(s: State, idx: nat)
    requires s.disk.p0.Page?
  {
    1 <= idx <= |s.hist| && LogTerm(s.disk, idx) == Some(s.hist[idx - 1])
  }

  function Min(a: nat, b: nat): nat { if a < b then a else b }
  function Max(a: nat, b: nat): nat { if a < b then b else a }

  /** The index the snapshot file covers. */
  function Base(d: Disk): nat { if d.rdb.Some? then d.rdb.value.idx else 0 }

  // ----- steps -----

  /** Cut the pages before `from`: entries of the page that holds it, or of the first page. */
  function CutLog(d: Disk, from: nat): Disk
    requires d.p0.Page? && LastPage(d).Page? && d.p0.prevIdx < from
    requires d.p1.Some? ==> LastPage(d).prevIdx == d.p0.Last()
  {
    if d.p1.Some? && from > d.p0.Last() then
      var p := d.p1.value;
      var k := Min(from - p.prevIdx - 1, |p.terms|);
      d.(p1 := Some(p.(terms := p.terms[..k], synced := Min(p.synced, k))))
    else
      var k := Min(from - d.p0.prevIdx - 1, |d.p0.terms|);
      d.(p0 := d.p0.(terms := d.p0.terms[..k], synced := Min(d.p0.synced, k)))
  }

  /** Deletes a second page that no longer continues the first. */
  function DropGap(d: Disk): Disk
    requires d.p0.Page?
  {
    if d.p1.Some? && d.p1.value.Page? && d.p1.value.prevIdx != d.p0.Last() then d.(p1 := None) else d
  }

  /** What a crash leaves of a page: at least its durable entries. */
  function Survives(p: Page, lost: nat): Page {
    match p
    case Torn => Torn
    case Page(i, t, terms, synced) =>
      var n := if lost <= |terms| && |terms| - lost >= synced then |terms| - lost else |terms|;
      Page(i, t, terms[..n], n)
  }

  function Survivors(d: Disk, lost0: nat, lost1: nat): (r: Disk)
    ensures r.rdb == d.rdb
  {
    Disk(d.rdb, Survives(d.p0, lost0), if d.p1.None? then None else Some(Survives(d.p1.value, lost1)))
  }

  /** The directory and file contents a crash can leave in each phase. */
  function CrashVariant(s: State, variant: nat): Disk {
    match s.phase
    case Popping(before) => if variant == 0 then s.disk else before
    case Creating =>
      if variant == 0 || !s.disk.p0.Page? then s.disk
      else if variant == 1 then s.disk.(p1 := Some(Torn))
      else s.disk.(p1 := Some(NewPage(s.disk.p0)))
    case RdbRenamed(next) => if variant == 0 then s.disk else s.disk.(rdb := Some(next))
    case LoadRenamed(next) => if variant == 0 then s.disk else s.disk.(rdb := Some(next))
    case LogRenamed => if variant == 0 || s.disk.p1.None? then s.disk else s.disk.(p0 := s.disk.p1.value, p1 := None)
    case ResetHeader(t) =>
      if variant == 0 then s.disk
      else if variant == 1 then s.disk.(p0 := Torn)
      else s.disk.(p0 := Page(t.idx, t.term, [], 0))
    case _ => s.disk
  }

  /** The second page that continues a first page. */
  function NewPage(p: Page): Page
    requires p.Page?
  {
    Page(p.Last(), if p.terms == [] then 0 else p.terms[|p.terms| - 1], [], 0)
  }

  /** Loading drops a second page that is empty or does not continue the first. */
  function LoadPages(d: Disk): Disk
    requires d.p0.Page? && (d.p1.Some? ==> d.p1.value.Page?)
  {
    if d.p1.Some? && (d.p1.value.terms == [] || d.p1.value.prevIdx != d.p0.Last()) then d.(p1 := None) else d
  }

  // The consistency checks between the loaded snapshot and the log.

  predicate TermCheck(d: Disk)
    requires d.p0.Page?
  {
    d.rdb.Some? ==> d.rdb.value.term >= d.p0.prevTerm
  }

  predicate IndexCheck(d: Disk)
    requires d.p0.Page?
  {
    match d.rdb
    case Some(snap) => snap.idx + 1 >= d.p0.prevIdx
    case None => d.p0.prevIdx == 0
  }

  predicate Halted(phase: Phase) {
    phase.OpenFailed? || phase.TermMismatch? || phase.IndexMismatch? || phase.AssertFailed?
  }

  /** What a start finds. */
  function Started(s: State): State {
    var d := s.disk;
    if d.p0.Torn? || (d.p1.Some? && d.p1.value.Torn?) then s.(phase := OpenFailed)
    else
      var loaded := LoadPages(d);
      var base := Base(d);
      if !TermCheck(loaded) then s.(phase := TermMismatch)
      else if !IndexCheck(loaded) then s.(phase := IndexMismatch)
      else
        var up := s.(disk := loaded, base := base, commit := base, applied := base, snapshot := None, phase := Up);
        if LastPage(loaded).Page? && LastPage(loaded).Last() < base
        then up.(phase := ResetUnlink(d.rdb.value)) else up
  }

  /** Steps of the log and of the Raft library. */
  ghost predicate LogStep(s: State, e: Event, s': State) {
    match e
    // The library appends entries of non-decreasing term.
    case Append(term) =>
      && s.phase == Up && LastPage(s.disk).Page? && term >= 0
      && var p := LastPage(s.disk);
         s' == s.(disk := WithLastPage(s.disk, p.(terms := p.terms + [term])))
    // The library never pops an entry that the cluster has committed.  It pops one entry after the other and then
    // syncs the log.
    case PopCut(from) =>
      && (s.phase.Up? || s.phase.Popping?) && s.disk.p0.Page? && LastPage(s.disk).Page?
      && (s.disk.p1.Some? ==> LastPage(s.disk).prevIdx == s.disk.p0.Last())
      && s.disk.p0.prevIdx < from && s.commit < from && LogTerm(s.disk, from).Some? && !Committed(s, from)
      && s' == s.(disk := CutLog(s.disk, from), phase := if s.phase.Up? then Popping(s.disk) else s.phase)
    case PopUnlink => s.phase.Popping? && s.disk.p0.Page? && s' == s.(disk := DropGap(s.disk))
    case PopSync =>
      && s.phase.Popping? && s.disk.p0.Page? && LastPage(s.disk).Page? && DropGap(s.disk) == s.disk
      && s' == s.(disk := Synced(s.disk), phase := Up)
    // Only entries that match the cluster's are committed here.
    case Commit(n) =>
      && s.phase == Up && s.disk.p0.Page? && s.commit <= n <= |s.hist|
      && (forall i | s.commit < i <= n :: Committed(s, i))
      && s' == s.(commit := n)
    case Apply(n) => s.phase == Up && s.applied <= n <= s.commit && s' == s.(applied := n)
    case HistoryGrows(more) => Sorted(s.hist + more) && s' == s.(hist := s.hist + more)
    case Fsync =>
      s.phase == Up && LastPage(s.disk).Page? && s' == s.(disk := Synced(s.disk))
    case Acknowledge(n) =>
      && s.phase == Up && LastPage(s.disk).Page? && n <= s.commit
      && n <= LastPage(s.disk).prevIdx + LastPage(s.disk).synced
      && s' == s.(safe := Max(s.safe, n))
    case _ => false
  }

  /** Steps of compaction. */
  ghost predicate SnapshotStep(s: State, e: Event, s': State) {
    match e
    // Step 1 of compaction: the first page is synced, then the second is created.
    case CompactionCreate =>
      && s.phase == Up && s.snapshot == None && s.disk.p1 == None && s.disk.p0.Page? && |s.disk.p0.terms| > 1
      && s' == s.(disk := s.disk.(p0 := s.disk.p0.(synced := |s.disk.p0.terms|)), phase := Creating)
    case CompactionReady =>
      && s.phase == Creating && s.disk.p0.Page?
      && s' == s.(disk := s.disk.(p1 := Some(NewPage(s.disk.p0))), phase := Up)
    // Step 2: every entry of the first page is committed and everything committed is applied.
    case SnapshotStart =>
      && s.phase == Up && s.snapshot == None && s.disk.p1.Some? && s.disk.p0.Page?
      && s.commit >= s.disk.p0.Last() && s.applied == s.commit && 1 <= s.applied <= |s.hist|
      && s' == s.(snapshot := Some(Snap(s.applied, s.hist[s.applied - 1])))
    // The child failed, or its file could not be renamed.
    case SnapshotCancel => s.phase == Up && s.snapshot.Some? && s' == s.(snapshot := None)
    case FinishRename => s.phase == Up && s.snapshot.Some? && s' == s.(phase := RdbRenamed(s.snapshot.value))
    case FinishSync =>
      && s.phase.RdbRenamed?
      && s' == s.(disk := s.disk.(rdb := Some(s.phase.next)), phase := RdbSynced)
    case FinishLogRename =>
      && s.phase == RdbSynced
      && s' == s.(phase := if s.disk.p1.None? then AssertFailed else LogRenamed)
    case FinishLogSync =>
      && s.phase == LogRenamed && s.disk.p1.Some?
      && s' == s.(disk := s.disk.(p0 := s.disk.p1.value, p1 := None), base := Base(s.disk), snapshot := None,
         phase := Up)
    case _ => false
  }

  /** Steps of loading a snapshot received from the leader, and of starting the log over. */
  ghost predicate LoadStep(s: State, e: Event, s': State) {
    match e
    // The library loads a snapshot only if it ends beyond this node's log.
    case LoadRename(snap) =>
      && s.phase == Up && s.snapshot == None && LastPage(s.disk).Page?
      && LastPage(s.disk).Last() < snap.idx <= |s.hist| && snap.term == s.hist[snap.idx - 1]
      && s' == s.(phase := LoadRenamed(snap))
    case LoadSync =>
      && s.phase.LoadRenamed?
      && s' == s.(disk := s.disk.(rdb := Some(s.phase.next)), base := s.phase.next.idx, commit := s.phase.next.idx,
                  applied := s.phase.next.idx, phase := ResetUnlink(s.phase.next))
    case Unlink =>
      && s.phase.ResetUnlink?
      && s' == s.(disk := s.disk.(p1 := None), phase := ResetTruncate(s.phase.target))
    case Truncate => s.phase.ResetTruncate? && s' == s.(phase := ResetHeader(s.phase.target))
    case WriteHeader =>
      && s.phase.ResetHeader?
      && s' == s.(disk := s.disk.(p0 := Page(s.phase.target.idx, s.phase.target.term, [], 0)), phase := Up)
    case _ => false
  }

  /** A crash and a start. */
  ghost predicate PowerStep(s: State, e: Event, s': State) {
    match e
    case Crash(lost0, lost1, variant) =>
      && !Halted(s.phase)
      && var d := CrashVariant(s, variant);
         s' == s.(disk := Survivors(d, lost0, lost1), snapshot := None, phase := Down)
    case Restart => s.phase == Down && s' == Started(s)
    case _ => false
  }

  ghost predicate Step(s: State, e: Event, s': State) {
    LogStep(s, e, s') || SnapshotStep(s, e, s') || LoadStep(s, e, s') || PowerStep(s, e, s')
  }

  // ----- the invariant -----

  ghost predicate IsSnapshot(snap: Snap, hist: seq<int>) {
    1 <= snap.idx <= |hist| && snap.term == hist[snap.idx - 1]
  }

  ghost predicate InPage(p: Page, hist: seq<int>, i: nat) {
    && p.Page? && p.synced <= |p.terms| && p.prevIdx < i <= p.prevIdx + p.synced && i <= |hist|
    && p.terms[i - p.prevIdx - 1] == hist[i - 1]
  }

  /** Entry `i` survives any crash: covered by a snapshot, or durable in a page that loading keeps. */
  ghost predicate Kept(d: Disk, hist: seq<int>, base: nat, i: nat) {
    || i <= base
    || InPage(d.p0, hist, i)
    || (d.p0.Page? && d.p1.Some? && d.p1.value.Page? && d.p1.value.prevIdx == d.p0.Last()
       && InPage(d.p1.value, hist, i))
  }

  ghost predicate AllKept(d: Disk, hist: seq<int>, base: nat, safe: nat) {
    safe <= |hist| && forall i | 1 <= i <= safe :: Kept(d, hist, base, i)
  }

  ghost predicate Adjacent(p: Page, q: Page)
    requires p.Page? && q.Page?
  {
    q.prevIdx == p.Last() && p.terms != [] && q.prevTerm == p.terms[|p.terms| - 1] && p.synced == |p.terms|
  }

  /** What holds of the files whenever a crash could strike. */
  ghost predicate FilesOk(d: Disk, hist: seq<int>) {
    && (d.rdb.Some? ==> IsSnapshot(d.rdb.value, hist))
    && (d.p0.Page? ==> d.p0.synced <= |d.p0.terms| && d.p0.prevIdx <= Base(d))
    && (d.p1.Some? && d.p1.value.Page? ==> d.p1.value.synced <= |d.p1.value.terms|)
    && (d.p0.Page? && d.p1.Some? && d.p1.value.Page? ==>
          d.p0.Last() < d.p1.value.prevIdx || Adjacent(d.p0, d.p1.value))
  }

  ghost predicate CommittedUpTo(s: State)
    requires s.disk.p0.Page?
  {
    forall i | s.base < i <= s.commit :: Committed(s, i)
  }

  /** What holds of a node in operation. */
  ghost predicate Live(s: State) {
    && s.disk.p0.Page?
    && (s.disk.p1.Some? ==> s.disk.p1.value.Page? && Adjacent(s.disk.p0, s.disk.p1.value))
    && s.disk.p0.prevIdx <= s.base <= s.applied <= s.commit <= LastPage(s.disk).Last()
    && s.base <= Base(s.disk) && s.commit <= |s.hist|
    && CommittedUpTo(s)
    && AllKept(s.disk, s.hist, s.base, s.safe)
    && (s.snapshot.Some? ==>
          && s.disk.p1.Some? && IsSnapshot(s.snapshot.value, s.hist)
          && s.base <= s.snapshot.value.idx <= s.applied && s.disk.p0.Last() <= s.snapshot.value.idx)
  }

  ghost predicate Resetting(s: State, target: Snap) {
    && s.disk.rdb == Some(target) && s.safe <= target.idx && s.snapshot == None && s.disk.p0.Page?
    && s.base == s.commit == s.applied == target.idx
  }

  ghost predicate Inv(s: State) {
    && Sorted(s.hist)
    && FilesOk(s.disk, s.hist)
    && match s.phase
       case Up => Live(s)
       case Popping(before) =>
         && s.disk.p0.Page? && Live(s.(disk := DropGap(s.disk)))
         && Live(s.(disk := before)) && FilesOk(before, s.hist) && before.rdb == s.disk.rdb
       case Creating =>
         Live(s) && s.disk.p1 == None && s.snapshot == None && s.disk.p0.terms != []
           && s.disk.p0.synced == |s.disk.p0.terms|
       case RdbRenamed(next) => Live(s) && s.snapshot == Some(next)
       case RdbSynced => Live(s) && s.snapshot.Some? && s.disk.rdb == s.snapshot
       case LogRenamed => Live(s) && s.snapshot.Some? && s.disk.rdb == s.snapshot
       case LoadRenamed(next) =>
         Live(s) && s.snapshot == None && s.commit < next.idx && IsSnapshot(next, s.hist) && s.safe <= next.idx
       case ResetUnlink(t) => Resetting(s, t)
       case ResetTruncate(t) => Resetting(s, t) && s.disk.p1 == None
       case ResetHeader(t) => Resetting(s, t) && s.disk.p1 == None
       case Down => AllKept(s.disk, s.hist, Base(s.disk), s.safe)
       case OpenFailed => AllKept(s.disk, s.hist, Base(s.disk), s.safe)
       case TermMismatch => true
       case IndexMismatch => false
       case AssertFailed => false
  }

  /** Every step keeps the invariant. */
  lemma KeepsInv(s: State, e: Event, s': State)
    requires Inv(s) && Step(s, e, s')
    ensures Inv(s')
  {
    hide Inv, LogStep, SnapshotStep, LoadStep, PowerStep;
    if LogStep(s, e, s') {
      LogKeepsInv(s, e, s');
    } else if SnapshotStep(s, e, s') {
      CompactionKeepsInv(s, e, s');
    } else if LoadStep(s, e, s') {
      LoadKeepsInv(s, e, s');
    } else {
      PowerKeepsInv(s, e, s');
    }
  }

  /** The committed entries and the kept entries of a log carry over to one that holds them too. */
  lemma Carry(s: State, s': State)
    requires Live(s) && s'.disk.p0.Page? && s.base <= s'.base && s'.commit <= s.commit && s'.safe <= s.safe
    requires s.hist <= s'.hist
    requires forall i | s'.base < i <= s.commit && Committed(s, i) :: Committed(s', i)
    requires forall i | 1 <= i <= s.safe && Kept(s.disk, s.hist, s.base, i) :: Kept(s'.disk, s'.hist, s'.base, i)
    ensures CommittedUpTo(s') && AllKept(s'.disk, s'.hist, s'.base, s'.safe)
  {
    forall i | s'.base < i <= s'.commit ensures Committed(s', i) { assert Committed(s, i); }
    forall i | 1 <= i <= s'.safe ensures Kept(s'.disk, s'.hist, s'.base, i) { assert Kept(s.disk, s.hist, s.base, i); }
  }

  /** Steps that leave the two pages alone. */
  lemma SamePagesCarry(s: State, s': State)
    requires Live(s) && s'.disk.p0 == s.disk.p0 && s'.disk.p1 == s.disk.p1 && s'.hist == s.hist
    requires s'.base == s.base && s'.commit == s.commit && s'.safe <= s.safe
    ensures CommittedUpTo(s') && AllKept(s'.disk, s'.hist, s'.base, s'.safe)
  {
    Carry(s, s');
  }

  /** Entries added at the end, or synced, disturb nothing. */
  lemma ExtendCarries(s: State, q: Page, t: State)
    requires Live(s) && t == s.(disk := WithLastPage(s.disk, q))
    requires var p := LastPage(s.disk);
             q.Page? && q.prevIdx == p.prevIdx && p.terms <= q.terms && p.synced <= q.synced <= |q.terms|
    ensures CommittedUpTo(t) && AllKept(t.disk, t.hist, t.base, t.safe)
  {
    Carry(s, t);
  }

  lemma AppendKeepsInv(s: State, e: Event, s': State)
    requires Inv(s) && LogStep(s, e, s') && (e.Append? || e.Fsync?)
    ensures Inv(s')
  {
    hide CommittedUpTo, AllKept, Committed;
    ExtendCarries(s, LastPage(s'.disk), s');
  }

  lemma CreateKeepsInv(s: State, e: Event, s': State)
    requires Inv(s) && SnapshotStep(s, e, s') && (e.CompactionCreate? || e.CompactionReady?)
    ensures Inv(s')
  {
    Carry(s, s');
  }

  lemma SwitchKeepsInv(s: State, e: Event, s': State)
    requires Inv(s) && SnapshotStep(s, e, s') && e.FinishLogSync?
    ensures Inv(s')
  {
    Carry(s, s');
  }

  /** Cutting keeps what precedes the cut. */
  lemma CutKeeps(d: Disk, hist: seq<int>, base: nat, from: nat, i: nat)
    requires d.p0.Page? && LastPage(d).Page? && d.p0.prevIdx < from && i < from
    requires d.p1.Some? ==> LastPage(d).prevIdx == d.p0.Last()
    ensures LogTerm(DropGap(CutLog(d, from)), i) == LogTerm(d, i)
    ensures Kept(d, hist, base, i) ==> Kept(DropGap(CutLog(d, from)), hist, base, i)
  {
  }

  lemma SafeIsCommitted(s: State, i: nat)
    requires Live(s) && s.base < i <= s.safe
    ensures Committed(s, i)
  {
    assert Kept(s.disk, s.hist, s.base, i);
  }

  lemma PopCarries(s: State, from: nat, t: State)
    requires Live(s) && s.disk.p0.prevIdx < from && s.commit < from && LogTerm(s.disk, from).Some?
             && !Committed(s, from)
    requires t.disk == DropGap(CutLog(s.disk, from)) && t.hist == s.hist
    requires t.base == s.base && t.commit == s.commit && t.safe == s.safe
    ensures CommittedUpTo(t) && AllKept(t.disk, t.hist, t.base, t.safe)
  {
    forall i | t.base < i <= t.commit ensures Committed(t, i) {
      assert Committed(s, i);
      CutKeeps(s.disk, s.hist, s.base, from, i);
    }
    if from <= s.safe { SafeIsCommitted(s, from); }
    forall i | 1 <= i <= s.safe ensures Kept(t.disk, t.hist, t.base, i) {
      assert Kept(s.disk, s.hist, s.base, i);
      CutKeeps(s.disk, s.hist, s.base, from, i);
    }
  }

  lemma PopKeepsInv(s: State, e: Event, s': State)
    requires Inv(s) && LogStep(s, e, s') && e.PopCut?
    ensures Inv(s')
  {
    hide CommittedUpTo, AllKept, Committed;
    assert DropGap(s.disk) == s.disk && s == s.(disk := s.disk);
    PopCarries(s, e.from, s'.(disk := DropGap(s'.disk)));
    var before := s'.phase.before;
    PhaseIsNoMatter(s.(disk := before), s'.(disk := before));
  }

  lemma PhaseIsNoMatter(s: State, t: State)
    requires t == s.(phase := t.phase)
    ensures Live(s) == Live(t)
  {
    if s.disk.p0.Page? {
      assert forall i: nat :: Committed(s, i) == Committed(t, i);
      assert CommittedUpTo(s) == CommittedUpTo(t);
    }
  }

  lemma UnlinkKeepsInv(s: State, e: Event, s': State)
    requires Inv(s) && LogStep(s, e, s') && (e.PopUnlink? || e.PopSync?)
    ensures Inv(s')
  {
    if e.PopSync? {
      var t := s.(phase := Up);
      assert Inv(t) by { Carry(s.(disk := DropGap(s.disk)), t); }
      AppendKeepsInv(t, Fsync, s');
    } else {
      Carry(s.(disk := DropGap(s.disk)), s');
    }
  }

  lemma CommitCarries(s: State, n: nat, t: State)
    requires Live(s) && s.commit <= n <= |s.hist| && (forall i | s.commit < i <= n :: Committed(s, i))
    requires t == s.(commit := n)
    ensures CommittedUpTo(t) && n <= LastPage(s.disk).Last()
  {
    forall i | t.base < i <= t.commit ensures Committed(t, i) { assert Committed(s, i); }
    if s.commit < n { assert Committed(s, n); }
  }

  lemma CommitKeepsInv(s: State, e: Event, s': State)
    requires Inv(s) && LogStep(s, e, s') && e.Commit?
    ensures Inv(s')
  {
    hide CommittedUpTo, AllKept;
    CommitCarries(s, e.n, s');
  }

  lemma AcknowledgeCarries(s: State, n: nat, t: State)
    requires Live(s) && FilesOk(s.disk, s.hist) && n <= s.commit
             && n <= LastPage(s.disk).prevIdx + LastPage(s.disk).synced
    requires t == s.(safe := Max(s.safe, n))
    ensures CommittedUpTo(t) && AllKept(t.disk, t.hist, t.base, t.safe)
  {
    forall i | t.base < i <= t.commit ensures Committed(t, i) { assert Committed(s, i); }
    forall i | 1 <= i <= t.safe ensures Kept(t.disk, t.hist, t.base, i) {
      if i <= s.safe { assert Kept(s.disk, s.hist, s.base, i); } else { assert i <= s.base || Committed(s, i); }
    }
  }

  lemma AcknowledgeKeepsInv(s: State, e: Event, s': State)
    requires Inv(s) && LogStep(s, e, s') && e.Acknowledge?
    ensures Inv(s')
  {
    hide CommittedUpTo, AllKept, Committed;
    AcknowledgeCarries(s, e.n, s');
  }

  lemma ApplyKeepsInv(s: State, e: Event, s': State)
    requires Inv(s) && LogStep(s, e, s') && e.Apply?
    ensures Inv(s')
  {
    hide CommittedUpTo, AllKept, Committed;
    SamePagesCarry(s, s');
  }

  lemma SnapshotKeepsInv(s: State, e: Event, s': State)
    requires Inv(s) && SnapshotStep(s, e, s')
    requires e.SnapshotStart? || e.SnapshotCancel? || e.FinishRename? || e.FinishLogRename?
    ensures Inv(s')
  {
    hide CommittedUpTo, AllKept, Committed;
    SamePagesCarry(s, s');
  }

  lemma ResetKeepsInv(s: State, e: Event, s': State)
    requires Inv(s) && LoadStep(s, e, s') && (e.Unlink? || e.Truncate? || e.WriteHeader?)
    ensures Inv(s')
  {
  }

  lemma FinishKeepsInv(s: State, e: Event, s': State)
    requires Inv(s) && SnapshotStep(s, e, s') && e.FinishSync?
    ensures Inv(s')
  {
    hide CommittedUpTo, AllKept, Committed;
    SamePagesCarry(s, s');
  }

  lemma ReceiveKeepsInv(s: State, e: Event, s': State)
    requires Inv(s) && LoadStep(s, e, s') && e.LoadRename?
    ensures Inv(s')
  {
    SafeInLog(s);
    hide CommittedUpTo, AllKept, Committed;
    SamePagesCarry(s, s');
  }

  /** What was acknowledged is within the log. */
  lemma SafeInLog(s: State)
    requires Live(s) && FilesOk(s.disk, s.hist)
    ensures s.safe <= LastPage(s.disk).Last()
  {
    if s.safe > 0 { assert Kept(s.disk, s.hist, s.base, s.safe); }
  }

  lemma LoadKeepsInv(s: State, e: Event, s': State)
    requires Inv(s) && LoadStep(s, e, s')
    ensures Inv(s')
  {
    hide CommittedUpTo, AllKept, Committed;
    if e.LoadRename? {
      ReceiveKeepsInv(s, e, s');
    } else if !e.LoadSync? {
      ResetKeepsInv(s, e, s');
    }
  }

  lemma CompactionKeepsInv(s: State, e: Event, s': State)
    requires Inv(s) && SnapshotStep(s, e, s')
    ensures Inv(s')
  {
    hide Inv;
    if e.CompactionCreate? || e.CompactionReady? {
      CreateKeepsInv(s, e, s');
    } else if e.FinishSync? {
      FinishKeepsInv(s, e, s');
    } else if e.FinishLogSync? {
      SwitchKeepsInv(s, e, s');
    } else {
      SnapshotKeepsInv(s, e, s');
    }
  }

  lemma AllKeptGrows(d: Disk, hist: seq<int>, more: seq<int>, base: nat, safe: nat)
    requires AllKept(d, hist, base, safe)
    ensures AllKept(d, hist + more, base, safe)
  {
    forall i | 1 <= i <= safe ensures Kept(d, hist + more, base, i) { assert Kept(d, hist, base, i); }
  }

  lemma LiveGrows(s: State, more: seq<int>)
    requires Live(s)
    ensures Live(s.(hist := s.hist + more))
  {
    AllKeptGrows(s.disk, s.hist, more, s.base, s.safe);
    var t := s.(hist := s.hist + more);
    forall i | t.base < i <= t.commit ensures Committed(t, i) { assert Committed(s, i); }
  }

  lemma HistoryKeepsInv(s: State, e: Event, s': State)
    requires Inv(s) && LogStep(s, e, s') && e.HistoryGrows?
    ensures Inv(s')
  {
    hide Live, AllKept;
    if s.phase.Down? || s.phase.OpenFailed? {
      AllKeptGrows(s.disk, s.hist, e.more, Base(s.disk), s.safe);
    } else if s.phase.Popping? {
      LiveGrows(s.(disk := DropGap(s.disk)), e.more);
      LiveGrows(s.(disk := s.phase.before), e.more);
    } else if Live(s) {
      LiveGrows(s, e.more);
    }
  }

  lemma LogKeepsInv(s: State, e: Event, s': State)
    requires Inv(s) && LogStep(s, e, s')
    ensures Inv(s')
  {
    hide Inv;
    if e.Append? || e.Fsync? {
      AppendKeepsInv(s, e, s');
    } else if e.PopCut? {
      PopKeepsInv(s, e, s');
    } else if e.PopUnlink? || e.PopSync? {
      UnlinkKeepsInv(s, e, s');
    } else if e.Commit? {
      CommitKeepsInv(s, e, s');
    } else if e.Acknowledge? {
      AcknowledgeKeepsInv(s, e, s');
    } else if e.HistoryGrows? {
      HistoryKeepsInv(s, e, s');
    } else {
      ApplyKeepsInv(s, e, s');
    }
  }

  /** Whatever a crash does to unsynced entries, the kept ones are still there. */
  lemma SurvivorsKept(d: Disk, hist: seq<int>, safe: nat, lost0: nat, lost1: nat)
    requires FilesOk(d, hist) && AllKept(d, hist, Base(d), safe)
    ensures FilesOk(Survivors(d, lost0, lost1), hist)
    ensures AllKept(Survivors(d, lost0, lost1), hist, Base(d), safe)
  {
    var t := Survivors(d, lost0, lost1);
    forall i | 1 <= i <= safe ensures Kept(t, hist, Base(d), i) {
      assert Kept(d, hist, Base(d), i);
    }
  }

  /** Every outcome of a crash among the pending renames and writes is consistent. */
  lemma VariantFilesOk(s: State, variant: nat)
    requires Inv(s) && !Halted(s.phase)
    ensures FilesOk(CrashVariant(s, variant), s.hist)
  {
    hide CommittedUpTo, AllKept, Committed;
  }

  lemma VariantKept(s: State, variant: nat, i: nat)
    requires Inv(s) && !Halted(s.phase) && 1 <= i <= s.safe
    ensures Kept(CrashVariant(s, variant), s.hist, Base(CrashVariant(s, variant)), i)
  {
    hide CommittedUpTo, Committed;
    if s.phase.Down? {
      assert Kept(s.disk, s.hist, Base(s.disk), i);
    } else if s.phase.Popping? {
      assert Kept(DropGap(s.disk), s.hist, s.base, i) && Kept(s.phase.before, s.hist, s.base, i);
    } else if Live(s) {
      assert Kept(s.disk, s.hist, s.base, i);
    }
  }

  lemma CrashKeepsInv(s: State, e: Event, s': State)
    requires Inv(s) && PowerStep(s, e, s') && e.Crash?
    ensures Inv(s')
  {
    var d := CrashVariant(s, e.variant);
    VariantFilesOk(s, e.variant);
    assert AllKept(d, s.hist, Base(d), s.safe) by {
      hide CrashVariant, FilesOk, Kept, Live;
      forall i | 1 <= i <= s.safe ensures Kept(d, s.hist, Base(d), i) { VariantKept(s, e.variant, i); }
    }
    hide FilesOk, AllKept, Live, CrashVariant, Survivors;
    SurvivorsKept(d, s.hist, s.safe, e.lost0, e.lost1);
  }

  lemma LoadKeeps(d: Disk, hist: seq<int>, safe: nat)
    requires FilesOk(d, hist) && d.p0.Page? && (d.p1.Some? ==> d.p1.value.Page?) && AllKept(d, hist, Base(d), safe)
    ensures FilesOk(LoadPages(d), hist) && AllKept(LoadPages(d), hist, Base(d), safe)
    ensures safe <= LastPage(LoadPages(d)).Last() || safe <= Base(d)
  {
    forall i | 1 <= i <= safe ensures Kept(LoadPages(d), hist, Base(d), i) {
      assert Kept(d, hist, Base(d), i);
    }
    if safe > 0 { assert Kept(LoadPages(d), hist, Base(d), safe); }
  }

  /** A started node is in operation, or has to start its log over after the snapshot. */
  lemma StartedIsLive(s: State)
    requires s.phase == Down && Sorted(s.hist) && FilesOk(s.disk, s.hist)
             && AllKept(s.disk, s.hist, Base(s.disk), s.safe)
    requires s.disk.p0.Page? && (s.disk.p1.Some? ==> s.disk.p1.value.Page?) && TermCheck(LoadPages(s.disk))
    ensures Inv(Started(s))
  {
    LoadKeeps(s.disk, s.hist, s.safe);
    hide AllKept, Committed;
  }

  lemma PowerKeepsInv(s: State, e: Event, s': State)
    requires Inv(s) && PowerStep(s, e, s')
    ensures Inv(s')
  {
    if e.Crash? {
      CrashKeepsInv(s, e, s');
    } else if s.disk.p0.Page? && (s.disk.p1.Some? ==> s.disk.p1.value.Page?) && TermCheck(LoadPages(s.disk)) {
      hide AllKept, FilesOk, Live;
      StartedIsLive(s);
    } else {
      hide AllKept, Live;
    }
  }

  // ----- terms -----

  /** The log, where it reaches the snapshot, holds the committed entries up to it. */
  ghost predicate Agrees(d: Disk, hist: seq<int>) {
    d.p0.Page? && (d.p1.Some? ==> d.p1.value.Page?) && Base(d) <= |hist| ==>
      var loaded := LoadPages(d);
      LastPage(loaded).Last() >= Base(d) ==>
        forall i | loaded.p0.prevIdx < i <= Base(d) :: LogTerm(loaded, i) == Some(hist[i - 1])
  }

  ghost predicate PrevTermOk(d: Disk, hist: seq<int>) {
    d.p0.Page? ==> d.p0.prevIdx <= |hist| && d.p0.prevTerm == TermAt(hist, d.p0.prevIdx)
  }

  ghost predicate Matching(s: State) {
    && s.disk.p0.Page? && Base(s.disk) <= s.commit
    && forall i | s.disk.p0.prevIdx < i <= s.commit :: Committed(s, i)
  }

  /** Both pages end before an index. */
  ghost predicate EndsBefore(d: Disk, idx: nat) {
    && d.p0.Page? && d.p0.Last() < idx
    && (d.p1.Some? && d.p1.value.Page? ==> d.p1.value.Last() < idx)
  }

  ghost predicate TermInv(s: State) {
    && PrevTermOk(s.disk, s.hist)
    && match s.phase
       case Popping(before) =>
         && s.disk.p0.Page? && Matching(s.(disk := DropGap(s.disk)))
         && Matching(s.(disk := before)) && PrevTermOk(before, s.hist)
       case LoadRenamed(next) => Matching(s) && EndsBefore(s.disk, next.idx)
       case ResetUnlink(t) => EndsBefore(s.disk, t.idx)
       case ResetTruncate(t) => EndsBefore(s.disk, t.idx)
       case ResetHeader(t) => EndsBefore(s.disk, t.idx)
       case Down => Agrees(s.disk, s.hist)
       case OpenFailed => true
       case TermMismatch => false
       case IndexMismatch => true
       case AssertFailed => true
       case _ => Matching(s)
  }

  lemma KeepsTermInv(s: State, e: Event, s': State)
    requires Inv(s) && TermInv(s) && Step(s, e, s')
    ensures TermInv(s')
  {
    hide Inv, TermInv, LogStep, SnapshotStep, LoadStep, PowerStep;
    if LogStep(s, e, s') {
      LogKeepsTermInv(s, e, s');
    } else if SnapshotStep(s, e, s') {
      CompactionKeepsTermInv(s, e, s');
    } else if LoadStep(s, e, s') {
      LoadKeepsTermInv(s, e, s');
    } else {
      PowerKeepsTermInv(s, e, s');
    }
  }

  lemma MatchingCarries(s: State, t: State)
    requires Matching(s) && t.disk.p0.Page? && Base(t.disk) <= t.commit && t.commit <= s.commit
    requires forall i | t.disk.p0.prevIdx < i <= s.commit && Committed(s, i) :: Committed(t, i)
    requires s.disk.p0.prevIdx <= t.disk.p0.prevIdx
    ensures Matching(t)
  {
    forall i | t.disk.p0.prevIdx < i <= t.commit ensures Committed(t, i) { assert Committed(s, i); }
  }

  lemma HistoryKeepsTermInv(s: State, e: Event, s': State)
    requires Inv(s) && TermInv(s) && LogStep(s, e, s') && e.HistoryGrows?
    ensures TermInv(s')
  {
    hide Live, AllKept, LogTerm, LastPage;
    if s.phase.Popping? {
      MatchingCarries(s.(disk := DropGap(s.disk)), s'.(disk := DropGap(s.disk)));
      MatchingCarries(s.(disk := s.phase.before), s'.(disk := s.phase.before));
    } else if Matching(s) {
      MatchingCarries(s, s');
    }
  }

  lemma PopKeepsTermInv(s: State, e: Event, s': State)
    requires Inv(s) && TermInv(s) && LogStep(s, e, s') && e.PopCut?
    ensures TermInv(s')
  {
    var t := s'.(disk := DropGap(s'.disk));
    forall i | t.disk.p0.prevIdx < i <= s.commit && Committed(s, i) ensures Committed(t, i) {
      CutKeeps(s.disk, s.hist, s.base, e.from, i);
    }
    hide Live, LogTerm, FilesOk;
    assert DropGap(s.disk) == s.disk && s == s.(disk := s.disk);
    MatchingCarries(s, t);
    MatchingCarries(s, s'.(disk := s.disk));
  }

  lemma UnlinkKeepsTermInv(s: State, e: Event, s': State)
    requires Inv(s) && TermInv(s) && LogStep(s, e, s') && (e.PopUnlink? || e.PopSync?)
    ensures TermInv(s')
  {
    hide Live, LogTerm, FilesOk;
    if e.PopSync? {
      assert DropGap(s.disk) == s.disk && s == s.(disk := s.disk);
      SyncedTerms(s.disk);
    }
    MatchingCarries(s.(disk := DropGap(s.disk)), s'.(disk := DropGap(s'.disk)));
  }

  lemma SyncedTerms(d: Disk)
    requires d.p0.Page? && LastPage(d).Page?
    ensures forall i: nat :: LogTerm(Synced(d), i) == LogTerm(d, i)
    ensures DropGap(d) == d ==> DropGap(Synced(d)) == Synced(d)
  {
  }

  lemma CommitKeepsTermInv(s: State, e: Event, s': State)
    requires Inv(s) && TermInv(s) && LogStep(s, e, s') && e.Commit?
    ensures TermInv(s')
  {
    hide Live, LogTerm, FilesOk;
    forall i | s.disk.p0.prevIdx < i <= s'.commit ensures Committed(s', i) { assert Committed(s, i); }
  }

  lemma AppendKeepsTermInv(s: State, e: Event, s': State)
    requires Inv(s) && TermInv(s) && LogStep(s, e, s') && (e.Append? || e.Fsync? || e.Apply? || e.Acknowledge?)
    ensures TermInv(s')
  {
    hide CommittedUpTo, AllKept, FilesOk;
    MatchingCarries(s, s');
  }

  lemma LogKeepsTermInv(s: State, e: Event, s': State)
    requires Inv(s) && TermInv(s) && LogStep(s, e, s')
    ensures TermInv(s')
  {
    hide Inv, TermInv;
    if e.HistoryGrows? {
      HistoryKeepsTermInv(s, e, s');
    } else if e.PopCut? {
      PopKeepsTermInv(s, e, s');
    } else if e.PopUnlink? || e.PopSync? {
      UnlinkKeepsTermInv(s, e, s');
    } else if e.Commit? {
      CommitKeepsTermInv(s, e, s');
    } else {
      AppendKeepsTermInv(s, e, s');
    }
  }

  lemma SwitchKeepsTermInv(s: State, e: Event, s': State)
    requires Inv(s) && TermInv(s) && SnapshotStep(s, e, s') && e.FinishLogSync?
    ensures TermInv(s')
  {
    hide CommittedUpTo, AllKept;
    assert Committed(s, s.disk.p0.Last());
    MatchingCarries(s, s');
  }

  lemma CreateKeepsTermInv(s: State, e: Event, s': State)
    requires Inv(s) && TermInv(s) && SnapshotStep(s, e, s') && (e.CompactionCreate? || e.CompactionReady?)
    ensures TermInv(s')
  {
    hide CommittedUpTo, AllKept, FilesOk;
    MatchingCarries(s, s');
  }

  lemma FinishKeepsTermInv(s: State, e: Event, s': State)
    requires Inv(s) && TermInv(s) && SnapshotStep(s, e, s') && !e.FinishLogSync? && !e.CompactionCreate?
             && !e.CompactionReady?
    ensures TermInv(s')
  {
    hide CommittedUpTo, AllKept, FilesOk;
    if !s'.phase.AssertFailed? {
      SamePagesTerms(s, s');
      MatchingCarries(s, s');
    }
  }

  lemma SamePagesTerms(s: State, s': State)
    requires s.disk.p0.Page? && s'.disk.p0 == s.disk.p0 && s'.disk.p1 == s.disk.p1 && s'.hist == s.hist
    ensures forall i: nat :: Committed(s', i) == Committed(s, i)
  {
  }

  lemma CompactionKeepsTermInv(s: State, e: Event, s': State)
    requires Inv(s) && TermInv(s) && SnapshotStep(s, e, s')
    ensures TermInv(s')
  {
    hide Inv, TermInv;
    if e.FinishLogSync? {
      SwitchKeepsTermInv(s, e, s');
    } else if e.CompactionCreate? || e.CompactionReady? {
      CreateKeepsTermInv(s, e, s');
    } else {
      FinishKeepsTermInv(s, e, s');
    }
  }

  lemma ReceiveKeepsTermInv(s: State, e: Event, s': State)
    requires Inv(s) && TermInv(s) && LoadStep(s, e, s') && e.LoadRename?
    ensures TermInv(s')
  {
    hide CommittedUpTo, AllKept, FilesOk;
    SamePagesTerms(s, s');
    MatchingCarries(s, s');
  }

  lemma LoadKeepsTermInv(s: State, e: Event, s': State)
    requires Inv(s) && TermInv(s) && LoadStep(s, e, s')
    ensures TermInv(s')
  {
    if e.LoadRename? {
      ReceiveKeepsTermInv(s, e, s');
    } else {
      hide Live, AllKept;
    }
  }

  /** Losing unsynced entries only shortens the log. */
  lemma SurvivorsAgree(d: Disk, hist: seq<int>, lost0: nat, lost1: nat)
    requires FilesOk(d, hist) && Agrees(d, hist)
    ensures Agrees(Survivors(d, lost0, lost1), hist)
  {
    var t := Survivors(d, lost0, lost1);
    if t.p0.Page? && (t.p1.Some? ==> t.p1.value.Page?) && LastPage(LoadPages(t)).Last() >= Base(t) {
      forall i | t.p0.prevIdx < i <= Base(d) ensures LogTerm(LoadPages(t), i) == Some(hist[i - 1]) {
        assert LogTerm(LoadPages(d), i) == Some(hist[i - 1]);
      }
    }
  }

  /** A crash while the node runs leaves a log that agrees with whichever snapshot is in place. */
  lemma PagesAgree(s: State, d: Disk)
    requires Live(s) && Matching(s) && d.p0 == s.disk.p0 && Base(d) <= s.commit
    requires d.p1 == s.disk.p1 || (s.disk.p1 == None && d.p1 in {Some(Torn), Some(NewPage(d.p0))})
    ensures Agrees(d, s.hist)
  {
    if (d.p1.Some? ==> d.p1.value.Page?) && LastPage(LoadPages(d)).Last() >= Base(d) {
      forall i | d.p0.prevIdx < i <= Base(d) ensures LogTerm(LoadPages(d), i) == Some(s.hist[i - 1]) {
        assert Committed(s, i);
      }
    }
  }

  lemma SwitchAgrees(s: State, d: Disk)
    requires Live(s) && Matching(s) && s.disk.p1.Some? && s.snapshot.Some?
    requires d.p0 == s.disk.p1.value && d.p1 == None && Base(d) <= s.commit
    ensures Agrees(d, s.hist) && PrevTermOk(d, s.hist)
  {
    assert Committed(s, s.disk.p0.Last());
    if d.p0.Last() >= Base(d) {
      forall i | d.p0.prevIdx < i <= Base(d) ensures LogTerm(d, i) == Some(s.hist[i - 1]) {
        assert Committed(s, i);
      }
    }
  }

  lemma RunningAgrees(s: State, variant: nat)
    requires Inv(s) && TermInv(s)
             && (s.phase.Up? || s.phase.Creating? || s.phase.RdbRenamed? || s.phase.RdbSynced? || s.phase.LogRenamed?)
    ensures Agrees(CrashVariant(s, variant), s.hist) && PrevTermOk(CrashVariant(s, variant), s.hist)
  {
    hide Agrees, CommittedUpTo, AllKept, Committed;
    if s.phase.LogRenamed? && variant != 0 {
      SwitchAgrees(s, CrashVariant(s, variant));
    } else {
      PagesAgree(s, CrashVariant(s, variant));
    }
  }

  lemma LoadingAgrees(s: State, variant: nat)
    requires Inv(s) && TermInv(s)
             && (s.phase.LoadRenamed? || s.phase.ResetUnlink? || s.phase.ResetTruncate? || s.phase.ResetHeader?)
    ensures Agrees(CrashVariant(s, variant), s.hist) && PrevTermOk(CrashVariant(s, variant), s.hist)
  {
    hide Agrees, CommittedUpTo, AllKept, Committed;
    if s.phase.LoadRenamed? && variant == 0 {
      PagesAgree(s, CrashVariant(s, variant));
    } else {
      ShortAgrees(CrashVariant(s, variant), s.hist);
    }
  }

  lemma VariantAgrees(s: State, variant: nat)
    requires Inv(s) && TermInv(s) && !Halted(s.phase)
    ensures Agrees(CrashVariant(s, variant), s.hist) && PrevTermOk(CrashVariant(s, variant), s.hist)
  {
    hide Agrees, Inv, PrevTermOk;
    if s.phase.Popping? {
      GapAgrees(s, variant);
    } else if s.phase.Down? {
    } else if s.phase.LoadRenamed? || s.phase.ResetUnlink? || s.phase.ResetTruncate? || s.phase.ResetHeader? {
      LoadingAgrees(s, variant);
    } else {
      RunningAgrees(s, variant);
    }
  }

  /** A log that ends before the snapshot, or starts right after it, cannot contradict it. */
  lemma ShortAgrees(d: Disk, hist: seq<int>)
    requires d.p0.Torn? || EndsBefore(d, Base(d)) || (d.p0.prevIdx == Base(d) && d.p1 == None)
    ensures Agrees(d, hist)
  {
  }

  lemma GapAgrees(s: State, variant: nat)
    requires Inv(s) && TermInv(s) && s.phase.Popping?
    ensures Agrees(CrashVariant(s, variant), s.hist) && PrevTermOk(CrashVariant(s, variant), s.hist)
  {
    hide CommittedUpTo, AllKept;
    var t := s.(disk := if variant == 0 then DropGap(s.disk) else s.phase.before);
    PagesAgree(t, t.disk);
  }

  lemma CrashKeepsTermInv(s: State, e: Event, s': State)
    requires Inv(s) && TermInv(s) && PowerStep(s, e, s') && e.Crash?
    ensures TermInv(s')
  {
    hide FilesOk, Live, CrashVariant, Agrees;
    VariantFilesOk(s, e.variant);
    VariantAgrees(s, e.variant);
    SurvivorsAgree(CrashVariant(s, e.variant), s.hist, e.lost0, e.lost1);
  }

  lemma PowerKeepsTermInv(s: State, e: Event, s': State)
    requires Inv(s) && TermInv(s) && PowerStep(s, e, s')
    ensures TermInv(s')
  {
    if e.Crash? {
      CrashKeepsTermInv(s, e, s');
    } else {
      hide Live, AllKept;
      if s'.phase.Up? {
        forall i | s'.disk.p0.prevIdx < i <= s'.commit ensures Committed(s', i) {
          assert LogTerm(LoadPages(s.disk), i) == Some(s.hist[i - 1]);
        }
      }
    }
  }

  // ----- whole runs -----

  ghost predicate Initial(s: State) {
    && s.disk == Disk(None, Page(0, 0, [], 0), None) && s.phase == Up && s.base == s.commit == s.applied == s.safe == 0
    && s.snapshot == None && Sorted(s.hist)
  }

  ghost predicate Run(states: seq<State>, events: seq<Event>) {
    && |states| == |events| + 1 && Initial(states[0])
    && forall k | 0 <= k < |events| :: Step(states[k], events[k], states[k + 1])
  }

  lemma InitialOk(s: State)
    requires Initial(s)
    ensures Inv(s) && TermInv(s)
  {
  }

  lemma {:induction false} RunKeepsInv(states: seq<State>, events: seq<Event>, k: nat)
    requires Run(states, events) && k < |states|
    ensures Inv(states[k])
  {
    hide Inv, Step, Initial;
    if k == 0 {
      InitialOk(states[0]);
    } else {
      RunKeepsInv(states, events, k - 1);
      assert Step(states[k - 1], events[k - 1], states[k]);
      KeepsInv(states[k - 1], events[k - 1], states[k]);
    }
  }

  lemma {:induction false} RunKeepsTermInv(states: seq<State>, events: seq<Event>, k: nat)
    requires Run(states, events) && k < |states|
    ensures TermInv(states[k])
  {
    hide Inv, Step, Initial, TermInv;
    if k == 0 {
      InitialOk(states[0]);
    } else {
      RunKeepsTermInv(states, events, k - 1);
      RunKeepsInv(states, events, k - 1);
      assert Step(states[k - 1], events[k - 1], states[k]);
      KeepsTermInv(states[k - 1], events[k - 1], states[k]);
    }
  }

  /** In every run, with crashes anywhere, the snapshot reaches at least the log's start: the index
      panics at start and the assertion of compaction's end are unreachable, and while a snapshot is
      being taken the second page exists. */
  lemma NoIndexMismatch(states: seq<State>, events: seq<Event>, k: nat)
    requires Run(states, events) && k < |states|
    ensures var s := states[k];
            && (s.disk.p0.Page? ==> s.disk.p0.prevIdx <= Base(s.disk))
            && !s.phase.IndexMismatch? && !s.phase.AssertFailed?
            && (s.snapshot.Some? && s.phase.Up? ==>
                 s.disk.p1.Some? && s.disk.p0.Page? && s.disk.p0.Last() <= s.snapshot.value.idx)
  {
    RunKeepsInv(states, events, k);
  }

  /** In every run, in every phase, whatever was committed and durable stays so: every such entry is covered by the
      snapshot file or is a durable entry of the log that a start would load, whichever of the files pending in the
      phase a crash leaves. */
  lemma NothingLost(states: seq<State>, events: seq<Event>, k: nat, i: nat, variant: nat)
    requires Run(states, events) && k < |states| && 1 <= i <= states[k].safe
    ensures var s := states[k];
            && Kept(s.disk, s.hist, Base(s.disk), i)
            && (!Halted(s.phase) ==> var d := CrashVariant(s, variant); Kept(d, s.hist, Base(d), i))
  {
    RunKeepsInv(states, events, k);
    RunKeepsTermInv(states, events, k);
    hide Run;
    if Halted(states[k].phase) {
      assert Kept(states[k].disk, states[k].hist, Base(states[k].disk), i);
    } else {
      hide Inv, TermInv, Kept;
      VariantKept(states[k], variant, i);
      VariantKept(states[k], 0, i);
    }
  }

  /** A crash that leaves a page file whose header was being written. */
  predicate Tears(s: State, e: Event) {
    e.Crash? && e.variant == 1 && (s.phase.Creating? || s.phase.ResetHeader?)
  }

  ghost predicate Whole(s: State) {
    s.disk.p0.Page? && (s.disk.p1.Some? ==> s.disk.p1.value.Page?) && !s.phase.OpenFailed?
  }

  lemma RunningKeepsWhole(s: State, e: Event, s': State)
    requires Whole(s) && (LogStep(s, e, s') || SnapshotStep(s, e, s') || LoadStep(s, e, s'))
    ensures Whole(s')
  {
  }

  lemma PowerKeepsWhole(s: State, e: Event, s': State)
    requires Inv(s) && Whole(s) && PowerStep(s, e, s') && !Tears(s, e)
    ensures Whole(s')
  {
  }

  lemma KeepsWhole(s: State, e: Event, s': State)
    requires Inv(s) && Whole(s) && Step(s, e, s') && !Tears(s, e)
    ensures Whole(s')
  {
    hide Inv, Whole, Tears, LogStep, SnapshotStep, LoadStep, PowerStep;
    if PowerStep(s, e, s') { PowerKeepsWhole(s, e, s'); } else { RunningKeepsWhole(s, e, s'); }
  }

  /** A node that will not open its log, or has failed to. */
  ghost predicate Shut(s: State) {
    s.phase.OpenFailed? || (s.phase.Down? && (s.disk.p0.Torn? || (s.disk.p1.Some? && s.disk.p1.value.Torn?)))
  }

  lemma TearShuts(s: State, e: Event, s': State)
    requires Inv(s) && Step(s, e, s') && Tears(s, e)
    ensures Shut(s')
  {
    hide FilesOk, CommittedUpTo, AllKept;
  }

  lemma ShutStays(s: State, e: Event, s': State)
    requires Shut(s) && Step(s, e, s')
    ensures Shut(s') && (e.Restart? ==> s'.phase.OpenFailed?)
  {
  }

  /** In a run, the log can be opened exactly as long as no crash came in the middle of writing a page header; after
      such a crash every start fails. */
  lemma {:induction false} OpensUnlessTorn(states: seq<State>, events: seq<Event>, k: nat)
    requires Run(states, events) && k < |states|
    ensures Whole(states[k]) <==> forall j | 0 <= j < k :: !Tears(states[j], events[j])
    ensures !Whole(states[k]) ==> Shut(states[k])
  {
    hide Step, Tears, Whole, Shut, Inv;
    if k == 0 {
      StartsWhole(states[0]);
    } else {
      OpensUnlessTorn(states, events, k - 1);
      var s, e, s' := states[k - 1], events[k - 1], states[k];
      assert Step(s, e, s');
      ShutIsNotWhole(s');
      RunKeepsInv(states, events, k - 1);
      if !Whole(s) {
        ShutStays(s, e, s');
      } else if Tears(s, e) {
        TearShuts(s, e, s');
      } else {
        KeepsWhole(s, e, s');
      }
    }
  }

  lemma StartsWhole(s: State)
    requires Initial(s)
    ensures Whole(s)
  {
  }

  lemma ShutIsNotWhole(s: State)
    ensures Shut(s) ==> !Whole(s)
  {
  }

  /** A start fails to open the log exactly when a header was torn before. */
  lemma StartFailsIff(states: seq<State>, events: seq<Event>, k: nat)
    requires Run(states, events) && k < |events| && events[k].Restart?
    ensures states[k + 1].phase.OpenFailed? <==> exists j :: 0 <= j < k && Tears(states[j], events[j])
  {
    OpensUnlessTorn(states, events, k);
    RunKeepsInv(states, events, k);
    assert Step(states[k], events[k], states[k + 1]);
    if !Whole(states[k]) {
      ShutStays(states[k], events[k], states[k + 1]);
    } else {
      assert !Tears(states[k], events[k]);
      KeepsWhole(states[k], events[k], states[k + 1]);
    }
  }

  /** In every run the snapshot's term is at least the log's previous term: the term panic at start is
      unreachable too. */
  lemma NoTermMismatch(states: seq<State>, events: seq<Event>, k: nat)
    requires Run(states, events) && k < |states|
    ensures !states[k].phase.TermMismatch?
  {
    RunKeepsTermInv(states, events, k);
  }
}
