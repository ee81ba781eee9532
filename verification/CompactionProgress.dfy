/** What compaction, a received snapshot and a start achieve when nothing interrupts them, and what a start makes of any
    files. */
module CompactionProgress {
  import opened Wrappers
  import opened Compaction

  // ----- whole operations -----

  /** The events lead from one state to another. */
  ghost predicate Leads(s: State, events: seq<Event>, t: State)
    decreases |events|
  {
    if events == [] then s == t else exists m :: Step(s, events[0], m) && Leads(m, events[1..], t)
  }

  lemma LeadsOn(s: State, e: Event, m: State, rest: seq<Event>, t: State)
    requires Step(s, e, m) && Leads(m, rest, t)
    ensures Leads(s, [e] + rest, t)
  {
    hide Step;
    assert ([e] + rest)[0] == e && ([e] + rest)[1..] == rest;
  }

  /** Nothing is under way, the log has one page of two entries or more, and all its entries are committed and
      applied. */
  ghost predicate Compactable(s: State) {
    && Inv(s) && s.phase == Up && s.snapshot == None && s.disk.p1 == None && s.disk.p0.Page? && |s.disk.p0.terms| > 1
    && s.applied == s.commit == s.disk.p0.Last()
  }

  /** The log after a compaction: the snapshot covers what the first page held, and the page is empty. */
  ghost predicate Compacted(s: State, t: State)
    requires s.disk.p0.Page?
  {
    && t.phase == Up && t.snapshot == None && t.disk.p1 == None && t.base == s.applied
    && 1 <= s.applied <= |s.hist| && t.disk.rdb == Some(Snap(s.applied, s.hist[s.applied - 1]))
    && t.disk.p0.Page? && t.disk.p0.terms == [] && t.disk.p0.prevIdx == s.disk.p0.Last()
    && t.commit == s.commit && t.applied == s.applied && t.safe == s.safe && t.hist == s.hist
  }

  /** A compaction that nothing interrupts replaces the whole first page by a snapshot. */
  lemma CompactionCompletes(s: State) returns (t: State)
    requires Compactable(s)
    ensures Leads(s, [CompactionCreate, CompactionReady, SnapshotStart, FinishRename, FinishSync, FinishLogRename,
                      FinishLogSync], t)
    ensures Inv(t) && Compacted(s, t)
  {
    hide Step, Inv, Compacted;
    var s1, s2, s3, s4, s5, s6;
    s1, s2, s3, s4, s5, s6, t := CompactionSteps(s);
    KeepsInv(s, CompactionCreate, s1);
    KeepsInv(s1, CompactionReady, s2);
    KeepsInv(s2, SnapshotStart, s3);
    KeepsInv(s3, FinishRename, s4);
    KeepsInv(s4, FinishSync, s5);
    KeepsInv(s5, FinishLogRename, s6);
    KeepsInv(s6, FinishLogSync, t);
    Chained(s, s1, s2, s3, s4, s5, s6, t);
  }

  lemma CompactionSteps(s: State)
    returns (s1: State, s2: State, s3: State, s4: State, s5: State, s6: State, t: State)
    requires Compactable(s)
    ensures Step(s, CompactionCreate, s1) && Step(s1, CompactionReady, s2) && Step(s2, SnapshotStart, s3)
    ensures Step(s3, FinishRename, s4) && Step(s4, FinishSync, s5) && Step(s5, FinishLogRename, s6)
    ensures Step(s6, FinishLogSync, t) && Compacted(s, t)
  {
    Bounds(s);
    hide Inv;
    var d := s.disk;
    var p0 := d.p0.(synced := |d.p0.terms|);
    var snap := Snap(s.applied, s.hist[s.applied - 1]);
    s1 := s.(disk := d.(p0 := p0), phase := Creating);
    s2 := s1.(disk := s1.disk.(p1 := Some(NewPage(p0))), phase := Up);
    s3 := s2.(snapshot := Some(snap));
    s4 := s3.(phase := RdbRenamed(snap));
    s5 := s4.(disk := s4.disk.(rdb := Some(snap)), phase := RdbSynced);
    s6 := s5.(phase := LogRenamed);
    t := s6.(disk := s6.disk.(p0 := NewPage(p0), p1 := None), base := s.applied, snapshot := None, phase := Up);
    assert SnapshotStep(s, CompactionCreate, s1) && SnapshotStep(s1, CompactionReady, s2);
    assert SnapshotStep(s2, SnapshotStart, s3) && SnapshotStep(s3, FinishRename, s4);
    assert SnapshotStep(s4, FinishSync, s5) && SnapshotStep(s5, FinishLogRename, s6);
    assert SnapshotStep(s6, FinishLogSync, t);
    hide SnapshotStep, LogStep, LoadStep, PowerStep;
  }

  lemma Bounds(s: State)
    requires Compactable(s)
    ensures 1 <= s.applied <= |s.hist|
  {
  }

  lemma Chained(s: State, s1: State, s2: State, s3: State, s4: State, s5: State, s6: State, t: State)
    requires Step(s, CompactionCreate, s1) && Step(s1, CompactionReady, s2) && Step(s2, SnapshotStart, s3)
    requires Step(s3, FinishRename, s4) && Step(s4, FinishSync, s5) && Step(s5, FinishLogRename, s6)
    requires Step(s6, FinishLogSync, t)
    ensures Leads(s, [CompactionCreate, CompactionReady, SnapshotStart, FinishRename, FinishSync, FinishLogRename,
                      FinishLogSync], t)
  {
    hide Step;
    assert Leads(t, [], t);
    LeadsOn(s6, FinishLogSync, t, [], t);
    assert [FinishLogSync] + [] == [FinishLogSync];
    hide Leads;
    var last := [FinishLogSync];
    LeadsOn(s5, FinishLogRename, s6, last, t);
    LeadsOn(s4, FinishSync, s5, [FinishLogRename] + last, t);
    LeadsOn(s3, FinishRename, s4, [FinishSync] + ([FinishLogRename] + last), t);
    var finish := [FinishRename] + ([FinishSync] + ([FinishLogRename] + last));
    LeadsOn(s2, SnapshotStart, s3, finish, t);
    LeadsOn(s1, CompactionReady, s2, [SnapshotStart] + finish, t);
    LeadsOn(s, CompactionCreate, s1, [CompactionReady] + ([SnapshotStart] + finish), t);
    assert [CompactionCreate] + ([CompactionReady] + ([SnapshotStart] + finish)) ==
           [CompactionCreate, CompactionReady, SnapshotStart, FinishRename, FinishSync, FinishLogRename, FinishLogSync];
  }

  /** A snapshot from the leader that reaches beyond the log, loaded without interruption: the log starts over after
      it. */
  lemma LoadCompletes(s: State, snap: Snap) returns (t: State)
    requires Inv(s) && s.phase == Up && s.snapshot == None && LastPage(s.disk).Page?
    requires LastPage(s.disk).Last() < snap.idx <= |s.hist| && snap.term == s.hist[snap.idx - 1]
    ensures Leads(s, [LoadRename(snap), LoadSync, Unlink, Truncate, WriteHeader], t) && Inv(t)
    ensures t.phase == Up && t.disk == Disk(Some(snap), Page(snap.idx, snap.term, [], 0), None)
    ensures t.base == t.commit == t.applied == snap.idx
  {
    hide Inv;
    var s1 := s.(phase := LoadRenamed(snap));
    var s2 := s1.(disk := s1.disk.(rdb := Some(snap)), base := snap.idx, commit := snap.idx, applied := snap.idx,
                  phase := ResetUnlink(snap));
    var s3 := s2.(disk := s2.disk.(p1 := None), phase := ResetTruncate(snap));
    var s4 := s3.(phase := ResetHeader(snap));
    t := s4.(disk := s4.disk.(p0 := Page(snap.idx, snap.term, [], 0)), phase := Up);
    assert LoadStep(s, LoadRename(snap), s1) && LoadStep(s1, LoadSync, s2) && LoadStep(s2, Unlink, s3);
    assert LoadStep(s3, Truncate, s4) && LoadStep(s4, WriteHeader, t);
    hide LoadStep, LogStep, SnapshotStep, PowerStep;
    KeepsInv(s, LoadRename(snap), s1);
    KeepsInv(s1, LoadSync, s2);
    KeepsInv(s2, Unlink, s3);
    KeepsInv(s3, Truncate, s4);
    KeepsInv(s4, WriteHeader, t);
    hide Step;
    LoadChained(s, snap, s1, s2, s3, s4, t);
  }

  lemma LoadChained(s: State, snap: Snap, s1: State, s2: State, s3: State, s4: State, t: State)
    requires Step(s, LoadRename(snap), s1) && Step(s1, LoadSync, s2) && Step(s2, Unlink, s3) && Step(s3, Truncate, s4)
    requires Step(s4, WriteHeader, t)
    ensures Leads(s, [LoadRename(snap), LoadSync, Unlink, Truncate, WriteHeader], t)
  {
    hide Step;
    assert Leads(t, [], t);
    LeadsOn(s4, WriteHeader, t, [], t);
    assert [WriteHeader] + [] == [WriteHeader];
    hide Leads;
    LeadsOn(s3, Truncate, s4, [WriteHeader], t);
    LeadsOn(s2, Unlink, s3, [Truncate] + [WriteHeader], t);
    LeadsOn(s1, LoadSync, s2, [Unlink] + ([Truncate] + [WriteHeader]), t);
    LeadsOn(s, LoadRename(snap), s1, [LoadSync] + ([Unlink] + ([Truncate] + [WriteHeader])), t);
    assert [LoadRename(snap)] + ([LoadSync] + ([Unlink] + ([Truncate] + [WriteHeader]))) ==
           [LoadRename(snap), LoadSync, Unlink, Truncate, WriteHeader];
  }

  // ----- a start, from any files -----

  ghost predicate Readable(d: Disk) { d.p0.Page? && (d.p1.Some? ==> d.p1.value.Page?) }

  /** The node takes up work, at once or after starting its log over. */
  ghost predicate TakesUp(phase: Phase) { phase.Up? || phase.ResetUnlink? }

  /** An index before the log's first entry that the snapshot does not cover either. */
  ghost predicate Missing(d: Disk, i: nat)
    requires d.p0.Page?
  {
    Base(d) < i <= d.p0.prevIdx
  }

  /** A start from any files: it fails to open the log exactly if a page cannot be read; otherwise the node takes up
      work exactly if the snapshot's term is not below the log's and, with a snapshot, no index but perhaps the one
      right before the log is missing; without one, none at all.  It then starts from the snapshot, with the log's
      entries, or starts the log over exactly if the snapshot reaches beyond them. */
  lemma StartFromAnyFiles(s: State)
    ensures Started(s).phase.OpenFailed? <==> !Readable(s.disk)
    ensures Readable(s.disk) ==>
              (TakesUp(Started(s).phase) <==>
                 if s.disk.rdb.None? then forall i :: !Missing(s.disk, i)
                 else s.disk.rdb.value.term >= s.disk.p0.prevTerm &&
                      forall i :: Missing(s.disk, i) ==> i == s.disk.p0.prevIdx)
    ensures TakesUp(Started(s).phase) ==>
              var t := Started(s);
              && t.base == t.commit == t.applied == Base(s.disk) && t.snapshot == None && t.disk.rdb == s.disk.rdb
              && t.disk.p0 == s.disk.p0 && (forall i: nat :: LogTerm(t.disk, i) == LogTerm(s.disk, i))
              && (t.phase.ResetUnlink? <==> LastPage(t.disk).Page? && LastPage(t.disk).Last() < Base(s.disk))
  {
    if Readable(s.disk) {
      var d := s.disk;
      if d.p0.prevIdx > Base(d) {
        assert Missing(d, d.p0.prevIdx);
        assert d.p0.prevIdx > Base(d) + 1 ==> Missing(d, Base(d) + 1);
      }
    }
  }

  /** So one missing entry goes unnoticed: a node whose snapshot ends one entry short of what its log follows takes up
      work without that entry. */
  lemma GapOfOne(s: State)
    requires Readable(s.disk) && s.disk.rdb.Some? && s.disk.rdb.value.term >= s.disk.p0.prevTerm
    ensures TakesUp(Started(s).phase) && (exists i :: Missing(s.disk, i)) <==> s.disk.p0.prevIdx == Base(s.disk) + 1
  {
    StartFromAnyFiles(s);
    var d := s.disk;
    hide Started;
    if d.p0.prevIdx == Base(d) + 1 { assert Missing(d, d.p0.prevIdx); }
    if exists i :: Missing(d, i) { assert Missing(d, Base(d) + 1); }
  }

  /** No run ever gets there. */
  lemma NoGapInRuns(states: seq<State>, events: seq<Event>, n: nat, i: nat)
    requires Run(states, events) && n < |states| && states[n].disk.p0.Page?
    ensures !Missing(states[n].disk, i)
  {
    hide Run;
    RunKeepsInv(states, events, n);
  }
}
