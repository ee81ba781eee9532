/** Whole runs of the log interface: every reply is the one a simple indexed sequence gives. */
module LogRuns {
  import opened Wrappers
  import opened Statuses
  import opened Decimal
  import opened FileIO
  import opened PageCodec
  import opened LogPages
  import opened Logs
  import opened LogStores

  datatype Call =
    | Append(entry: Entry)
    | Pop(from: nat)
    | Poll(first: nat)
    | Reset(index: nat, term: int)
    | Get(idx: nat)
    | GetBatch(idx: nat, n: nat)
    | CompactCache(maxMemory: nat)
    | BeginCompaction(leftover: string)
    | Sync(fsync: bool)
    | FirstIdx
    | CurrentIdx
    | Count

  /** `Missed` answers a read that was cut short because a write could not be flushed first. */
  datatype Reply =
    | Done | Failed | Found(entry: Option<Entry>) | Batch(entries: seq<Entry>) | Index(n: int) | Refused | Missed

  /** What is asked of the library's calls: a poll comes when a second page exists, with an index after the
      first page; a reset comes when the log has no entries. */
  ghost predicate Permitted(v: LogView, c: Call) {
    && (c.Poll? ==> v.split.Some? && c.first > v.split.value)
    && (c.Reset? ==> v.entries == [])
  }

  /** The indexed sequence: which replies a call may get and what it leaves behind. */
  ghost predicate Step(v: LogView, c: Call, r: Reply, v': LogView) {
    match c
    case Append(e) =>
      (r == Done && v' == v.(entries := v.entries + [e])) || (r == Failed && v' == v)
    case Pop(from) =>
      if v.At(from) == None then r == Failed && v' == v else r == Done && v' == v.Cut(from)
    case Poll(first) =>
      if !Permitted(v, c) then r == Refused && v' == v
      else r == Done && v.prev <= v.split.value <= v.prev + |v.entries| && v' == v.Compacted()
    case Reset(index, _) =>
      if !Permitted(v, c) then r == Refused && v' == v
      else r == Done && index >= 1 && v' == LogView(index - 1, [], None)
    case Get(idx) => (r == Found(v.At(idx)) || r == Missed) && v' == v
    case GetBatch(idx, n) => (r == Batch(v.Batch(idx, n)) || r == Missed) && v' == v
    case CompactCache(_) => r == Done && v' == v
    case BeginCompaction(_) =>
      if FirstPageEnd(v) > LONG_MAX then r == Refused && v' == v else
      || (v' == v && (r == Failed || (r == Done && v.split.Some?)))
      || (r == Done && v.split.None? && |v.entries| > 1 && v' == v.(split := Some(v.prev + |v.entries|)))
    case Sync(_) => r == Done && v' == v
    case FirstIdx => r == Index(v.prev + 1) && v' == v
    case CurrentIdx => r == Index(v.prev + |v.entries|) && v' == v
    case Count => r == Index(|v.entries|) && v' == v
  }

  /** The index of the first page's last entry. */
  ghost function FirstPageEnd(v: LogView): int {
    if v.split.Some? then v.split.value else v.prev + |v.entries|
  }

  /** The one reply when no call into the kernel fails. */
  ghost function Answer(v: LogView, c: Call): Reply {
    match c
    case Append(_) => Done
    case Pop(from) => if v.At(from) == None then Failed else Done
    case Poll(_) => if Permitted(v, c) then Done else Refused
    case Reset(_, _) => if Permitted(v, c) then Done else Refused
    case Get(idx) => Found(v.At(idx))
    case GetBatch(idx, n) => Batch(v.Batch(idx, n))
    case CompactCache(_) => Done
    case BeginCompaction(_) =>
      if FirstPageEnd(v) > LONG_MAX then Refused else if v.split.Some? || |v.entries| > 1 then Done else Failed
    case Sync(_) => Done
    case FirstIdx => Index(v.prev + 1)
    case CurrentIdx => Index(v.prev + |v.entries|)
    case Count => Index(|v.entries|)
  }

  /** Between `f` and `f'` failed calls into the kernel: none, and this is the one reply, or some. */
  ghost predicate Honest(v: LogView, c: Call, o: Outcome, f: nat, f': nat) {
    f <= f' && (f == f' ==> o == Replied(Answer(v, c)))
  }

  /** How many entries are durable after a call, if `mark` were before: all after a sync, those that are left after a
      pop, a poll or a reset. */
  ghost function MarkAfter(mark: nat, v: LogView, c: Call, v': LogView): nat {
    match c
    case Sync(fsync) => if fsync then |v'.entries| else mark
    case Poll(_) => if |v.entries| - |v'.entries| <= mark <= |v.entries| then mark - (|v.entries| - |v'.entries|) else 0
    case _ => if mark <= |v'.entries| then mark else |v'.entries|
  }

  /** The first `mark` entries of the log are durable. */
  ghost predicate Marked(store: LogStore, mark: nat)
    reads store, store.log, store.log.page0, store.log.page1
  {
    store.log.FirstSynced() && mark <= store.log.Synced()
  }

  lemma MarkKept(store: LogStore, mark: nat, n: nat, v: LogView, c: Call)
    requires store.log.KeptSynced(n, true) && mark <= n && !c.Sync? && !c.Poll?
    ensures Marked(store, MarkAfter(mark, v, c, store.View()))
  {
  }

  lemma Unmarked(store: LogStore)
    ensures store.log.KeptSynced(store.log.Synced(), store.log.FirstSynced())
  {
  }

  lemma EmptyMark(mark: nat, v: LogView, c: Call, v': LogView)
    requires c.Reset? && v'.entries == []
    ensures MarkAfter(mark, v, c, v') == 0
  {
  }

  /** How a call ends: with a reply, with the process stopped, or with a write that failed unnoticed in the
      middle of a pop or a reset. */
  datatype Outcome = Replied(reply: Reply) | Stopped | Faulted

  /** Entries the page format can hold, and positions a header can name. */
  ghost predicate CallOk(c: Call) {
    && (c.Append? ==> WellFormed(c.entry)) && (c.BeginCompaction? ==> |c.leftover| <= OFFSET_MAX)
    && (c.Reset? ==> 1 <= c.index <= LONG_MAX + 1 && LONG_MIN <= c.term <= LONG_MAX)
  }

  function ReplyOf(st: Status): Outcome {
    match st
    case Ok => Replied(Done)
    case Error => Replied(Failed)
    case Panic => Stopped
  }

  /** One call. */
  method Execute(store: LogStore, c: Call, ghost mark: nat) returns (o: Outcome)
    requires store.Valid() && CallOk(c)
    modifies store.Repr()
    ensures fresh(store.Repr() - old(store.Repr()))
    ensures o.Replied? ==> store.Valid() && Step(old(store.View()), c, o.reply, store.View())
    ensures o == Replied(Missed) ==> !old(store.log.Flushed())
    ensures o == Faulted ==> (c.Pop? && !old(store.log.Flushed())) || c.Reset?
    ensures old(Marked(store, mark)) && o.Replied? ==>
              Marked(store, MarkAfter(mark, old(store.View()), c, store.View()))
    ensures Honest(old(store.View()), c, o, old(store.log.Failures()), store.log.Failures())
  {
    hide LogStore.Valid, LogStore.View, LogStore.Repr, Log.Flushed, Step, Marked, MarkAfter;
    match c
    case Append(e) =>
      o := ExecuteAppend(store, e, mark);
    case Pop(from) =>
      o := ExecutePop(store, from, mark);
    case Poll(first) =>
      o := ExecutePoll(store, first, mark);
    case Reset(index, term) =>
      o := ExecuteReset(store, index, term, mark);
    case CompactCache(max) =>
      o := ExecuteCompactCache(store, max, mark);
    case BeginCompaction(leftover) =>
      o := ExecuteBegin(store, leftover, mark);
    case Sync(fsync) =>
      o := ExecuteSync(store, fsync, mark);
    case _ =>
      o := ExecuteRead(store, c, mark);
  }

  method ExecuteAppend(store: LogStore, e: Entry, ghost mark: nat) returns (o: Outcome)
    requires store.Valid() && WellFormed(e)
    modifies store.Repr()
    ensures fresh(store.Repr() - old(store.Repr())) && o != Faulted && o != Replied(Missed)
    ensures o.Replied? ==> store.Valid() && Step(old(store.View()), Append(e), o.reply, store.View())
    ensures old(Marked(store, mark)) && o.Replied? ==>
              Marked(store, MarkAfter(mark, old(store.View()), Append(e), store.View()))
    ensures Honest(old(store.View()), Append(e), o, old(store.log.Failures()), store.log.Failures())
  {
    hide LogStore.Valid, LogStore.View, LogStore.Repr, Step, Log.Synced, Log.FirstSynced, Log.KeptSynced, MarkAfter;
    var st := store.Append(e);
    o := ReplyOf(st);
    StepAppend(old(store.View()), Append(e), store.View());
    if o.Replied? && old(Marked(store, mark)) {
      MarkKept(store, mark, old(store.log.Synced()), old(store.View()), Append(e));
    }
  }

  method ExecuteSync(store: LogStore, fsync: bool, ghost mark: nat) returns (o: Outcome)
    requires store.Valid()
    modifies store.Repr()
    ensures fresh(store.Repr() - old(store.Repr())) && o != Faulted && o != Replied(Missed)
    ensures o.Replied? ==> store.Valid() && Step(old(store.View()), Sync(fsync), o.reply, store.View())
    ensures old(Marked(store, mark)) && o.Replied? ==>
              Marked(store, MarkAfter(mark, old(store.View()), Sync(fsync), store.View()))
    ensures Honest(old(store.View()), Sync(fsync), o, old(store.log.Failures()), store.log.Failures())
  {
    hide LogStore.Valid, LogStore.View, LogStore.Repr, Log.Synced, Log.FirstSynced;
    var st := store.Sync(fsync);
    o := ReplyOf(st);
  }

  lemma StepAppend(v: LogView, c: Call, v': LogView)
    requires c.Append?
    ensures v' == v.(entries := v.entries + [c.entry]) ==> Step(v, c, Done, v')
    ensures v' == v ==> Step(v, c, Failed, v')
  {
  }

  method ExecuteCompactCache(store: LogStore, max: nat, ghost mark: nat) returns (o: Outcome)
    requires store.Valid()
    modifies store.Repr()
    ensures store.Valid() && store.Repr() == old(store.Repr())
    ensures o == Replied(Done) && Step(old(store.View()), CompactCache(max), Done, store.View())
    ensures old(Marked(store, mark)) && o.Replied? ==>
              Marked(store, MarkAfter(mark, old(store.View()), CompactCache(max), store.View()))
    ensures Honest(old(store.View()), CompactCache(max), o, old(store.log.Failures()), store.log.Failures())
  {
    hide LogStore.Valid, LogStore.View, Log.Synced, Log.FirstSynced, Log.KeptSynced, MarkAfter;
    store.CompactCache(max);
    o := Replied(Done);
    if old(Marked(store, mark)) {
      MarkKept(store, mark, old(store.log.Synced()), old(store.View()), CompactCache(max));
    }
  }

  method ExecutePop(store: LogStore, from: nat, ghost mark: nat) returns (o: Outcome)
    requires store.Valid()
    modifies store.Repr()
    ensures fresh(store.Repr() - old(store.Repr()))
    ensures o.Replied? ==> store.Valid() && Step(old(store.View()), Pop(from), o.reply, store.View())
    ensures (o == Faulted ==> !old(store.log.Flushed())) && o != Replied(Missed)
    ensures old(Marked(store, mark)) && o.Replied? ==>
              Marked(store, MarkAfter(mark, old(store.View()), Pop(from), store.View()))
    ensures Honest(old(store.View()), Pop(from), o, old(store.log.Failures()), store.log.Failures())
  {
    hide LogStore.Valid, LogStore.View, LogStore.Repr, Log.Flushed, LogView.At, LogView.Cut, Log.Synced,
      Log.FirstSynced;
    hide Log.KeptSynced, MarkAfter;
    var st, fault := store.Pop(from);
    o := if fault then Faulted else ReplyOf(st);
    if o.Replied? && old(Marked(store, mark)) {
      MarkKept(store, mark, old(store.log.Synced()), old(store.View()), Pop(from));
    }
  }

  method ExecuteBegin(store: LogStore, leftover: string, ghost mark: nat) returns (o: Outcome)
    requires store.Valid() && |leftover| <= OFFSET_MAX
    modifies store.Repr()
    ensures fresh(store.Repr() - old(store.Repr())) && o != Faulted && o != Replied(Missed)
    ensures o.Replied? ==> store.Valid() && Step(old(store.View()), BeginCompaction(leftover), o.reply, store.View())
    ensures old(Marked(store, mark)) && o.Replied? ==>
              Marked(store, MarkAfter(mark, old(store.View()), BeginCompaction(leftover), store.View()))
    ensures Honest(old(store.View()), BeginCompaction(leftover), o, old(store.log.Failures()), store.log.Failures())
  {
    hide LogStore.Valid, LogStore.View, Log.Valid, Log.Synced, Log.FirstSynced, Log.KeptSynced, MarkAfter;
    hide Log.Repr, FirstPageEnd, Log.Failures;
    FirstPageIndex(store);
    if store.log.page0.index > LONG_MAX {
      o := Replied(Refused);
      Unmarked(store);
    } else {
      var st := store.CompactionBegin(leftover);
      o := ReplyOf(st);
    }
    if o.Replied? && old(Marked(store, mark)) {
      MarkKept(store, mark, old(store.log.Synced()), old(store.View()), BeginCompaction(leftover));
    }
  }

  lemma FirstPageIndex(store: LogStore)
    requires store.Valid()
    ensures store.log.page0.index == FirstPageEnd(store.View())
  {
    hide LogPage.Consistent, LogPage.Stored;
  }

  predicate IsRead(c: Call) {
    c.Get? || c.GetBatch? || c.FirstIdx? || c.CurrentIdx? || c.Count?
  }

  method ExecuteRead(store: LogStore, c: Call, ghost mark: nat) returns (o: Outcome)
    requires store.Valid() && IsRead(c)
    modifies store.Repr()
    ensures store.Valid() && store.Repr() == old(store.Repr())
    ensures o.Replied? && Step(old(store.View()), c, o.reply, store.View())
    ensures o == Replied(Missed) ==> !old(store.log.Flushed())
    ensures old(Marked(store, mark)) && o.Replied? ==>
              Marked(store, MarkAfter(mark, old(store.View()), c, store.View()))
    ensures Honest(old(store.View()), c, o, old(store.log.Failures()), store.log.Failures())
  {
    hide LogStore.Valid, LogStore.View, Log.Flushed, Log.Repr, LogView.At, LogView.Batch, Log.Synced, Log.FirstSynced;
    hide Log.KeptSynced, MarkAfter;
    match c {
      case Get(idx) =>
        var r, fault := store.Get(idx);
        o := Replied(if fault then Missed else Found(r));
        Unmarked(store);
      case GetBatch(idx, n) =>
        var r, fault := store.GetBatch(idx, n);
        o := Replied(if fault then Missed else Batch(r));
      case _ =>
        Unmarked(store);
        o := ExecuteIndex(store, c);
    }
    if old(Marked(store, mark)) {
      MarkKept(store, mark, old(store.log.Synced()), old(store.View()), c);
    }
  }

  method ExecuteIndex(store: LogStore, c: Call) returns (o: Outcome)
    requires store.Valid() && (c.FirstIdx? || c.CurrentIdx? || c.Count?)
    ensures store.Valid() && o == Replied(Answer(store.View(), c)) && o != Replied(Missed)
    ensures Step(store.View(), c, o.reply, store.View())
  {
    hide LogStore.Valid, LogStore.View;
    var n;
    match c {
      case FirstIdx => n := store.FirstIdx();
      case CurrentIdx => n := store.CurrentIdx();
      case Count => n := store.Count();
    }
    o := Replied(Index(n));
  }

  /** A reset of an empty log.  A header that could not be written is not reported. */
  method ExecuteReset(store: LogStore, index: nat, term: int, ghost mark: nat) returns (o: Outcome)
    requires store.Valid() && 1 <= index <= LONG_MAX + 1 && LONG_MIN <= term <= LONG_MAX
    modifies store.Repr()
    ensures fresh(store.Repr() - old(store.Repr())) && o != Replied(Missed)
    ensures o.Replied? ==> store.Valid() && Step(old(store.View()), Reset(index, term), o.reply, store.View())
    ensures old(Marked(store, mark)) && o.Replied? ==>
              Marked(store, MarkAfter(mark, old(store.View()), Reset(index, term), store.View()))
    ensures Honest(old(store.View()), Reset(index, term), o, old(store.log.Failures()), store.log.Failures())
  {
    hide LogStore.Valid, LogStore.View, LogStore.Repr, Step, Log.Synced, Log.FirstSynced, Log.KeptSynced, MarkAfter;
    StepReset(store.View(), index, term, store.View());
    if !IsEmpty(store) {
      Unmarked(store);
      if Marked(store, mark) { MarkKept(store, mark, store.log.Synced(), store.View(), Reset(index, term)); }
      return Replied(Refused);
    }
    o := ResetEmpty(store, index, term, mark);
  }

  /** Whether the log has no entries. */
  function IsEmpty(store: LogStore): (empty: bool)
    requires store.Valid()
    reads store, store.log, store.cache, store.Repr()
    ensures empty <==> store.View().entries == []
  {
    store.log.page0.numEntries == 0
  }

  method ResetEmpty(store: LogStore, index: nat, term: int, ghost mark: nat) returns (o: Outcome)
    requires store.Valid() && store.View().entries == [] && 1 <= index <= LONG_MAX + 1 && LONG_MIN <= term <= LONG_MAX
    modifies store.Repr()
    ensures fresh(store.Repr() - old(store.Repr())) && o in {Replied(Done), Faulted}
    ensures o.Replied? ==> store.Valid() && Step(old(store.View()), Reset(index, term), o.reply, store.View())
    ensures old(Marked(store, mark)) && o.Replied? ==>
              Marked(store, MarkAfter(mark, old(store.View()), Reset(index, term), store.View()))
    ensures Honest(old(store.View()), Reset(index, term), o, old(store.log.Failures()), store.log.Failures())
  {
    EmptyFirstPage(store);
    hide LogStore.Valid, LogStore.View, LogStore.Repr, Step, Log.Synced, Log.FirstSynced, MarkAfter;
    var st := store.Reset(index, term);
    StepReset(old(store.View()), index, term, store.View());
    if st == Ok { EmptyMark(mark, old(store.View()), Reset(index, term), store.View()); }
    o := if st == Ok then Replied(Done) else Faulted;
  }

  lemma StepReset(v: LogView, index: nat, term: int, v': LogView)
    ensures v.entries != [] && v' == v ==> Step(v, Reset(index, term), Refused, v')
    ensures v.entries == [] && index >= 1 && v' == LogView(index - 1, [], None) ==>
              Step(v, Reset(index, term), Done, v')
  {
  }

  lemma EmptyFirstPage(store: LogStore)
    requires store.Valid()
    ensures store.View().entries == [] ==> store.log.page0.entries == []
  {
  }

  method ExecutePoll(store: LogStore, first: nat, ghost mark: nat) returns (o: Outcome)
    requires store.Valid()
    modifies store.Repr()
    ensures fresh(store.Repr() - old(store.Repr())) && o != Faulted && o != Replied(Missed)
    ensures o.Replied? ==> store.Valid() && Step(old(store.View()), Poll(first), o.reply, store.View())
    ensures old(Marked(store, mark)) && o.Replied? ==>
              Marked(store, MarkAfter(mark, old(store.View()), Poll(first), store.View()))
    ensures Honest(old(store.View()), Poll(first), o, old(store.log.Failures()), store.log.Failures())
  {
    hide LogStore.Valid, LogView.Compacted, Log.Synced, Log.FirstSynced;
    if store.log.page1 == null || first <= store.log.page1.prevLogIdx {
      return Replied(Refused);
    }
    var st := store.Poll(first);
    return ReplyOf(st);
  }

  /** A run: each reply comes from one step of the indexed sequence, and is its one reply unless a call into the
      kernel failed meanwhile (`failures` counts them); a read is missed only while some write has not reached the
      file (`flushed` tells of each call whether all had). */
  ghost predicate Explained(views: seq<LogView>, calls: seq<Call>, replies: seq<Reply>, flushed: seq<bool>,
                            failures: seq<nat>) {
    |views| == |failures| == |replies| + 1 && |replies| == |flushed| <= |calls| &&
    forall i | 0 <= i < |replies| ::
      && Step(views[i], calls[i], replies[i], views[i + 1]) && (replies[i] == Missed ==> !flushed[i])
      && Honest(views[i], calls[i], Replied(replies[i]), failures[i], failures[i + 1])
  }

  /** With no failure in all, every call gets its one reply. */
  lemma {:induction false} NoFailures(views: seq<LogView>, calls: seq<Call>, replies: seq<Reply>, flushed: seq<bool>,
                                      failures: seq<nat>, n: nat)
    requires Explained(views, calls, replies, flushed, failures) && n <= |replies|
    ensures failures[0] <= failures[n]
    ensures failures[0] == failures[n] ==> forall i | 0 <= i < n :: replies[i] == Answer(views[i], calls[i])
  {
    hide Step, Answer;
    if n > 0 {
      NoFailures(views, calls, replies, flushed, failures, n - 1);
      assert Honest(views[n - 1], calls[n - 1], Replied(replies[n - 1]), failures[n - 1], failures[n]);
    }
  }

  /** The marks of a run: how many entries are durable before each call, and in the end. */
  ghost predicate MarkedBy(marks: seq<nat>, views: seq<LogView>, calls: seq<Call>) {
    |marks| == |views| && |views| <= |calls| + 1 &&
    forall i | 0 <= i < |marks| - 1 :: marks[i + 1] == MarkAfter(marks[i], views[i], calls[i], views[i + 1])
  }

  /** Any sequence of calls.  The run ends early only when a call into the kernel fails, so that the process stops or a
      write fails unnoticed in a pop or a reset; up to there every reply is the indexed sequence's, and what was synced
      is durable.  With no failure every call gets the one reply of the indexed sequence; every append is done. */
  method Run(store: LogStore, calls: seq<Call>)
    returns (replies: seq<Reply>, last: Outcome, ghost views: seq<LogView>, ghost flushed: seq<bool>,
             ghost marks: seq<nat>, ghost failures: seq<nat>)
    requires store.Valid() && forall i | 0 <= i < |calls| :: CallOk(calls[i])
    modifies store.Repr()
    ensures Explained(views, calls, replies, flushed, failures) && views[0] == old(store.View())
    ensures last.Replied? ==> |replies| == |calls| && store.Valid() && store.View() == views[|replies|]
    ensures failures[0] == old(store.log.Failures()) <= failures[|replies|]
    ensures if last.Replied? then store.log.Failures() == failures[|replies|]
            else store.log.Failures() > failures[|replies|]
    ensures store.log.Failures() == old(store.log.Failures()) ==>
              last.Replied? && forall i | 0 <= i < |calls| :: replies[i] == Answer(views[i], calls[i])
    ensures last == Faulted ==> |replies| < |calls| && (calls[|replies|].Pop? || calls[|replies|].Reset?)
    ensures MarkedBy(marks, views, calls) && marks[0] == 0
    ensures last.Replied? && old(store.log.FirstSynced()) ==> Marked(store, marks[|replies|])
  {
    hide LogStore.Valid, LogStore.View, LogStore.Repr, Step, Explained, CallOk, Log.Flushed, MarkedBy, MarkAfter;
    hide Log.Synced, Log.FirstSynced, Log.Failures, Answer;
    replies, views, flushed, marks, failures := [], [store.View()], [], [0], [store.log.Failures()];
    last := Replied(Done);
    ExplainedStart(views, calls, failures);
    MarksStart(views, calls);
    while |replies| < |calls|
      invariant store.Valid() && fresh(store.Repr() - old(store.Repr()))
      invariant Explained(views, calls, replies, flushed, failures) && |views| == |replies| + 1 && |replies| <= |calls|
      invariant |failures| == |views| && failures[0] == old(store.log.Failures())
      invariant store.log.Failures() == failures[|replies|]
      invariant views[0] == old(store.View()) && store.View() == views[|replies|]
      invariant MarkedBy(marks, views, calls) && |marks| == |views| && marks[0] == 0
      invariant old(store.log.FirstSynced()) ==> Marked(store, marks[|replies|])
      invariant last.Replied?
      decreases |calls| - |replies|
    {
      ghost var before, clean, mark := store.Repr(), store.log.Flushed(), marks[|replies|];
      label Before:
      last := Execute(store, calls[|replies|], mark);
      forall o: object | o in store.Repr() && o !in old(store.Repr())
        ensures fresh(o)
      {
        assert o in before - old(store.Repr()) || fresh@Before(o);
      }
      if !last.Replied? {
        NoFailures(views, calls, replies, flushed, failures, |replies|);
        return;
      }
      ExplainedGrows(views, calls, replies, flushed, failures, last.reply, store.View(), clean, store.log.Failures());
      MarksGrow(marks, views, calls, store.View());
      marks := marks + [MarkAfter(mark, views[|replies|], calls[|replies|], store.View())];
      replies := replies + [last.reply];
      views := views + [store.View()];
      flushed := flushed + [clean];
      failures := failures + [store.log.Failures()];
    }
    NoFailures(views, calls, replies, flushed, failures, |replies|);
  }

  lemma MarksStart(views: seq<LogView>, calls: seq<Call>)
    requires |views| == 1
    ensures MarkedBy([0], views, calls)
  {
  }

  lemma MarksGrow(marks: seq<nat>, views: seq<LogView>, calls: seq<Call>, v: LogView)
    requires MarkedBy(marks, views, calls) && 0 < |views| <= |calls|
    ensures var n := |views| - 1;
            MarkedBy(marks + [MarkAfter(marks[n], views[n], calls[n], v)], views + [v], calls)
  {
    hide MarkAfter;
  }

  lemma ExplainedStart(views: seq<LogView>, calls: seq<Call>, failures: seq<nat>)
    requires |views| == |failures| == 1
    ensures Explained(views, calls, [], [], failures)
  {
  }

  lemma ExplainedGrows(views: seq<LogView>, calls: seq<Call>, replies: seq<Reply>, flushed: seq<bool>,
                       failures: seq<nat>, r: Reply, v: LogView, clean: bool, f: nat)
    requires Explained(views, calls, replies, flushed, failures) && |replies| < |calls|
    requires Step(views[|replies|], calls[|replies|], r, v) && (r == Missed ==> !clean)
    requires Honest(views[|replies|], calls[|replies|], Replied(r), failures[|replies|], f)
    ensures Explained(views + [v], calls, replies + [r], flushed + [clean], failures + [f])
  {
    hide Step, Honest;
  }
}
