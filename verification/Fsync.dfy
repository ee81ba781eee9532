/** The thread that syncs the log in the background: the main thread's and the worker's steps in every
    interleaving.  Entries are represented by their indexes. */
module Fsync {
  import opened Wrappers

  /** A log file: the index before its first entry, its last entry, and how much of it has been written
      to the kernel and how much is durable. */
  datatype Page = Page(first: nat, last: nat, flushed: nat, durable: nat)

  datatype Worker =
    | Idle                                        // waiting for a request
    | Syncing(idx: nat, fd: nat, upto: nat)       // in fsync(), which covers what was written when it began
    | Synced(idx: nat)                            // fsync() has returned
    | Reporting(idx: nat)                         // flags updated, result not queued yet

  /** `pages` are all log files ever used; those before `oldest` are closed.  `newest` is the largest index
      ever requested of the entries there are. */
  datatype State = State(
    pages: seq<Page>, oldest: nat, need: bool, running: bool, requested: nat, fd: nat, worker: Worker,
    queue: seq<nat>, fsyncIndex: nat, newest: nat)

  datatype Event =
    | Append              // main: one more entry in the last page
    | Request             // main: write the last page and ask for a sync of the current index
    | NewPage             // main: compaction begins: sync the page, go on in a new one
    | DropPages           // main: compaction ends, after waiting for the worker: close older pages
    | SyncNow             // main: the library asks for a sync of the log at once
    | DeleteTail(to: nat) // main: the library deletes the entries after `to`, of the last page, and syncs the log
    | Completed           // main: the result of a background sync arrives
    | Take                // worker: take the request
    | SyncDone            // worker: fsync() returns
    | Finish              // worker: update the flags
    | Report              // worker: queue the result

  function Last(s: State): Page
    requires s.pages != []
  {
    s.pages[|s.pages| - 1]
  }

  function SetPage(s: State, k: nat, p: Page): State
    requires k < |s.pages|
  {
    s.(pages := s.pages[k := p])
  }

  /** Everything up to this index is durable. */
  function Durable(s: State): nat
    requires s.pages != []
  {
    Last(s).durable
  }

  function Max(a: nat, b: nat): nat { if a < b then b else a }
  function Min(a: nat, b: nat): nat { if a < b then a else b }

  /** A sync under way does not cover what is written in the place of deleted entries. */
  function Shortened(w: Worker, fd: nat, to: nat): Worker {
    if w.Syncing? && w.fd == fd then w.(upto := Min(w.upto, to)) else w
  }

  predicate Enabled(s: State, e: Event) {
    && s.pages != []
    && match e
       case Append => true
       case Request => true
       case NewPage => true
       case DropPages => !s.running
       case SyncNow => true
       case DeleteTail(to) => Last(s).first <= to < Last(s).last
       case Completed => s.queue != []
       case Take => s.worker.Idle? && s.need
       case SyncDone => s.worker.Syncing? && s.worker.fd < |s.pages|
       case Finish => s.worker.Synced?
       case Report => s.worker.Reporting?
  }

  function Next(s: State, e: Event): State
    requires Enabled(s, e)
  {
    var n := |s.pages| - 1;
    var p := Last(s);
    match e
    case Append => SetPage(s, n, p.(last := p.last + 1))
    case Request =>
      SetPage(s, n, p.(flushed := p.last)).(requested := p.last, fd := n, need := true, running := true,
                                            newest := Max(s.newest, p.last))
    case NewPage => SetPage(s, n, p.(flushed := p.last, durable := p.last)).(
      pages := s.pages[n := p.(flushed := p.last, durable := p.last)] + [Page(p.last, p.last, p.last, p.last)])
    case DropPages => s.(oldest := n)
    case SyncNow => SetPage(s, n, p.(flushed := p.last, durable := p.last)).(fsyncIndex := p.last)
    case DeleteTail(to) =>
      SetPage(s, n, Page(p.first, to, to, to)).(fsyncIndex := to, newest := Min(s.newest, to),
                                                worker := Shortened(s.worker, n, to))
    case Completed => s.(fsyncIndex := s.queue[0], queue := s.queue[1..])
    case Take => s.(need := false,
                    worker := Syncing(s.requested, s.fd, if s.fd < |s.pages| then s.pages[s.fd].flushed else 0))
    case SyncDone =>
      var q := s.pages[s.worker.fd];
      SetPage(s, s.worker.fd, q.(durable := Max(q.durable, s.worker.upto))).(worker := Synced(s.worker.idx))
    case Finish => s.(running := s.need, worker := Reporting(s.worker.idx))
    case Report => s.(queue := s.queue + [s.worker.idx], worker := Idle)
  }

  // ----- the invariant -----

  ghost predicate PagesOk(s: State) {
    && s.pages != [] && s.oldest < |s.pages|
    && (forall k | 0 <= k < |s.pages| ::
          s.pages[k].first <= s.pages[k].durable <= s.pages[k].flushed <= s.pages[k].last)
    && (forall k | 0 <= k < |s.pages| - 1 :: s.pages[k].durable == s.pages[k].last <= Last(s).first)
  }

  /** What holds whatever is deleted: the files in use are open and the flag tells whether anything is pending. */
  ghost predicate Shape(s: State) {
    && PagesOk(s)
    && (s.need ==> s.oldest <= s.fd < |s.pages|)
    && (s.worker.Syncing? ==> s.oldest <= s.worker.fd < |s.pages| && s.worker.upto <= s.pages[s.worker.fd].flushed)
    && (s.running <==> s.need || s.worker.Syncing? || s.worker.Synced?)
  }

  ghost predicate Ascending(q: seq<nat>) {
    forall i, j | 0 <= i <= j < |q| :: q[i] <= q[j]
  }

  ghost predicate Inv(s: State) {
    && Shape(s)
    // a pending request is for a page that holds the index
    && (s.need ==> s.requested <= s.pages[s.fd].flushed && s.requested == s.newest)
    && (s.worker.Syncing? ==> s.worker.idx <= s.worker.upto)
    && (s.worker.Synced? || s.worker.Reporting? ==> s.worker.idx <= Durable(s))
    // the newest request is pending, under way or durable
    && (!s.need && s.worker.Syncing? ==> s.worker.idx == s.newest)
    && (!s.need && !s.worker.Syncing? ==> s.newest <= Durable(s))
    // results come in order
    && Ascending(s.queue)
    && (forall x <- s.queue :: x <= Durable(s) && x <= s.newest && (!s.worker.Idle? ==> x <= s.worker.idx))
    && s.fsyncIndex <= Durable(s) && (!s.worker.Idle? ==> s.worker.idx <= s.newest)
    && s.newest <= Last(s).last
  }

  /** A sync that has been requested and not reported yet. */
  predicate Pending(s: State, x: nat) {
    x in s.queue || (!s.worker.Idle? && s.worker.idx == x) || (s.need && s.requested == x)
  }

  /** No entry is deleted whose sync is pending. */
  ghost predicate Undisturbed(s: State, e: Event) {
    e.DeleteTail? ==> forall x: nat | Pending(s, x) :: x <= e.to
  }

  /** Every step keeps the shape. */
  lemma KeepsShape(s: State, e: Event)
    requires Shape(s) && Enabled(s, e)
    ensures Shape(Next(s, e))
  {
    if e.NewPage? {
      assert forall k | 0 <= k < |s.pages| - 1 :: Next(s, e).pages[k] == s.pages[k];
    }
  }

  lemma DeleteKeepsInv(s: State, e: Event)
    requires Inv(s) && Enabled(s, e) && e.DeleteTail? && Undisturbed(s, e)
    ensures Inv(Next(s, e))
  {
    KeepsShape(s, e);
    forall x <- s.queue ensures x <= e.to { assert Pending(s, x); }
    if !s.worker.Idle? { assert Pending(s, s.worker.idx); }
    if s.need { assert Pending(s, s.requested); }
  }

  lemma AppendKeepsInv(s: State, e: Event)
    requires Inv(s) && Enabled(s, e) && (e.Append? || e.DropPages?)
    ensures Inv(Next(s, e))
  {
  }

  lemma RequestKeepsInv(s: State, e: Event)
    requires Inv(s) && Enabled(s, e) && e.Request?
    ensures Inv(Next(s, e))
  {
  }

  lemma NewPageKeepsInv(s: State, e: Event)
    requires Inv(s) && Enabled(s, e) && e.NewPage?
    ensures Inv(Next(s, e))
  {
    var t := Next(s, e);
    assert forall k | 0 <= k < |s.pages| - 1 :: t.pages[k] == s.pages[k];
  }

  lemma AppendAscending(q: seq<nat>, x: nat)
    requires Ascending(q) && forall y <- q :: y <= x
    ensures Ascending(q + [x]) && forall y <- q + [x] :: y in q || y == x
  {
    forall i | 0 <= i < |q| ensures q[i] <= x { assert q[i] in q; }
  }

  lemma TailAscending(q: seq<nat>)
    requires Ascending(q) && q != []
    ensures Ascending(q[1..]) && q[0] in q && forall y <- q[1..] :: y in q && q[0] <= y
  {
    forall y <- q[1..] ensures y in q && q[0] <= y {
      var i :| 0 <= i < |q[1..]| && q[1..][i] == y;
      assert y == q[i + 1];
    }
  }

  lemma SyncNowKeepsInv(s: State, e: Event)
    requires Inv(s) && Enabled(s, e) && e.SyncNow?
    ensures Inv(Next(s, e))
  {
  }

  lemma ReportKeepsInv(s: State, e: Event)
    requires Inv(s) && Enabled(s, e) && (e.Completed? || e.Report? || e.Finish? || e.Take?)
    ensures Inv(Next(s, e))
  {
    if e.Completed? { TailAscending(s.queue); }
    if e.Report? { AppendAscending(s.queue, s.worker.idx); }
    hide Ascending;
  }

  lemma SyncDoneKeepsInv(s: State, e: Event)
    requires Inv(s) && Enabled(s, e) && e.SyncDone?
    ensures Inv(Next(s, e))
  {
  }

  /** Every step keeps the invariant, but for a deletion of entries whose sync is pending. */
  lemma KeepsInv(s: State, e: Event)
    requires Inv(s) && Enabled(s, e) && Undisturbed(s, e)
    ensures Inv(Next(s, e))
  {
    hide Inv, Next;
    match e
    case Append => AppendKeepsInv(s, e);
    case Request => RequestKeepsInv(s, e);
    case DropPages => AppendKeepsInv(s, e);
    case NewPage => NewPageKeepsInv(s, e);
    case SyncDone => SyncDoneKeepsInv(s, e);
    case SyncNow => SyncNowKeepsInv(s, e);
    case DeleteTail(_) => DeleteKeepsInv(s, e);
    case Completed => ReportKeepsInv(s, e);
    case Take => ReportKeepsInv(s, e);
    case Finish => ReportKeepsInv(s, e);
    case Report => ReportKeepsInv(s, e);
  }

  // ----- whole runs -----

  ghost predicate Initial(s: State) {
    && |s.pages| == 1 && s.oldest == 0 && !s.need && !s.running && s.worker == Idle && s.queue == []
    && s.pages[0].first <= s.pages[0].durable == s.pages[0].flushed == s.pages[0].last
    && s.fsyncIndex == s.newest == 0
  }

  function After(s: State, events: seq<Event>): State
    requires Runs(s, events)
    decreases |events|
  {
    if events == [] then s else After(Next(s, events[0]), events[1..])
  }

  predicate Runs(s: State, events: seq<Event>)
    decreases |events|
  {
    events == [] || (Enabled(s, events[0]) && Runs(Next(s, events[0]), events[1..]))
  }

  lemma {:induction false} RunKeepsShape(s: State, events: seq<Event>)
    requires Shape(s) && Runs(s, events)
    ensures Shape(After(s, events))
    decreases |events|
  {
    hide Shape;
    if events != [] {
      KeepsShape(s, events[0]);
      RunKeepsShape(Next(s, events[0]), events[1..]);
    }
  }

  ghost predicate AllUndisturbed(s: State, events: seq<Event>)
    requires Runs(s, events)
    decreases |events|
  {
    events == [] || (Undisturbed(s, events[0]) && AllUndisturbed(Next(s, events[0]), events[1..]))
  }

  lemma {:induction false} RunKeepsInv(s: State, events: seq<Event>)
    requires Inv(s) && Runs(s, events) && AllUndisturbed(s, events)
    ensures Inv(After(s, events))
    decreases |events|
  {
    hide Inv, Undisturbed;
    if events != [] {
      KeepsInv(s, events[0]);
      RunKeepsInv(Next(s, events[0]), events[1..]);
    }
  }

  /** In every run that deletes no entry whose sync is pending: the reported index is durable; when the wait for the
      worker is over, no sync is pending or under way and everything requested is durable.  In every run, files in
      use by the worker are open. */
  lemma SyncIsSafe(s: State, events: seq<Event>)
    requires Initial(s) && Runs(s, events)
    ensures var t := After(s, events);
            && t.pages != [] && (t.worker.Syncing? ==> t.oldest <= t.worker.fd < |t.pages|)
            && (!t.running ==> !t.need && !t.worker.Syncing?)
            && (AllUndisturbed(s, events) ==>
                  && t.fsyncIndex <= Durable(t) && (forall x <- t.queue :: x <= Durable(t))
                  && (!t.running ==> t.newest <= Durable(t)))
  {
    InitialOk(s);
    RunKeepsShape(s, events);
    if AllUndisturbed(s, events) { RunKeepsInv(s, events); }
  }

  lemma InitialOk(s: State)
    requires Initial(s)
    ensures Inv(s)
  {
  }

  // ----- the order of reports -----

  /** What is durable stays durable until it is deleted. */
  lemma DurableGrows(s: State, e: Event)
    requires Shape(s) && Enabled(s, e)
    ensures if e.DeleteTail? then Durable(Next(s, e)) == e.to else Durable(s) <= Durable(Next(s, e))
  {
  }

  /** No report to come is below the index. */
  ghost predicate Ahead(s: State) {
    forall x | Pending(s, x) :: s.fsyncIndex <= x
  }

  /** The reported index goes back exactly when the result of a background sync arrives that is older than the index
      the log was last synced to, or when the log is synced or cut below it. */
  lemma GoesBackIff(s: State, e: Event)
    requires Shape(s) && Enabled(s, e)
    ensures Next(s, e).fsyncIndex < s.fsyncIndex <==>
            || (e.Completed? && s.queue[0] < s.fsyncIndex)
            || (e.SyncNow? && Last(s).last < s.fsyncIndex)
            || (e.DeleteTail? && e.to < s.fsyncIndex)
  {
  }

  /** The log is synced, or cut, at another index than that of a pending sync. */
  ghost predicate Overtakes(s: State, e: Event)
    requires s.pages != []
  {
    || (e.SyncNow? && exists x: nat :: Pending(s, x) && x < Last(s).last)
    || (e.DeleteTail? && exists x: nat :: Pending(s, x) && x != e.to)
  }

  /** Nothing else overtakes a pending sync. */
  lemma AheadKept(s: State, e: Event)
    requires Inv(s) && Enabled(s, e) && Ahead(s) && !Overtakes(s, e)
    ensures Ahead(Next(s, e)) && Undisturbed(s, e) && (!e.DeleteTail? ==> s.fsyncIndex <= Next(s, e).fsyncIndex)
  {
    var t := Next(s, e);
    if e.Completed? {
      TailAscending(s.queue);
      assert Pending(s, s.queue[0]);
    }
    if e.Report? { AppendAscending(s.queue, s.worker.idx); }
    forall x | Pending(t, x) ensures t.fsyncIndex <= x {
      if e.Completed? {
        assert s.queue[0] <= x;
      } else if !(e.Request? && x == Last(s).last) {
        assert Pending(s, x);
      }
    }
  }

  lemma {:induction false} RunPrefix(s: State, before: seq<Event>, after: seq<Event>)
    requires Runs(s, before + after)
    ensures Runs(s, before) && Runs(After(s, before), after)
            && After(After(s, before), after) == After(s, before + after)
    decreases |before|
  {
    var all := before + after;
    if before == [] {
      assert all == after;
    } else {
      assert all[0] == before[0] && all[1..] == before[1..] + after;
      RunPrefix(Next(s, before[0]), before[1..], after);
    }
  }

  /** The state in which an event of a run happens. */
  ghost function Before(s: State, events: seq<Event>, i: nat): State
    requires Runs(s, events) && i <= |events|
  {
    assert events == events[..i] + events[i..];
    RunPrefix(s, events[..i], events[i..]);
    After(s, events[..i])
  }

  /** If a report can take the index back, the log was synced or cut at once while another sync was pending. */
  lemma {:induction false} OvertakenBefore(s: State, events: seq<Event>) returns (i: nat)
    requires Inv(s) && Ahead(s) && Runs(s, events) && !Ahead(After(s, events))
    ensures i < |events| && Before(s, events, i).pages != [] && Overtakes(Before(s, events, i), events[i])
    decreases |events|
  {
    var e := events[0];
    if Overtakes(s, e) {
      i := 0;
      assert events[..0] == [];
    } else {
      AheadKept(s, e);
      KeepsInv(s, e);
      i := OvertakenBefore(Next(s, e), events[1..]);
      BeforeShift(s, events, i);
      i := i + 1;
    }
  }

  lemma BeforeShift(s: State, events: seq<Event>, i: nat)
    requires events != [] && Runs(s, events) && i <= |events| - 1
    ensures Before(s, events, i + 1) == Before(Next(s, events[0]), events[1..], i)
  {
    assert events[..i + 1][0] == events[0] && events[..i + 1][1..] == events[1..][..i];
    assert events == events[..i + 1] + events[i + 1..];
    RunPrefix(s, events[..i + 1], events[i + 1..]);
  }

  /** In a run, a report takes the index back only after a sync or a deletion has overtaken a pending sync. */
  lemma GoesBackNeedsOvertaking(s: State, events: seq<Event>) returns (i: nat)
    requires Initial(s) && Runs(s, events) && Enabled(After(s, events), Completed)
    requires After(s, events).queue[0] < After(s, events).fsyncIndex
    ensures i < |events| && Before(s, events, i).pages != [] && Overtakes(Before(s, events, i), events[i])
  {
    InitialOk(s);
    assert Pending(After(s, events), After(s, events).queue[0]);
    i := OvertakenBefore(s, events);
  }

  /** With neither it never goes back. */
  lemma {:induction false} ReportsAscend(s: State, events: seq<Event>)
    requires Inv(s) && Ahead(s) && Runs(s, events)
    requires forall e <- events :: !e.SyncNow? && !e.DeleteTail?
    ensures s.fsyncIndex <= After(s, events).fsyncIndex
    decreases |events|
  {
    if events != [] {
      assert events[0] in events;
      AheadKept(s, events[0]);
      KeepsInv(s, events[0]);
      ReportsAscend(Next(s, events[0]), events[1..]);
    }
  }

  // ----- reports of deleted entries -----

  /** The reported index stops being durable exactly when a result arrives that is beyond what is durable. */
  lemma UnsafeIff(s: State, e: Event)
    requires Shape(s) && Enabled(s, e) && s.fsyncIndex <= Durable(s)
    ensures Next(s, e).fsyncIndex > Durable(Next(s, e)) <==> e.Completed? && s.queue[0] > Durable(s)
  {
    KeepsShape(s, e);
  }

  /** Such a result comes only after entries were deleted whose sync was pending. */
  lemma {:induction false} DisturbedBefore(s: State, events: seq<Event>) returns (i: nat)
    requires Inv(s) && Runs(s, events) && !Inv(After(s, events))
    ensures i < |events| && !Undisturbed(Before(s, events, i), events[i])
    decreases |events|
  {
    hide Inv, Next;
    if !Undisturbed(s, events[0]) {
      i := 0;
      assert events[..0] == [];
    } else {
      KeepsInv(s, events[0]);
      i := DisturbedBefore(Next(s, events[0]), events[1..]);
      BeforeShift(s, events, i);
      i := i + 1;
    }
  }

  lemma UnsafeNeedsDeletion(s: State, events: seq<Event>) returns (i: nat)
    requires Initial(s) && Runs(s, events) && After(s, events).pages != []
    requires After(s, events).fsyncIndex > Durable(After(s, events))
    ensures i < |events| && events[i].DeleteTail?
    ensures exists x: nat :: Pending(Before(s, events, i), x) && x > events[i].to
  {
    InitialOk(s);
    i := DisturbedBefore(s, events);
  }

  // A log whose entry 1 was synced in the background.
  const QUEUED := State([Page(0, 1, 1, 1)], 0, false, false, 1, 0, Idle, [1], 0, 1)
  const FRESH := State([Page(0, 0, 0, 0)], 0, false, false, 0, 0, Idle, [], 0, 0)

  lemma SyncOne()
    ensures Runs(FRESH, [Append, Request, Take, SyncDone, Finish, Report])
    ensures After(FRESH, [Append, Request, Take, SyncDone, Finish, Report]) == QUEUED
  {
    var s1 := FRESH.(pages := [Page(0, 1, 0, 0)]);
    var s2 := State([Page(0, 1, 1, 0)], 0, true, true, 1, 0, Idle, [], 0, 1);
    var s3 := s2.(need := false, worker := Syncing(1, 0, 1));
    var s4 := s3.(pages := [Page(0, 1, 1, 1)], worker := Synced(1));
    var s5 := s4.(running := false, worker := Reporting(1));
    FirstSteps(s1, s2, s3);
    LastSteps(s3, s4, s5);
    hide Next;
    OneStep(s5, Report, []);
    OneStep(s4, Finish, [Report]);
    OneStep(s3, SyncDone, [Finish, Report]);
    OneStep(s2, Take, [SyncDone, Finish, Report]);
    OneStep(s1, Request, [Take, SyncDone, Finish, Report]);
    OneStep(FRESH, Append, [Request, Take, SyncDone, Finish, Report]);
  }

  lemma FirstSteps(s1: State, s2: State, s3: State)
    requires s1 == FRESH.(pages := [Page(0, 1, 0, 0)])
    requires s2 == State([Page(0, 1, 1, 0)], 0, true, true, 1, 0, Idle, [], 0, 1)
    requires s3 == s2.(need := false, worker := Syncing(1, 0, 1))
    ensures Enabled(FRESH, Append) && Next(FRESH, Append) == s1 && Enabled(s1, Request) && Next(s1, Request) == s2
    ensures Enabled(s2, Take) && Next(s2, Take) == s3
  {
  }

  lemma LastSteps(s3: State, s4: State, s5: State)
    requires s3 == State([Page(0, 1, 1, 0)], 0, false, true, 1, 0, Syncing(1, 0, 1), [], 0, 1)
    requires s4 == s3.(pages := [Page(0, 1, 1, 1)], worker := Synced(1))
    requires s5 == s4.(running := false, worker := Reporting(1))
    ensures Enabled(s3, SyncDone) && Next(s3, SyncDone) == s4 && Enabled(s4, Finish) && Next(s4, Finish) == s5
    ensures Enabled(s5, Report) && Next(s5, Report) == QUEUED
  {
  }

  /** And it does happen: the log is synced to index 2 while the report of index 1 is still queued. */
  lemma GoesBack() returns (s: State, events: seq<Event>)
    ensures Initial(s) && Runs(s, events) && Enabled(After(s, events), Completed)
    ensures Next(After(s, events), Completed).fsyncIndex < After(s, events).fsyncIndex
  {
    s := FRESH;
    var first := [Append, Request, Take, SyncDone, Finish, Report];
    SyncOne();
    var s7 := QUEUED.(pages := [Page(0, 2, 1, 1)]);
    var s8 := QUEUED.(pages := [Page(0, 2, 2, 2)], fsyncIndex := 2);
    assert Next(QUEUED, Append) == s7 && Next(s7, SyncNow) == s8;
    OneStep(s7, SyncNow, []);
    OneStep(QUEUED, Append, [SyncNow]);
    events := first + [Append, SyncNow];
    RunJoined(s, first, [Append, SyncNow]);
  }

  lemma {:induction false} RunJoined(s: State, first: seq<Event>, more: seq<Event>)
    requires Runs(s, first) && Runs(After(s, first), more)
    ensures Runs(s, first + more) && After(s, first + more) == After(After(s, first), more)
    decreases |first|
  {
    if first == [] {
      assert first + more == more;
    } else {
      assert (first + more)[1..] == first[1..] + more;
      RunJoined(Next(s, first[0]), first[1..], more);
    }
  }

  lemma OneStep(s: State, e: Event, rest: seq<Event>)
    requires Enabled(s, e) && Runs(Next(s, e), rest)
    ensures Runs(s, [e] + rest) && After(s, [e] + rest) == After(Next(s, e), rest)
  {
    assert ([e] + rest)[1..] == rest;
  }

  /** It does happen: entry 1 is deleted while its sync is under way, another entry 1 is appended, and the result of
      the sync reports it as durable. */
  lemma UnsafeReport() returns (s: State, events: seq<Event>)
    ensures Initial(s) && Runs(s, events) && After(s, events).pages != []
    ensures After(s, events).fsyncIndex == 1 && Durable(After(s, events)) == 0 && Last(After(s, events)).last == 1
  {
    s := FRESH;
    var s1 := FRESH.(pages := [Page(0, 1, 0, 0)]);
    var s2 := State([Page(0, 1, 1, 0)], 0, true, true, 1, 0, Idle, [], 0, 1);
    var s3 := s2.(need := false, worker := Syncing(1, 0, 1));
    var s4 := s3.(pages := [Page(0, 0, 0, 0)], worker := Syncing(1, 0, 0), newest := 0);
    var s5 := s4.(pages := [Page(0, 1, 0, 0)]);
    FirstSteps(s1, s2, s3);
    LastUnsafeSteps(s3, s4, s5);
    hide Next;
    events := [SyncDone, Finish, Report, Completed];
    OneStep(s4, Append, events);
    events := [Append] + events;
    OneStep(s3, DeleteTail(0), events);
    events := [DeleteTail(0)] + events;
    OneStep(s2, Take, events);
    events := [Take] + events;
    OneStep(s1, Request, events);
    events := [Request] + events;
    OneStep(FRESH, Append, events);
    events := [Append] + events;
  }

  lemma LastUnsafeSteps(s3: State, s4: State, s5: State)
    requires s3 == State([Page(0, 1, 1, 0)], 0, false, true, 1, 0, Syncing(1, 0, 1), [], 0, 1)
    requires s4 == s3.(pages := [Page(0, 0, 0, 0)], worker := Syncing(1, 0, 0), newest := 0)
    requires s5 == s4.(pages := [Page(0, 1, 0, 0)])
    ensures Enabled(s3, DeleteTail(0)) && Next(s3, DeleteTail(0)) == s4 && Enabled(s4, Append) && Next(s4, Append) == s5
    ensures Runs(s5, [SyncDone, Finish, Report, Completed])
    ensures After(s5, [SyncDone, Finish, Report, Completed]) ==
            State([Page(0, 1, 0, 0)], 0, false, false, 1, 0, Idle, [], 1, 0)
  {
    var s6 := s5.(worker := Synced(1));
    var s7 := s6.(running := false, worker := Reporting(1));
    var s8 := s7.(queue := [1], worker := Idle);
    assert Next(s5, SyncDone) == s6 && Next(s6, Finish) == s7 && Next(s7, Report) == s8;
    OneStep(s8, Completed, []);
    OneStep(s7, Report, [Completed]);
    OneStep(s6, Finish, [Report, Completed]);
    OneStep(s5, SyncDone, [Finish, Report, Completed]);
  }

  // ----- waiting ends -----

  /** How many steps the worker is away from rest, if nothing new is requested. */
  function Distance(s: State): nat {
    (if s.need then 4 else 0) +
    match s.worker
    case Idle => 0
    case Syncing(_, _, _) => 3
    case Synced(_) => 2
    case Reporting(_) => 1
  }

  function WorkerStep(s: State): Event {
    match s.worker
    case Idle => Take
    case Syncing(_, _, _) => SyncDone
    case Synced(_) => Finish
    case Reporting(_) => Report
  }

  /** While the main thread waits, the worker always has a step to take, and each one brings it closer to
      rest: the wait cannot block forever. */
  lemma WaitEnds(s: State)
    requires Shape(s) && s.running
    ensures Enabled(s, WorkerStep(s)) && Distance(Next(s, WorkerStep(s))) < Distance(s)
  {
  }

  /** A request made while the worker rests, carried through: the index of the last entry is durable and reported. */
  lemma RequestIsReported(s: State) returns (t: State)
    requires Shape(s) && s.worker.Idle? && !s.need && s.queue == []
    ensures Carried(s, [Request, Take, SyncDone, Finish, Report, Completed]) == Some(t)
    ensures t.fsyncIndex == Last(s).last == Durable(t) && Last(t).last == Last(s).last
    ensures t.worker.Idle? && !t.need && !t.running && t.queue == []
  {
    hide Next, Enabled, Carried;
    var s1, s2, s3, s4, s5;
    s1, s2, s3, s4, s5, t := RequestSteps(s);
    NothingCarried(t);
    CarriedOn(s5, Completed, []);
    assert [Completed] + [] == [Completed];
    CarriedOn(s4, Report, [Completed]);
    CarriedOn(s3, Finish, [Report] + [Completed]);
    CarriedOn(s2, SyncDone, [Finish] + ([Report] + [Completed]));
    CarriedOn(s1, Take, [SyncDone] + ([Finish] + ([Report] + [Completed])));
    CarriedOn(s, Request, [Take] + ([SyncDone] + ([Finish] + ([Report] + [Completed]))));
    assert [Request] + ([Take] + ([SyncDone] + ([Finish] + ([Report] + [Completed])))) ==
           [Request, Take, SyncDone, Finish, Report, Completed];
  }

  lemma RequestSteps(s: State) returns (s1: State, s2: State, s3: State, s4: State, s5: State, t: State)
    requires Shape(s) && s.worker.Idle? && !s.need && s.queue == []
    ensures Enabled(s, Request) && s1 == Next(s, Request) && Enabled(s1, Take) && s2 == Next(s1, Take)
    ensures Enabled(s2, SyncDone) && s3 == Next(s2, SyncDone) && Enabled(s3, Finish) && s4 == Next(s3, Finish)
    ensures Enabled(s4, Report) && s5 == Next(s4, Report) && Enabled(s5, Completed) && t == Next(s5, Completed)
    ensures t.pages != [] && t.fsyncIndex == Last(s).last == Durable(t) && Last(t).last == Last(s).last
    ensures t.worker.Idle? && !t.need && !t.running && t.queue == []
  {
    s1 := Next(s, Request);
    s2 := Next(s1, Take);
    s3 := Next(s2, SyncDone);
    s4 := Next(s3, Finish);
    s5 := Next(s4, Report);
    t := Next(s5, Completed);
  }

  lemma NothingCarried(s: State)
    ensures Carried(s, []) == Some(s)
  {
  }

  /** The state after some events, if each is possible in its turn. */
  function Carried(s: State, events: seq<Event>): Option<State>
    decreases |events|
  {
    if events == [] then Some(s)
    else if Enabled(s, events[0]) then Carried(Next(s, events[0]), events[1..]) else None
  }

  lemma CarriedOn(s: State, e: Event, rest: seq<Event>)
    requires Enabled(s, e)
    ensures Carried(s, [e] + rest) == Carried(Next(s, e), rest)
  {
    hide Next, Enabled;
    assert ([e] + rest)[1..] == rest;
  }
}
