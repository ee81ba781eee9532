/** Handing keys over: which imports count, that an unlocked key is gone from its source for good, and that lock,
    import and unlock bring keys to the destination with their values. */
module HandOver {
  import opened Wrappers
  import opened SlotMaps
  import opened KeySpace
  import opened Migration
  import opened Routing

  // ----- imports -----

  /** In every run: an import that comes under another session key, or to a cluster that does not import the slot,
      changes nothing. */
  lemma OtherSessionIgnored(states: seq<State>, events: seq<Event>, info: Info, hash: Hash, i: nat)
    requires ConfigOk(info) && Run(states, events, info, hash) && i < |events| && events[i].Deliver?
    requires events[i].m.keys != []
    requires var slot := hash(events[i].m.keys[0]);
             info.importing[slot] == Some(events[i].at) && events[i].at in info.groups ==>
               Session(info.groups[events[i].at].ranges, slot) != Some(events[i].m.session)
    ensures states[i + 1] == states[i]
  {
    assert Step(states[i], info, hash, events[i], states[i + 1]);
    hide ConfigOk, Run, Initial;
  }

  /** In every run: one that comes to the importer under its session key, in no older term, is answered with success,
      leaves every key with the value sent, and sets the slot's term. */
  lemma ImportTaken(states: seq<State>, events: seq<Event>, info: Info, hash: Hash, i: nat, k: Key)
    requires ConfigOk(info) && Run(states, events, info, hash) && i < |events| && events[i].Deliver?
    requires k in events[i].m.keys && events[i].at in states[i].clusters
    requires var at, slot := events[i].at, hash(events[i].m.keys[0]);
             && info.importing[slot] == Some(at) && at in info.groups
             && Session(info.groups[at].ranges, slot) == Some(events[i].m.session)
             && |states[i].clusters[at].terms| == SLOTS && states[i].clusters[at].terms[slot] <= events[i].m.term
    ensures events[i].m in states[i + 1].done && events[i].at in states[i + 1].clusters && k in events[i].m.dump
    ensures Get(states[i + 1].clusters[events[i].at].data, k) == Some(events[i].m.dump[k])
    ensures states[i + 1].clusters[events[i].at].terms ==
            states[i].clusters[events[i].at].terms[hash(events[i].m.keys[0]) := events[i].m.term]
  {
    assert Step(states[i], info, hash, events[i], states[i + 1]);
    assert Applies(states[i], info, hash, events[i]);
    hide Run, Initial, MayImport;
    DeliverTouches(states[i], info, hash, events[i], states[i + 1], k);
    AppliedSetsTerm(states[i], info, hash, events[i], states[i + 1]);
  }

  // ----- unlocking -----

  lemma StaysAway(s: State, info: Info, hash: Hash, e: Event, s': State, k: Key)
    requires ConfigOk(info) && Inv(s, info, hash) && Step(s, info, hash, e, s') && Moves(info, hash(k))
    requires View(s, info, hash, k).src == None && !View(s, info, hash, k).locked
    ensures WellFormed(s', info) && View(s', info, hash, k).src == None && !View(s', info, hash, k).locked
  {
    hide ConfigOk, Inv, ClientStep, LockStep, DeliverStep, UnlockStep;
    InvWellFormed(s, info, hash);
    match e
    case Client(_, _, _, _) => ClientView(s, info, hash, e, s', k);
    case LockApplied(_, _, _) => LockView(s, info, hash, e, s', k);
    case TermGrows(_, _) =>
    case Deliver(_, _) => DeliverView(s, info, hash, e, s', k);
    case UnlockApplied(_, _) => UnlockView(s, info, hash, e, s', k);
  }

  lemma InvWellFormed(s: State, info: Info, hash: Hash)
    requires ConfigOk(info) && Inv(s, info, hash)
    ensures WellFormed(s, info)
  {
  }

  lemma {:induction false} AwayForGood(states: seq<State>, events: seq<Event>, info: Info, hash: Hash, i: nat, j: nat,
                                       k: Key)
    requires ConfigOk(info) && Run(states, events, info, hash) && i <= j < |states| && Moves(info, hash(k))
    requires WellFormed(states[i], info)
    requires View(states[i], info, hash, k).src == None && !View(states[i], info, hash, k).locked
    ensures WellFormed(states[j], info)
    ensures View(states[j], info, hash, k).src == None && !View(states[j], info, hash, k).locked
    decreases j
  {
    hide ConfigOk, Initial, Step, Moves, WellFormed, Inv;
    if i < j {
      AwayForGood(states, events, info, hash, i, j - 1, k);
      RunKeepsInv(states, events, info, hash, j - 1);
      StaysAway(states[j - 1], info, hash, events[j - 1], states[j], k);
    }
  }

  /** In every run: once unlocked, a key is gone from the cluster that migrated it, with its lock, and never returns. */
  lemma UnlockRemoves(states: seq<State>, events: seq<Event>, info: Info, hash: Hash, i: nat, j: nat, k: Key)
    requires ConfigOk(info) && Run(states, events, info, hash) && i < |events| && i < j < |states|
    requires events[i].UnlockApplied? && k in events[i].m.keys
    ensures var at := events[i].at;
            at in states[j].clusters && k !in states[j].clusters[at].data && k !in states[j].clusters[at].locked
  {
    var s, e, s' := states[i], events[i], states[i + 1];
    RunKeepsInv(states, events, info, hash, i);
    assert Step(s, info, hash, e, s');
    assert e.m in s.done && e.m in s.sent && info.migrating[hash(e.m.keys[0])] == Some(e.at);
    SentMoves(s, info, hash, e.m, k);
    UnlockView(s, info, hash, e, s', k);
    AwayForGood(states, events, info, hash, i + 1, j, k);
    hide Run, Inv, Step;
    MoveEnds(states[j], info, hash(k));
  }

  // ----- a whole hand-over -----

  /** The source has all the keys, source and destination use one session key, and the destination has seen no later
      term. */
  ghost predicate Ready(s: State, info: Info, hash: Hash, keys: seq<Key>, slot: nat) {
    && OnSlot(info, hash, keys, slot) && Inv(s, info, hash) && Moves(info, slot)
    && var src, dst := info.migrating[slot].value, info.importing[slot].value;
       && src in info.groups && dst in info.groups && src in s.clusters && dst in s.clusters && src in s.term
       && |s.clusters[dst].terms| == SLOTS
       && AllThere(s.clusters[src], keys)
       && Session(info.groups[src].ranges, slot).Some?
       && Session(info.groups[src].ranges, slot) == Session(info.groups[dst].ranges, slot)
       && s.clusters[dst].terms[slot] <= s.term[src]
  }

  /** The import that locking the keys sends. */
  function Message(s: State, info: Info, keys: seq<Key>, slot: nat): Import
    requires info.WellFormed() && slot < SLOTS && info.migrating[slot].Some?
    requires var src := info.migrating[slot].value;
             src in s.clusters && src in s.term && src in info.groups && Session(info.groups[src].ranges, slot).Some?
  {
    var src := info.migrating[slot].value;
    Import(s.term[src], Session(info.groups[src].ranges, slot).value, keys, Dumped(s.clusters[src].data, keys))
  }

  lemma LockPossible(s: State, info: Info, hash: Hash, keys: seq<Key>, slot: nat) returns (s1: State)
    requires Ready(s, info, hash, keys, slot)
    ensures var src, dst := info.migrating[slot].value, info.importing[slot].value;
            && WellFormed(s, info) && Step(s, info, hash, LockApplied(src, keys, true), s1) && WellFormed(s1, info)
            && Message(s, info, keys, slot) in s1.sent && dst in s1.clusters && src in s1.clusters
            && s1.clusters[dst] == s.clusters[dst] && s1.clusters[src].data == s.clusters[src].data
  {
    var src, dst := info.migrating[slot].value, info.importing[slot].value;
    var c, e := s.clusters[src], LockApplied(src, keys, true);
    assert keys[0] in keys && hash(keys[0]) == slot;
    assert MayLock(c, info, hash, keys);
    s1 := s.(clusters := s.clusters[src := Lock(c, info, hash, keys)], lockVal := Dumped(c.data, keys) + s.lockVal,
             sent := s.sent + {Message(s, info, keys, slot)});
    assert LockStep(s, info, hash, e, s1);
    hide ConfigOk, Inv, Lock, MayLock;
    LockWellFormed(s, info, hash, e, s1);
    LockTouches(s, info, hash, e, s1, keys[0]);
  }

  lemma ImportPossible(s1: State, info: Info, hash: Hash, m: Import, slot: nat, dst: string) returns (s2: State)
    requires ConfigOk(info) && WellFormed(s1, info) && m in s1.sent && m.keys != [] && hash(m.keys[0]) == slot < SLOTS
    requires info.importing[slot] == Some(dst) && dst in s1.clusters && dst in info.groups
    requires Session(info.groups[dst].ranges, slot) == Some(m.session) && s1.clusters[dst].terms[slot] <= m.term
    ensures Step(s1, info, hash, Deliver(dst, m), s2) && WellFormed(s2, info) && m in s2.done
    ensures s2.clusters.Keys == s1.clusters.Keys
    ensures forall k <- m.keys :: k in m.dump && Get(s2.clusters[dst].data, k) == Some(m.dump[k])
  {
    var e := Deliver(dst, m);
    assert Applies(s1, info, hash, e);
    s2 := s1.(clusters := s1.clusters[dst := ImportKeys(s1.clusters[dst], info, hash, m)], done := s1.done + {m});
    hide ConfigOk, ImportKeys, MayImport;
    assert DeliverStep(s1, info, hash, e, s2);
    hide DeliverStep, WellFormed;
    DeliverTouches(s1, info, hash, e, s2, "");
    forall k | k in m.keys ensures k in m.dump && Get(s2.clusters[dst].data, k) == Some(m.dump[k]) {
      DeliverTouches(s1, info, hash, e, s2, k);
    }
  }

  lemma UnlockPossible(s2: State, info: Info, hash: Hash, m: Import, slot: nat, src: string) returns (s3: State)
    requires ConfigOk(info) && WellFormed(s2, info) && m in s2.done && m.keys != [] && hash(m.keys[0]) == slot < SLOTS
    requires info.migrating[slot] == Some(src) && src in s2.clusters
    ensures Step(s2, info, hash, UnlockApplied(src, m), s3) && WellFormed(s3, info)
            && s3.clusters.Keys == s2.clusters.Keys
    ensures forall k <- m.keys :: k !in s3.clusters[src].data && k !in s3.clusters[src].locked
    ensures forall id | id in s2.clusters && id != src :: s3.clusters[id] == s2.clusters[id]
  {
    var e := UnlockApplied(src, m);
    s3 := s2.(clusters := s2.clusters[src := UnlockDelete(s2.clusters[src], m.keys)]);
    assert UnlockStep(s2, info, hash, e, s3);
    hide ConfigOk;
    UnlockTouches(s2, info, hash, e, s3, "");
  }

  /** From any state with the source ready, lock, import and unlock take the keys from the source to the destination
      with their values; every client is then served by the destination. */
  lemma HandOverCompletes(s: State, info: Info, hash: Hash, keys: seq<Key>, slot: nat)
    returns (s1: State, s2: State, s3: State, m: Import)
    requires Ready(s, info, hash, keys, slot)
    ensures var src, dst := info.migrating[slot].value, info.importing[slot].value;
            && WellFormed(s, info) && Step(s, info, hash, LockApplied(src, keys, true), s1)
            && WellFormed(s1, info) && Step(s1, info, hash, Deliver(dst, m), s2)
            && WellFormed(s2, info) && Step(s2, info, hash, UnlockApplied(src, m), s3) && Inv(s3, info, hash)
            && src in s3.clusters && dst in s3.clusters
            && (forall k <- keys :: k !in s3.clusters[src].data && k !in s3.clusters[src].locked)
            && (forall k <- keys :: k in s.clusters[src].data &&
                                   Get(s3.clusters[dst].data, k) == Some(s.clusters[src].data[k]))
            && (forall at | at in s3.clusters :: Follow(s3.clusters, info, hash, at, false, keys, 2) == (dst, Execute))
  {
    var src, dst := info.migrating[slot].value, info.importing[slot].value;
    hide ConfigOk, Inv, Step, Follow, Session;
    m := Message(s, info, keys, slot);
    assert keys[0] in keys && hash(keys[0]) == slot;
    s1 := LockPossible(s, info, hash, keys, slot);
    s2 := ImportPossible(s1, info, hash, m, slot, dst);
    s3 := UnlockPossible(s2, info, hash, m, slot, src);
    KeepsInv(s, info, hash, LockApplied(src, keys, true), s1);
    KeepsInv(s1, info, hash, Deliver(dst, m), s2);
    KeepsInv(s2, info, hash, UnlockApplied(src, m), s3);
    Served(s3, info, hash, keys, slot);
  }

  /** When no key is at the source and all are at the destination, every client is served there. */
  lemma Served(s: State, info: Info, hash: Hash, keys: seq<Key>, slot: nat)
    requires OnSlot(info, hash, keys, slot) && Inv(s, info, hash) && Moves(info, slot)
    requires var src, dst := info.migrating[slot].value, info.importing[slot].value;
             src in s.clusters && dst in s.clusters && NoneThere(s.clusters[src], keys)
               && AllThere(s.clusters[dst], keys)
    ensures forall at | at in s.clusters ::
              Follow(s.clusters, info, hash, at, false, keys, 2) == (info.importing[slot].value, Execute)
  {
    var src, dst := info.migrating[slot].value, info.importing[slot].value;
    assert keys[0] in keys;
    forall k | k in keys ensures k !in s.clusters[dst].locked {
      assert KeyOk(s, info, hash, k);
    }
    StatesReachable(s, info);
    hide ConfigOk, Inv, Follow;
    forall at | at in s.clusters ensures Follow(s.clusters, info, hash, at, false, keys, 2) == (dst, Execute) {
      FollowMoving(s.clusters, info, hash, at, keys, slot, 2);
    }
  }
}
