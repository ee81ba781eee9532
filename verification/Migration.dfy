/** Moving keys between clusters under one configuration: clusters apply client commands, lock, import and
    unlock entries in any interleaving, and messages are delivered late, repeatedly or never. */
module Migration {
  import opened Wrappers
  import opened SlotMaps
  import opened ShardOrders
  import opened KeySpace

  /** The clusters and their current terms, the imports sent and the ones answered with success.  For
      stating properties: the value of each key when first locked, the keys clients have deleted, and
      the value each key has for its clients. */
  datatype State = State(
    clusters: map<string, Cluster>, term: map<string, int>, sent: set<Import>, done: set<Import>,
    lockVal: map<Key, Value>, deleted: set<Key>, truth: map<Key, Value>)

  datatype Event =
    | Client(at: string, keys: seq<Key>, asking: bool, writes: map<Key, Option<Value>>)
    | LockApplied(at: string, keys: seq<Key>, send: bool)
    | TermGrows(at: string, term: int)
    | Deliver(at: string, m: Import)
    | UnlockApplied(at: string, m: Import)

  function Get(m: map<Key, Value>, k: Key): Option<Value> { if k in m then Some(m[k]) else None }

  /** The effect of a command on the keys it names. */
  function Written(data: map<Key, Value>, writes: map<Key, Option<Value>>): (r: map<Key, Value>)
    ensures forall k :: Get(r, k) == if k in writes then writes[k] else Get(data, k)
  {
    map k | k in data.Keys + writes.Keys && (k in writes ==> writes[k].Some?) ::
      if k in writes then writes[k].value else data[k]
  }

  // ----- configurations -----

  /** A configuration that a consistent list builds, with routing on. */
  ghost predicate ConfigOk(info: Info) {
    && Routable(info) && info.sharding
    && (forall id | id in info.groups :: GroupOk(info.groups[id]))
    && (forall id, kind, slot | id in info.groups && kind != Unknown && 0 <= slot < SLOTS
       && Claims(info.groups[id], kind, slot) ::
          info.Map(kind)[slot] == Some(id))
    && (forall slot | 0 <= slot < SLOTS && info.stable[slot].Some? ::
         info.importing[slot] == None && info.migrating[slot] == None)
  }

  /** The slot moves from one cluster to another. */
  predicate Moves(info: Info, slot: nat)
    requires info.WellFormed() && slot < SLOTS
  {
    info.stable[slot] == None && info.migrating[slot].Some? && info.importing[slot].Some?
      && info.migrating[slot] != info.importing[slot]
  }

  /** On a slot that is not stable, a command runs only where the slot is migrated or imported, and only if
      all its keys are there and none is locked. */
  lemma ExecuteMeans(c: Cluster, info: Info, slot: nat, asking: bool, keys: seq<Key>)
    requires ConfigOk(info) && slot < SLOTS && Route(c, info, slot, asking, keys) == Execute
    ensures info.stable[slot].Some? ==> info.stable[slot] == Some(c.dbid)
    ensures info.stable[slot].None? ==>
              && (info.migrating[slot] == Some(c.dbid) || info.importing[slot] == Some(c.dbid))
              && forall k <- keys :: k in c.data && k !in c.locked
  {
    if info.stable[slot].None? {
      RouteAssociates(info, slot, asking, c.dbid);
      NotStable(info, c.dbid, slot);
    }
  }

  lemma NotStable(info: Info, id: string, slot: nat)
    requires ConfigOk(info) && slot < SLOTS && info.stable[slot].None? && id in info.groups
    ensures RangeKind(info.groups[id].ranges, slot) !in {Some(Stable), Some(Unknown)}
  {
    var ranges := info.groups[id].ranges;
    if RangeKind(ranges, slot).Some? {
      var k := RangeOfKind(ranges, slot);
      assert GroupOk(info.groups[id]) && Claims(info.groups[id], ranges[k].kind, slot);
      assert info.Map(ranges[k].kind)[slot] == Some(id);
    }
  }

  lemma {:induction false} RangeOfKind(ranges: seq<SlotRange>, slot: int) returns (k: nat)
    requires RangeKind(ranges, slot).Some?
    ensures k < |ranges| && Covers(ranges[k], slot) && RangeKind(ranges, slot) == Some(ranges[k].kind)
  {
    if Covers(ranges[0], slot) {
      k := 0;
    } else {
      k := RangeOfKind(ranges[1..], slot);
      k := k + 1;
    }
  }

  // ----- steps -----

  ghost predicate WellFormed(s: State, info: Info) {
    && info.WellFormed()
    && (forall id | id in info.groups :: id in s.clusters)
    && (forall id | id in s.clusters :: id in s.term && s.clusters[id].dbid == id && |s.clusters[id].terms| == SLOTS)
    && (forall m | m in s.sent :: m.keys != [] && forall k <- m.keys :: k in m.dump)
  }

  /** A cluster applies one or more commands, which change only keys they name. */
  ghost predicate ClientStep(s: State, info: Info, hash: Hash, e: Event, s': State)
    requires e.Client? && ConfigOk(info) && WellFormed(s, info)
  {
    && e.at in s.clusters && e.writes.Keys <= (set k | k in e.keys)
    && s' == if Runs(s, info, hash, e) then Executed(s, e) else s
  }

  predicate Runs(s: State, info: Info, hash: Hash, e: Event)
    requires Routable(info) && e.Client? && e.at in s.clusters
  {
    Admit(s.clusters[e.at], info, hash, e.asking, e.keys) == Execute
  }

  function Executed(s: State, e: Event): State
    requires e.Client? && e.at in s.clusters
  {
    s.(clusters := s.clusters[e.at := s.clusters[e.at].(data := Written(s.clusters[e.at].data, e.writes))],
       truth := Written(s.truth, e.writes),
       deleted := s.deleted + set k | k in e.writes && e.writes[k].None?)
  }

  function Dumped(data: map<Key, Value>, keys: seq<Key>): map<Key, Value> {
    map k <- keys | k in data :: data[k]
  }

  /** A cluster applies a lock entry.  The leader that serves the request then serializes the keys, which
      must all exist, and sends them with its term and session key. */
  ghost predicate LockStep(s: State, info: Info, hash: Hash, e: Event, s': State)
    requires e.LockApplied? && ConfigOk(info) && WellFormed(s, info)
  {
    && e.at in s.clusters
    && var c := s.clusters[e.at];
       var may := MayLock(c, info, hash, e.keys);
       && (e.send ==> may && (forall k <- e.keys :: k in c.data) && e.at in info.groups &&
                      Session(info.groups[e.at].ranges, hash(e.keys[0])).Some?)
       && s' == s.(clusters := s.clusters[e.at := Lock(c, info, hash, e.keys)],
                   lockVal := if may then Dumped(c.data, e.keys) + s.lockVal else s.lockVal,
                   sent := if e.send
                     then s.sent + {Import(s.term[e.at], Session(info.groups[e.at].ranges, hash(e.keys[0])).value,
                                                           e.keys, Dumped(c.data, e.keys))}
                           else s.sent)
  }

  /** The import that is delivered is applied. */
  ghost predicate Applies(s: State, info: Info, hash: Hash, e: Event)
    requires e.Deliver? && WellFormed(s, info)
  {
    e.at in s.clusters && e.m in s.sent && MayImport(s.clusters[e.at], info, hash, e.m)
  }

  /** A cluster applies an import it has received, and answers. */
  ghost predicate DeliverStep(s: State, info: Info, hash: Hash, e: Event, s': State)
    requires e.Deliver? && WellFormed(s, info)
  {
    && e.at in s.clusters && e.m in s.sent
    && s' == s.(clusters := s.clusters[e.at := ImportKeys(s.clusters[e.at], info, hash, e.m)],
                done := if Applies(s, info, hash, e) then s.done + {e.m} else s.done)
  }

  /** The source deletes and unlocks the keys of an import that was answered with success. */
  ghost predicate UnlockStep(s: State, info: Info, hash: Hash, e: Event, s': State)
    requires e.UnlockApplied? && WellFormed(s, info)
  {
    && e.at in s.clusters && e.m in s.done && e.m.keys != [] && info.migrating[hash(e.m.keys[0])] == Some(e.at)
    && s' == s.(clusters := s.clusters[e.at := UnlockDelete(s.clusters[e.at], e.m.keys)])
  }

  ghost predicate Step(s: State, info: Info, hash: Hash, e: Event, s': State)
    requires ConfigOk(info) && WellFormed(s, info)
  {
    match e
    case Client(_, _, _, _) => ClientStep(s, info, hash, e, s')
    case LockApplied(_, _, _) => LockStep(s, info, hash, e, s')
    case TermGrows(at, t) => at in s.clusters && s.term[at] <= t && s' == s.(term := s.term[at := t])
    case Deliver(_, _) => DeliverStep(s, info, hash, e, s')
    case UnlockApplied(_, _) => UnlockStep(s, info, hash, e, s')
  }

  // ----- the invariant -----

  /** What there is to know of a moving key: its value and lock at the source, its value at the destination,
      its value when first locked, whether a client has deleted it, and its value for its clients. */
  datatype KeyView = KeyView(
    src: Option<Value>, locked: bool, dst: Option<Value>, first: Option<Value>, deleted: bool, truth: Option<Value>)

  function View(s: State, info: Info, hash: Hash, k: Key): KeyView
    requires WellFormed(s, info) && ConfigOk(info) && Moves(info, hash(k))
  {
    MoveEnds(s, info, hash(k));
    var a, b := s.clusters[info.migrating[hash(k)].value], s.clusters[info.importing[hash(k)].value];
    KeyView(Get(a.data, k), k in a.locked, Get(b.data, k), Get(s.lockVal, k), k in s.deleted, Get(s.truth, k))
  }

  lemma MoveEnds(s: State, info: Info, slot: nat)
    requires ConfigOk(info) && WellFormed(s, info) && slot < SLOTS && Moves(info, slot)
    ensures info.migrating[slot].value in s.clusters && info.importing[slot].value in s.clusters
  {
  }

  ghost predicate ViewOk(v: KeyView) {
    && (v.locked ==> v.first.Some? && v.src == v.first)
    && (v.first.Some? && v.src.Some? ==> v.locked)
    && (v.dst.Some? ==> v.first.Some?)
    && (v.first.Some? && v.src.None? ==> v.dst.Some? || v.deleted)
  }

  /** Only sources lock keys, and only keys that move. */
  ghost predicate LocksOk(s: State, info: Info, hash: Hash, k: Key)
    requires info.WellFormed()
  {
    && (forall id | id in s.clusters && k in s.clusters[id].locked ::
         info.migrating[hash(k)] == Some(id) && k in s.lockVal)
    && (k in s.lockVal ==> Moves(info, hash(k)))
  }

  ghost predicate KeyOk(s: State, info: Info, hash: Hash, k: Key)
    requires WellFormed(s, info) && ConfigOk(info)
  {
    LocksOk(s, info, hash, k) && (Moves(info, hash(k)) ==> ViewOk(View(s, info, hash, k)))
  }

  ghost predicate SentOk(s: State, info: Info, hash: Hash, m: Import)
    requires info.WellFormed()
  {
    && m.keys != []
    && (forall k <- m.keys :: hash(k) == hash(m.keys[0]) && k in s.lockVal && k in m.dump && m.dump[k] == s.lockVal[k])
  }

  ghost predicate Arrived(s: State, info: Info, hash: Hash, k: Key)
    requires WellFormed(s, info) && ConfigOk(info)
  {
    Moves(info, hash(k)) && (View(s, info, hash, k).dst.Some? || View(s, info, hash, k).deleted)
  }

  ghost predicate DoneOk(s: State, info: Info, hash: Hash, m: Import)
    requires WellFormed(s, info) && ConfigOk(info)
  {
    forall k <- m.keys :: Arrived(s, info, hash, k)
  }

  ghost predicate Inv(s: State, info: Info, hash: Hash)
    requires ConfigOk(info)
  {
    && WellFormed(s, info)
    && s.done <= s.sent
    && (forall m | m in s.sent :: SentOk(s, info, hash, m))
    && (forall m | m in s.done :: DoneOk(s, info, hash, m))
    && (forall k :: KeyOk(s, info, hash, k))
  }

  lemma SentMoves(s: State, info: Info, hash: Hash, m: Import, k: Key)
    requires ConfigOk(info) && Inv(s, info, hash) && m in s.sent && k in m.keys
    ensures Moves(info, hash(k)) && hash(k) == hash(m.keys[0]) && k in m.dump
    ensures View(s, info, hash, k).first == Some(m.dump[k])
  {
    assert SentOk(s, info, hash, m) && KeyOk(s, info, hash, k);
    hide ConfigOk;
  }

  // ----- what each step does to a key -----

  /** The effect on a moving key of a command that writes it. */
  function Overwritten(v: KeyView, atSource: bool, w: Option<Value>): KeyView {
    if atSource then v.(src := w, truth := w, deleted := v.deleted || w.None?)
    else v.(dst := w, truth := w, deleted := v.deleted || w.None?)
  }

  lemma ExecutedAt(s: State, e: Event, k: Key)
    requires e.Client? && e.at in s.clusters
    ensures var s' := Executed(s, e);
            && s'.clusters.Keys == s.clusters.Keys && s'.lockVal == s.lockVal
            && s'.sent == s.sent && s'.done == s.done && s'.term == s.term
            && Get(s'.truth, k) == (if k in e.writes then e.writes[k] else Get(s.truth, k))
            && (k in s'.deleted <==> k in s.deleted || (k in e.writes && e.writes[k].None?))
            && forall id | id in s.clusters ::
                 && s'.clusters[id].locked == s.clusters[id].locked && s'.clusters[id].dbid == s.clusters[id].dbid
                 && s'.clusters[id].terms == s.clusters[id].terms
                 && Get(s'.clusters[id].data, k) ==
                      if id == e.at && k in e.writes then e.writes[k] else Get(s.clusters[id].data, k)
  {
  }

  lemma ExecutedWellFormed(s: State, info: Info, e: Event)
    requires WellFormed(s, info) && e.Client? && e.at in s.clusters
    ensures WellFormed(Executed(s, e), info)
  {
    ExecutedAt(s, e, "");
  }

  /** A command that writes a moving key runs where the key is, and there it is not locked. */
  lemma ClientView(s: State, info: Info, hash: Hash, e: Event, s': State, k: Key)
    requires ConfigOk(info) && WellFormed(s, info) && e.Client? && ClientStep(s, info, hash, e, s')
             && Moves(info, hash(k))
    ensures WellFormed(s', info)
    ensures var v, v' := View(s, info, hash, k), View(s', info, hash, k);
            if Runs(s, info, hash, e) && k in e.writes then
              var atSource := info.migrating[hash(k)] == Some(e.at);
              && v' == Overwritten(v, atSource, e.writes[k])
              && (if atSource then v.src.Some? && !v.locked else v.dst.Some? && info.importing[hash(k)] == Some(e.at))
            else v' == v
  {
    MoveEnds(s, info, hash(k));
    if Runs(s, info, hash, e) {
      ExecutedWellFormed(s, info, e);
      ExecutedAt(s, e, k);
      if k in e.writes { assert k in e.keys; ExecuteMeans(s.clusters[e.at], info, hash(e.keys[0]), e.asking, e.keys); }
      hide ConfigOk, Runs, Executed, WellFormed;
    }
  }

  lemma ClientOther(s: State, info: Info, hash: Hash, e: Event, s': State, k: Key)
    requires ConfigOk(info) && WellFormed(s, info) && e.Client? && ClientStep(s, info, hash, e, s')
    ensures WellFormed(s', info) && s'.sent == s.sent && s'.done == s.done && s'.lockVal == s.lockVal
            && s'.term == s.term
    ensures LocksOk(s', info, hash, k) == LocksOk(s, info, hash, k)
  {
    if Runs(s, info, hash, e) {
      ExecutedWellFormed(s, info, e);
      ExecutedAt(s, e, k);
    }
    hide ConfigOk, Runs, Executed;
  }

  ghost predicate NewlyLocked(s: State, info: Info, hash: Hash, e: Event, k: Key)
    requires info.WellFormed() && e.LockApplied? && e.at in s.clusters
  {
    MayLock(s.clusters[e.at], info, hash, e.keys) && k in e.keys && k in s.clusters[e.at].data
  }

  lemma LockTouches(s: State, info: Info, hash: Hash, e: Event, s': State, k: Key)
    requires ConfigOk(info) && WellFormed(s, info) && e.LockApplied? && LockStep(s, info, hash, e, s')
    ensures s'.clusters.Keys == s.clusters.Keys && s'.term == s.term && s'.deleted == s.deleted && s'.truth == s.truth
            && s'.done == s.done
    ensures forall id | id in s.clusters ::
              && s'.clusters[id].data == s.clusters[id].data && s'.clusters[id].dbid == s.clusters[id].dbid
              && s'.clusters[id].terms == s.clusters[id].terms
              && (k in s'.clusters[id].locked <==>
                    k in s.clusters[id].locked || (id == e.at && NewlyLocked(s, info, hash, e, k)))
    ensures Get(s'.lockVal, k) == if k in s.lockVal then Get(s.lockVal, k)
                                  else if NewlyLocked(s, info, hash, e, k) then Get(s.clusters[e.at].data, k) else None
  {
    hide ConfigOk;
  }

  lemma LockMoves(s: State, info: Info, hash: Hash, e: Event, k: Key)
    requires ConfigOk(info) && WellFormed(s, info) && e.LockApplied? && e.at in s.clusters
             && NewlyLocked(s, info, hash, e, k)
    ensures Moves(info, hash(k)) && info.migrating[hash(k)] == Some(e.at)
  {
  }

  lemma LockWellFormed(s: State, info: Info, hash: Hash, e: Event, s': State)
    requires ConfigOk(info) && WellFormed(s, info) && e.LockApplied? && LockStep(s, info, hash, e, s')
    ensures WellFormed(s', info) && s.sent <= s'.sent
  {
    hide ConfigOk;
  }

  lemma LockView(s: State, info: Info, hash: Hash, e: Event, s': State, k: Key)
    requires ConfigOk(info) && WellFormed(s, info) && e.LockApplied? && LockStep(s, info, hash, e, s')
             && Moves(info, hash(k))
    ensures WellFormed(s', info)
    ensures var v, v' := View(s, info, hash, k), View(s', info, hash, k);
            if NewlyLocked(s, info, hash, e, k) then
              v.src.Some? && v' == v.(locked := true, first := if v.first.Some? then v.first else v.src)
            else v' == v
  {
    LockWellFormed(s, info, hash, e, s');
    LockTouches(s, info, hash, e, s', k);
    MoveEnds(s, info, hash(k));
    if NewlyLocked(s, info, hash, e, k) { LockMoves(s, info, hash, e, k); }
    hide ConfigOk, LockStep, NewlyLocked, WellFormed;
  }

  lemma {:induction false} RestoredAt(data: map<Key, Value>, m: Import, n: nat, k: Key)
    requires n <= |m.keys| && forall k <- m.keys :: k in m.dump
    ensures Get(Restored(data, m, n), k) == if k in m.keys[..n] then Some(m.dump[k]) else Get(data, k)
  {
    if n > 0 {
      RestoredAt(data, m, n - 1, k);
      assert m.keys[..n] == m.keys[..n - 1] + [m.keys[n - 1]];
    }
  }

  lemma ImportAt(c: Cluster, info: Info, hash: Hash, m: Import, k: Key)
    requires info.WellFormed() && m.keys != [] && |c.terms| == SLOTS && forall k <- m.keys :: k in m.dump
    ensures var r := ImportKeys(c, info, hash, m);
            && r.dbid == c.dbid && r.locked == c.locked && |r.terms| == SLOTS
            && Get(r.data, k) == if MayImport(c, info, hash, m) && k in m.keys then Some(m.dump[k]) else Get(c.data, k)
  {
    RestoredAt(c.data, m, |m.keys|, k);
    assert m.keys[..|m.keys|] == m.keys;
  }

  lemma DeliverTouches(s: State, info: Info, hash: Hash, e: Event, s': State, k: Key)
    requires ConfigOk(info) && WellFormed(s, info) && e.Deliver? && DeliverStep(s, info, hash, e, s')
    ensures s'.clusters.Keys == s.clusters.Keys && WellFormed(s', info)
    ensures s' == s.(clusters := s'.clusters, done := s'.done) && e.at in s.clusters && e.m in s.sent && e.m.keys != []
            && (forall k <- e.m.keys :: k in e.m.dump)
    ensures s'.done == if Applies(s, info, hash, e) then s.done + {e.m} else s.done
    ensures forall id | id in s.clusters ::
              && s'.clusters[id].locked == s.clusters[id].locked
              && Get(s'.clusters[id].data, k) ==
                   if id == e.at && Applies(s, info, hash, e) && k in e.m.keys then Some(e.m.dump[k])
                   else Get(s.clusters[id].data, k)
  {
    hide ConfigOk, ImportKeys;
    ImportAt(s.clusters[e.at], info, hash, e.m, k);
  }

  lemma DeliverView(s: State, info: Info, hash: Hash, e: Event, s': State, k: Key)
    requires ConfigOk(info) && Inv(s, info, hash) && e.Deliver? && DeliverStep(s, info, hash, e, s')
             && Moves(info, hash(k))
    ensures WellFormed(s', info)
    ensures var v, v' := View(s, info, hash, k), View(s', info, hash, k);
            if Applies(s, info, hash, e) && k in e.m.keys
            then v' == v.(dst := Some(e.m.dump[k])) && v.first == Some(e.m.dump[k])
            else v' == v
  {
    DeliverTouches(s, info, hash, e, s', k);
    MoveEnds(s, info, hash(k));
    if k in e.m.keys { SentMoves(s, info, hash, e.m, k); }
    hide ConfigOk, DeliverStep, Inv, WellFormed, Applies;
  }

  lemma UnlockTouches(s: State, info: Info, hash: Hash, e: Event, s': State, k: Key)
    requires ConfigOk(info) && WellFormed(s, info) && e.UnlockApplied? && UnlockStep(s, info, hash, e, s')
    ensures e.m.keys != [] && e.at in s.clusters && info.migrating[hash(e.m.keys[0])] == Some(e.at) && e.m in s.done
    ensures s'.clusters.Keys == s.clusters.Keys && WellFormed(s', info) && s' == s.(clusters := s'.clusters)
    ensures forall id | id in s.clusters ::
              if id == e.at && k in e.m.keys then k !in s'.clusters[id].data && k !in s'.clusters[id].locked
              else Get(s'.clusters[id].data, k) == Get(s.clusters[id].data, k) &&
                   (k in s'.clusters[id].locked <==> k in s.clusters[id].locked)
  {
    hide ConfigOk;
  }

  /** A key that is unlocked has arrived at the destination, or was deleted there. */
  lemma UnlockView(s: State, info: Info, hash: Hash, e: Event, s': State, k: Key)
    requires ConfigOk(info) && Inv(s, info, hash) && e.UnlockApplied? && UnlockStep(s, info, hash, e, s')
             && Moves(info, hash(k))
    ensures WellFormed(s', info)
    ensures var v, v' := View(s, info, hash, k), View(s', info, hash, k);
            if k in e.m.keys then v' == v.(src := None, locked := false) && v.first.Some? && (v.dst.Some? || v.deleted)
            else v' == v
  {
    UnlockTouches(s, info, hash, e, s', k);
    MoveEnds(s, info, hash(k));
    if k in e.m.keys {
      SentMoves(s, info, hash, e.m, k);
      assert DoneOk(s, info, hash, e.m) && Arrived(s, info, hash, k);
    }
    hide ConfigOk, UnlockStep, Inv, WellFormed;
  }

  // ----- every step keeps the invariant -----

  lemma KeepsInv(s: State, info: Info, hash: Hash, e: Event, s': State)
    requires ConfigOk(info) && Inv(s, info, hash) && Step(s, info, hash, e, s')
    ensures Inv(s', info, hash)
  {
    hide ConfigOk, Inv, ClientStep, LockStep, DeliverStep, UnlockStep;
    match e
    case Client(_, _, _, _) => ClientKeepsInv(s, info, hash, e, s');
    case LockApplied(_, _, _) => LockKeepsInv(s, info, hash, e, s');
    case TermGrows(_, _) => TermKeepsInv(s, info, hash, e, s');
    case Deliver(_, _) => DeliverKeepsInv(s, info, hash, e, s');
    case UnlockApplied(_, _) => UnlockKeepsInv(s, info, hash, e, s');
  }

  lemma ClientKey(s: State, info: Info, hash: Hash, e: Event, s': State, k: Key)
    requires ConfigOk(info) && Inv(s, info, hash) && e.Client? && ClientStep(s, info, hash, e, s')
    ensures WellFormed(s', info) && KeyOk(s', info, hash, k)
    ensures Arrived(s, info, hash, k) ==> Arrived(s', info, hash, k)
  {
    assert KeyOk(s, info, hash, k);
    ClientOther(s, info, hash, e, s', k);
    if Moves(info, hash(k)) { ClientView(s, info, hash, e, s', k); }
    hide ConfigOk, ClientStep, Inv, View, LocksOk, Runs, WellFormed;
  }

  lemma ClientKeepsInv(s: State, info: Info, hash: Hash, e: Event, s': State)
    requires ConfigOk(info) && Inv(s, info, hash) && e.Client? && ClientStep(s, info, hash, e, s')
    ensures Inv(s', info, hash)
  {
    assert WellFormed(s, info);
    hide KeyOk, ConfigOk, ClientStep, Arrived;
    ClientOther(s, info, hash, e, s', "");
    forall k ensures KeyOk(s', info, hash, k) && (Arrived(s, info, hash, k) ==> Arrived(s', info, hash, k)) {
      ClientKey(s, info, hash, e, s', k);
    }
    forall m | m in s'.done ensures DoneOk(s', info, hash, m) { assert DoneOk(s, info, hash, m); }
    forall m | m in s'.sent ensures SentOk(s', info, hash, m) { assert SentOk(s, info, hash, m); }
  }

  lemma TermKeepsInv(s: State, info: Info, hash: Hash, e: Event, s': State)
    requires ConfigOk(info) && Inv(s, info, hash) && e.TermGrows? && Step(s, info, hash, e, s')
    ensures Inv(s', info, hash)
  {
    hide ConfigOk, ClientStep, LockStep;
    forall k ensures KeyOk(s', info, hash, k) { assert KeyOk(s, info, hash, k); }
    forall m | m in s'.done ensures DoneOk(s', info, hash, m) {
      assert DoneOk(s, info, hash, m);
      forall k <- m.keys ensures Arrived(s', info, hash, k) { assert Arrived(s, info, hash, k); }
    }
    forall m | m in s'.sent ensures SentOk(s', info, hash, m) { assert SentOk(s, info, hash, m); }
  }

  lemma LockLocks(s: State, info: Info, hash: Hash, e: Event, s': State, k: Key)
    requires ConfigOk(info) && WellFormed(s, info) && LocksOk(s, info, hash, k) && e.LockApplied?
             && LockStep(s, info, hash, e, s')
    ensures LocksOk(s', info, hash, k)
  {
    LockTouches(s, info, hash, e, s', k);
    if NewlyLocked(s, info, hash, e, k) { LockMoves(s, info, hash, e, k); }
    hide ConfigOk, LockStep, NewlyLocked, WellFormed;
  }

  lemma LockKey(s: State, info: Info, hash: Hash, e: Event, s': State, k: Key)
    requires ConfigOk(info) && Inv(s, info, hash) && e.LockApplied? && LockStep(s, info, hash, e, s')
    ensures WellFormed(s', info) && KeyOk(s', info, hash, k)
    ensures Arrived(s, info, hash, k) ==> Arrived(s', info, hash, k)
    ensures NewlyLocked(s, info, hash, e, k) ==> Get(s'.lockVal, k) == Get(s.clusters[e.at].data, k)
  {
    assert KeyOk(s, info, hash, k);
    LockWellFormed(s, info, hash, e, s');
    LockTouches(s, info, hash, e, s', k);
    LockLocks(s, info, hash, e, s', k);
    if NewlyLocked(s, info, hash, e, k) { LockMoves(s, info, hash, e, k); MoveEnds(s, info, hash(k)); }
    if Moves(info, hash(k)) { LockView(s, info, hash, e, s', k); }
    hide ConfigOk, LockStep, Inv, NewlyLocked, WellFormed, LocksOk;
  }

  lemma LockSent(s: State, info: Info, hash: Hash, e: Event, s': State, m: Import)
    requires ConfigOk(info) && Inv(s, info, hash) && e.LockApplied? && LockStep(s, info, hash, e, s') && m in s'.sent
    ensures SentOk(s', info, hash, m)
  {
    if m in s.sent {
      assert SentOk(s, info, hash, m);
      forall k <- m.keys
        ensures k in s'.lockVal && s'.lockVal[k] == s.lockVal[k] { LockTouches(s, info, hash, e, s', k); }
    } else {
      forall k <- m.keys ensures k in s'.lockVal && s'.lockVal[k] == s.clusters[e.at].data[k] {
        LockKey(s, info, hash, e, s', k);
      }
    }
    hide ConfigOk, Inv;
  }

  lemma LockKeepsInv(s: State, info: Info, hash: Hash, e: Event, s': State)
    requires ConfigOk(info) && Inv(s, info, hash) && e.LockApplied? && LockStep(s, info, hash, e, s')
    ensures Inv(s', info, hash)
  {
    assert WellFormed(s, info);
    hide ConfigOk, LockStep, KeyOk, SentOk, Arrived;
    LockWellFormed(s, info, hash, e, s');
    LockTouches(s, info, hash, e, s', "");
    forall k ensures KeyOk(s', info, hash, k) && (Arrived(s, info, hash, k) ==> Arrived(s', info, hash, k)) {
      LockKey(s, info, hash, e, s', k);
    }
    forall m | m in s'.sent ensures SentOk(s', info, hash, m) { LockSent(s, info, hash, e, s', m); }
    forall m | m in s'.done ensures DoneOk(s', info, hash, m) { assert DoneOk(s, info, hash, m); }
  }

  lemma DeliverLocks(s: State, info: Info, hash: Hash, e: Event, s': State, k: Key)
    requires ConfigOk(info) && WellFormed(s, info) && LocksOk(s, info, hash, k) && e.Deliver?
             && DeliverStep(s, info, hash, e, s')
    ensures LocksOk(s', info, hash, k)
  {
    DeliverTouches(s, info, hash, e, s', k);
    hide ConfigOk, DeliverStep, WellFormed, Applies;
  }

  lemma DeliverKey(s: State, info: Info, hash: Hash, e: Event, s': State, k: Key)
    requires ConfigOk(info) && Inv(s, info, hash) && e.Deliver? && DeliverStep(s, info, hash, e, s')
    ensures WellFormed(s', info) && KeyOk(s', info, hash, k)
    ensures Arrived(s, info, hash, k) ==> Arrived(s', info, hash, k)
    ensures Applies(s, info, hash, e) && k in e.m.keys ==> Arrived(s', info, hash, k)
  {
    assert KeyOk(s, info, hash, k);
    DeliverLocks(s, info, hash, e, s', k);
    DeliverTouches(s, info, hash, e, s', k);
    if k in e.m.keys { SentMoves(s, info, hash, e.m, k); }
    if Moves(info, hash(k)) { DeliverView(s, info, hash, e, s', k); }
    hide ConfigOk, DeliverStep, Inv, View, WellFormed, Applies, LocksOk;
  }

  lemma DeliverKeepsInv(s: State, info: Info, hash: Hash, e: Event, s': State)
    requires ConfigOk(info) && Inv(s, info, hash) && e.Deliver? && DeliverStep(s, info, hash, e, s')
    ensures Inv(s', info, hash)
  {
    hide KeyOk, DeliverStep, ConfigOk, Arrived, Applies;
    DeliverTouches(s, info, hash, e, s', "");
    forall k
      ensures KeyOk(s', info, hash, k) && (Arrived(s, info, hash, k) ==> Arrived(s', info, hash, k))
      ensures Applies(s, info, hash, e) && k in e.m.keys ==> Arrived(s', info, hash, k)
    {
      DeliverKey(s, info, hash, e, s', k);
    }
    forall m | m in s'.done ensures DoneOk(s', info, hash, m) {
      if m in s.done { assert DoneOk(s, info, hash, m); }
    }
    forall m | m in s'.sent ensures SentOk(s', info, hash, m) { assert SentOk(s, info, hash, m); }
  }

  lemma UnlockLocks(s: State, info: Info, hash: Hash, e: Event, s': State, k: Key)
    requires ConfigOk(info) && WellFormed(s, info) && LocksOk(s, info, hash, k) && e.UnlockApplied?
             && UnlockStep(s, info, hash, e, s')
    ensures LocksOk(s', info, hash, k)
  {
    UnlockTouches(s, info, hash, e, s', k);
    hide ConfigOk, UnlockStep, WellFormed;
  }

  lemma UnlockKey(s: State, info: Info, hash: Hash, e: Event, s': State, k: Key)
    requires ConfigOk(info) && Inv(s, info, hash) && e.UnlockApplied? && UnlockStep(s, info, hash, e, s')
    ensures WellFormed(s', info) && KeyOk(s', info, hash, k)
    ensures Arrived(s, info, hash, k) ==> Arrived(s', info, hash, k)
  {
    assert KeyOk(s, info, hash, k);
    UnlockLocks(s, info, hash, e, s', k);
    UnlockTouches(s, info, hash, e, s', k);
    if Moves(info, hash(k)) { UnlockView(s, info, hash, e, s', k); }
    hide ConfigOk, UnlockStep, Inv, View, WellFormed, LocksOk;
  }

  lemma UnlockKeepsInv(s: State, info: Info, hash: Hash, e: Event, s': State)
    requires ConfigOk(info) && Inv(s, info, hash) && e.UnlockApplied? && UnlockStep(s, info, hash, e, s')
    ensures Inv(s', info, hash)
  {
    hide KeyOk, UnlockStep, ConfigOk, Arrived;
    UnlockTouches(s, info, hash, e, s', "");
    forall k ensures KeyOk(s', info, hash, k) && (Arrived(s, info, hash, k) ==> Arrived(s', info, hash, k)) {
      UnlockKey(s, info, hash, e, s', k);
    }
    forall m | m in s'.done ensures DoneOk(s', info, hash, m) { assert DoneOk(s, info, hash, m); }
    forall m | m in s'.sent ensures SentOk(s', info, hash, m) { assert SentOk(s, info, hash, m); }
  }

  // ----- whole runs -----

  /** Nothing is locked or under way, and clusters hold no keys of slots they are about to import. */
  ghost predicate Initial(s: State, info: Info, hash: Hash)
    requires ConfigOk(info)
  {
    && WellFormed(s, info) && s.sent == {} && s.done == {} && s.lockVal == map[] && s.deleted == {}
    && (forall id | id in s.clusters :: s.clusters[id].locked == {})
    && (forall id, k | id in s.clusters && k in s.clusters[id].data && Moves(info, hash(k)) ::
         info.importing[hash(k)] != Some(id))
  }

  ghost predicate Run(states: seq<State>, events: seq<Event>, info: Info, hash: Hash)
    requires ConfigOk(info)
  {
    && |states| == |events| + 1 && Initial(states[0], info, hash)
    && forall i | 0 <= i < |events| ::
         WellFormed(states[i], info) && Step(states[i], info, hash, events[i], states[i + 1])
  }

  lemma InitialOk(s: State, info: Info, hash: Hash)
    requires ConfigOk(info) && Initial(s, info, hash)
    ensures Inv(s, info, hash)
  {
    forall k ensures KeyOk(s, info, hash, k) {
      if Moves(info, hash(k)) { MoveEnds(s, info, hash(k)); }
    }
  }

  lemma {:induction false} RunKeepsInv(states: seq<State>, events: seq<Event>, info: Info, hash: Hash, n: nat)
    requires ConfigOk(info) && Run(states, events, info, hash) && n < |states|
    ensures Inv(states[n], info, hash)
  {
    hide ConfigOk, Initial, Step, Inv;
    if n == 0 {
      InitialOk(states[0], info, hash);
    } else {
      RunKeepsInv(states, events, info, hash, n - 1);
      KeepsInv(states[n - 1], info, hash, events[n - 1], states[n]);
    }
  }

  ghost predicate Executable(s: State, info: Info, hash: Hash, at: string, k: Key)
    requires ConfigOk(info)
  {
    at in s.clusters && exists asking :: Admit(s.clusters[at], info, hash, asking, [k]) == Execute
  }

  lemma ExecutableMeans(s: State, info: Info, hash: Hash, at: string, k: Key)
    requires ConfigOk(info) && WellFormed(s, info) && Executable(s, info, hash, at, k)
    ensures info.stable[hash(k)].Some? ==> info.stable[hash(k)] == Some(at)
    ensures info.stable[hash(k)].None? ==>
              && (info.migrating[hash(k)] == Some(at) || info.importing[hash(k)] == Some(at))
              && k in s.clusters[at].data && k !in s.clusters[at].locked
  {
    var asking :| Admit(s.clusters[at], info, hash, asking, [k]) == Execute;
    ExecuteMeans(s.clusters[at], info, hash(k), asking, [k]);
  }

  /** In every state of every run, a key can be used on one cluster at most. */
  lemma OneExecutor(states: seq<State>, events: seq<Event>, info: Info, hash: Hash, n: nat, k: Key, x: string,
                    y: string)
    requires ConfigOk(info) && Run(states, events, info, hash) && n < |states|
    requires Executable(states[n], info, hash, x, k) && Executable(states[n], info, hash, y, k)
    ensures x == y
  {
    var s := states[n];
    RunKeepsInv(states, events, info, hash, n);
    assert KeyOk(s, info, hash, k);
    ExecutableMeans(s, info, hash, x, k);
    ExecutableMeans(s, info, hash, y, k);
    hide ConfigOk, Run, Executable;
  }

  lemma LockValKept(s: State, info: Info, hash: Hash, e: Event, s': State, k: Key)
    requires ConfigOk(info) && WellFormed(s, info) && Step(s, info, hash, e, s') && k in s.lockVal
    ensures k in s'.lockVal && s'.lockVal[k] == s.lockVal[k]
  {
    hide ConfigOk;
  }

  lemma {:induction false} LockValStays(states: seq<State>, events: seq<Event>, info: Info, hash: Hash, i: nat, j: nat,
                                        k: Key)
    requires ConfigOk(info) && Run(states, events, info, hash) && i <= j < |states| && k in states[i].lockVal
    ensures k in states[j].lockVal && states[j].lockVal[k] == states[i].lockVal[k]
    decreases j
  {
    hide ConfigOk, Initial, Step;
    if i < j {
      LockValStays(states, events, info, hash, i, j - 1, k);
      LockValKept(states[j - 1], info, hash, events[j - 1], states[j], k);
    }
  }

  /** From the moment a key is locked at its source: as long as it is there it is locked and its value does
      not change, and once it is gone it is at the destination, unless a client has deleted it. */
  lemma LockedKeyIsSafe(states: seq<State>, events: seq<Event>, info: Info, hash: Hash, i: nat, j: nat, k: Key,
                        at: string)
    requires ConfigOk(info) && Run(states, events, info, hash) && i <= j < |states|
    requires at in states[i].clusters && k in states[i].clusters[at].locked
    ensures Moves(info, hash(k)) && info.migrating[hash(k)] == Some(at) && k in states[i].clusters[at].data
    ensures at in states[j].clusters && info.importing[hash(k)].value in states[j].clusters
    ensures k in states[j].clusters[at].data ==>
              k in states[j].clusters[at].locked && states[j].clusters[at].data[k] == states[i].clusters[at].data[k]
    ensures k !in states[j].clusters[at].data ==>
              k in states[j].clusters[info.importing[hash(k)].value].data || k in states[j].deleted
  {
    RunKeepsInv(states, events, info, hash, i);
    RunKeepsInv(states, events, info, hash, j);
    assert KeyOk(states[i], info, hash, k) && KeyOk(states[j], info, hash, k);
    LockedMoves(states[i], info, hash, k, at);
    MoveEnds(states[i], info, hash(k));
    MoveEnds(states[j], info, hash(k));
    LockValStays(states, events, info, hash, i, j, k);
    hide ConfigOk, Run;
  }

  lemma LockedMoves(s: State, info: Info, hash: Hash, k: Key, at: string)
    requires ConfigOk(info) && WellFormed(s, info) && KeyOk(s, info, hash, k) && at in s.clusters
             && k in s.clusters[at].locked
    ensures Moves(info, hash(k)) && info.migrating[hash(k)] == Some(at) && k in s.lockVal
  {
  }

  // ----- fencing -----

  lemma TermsKept(s: State, info: Info, hash: Hash, e: Event, s': State, at: string, slot: nat)
    requires ConfigOk(info) && WellFormed(s, info) && Step(s, info, hash, e, s') && at in s.clusters && slot < SLOTS
    ensures at in s'.clusters && |s'.clusters[at].terms| == SLOTS
            && s.clusters[at].terms[slot] <= s'.clusters[at].terms[slot]
  {
    hide ConfigOk, Route;
  }

  lemma {:induction false} TermsGrow(states: seq<State>, events: seq<Event>, info: Info, hash: Hash, i: nat, j: nat,
                                     at: string, slot: nat)
    requires ConfigOk(info) && Run(states, events, info, hash) && i <= j < |states| && at in states[i].clusters
             && slot < SLOTS
    requires |states[i].clusters[at].terms| == SLOTS
    ensures at in states[j].clusters && |states[j].clusters[at].terms| == SLOTS
    ensures states[i].clusters[at].terms[slot] <= states[j].clusters[at].terms[slot]
    decreases j
  {
    hide ConfigOk, Initial, Step;
    if i < j {
      TermsGrow(states, events, info, hash, i, j - 1, at, slot);
      TermsKept(states[j - 1], info, hash, events[j - 1], states[j], at, slot);
    }
  }

  lemma AppliedSetsTerm(s: State, info: Info, hash: Hash, e: Event, s': State)
    requires WellFormed(s, info) && e.Deliver? && DeliverStep(s, info, hash, e, s') && Applies(s, info, hash, e)
    ensures e.at in s'.clusters && s'.clusters[e.at].terms == s.clusters[e.at].terms[hash(e.m.keys[0]) := e.m.term]
  {
  }

  lemma OldTermIgnored(s: State, info: Info, hash: Hash, e: Event, s': State)
    requires WellFormed(s, info) && e.Deliver? && DeliverStep(s, info, hash, e, s')
    requires e.m.term < s.clusters[e.at].terms[hash(e.m.keys[0])]
    ensures s' == s
  {
  }

  /** Once a cluster has applied an import, an import of the slot with a lower term changes nothing. */
  lemma StaleImportIgnored(states: seq<State>, events: seq<Event>, info: Info, hash: Hash, i: nat, j: nat)
    requires ConfigOk(info) && Run(states, events, info, hash) && i < j < |events|
    requires events[i].Deliver? && events[j].Deliver? && events[i].at == events[j].at
             && events[j].m.term < events[i].m.term
    requires events[i].m.keys != [] && events[j].m.keys != [] && hash(events[i].m.keys[0]) == hash(events[j].m.keys[0])
    requires WellFormed(states[i], info) && Applies(states[i], info, hash, events[i])
    ensures states[j + 1] == states[j]
  {
    var at, slot := events[i].at, hash(events[i].m.keys[0]);
    assert Step(states[i], info, hash, events[i], states[i + 1])
      && Step(states[j], info, hash, events[j], states[j + 1]);
    hide ConfigOk, Applies, DeliverStep, Run;
    AppliedSetsTerm(states[i], info, hash, events[i], states[i + 1]);
    assert |states[i].clusters[at].terms| == SLOTS;
    TermsGrow(states, events, info, hash, i + 1, j, at, slot);
    OldTermIgnored(states[j], info, hash, events[j], states[j + 1]);
  }

  // ----- one value per key -----

  /** Who answers for a key whose slot does not move: its stable, migrating or importing owner. */
  function Holder(info: Info, slot: nat): Option<string>
    requires info.WellFormed() && slot < SLOTS
  {
    if info.stable[slot].Some? then info.stable[slot]
    else if info.migrating[slot].Some? then info.migrating[slot]
    else info.importing[slot]
  }

  /** The destination answers for a moving key from the moment it has been imported, the source until then. */
  ghost predicate ViewTrue(v: KeyView) {
    && (v.src.Some? && v.first.None? ==> !v.deleted)
    && v.truth == if v.first.Some? && (v.dst.Some? || v.deleted) then v.dst else v.src
  }

  /** The value a key has for its clients is the one stored by the cluster responsible for it. */
  ghost predicate TruthAt(s: State, info: Info, hash: Hash, k: Key)
    requires WellFormed(s, info) && ConfigOk(info)
  {
    if Moves(info, hash(k)) then ViewTrue(View(s, info, hash, k))
    else
      var id := Holder(info, hash(k));
      id.Some? && id.value in s.clusters ==> Get(s.truth, k) == Get(s.clusters[id.value].data, k)
  }

  /** Applying an import does no harm to a key that the destination does not have yet, or has with the value
      imported. */
  ghost predicate Harmless(s: State, info: Info, hash: Hash, m: Import, k: Key)
    requires WellFormed(s, info) && ConfigOk(info)
  {
    && Moves(info, hash(k)) && k in m.dump
    && var v := View(s, info, hash, k);
       v.dst == Some(m.dump[k]) || (v.dst == None && !v.deleted)
  }

  /** No import is applied to keys whose clients have moved on at the destination. */
  ghost predicate Polite(s: State, info: Info, hash: Hash, e: Event)
    requires WellFormed(s, info) && ConfigOk(info)
  {
    e.Deliver? && Applies(s, info, hash, e) ==> forall k <- e.m.keys :: Harmless(s, info, hash, e.m, k)
  }

  /** Where a command runs, its keys have their current values. */
  lemma RunsOnTruth(s: State, info: Info, hash: Hash, e: Event, k: Key)
    requires ConfigOk(info) && Inv(s, info, hash) && TruthAt(s, info, hash, k)
    requires e.Client? && e.at in s.clusters && k in e.keys && Runs(s, info, hash, e)
    ensures Get(s.truth, k) == Get(s.clusters[e.at].data, k)
    ensures !Moves(info, hash(k)) ==> Holder(info, hash(k)) == Some(e.at)
  {
    ExecuteMeans(s.clusters[e.at], info, hash(e.keys[0]), e.asking, e.keys);
    assert KeyOk(s, info, hash, k);
    if Moves(info, hash(k)) { MoveEnds(s, info, hash(k)); }
    hide ConfigOk, Runs, Inv, WellFormed;
  }

  lemma ClientTruth(s: State, info: Info, hash: Hash, e: Event, s': State, k: Key)
    requires ConfigOk(info) && Inv(s, info, hash) && TruthAt(s, info, hash, k)
    requires e.Client? && ClientStep(s, info, hash, e, s') && Runs(s, info, hash, e)
    ensures WellFormed(s', info) && TruthAt(s', info, hash, k)
  {
    ExecutedWellFormed(s, info, e);
    if Moves(info, hash(k)) {
      MovingClientTruth(s, info, hash, e, s', k);
    } else {
      ExecutedAt(s, e, k);
      if k in e.writes { RunsOnTruth(s, info, hash, e, k); }
      hide ConfigOk, Runs, Inv, Polite, Executed, WellFormed;
    }
  }

  lemma MovingClientTruth(s: State, info: Info, hash: Hash, e: Event, s': State, k: Key)
    requires ConfigOk(info) && Inv(s, info, hash) && TruthAt(s, info, hash, k)
    requires e.Client? && ClientStep(s, info, hash, e, s') && Moves(info, hash(k)) && WellFormed(s', info)
    ensures TruthAt(s', info, hash, k)
  {
    assert KeyOk(s, info, hash, k);
    ClientView(s, info, hash, e, s', k);
    hide ConfigOk, Runs, Inv, ClientStep, View, WellFormed;
  }

  lemma LockTruth(s: State, info: Info, hash: Hash, e: Event, s': State, k: Key)
    requires ConfigOk(info) && Inv(s, info, hash) && TruthAt(s, info, hash, k) && e.LockApplied?
             && LockStep(s, info, hash, e, s')
    ensures WellFormed(s', info) && TruthAt(s', info, hash, k)
  {
    LockWellFormed(s, info, hash, e, s');
    assert KeyOk(s, info, hash, k);
    if Moves(info, hash(k)) {
      LockView(s, info, hash, e, s', k);
      hide ConfigOk, LockStep, Inv, View, WellFormed, LocksOk, NewlyLocked;
      assert TruthAt(s', info, hash, k);
    } else {
      LockTouches(s, info, hash, e, s', k);
      hide ConfigOk, LockStep, Inv, View, LocksOk, NewlyLocked;
      assert TruthAt(s', info, hash, k);
    }
    hide ConfigOk, LockStep, Inv, View, WellFormed, LocksOk, TruthAt;
  }

  /** A delivered import keeps a key's value for its clients exactly when it is ignored, does not name the
      key, or is harmless to it. */
  lemma DeliverTruth(s: State, info: Info, hash: Hash, e: Event, s': State, k: Key)
    requires ConfigOk(info) && Inv(s, info, hash) && TruthAt(s, info, hash, k) && e.Deliver?
             && DeliverStep(s, info, hash, e, s')
    ensures WellFormed(s', info)
    ensures TruthAt(s', info, hash, k) <==>
            (Applies(s, info, hash, e) && k in e.m.keys ==> Harmless(s, info, hash, e.m, k))
  {
    assert KeyOk(s, info, hash, k);
    DeliverTouches(s, info, hash, e, s', k);
    if k in e.m.keys { SentMoves(s, info, hash, e.m, k); }
    if Moves(info, hash(k)) { DeliverView(s, info, hash, e, s', k); }
    hide ConfigOk, DeliverStep, Inv, View, WellFormed, Applies;
  }

  lemma UnlockTruth(s: State, info: Info, hash: Hash, e: Event, s': State, k: Key)
    requires ConfigOk(info) && Inv(s, info, hash) && TruthAt(s, info, hash, k) && e.UnlockApplied?
             && UnlockStep(s, info, hash, e, s')
    ensures WellFormed(s', info) && TruthAt(s', info, hash, k)
  {
    UnlockTouches(s, info, hash, e, s', k);
    if k in e.m.keys { SentMoves(s, info, hash, e.m, k); }
    if Moves(info, hash(k)) { UnlockView(s, info, hash, e, s', k); }
    hide ConfigOk, UnlockStep, Inv, View, WellFormed;
  }

  lemma TermTruth(s: State, info: Info, hash: Hash, e: Event, s': State, k: Key)
    requires ConfigOk(info) && WellFormed(s, info) && TruthAt(s, info, hash, k) && e.TermGrows?
             && Step(s, info, hash, e, s')
    ensures WellFormed(s', info) && TruthAt(s', info, hash, k)
  {
    hide ConfigOk, ClientStep, LockStep;
  }

  lemma KeepsTruth(s: State, info: Info, hash: Hash, e: Event, s': State, k: Key)
    requires ConfigOk(info) && Inv(s, info, hash) && TruthAt(s, info, hash, k) && Polite(s, info, hash, e)
    requires Step(s, info, hash, e, s')
    ensures WellFormed(s', info) && TruthAt(s', info, hash, k)
  {
    assert WellFormed(s, info) && Routable(info);
    hide ConfigOk, TruthAt, Inv, Runs, DeliverStep, UnlockStep, LockStep;
    match e
    case Client(_, _, _, _) => if Runs(s, info, hash, e) { ClientTruth(s, info, hash, e, s', k); }
    case LockApplied(_, _, _) => LockTruth(s, info, hash, e, s', k);
    case TermGrows(_, _) => TermTruth(s, info, hash, e, s', k);
    case Deliver(_, _) => DeliverTruth(s, info, hash, e, s', k);
    case UnlockApplied(_, _) => UnlockTruth(s, info, hash, e, s', k);
  }

  lemma {:induction false} RunKeepsTruth(states: seq<State>, events: seq<Event>, info: Info, hash: Hash, n: nat, k: Key)
    requires ConfigOk(info) && Run(states, events, info, hash) && n < |states| && TruthAt(states[0], info, hash, k)
    requires forall i | 0 <= i < n :: Polite(states[i], info, hash, events[i])
    ensures WellFormed(states[n], info) && TruthAt(states[n], info, hash, k)
  {
    hide ConfigOk, Step, Inv, TruthAt, Polite;
    if n > 0 {
      RunKeepsTruth(states, events, info, hash, n - 1, k);
      RunKeepsInv(states, events, info, hash, n - 1);
      assert Polite(states[n - 1], info, hash, events[n - 1]);
      KeepsTruth(states[n - 1], info, hash, events[n - 1], states[n], k);
    }
  }

  /** As long as no import is applied to keys that clients have changed at the destination since, migration is
      invisible: each command that runs, on whichever cluster, finds in each of its keys the value that the
      last command to write it left there. */
  lemma MigrationIsTransparent(states: seq<State>, events: seq<Event>, info: Info, hash: Hash, n: nat, k: Key)
    requires ConfigOk(info) && Run(states, events, info, hash) && n < |events| && TruthAt(states[0], info, hash, k)
    requires forall i | 0 <= i < n :: Polite(states[i], info, hash, events[i])
    requires events[n].Client? && events[n].at in states[n].clusters && k in events[n].keys
             && Runs(states[n], info, hash, events[n])
    ensures Get(states[n].clusters[events[n].at].data, k) == Get(states[n].truth, k)
  {
    RunKeepsTruth(states, events, info, hash, n, k);
    RunKeepsInv(states, events, info, hash, n);
    assert Step(states[n], info, hash, events[n], states[n + 1]);
    hide Polite, Inv, TruthAt, ConfigOk, Run, Runs;
    RunsOnTruth(states[n], info, hash, events[n], k);
  }

  /** Two ranges of a consistent list that share a slot are the same range, or import and migrate it. */
  lemma SharedSlot(gs: seq<ShardGroup>, i: nat, a: nat, j: nat, b: nat, slot: int)
    requires Consistent(gs) && i < |gs| && j < |gs| && a < |gs[i].ranges| && b < |gs[j].ranges| && 0 <= slot < SLOTS
    requires Covers(gs[i].ranges[a], slot) && Covers(gs[j].ranges[b], slot)
    ensures (i == j && a == b) || MayShare(gs[i].ranges[a], gs[j].ranges[b])
  {
    if i < j {
      assert GroupsConsistent(gs[i], gs[j]) && Together(gs[i].ranges[a], gs[j].ranges[b]);
    } else if j < i {
      assert GroupsConsistent(gs[j], gs[i]) && Together(gs[j].ranges[b], gs[i].ranges[a]);
    } else {
      assert GroupConsistent(gs[i]);
      if a < b { assert Together(gs[i].ranges[a], gs[i].ranges[b]); }
      if b < a { assert Together(gs[i].ranges[b], gs[i].ranges[a]); }
    }
  }

  lemma StableExcludes(gs: seq<ShardGroup>, stable: seq<Option<string>>, m: seq<Option<string>>, kind: Kind, slot: int)
    requires Consistent(gs) && MapOk(stable, gs, Stable) && MapOk(m, gs, kind) && kind != Stable && 0 <= slot < SLOTS
    requires stable[slot].Some?
    ensures m[slot] == None
  {
    var i :| 0 <= i < |gs| && gs[i].id == stable[slot].value && Claims(gs[i], Stable, slot);
    var a := ClaimedRange(gs[i], Stable, slot);
    forall j, b | 0 <= j < |gs| && 0 <= b < |gs[j].ranges|
      ensures !(gs[j].ranges[b].kind == kind && Covers(gs[j].ranges[b], slot)) {
      if Covers(gs[j].ranges[b], slot) { SharedSlot(gs, i, a, j, b, slot); }
    }
  }

  lemma MapOwners(gs: seq<ShardGroup>, info: Info, m: seq<Option<string>>, kind: Kind)
    requires Represents(info, gs) && MapOk(m, gs, kind)
    ensures OwnersClaim(info, m, kind)
    ensures forall id, slot | id in info.groups && 0 <= slot < SLOTS && Claims(info.groups[id], kind, slot) ::
              m[slot] == Some(id)
  {
    forall id, slot | id in info.groups && 0 <= slot < SLOTS && Claims(info.groups[id], kind, slot)
      ensures m[slot] == Some(id) {
      var i :| 0 <= i < |gs| && gs[i].id == id;
      assert Claims(gs[i], kind, slot);
    }
  }

  /** A consistent list of groups gives such a configuration, if routing is on. */
  lemma ConsistentConfig(gs: seq<ShardGroup>, info: Info)
    requires Consistent(gs) && Represents(info, gs) && info.sharding
    ensures ConfigOk(info)
  {
    MapOwners(gs, info, info.stable, Stable);
    MapOwners(gs, info, info.importing, Importing);
    MapOwners(gs, info, info.migrating, Migrating);
    forall slot | 0 <= slot < SLOTS && info.stable[slot].Some?
      ensures info.importing[slot] == None && info.migrating[slot] == None {
      StableExcludes(gs, info.stable, info.importing, Importing, slot);
      StableExcludes(gs, info.stable, info.migrating, Migrating, slot);
    }
    forall id | id in info.groups ensures GroupOk(info.groups[id]) {
      var i :| 0 <= i < |gs| && gs[i].id == id;
      assert GroupOk(gs[i]);
    }
    hide GroupOk, MapOk, Claims, OwnersClaim, Represents, Consistent;
  }

  /** Routing is on in every configuration in which anyone imports or migrates a slot. */
  lemma MovingIsRouted(gs: seq<ShardGroup>, sharding: bool, dbid: string, slot: nat)
    requires AllOk(gs) && AddAll(Empty(sharding), gs, dbid).Some? && slot < SLOTS
    requires var info := AddAll(Empty(sharding), gs, dbid).value;
             info.importing[slot].Some? || info.migrating[slot].Some?
    ensures AddAll(Empty(sharding), gs, dbid).value.sharding
  {
    hide AddAll;
    AddedIff(gs, sharding, dbid);
    RoutingAfter(gs, sharding, dbid);
  }
}
