/** Where commands are carried out, said from the slot maps and from the keys' presence and locks alone, and where a
    client that follows redirections ends up. */
module Routing {
  import opened Wrappers
  import opened SlotMaps
  import opened KeySpace
  import opened Migration

  predicate AllThere(c: Cluster, keys: seq<Key>) { forall k <- keys :: k in c.data }

  predicate NoneThere(c: Cluster, keys: seq<Key>) { forall k <- keys :: k !in c.data }

  predicate AnyLocked(c: Cluster, keys: seq<Key>) { exists k <- keys :: k in c.data && k in c.locked }

  /** The keys can be used here. */
  predicate Usable(c: Cluster, keys: seq<Key>) { AllThere(c, keys) && !AnyLocked(c, keys) }

  /** Keys of one slot, in a configuration with routing. */
  ghost predicate OnSlot(info: Info, hash: Hash, keys: seq<Key>, slot: nat) {
    ConfigOk(info) && slot < SLOTS && keys != [] && forall k <- keys :: hash(k) == slot
  }

  lemma Checked(c: Cluster, keys: seq<Key>)
    requires keys != []
    ensures CheckKeys(c.data, c.locked, keys) == AllExist <==> Usable(c, keys)
    ensures CheckKeys(c.data, c.locked, keys) == NoneExist <==> NoneThere(c, keys)
  {
    assert keys[0] in keys;
  }

  /** A group's first range over a slot has the one role the maps give the group there. */
  lemma KindIs(info: Info, id: string, slot: nat, kind: Kind)
    requires ConfigOk(info) && slot < SLOTS && kind != Unknown && info.Map(kind)[slot] == Some(id)
    requires forall other | other != kind && other != Unknown :: info.Map(other)[slot] != Some(id)
    ensures id in info.groups && RangeKind(info.groups[id].ranges, slot) == Some(kind)
  {
    assert Claims(info.groups[id], kind, slot);
    var ranges := info.groups[id].ranges;
    var k := ClaimedRange(info.groups[id], kind, slot);
    RangeKindFound(ranges, slot, k);
    var j := RangeOfKind(ranges, slot);
    assert GroupOk(info.groups[id]) && Claims(info.groups[id], ranges[j].kind, slot);
    assert info.Map(ranges[j].kind)[slot] == Some(id);
  }

  lemma OneKind(info: Info, hash: Hash, c: Cluster, asking: bool, keys: seq<Key>, slot: nat)
    requires OnSlot(info, hash, keys, slot)
    ensures Admit(c, info, hash, asking, keys) == Route(c, info, slot, asking, keys)
  {
    assert keys[0] in keys;
    hide ConfigOk, Route;
    assert OneSlot(hash, keys);
  }

  // ----- the laws -----

  /** A stable slot is served by its owner; every other cluster names the owner. */
  lemma StableSlot(info: Info, hash: Hash, c: Cluster, asking: bool, keys: seq<Key>, slot: nat)
    requires OnSlot(info, hash, keys, slot) && info.stable[slot].Some?
    ensures Admit(c, info, hash, asking, keys) ==
            if info.stable[slot].value == c.dbid then Execute else Moved(info.stable[slot].value)
  {
    OneKind(info, hash, c, asking, keys, slot);
    KindIs(info, info.stable[slot].value, slot, Stable);
  }

  /** A slot that nobody owns as stable or migrates is not served, except to requests that ask at its importer. */
  lemma UnownedSlot(info: Info, hash: Hash, c: Cluster, asking: bool, keys: seq<Key>, slot: nat)
    requires OnSlot(info, hash, keys, slot) && info.stable[slot].None? && info.migrating[slot].None?
    ensures Admit(c, info, hash, asking, keys) == ClusterDown <==> !(asking && info.importing[slot] == Some(c.dbid))
  {
    OneKind(info, hash, c, asking, keys, slot);
    if asking && info.importing[slot] == Some(c.dbid) { KindIs(info, c.dbid, slot, Importing); }
  }

  /** At the importer of a slot it does not migrate as well: a request that asks runs exactly if it can use all its
      keys there; one that does not ask is sent to the source. */
  lemma AtImporter(info: Info, hash: Hash, c: Cluster, asking: bool, keys: seq<Key>, slot: nat)
    requires OnSlot(info, hash, keys, slot) && info.stable[slot].None?
    requires info.importing[slot] == Some(c.dbid) && info.migrating[slot] != Some(c.dbid)
    ensures asking ==> Admit(c, info, hash, asking, keys) == if Usable(c, keys) then Execute else TryAgain
    ensures !asking && info.migrating[slot].Some? ==>
              Admit(c, info, hash, asking, keys) == Moved(info.migrating[slot].value)
  {
    OneKind(info, hash, c, asking, keys, slot);
    KindIs(info, c.dbid, slot, Importing);
    Checked(c, keys);
    if info.migrating[slot].Some? && info.importing[slot] != info.migrating[slot] {
      KindIs(info, info.migrating[slot].value, slot, Migrating);
    }
  }

  /** At the source of a slot it does not import as well: a request runs exactly if it can use all its keys there, and
      is sent to ask at the importer exactly if none is there. */
  lemma AtSource(info: Info, hash: Hash, c: Cluster, asking: bool, keys: seq<Key>, slot: nat)
    requires OnSlot(info, hash, keys, slot) && info.stable[slot].None?
    requires info.migrating[slot] == Some(c.dbid) && info.importing[slot] != Some(c.dbid)
    ensures Admit(c, info, hash, asking, keys) ==
            if Usable(c, keys) then Execute
            else if !NoneThere(c, keys) then TryAgain
            else if info.importing[slot].Some? then Ask(info.importing[slot].value)
            else NoImporter
  {
    OneKind(info, hash, c, asking, keys, slot);
    KindIs(info, c.dbid, slot, Migrating);
    Checked(c, keys);
    assert keys[0] in keys;
  }

  /** Any cluster that neither migrates the slot nor is asked as its importer names the source. */
  lemma ElsewhereMoved(info: Info, hash: Hash, c: Cluster, asking: bool, keys: seq<Key>, slot: nat)
    requires OnSlot(info, hash, keys, slot) && info.stable[slot].None?
    requires info.migrating[slot].Some? && info.migrating[slot].value != c.dbid
    requires !(asking && info.importing[slot] == Some(c.dbid))
    ensures Admit(c, info, hash, asking, keys) == Moved(info.migrating[slot].value)
  {
    OneKind(info, hash, c, asking, keys, slot);
    RouteAssociates(info, slot, asking, c.dbid);
  }

  /** A group may both migrate and import a slot: then the first of its ranges over the slot decides. */
  lemma AtBoth(info: Info, hash: Hash, c: Cluster, asking: bool, keys: seq<Key>, slot: nat)
    requires OnSlot(info, hash, keys, slot) && info.stable[slot].None?
    requires info.migrating[slot] == Some(c.dbid) && info.importing[slot] == Some(c.dbid)
    ensures Admit(c, info, hash, asking, keys) ==
            if Usable(c, keys) then Execute
            else if NoneThere(c, keys) && RangeKind(info.groups[c.dbid].ranges, slot) == Some(Migrating)
            then Ask(c.dbid) else TryAgain
  {
    OneKind(info, hash, c, asking, keys, slot);
    RouteAssociates(info, slot, asking, c.dbid);
    NotStable(info, c.dbid, slot);
    Checked(c, keys);
    assert keys[0] in keys;
  }

  /** Keys of two slots never run together, and commands without keys, or without routing, always run. */
  lemma SlotsDecide(info: Info, hash: Hash, c: Cluster, asking: bool, keys: seq<Key>)
    requires Routable(info)
    ensures Admit(c, info, hash, asking, keys) == CrossSlot <==>
            info.sharding && exists j, k | j in keys && k in keys :: hash(j) != hash(k)
    ensures !info.sharding || keys == [] ==> Admit(c, info, hash, asking, keys) == Execute
  {
    if keys != [] { assert keys[0] in keys; }
  }

  // ----- following redirections -----

  /** A client sends its request, and again wherever it is pointed to, at most `hops` times more: after ASK with the
      asking flag, after MOVED without.  Where it ends and with what answer. */
  function Follow(cl: map<string, Cluster>, info: Info, hash: Hash, at: string, asking: bool, keys: seq<Key>, hops: nat)
    : (string, Outcome)
    requires Routable(info) && at in cl
    decreases hops
  {
    var o := Admit(cl[at], info, hash, asking, keys);
    if hops == 0 then (at, o)
    else match o
      case Moved(id) => if id in cl then Follow(cl, info, hash, id, false, keys, hops - 1) else (at, o)
      case Ask(id) => if id in cl then Follow(cl, info, hash, id, true, keys, hops - 1) else (at, o)
      case _ => (at, o)
  }

  /** Every group's cluster is there, under its own name. */
  ghost predicate Reachable(cl: map<string, Cluster>, info: Info) {
    (forall id | id in info.groups :: id in cl) && forall id | id in cl :: cl[id].dbid == id
  }

  /** On a stable slot every client gets its commands carried out by the owner, one redirection away at most. */
  lemma FollowStable(cl: map<string, Cluster>, info: Info, hash: Hash, at: string, asking: bool, keys: seq<Key>,
                     slot: nat, hops: nat)
    requires OnSlot(info, hash, keys, slot) && Reachable(cl, info) && at in cl && hops >= 1
    requires info.stable[slot].Some?
    ensures Follow(cl, info, hash, at, asking, keys, hops) == (info.stable[slot].value, Execute)
  {
    var owner := info.stable[slot].value;
    StableSlot(info, hash, cl[at], asking, keys, slot);
    StableSlot(info, hash, cl[owner], false, keys, slot);
    hide Admit;
  }

  lemma OneHop(cl: map<string, Cluster>, info: Info, hash: Hash, at: string, asking: bool, keys: seq<Key>, hops: nat,
               id: string)
    requires Routable(info) && at in cl && id in cl && hops >= 1
    requires Admit(cl[at], info, hash, asking, keys) == Moved(id)
    ensures Follow(cl, info, hash, at, asking, keys, hops) == Follow(cl, info, hash, id, false, keys, hops - 1)
  {
    hide Admit, Routable;
  }

  /** On a moving slot, from any cluster and two redirections away at most: the commands are carried out exactly if all
      keys are at the source and usable, or none is there and all are usable at the importer. */
  lemma FollowMoving(cl: map<string, Cluster>, info: Info, hash: Hash, at: string, keys: seq<Key>, slot: nat, hops: nat)
    requires OnSlot(info, hash, keys, slot) && Reachable(cl, info) && at in cl && hops >= 2 && Moves(info, slot)
    ensures var src, dst := info.migrating[slot].value, info.importing[slot].value;
            && src in cl && dst in cl
            && Follow(cl, info, hash, at, false, keys, hops) ==
               if Usable(cl[src], keys) then (src, Execute)
               else if !NoneThere(cl[src], keys) then (src, TryAgain)
               else (dst, if Usable(cl[dst], keys) then Execute else TryAgain)
  {
    var src, dst := info.migrating[slot].value, info.importing[slot].value;
    OwnersPresent(cl, info, slot);
    if at != src {
      ElsewhereMoved(info, hash, cl[at], false, keys, slot);
      OneHop(cl, info, hash, at, false, keys, hops, src);
    }
    hide Follow, Usable, NoneThere, ConfigOk;
    FollowFromSource(cl, info, hash, keys, slot, if at == src then hops else hops - 1);
  }

  lemma OwnersPresent(cl: map<string, Cluster>, info: Info, slot: nat)
    requires ConfigOk(info) && Reachable(cl, info) && slot < SLOTS && Moves(info, slot)
    ensures info.migrating[slot].value in cl && info.importing[slot].value in cl
  {
  }

  lemma FollowFromSource(cl: map<string, Cluster>, info: Info, hash: Hash, keys: seq<Key>, slot: nat, hops: nat)
    requires OnSlot(info, hash, keys, slot) && Reachable(cl, info) && hops >= 1 && Moves(info, slot)
    ensures var src, dst := info.migrating[slot].value, info.importing[slot].value;
            && src in cl && dst in cl
            && Follow(cl, info, hash, src, false, keys, hops) ==
               if Usable(cl[src], keys) then (src, Execute)
               else if !NoneThere(cl[src], keys) then (src, TryAgain)
               else (dst, if Usable(cl[dst], keys) then Execute else TryAgain)
  {
    var src, dst := info.migrating[slot].value, info.importing[slot].value;
    OwnersPresent(cl, info, slot);
    AtSource(info, hash, cl[src], false, keys, slot);
    AtImporter(info, hash, cl[dst], true, keys, slot);
    hide Admit, Usable, NoneThere, ConfigOk;
  }

  // ----- in every state of every run -----

  lemma StatesReachable(s: State, info: Info)
    requires WellFormed(s, info)
    ensures Reachable(s.clusters, info)
  {
  }

  /** Of a moving key that source or importer holds unlocked: a client that follows redirections gets its command
      carried out exactly if the source does not hold the key locked. */
  lemma ClientReaches(states: seq<State>, events: seq<Event>, info: Info, hash: Hash, n: nat, k: Key, at: string)
    requires ConfigOk(info) && Run(states, events, info, hash) && n < |states| && Moves(info, hash(k))
    requires at in states[n].clusters
    ensures var s, src, dst := states[n], info.migrating[hash(k)].value, info.importing[hash(k)].value;
            && src in s.clusters && dst in s.clusters
            && var a, b := s.clusters[src], s.clusters[dst];
               var r := Follow(s.clusters, info, hash, at, false, [k], 2);
               && (r == (src, Execute) <==> k in a.data && k !in a.locked)
               && (r == (dst, Execute) <==> k !in a.data && k in b.data)
               && (r.1 == Execute ==> r.0 in {src, dst})
               && ((k in a.data && k !in a.locked) || (k in b.data && k !in b.locked) ==>
                     (r.1 == Execute <==> k !in a.locked))
  {
    var s, slot := states[n], hash(k);
    RunKeepsInv(states, events, info, hash, n);
    StatesReachable(s, info);
    FollowMoving(s.clusters, info, hash, at, [k], slot, 2);
    var a, b := s.clusters[info.migrating[slot].value], s.clusters[info.importing[slot].value];
    OneKey(a, k);
    OneKey(b, k);
    assert KeyOk(s, info, hash, k) && LocksOk(s, info, hash, k) && ViewOk(View(s, info, hash, k));
    hide ConfigOk, Run, Usable, NoneThere, Follow, Inv, KeyOk;
  }

  lemma OneKey(c: Cluster, k: Key)
    ensures Usable(c, [k]) <==> k in c.data && k !in c.locked
    ensures NoneThere(c, [k]) <==> k !in c.data
  {
    assert k in [k];
  }

  /** As long as no import is applied to keys that clients have changed at the destination since: a client that follows
      redirections, from any cluster, finds a moving key with its current value, unless it is locked for hand-over. */
  lemma ClientFindsValue(states: seq<State>, events: seq<Event>, info: Info, hash: Hash, n: nat, k: Key, at: string)
    requires ConfigOk(info) && Run(states, events, info, hash) && n < |states| && Moves(info, hash(k))
    requires TruthAt(states[0], info, hash, k) && at in states[n].clusters && k in states[n].truth
    requires forall i | 0 <= i < n :: Polite(states[i], info, hash, events[i])
    ensures var s := states[n];
            var r := Follow(s.clusters, info, hash, at, false, [k], 2);
            && info.migrating[hash(k)].value in s.clusters
            && (r.1 == Execute <==> k !in s.clusters[info.migrating[hash(k)].value].locked)
            && (r.1 == Execute ==> r.0 in s.clusters && Get(s.clusters[r.0].data, k) == Some(s.truth[k]))
  {
    hide ConfigOk, Run, Follow, Inv, TruthAt, Polite, WellFormed, Moves;
    var s := states[n];
    RunKeepsInv(states, events, info, hash, n);
    RunKeepsTruth(states, events, info, hash, n, k);
    ClientReaches(states, events, info, hash, n, k, at);
    UnlockedHolds(s, info, hash, k);
  }

  /** A key that its clients have and that the source does not hold locked has its value at the source, or at the
      importer if the source does not have it. */
  lemma UnlockedHolds(s: State, info: Info, hash: Hash, k: Key)
    requires ConfigOk(info) && Inv(s, info, hash) && TruthAt(s, info, hash, k) && Moves(info, hash(k)) && k in s.truth
    ensures var src, dst := info.migrating[hash(k)].value, info.importing[hash(k)].value;
            && src in s.clusters && dst in s.clusters
            && var a, b := s.clusters[src], s.clusters[dst];
               && (k !in a.locked ==> Get(if k in a.data then a.data else b.data, k) == Some(s.truth[k]))
               && (k in a.locked ==> k in a.data)
  {
    MoveEnds(s, info, hash(k));
    assert KeyOk(s, info, hash, k) && ViewOk(View(s, info, hash, k)) && ViewTrue(View(s, info, hash, k));
    hide ConfigOk, Inv, KeyOk, TruthAt;
  }
}
