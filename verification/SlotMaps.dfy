/** Shard groups and the three slot maps they build: what adding a group accepts and produces, what a
    list of groups must satisfy, and why the order in which a list is added does not matter. */
module SlotMaps {
  import opened Wrappers

  const SLOTS := 16384
  const ID_SIZE := 33

  datatype Kind = Stable | Importing | Migrating | Unknown
  datatype SlotRange = SlotRange(start: int, end: int, kind: Kind, session: int)
  datatype Node = Node(id: string, host: string, port: nat)
  datatype ShardGroup = ShardGroup(id: string, ranges: seq<SlotRange>, nodes: seq<Node>)

  /** The groups by id, the owner of each slot by kind, and whether requests are routed at all. */
  datatype Info = Info(
    groups: map<string, ShardGroup>, stable: seq<Option<string>>, importing: seq<Option<string>>,
    migrating: seq<Option<string>>, sharding: bool)
  {
    predicate WellFormed() { |stable| == SLOTS && |importing| == SLOTS && |migrating| == SLOTS }

    /** The map of a kind. */
    function Map(kind: Kind): seq<Option<string>> {
      match kind
      case Stable => stable
      case Importing => importing
      case Migrating => migrating
      case Unknown => stable
    }
  }

  predicate RangeValid(r: SlotRange) { 0 <= r.start < SLOTS && 0 <= r.end < SLOTS && r.start <= r.end }

  predicate Covers(r: SlotRange, slot: int) { r.start <= slot <= r.end }

  ghost predicate Claims(g: ShardGroup, kind: Kind, slot: int) {
    exists k :: 0 <= k < |g.ranges| && g.ranges[k].kind == kind && Covers(g.ranges[k], slot)
  }

  /** Ranges with a valid span and a known type, and an id that fits. */
  ghost predicate GroupOk(g: ShardGroup) {
    |g.id| < ID_SIZE && forall k | 0 <= k < |g.ranges| :: RangeValid(g.ranges[k]) && g.ranges[k].kind != Unknown
  }

  // ----- adding one group -----

  /** A range may take a slot that nobody owns as stable, and that nobody holds in the same role. */
  ghost predicate Free(info: Info, r: SlotRange, slot: int)
    requires info.WellFormed() && 0 <= slot < SLOTS
  {
    && info.stable[slot] == None
    && (r.kind == Migrating ==> info.migrating[slot] == None)
    && (r.kind == Importing ==> info.importing[slot] == None)
  }

  ghost predicate RangeAccepted(info: Info, r: SlotRange)
    requires info.WellFormed()
  {
    RangeValid(r) && forall slot | 0 <= slot < SLOTS && Covers(r, slot) :: Free(info, r, slot)
  }

  ghost predicate Accepts(info: Info, g: ShardGroup)
    requires info.WellFormed()
  {
    (forall k | 0 <= k < |g.ranges| :: RangeAccepted(info, g.ranges[k])) && |g.id| < ID_SIZE && g.id !in info.groups
  }

  ghost function Overlay(m: seq<Option<string>>, g: ShardGroup, kind: Kind): (r: seq<Option<string>>)
    ensures |r| == |m|
  {
    seq(|m|, slot requires 0 <= slot < |m| => if Claims(g, kind, slot) then Some(g.id) else m[slot])
  }

  /** One local group that owns every slot needs no routing. */
  predicate Whole(g: ShardGroup, dbid: string) {
    g.id == dbid && |g.ranges| == 1 && g.ranges[0].start == 0 && g.ranges[0].end == SLOTS - 1
      && g.ranges[0].kind == Stable
  }

  ghost function Added(info: Info, g: ShardGroup, dbid: string): (r: Info)
    requires info.WellFormed()
    ensures r.WellFormed()
  {
    Info(info.groups[g.id := g], Overlay(info.stable, g, Stable), Overlay(info.importing, g, Importing),
         Overlay(info.migrating, g, Migrating), info.sharding || info.groups != map[] || !Whole(g, dbid))
  }

  function Empty(sharding: bool): (r: Info)
    ensures r.WellFormed()
  {
    var none := seq(SLOTS, _ => None);
    Info(map[], none, none, none, sharding)
  }

  /** Adding a list, group by group; a refused group is an assertion failure. */
  ghost function AddAll(info: Info, gs: seq<ShardGroup>, dbid: string): (r: Option<Info>)
    requires info.WellFormed()
    ensures r.Some? ==> r.value.WellFormed()
    decreases |gs|
  {
    if gs == [] then Some(info)
    else if Accepts(info, gs[0]) then AddAll(Added(info, gs[0], dbid), gs[1..], dbid)
    else None
  }

  // ----- what a list must satisfy -----

  /** Two different ranges may share a slot only if one imports and the other migrates it. */
  predicate MayShare(a: SlotRange, b: SlotRange) {
    (a.kind == Importing && b.kind == Migrating) || (a.kind == Migrating && b.kind == Importing)
  }

  ghost predicate Disjoint(a: SlotRange, b: SlotRange) {
    forall slot | 0 <= slot < SLOTS :: !(Covers(a, slot) && Covers(b, slot))
  }

  ghost predicate Together(a: SlotRange, b: SlotRange) { MayShare(a, b) || Disjoint(a, b) }

  ghost predicate GroupConsistent(g: ShardGroup) {
    forall j, k | 0 <= j < k < |g.ranges| :: Together(g.ranges[j], g.ranges[k])
  }

  ghost predicate GroupsConsistent(g: ShardGroup, h: ShardGroup) {
    forall j, k | 0 <= j < |g.ranges| && 0 <= k < |h.ranges| :: Together(g.ranges[j], h.ranges[k])
  }

  ghost predicate PairwiseConsistent(gs: seq<ShardGroup>) {
    forall i, j | 0 <= i < j < |gs| :: GroupsConsistent(gs[i], gs[j])
  }

  /** Per slot: one stable range alone, or at most one importing and one migrating range. */
  ghost predicate Consistent(gs: seq<ShardGroup>) {
    && (forall i | 0 <= i < |gs| :: GroupOk(gs[i]) && GroupConsistent(gs[i]))
    && PairwiseConsistent(gs)
  }

  ghost predicate DistinctIds(gs: seq<ShardGroup>) {
    forall i, j | 0 <= i < j < |gs| :: gs[i].id != gs[j].id
  }

  // ----- adding a list -----

  ghost predicate MapOk(m: seq<Option<string>>, gs: seq<ShardGroup>, kind: Kind) {
    && |m| == SLOTS
    && (forall slot, i | 0 <= slot < SLOTS && 0 <= i < |gs| && Claims(gs[i], kind, slot) :: m[slot] == Some(gs[i].id))
    && (forall slot | 0 <= slot < SLOTS && m[slot].Some? ::
          exists i :: 0 <= i < |gs| && gs[i].id == m[slot].value && Claims(gs[i], kind, slot))
  }

  /** The maps say exactly who claims what among the groups of a list. */
  ghost predicate Represents(info: Info, gs: seq<ShardGroup>) {
    && info.WellFormed()
    && (forall i | 0 <= i < |gs| :: gs[i].id in info.groups && info.groups[gs[i].id] == gs[i])
    && (forall id | id in info.groups :: exists i :: 0 <= i < |gs| && gs[i].id == id)
    && MapOk(info.stable, gs, Stable) && MapOk(info.importing, gs, Importing) && MapOk(info.migrating, gs, Migrating)
  }

  lemma ClaimedRange(g: ShardGroup, kind: Kind, slot: int) returns (k: nat)
    requires Claims(g, kind, slot)
    ensures k < |g.ranges| && g.ranges[k].kind == kind && Covers(g.ranges[k], slot)
  {
    k :| 0 <= k < |g.ranges| && g.ranges[k].kind == kind && Covers(g.ranges[k], slot);
  }

  /** A range added earlier lets a later one in if they do not meet, or if it is not stable and of another type. */
  ghost predicate LetsIn(a: SlotRange, b: SlotRange) { Disjoint(a, b) || (a.kind != Stable && a.kind != b.kind) }

  ghost predicate GroupLetsIn(g: ShardGroup, h: ShardGroup) {
    forall j, k | 0 <= j < |g.ranges| && 0 <= k < |h.ranges| :: LetsIn(g.ranges[j], h.ranges[k])
  }

  /** Each group lets in the groups after it. */
  ghost predicate InOrder(gs: seq<ShardGroup>) {
    forall i, j | 0 <= i < j < |gs| :: GroupLetsIn(gs[i], gs[j])
  }

  ghost predicate AllOk(gs: seq<ShardGroup>) {
    forall i | 0 <= i < |gs| :: GroupOk(gs[i])
  }

  /** A slot that some group of the list holds in a role is not free for a range that is not let in. */
  lemma NoOwner(m: seq<Option<string>>, gs: seq<ShardGroup>, kind: Kind, g: ShardGroup, k: nat, slot: int)
    requires MapOk(m, gs, kind) && 0 <= slot < SLOTS && k < |g.ranges| && Covers(g.ranges[k], slot)
    requires forall i | 0 <= i < |gs| :: GroupLetsIn(gs[i], g)
    requires kind == Stable || kind == g.ranges[k].kind
    ensures m[slot] == None
  {
    forall i, j | 0 <= i < |gs| && 0 <= j < |gs[i].ranges|
      ensures !(gs[i].ranges[j].kind == kind && Covers(gs[i].ranges[j], slot))
    {
      assert LetsIn(gs[i].ranges[j], g.ranges[k]);
    }
  }

  lemma OverlayOk(m: seq<Option<string>>, gs: seq<ShardGroup>, kind: Kind, g: ShardGroup)
    requires MapOk(m, gs, kind) && (forall i | 0 <= i < |gs| :: GroupLetsIn(gs[i], g)) && kind != Unknown
    ensures MapOk(Overlay(m, g, kind), gs + [g], kind)
  {
    var hs, n := gs + [g], Overlay(m, g, kind);
    assert hs[|gs|] == g;
    forall slot, i | 0 <= slot < SLOTS && 0 <= i < |hs| && Claims(hs[i], kind, slot) ensures n[slot] == Some(hs[i].id) {
      if i < |gs| {
        assert Claims(gs[i], kind, slot);
        if Claims(g, kind, slot) {
          var k := ClaimedRange(g, kind, slot);
          NoOwner(m, gs, kind, g, k, slot);
        }
      }
    }
    forall slot | 0 <= slot < SLOTS && n[slot].Some?
      ensures exists i :: 0 <= i < |hs| && hs[i].id == n[slot].value && Claims(hs[i], kind, slot)
    {
      if Claims(g, kind, slot) {
        assert hs[|gs|].id == n[slot].value;
      } else {
        var i :| 0 <= i < |gs| && gs[i].id == m[slot].value && Claims(gs[i], kind, slot);
        assert hs[i] == gs[i];
      }
    }
  }

  /** A new group that those present let in is accepted, and the maps take its claims. */
  lemma AddStep(info: Info, gs: seq<ShardGroup>, g: ShardGroup, dbid: string)
    requires Represents(info, gs) && GroupOk(g)
    requires forall i | 0 <= i < |gs| :: GroupLetsIn(gs[i], g) && gs[i].id != g.id
    ensures Accepts(info, g) && Represents(Added(info, g, dbid), gs + [g])
  {
    forall k | 0 <= k < |g.ranges| ensures RangeAccepted(info, g.ranges[k]) {
      forall slot | 0 <= slot < SLOTS && Covers(g.ranges[k], slot) ensures Free(info, g.ranges[k], slot) {
        NoOwner(info.stable, gs, Stable, g, k, slot);
        if g.ranges[k].kind == Migrating { NoOwner(info.migrating, gs, Migrating, g, k, slot); }
        if g.ranges[k].kind == Importing { NoOwner(info.importing, gs, Importing, g, k, slot); }
      }
    }
    OverlayOk(info.stable, gs, Stable, g);
    OverlayOk(info.importing, gs, Importing, g);
    OverlayOk(info.migrating, gs, Migrating, g);
    assert (gs + [g])[|gs|] == g;
    hide MapOk, Accepts;
    var r := Added(info, g, dbid);
    forall id | id in r.groups ensures exists i :: 0 <= i < |gs + [g]| && (gs + [g])[i].id == id {
      if id != g.id {
        var i :| 0 <= i < |gs| && gs[i].id == id;
        assert (gs + [g])[i].id == id;
      }
    }
  }

  /** Only such a group is accepted. */
  lemma AcceptedIsLetIn(info: Info, gs: seq<ShardGroup>, g: ShardGroup, i: nat)
    requires Represents(info, gs) && i < |gs| && GroupOk(gs[i]) && Accepts(info, g)
    ensures GroupLetsIn(gs[i], g) && gs[i].id != g.id
  {
    forall j, k | 0 <= j < |gs[i].ranges| && 0 <= k < |g.ranges| ensures LetsIn(gs[i].ranges[j], g.ranges[k]) {
      var a, b := gs[i].ranges[j], g.ranges[k];
      assert RangeAccepted(info, b);
      forall slot | 0 <= slot < SLOTS && (a.kind == Stable || a.kind == b.kind)
        ensures !(Covers(a, slot) && Covers(b, slot))
      {
        assert Covers(a, slot) ==> Claims(gs[i], a.kind, slot);
        assert Covers(b, slot) ==> Free(info, b, slot);
      }
    }
  }

  lemma OneMore(done: seq<ShardGroup>, g: ShardGroup)
    requires InOrder(done) && DistinctIds(done) && AllOk(done) && GroupOk(g)
    requires forall i | 0 <= i < |done| :: GroupLetsIn(done[i], g) && done[i].id != g.id
    ensures InOrder(done + [g]) && DistinctIds(done + [g]) && AllOk(done + [g])
  {
    hide GroupLetsIn, GroupOk;
  }

  /** Adding to a configuration that represents `done` succeeds exactly for the lists that continue it in order. */
  lemma {:induction false} AddRest(info: Info, done: seq<ShardGroup>, gs: seq<ShardGroup>, dbid: string)
    requires Represents(info, done) && InOrder(done) && DistinctIds(done) && AllOk(done) && AllOk(gs)
    ensures AddAll(info, gs, dbid).Some? <==> InOrder(done + gs) && DistinctIds(done + gs)
    ensures AddAll(info, gs, dbid).Some? ==> Represents(AddAll(info, gs, dbid).value, done + gs)
    decreases |gs|
  {
    assert info.WellFormed();
    hide Represents, Accepts, GroupLetsIn, GroupOk;
    if gs == [] {
      assert done + gs == done;
    } else {
      var all, g := done + gs, gs[0];
      assert all[|done|] == g && all == (done + [g]) + gs[1..];
      assert forall i | 0 <= i < |done| :: all[i] == done[i];
      if InOrder(all) && DistinctIds(all) {
        assert forall i | 0 <= i < |done| :: GroupLetsIn(all[i], all[|done|]) && all[i].id != all[|done|].id;
        AddStep(info, done, g, dbid);
      }
      if Accepts(info, g) {
        forall i | 0 <= i < |done| ensures GroupLetsIn(done[i], g) && done[i].id != g.id {
          AcceptedIsLetIn(info, done, g, i);
        }
        AddStep(info, done, g, dbid);
        OneMore(done, g);
        AddRest(Added(info, g, dbid), done + [g], gs[1..], dbid);
      }
    }
  }

  /** A list is added to an empty configuration without a failure exactly when its ids are distinct and each group
      lets in those after it; the configuration is then the list's. */
  lemma AddedIff(gs: seq<ShardGroup>, sharding: bool, dbid: string)
    requires AllOk(gs)
    ensures AddAll(Empty(sharding), gs, dbid).Some? <==> InOrder(gs) && DistinctIds(gs)
    ensures AddAll(Empty(sharding), gs, dbid).Some? ==> Represents(AddAll(Empty(sharding), gs, dbid).value, gs)
  {
    hide Represents, AddAll, AllOk;
    EmptyRepresents(sharding);
    assert [] + gs == gs;
    assert AllOk([]) by { NothingIsOk(); }
    AddRest(Empty(sharding), [], gs, dbid);
  }

  lemma NothingIsOk()
    ensures AllOk([])
  {
  }

  /** Groups that contradict no other are in order, and the other way round for both orders of a pair. */
  lemma ConsistentBothWays(g: ShardGroup, h: ShardGroup)
    requires GroupOk(g) && GroupOk(h)
    ensures GroupsConsistent(g, h) <==> GroupLetsIn(g, h) && GroupLetsIn(h, g)
  {
    if GroupsConsistent(g, h) {
      forall j, k | 0 <= j < |g.ranges| && 0 <= k < |h.ranges|
        ensures LetsIn(g.ranges[j], h.ranges[k]) && LetsIn(h.ranges[k], g.ranges[j])
      {
        assert Together(g.ranges[j], h.ranges[k]);
      }
    }
    if GroupLetsIn(g, h) && GroupLetsIn(h, g) {
      forall j, k | 0 <= j < |g.ranges| && 0 <= k < |h.ranges| ensures Together(g.ranges[j], h.ranges[k]) {
        assert LetsIn(g.ranges[j], h.ranges[k]) && LetsIn(h.ranges[k], g.ranges[j]);
      }
    }
  }

  lemma ConsistentInOrder(gs: seq<ShardGroup>)
    requires Consistent(gs)
    ensures InOrder(gs) && AllOk(gs)
  {
    forall i, j | 0 <= i < j < |gs| ensures GroupLetsIn(gs[i], gs[j]) {
      ConsistentBothWays(gs[i], gs[j]);
    }
  }

  /** Whether routing is on after adding a list to an empty configuration. */
  predicate NeedsRouting(gs: seq<ShardGroup>, dbid: string) {
    |gs| > 1 || (|gs| == 1 && !Whole(gs[0], dbid))
  }

  lemma EmptyRepresents(sharding: bool)
    ensures Represents(Empty(sharding), [])
  {
  }

  // ----- routing -----

  /** Every owner in a map is a known group with a range of that kind over the slot. */
  ghost predicate OwnersClaim(info: Info, m: seq<Option<string>>, kind: Kind) {
    forall slot | 0 <= slot < |m| && m[slot].Some? ::
      m[slot].value in info.groups && Claims(info.groups[m[slot].value], kind, slot)
  }

  ghost predicate Routable(info: Info) {
    && info.WellFormed()
    && OwnersClaim(info, info.stable, Stable) && OwnersClaim(info, info.importing, Importing)
    && OwnersClaim(info, info.migrating, Migrating)
  }

  lemma AddedIsRoutable(info: Info, g: ShardGroup, dbid: string)
    requires Routable(info) && Accepts(info, g)
    ensures Routable(Added(info, g, dbid))
  {
  }

  /** The group that serves a slot: its stable owner, a local migrating owner, for an asking request a
      local importing owner, else whoever migrates it. */
  function SlotGroup(info: Info, slot: nat, asking: bool, dbid: string): Option<string>
    requires info.WellFormed() && slot < SLOTS
  {
    if info.stable[slot].Some? then info.stable[slot]
    else if info.migrating[slot] == Some(dbid) then Some(dbid)
    else if asking && info.importing[slot] == Some(dbid) then Some(dbid)
    else info.migrating[slot]
  }

  /** The type of the first range over a slot. */
  function RangeKind(ranges: seq<SlotRange>, slot: int): Option<Kind> {
    if ranges == [] then None
    else if Covers(ranges[0], slot) then Some(ranges[0].kind)
    else RangeKind(ranges[1..], slot)
  }

  lemma {:induction false} RangeKindFound(ranges: seq<SlotRange>, slot: int, k: nat)
    requires k < |ranges| && Covers(ranges[k], slot)
    ensures RangeKind(ranges, slot).Some?
    ensures exists j :: 0 <= j <= k && Covers(ranges[j], slot) && ranges[j].kind == RangeKind(ranges, slot).value
  {
    if Covers(ranges[0], slot) {
    } else {
      RangeKindFound(ranges[1..], slot, k - 1);
      var j :| 0 <= j <= k - 1 && Covers(ranges[1..][j], slot) && ranges[1..][j].kind == RangeKind(ranges, slot).value;
      assert ranges[j + 1] == ranges[1..][j];
    }
  }

  /** A group found for a slot always has a range over it: routing never fails to associate the two. */
  lemma RouteAssociates(info: Info, slot: nat, asking: bool, dbid: string)
    requires Routable(info) && slot < SLOTS
    ensures var id := SlotGroup(info, slot, asking, dbid);
            id.Some? ==> id.value in info.groups && RangeKind(info.groups[id.value].ranges, slot).Some?
  {
    var id := SlotGroup(info, slot, asking, dbid);
    if id.Some? {
      var kind := if info.stable[slot].Some? then Stable else if info.migrating[slot] == id then Migrating
        else Importing;
      assert Claims(info.groups[id.value], kind, slot);
      var k := ClaimedRange(info.groups[id.value], kind, slot);
      RangeKindFound(info.groups[id.value].ranges, slot, k);
    }
  }

  lemma OwnerOf(m: seq<Option<string>>, gs: seq<ShardGroup>, kind: Kind, i: nat, slot: nat)
    requires MapOk(m, gs, kind) && DistinctIds(gs) && i < |gs| && slot < SLOTS && m[slot] == Some(gs[i].id)
    ensures Claims(gs[i], kind, slot)
  {
  }

  /** For a consistent list the associated type is the one under which the group was found, except for
      a group that both imports and migrates the slot. */
  lemma RoutedKind(gs: seq<ShardGroup>, info: Info, i: nat, slot: nat, kind: Kind)
    requires Consistent(gs) && Represents(info, gs) && i < |gs| && slot < SLOTS && kind != Unknown
    requires info.Map(kind)[slot] == Some(gs[i].id) && DistinctIds(gs)
    ensures RangeKind(gs[i].ranges, slot) == Some(kind)
            || (Claims(gs[i], Importing, slot) && Claims(gs[i], Migrating, slot))
  {
    var g := gs[i];
    OwnerOf(info.Map(kind), gs, kind, i, slot);
    hide Represents, MapOk, PairwiseConsistent, DistinctIds, GroupOk;
    var k := ClaimedRange(g, kind, slot);
    RangeKindFound(g.ranges, slot, k);
    var j :| 0 <= j <= k && Covers(g.ranges[j], slot) && g.ranges[j].kind == RangeKind(g.ranges, slot).value;
    if j < k {
      assert Together(g.ranges[j], g.ranges[k]);
      assert Claims(g, g.ranges[j].kind, slot);
    }
  }
}
