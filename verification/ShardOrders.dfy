/** In which orders a list of shard groups can be added: any, that of the list, or that in which a snapshot stores
    the groups. */
module ShardOrders {
  import opened Wrappers
  import opened SlotMaps

  // ----- replacing the configuration and loading a saved one -----

  /** Whether routing was on changes nothing about how groups are added, and stays. */
  lemma {:induction false} RoutingStays(info: Info, gs: seq<ShardGroup>, dbid: string)
    requires info.WellFormed()
    ensures var clean, used := AddAll(info.(sharding := false), gs, dbid), AddAll(info.(sharding := true), gs, dbid);
            && (clean.Some? <==> used.Some?) && (used.Some? ==> used.value == clean.value.(sharding := true))
            && (clean.Some? ==>
                 (clean.value.sharding <==> gs != [] && (info.groups != map[] || NeedsRouting(gs, dbid))))
    decreases |gs|
  {
    hide Accepts, Overlay, Whole;
    if gs != [] {
      var off, on := info.(sharding := false), info.(sharding := true);
      SameAccepts(off, on, gs[0]);
      var next := Added(off, gs[0], dbid);
      RoutingStays(next, gs[1..], dbid);
      assert gs[0].id in next.groups;
      assert Added(on, gs[0], dbid) == next.(sharding := true);
      assert next == next.(sharding := next.sharding);
    }
  }

  lemma SameAccepts(off: Info, on: Info, g: ShardGroup)
    requires off.WellFormed() && on == off.(sharding := on.sharding)
    ensures Accepts(off, g) <==> Accepts(on, g)
  {
  }

  /** Replacing the configuration by a list and loading the same list from a snapshot leave the same
      configuration exactly when routing was off before or the list needs it. */
  lemma ReplaceVersusLoad(gs: seq<ShardGroup>, was: bool, dbid: string)
    ensures var replaced, loaded := AddAll(Empty(was), gs, dbid), AddAll(Empty(false), gs, dbid);
            && (replaced.Some? <==> loaded.Some?)
            && (loaded.Some? ==> (replaced == loaded <==> !was || NeedsRouting(gs, dbid)))
  {
    hide AddAll, NeedsRouting;
    RoutingStays(Empty(false), gs, dbid);
    NoGroupsNeedNoRouting(dbid);
    assert Empty(was) == Empty(false).(sharding := was);
  }

  lemma NoGroupsNeedNoRouting(dbid: string)
    ensures !NeedsRouting([], dbid)
  {
  }

  lemma RoutingAfter(gs: seq<ShardGroup>, sharding: bool, dbid: string)
    ensures var r := AddAll(Empty(sharding), gs, dbid);
            r.Some? ==> r.value.sharding == (sharding || NeedsRouting(gs, dbid))
  {
    hide AddAll, NeedsRouting;
    RoutingStays(Empty(false), gs, dbid);
    NoGroupsNeedNoRouting(dbid);
    assert Empty(sharding) == Empty(false).(sharding := sharding);
  }

  /** Starting afresh, requests are not routed exactly if there is no group at all, or one alone that is the local one
      and owns every slot as stable in one range; then every slot is the local group's. */
  lemma UnroutedIff(gs: seq<ShardGroup>, dbid: string)
    requires AddAll(Empty(false), gs, dbid).Some?
    ensures var r := AddAll(Empty(false), gs, dbid).value;
            && (!r.sharding <==> gs == [] || (|gs| == 1 && gs[0].id == dbid &&
                                              exists key :: gs[0].ranges == [SlotRange(0, 16383, Stable, key)]))
            && (!r.sharding && gs != [] ==> forall slot | 0 <= slot < 16384 :: r.stable[slot] == Some(dbid))
            && (|gs| == 1 && gs[0].id != dbid ==> r.sharding)
  {
    RoutingAfter(gs, false, dbid);
    if |gs| == 1 {
      assert gs[1..] == [];
      assert AddAll(Empty(false), gs, dbid) == Some(Added(Empty(false), gs[0], dbid));
      if Whole(gs[0], dbid) {
        assert gs[0].ranges == [SlotRange(0, 16383, Stable, gs[0].ranges[0].session)];
        assert forall slot | 0 <= slot < 16384 :: Claims(gs[0], Stable, slot);
      }
    }
  }

  // ----- every order -----

  /** Two orders of the same groups that are both accepted give the same configuration. */
  lemma OrdersAgree(gs: seq<ShardGroup>, hs: seq<ShardGroup>, sharding: bool, dbid: string)
    requires AllOk(gs) && multiset(gs) == multiset(hs)
    requires AddAll(Empty(sharding), gs, dbid).Some? && AddAll(Empty(sharding), hs, dbid).Some?
    ensures AddAll(Empty(sharding), gs, dbid) == AddAll(Empty(sharding), hs, dbid)
  {
    hide AddAll, Represents, GroupOk, Whole;
    SameMembers(gs, hs);
    forall i | 0 <= i < |hs| ensures GroupOk(hs[i]) { var j := IndexOf(gs, hs[i]); }
    AddedIff(gs, sharding, dbid);
    AddedIff(hs, sharding, dbid);
    RepresentedOnce(AddAll(Empty(sharding), gs, dbid).value, gs, AddAll(Empty(sharding), hs, dbid).value, hs);
    RoutingAfter(gs, sharding, dbid);
    RoutingAfter(hs, sharding, dbid);
    assert |gs| == |multiset(gs)| == |hs|;
    if |gs| == 1 { assert gs[0] in hs; }
  }

  lemma SameMembers(gs: seq<ShardGroup>, hs: seq<ShardGroup>)
    requires multiset(gs) == multiset(hs)
    ensures forall g :: g in gs <==> g in hs
  {
    forall g ensures g in gs <==> g in hs {
      assert g in gs <==> g in multiset(gs);
      assert g in hs <==> g in multiset(hs);
    }
  }

  lemma MapWithin(m: seq<Option<string>>, gs: seq<ShardGroup>, n: seq<Option<string>>, hs: seq<ShardGroup>, kind: Kind)
    requires MapOk(m, gs, kind) && MapOk(n, hs, kind) && (forall g :: g in gs <==> g in hs)
    ensures forall slot | 0 <= slot < SLOTS && m[slot].Some? :: n[slot] == m[slot]
  {
    forall slot | 0 <= slot < SLOTS && m[slot].Some? ensures n[slot] == m[slot] {
      var i :| 0 <= i < |gs| && gs[i].id == m[slot].value && Claims(gs[i], kind, slot);
      assert gs[i] in hs;
      var j :| 0 <= j < |hs| && hs[j] == gs[i];
      assert Claims(hs[j], kind, slot);
    }
  }

  lemma MapsAgree(m: seq<Option<string>>, gs: seq<ShardGroup>, n: seq<Option<string>>, hs: seq<ShardGroup>, kind: Kind)
    requires MapOk(m, gs, kind) && MapOk(n, hs, kind) && (forall g :: g in gs <==> g in hs)
    ensures m == n
  {
    MapWithin(m, gs, n, hs, kind);
    MapWithin(n, hs, m, gs, kind);
  }

  lemma RepresentedOnce(a: Info, gs: seq<ShardGroup>, b: Info, hs: seq<ShardGroup>)
    requires Represents(a, gs) && Represents(b, hs) && (forall g :: g in gs <==> g in hs)
    ensures a.groups == b.groups && a.stable == b.stable && a.importing == b.importing && a.migrating == b.migrating
  {
    MapsAgree(a.stable, gs, b.stable, hs, Stable);
    MapsAgree(a.importing, gs, b.importing, hs, Importing);
    MapsAgree(a.migrating, gs, b.migrating, hs, Migrating);
    GroupsWithin(a, gs, b, hs);
    GroupsWithin(b, hs, a, gs);
  }

  lemma GroupsWithin(a: Info, gs: seq<ShardGroup>, b: Info, hs: seq<ShardGroup>)
    requires Represents(a, gs) && Represents(b, hs) && (forall g :: g in gs <==> g in hs)
    ensures forall id | id in a.groups :: id in b.groups && a.groups[id] == b.groups[id]
  {
    forall id | id in a.groups ensures id in b.groups && a.groups[id] == b.groups[id] {
      var i :| 0 <= i < |gs| && gs[i].id == id;
      assert gs[i] in hs;
      var j :| 0 <= j < |hs| && hs[j] == gs[i];
    }
  }

  lemma {:induction false} OnceEach(gs: seq<ShardGroup>, g: ShardGroup)
    requires DistinctIds(gs)
    ensures multiset(gs)[g] <= 1
  {
    if gs != [] {
      var n := |gs| - 1;
      assert gs == gs[..n] + [gs[n]];
      OnceEach(gs[..n], g);
      if g == gs[n] { assert g !in gs[..n]; }
    }
  }

  lemma TwiceMeansTwo(hs: seq<ShardGroup>, i: nat, j: nat)
    requires i < j < |hs| && hs[i] == hs[j]
    ensures multiset(hs)[hs[i]] >= 2
  {
    assert hs == hs[..j] + hs[j..];
    assert hs[..j][i] == hs[i] && hs[j..][0] == hs[i];
    assert hs[i] in multiset(hs[..j]) && hs[i] in multiset(hs[j..]);
  }

  lemma IndexOf(gs: seq<ShardGroup>, g: ShardGroup) returns (i: nat)
    requires g in gs
    ensures i < |gs| && gs[i] == g
  {
    i :| 0 <= i < |gs| && gs[i] == g;
  }

  lemma ConsistentSymmetric(g: ShardGroup, h: ShardGroup)
    requires GroupsConsistent(g, h)
    ensures GroupsConsistent(h, g)
  {
    forall j, k | 0 <= j < |h.ranges| && 0 <= k < |g.ranges| ensures Together(h.ranges[j], g.ranges[k]) {
      assert Together(g.ranges[k], h.ranges[j]);
    }
  }

  lemma PermutedInOrder(gs: seq<ShardGroup>, hs: seq<ShardGroup>)
    requires AllOk(gs) && PairwiseConsistent(gs) && DistinctIds(gs) && multiset(gs) == multiset(hs)
    ensures AllOk(hs) && InOrder(hs) && DistinctIds(hs)
  {
    hide GroupOk, GroupsConsistent, GroupLetsIn;
    SameMembers(gs, hs);
    forall j | 0 <= j < |hs| ensures GroupOk(hs[j]) { assert hs[j] in gs; }
    forall i, j | 0 <= i < j < |hs| ensures GroupLetsIn(hs[i], hs[j]) && hs[i].id != hs[j].id {
      var a := IndexOf(gs, hs[i]);
      var b := IndexOf(gs, hs[j]);
      if a == b {
        TwiceMeansTwo(hs, i, j);
        OnceEach(gs, hs[i]);
      } else if b < a {
        ConsistentBothWays(gs[b], gs[a]);
      } else {
        ConsistentBothWays(gs[a], gs[b]);
      }
    }
  }

  /** Exactly the lists without contradictions between groups, and with distinct ids, are added in every order. */
  lemma EveryOrderIff(gs: seq<ShardGroup>, sharding: bool, dbid: string)
    requires AllOk(gs)
    ensures (forall hs | multiset(hs) == multiset(gs) :: AddAll(Empty(sharding), hs, dbid).Some?) <==>
            PairwiseConsistent(gs) && DistinctIds(gs)
  {
    hide AddAll, GroupsConsistent, AllOk, Represents, InOrder;
    if PairwiseConsistent(gs) && DistinctIds(gs) {
      forall hs | multiset(hs) == multiset(gs) ensures AddAll(Empty(sharding), hs, dbid).Some? {
        PermutedInOrder(gs, hs);
        AddedIff(hs, sharding, dbid);
      }
    } else {
      var i, j :| 0 <= i < j < |gs| && !(GroupsConsistent(gs[i], gs[j]) && gs[i].id != gs[j].id);
      var hs := RefusedOrder(gs, i, j, sharding, dbid);
    }
  }

  /** Of two contradicting groups one order is refused, whatever else is in the list. */
  lemma RefusedOrder(gs: seq<ShardGroup>, i: nat, j: nat, sharding: bool, dbid: string)
    returns (hs: seq<ShardGroup>)
    requires AllOk(gs) && i < j < |gs| && !(GroupsConsistent(gs[i], gs[j]) && gs[i].id != gs[j].id)
    ensures multiset(hs) == multiset(gs) && AddAll(Empty(sharding), hs, dbid).None?
  {
    hide AddAll, GroupsConsistent, GroupLetsIn, GroupOk, Represents;
    var rest := gs[..i] + gs[i + 1..j] + gs[j + 1..];
    MoveToFront(gs, i, j);
    ConsistentBothWays(gs[i], gs[j]);
    var ahead, behind := [gs[i], gs[j]] + rest, [gs[j], gs[i]] + rest;
    AddedIff(ahead, sharding, dbid);
    AddedIff(behind, sharding, dbid);
    assert ahead[0] == gs[i] == behind[1] && ahead[1] == gs[j] == behind[0];
    hs := if AddAll(Empty(sharding), ahead, dbid).None? then ahead else behind;
  }

  lemma MoveToFront(gs: seq<ShardGroup>, i: nat, j: nat)
    requires i < j < |gs|
    ensures var rest := gs[..i] + gs[i + 1..j] + gs[j + 1..];
            multiset([gs[i], gs[j]] + rest) == multiset(gs) == multiset([gs[j], gs[i]] + rest)
  {
    assert gs == gs[..i] + [gs[i]] + gs[i + 1..j] + [gs[j]] + gs[j + 1..];
  }

  // ----- the order of a snapshot -----

  /** The order of the dictionary of groups: by bytes, a proper prefix first. */
  predicate IdLess(a: string, b: string) {
    b != [] && (a == [] || a[0] < b[0] || (a[0] == b[0] && IdLess(a[1..], b[1..])))
  }

  lemma {:induction false} IdLessTotal(a: string, b: string)
    ensures a == b || IdLess(a, b) || IdLess(b, a)
    ensures !(IdLess(a, b) && IdLess(b, a))
  {
    if a != [] && b != [] {
      IdLessTotal(a[1..], b[1..]);
      assert a == [a[0]] + a[1..] && b == [b[0]] + b[1..];
    }
  }

  lemma {:induction false} IdLessTransitive(a: string, b: string, c: string)
    requires IdLess(a, b) && IdLess(b, c)
    ensures IdLess(a, c)
  {
    if a != [] && a[0] == b[0] == c[0] {
      IdLessTransitive(a[1..], b[1..], c[1..]);
    }
  }

  ghost predicate Sorted(gs: seq<ShardGroup>) {
    forall i, j | 0 <= i < j < |gs| :: IdLess(gs[i].id, gs[j].id)
  }

  /** The groups of a configuration in the order in which a snapshot stores them. */
  ghost predicate SavedAs(groups: map<string, ShardGroup>, gs: seq<ShardGroup>) {
    && Sorted(gs)
    && (forall i | 0 <= i < |gs| :: gs[i].id in groups && groups[gs[i].id] == gs[i])
    && (forall id | id in groups :: exists i :: 0 <= i < |gs| && gs[i].id == id)
  }

  /** Whoever imports or migrates a slot that is stable elsewhere comes before its stable owner. */
  ghost predicate StableLast(info: Info)
    requires info.WellFormed()
  {
    forall slot | 0 <= slot < SLOTS && info.stable[slot].Some? ::
      && (info.importing[slot].Some? ==> !IdLess(info.stable[slot].value, info.importing[slot].value))
      && (info.migrating[slot].Some? ==> !IdLess(info.stable[slot].value, info.migrating[slot].value))
  }

  lemma SavedMembers(info: Info, hs: seq<ShardGroup>, gs: seq<ShardGroup>)
    requires Represents(info, hs) && SavedAs(info.groups, gs)
    ensures forall g :: g in gs <==> g in hs
  {
    hide MapOk, Sorted;
    forall g | g in gs ensures g in hs {
      var j := IndexOf(gs, g);
      var i :| 0 <= i < |hs| && hs[i].id == g.id;
    }
    forall g | g in hs ensures g in gs {
      var j := IndexOf(hs, g);
      var i :| 0 <= i < |gs| && gs[i].id == g.id;
    }
  }

  lemma SameMap(m: seq<Option<string>>, hs: seq<ShardGroup>, gs: seq<ShardGroup>, kind: Kind)
    requires MapOk(m, hs, kind) && (forall g :: g in gs <==> g in hs)
    ensures MapOk(m, gs, kind)
  {
    forall slot, i | 0 <= slot < SLOTS && 0 <= i < |gs| && Claims(gs[i], kind, slot) ensures m[slot] == Some(gs[i].id) {
      var j := IndexOf(hs, gs[i]);
    }
    forall slot | 0 <= slot < SLOTS && m[slot].Some?
      ensures exists i :: 0 <= i < |gs| && gs[i].id == m[slot].value && Claims(gs[i], kind, slot)
    {
      var j :| 0 <= j < |hs| && hs[j].id == m[slot].value && Claims(hs[j], kind, slot);
      var i := IndexOf(gs, hs[j]);
    }
  }

  /** A configuration represents the list saved of it. */
  lemma SavedRepresents(info: Info, hs: seq<ShardGroup>, gs: seq<ShardGroup>)
    requires Represents(info, hs) && AllOk(hs) && SavedAs(info.groups, gs)
    ensures Represents(info, gs) && AllOk(gs) && DistinctIds(gs)
  {
    SavedMembers(info, hs, gs);
    SameMap(info.stable, hs, gs, Stable);
    SameMap(info.importing, hs, gs, Importing);
    SameMap(info.migrating, hs, gs, Migrating);
    hide MapOk, GroupOk;
    forall i | 0 <= i < |gs| ensures GroupOk(gs[i]) { var j := IndexOf(hs, gs[i]); }
    forall i, j | 0 <= i < j < |gs| ensures gs[i].id != gs[j].id { IdLessTotal(gs[i].id, gs[j].id); }
  }

  /** Two owners of a slot stand in the list in the order of their ids. */
  lemma OwnersInOrder(info: Info, gs: seq<ShardGroup>, kind: Kind, slot: int)
    requires Represents(info, gs) && Sorted(gs) && InOrder(gs) && 0 <= slot < SLOTS && kind in {Importing, Migrating}
    requires info.stable[slot].Some? && info.Map(kind)[slot].Some?
    ensures !IdLess(info.stable[slot].value, info.Map(kind)[slot].value)
  {
    var i :| 0 <= i < |gs| && gs[i].id == info.stable[slot].value && Claims(gs[i], Stable, slot);
    var j :| 0 <= j < |gs| && gs[j].id == info.Map(kind)[slot].value && Claims(gs[j], kind, slot);
    StableShutsOut(gs[i], gs[j], kind, slot);
    IdLessTotal(gs[i].id, gs[j].id);
  }

  lemma StableShutsOut(g: ShardGroup, h: ShardGroup, kind: Kind, slot: int)
    requires 0 <= slot < SLOTS && Claims(g, Stable, slot) && Claims(h, kind, slot)
    ensures !GroupLetsIn(g, h)
  {
    var a := ClaimedRange(g, Stable, slot);
    var b := ClaimedRange(h, kind, slot);
    assert !LetsIn(g.ranges[a], h.ranges[b]);
  }

  /** No slot has two owners of one type, or a stable owner before another. */
  lemma OwnersApart(info: Info, g: ShardGroup, h: ShardGroup, gs: seq<ShardGroup>, a: Kind, b: Kind, slot: int)
    requires Represents(info, gs) && StableLast(info) && g in gs && h in gs && IdLess(g.id, h.id) && g.id != h.id
    requires 0 <= slot < SLOTS && a != Unknown && b != Unknown && (a == Stable || a == b)
    ensures !(Claims(g, a, slot) && Claims(h, b, slot))
  {
    var i := IndexOf(gs, g);
    var j := IndexOf(gs, h);
    assert MapOk(info.Map(a), gs, a) && MapOk(info.Map(b), gs, b);
    assert Claims(gs[i], a, slot) ==> info.Map(a)[slot] == Some(g.id);
    assert Claims(gs[j], b, slot) ==> info.Map(b)[slot] == Some(h.id);
  }

  lemma StableLastInOrder(info: Info, gs: seq<ShardGroup>, i: nat, j: nat)
    requires Represents(info, gs) && Sorted(gs) && AllOk(gs) && DistinctIds(gs) && StableLast(info) && i < j < |gs|
    ensures GroupLetsIn(gs[i], gs[j])
  {
    assert IdLess(gs[i].id, gs[j].id) && gs[i].id != gs[j].id && GroupOk(gs[i]) && GroupOk(gs[j]);
    hide Represents, StableLast, Sorted, AllOk, DistinctIds;
    forall k, l | 0 <= k < |gs[i].ranges| && 0 <= l < |gs[j].ranges|
      ensures LetsIn(gs[i].ranges[k], gs[j].ranges[l])
    {
      var a, b := gs[i].ranges[k], gs[j].ranges[l];
      forall slot | 0 <= slot < SLOTS && (a.kind == Stable || a.kind == b.kind)
        ensures !(Covers(a, slot) && Covers(b, slot))
      {
        OwnersApart(info, gs[i], gs[j], gs, a.kind, b.kind, slot);
        assert Covers(a, slot) ==> Claims(gs[i], a.kind, slot);
        assert Covers(b, slot) ==> Claims(gs[j], b.kind, slot);
      }
    }
  }

  lemma SortedInOrderIff(info: Info, gs: seq<ShardGroup>)
    requires Represents(info, gs) && Sorted(gs) && AllOk(gs) && DistinctIds(gs)
    ensures InOrder(gs) <==> StableLast(info)
  {
    assert info.WellFormed();
    hide Represents, AllOk, GroupLetsIn, IdLess, Sorted, DistinctIds;
    if InOrder(gs) {
      forall slot | 0 <= slot < SLOTS && info.stable[slot].Some?
        ensures info.importing[slot].Some? ==> !IdLess(info.stable[slot].value, info.importing[slot].value)
        ensures info.migrating[slot].Some? ==> !IdLess(info.stable[slot].value, info.migrating[slot].value)
      {
        if info.importing[slot].Some? { OwnersInOrder(info, gs, Importing, slot); }
        if info.migrating[slot].Some? { OwnersInOrder(info, gs, Migrating, slot); }
      }
    }
    if StableLast(info) {
      forall i, j | 0 <= i < j < |gs| ensures GroupLetsIn(gs[i], gs[j]) { StableLastInOrder(info, gs, i, j); }
    }
  }

  /** A configuration, however it was built, loads back from its own snapshot exactly when every slot's stable owner
      comes, in the order of ids, no earlier than those who import or migrate the slot.  What is loaded is then the
      configuration, but for routing, which is on only if the groups need it. */
  lemma LoadsBackIff(info: Info, hs: seq<ShardGroup>, gs: seq<ShardGroup>, dbid: string)
    requires AllOk(hs) && Represents(info, hs) && SavedAs(info.groups, gs)
    ensures AddAll(Empty(false), gs, dbid).Some? <==> StableLast(info)
    ensures StableLast(info) ==> AddAll(Empty(false), gs, dbid) == Some(info.(sharding := NeedsRouting(gs, dbid)))
  {
    assert info.WellFormed();
    hide AddAll, Represents, AllOk, NeedsRouting, InOrder, StableLast, Sorted, DistinctIds;
    SavedRepresents(info, hs, gs);
    AddedIff(gs, false, dbid);
    SortedInOrderIff(info, gs);
    if StableLast(info) {
      RepresentedOnce(AddAll(Empty(false), gs, dbid).value, gs, info, gs);
      RoutingAfter(gs, false, dbid);
    }
  }
}
