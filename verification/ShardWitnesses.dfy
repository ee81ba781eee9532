/** Shard groups, as a client may submit them, on which the ways of building a configuration differ. */
module ShardWitnesses {
  import opened SlotMaps
  import opened ShardOrders
  import opened Sharding

  const ID_LEN := 32

  function Id(c: char): string { seq(ID_LEN, _ => c) }

  function One(c: char, kind: Kind): ShardGroup { ShardGroup(Id(c), [SlotRange(0, 0, kind, 1)], []) }

  lemma IdOrder(c: char, d: char)
    requires c < d
    ensures IdLess(Id(c), Id(d)) && Id(c) != Id(d)
  {
    assert Id(c)[0] == c && Id(d)[0] == d;
  }

  lemma OnePair(a: ShardGroup, b: ShardGroup)
    requires |a.ranges| == |b.ranges| == 1
    ensures InOrder([a, b]) <==> LetsIn(a.ranges[0], b.ranges[0])
    ensures PairwiseConsistent([a, b]) <==> Together(a.ranges[0], b.ranges[0])
  {
    var gs := [a, b];
    assert GroupLetsIn(a, b) <==> LetsIn(a.ranges[0], b.ranges[0]);
    assert GroupsConsistent(a, b) <==> Together(a.ranges[0], b.ranges[0]);
    assert gs[0] == a && gs[1] == b;
  }

  lemma SlotZero(a: SlotRange, b: SlotRange)
    requires a.start == a.end == b.start == b.end == 0
    ensures !Disjoint(a, b)
  {
    assert Covers(a, 0) && Covers(b, 0);
  }

  lemma OneSlot(c: char, first: Kind, d: char, second: Kind)
    requires c != d && first != Unknown && second != Unknown
    ensures var gs := [One(c, first), One(d, second)];
            && AllOk(gs) && DistinctIds(gs) && (PairwiseConsistent(gs) <==> MayShare(gs[0].ranges[0], gs[1].ranges[0]))
            && (InOrder(gs) <==> first != Stable && first != second)
  {
    var gs := [One(c, first), One(d, second)];
    OnePair(gs[0], gs[1]);
    SlotZero(gs[0].ranges[0], gs[1].ranges[0]);
    assert Id(c)[0] == c && Id(d)[0] == d;
  }

  /** A list that the parser refuses, because one group owns a slot that another imports, loads back from a
      snapshot: the importing group comes first. */
  lemma LoadsThoughRefused(dbid: string) returns (gs: seq<ShardGroup>)
    ensures AllOk(gs) && Sorted(gs) && !Consistent(gs) && AddAll(Empty(false), gs, dbid).Some?
  {
    hide Represents, AddAll, AllOk, InOrder, PairwiseConsistent, DistinctIds, IdLess;
    gs := [One('a', Importing), One('b', Stable)];
    IdOrder('a', 'b');
    OneSlot('a', Importing, 'b', Stable);
    AddedIff(gs, false, dbid);
  }

  /** With the ids the other way round it is accepted group by group and does not load back. */
  lemma DoesNotLoadBack(dbid: string) returns (hs: seq<ShardGroup>, gs: seq<ShardGroup>)
    ensures AllOk(hs) && AddAll(Empty(false), hs, dbid).Some?
    ensures SavedAs(AddAll(Empty(false), hs, dbid).value.groups, gs) && AddAll(Empty(false), gs, dbid).None?
  {
    hide Represents, AddAll, AllOk, InOrder, PairwiseConsistent, DistinctIds, IdLess, SavedAs;
    hs := [One('b', Importing), One('a', Stable)];
    gs := [One('a', Stable), One('b', Importing)];
    OneSlot('b', Importing, 'a', Stable);
    OneSlot('a', Stable, 'b', Importing);
    AddedIff(hs, false, dbid);
    AddedIff(gs, false, dbid);
    IdOrder('a', 'b');
    Swapped(AddAll(Empty(false), hs, dbid).value, hs[0], hs[1]);
  }

  lemma Swapped(info: Info, g: ShardGroup, h: ShardGroup)
    requires Represents(info, [g, h]) && IdLess(h.id, g.id)
    ensures SavedAs(info.groups, [h, g])
  {
    var hs, gs := [g, h], [h, g];
    assert hs[0] == g == gs[1] && hs[1] == h == gs[0];
    forall id | id in info.groups ensures exists i :: 0 <= i < |gs| && gs[i].id == id {
      var i :| 0 <= i < |hs| && hs[i].id == id;
      assert gs[1 - i].id == id;
    }
  }

  /** A group whose own ranges overlap is accepted, though the parser refuses a list with it. */
  lemma OwnOverlapAccepted() returns (g: ShardGroup)
    ensures GroupOk(g) && Accepts(Empty(false), g) && !GroupConsistent(g) && !Consistent([] + [g])
  {
    var r := SlotRange(0, 0, Stable, 1);
    g := ShardGroup(Id('a'), [r, r], []);
    SlotZero(r, r);
    assert !Together(g.ranges[0], g.ranges[1]);
    AppendConsistent([], g);
  }

  lemma OneAdded(h: ShardGroup, dbid: string)
    requires GroupOk(h)
    ensures Represents(Added(Empty(false), h, dbid), [h])
  {
    hide Represents, Added, Accepts, GroupOk;
    EmptyRepresents(false);
    AddStep(Empty(false), [], h, dbid);
    assert [] + [h] == [h];
  }

  lemma OneConsistent(c: char, kind: Kind)
    requires kind != Unknown
    ensures GroupOk(One(c, kind)) && GroupConsistent(One(c, kind)) && Consistent([One(c, kind)])
    ensures AllOk([One(c, kind)])
  {
  }

  /** So is a stable range over a slot that another group imports. */
  lemma StableOverImportAccepted(dbid: string) returns (info: Info, h: ShardGroup, g: ShardGroup)
    ensures AllOk([h]) && Represents(info, [h]) && Consistent([h]) && GroupOk(g) && GroupConsistent(g)
    ensures Accepts(info, g) && !Consistent([h] + [g])
  {
    h, g := One('a', Importing), One('b', Stable);
    OneSlot('a', Importing, 'b', Stable);
    OneConsistent('a', Importing);
    OneConsistent('b', Stable);
    var gs := [h, g];
    assert [h] + [g] == gs && gs[0] == h && gs[1] == g;
    assert GroupLetsIn(gs[0], gs[1]) && gs[0].id != gs[1].id;
    hide Represents, Added, Accepts, GroupOk, GroupLetsIn, GroupConsistent, One;
    OneAdded(h, dbid);
    info := Added(Empty(false), h, dbid);
    AddStep(info, [h], g, dbid);
  }

  /** Two groups with the same id and no slots pass the parser; applying the list fails an assertion. */
  lemma DuplicateIdsFail(sharding: bool, dbid: string) returns (gs: seq<ShardGroup>)
    ensures Parsed(gs) && Consistent(gs) && AddAll(Empty(sharding), gs, dbid).None?
  {
    var g := ShardGroup(Id('a'), [], []);
    gs := [g, g];
    assert gs[0].id == gs[1].id;
    ConsistentInOrder(gs);
    AddedIff(gs, sharding, dbid);
  }

  /** After routing was on, a REPLACE by the one local group that owns every slot leaves it on; loading the snapshot
      of that configuration turns it off. */
  lemma RoutingLeftOn() returns (gs: seq<ShardGroup>, dbid: string)
    ensures Parsed(gs) && Consistent(gs) && |dbid| == ID_LEN
    ensures var replaced, loaded := AddAll(Empty(true), gs, dbid), AddAll(Empty(false), gs, dbid);
            replaced.Some? && loaded.Some? && replaced.value.sharding && !loaded.value.sharding
  {
    dbid := Id('a');
    gs := [ShardGroup(dbid, [SlotRange(0, SLOTS - 1, Stable, 1)], [])];
    assert Consistent(gs) && DistinctIds(gs) && !NeedsRouting(gs, dbid);
    ConsistentInOrder(gs);
    AddedIff(gs, true, dbid);
    AddedIff(gs, false, dbid);
    RoutingAfter(gs, true, dbid);
    RoutingAfter(gs, false, dbid);
  }
}
