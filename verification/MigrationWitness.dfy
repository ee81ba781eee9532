/** A run of the migration protocol in which an import applied again loses a client's write. */
module MigrationWitness {
  import opened Wrappers
  import opened SlotMaps
  import opened ShardOrders
  import opened KeySpace
  import opened Migration
  import opened Routing

  // Cluster A migrates every slot to cluster B.
  const SOURCE := ShardGroup("A", [SlotRange(0, SLOTS - 1, Migrating, 7)], [])
  const TARGET := ShardGroup("B", [SlotRange(0, SLOTS - 1, Importing, 7)], [])

  lemma OneRangeClaims(g: ShardGroup, kind: Kind, slot: int)
    requires |g.ranges| == 1
    ensures Claims(g, kind, slot) <==> g.ranges[0].kind == kind && Covers(g.ranges[0], slot)
  {
  }

  lemma TwoConsistent()
    ensures Consistent([SOURCE, TARGET]) && DistinctIds([SOURCE, TARGET])
  {
    assert MayShare(SOURCE.ranges[0], TARGET.ranges[0]);
    assert |SOURCE.id| == 1 && |TARGET.id| == 1;
  }

  /** The configuration the two groups build. */
  ghost predicate TwoGroups(info: Info) {
    && ConfigOk(info) && info.groups == map["A" := SOURCE, "B" := TARGET]
    && info.stable[0] == None && info.migrating[0] == Some("A") && info.importing[0] == Some("B")
  }

  lemma TwoRepresented(info: Info)
    requires Represents(info, [SOURCE, TARGET])
    ensures info.groups == map["A" := SOURCE, "B" := TARGET]
  {
    var gs := [SOURCE, TARGET];
    assert gs[0].id == "A" && gs[1].id == "B";
    hide MapOk;
    assert "A" in info.groups && info.groups["A"] == SOURCE && "B" in info.groups && info.groups["B"] == TARGET;
    forall id | id in info.groups ensures id == "A" || id == "B" {
      var i :| 0 <= i < |gs| && gs[i].id == id;
    }
  }

  lemma TwoMaps(info: Info)
    requires Represents(info, [SOURCE, TARGET])
    ensures info.stable[0] == None && info.migrating[0] == Some("A") && info.importing[0] == Some("B")
  {
    var gs := [SOURCE, TARGET];
    assert gs[0] == SOURCE && gs[1] == TARGET;
    OneRangeClaims(SOURCE, Migrating, 0);
    OneRangeClaims(TARGET, Importing, 0);
    OneRangeClaims(SOURCE, Stable, 0);
    OneRangeClaims(TARGET, Stable, 0);
    hide Claims;
    assert Claims(gs[0], Migrating, 0) && Claims(gs[1], Importing, 0);
    assert !Claims(gs[0], Stable, 0) && !Claims(gs[1], Stable, 0);
  }

  lemma TwoClusters() returns (info: Info)
    ensures TwoGroups(info)
  {
    var gs := [SOURCE, TARGET];
    TwoConsistent();
    hide Consistent, DistinctIds, AddAll, ConfigOk, Represents;
    ConsistentInOrder(gs);
    AddedIff(gs, false, "A");
    RoutingAfter(gs, false, "A");
    info := AddAll(Empty(false), gs, "A").value;
    ConsistentConfig(gs, info);
    TwoRepresented(info);
    TwoMaps(info);
  }

  /** Two clusters with at most one key. */
  function Pair(a: map<Key, Value>, locked: set<Key>, b: map<Key, Value>, terms: seq<int>): map<string, Cluster> {
    map["A" := Cluster("A", a, locked, Terms(0)), "B" := Cluster("B", b, {}, terms)]
  }

  const ONE := map["k" := "old"]
  const SENT := Import(1, 7, ["k"], map["k" := "old"])
  function Terms(first: int): (t: seq<int>)
    ensures |t| == SLOTS && t[0] == first
  {
    seq(SLOTS, i => if i == 0 then first else 0)
  }

  function Before(): State {
    State(Pair(ONE, {}, map[], Terms(0)), map["A" := 1, "B" := 1], {}, {}, map[], {}, ONE)
  }

  function Locked(): State { Before().(clusters := Pair(ONE, {"k"}, map[], Terms(0)), sent := {SENT}, lockVal := ONE) }

  function Imported(b: Value, truth: Value): State {
    Locked().(clusters := Pair(ONE, {"k"}, map["k" := b], Terms(1)), done := {SENT}, truth := map["k" := truth])
  }

  function Zero(): Hash { _ => 0 }

  lemma WitnessWellFormed(info: Info, s: State, locked: set<Key>, b: map<Key, Value>, terms: seq<int>)
    requires TwoGroups(info) && terms in {Terms(0), Terms(1)}
    requires s.clusters == Pair(ONE, locked, b, terms) && s.term == map["A" := 1, "B" := 1] && s.sent <= {SENT}
    ensures WellFormed(s, info)
  {
    assert info.WellFormed();
    hide ConfigOk, Terms;
  }

  lemma WitnessLocks(info: Info)
    requires TwoGroups(info) && WellFormed(Before(), info)
    ensures LockStep(Before(), info, Zero(), LockApplied("A", ["k"], true), Locked())
  {
    hide ConfigOk;
    var c := Before().clusters["A"];
    assert MayLock(c, info, Zero(), ["k"]);
    assert Lock(c, info, Zero(), ["k"]) == Locked().clusters["A"];
    assert Dumped(c.data, ["k"]) == ONE && ONE + map[] == ONE;
    assert Session(SOURCE.ranges, 0) == Some(7);
    assert Before().clusters["A" := Locked().clusters["A"]] == Locked().clusters;
  }

  lemma WitnessApplies(info: Info, c: Cluster)
    requires TwoGroups(info) && c.dbid == "B" && c.terms in {Terms(0), Terms(1)} && (forall k | k in c.data :: k == "k")
    ensures MayImport(c, info, Zero(), SENT)
    ensures ImportKeys(c, info, Zero(), SENT) == Cluster("B", map["k" := "old"], c.locked, Terms(1))
  {
    hide ConfigOk;
    assert Session(TARGET.ranges, 0) == Some(7);
    assert c.terms[0 := 1] == Terms(1);
    assert Restored(c.data, SENT, 1) == c.data["k" := "old"] by { assert Restored(c.data, SENT, 0) == c.data; }
    assert c.data["k" := "old"] == map["k" := "old"];
  }

  lemma WitnessImports(info: Info, s: State, b: map<Key, Value>, truth: Value, terms: seq<int>)
    requires TwoGroups(info) && terms in {Terms(0), Terms(1)}
    requires s == Locked().(clusters := Pair(ONE, {"k"}, b, terms), done := s.done, truth := map["k" := truth])
    requires WellFormed(s, info) && s.done <= {SENT} && (forall k | k in b :: k == "k")
    ensures DeliverStep(s, info, Zero(), Deliver("B", SENT), Imported("old", truth))
  {
    WitnessApplies(info, s.clusters["B"]);
    hide ConfigOk, WellFormed, MayImport, ImportKeys, Terms;
    assert s.clusters["B" := Imported("old", truth).clusters["B"]] == Imported("old", truth).clusters;
    assert SENT in s.sent && s.done + {SENT} == {SENT};
  }

  lemma WitnessRoutes(info: Info, c: Cluster)
    requires TwoGroups(info) && c.dbid == "B" && c.data == map["k" := "old"] && c.locked == {}
    ensures Route(c, info, 0, true, ["k"]) == Execute
  {
    assert SlotGroup(info, 0, true, "B") == Some("B");
    assert RangeKind(TARGET.ranges, 0) == Some(Importing);
    assert CheckKeys(c.data, {}, ["k"]) == AllExist;
    hide ConfigOk, SlotGroup, CheckKeys;
  }

  lemma WitnessExecuted(s: State, e: Event)
    requires s == Imported("old", "old") && e == Client("B", ["k"], true, map["k" := Some("new")])
    ensures e.at in s.clusters && Executed(s, e) == Imported("new", "new")
  {
    assert Written(map["k" := "old"], e.writes) == map["k" := "new"];
    assert s.clusters["B" := s.clusters["B"].(data := map["k" := "new"])] == Imported("new", "new").clusters;
  }

  lemma WitnessWrites(info: Info)
    requires TwoGroups(info) && WellFormed(Imported("old", "old"), info)
    ensures ClientStep(Imported("old", "old"), info, Zero(), Client("B", ["k"], true, map["k" := Some("new")]),
            Imported("new", "new"))
  {
    var s, e := Imported("old", "old"), Client("B", ["k"], true, map["k" := Some("new")]);
    WitnessExecuted(s, e);
    WitnessRoutes(info, s.clusters["B"]);
    hide ConfigOk, WellFormed, Route, Executed, Pair;
  }

  lemma WitnessStarts(info: Info)
    requires TwoGroups(info) && WellFormed(Before(), info)
    ensures Initial(Before(), info, Zero())
  {
    hide ConfigOk;
  }

  /** An import applied again overwrites what a client wrote at the destination in the meantime. */
  lemma ImportLosesWrite() returns (info: Info, states: seq<State>, events: seq<Event>)
    ensures ConfigOk(info) && Run(states, events, info, Zero()) && |states| == 5
    ensures states[4].truth == map["k" := "new"] && "B" in states[4].clusters
            && states[4].clusters["B"].data == map["k" := "old"]
  {
    hide ConfigOk, WellFormed, LockStep, DeliverStep, ClientStep, Initial;
    info := TwoClusters();
    WitnessWellFormed(info, Before(), {}, map[], Terms(0));
    WitnessWellFormed(info, Locked(), {"k"}, map[], Terms(0));
    WitnessWellFormed(info, Imported("old", "old"), {"k"}, map["k" := "old"], Terms(1));
    WitnessWellFormed(info, Imported("new", "new"), {"k"}, map["k" := "new"], Terms(1));
    WitnessStarts(info);
    WitnessLocks(info);
    WitnessImports(info, Locked(), map[], "old", Terms(0));
    WitnessWrites(info);
    WitnessImports(info, Imported("new", "new"), map["k" := "new"], "new", Terms(1));
    hide Pair, Terms;
    states := [Before(), Locked(), Imported("old", "old"), Imported("new", "new"), Imported("old", "new")];
    events := [LockApplied("A", ["k"], true), Deliver("B", SENT), Client("B", ["k"], true, map["k" := Some("new")]),
      Deliver("B", SENT)];
    LostWrite();
    hide Before, Locked, Imported;
  }

  lemma LostWrite()
    ensures var s := Imported("old", "new");
            s.truth == map["k" := "new"] && "B" in s.clusters && s.clusters["B"].data == map["k" := "old"]
  {
  }

  lemma HeldBack(info: Info, s: State)
    requires TwoGroups(info) && WellFormed(s, info) && s == Imported("old", "old")
    ensures "B" in s.clusters && "k" in s.clusters["B"].data && "k" !in s.clusters["B"].locked
    ensures Follow(s.clusters, info, Zero(), "B", false, ["k"], 2) == ("A", TryAgain)
  {
    assert Moves(info, 0);
    hide ConfigOk, Follow;
    StatesReachable(s, info);
    OneKey(s.clusters["A"], "k");
    FollowMoving(s.clusters, info, Zero(), "B", ["k"], 0, 2);
  }

  /** Between import and unlock the destination holds the key unlocked, and yet every client is put off by the source:
      that some cluster holds a key unlocked is not enough to reach it. */
  lemma HandOverPutsOff() returns (info: Info, states: seq<State>, events: seq<Event>)
    ensures ConfigOk(info) && Run(states, events, info, Zero()) && |states| == 3
    ensures "B" in states[2].clusters && "k" in states[2].clusters["B"].data && "k" !in states[2].clusters["B"].locked
    ensures Follow(states[2].clusters, info, Zero(), "B", false, ["k"], 2) == ("A", TryAgain)
  {
    hide ConfigOk, WellFormed, LockStep, DeliverStep, Initial, Follow;
    info := TwoClusters();
    WitnessWellFormed(info, Before(), {}, map[], Terms(0));
    WitnessWellFormed(info, Locked(), {"k"}, map[], Terms(0));
    WitnessWellFormed(info, Imported("old", "old"), {"k"}, map["k" := "old"], Terms(1));
    WitnessStarts(info);
    WitnessLocks(info);
    WitnessImports(info, Locked(), map[], "old", Terms(0));
    HeldBack(info, Imported("old", "old"));
    hide Pair, Terms;
    states := [Before(), Locked(), Imported("old", "old")];
    events := [LockApplied("A", ["k"], true), Deliver("B", SENT)];
    hide Before, Locked, Imported;
  }
}
