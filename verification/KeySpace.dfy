/** What one cluster does to its keys when it applies client commands, lock, unlock and import entries. */
module KeySpace {
  import opened Wrappers
  import opened SlotMaps

  type Key = string
  type Value = string

  /** The hash slot of a key. */
  type Hash = h: Key -> nat | forall k :: h(k) < SLOTS witness (_ => 0)

  datatype Cluster = Cluster(dbid: string, data: map<Key, Value>, locked: set<Key>, terms: seq<int>)

  /** A request to import keys: the sender's term, its session key and the serialized values. */
  datatype Import = Import(term: int, session: int, keys: seq<Key>, dump: map<Key, Value>)

  datatype Existence = AllExist | SomeExist | NoneExist | LockedExist

  datatype Outcome =
    | ClusterDown | NotAssociated | Moved(id: string) | TryAgain | Ask(to: string) | NoImporter | CrossSlot | Execute

  // ----- commands -----

  function CheckKeys(data: map<Key, Value>, locked: set<Key>, keys: seq<Key>): Existence {
    if exists k <- keys :: k in data && k in locked then LockedExist
    else if forall k <- keys :: k in data then AllExist
    else if forall k <- keys :: k !in data then NoneExist
    else SomeExist
  }

  /** Where a command on keys of one slot goes. */
  function Route(c: Cluster, info: Info, slot: nat, asking: bool, keys: seq<Key>): Outcome
    requires info.WellFormed() && slot < SLOTS && Routable(info)
  {
    var g := SlotGroup(info, slot, asking, c.dbid);
    if g == None then ClusterDown
    else
      RouteAssociates(info, slot, asking, c.dbid);
      var kind := RangeKind(info.groups[g.value].ranges, slot);
      if kind == None then NotAssociated
      else if g.value != c.dbid then Moved(g.value)
      else
        match kind.value
        case Migrating =>
          (match CheckKeys(c.data, c.locked, keys)
           case AllExist => Execute
           case NoneExist => if info.importing[slot].Some? then Ask(info.importing[slot].value) else NoImporter
           case _ => TryAgain)
        case Importing => if CheckKeys(c.data, c.locked, keys) == AllExist then Execute else TryAgain
        case _ => Execute
  }

  predicate OneSlot(hash: Hash, keys: seq<Key>) { forall k <- keys :: hash(k) == hash(keys[0]) }

  /** What becomes of commands on any keys: without routing, or without keys, they run. */
  function Admit(c: Cluster, info: Info, hash: Hash, asking: bool, keys: seq<Key>): Outcome
    requires Routable(info)
  {
    if !info.sharding then Execute
    else if !OneSlot(hash, keys) then CrossSlot
    else if keys == [] then Execute
    else Route(c, info, hash(keys[0]), asking, keys)
  }

  // ----- migration entries -----

  /** The keys of a lock entry, if it may lock them: one slot, migrated by this cluster to another. */
  predicate MayLock(c: Cluster, info: Info, hash: Hash, keys: seq<Key>)
    requires info.WellFormed()
  {
    && keys != [] && OneSlot(hash, keys)
    && info.migrating[hash(keys[0])] == Some(c.dbid)
    && info.importing[hash(keys[0])].Some? && info.importing[hash(keys[0])].value != c.dbid
  }

  function Lock(c: Cluster, info: Info, hash: Hash, keys: seq<Key>): Cluster
    requires info.WellFormed()
  {
    if MayLock(c, info, hash, keys) then c.(locked := c.locked + set k <- keys | k in c.data) else c
  }

  function UnlockDelete(c: Cluster, keys: seq<Key>): Cluster {
    c.(data := map k <- c.data | k !in keys :: c.data[k], locked := set k <- c.locked | k !in keys)
  }

  /** The session key of the first range over a slot. */
  function Session(ranges: seq<SlotRange>, slot: int): Option<int> {
    if ranges == [] then None
    else if Covers(ranges[0], slot) then Some(ranges[0].session)
    else Session(ranges[1..], slot)
  }

  /** An import is applied when the slot is imported here, under its session, in no older term. */
  predicate MayImport(c: Cluster, info: Info, hash: Hash, m: Import)
    requires info.WellFormed() && m.keys != [] && |c.terms| == SLOTS
  {
    var slot := hash(m.keys[0]);
    && info.importing[slot] == Some(c.dbid) && c.dbid in info.groups
    && Session(info.groups[c.dbid].ranges, slot) == Some(m.session)
    && c.terms[slot] <= m.term
  }

  function Restored(data: map<Key, Value>, m: Import, n: nat): map<Key, Value>
    requires n <= |m.keys| && forall k <- m.keys :: k in m.dump
  {
    if n == 0 then data else Restored(data, m, n - 1)[m.keys[n - 1] := m.dump[m.keys[n - 1]]]
  }

  function ImportKeys(c: Cluster, info: Info, hash: Hash, m: Import): Cluster
    requires info.WellFormed() && m.keys != [] && |c.terms| == SLOTS && forall k <- m.keys :: k in m.dump
  {
    if MayImport(c, info, hash, m) then
      c.(data := Restored(c.data, m, |m.keys|), terms := c.terms[hash(m.keys[0]) := m.term])
    else c
  }

  // ----- the code that computes them -----

  function Flatten(cmds: seq<seq<Key>>): seq<Key> {
    if cmds == [] then [] else Flatten(cmds[..|cmds| - 1]) + cmds[|cmds| - 1]
  }

  lemma FlattenPrefix(cmds: seq<seq<Key>>, i: nat)
    requires i < |cmds|
    ensures Flatten(cmds[..i + 1]) == Flatten(cmds[..i]) + cmds[i]
  {
    assert cmds[..i + 1][..i] == cmds[..i];
  }

  /** How many keys of a sequence are in a set. */
  ghost function Count(these: set<Key>, keys: seq<Key>): nat {
    if keys == [] then 0
    else Count(these, keys[..|keys| - 1]) + if keys[|keys| - 1] in these then 1 else 0
  }

  lemma {:induction false} CountMeans(these: set<Key>, keys: seq<Key>)
    ensures Count(these, keys) <= |keys|
    ensures Count(these, keys) == |keys| <==> forall k <- keys :: k in these
    ensures Count(these, keys) == 0 <==> forall k <- keys :: k !in these
  {
    if keys != [] {
      var rest := keys[..|keys| - 1];
      assert keys == rest + [keys[|keys| - 1]];
      CountMeans(these, rest);
    }
  }

  lemma {:induction false} CountConcat(these: set<Key>, a: seq<Key>, b: seq<Key>)
    ensures Count(these, a + b) == Count(these, a) + Count(these, b)
  {
    if b == [] {
      assert a + b == a;
    } else {
      var n := |b| - 1;
      assert (a + b)[..|a + b| - 1] == a + b[..n];
      CountConcat(these, a, b[..n]);
    }
  }

  ghost predicate SlotSoFar(hash: Hash, keys: seq<Key>, slot: Option<nat>) {
    OneSlot(hash, keys) && slot == if keys == [] then None else Some(hash(keys[0]))
  }

  lemma TwoSlots(hash: Hash, cmds: seq<seq<Key>>, i: nat, j: nat)
    requires i < |cmds| && j < |cmds[i]|
    requires SlotSoFar(hash, Flatten(cmds[..i]) + cmds[i][..j], Some(hash((Flatten(cmds[..i]) + cmds[i])[0])))
    requires hash((Flatten(cmds[..i]) + cmds[i])[0]) != hash(cmds[i][j])
    ensures !OneSlot(hash, Flatten(cmds))
  {
    var keys := Flatten(cmds);
    FlattenStarts(cmds, i);
    assert keys[|Flatten(cmds[..i])| + j] == cmds[i][j];
  }

  /** What precedes a command, and the command, is where the keys of all start. */
  lemma {:induction false} FlattenStarts(cmds: seq<seq<Key>>, i: nat)
    requires i < |cmds|
    ensures Flatten(cmds[..i]) + cmds[i] <= Flatten(cmds)
    decreases |cmds|
  {
    var n := |cmds| - 1;
    if i < n {
      FlattenStarts(cmds[..n], i);
      assert cmds[..n][..i] == cmds[..i];
    }
  }

  class Store {
    const dbid: string
    var data: map<Key, Value>
    var locked: set<Key>
    var terms: seq<int>

    ghost function View(): Cluster
      reads this
    {
      Cluster(dbid, data, locked, terms)
    }

    method CountKeys(keys: seq<Key>) returns (found: nat, lockedKeys: nat)
      ensures found == Count(data.Keys, keys) && lockedKeys == Count(data.Keys * locked, keys)
    {
      found, lockedKeys := 0, 0;
      var j := 0;
      while j < |keys|
        invariant 0 <= j <= |keys|
        invariant found == Count(data.Keys, keys[..j]) && lockedKeys == Count(data.Keys * locked, keys[..j])
      {
        assert keys[..j + 1][..j] == keys[..j];
        if keys[j] in data {
          found := found + 1;
          if keys[j] in locked { lockedKeys := lockedKeys + 1; }
        }
        j := j + 1;
      }
      assert keys[..j] == keys;
    }

    /** Counts the keys of some commands that exist, and those that are locked. */
    method CheckExistence(cmds: seq<seq<Key>>) returns (r: Existence)
      ensures r == CheckKeys(data, locked, Flatten(cmds))
    {
      var total, found, lockedKeys := 0, 0, 0;
      var i := 0;
      while i < |cmds|
        invariant 0 <= i <= |cmds|
        invariant total == |Flatten(cmds[..i])| && found == Count(data.Keys, Flatten(cmds[..i]))
        invariant lockedKeys == Count(data.Keys * locked, Flatten(cmds[..i]))
      {
        var f, l := CountKeys(cmds[i]);
        FlattenPrefix(cmds, i);
        CountConcat(data.Keys, Flatten(cmds[..i]), cmds[i]);
        CountConcat(data.Keys * locked, Flatten(cmds[..i]), cmds[i]);
        total, found, lockedKeys := total + |cmds[i]|, found + f, lockedKeys + l;
        i := i + 1;
      }
      assert cmds[..i] == cmds;
      CountMeans(data.Keys, Flatten(cmds));
      CountMeans(data.Keys * locked, Flatten(cmds));
      if lockedKeys > 0 { return LockedExist; }
      if found != total { return if found == 0 then NoneExist else SomeExist; }
      return AllExist;
    }

    /** Finds the type of the first range over a slot. */
    method FindKind(g: ShardGroup, slot: nat) returns (kind: Option<Kind>)
      ensures kind == RangeKind(g.ranges, slot)
    {
      var i := 0;
      while i < |g.ranges|
        invariant 0 <= i <= |g.ranges| && RangeKind(g.ranges[i..], slot) == RangeKind(g.ranges, slot)
      {
        if g.ranges[i].start <= slot <= g.ranges[i].end { return Some(g.ranges[i].kind); }
        i := i + 1;
      }
      return None;
    }

    /** Decides what to do with commands on keys of one slot. */
    method Validate(info: Info, slot: nat, asking: bool, cmds: seq<seq<Key>>) returns (o: Outcome)
      requires Routable(info) && slot < SLOTS
      ensures o == Route(View(), info, slot, asking, Flatten(cmds))
      ensures o != NotAssociated
    {
      var g := SlotGroup(info, slot, asking, dbid);
      if g == None { return ClusterDown; }
      RouteAssociates(info, slot, asking, dbid);
      var kind := FindKind(info.groups[g.value], slot);
      if g.value != dbid { return Moved(g.value); }
      if kind.value == Migrating {
        var r := CheckExistence(cmds);
        match r {
          case AllExist => return Execute;
          case NoneExist =>
            return if info.importing[slot].Some? then Ask(info.importing[slot].value) else NoImporter;
          case _ => return TryAgain;
        }
      } else if kind.value == Importing {
        var r := CheckExistence(cmds);
        return if r == AllExist then Execute else TryAgain;
      }
      return Execute;
    }

    /** The slot of the keys of some commands: none if there are no keys, an error if they are of several slots. */
    method ComputeSlot(hash: Hash, cmds: seq<seq<Key>>) returns (ok: bool, slot: Option<nat>)
      ensures ok <==> OneSlot(hash, Flatten(cmds))
      ensures ok ==> slot == if Flatten(cmds) == [] then None else Some(hash(Flatten(cmds)[0]))
    {
      slot := None;
      var i := 0;
      while i < |cmds|
        invariant 0 <= i <= |cmds| && SlotSoFar(hash, Flatten(cmds[..i]), slot)
      {
        FlattenPrefix(cmds, i);
        var j := 0;
        assert Flatten(cmds[..i]) + cmds[i][..0] == Flatten(cmds[..i]);
        while j < |cmds[i]|
          invariant 0 <= j <= |cmds[i]| && SlotSoFar(hash, Flatten(cmds[..i]) + cmds[i][..j], slot)
        {
          ghost var before := Flatten(cmds[..i]) + cmds[i][..j];
          assert Flatten(cmds[..i]) + cmds[i][..j + 1] == before + [cmds[i][j]];
          var thisSlot := hash(cmds[i][j]);
          if slot == None {
            slot := Some(thisSlot);
          } else if slot.value != thisSlot {
            TwoSlots(hash, cmds, i, j);
            return false, slot;
          }
          j := j + 1;
        }
        assert cmds[i][..j] == cmds[i];
        i := i + 1;
      }
      assert cmds[..i] == cmds;
      return true, slot;
    }

    /** Decides what to do with commands. */
    method HandleSharding(info: Info, hash: Hash, asking: bool, cmds: seq<seq<Key>>) returns (o: Outcome)
      requires Routable(info)
      ensures o == Admit(View(), info, hash, asking, Flatten(cmds))
    {
      if !info.sharding { return Execute; }
      var ok, slot := ComputeSlot(hash, cmds);
      if !ok { return CrossSlot; }
      if slot == None { return Execute; }
      o := Validate(info, slot.value, asking, cmds);
    }

    /** Applies a lock entry. */
    method LockKeys(keys: seq<Key>, info: Info, hash: Hash) returns (locks: bool)
      requires info.WellFormed()
      modifies this`locked
      ensures View() == Lock(old(View()), info, hash, keys) && locks == MayLock(old(View()), info, hash, keys)
    {
      var slot: Option<nat> := None;
      var i := 0;
      while i < |keys|
        invariant 0 <= i <= |keys|
        invariant slot == (if i == 0 then None else Some(hash(keys[0])))
        invariant forall j | 0 <= j < i :: hash(keys[j]) == hash(keys[0])
      {
        if slot == None {
          slot := Some(hash(keys[i]));
        } else if slot.value != hash(keys[i]) {
          return false;
        }
        i := i + 1;
      }
      if slot == None { return false; }
      if info.migrating[slot.value] == None || info.migrating[slot.value].value != dbid { return false; }
      if info.importing[slot.value] == None || info.importing[slot.value].value == dbid { return false; }
      i := 0;
      while i < |keys|
        invariant 0 <= i <= |keys|
        invariant locked == old(locked) + set k <- keys[..i] | k in data
      {
        assert keys[..i + 1] == keys[..i] + [keys[i]];
        if keys[i] in data { locked := locked + {keys[i]}; }
        i := i + 1;
      }
      assert keys[..i] == keys;
      return true;
    }

    /** Applies an unlock entry. */
    method UnlockDeleteKeys(keys: seq<Key>)
      modifies this`data, this`locked
      ensures View() == UnlockDelete(old(View()), keys)
    {
      data := map k <- data | k !in keys :: data[k];
      var i := 0;
      while i < |keys|
        invariant 0 <= i <= |keys|
        invariant locked == set k <- old(locked) | k !in keys[..i]
        invariant data == map k <- old(data) | k !in keys :: old(data)[k]
      {
        assert keys[..i + 1] == keys[..i] + [keys[i]];
        locked := locked - {keys[i]};
        i := i + 1;
      }
      assert keys[..i] == keys;
      assert locked == UnlockDelete(old(View()), keys).locked && data == UnlockDelete(old(View()), keys).data;
    }

    method FindSession(g: ShardGroup, slot: nat) returns (session: Option<int>)
      ensures session == Session(g.ranges, slot)
    {
      var i := 0;
      while i < |g.ranges|
        invariant 0 <= i <= |g.ranges| && Session(g.ranges[i..], slot) == Session(g.ranges, slot)
      {
        if g.ranges[i].start <= slot <= g.ranges[i].end { return Some(g.ranges[i].session); }
        i := i + 1;
      }
      return None;
    }

    /** Whether an import is for a slot imported here, under its session, and not from an older term. */
    method AcceptsImport(m: Import, info: Info, hash: Hash) returns (ok: bool)
      requires Routable(info) && m.keys != [] && |terms| == SLOTS
      ensures ok == MayImport(View(), info, hash, m)
    {
      var slot := hash(m.keys[0]);
      if info.importing[slot] != Some(dbid) { return false; }
      assert dbid in info.groups;
      var session := FindSession(info.groups[dbid], slot);
      return session == Some(m.session) && terms[slot] <= m.term;
    }

    method RestoreKeys(m: Import)
      requires forall k <- m.keys :: k in m.dump
      modifies this`data
      ensures data == Restored(old(data), m, |m.keys|)
    {
      var i := 0;
      while i < |m.keys|
        invariant 0 <= i <= |m.keys| && data == Restored(old(data), m, i)
      {
        data := data[m.keys[i] := m.dump[m.keys[i]]];
        i := i + 1;
      }
    }

    /** Applies an import entry. */
    method ApplyImport(m: Import, info: Info, hash: Hash) returns (applied: bool)
      requires Routable(info) && m.keys != [] && |terms| == SLOTS && forall k <- m.keys :: k in m.dump
      modifies this`data, this`terms
      ensures View() == ImportKeys(old(View()), info, hash, m) && applied == MayImport(old(View()), info, hash, m)
    {
      applied := AcceptsImport(m, info, hash);
      hide Routable, MayImport, Restored;
      if applied {
        terms := terms[hash(m.keys[0]) := m.term];
        RestoreKeys(m);
      }
    }
  }
}
