/** The parser's check of a list of shard groups, and the configuration object that applies them. */
module Sharding {
  import opened Wrappers
  import opened Statuses
  import opened SlotMaps
  import opened ShardOrders

  // ----- checking a list -----

  type Marks = seq<Option<nat>>

  /** What parsing the arguments of each group has established. */
  ghost predicate Parsed(gs: seq<ShardGroup>) {
    forall i | 0 <= i < |gs| :: |gs[i].id| < ID_SIZE && forall k | 0 <= k < |gs[i].ranges| ::
      RangeValid(gs[i].ranges[k])
  }

  /** Range `b` of group `a` comes before range `k` of group `j`. */
  ghost predicate Before(gs: seq<ShardGroup>, a: int, b: int, j: int, k: int) {
    0 <= a < |gs| && 0 <= b < |gs[a].ranges| && (a < j || (a == j && b < k))
  }

  /** A map marks exactly the slots that the ranges of a kind before a position cover. */
  ghost predicate Marked(m: Marks, gs: seq<ShardGroup>, j: int, k: int, kind: Kind) {
    && |m| == SLOTS
    && (forall a, b, slot | Before(gs, a, b, j, k) && gs[a].ranges[b].kind == kind && 0 <= slot < SLOTS &&
                            Covers(gs[a].ranges[b], slot) :: m[slot] == Some(a))
    && (forall slot | 0 <= slot < SLOTS && m[slot].Some? ::
          exists b :: Before(gs, m[slot].value, b, j, k) && gs[m[slot].value].ranges[b].kind == kind &&
                      Covers(gs[m[slot].value].ranges[b], slot))
  }

  /** The ranges before a position are of known types and go together. */
  ghost predicate Sound(gs: seq<ShardGroup>, j: int, k: int) {
    && (forall a, b | Before(gs, a, b, j, k) :: gs[a].ranges[b].kind != Unknown)
    && (forall a, b, c, d | Before(gs, a, b, j, k) && Before(gs, c, d, j, k) && (a < c || (a == c && b < d)) ::
          Together(gs[a].ranges[b], gs[c].ranges[d]))
  }

  /** A slot that a range of a kind may still take. */
  predicate Open(stable: Marks, importing: Marks, migrating: Marks, kind: Kind, slot: int)
    requires |stable| == |importing| == |migrating| == SLOTS && 0 <= slot < SLOTS
  {
    match kind
    case Stable => stable[slot].None? && importing[slot].None? && migrating[slot].None?
    case Importing => stable[slot].None? && importing[slot].None?
    case Migrating => stable[slot].None? && migrating[slot].None?
    case Unknown => false
  }

  ghost function Mark(m: Marks, r: SlotRange, kind: Kind, j: nat): (n: Marks)
    ensures |n| == |m|
  {
    seq(|m|, slot requires 0 <= slot < |m| => if r.kind == kind && Covers(r, slot) then Some(j) else m[slot])
  }

  /** Takes the slots of one range, unless one of them is taken. */
  method ClaimRange(stable: array<Option<nat>>, importing: array<Option<nat>>, migrating: array<Option<nat>>,
                    r: SlotRange, j: nat)
    returns (ok: bool)
    requires stable.Length == importing.Length == migrating.Length == SLOTS && RangeValid(r)
    requires stable != importing && importing != migrating && stable != migrating
    modifies stable, importing, migrating
    ensures ok <==> r.kind != Unknown && forall slot | 0 <= slot < SLOTS && Covers(r, slot) ::
                      Open(old(stable[..]), old(importing[..]), old(migrating[..]), r.kind, slot)
    ensures ok ==> stable[..] == Mark(old(stable[..]), r, Stable, j)
    ensures ok ==> importing[..] == Mark(old(importing[..]), r, Importing, j)
    ensures ok ==> migrating[..] == Mark(old(migrating[..]), r, Migrating, j)
  {
    if r.kind == Unknown { return false; }
    var l := r.start;
    while l <= r.end
      invariant r.start <= l <= r.end + 1
      invariant forall slot | r.start <= slot < l ::
                  Open(old(stable[..]), old(importing[..]), old(migrating[..]), r.kind, slot)
      invariant forall slot | 0 <= slot < SLOTS ::
                  stable[slot] == if r.kind == Stable && r.start <= slot < l then Some(j) else old(stable[slot])
      invariant forall slot | 0 <= slot < SLOTS ::
                  importing[slot] == if r.kind == Importing && r.start <= slot < l then Some(j)
                    else old(importing[slot])
      invariant forall slot | 0 <= slot < SLOTS ::
                  migrating[slot] == if r.kind == Migrating && r.start <= slot < l then Some(j)
                    else old(migrating[slot])
    {
      if stable[l].Some? {
        assert !Open(old(stable[..]), old(importing[..]), old(migrating[..]), r.kind, l);
        return false;
      }
      match r.kind {
        case Stable =>
          if importing[l].Some? || migrating[l].Some? {
            assert !Open(old(stable[..]), old(importing[..]), old(migrating[..]), r.kind, l);
            return false;
          }
          stable[l] := Some(j);
        case Importing =>
          if importing[l].Some? {
            assert !Open(old(stable[..]), old(importing[..]), old(migrating[..]), r.kind, l);
            return false;
          }
          importing[l] := Some(j);
        case Migrating =>
          if migrating[l].Some? {
            assert !Open(old(stable[..]), old(importing[..]), old(migrating[..]), r.kind, l);
            return false;
          }
          migrating[l] := Some(j);
      }
      l := l + 1;
    }
    return true;
  }

  ghost predicate GoesWithEarlier(gs: seq<ShardGroup>, j: nat, k: nat)
    requires j < |gs| && k < |gs[j].ranges|
  {
    forall a, b | Before(gs, a, b, j, k) :: Together(gs[a].ranges[b], gs[j].ranges[k])
  }

  /** A taken slot shows an earlier range that does not go with this one. */
  lemma TakenMeansConflict(m: Marks, gs: seq<ShardGroup>, j: nat, k: nat, kind: Kind, slot: int)
    requires Marked(m, gs, j, k, kind) && j < |gs| && k < |gs[j].ranges| && 0 <= slot < SLOTS && m[slot].Some?
    requires Covers(gs[j].ranges[k], slot) && !MayShare(SlotRange(0, 0, kind, 0), gs[j].ranges[k])
    ensures !GoesWithEarlier(gs, j, k)
  {
    var a := m[slot].value;
    var b :| Before(gs, a, b, j, k) && gs[a].ranges[b].kind == kind && Covers(gs[a].ranges[b], slot);
    assert !Together(gs[a].ranges[b], gs[j].ranges[k]);
  }

  /** The slots of a range are open exactly when it goes with every earlier range. */
  lemma OpenIff(stable: Marks, importing: Marks, migrating: Marks, gs: seq<ShardGroup>, j: nat, k: nat)
    requires Marked(stable, gs, j, k, Stable) && Marked(importing, gs, j, k, Importing)
             && Marked(migrating, gs, j, k, Migrating)
    requires Sound(gs, j, k) && j < |gs| && k < |gs[j].ranges| && gs[j].ranges[k].kind != Unknown
    ensures (forall slot | 0 <= slot < SLOTS && Covers(gs[j].ranges[k], slot) ::
               Open(stable, importing, migrating, gs[j].ranges[k].kind, slot)) <==> GoesWithEarlier(gs, j, k)
  {
    var r := gs[j].ranges[k];
    if slot :| 0 <= slot < SLOTS && Covers(r, slot) && !Open(stable, importing, migrating, r.kind, slot) {
      if stable[slot].Some? {
        TakenMeansConflict(stable, gs, j, k, Stable, slot);
      } else if importing[slot].Some? && r.kind != Migrating {
        TakenMeansConflict(importing, gs, j, k, Importing, slot);
      } else {
        TakenMeansConflict(migrating, gs, j, k, Migrating, slot);
      }
    } else {
      forall a, b | Before(gs, a, b, j, k) ensures Together(gs[a].ranges[b], r) {
        forall slot | 0 <= slot < SLOTS && !MayShare(gs[a].ranges[b], r)
          ensures !(Covers(gs[a].ranges[b], slot) && Covers(r, slot))
        {
          assert Covers(r, slot) ==> Open(stable, importing, migrating, r.kind, slot);
        }
      }
    }
  }

  lemma MarkStep(m: Marks, gs: seq<ShardGroup>, j: nat, k: nat, kind: Kind)
    requires Marked(m, gs, j, k, kind) && j < |gs| && k < |gs[j].ranges| && GoesWithEarlier(gs, j, k)
    ensures Marked(Mark(m, gs[j].ranges[k], kind, j), gs, j, k + 1, kind)
  {
    var r := gs[j].ranges[k];
    var n := Mark(m, r, kind, j);
    forall a, b, slot | Before(gs, a, b, j, k + 1) && gs[a].ranges[b].kind == kind && 0 <= slot < SLOTS &&
                        Covers(gs[a].ranges[b], slot)
      ensures n[slot] == Some(a)
    {
      if Before(gs, a, b, j, k) { assert Together(gs[a].ranges[b], r); }
    }
    forall slot | 0 <= slot < SLOTS && n[slot].Some?
      ensures exists b :: Before(gs, n[slot].value, b, j, k + 1) && gs[n[slot].value].ranges[b].kind == kind &&
                          Covers(gs[n[slot].value].ranges[b], slot)
    {
      if r.kind == kind && Covers(r, slot) {
        assert Before(gs, j, k, j, k + 1);
      } else {
        var b :| Before(gs, m[slot].value, b, j, k) && gs[m[slot].value].ranges[b].kind == kind &&
                 Covers(gs[m[slot].value].ranges[b], slot);
        assert Before(gs, m[slot].value, b, j, k + 1);
      }
    }
  }

  lemma SoundStep(gs: seq<ShardGroup>, j: nat, k: nat)
    requires j < |gs| && k < |gs[j].ranges|
    ensures Sound(gs, j, k + 1) <==> Sound(gs, j, k) && gs[j].ranges[k].kind != Unknown && GoesWithEarlier(gs, j, k)
  {
    assert Before(gs, j, k, j, k + 1);
    if Sound(gs, j, k + 1) {
      forall a, b | Before(gs, a, b, j, k) ensures Together(gs[a].ranges[b], gs[j].ranges[k]) {
        assert Before(gs, a, b, j, k + 1);
      }
      forall a, b, c, d | Before(gs, a, b, j, k) && Before(gs, c, d, j, k) && (a < c || (a == c && b < d))
        ensures Together(gs[a].ranges[b], gs[c].ranges[d])
      {
        assert Before(gs, a, b, j, k + 1) && Before(gs, c, d, j, k + 1);
      }
    }
  }

  ghost predicate AllMarked(stable: Marks, importing: Marks, migrating: Marks, gs: seq<ShardGroup>, j: int, k: int) {
    Marked(stable, gs, j, k, Stable) && Marked(importing, gs, j, k, Importing) && Marked(migrating, gs, j, k, Migrating)
  }

  lemma NextGroup(stable: Marks, importing: Marks, migrating: Marks, gs: seq<ShardGroup>, j: nat)
    requires j < |gs| && Sound(gs, j, |gs[j].ranges|) && AllMarked(stable, importing, migrating, gs, j, |gs[j].ranges|)
    ensures Sound(gs, j + 1, 0) && AllMarked(stable, importing, migrating, gs, j + 1, 0)
  {
    assert forall a, b :: Before(gs, a, b, j, |gs[j].ranges|) <==> Before(gs, a, b, j + 1, 0);
  }

  lemma FirstGroup(stable: Marks, importing: Marks, migrating: Marks, gs: seq<ShardGroup>)
    requires |stable| == |importing| == |migrating| == SLOTS
    requires forall i | 0 <= i < SLOTS :: stable[i].None? && importing[i].None? && migrating[i].None?
    ensures Sound(gs, 0, 0) && AllMarked(stable, importing, migrating, gs, 0, 0)
  {
  }

  lemma SoundIffConsistent(gs: seq<ShardGroup>)
    requires Parsed(gs)
    ensures Sound(gs, |gs|, 0) <==> Consistent(gs)
  {
    if Sound(gs, |gs|, 0) {
      forall i | 0 <= i < |gs| ensures GroupOk(gs[i]) && GroupConsistent(gs[i]) {
        assert forall k | 0 <= k < |gs[i].ranges| :: Before(gs, i, k, |gs|, 0);
      }
      forall i, j | 0 <= i < j < |gs| ensures GroupsConsistent(gs[i], gs[j]) {
        assert forall k | 0 <= k < |gs[i].ranges| :: Before(gs, i, k, |gs|, 0);
        assert forall k | 0 <= k < |gs[j].ranges| :: Before(gs, j, k, |gs|, 0);
      }
    } else if Consistent(gs) {
      forall a, b, c, d | Before(gs, a, b, |gs|, 0) && Before(gs, c, d, |gs|, 0) && (a < c || (a == c && b < d))
        ensures Together(gs[a].ranges[b], gs[c].ranges[d])
      {
        if a < c { assert GroupsConsistent(gs[a], gs[c]); } else { assert GroupConsistent(gs[a]); }
      }
    }
  }

  /** An unsound prefix makes the whole list unsound. */
  lemma SoundWhole(gs: seq<ShardGroup>, j: nat, k: nat)
    requires Sound(gs, |gs|, 0) && j < |gs| && k <= |gs[j].ranges|
    ensures Sound(gs, j, k)
  {
    assert forall a, b :: Before(gs, a, b, j, k) ==> Before(gs, a, b, |gs|, 0);
  }

  /** The check of a parsed list: it is accepted exactly when consistent, and the three maps then say who
      claims each slot. */
  method CheckGroups(gs: seq<ShardGroup>)
    returns (ok: bool, stable: array<Option<nat>>, importing: array<Option<nat>>, migrating: array<Option<nat>>)
    requires Parsed(gs)
    ensures ok <==> Consistent(gs)
    ensures ok ==> AllMarked(stable[..], importing[..], migrating[..], gs, |gs|, 0)
  {
    stable := new Option<nat>[SLOTS](_ => None);
    importing := new Option<nat>[SLOTS](_ => None);
    migrating := new Option<nat>[SLOTS](_ => None);
    SoundIffConsistent(gs);
    FirstGroup(stable[..], importing[..], migrating[..], gs);
    hide AllMarked, Sound, Consistent, Parsed;
    var j := 0;
    while j < |gs|
      invariant 0 <= j <= |gs|
      invariant Sound(gs, j, 0) && AllMarked(stable[..], importing[..], migrating[..], gs, j, 0)
    {
      ok := CheckGroup(gs, j, stable, importing, migrating);
      if !ok { return; }
      NextGroup(stable[..], importing[..], migrating[..], gs, j);
      j := j + 1;
    }
    ok := true;
  }

  method CheckGroup(gs: seq<ShardGroup>, j: nat, stable: array<Option<nat>>, importing: array<Option<nat>>,
                    migrating: array<Option<nat>>)
    returns (ok: bool)
    requires j < |gs| && Parsed(gs)
    requires stable.Length == importing.Length == migrating.Length == SLOTS
    requires stable != importing && importing != migrating && stable != migrating
    requires Sound(gs, j, 0) && AllMarked(stable[..], importing[..], migrating[..], gs, j, 0)
    modifies stable, importing, migrating
    ensures !ok ==> !Sound(gs, |gs|, 0)
    ensures ok ==>
              Sound(gs, j, |gs[j].ranges|) && AllMarked(stable[..], importing[..], migrating[..], gs, j, |gs[j].ranges|)
  {
    hide Marked, Sound, Open, GoesWithEarlier, Before;
    var k := 0;
    while k < |gs[j].ranges|
      invariant 0 <= k <= |gs[j].ranges|
      invariant Sound(gs, j, k) && AllMarked(stable[..], importing[..], migrating[..], gs, j, k)
    {
      MarkedLengths(gs, j, k, stable[..], importing[..], migrating[..]);
      SoundStep(gs, j, k);
      if gs[j].ranges[k].kind != Unknown {
        OpenIff(stable[..], importing[..], migrating[..], gs, j, k);
      }
      ghost var s, i, m := stable[..], importing[..], migrating[..];
      ok := ClaimRange(stable, importing, migrating, gs[j].ranges[k], j);
      if !ok {
        if Sound(gs, |gs|, 0) { SoundWhole(gs, j, k + 1); }
        return;
      }
      MarkStep(s, gs, j, k, Stable);
      MarkStep(i, gs, j, k, Importing);
      MarkStep(m, gs, j, k, Migrating);
      k := k + 1;
    }
    ok := true;
  }

  lemma MarkedLengths(gs: seq<ShardGroup>, j: nat, k: nat, s: Marks, i: Marks, m: Marks)
    requires Marked(s, gs, j, k, Stable) && Marked(i, gs, j, k, Importing) && Marked(m, gs, j, k, Migrating)
    ensures |s| == |i| == |m| == SLOTS
  {
  }

  // ----- the configuration -----

  class ShardingInfo {
    const dbid: string
    var groups: map<string, ShardGroup>
    const stable: array<Option<string>>
    const importing: array<Option<string>>
    const migrating: array<Option<string>>
    const importTerms: array<int>
    var sharding: bool

    ghost predicate Separate() {
      && stable.Length == importing.Length == migrating.Length == importTerms.Length == SLOTS
      && stable != importing && importing != migrating && stable != migrating
    }

    ghost function View(): (r: Info)
      requires Separate()
      reads this, stable, importing, migrating
      ensures r.WellFormed()
    {
      Info(groups, stable[..], importing[..], migrating[..], sharding)
    }

    /** Every owner in the maps has a range over the slot. */
    ghost predicate Valid()
      reads this, stable, importing, migrating
    {
      Separate() && Routable(View()) && forall id | id in groups :: groups[id].id == id
    }

    constructor (dbid: string)
      ensures Valid() && View() == Empty(false) && this.dbid == dbid
      ensures fresh(stable) && fresh(importing) && fresh(migrating) && fresh(importTerms)
      ensures forall slot | 0 <= slot < SLOTS :: importTerms[slot] == 0
    {
      this.dbid := dbid;
      groups := map[];
      stable := new Option<string>[SLOTS](_ => None);
      importing := new Option<string>[SLOTS](_ => None);
      migrating := new Option<string>[SLOTS](_ => None);
      importTerms := new int[SLOTS](_ => 0);
      sharding := false;
    }

    /** Whether every slot of a new group is available. */
    method Validate(g: ShardGroup) returns (ok: bool)
      requires Separate()
      ensures ok <==> forall k | 0 <= k < |g.ranges| :: RangeAccepted(View(), g.ranges[k])
    {
      var h := 0;
      while h < |g.ranges|
        invariant 0 <= h <= |g.ranges|
        invariant forall k | 0 <= k < h :: RangeAccepted(View(), g.ranges[k])
      {
        var r := g.ranges[h];
        if !RangeValid(r) { return false; }
        var i := r.start;
        while i <= r.end
          invariant r.start <= i <= r.end + 1
          invariant forall slot | r.start <= slot < i :: Free(View(), r, slot)
        {
          if stable[i].Some? || (r.kind == Migrating && migrating[i].Some?)
            || (r.kind == Importing && importing[i].Some?) {
            assert !Free(View(), r, i);
            return false;
          }
          i := i + 1;
        }
        h := h + 1;
      }
      return true;
    }

    /** Enters one range into the map of its type. */
    method MapRange(g: ShardGroup, r: SlotRange)
      requires Separate() && RangeValid(r) && r.kind != Unknown
      modifies stable, importing, migrating, importTerms
      ensures forall slot | 0 <= slot < SLOTS ::
                && stable[slot] == (if r.kind == Stable && Covers(r, slot) then Some(g.id) else old(stable[slot]))
                && importing[slot] == (if r.kind == Importing && Covers(r, slot) then Some(g.id)
                   else old(importing[slot]))
                && migrating[slot] == (if r.kind == Migrating && Covers(r, slot) then Some(g.id)
                   else old(migrating[slot]))
                && importTerms[slot] == (if g.id == dbid && r.kind != Importing && Covers(r, slot) then 0
                   else old(importTerms[slot]))
    {
      var j := r.start;
      while j <= r.end
        invariant r.start <= j <= r.end + 1
        invariant forall slot | 0 <= slot < SLOTS ::
                    && stable[slot] == (if r.kind == Stable && r.start <= slot < j then Some(g.id)
                       else old(stable[slot]))
                    && importing[slot] == (if r.kind == Importing && r.start <= slot < j then Some(g.id)
                       else old(importing[slot]))
                    && migrating[slot] == (if r.kind == Migrating && r.start <= slot < j then Some(g.id)
                       else old(migrating[slot]))
                    && importTerms[slot] == (if g.id == dbid && r.kind != Importing && r.start <= slot < j then 0
                       else old(importTerms[slot]))
      {
        match r.kind {
          case Stable =>
            if g.id == dbid { importTerms[j] := 0; }
            stable[j] := Some(g.id);
          case Importing =>
            importing[j] := Some(g.id);
          case Migrating =>
            if g.id == dbid { importTerms[j] := 0; }
            migrating[j] := Some(g.id);
        }
        j := j + 1;
      }
    }

    /** Enters every range; an unknown type is a panic. */
    method MapRanges(g: ShardGroup) returns (ok: bool)
      requires Separate() && forall k | 0 <= k < |g.ranges| :: RangeValid(g.ranges[k])
      modifies stable, importing, migrating, importTerms
      ensures ok <==> KnownKinds(g)
      ensures ok ==> stable[..] == Overlay(old(stable[..]), g, Stable)
      ensures ok ==> importing[..] == Overlay(old(importing[..]), g, Importing)
      ensures ok ==> migrating[..] == Overlay(old(migrating[..]), g, Migrating)
      ensures ok ==> forall slot | 0 <= slot < SLOTS ::
                importTerms[slot] == if g.id == dbid && (Claims(g, Stable, slot) || Claims(g, Migrating, slot)) then 0
                  else old(importTerms[slot])
    {
      var i := 0;
      while i < |g.ranges|
        invariant 0 <= i <= |g.ranges|
        invariant forall k | 0 <= k < i :: g.ranges[k].kind != Unknown
        invariant forall slot | 0 <= slot < SLOTS ::
                    && stable[slot] == (if ClaimsBefore(g, Stable, slot, i) then Some(g.id) else old(stable[slot]))
                    && importing[slot] == (if ClaimsBefore(g, Importing, slot, i) then Some(g.id)
                       else old(importing[slot]))
                    && migrating[slot] == (if ClaimsBefore(g, Migrating, slot, i) then Some(g.id)
                       else old(migrating[slot]))
        invariant forall slot | 0 <= slot < SLOTS ::
                    importTerms[slot] == if g.id == dbid
                      && (ClaimsBefore(g, Stable, slot, i) || ClaimsBefore(g, Migrating, slot, i))
                                         then 0 else old(importTerms[slot])
      {
        if g.ranges[i].kind == Unknown { return false; }
        MapRange(g, g.ranges[i]);
        forall slot, kind ensures ClaimsBefore(g, kind, slot, i + 1) <==>
                                  ClaimsBefore(g, kind, slot, i)
                                    || (g.ranges[i].kind == kind && Covers(g.ranges[i], slot))
        {
          ClaimsOneMore(g, kind, slot, i);
        }
        i := i + 1;
      }
      assert forall slot, kind :: ClaimsBefore(g, kind, slot, |g.ranges|) <==> Claims(g, kind, slot);
      return true;
    }

    /** Adds a group if it is acceptable; otherwise nothing changes. */
    method Add(g: ShardGroup) returns (status: Status)
      requires Valid()
      modifies this, stable, importing, migrating, importTerms
      ensures status == Error <==> !Accepts(old(View()), g)
      ensures status == Error ==> View() == old(View()) && Valid() && importTerms[..] == old(importTerms[..])
      ensures status == Ok <==> Accepts(old(View()), g) && KnownKinds(g)
      ensures status == Ok ==> View() == Added(old(View()), g, dbid) && Valid()
      ensures status == Ok ==> forall slot | 0 <= slot < SLOTS ::
                importTerms[slot] == if g.id == dbid && (Claims(g, Stable, slot) || Claims(g, Migrating, slot)) then 0
                  else old(importTerms[slot])
    {
      var ok := Validate(g);
      if !ok || |g.id| >= ID_SIZE || g.id in groups { return Error; }
      assert Accepts(View(), g);
      var first := groups == map[];
      groups := groups[g.id := g];
      ok := MapRanges(g);
      if !ok { return Panic; }
      if !sharding {
        if !first {
          sharding := true;
        } else if !Whole(g, dbid) {
          sharding := true;
        }
      }
      AddedIsRoutable(old(View()), g, dbid);
      return Ok;
    }

    /** Forgets all groups. */
    method Clear()
      requires Separate()
      modifies this, stable, importing, migrating
      ensures Valid() && View() == Empty(old(sharding))
    {
      groups := map[];
      forall i | 0 <= i < SLOTS { stable[i] := None; }
      forall i | 0 <= i < SLOTS { importing[i] := None; }
      forall i | 0 <= i < SLOTS { migrating[i] := None; }
    }

    /** Adds a list, group by group, asserting that each is accepted. */
    method AddEach(gs: seq<ShardGroup>) returns (status: Status)
      requires Valid()
      modifies this, stable, importing, migrating, importTerms
      ensures status == Ok ==> Valid() && AddAll(old(View()), gs, dbid) == Some(View())
      ensures status == Ok <==> AddAll(old(View()), gs, dbid).Some? && forall i | 0 <= i < |gs| :: KnownKinds(gs[i])
      ensures status != Error
    {
      var i := 0;
      hide Accepts, Added, KnownKinds, Routable;
      while i < |gs|
        invariant 0 <= i <= |gs| && Valid()
        invariant forall k | 0 <= k < i :: KnownKinds(gs[k])
        invariant AddAll(View(), gs[i..], dbid) == AddAll(old(View()), gs, dbid)
      {
        assert gs[i..][1..] == gs[i + 1..] && gs[i..][0] == gs[i];
        status := Add(gs[i]);
        if status != Ok { return Panic; }
        i := i + 1;
      }
      return Ok;
    }

    /** Applies a REPLACE entry. */
    method Replace(gs: seq<ShardGroup>) returns (status: Status)
      requires Valid()
      modifies this, stable, importing, migrating, importTerms
      ensures status == Ok ==> Valid() && AddAll(Empty(old(sharding)), gs, dbid) == Some(View())
      ensures status == Ok <==> AddAll(Empty(old(sharding)), gs, dbid).Some? && forall i | 0 <= i < |gs| ::
                KnownKinds(gs[i])
      ensures status != Error
    {
      Clear();
      status := AddEach(gs);
    }

    /** The groups in the order of the dictionary, and the import terms. */
    method Save() returns (gs: seq<ShardGroup>, terms: seq<int>)
      requires Valid()
      ensures SavedAs(groups, gs) && terms == importTerms[..]
    {
      gs := [];
      var left := groups.Keys;
      while left != {}
        invariant left <= groups.Keys && SavedSoFar(groups, left, gs)
        decreases |left|
      {
        LeastExists(left);
        var id :| id in left && forall x <- left :: x == id || IdLess(id, x);
        SavedNext(groups, left, gs, id);
        gs := gs + [groups[id]];
        left := left - {id};
      }
      terms := importTerms[..];
    }

    /** Loads the groups of a snapshot, in the order they were saved, and the import terms. */
    method Load(gs: seq<ShardGroup>, terms: seq<int>) returns (status: Status)
      requires Valid() && |terms| == SLOTS
      modifies this, stable, importing, migrating, importTerms
      ensures status == Ok ==> Valid() && AddAll(Empty(false), gs, dbid) == Some(View()) && importTerms[..] == terms
      ensures status == Ok <==> AddAll(Empty(false), gs, dbid).Some? && forall i | 0 <= i < |gs| :: KnownKinds(gs[i])
    {
      sharding := false;
      Clear();
      status := AddEach(gs);
      if status == Ok {
        forall i | 0 <= i < SLOTS { importTerms[i] := terms[i]; }
      }
    }
  }

  /** Saving a configuration and loading it into a fresh one. */
  method SaveAndLoad(info: ShardingInfo, ghost hs: seq<ShardGroup>)
    returns (status: Status, again: ShardingInfo, gs: seq<ShardGroup>)
    requires info.Valid() && AllOk(hs) && Represents(info.View(), hs)
    ensures SavedAs(info.groups, gs) && again.Separate()
    ensures status == Ok <==> StableLast(info.View())
    ensures status == Ok ==> again.View() == info.View().(sharding := NeedsRouting(gs, info.dbid))
                             && again.importTerms[..] == info.importTerms[..]
  {
    hide Represents, AllOk, StableLast, SavedAs, AddAll, NeedsRouting, Routable;
    var terms;
    gs, terms := info.Save();
    LoadsBackIff(info.View(), hs, gs, info.dbid);
    SavedRepresents(info.View(), hs, gs);
    AllKnown(gs);
    again := new ShardingInfo(info.dbid);
    status := again.Load(gs, terms);
  }

  lemma AllKnown(gs: seq<ShardGroup>)
    requires AllOk(gs)
    ensures forall i | 0 <= i < |gs| :: KnownKinds(gs[i])
  {
    forall i | 0 <= i < |gs| ensures KnownKinds(gs[i]) { assert GroupOk(gs[i]); }
  }

  /** The groups saved come before those left. */
  ghost predicate SavedSoFar(groups: map<string, ShardGroup>, left: set<string>, gs: seq<ShardGroup>) {
    && Sorted(gs)
    && (forall i | 0 <= i < |gs| :: gs[i].id in groups && groups[gs[i].id] == gs[i])
    && (forall id | id in groups && id !in left :: exists i :: 0 <= i < |gs| && gs[i].id == id)
    && (forall i, id | 0 <= i < |gs| && id in left :: IdLess(gs[i].id, id))
  }

  lemma SavedNext(groups: map<string, ShardGroup>, left: set<string>, gs: seq<ShardGroup>, id: string)
    requires SavedSoFar(groups, left, gs) && id in left && id in groups && groups[id].id == id
    requires forall x <- left :: x == id || IdLess(id, x)
    ensures SavedSoFar(groups, left - {id}, gs + [groups[id]])
  {
    hide IdLess;
    var hs := gs + [groups[id]];
    assert hs[|gs|].id == id && forall i | 0 <= i < |gs| :: hs[i] == gs[i];
    forall x | x in groups && x !in left - {id} ensures exists i :: 0 <= i < |hs| && hs[i].id == x {
      if x != id {
        var i :| 0 <= i < |gs| && gs[i].id == x;
        assert hs[i].id == x;
      }
    }
  }

  lemma {:induction false} LeastExists(ids: set<string>)
    requires ids != {}
    ensures exists id :: id in ids && forall x <- ids :: x == id || IdLess(id, x)
    decreases |ids|
  {
    var one :| one in ids;
    if ids - {one} == {} {
      assert ids == {one};
    } else {
      LeastExists(ids - {one});
      var least :| least in ids - {one} && forall x <- ids - {one} :: x == least || IdLess(least, x);
      IdLessTotal(one, least);
      if IdLess(one, least) {
        forall x <- ids ensures x == one || IdLess(one, x) {
          if x != one && x != least { IdLessTransitive(one, least, x); }
        }
      } else {
        assert forall x <- ids :: x == least || IdLess(least, x);
      }
    }
  }

  ghost predicate KnownKinds(g: ShardGroup) {
    forall k | 0 <= k < |g.ranges| :: g.ranges[k].kind != Unknown
  }

  ghost predicate ClaimsBefore(g: ShardGroup, kind: Kind, slot: int, n: int) {
    exists k :: 0 <= k < n && k < |g.ranges| && g.ranges[k].kind == kind && Covers(g.ranges[k], slot)
  }

  lemma ClaimsOneMore(g: ShardGroup, kind: Kind, slot: int, i: nat)
    requires i < |g.ranges|
    ensures ClaimsBefore(g, kind, slot, i + 1) <==>
            ClaimsBefore(g, kind, slot, i) || (g.ranges[i].kind == kind && Covers(g.ranges[i], slot))
  {
  }

  // ----- parsing and applying agree -----

  function Owner(gs: seq<ShardGroup>, mark: Option<nat>): Option<string> {
    if mark.Some? && mark.value < |gs| then Some(gs[mark.value].id) else None
  }

  lemma OwnersAgree(gs: seq<ShardGroup>, m: Marks, o: seq<Option<string>>, kind: Kind, slot: nat)
    requires Marked(m, gs, |gs|, 0, kind) && MapOk(o, gs, kind) && slot < SLOTS
    ensures o[slot] == Owner(gs, m[slot])
  {
    if m[slot].Some? {
      var a := m[slot].value;
      var b :| Before(gs, a, b, |gs|, 0) && gs[a].ranges[b].kind == kind && Covers(gs[a].ranges[b], slot);
      assert Claims(gs[a], kind, slot);
    } else {
      forall i, k | 0 <= i < |gs| && 0 <= k < |gs[i].ranges|
        ensures !(gs[i].ranges[k].kind == kind && Covers(gs[i].ranges[k], slot))
      {
        assert Before(gs, i, k, |gs|, 0);
      }
    }
  }

  /** A list the parser accepts is applied without an assertion failure exactly when its ids are distinct,
      and the maps it builds are the ones the parser computed. */
  lemma ReplaceMatchesParser(gs: seq<ShardGroup>, stable: Marks, importing: Marks, migrating: Marks,
                             sharding: bool, dbid: string)
    requires Consistent(gs) && AllMarked(stable, importing, migrating, gs, |gs|, 0)
    ensures AddAll(Empty(sharding), gs, dbid).Some? <==> DistinctIds(gs)
    ensures DistinctIds(gs) ==>
              var info := AddAll(Empty(sharding), gs, dbid).value;
              forall slot | 0 <= slot < SLOTS ::
                && info.stable[slot] == Owner(gs, stable[slot])
                && info.importing[slot] == Owner(gs, importing[slot])
                && info.migrating[slot] == Owner(gs, migrating[slot])
  {
    ConsistentInOrder(gs);
    AddedIff(gs, sharding, dbid);
    if DistinctIds(gs) {
      var info := AddAll(Empty(sharding), gs, dbid).value;
      hide Consistent, DistinctIds, MapOk, Marked, AddAll;
      forall slot | 0 <= slot < SLOTS
        ensures && info.stable[slot] == Owner(gs, stable[slot])
                && info.importing[slot] == Owner(gs, importing[slot])
                && info.migrating[slot] == Owner(gs, migrating[slot])
      {
        OwnersAgree(gs, stable, info.stable, Stable, slot);
        OwnersAgree(gs, importing, info.importing, Importing, slot);
        OwnersAgree(gs, migrating, info.migrating, Migrating, slot);
      }
    }
  }

  lemma {:induction false} AddedIdsDistinct(info: Info, gs: seq<ShardGroup>, dbid: string)
    requires info.WellFormed() && AddAll(info, gs, dbid).Some?
    ensures DistinctIds(gs) && forall i | 0 <= i < |gs| :: gs[i].id !in info.groups
    decreases |gs|
  {
    if gs != [] {
      AddedIdsDistinct(Added(info, gs[0], dbid), gs[1..], dbid);
      forall i, j | 0 <= i < j < |gs| ensures gs[i].id != gs[j].id {
        assert gs[j] == gs[1..][j - 1];
        if i > 0 { assert gs[i] == gs[1..][i - 1]; }
      }
      forall i | 0 <= i < |gs| ensures gs[i].id !in info.groups {
        if i > 0 { assert gs[i] == gs[1..][i - 1]; }
      }
    }
  }

  /** Adding a single group is laxer than parsing a whole list in two ways: the group's own ranges may overlap, and
      a stable range may cover a slot that others import or migrate.  These, and a list that was lax before, are the
      only ones that the parser would refuse. */
  lemma AddVersusParser(gs: seq<ShardGroup>, g: ShardGroup, info: Info)
    requires Represents(info, gs) && AllOk(gs) && GroupOk(g) && Accepts(info, g)
    ensures Consistent(gs + [g]) <==>
            && Consistent(gs) && GroupConsistent(g)
            && forall slot | 0 <= slot < SLOTS && Claims(g, Stable, slot) ::
                 info.importing[slot].None? && info.migrating[slot].None?
  {
    hide GroupConsistent;
    AppendConsistent(gs, g);
    if Consistent(gs) && GroupConsistent(g) {
      AcceptedConflicts(gs, g, info);
    }
  }

  lemma AcceptedConflicts(gs: seq<ShardGroup>, g: ShardGroup, info: Info)
    requires Represents(info, gs) && AllOk(gs) && GroupOk(g) && Accepts(info, g)
    ensures (forall i | 0 <= i < |gs| :: GroupsConsistent(gs[i], g)) <==>
            forall slot | 0 <= slot < SLOTS && Claims(g, Stable, slot) ::
              info.importing[slot].None? && info.migrating[slot].None?
  {
    if forall i | 0 <= i < |gs| :: GroupsConsistent(gs[i], g) {
      forall slot | 0 <= slot < SLOTS && Claims(g, Stable, slot)
        ensures info.importing[slot].None? && info.migrating[slot].None?
      {
        var k := ClaimedRange(g, Stable, slot);
        StableAlone(info.importing, gs, Importing, g, k, slot);
        StableAlone(info.migrating, gs, Migrating, g, k, slot);
      }
    }
    if forall slot | 0 <= slot < SLOTS && Claims(g, Stable, slot) ::
         info.importing[slot].None? && info.migrating[slot].None?
    {
      forall i | 0 <= i < |gs| ensures GroupsConsistent(gs[i], g) {
        forall j, k | 0 <= j < |gs[i].ranges| && 0 <= k < |g.ranges| ensures Together(gs[i].ranges[j], g.ranges[k]) {
          AcceptedTogether(gs, g, info, i, j, k);
        }
      }
    }
  }

  lemma AppendConsistent(gs: seq<ShardGroup>, g: ShardGroup)
    requires GroupOk(g)
    ensures Consistent(gs + [g]) <==>
            Consistent(gs) && GroupConsistent(g) && forall i | 0 <= i < |gs| :: GroupsConsistent(gs[i], g)
  {
    hide GroupOk, GroupConsistent, GroupsConsistent;
    var hs := gs + [g];
    assert hs[|gs|] == g && forall i | 0 <= i < |gs| :: hs[i] == gs[i];
    if Consistent(hs) {
      forall i | 0 <= i < |gs| ensures GroupsConsistent(gs[i], g) && GroupOk(gs[i]) && GroupConsistent(gs[i]) {
        assert GroupsConsistent(hs[i], hs[|gs|]) && GroupOk(hs[i]);
      }
      forall i, j | 0 <= i < j < |gs| ensures GroupsConsistent(gs[i], gs[j]) {
        assert GroupsConsistent(hs[i], hs[j]);
      }
    }
  }

  lemma StableAlone(m: seq<Option<string>>, gs: seq<ShardGroup>, kind: Kind, g: ShardGroup, k: nat, slot: int)
    requires MapOk(m, gs, kind) && 0 <= slot < SLOTS && k < |g.ranges| && g.ranges[k].kind == Stable
             && Covers(g.ranges[k], slot)
    requires forall i | 0 <= i < |gs| :: GroupsConsistent(gs[i], g)
    ensures m[slot] == None
  {
    forall i, j | 0 <= i < |gs| && 0 <= j < |gs[i].ranges|
      ensures !(gs[i].ranges[j].kind == kind && Covers(gs[i].ranges[j], slot))
    {
      assert Together(gs[i].ranges[j], g.ranges[k]);
    }
  }

  lemma AcceptedTogether(gs: seq<ShardGroup>, g: ShardGroup, info: Info, i: nat, j: nat, k: nat)
    requires Represents(info, gs) && i < |gs| && j < |gs[i].ranges| && k < |g.ranges|
    requires GroupOk(gs[i]) && GroupOk(g) && Accepts(info, g)
    requires forall slot | 0 <= slot < SLOTS && Claims(g, Stable, slot) ::
               info.importing[slot].None? && info.migrating[slot].None?
    ensures Together(gs[i].ranges[j], g.ranges[k])
  {
    var a, b := gs[i].ranges[j], g.ranges[k];
    assert RangeAccepted(info, b);
    forall slot | 0 <= slot < SLOTS && !MayShare(a, b) ensures !(Covers(a, slot) && Covers(b, slot)) {
      assert Covers(a, slot) ==> Claims(gs[i], a.kind, slot);
      assert Covers(b, slot) ==> Claims(g, b.kind, slot) && Free(info, b, slot);
    }
  }
}
