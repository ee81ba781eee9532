/** Recent log entries kept in memory: a growable ring buffer. */
module EntryCaches {
  import opened Wrappers
  import opened PageCodec

  /** The memory accounted for entries, each with a fixed overhead. */
  function Memory(es: seq<Entry>, overhead: nat): nat {
    if es == [] then 0 else overhead + |es[0].data| + Memory(es[1..], overhead)
  }

  lemma {:induction false} MemoryConcat(a: seq<Entry>, b: seq<Entry>, overhead: nat)
    ensures Memory(a + b, overhead) == Memory(a, overhead) + Memory(b, overhead)
    decreases |a|
  {
    if a == [] {
      assert a + b == b;
    } else {
      assert (a + b)[1..] == a[1..] + b;
      MemoryConcat(a[1..], b, overhead);
    }
  }

  lemma MemoryHead(es: seq<Entry>, k: nat, overhead: nat)
    requires k < |es|
    ensures Memory(es[k..], overhead) == overhead + |es[k].data| + Memory(es[k + 1..], overhead)
  {
    assert es[k..][1..] == es[k + 1..];
  }

  lemma MemoryNone(overhead: nat)
    ensures Memory([], overhead) == 0
  {
  }

  lemma MemoryOne(e: Entry, overhead: nat)
    ensures Memory([e], overhead) == overhead + |e.data|
  {
    assert [e][1..] == [];
  }

  /** The slot `i` places after `start` in a ring. */
  function Slot(start: nat, i: nat, size: nat): nat {
    if start + i < size then start + i else start + i - size
  }

  lemma SlotIsRemainder(start: nat, i: nat, size: nat)
    requires start < size && i <= size
    ensures size > 0 && (start + i) % size == Slot(start, i, size)
  {
    if start + i >= size {
      RemainderUnique(start + i, size, 1, start + i - size);
    } else {
      RemainderUnique(start + i, size, 0, start + i);
    }
  }

  lemma RemainderUnique(a: nat, d: nat, q: nat, r: nat)
    requires r < d && a == d * q + r
    ensures a % d == r
  {
    var q' := a / d;
    assert d * q' + a % d == a;
    if q' > q {
      MulGrows(d, q, q');
    } else if q' < q {
      MulGrows(d, q', q);
    }
  }

  lemma MulGrows(d: nat, x: nat, y: nat)
    requires x < y
    ensures d * x + d <= d * y
  {
    assert d * y == d * x + d * (y - x);
    assert d * (y - x) == d + d * (y - x - 1);
  }

  class EntryCache {
    const overhead: nat
    var ptrs: array<Option<Entry>>
    var size: nat
    var len: nat
    var startIdx: nat
    var start: nat
    var memory: nat
    ghost var contents: seq<Entry>

    ghost predicate Valid()
      reads this, ptrs
    {
      && size == ptrs.Length && start < size && len <= size && len == |contents|
      && (forall i | 0 <= i < len :: ptrs[Slot(start, i, size)] == Some(contents[i]))
      && memory == Memory(contents, overhead)
      && (startIdx == 0 <==> len == 0)
    }

    lemma Shape()
      requires Valid()
      ensures len == |contents| && (startIdx == 0 <==> len == 0)
    {
    }

    constructor (initialSize: nat, overhead: nat)
      requires initialSize > 0
      ensures Valid() && fresh(ptrs) && contents == []
    {
      this.overhead := overhead;
      ptrs := new Option<Entry>[initialSize](i => None);
      size, len, startIdx, start, memory := initialSize, 0, 0, 0, 0;
      contents := [];
    }

    /** Entries must arrive in index order: otherwise an assertion stops the process. */
    method Append(e: Entry, idx: nat) returns (ok: bool)
      requires Valid() && idx > 0
      modifies this, ptrs
      ensures ok <==> old(len) == 0 || old(startIdx + len) == idx
      ensures ok ==> Valid() && contents == old(contents) + [e]
                     && startIdx == if old(len) == 0 then idx else old(startIdx)
      ensures ptrs == old(ptrs) || fresh(ptrs)
    {
      hide Memory;
      if startIdx == 0 {
        startIdx := idx;
      }
      if startIdx + len != idx {
        return false;
      }
      if len == size {
        Grow();
      }
      SlotIsRemainder(start, len, size);
      ptrs[(start + len) % size] := Some(e);
      len := len + 1;
      memory := memory + overhead + |e.data|;
      MemoryConcat(contents, [e], overhead);
      MemoryOne(e, overhead);
      contents := contents + [e];
      return true;
    }

    /** Double the ring: what had wrapped around moves behind the old end. */
    method Grow()
      requires size == ptrs.Length == len == |contents| && start < size
      requires forall i | 0 <= i < len :: ptrs[Slot(start, i, size)] == Some(contents[i])
      modifies this`ptrs, this`size
      ensures fresh(ptrs) && size == ptrs.Length == 2 * old(size)
      ensures forall i | 0 <= i < len :: ptrs[Slot(start, i, size)] == Some(contents[i])
    {
      var old_, oldSize, head := ptrs, size, start;
      var bigger := new Option<Entry>[2 * oldSize]
                      (i requires 0 <= i < 2 * oldSize reads old_ =>
                       if i < head then None
                       else if i < oldSize && i < old_.Length then old_[i]
                       else if i - oldSize < head && i - oldSize < old_.Length then old_[i - oldSize]
                       else None);
      ptrs := bigger;
      size := 2 * oldSize;
    }

    method Get(idx: nat) returns (r: Option<Entry>)
      requires Valid()
      ensures r == if startIdx <= idx < startIdx + len then Some(contents[idx - startIdx]) else None
    {
      if idx < startIdx {
        return None;
      }
      var relIdx := idx - startIdx;
      if relIdx >= len {
        return None;
      }
      SlotIsRemainder(start, relIdx, size);
      r := ptrs[(start + relIdx) % size];
    }

    /** Drop the first entry, leaving the start index to the caller when none is left. */
    method DropFirst()
      requires size == ptrs.Length && start < size && 0 < len <= size && len == |contents|
      requires forall i | 0 <= i < len :: ptrs[Slot(start, i, size)] == Some(contents[i])
      requires memory == Memory(contents, overhead)
      modifies this`len, this`startIdx, this`start, this`memory, this`contents, ptrs
      ensures size == ptrs.Length && start < size && len == |contents| == old(len) - 1
      ensures contents == old(contents)[1..] && startIdx == old(startIdx) + 1
      ensures forall i | 0 <= i < len :: ptrs[Slot(start, i, size)] == Some(contents[i])
      ensures memory == Memory(contents, overhead)
    {
      hide Memory;
      MemoryHead(contents, 0, overhead);
      assert contents[0..] == contents;
      assert ptrs[Slot(start, 0, size)] == Some(contents[0]);
      var e := ptrs[start].value;
      ghost var kept := contents[1..];
      ghost var next := if start + 1 >= size then 0 else start + 1;
      assert forall i | 0 <= i < len - 1 :: Slot(next, i, size) == Slot(start, i + 1, size) != start;
      assert forall i | 0 <= i < len - 1 :: ptrs[Slot(next, i, size)] == Some(kept[i]);
      memory := memory - (overhead + |e.data|);
      startIdx := startIdx + 1;
      ptrs[start] := None;
      start := start + 1;
      if start >= size {
        start := 0;
      }
      len := len - 1;
      contents := kept;
    }

    /** Drop entries before `first`; the number dropped, or -1 when `first` is before them all. */
    method DeleteHead(first: nat) returns (deleted: int)
      requires Valid()
      modifies this, ptrs
      ensures Valid() && ptrs == old(ptrs)
      ensures first < old(startIdx) ==> deleted == -1 && contents == old(contents) && startIdx == old(startIdx)
      ensures first >= old(startIdx) ==>
                && deleted == (if first - old(startIdx) < old(len) then first - old(startIdx) else old(len))
                && contents == old(contents)[deleted..]
                && (len > 0 ==> startIdx == old(startIdx) + deleted)
    {
      if first < startIdx {
        return -1;
      }
      deleted := 0;
      while first > startIdx && len > 0
        invariant size == ptrs.Length && start < size && len <= size && len == |contents| && ptrs == old(ptrs)
        invariant forall i | 0 <= i < len :: ptrs[Slot(start, i, size)] == Some(contents[i])
        invariant memory == Memory(contents, overhead)
        invariant 0 <= deleted <= |old(contents)| && contents == old(contents)[deleted..]
        invariant startIdx == old(startIdx) + deleted && (deleted > 0 ==> first >= startIdx)
        decreases len
      {
        DropFirst();
        deleted := deleted + 1;
      }
      if len == 0 {
        startIdx := 0;
      }
    }

    /** Drop the fewest entries from the head that bring the memory within the limit. */
    method Compact(maxMemory: nat) returns (deleted: nat)
      requires Valid()
      modifies this, ptrs
      ensures Valid() && ptrs == old(ptrs)
      ensures deleted <= |old(contents)| && contents == old(contents)[deleted..]
      ensures contents == [] || Memory(contents, overhead) <= maxMemory
      ensures forall k | 0 <= k < deleted :: Memory(old(contents)[k..], overhead) > maxMemory
      ensures len > 0 ==> startIdx == old(startIdx) + deleted
    {
      hide Memory;
      deleted := 0;
      while len > 0 && memory > maxMemory
        invariant size == ptrs.Length && start < size && len <= size && len == |contents| && ptrs == old(ptrs)
        invariant forall i | 0 <= i < len :: ptrs[Slot(start, i, size)] == Some(contents[i])
        invariant memory == Memory(contents, overhead)
        invariant 0 <= deleted <= |old(contents)| && contents == old(contents)[deleted..]
        invariant startIdx == old(startIdx) + deleted
        invariant forall k | 0 <= k < deleted :: Memory(old(contents)[k..], overhead) > maxMemory
        decreases len
      {
        DropFirst();
        deleted := deleted + 1;
      }
      if len == 0 {
        startIdx := 0;
      }
    }

    /** Give up the entry `relIdx` places after the start. */
    method Clear(relIdx: nat)
      requires size == ptrs.Length && start < size && relIdx < size && relIdx < |contents|
      requires ptrs[Slot(start, relIdx, size)] == Some(contents[relIdx])
      requires memory >= overhead + |contents[relIdx].data|
      modifies this`memory, ptrs
      ensures memory == old(memory) - (overhead + |contents[relIdx].data|)
      ensures forall j | 0 <= j < size && j != relIdx :: ptrs[Slot(start, j, size)] == old(ptrs[Slot(start, j, size)])
    {
      SlotIsRemainder(start, relIdx, size);
      var ofs := (start + relIdx) % size;
      var e := ptrs[ofs].value;
      memory := memory - (overhead + |e.data|);
      ptrs[ofs] := None;
    }

    /** Drop the entries from `index` on; the number dropped, or -1 when `index` is past them all. */
    method DeleteTail(index: nat) returns (deleted: int)
      requires Valid()
      modifies this, ptrs
      ensures Valid() && ptrs == old(ptrs)
      ensures index >= old(startIdx + len) ==> deleted == -1 && contents == old(contents) && startIdx == old(startIdx)
      ensures index < old(startIdx + len) ==>
                var kept := if index < old(startIdx) then 0 else index - old(startIdx);
                && deleted == old(len) - kept && contents == old(contents)[..kept]
                && (len > 0 ==> startIdx == old(startIdx))
    {
      hide Memory;
      if index >= startIdx + len {
        return -1;
      }
      var kept := if index < startIdx then 0 else index - startIdx;
      deleted := ClearFrom(kept);
      len := len - deleted;
      contents := contents[..kept];
      if len == 0 {
        startIdx := 0;
      }
    }

    /** Give up every entry from place `kept` on. */
    method ClearFrom(kept: nat) returns (deleted: nat)
      requires Valid() && kept <= len
      modifies this`memory, ptrs
      ensures deleted == len - kept && memory == Memory(contents[..kept], overhead)
      ensures forall j | 0 <= j < kept :: ptrs[Slot(start, j, size)] == Some(contents[j])
    {
      hide Memory;
      deleted := 0;
      MemorySplit(contents, kept);
      while kept + deleted < len
        invariant kept + deleted <= len
        invariant forall j | 0 <= j < kept :: ptrs[Slot(start, j, size)] == Some(contents[j])
        invariant forall j | kept + deleted <= j < len :: ptrs[Slot(start, j, size)] == Some(contents[j])
        invariant memory == Memory(contents[..kept], overhead) + Memory(contents[kept + deleted..], overhead)
      {
        MemoryHead(contents, kept + deleted, overhead);
        Clear(kept + deleted);
        deleted := deleted + 1;
      }
      assert contents[len..] == [];
      MemoryNone(overhead);
    }

    lemma MemorySplit(es: seq<Entry>, k: nat)
      requires k <= |es|
      ensures Memory(es, overhead) == Memory(es[..k], overhead) + Memory(es[k..], overhead)
    {
      assert es == es[..k] + es[k..];
      MemoryConcat(es[..k], es[k..], overhead);
    }
  }
}
