/** An append-only file with one userspace buffer shared by reads and writes. */
module FileIO {
  import opened Wrappers

  const BUFFER_SIZE: nat := 4096
  const OFFSET_MAX: nat := 0x7fff_ffff_ffff_ffff   // the kernel lets no file grow beyond this

  /** The first line of `s` with its newline, if it has one within `cap` bytes. */
  function Line(s: string, cap: nat): (r: Option<string>)
    ensures r.Some? ==> r.value <= s && 0 < |r.value| <= cap && r.value[|r.value| - 1] == '\n'
  {
    var n := Newline(s);
    if n < |s| && n + 1 <= cap then Some(s[..n + 1]) else None
  }

  /** The position of the first newline, or the length when there is none. */
  function Newline(s: string): (n: nat)
    ensures n <= |s| && '\n' !in s[..n] && (n < |s| ==> s[n] == '\n')
  {
    if s == [] || s[0] == '\n' then 0
    else
      assert s[..1 + Newline(s[1..])] == [s[0]] + s[1..][..Newline(s[1..])];
      1 + Newline(s[1..])
  }

  lemma {:induction false} NewlineAfter(a: string, b: string)
    requires '\n' !in a
    ensures Newline(a + b) == |a| + Newline(b)
    decreases |a|
  {
    if a == [] {
      assert a + b == b;
    } else {
      assert (a + b)[1..] == a[1..] + b;
      NewlineAfter(a[1..], b);
    }
  }

  function From(s: string, offset: nat): string {
    if offset <= |s| then s[offset..] else []
  }

  function Truncated(s: string, len: nat): (r: string)
    ensures |r| == len
  {
    if len <= |s| then s[..len] else s + seq(len - |s|, i => '\0')
  }

  class File {
    var disk: string     // what the kernel holds for the file
    var kernel: nat      // the kernel's offset for the next read
    const buf: array<char>
    var rpos: nat        // unread bytes of the buffer are buf[rpos..rend]
    var rend: nat
    var roffset: nat
    var wpos: nat        // unwritten bytes of the buffer are buf[..wpos]
    var woffset: nat
    ghost var failures: nat   // how many calls into the kernel have failed

    ghost predicate Valid()
      reads this, buf
    {
      && buf.Length == BUFFER_SIZE
      && wpos <= BUFFER_SIZE
      && rpos <= rend <= BUFFER_SIZE
      && (wpos > 0 ==> rpos == rend)
      && woffset == |disk| + wpos
      && |disk| <= OFFSET_MAX
    }

    /** The file as its users see it: bytes on disk, then bytes still buffered. */
    ghost function Contents(): string
      reads this, buf
      requires Valid()
    {
      disk + buf[..wpos]
    }

    /** The buffer and the kernel agree on what comes at the tracked read offset. */
    ghost predicate Readable()
      reads this, buf
      requires Valid()
    {
      && wpos == 0
      && kernel == roffset + (rend - rpos)
      && (rpos < rend ==> kernel <= |disk| && buf[rpos..rend] == disk[roffset..kernel])
    }

    constructor (initial: string)
      requires |initial| <= OFFSET_MAX
      ensures Valid() && fresh(buf) && Contents() == initial && wpos == 0 && failures == 0
    {
      disk := initial;
      kernel := 0;
      buf := new char[BUFFER_SIZE](i => '\0');
      rpos, rend, roffset, wpos := 0, 0, 0, 0;
      woffset := |initial|;
      failures := 0;
    }

    // ----- the kernel -----

    /** write and writev: fail, or append some of the bytes and leave the offset at the end. */
    method KernelWrite(data: string) returns (n: int)
      requires |disk| <= OFFSET_MAX
      modifies this`disk, this`kernel, this`failures
      ensures n == -1 || (0 <= n <= |data| && (data != [] ==> n > 0))
      ensures failures == old(failures) + if n == -1 then 1 else 0
      ensures |disk| <= OFFSET_MAX
      ensures n == -1 ==> disk == old(disk) && kernel == old(kernel)
      ensures n >= 0 ==> disk == old(disk) + data[..n] && kernel == |disk|
    {
      var choice: int := *;
      n := if data == [] then 0 else if 0 < choice <= |data| && |disk| + choice <= OFFSET_MAX then choice else -1;
      if n >= 0 {
        disk := disk + data[..n];
        kernel := |disk|;
      } else {
        failures := failures + 1;
      }
    }

    /** ftruncate: fail, or cut the file or grow it with zeros. */
    method KernelTruncate(len: nat) returns (ok: bool)
      requires |disk| <= OFFSET_MAX
      modifies this`disk, this`failures
      ensures |disk| <= OFFSET_MAX && disk == if ok then Truncated(old(disk), len) else old(disk)
      ensures failures == old(failures) + if ok then 0 else 1
    {
      var succeeds: bool := *;
      ok := succeeds && len <= OFFSET_MAX;
      if ok {
        disk := Truncated(disk, len);
      } else {
        failures := failures + 1;
      }
    }

    /** fsync: fail, or make what the kernel holds survive a power failure. */
    method KernelSync() returns (ok: bool)
      modifies this`failures
      ensures failures == old(failures) + if ok then 0 else 1
    {
      var succeeds: bool := *;
      ok := succeeds;
      if !ok {
        failures := failures + 1;
      }
    }

    /** read and readv: short only at the end of the file. */
    method KernelRead(cap: nat) returns (s: string)
      modifies this`kernel
      ensures s == Taken(From(disk, old(kernel)), cap)
      ensures kernel == old(kernel) + |s|
    {
      var rest := From(disk, kernel);
      s := if |rest| < cap then rest else rest[..cap];
      kernel := kernel + |s|;
    }

    // ----- writing -----

    /** Write the buffer out.  A failure keeps every byte, on disk or in the buffer. */
    method Flush() returns (ok: bool)
      requires Valid()
      modifies this, buf
      ensures Valid() && Contents() == old(Contents())
      ensures old(wpos) == 0 ==> ok && unchanged(this) && buf[..] == old(buf[..])
      ensures old(wpos) > 0 ==> rpos == rend
      ensures |old(disk)| <= |disk| && (ok ==> wpos == 0)
      ensures failures == old(failures) + if ok then 0 else 1
    {
      if wpos == 0 {
        return true;
      }
      var pending := buf[..wpos];    // the bytes still to be written
      while true
        invariant |pending| <= wpos == old(wpos) && |disk| <= OFFSET_MAX
        invariant disk + pending == old(Contents()) && |old(disk)| <= |disk|
        invariant rpos == rend && woffset == old(woffset) && failures == old(failures)
        decreases |pending|
      {
        if pending == [] {
          break;
        }
        ghost var before := disk;
        var wr := KernelWrite(pending);
        if wr < 0 {
          CopyIn(0, pending);
          wpos := |pending|;
          rpos, rend := 0, 0;
          return false;
        }
        Advance(before, pending, wr);
        pending := pending[wr..];
      }
      wpos := 0;
      rpos, rend := 0, 0;
      return true;
    }

    method CopyIn(at: nat, data: string)
      requires at + |data| <= buf.Length
      modifies buf
      ensures buf[..at + |data|] == old(buf[..at]) + data
    {
      forall i | 0 <= i < |data| {
        buf[at + i] := data[i];
      }
    }

    /** Append `data`.  An error, which only a failing kernel call makes, has appended a proper prefix of it. */
    method Write(data: string) returns (n: int)
      requires Valid()
      modifies this, buf
      ensures Valid()
      ensures (n == -1 || n == |data|) && |old(disk)| <= |disk|
      ensures n == |data| ==> Contents() == old(Contents()) + data
      ensures n == -1 ==> old(Contents()) <= Contents() < old(Contents()) + data
      ensures failures == old(failures) + if n == -1 then 1 else 0
      ensures |data| <= BUFFER_SIZE - old(wpos) ==> n == |data| && disk == old(disk)
    {
      rpos, rend := 0, 0;
      if BUFFER_SIZE - wpos >= |data| {
        CopyIn(wpos, data);
        wpos := wpos + |data|;
        woffset := woffset + |data|;
        return |data|;
      }
      var bytes := buf[..wpos];
      Regroup(disk, bytes, data);
      var written, left0, left1 := WriteVectors(bytes, data);
      if written {
        wpos := 0;
        woffset := woffset + |data|;
        assert disk + (left0 + left1) == disk;
        return |data|;
      }
      Regroup(disk, left0, left1);
      PrefixWritten(old(Contents()), data, disk + left0, left1);
      KeepUnwritten(left0, |data| - |left1|);
      return -1;
    }

    method KeepUnwritten(left: string, taken: nat)
      requires buf.Length == BUFFER_SIZE && |left| <= BUFFER_SIZE && rpos == rend <= BUFFER_SIZE
      requires woffset + taken == |disk| + |left| && |disk| <= OFFSET_MAX
      modifies this`wpos, this`woffset, buf
      ensures Valid() && Contents() == disk + left
    {
      CopyIn(0, left);
      wpos := |left|;
      woffset := woffset + taken;
    }

    /** The buffer and the caller's data go out together, in as many partial writes as it takes.
        A failure hands back the bytes that each vector still had to write. */
    method WriteVectors(first: string, second: string) returns (ok: bool, iov0: string, iov1: string)
      requires second != [] && |disk| <= OFFSET_MAX
      modifies this`disk, this`kernel, this`failures
      ensures |old(disk)| <= |disk| <= OFFSET_MAX && failures == old(failures) + if ok then 0 else 1
      ensures disk + (iov0 + iov1) == old(disk) + (first + second)
      ensures ok ==> iov0 + iov1 == []
      ensures !ok ==> |iov0| <= |first| && 0 < |iov1| <= |second|
    {
      iov0, iov1 := first, second;
      var remaining := |iov0| + |iov1|;
      var current := 0;
      while true
        invariant |iov0| <= |first| && 0 < |iov1| <= |second| && |disk| <= OFFSET_MAX && failures == old(failures)
        invariant remaining == |iov0| + |iov1|
        invariant current == 0 || (current == 1 && iov0 == [])
        invariant disk + (iov0 + iov1) == old(disk) + (first + second)
        decreases remaining
      {
        ghost var before := disk;
        var count := KernelWrite(iov0 + iov1);
        if count < 0 {
          return false, iov0, iov1;
        }
        Advance(before, iov0 + iov1, count);
        if count == remaining {
          return true, [], [];
        }
        remaining := remaining - count;
        if current == 0 && count <= |iov0| {
          DropFirst(iov0, iov1, count);
          iov0 := iov0[count..];
        } else {
          DropSecond(iov0, iov1, count);
          if current == 0 {
            count := count - |iov0|;
            iov0 := [];
            current := 1;
          }
          iov1 := iov1[count..];
          assert iov0 + iov1 == iov1;
        }
      }
    }

    /** Cut the file, or grow it with zeros. */
    method Truncate(len: nat) returns (ok: bool)
      requires Valid()
      modifies this, buf
      ensures Valid()
      ensures ok ==> wpos == 0 && Contents() == Truncated(old(Contents()), len) && roffset == 0
      ensures !ok ==> Contents() == old(Contents()) && |old(disk)| <= |disk|
      ensures failures == old(failures) + if ok then 0 else 1
    {
      ok := Flush();
      if ok {
        assert Contents() == disk;
        ok := KernelTruncate(len);
        if ok {
          woffset := len;
          roffset := 0;
          rpos, rend := 0, 0;
          assert Contents() == disk;
        }
      }
    }

    method Size() returns (n: nat)
      requires Valid()
      ensures n == |Contents()|
    {
      n := woffset;
    }

    // ----- reading -----

    /** Fails exactly when buffered bytes cannot be written out first. */
    method SetReadOffset(offset: nat) returns (ok: bool)
      requires Valid()
      modifies this, buf
      ensures Valid() && Contents() == old(Contents()) && |old(disk)| <= |disk|
      ensures ok ==> Readable() && roffset == offset && disk == Contents()
      ensures !ok ==> old(wpos) > 0
      ensures failures == old(failures) + if ok then 0 else 1
    {
      ok := Flush();
      if ok {
        wpos, rpos, rend := 0, 0, 0;
        kernel := offset;
        roffset := offset;
        assert Contents() == disk;
      }
    }

    /** The next line, at most `cap` bytes of it. */
    method Gets(cap: nat) returns (r: Option<string>)
      requires Valid() && Readable()
      modifies this, buf
      ensures Valid() && wpos == 0 && disk == old(disk) && failures == old(failures)
      ensures r == Line(From(disk, old(roffset)), cap)
      ensures r.Some? ==> Readable() && roffset == old(roffset) + |r.value|
    {
      hide Line, Newline;
      var flushed := Flush();
      var got: string := [];
      ghost var start := roffset;
      while true
        invariant Valid() && Readable() && disk == old(disk) && failures == old(failures)
        invariant roffset == start + |got| && |got| <= cap
        invariant got <= From(disk, start) && '\n' !in got
        decreases |From(disk, start)| - |got|, rpos == rend
      {
        if rend != rpos {
          var piece, found := TakeBuffered();
          FirstLine(disk, start, got, piece, cap);
          if |piece| > cap - |got| {
            return None;
          }
          got := got + piece;
          if found {
            return Some(got);
          }
        }
        var bytes := Refill();
        if bytes == 0 {
          NoLine(disk, start, got, cap);
          return None;
        }
      }
    }

    /** Consume the buffer up to and including its first newline. */
    method TakeBuffered() returns (piece: string, found: bool)
      requires Valid() && Readable() && rpos < rend
      modifies this`rpos, this`roffset
      ensures Valid() && Readable()
      ensures piece != [] && piece <= From(disk, old(roffset)) && roffset == old(roffset) + |piece|
      ensures found ==> piece[|piece| - 1] == '\n' && '\n' !in piece[..|piece| - 1]
      ensures !found ==> rpos == rend && '\n' !in piece
    {
      var pos := Find(rpos, rend);
      found := pos < rend;
      var len := if found then pos - rpos + 1 else rend - rpos;
      piece := buf[rpos..rpos + len];
      assert piece[..pos - rpos] == buf[rpos..pos];
      Consume(len);
    }

    /** Where the next newline is in the buffer. */
    method Find(start: nat, end: nat) returns (pos: nat)
      requires start <= end <= buf.Length
      ensures start <= pos <= end && '\n' !in buf[start..pos] && (pos < end ==> buf[pos] == '\n')
    {
      pos := start;
      while pos < end && buf[pos] != '\n'
        invariant start <= pos <= end && '\n' !in buf[start..pos]
      {
        pos := pos + 1;
      }
    }

    method Refill() returns (n: nat)
      requires Valid() && Readable() && rpos == rend
      modifies this, buf
      ensures Valid() && Readable() && disk == old(disk) && roffset == old(roffset) && failures == old(failures)
      ensures n == rend - rpos && rend == n
      ensures n == 0 <==> From(disk, roffset) == []
    {
      var chunk := KernelRead(BUFFER_SIZE);
      Keep(0, chunk);
      n := |chunk|;
    }

    /** Up to `cap` bytes; fewer only at the end of the file. */
    method Read(cap: nat) returns (s: string)
      requires Valid() && Readable()
      modifies this, buf
      ensures Valid() && Readable() && disk == old(disk) && failures == old(failures)
      ensures s == Taken(From(disk, old(roffset)), cap)
      ensures roffset == old(roffset) + |s|
    {
      hide From, Taken;
      var flushed := Flush();
      s := [];
      if rend != rpos {
        s := TakeUpTo(cap);
      } else {
        NothingTaken(disk, roffset);
      }
      TakenInTwo(disk, old(roffset), s, cap);
      if |s| < cap {
        var more := ReadThrough(cap - |s|);
        s := s + more;
      } else {
        NothingMore(From(disk, roffset), s);
      }
    }

    method TakeUpTo(cap: nat) returns (s: string)
      requires Valid() && Readable() && rpos < rend
      modifies this`rpos, this`roffset
      ensures Valid() && Readable() && |s| <= cap && s <= From(disk, old(roffset))
      ensures roffset == old(roffset) + |s|
      ensures |s| < cap ==> rpos == rend
    {
      var count := if rend - rpos < cap then rend - rpos else cap;
      s := buf[rpos..rpos + count];
      Consume(count);
    }

    method Consume(n: nat)
      requires Valid() && Readable() && n <= rend - rpos && rpos < rend
      modifies this`rpos, this`roffset
      ensures Valid() && Readable() && rpos == old(rpos) + n && roffset == old(roffset) + n
      ensures buf[old(rpos)..old(rpos) + n] <= From(disk, old(roffset))
    {
      ghost var unread := buf[rpos..rend];
      assert buf[rpos..rpos + n] == unread[..n] == disk[roffset..kernel][..n];
      assert buf[rpos + n..rend] == unread[n..] == disk[roffset..kernel][n..];
      rpos := rpos + n;
      roffset := roffset + n;
    }

    /** Fill the caller's buffer and then this one with as few reads as it takes. */
    method ReadThrough(cap: nat) returns (s: string)
      requires Valid() && Readable() && rpos == rend && cap > 0
      modifies this, buf
      ensures Valid() && Readable() && disk == old(disk) && failures == old(failures)
      ensures s == Taken(From(disk, old(roffset)), cap)
      ensures roffset == old(roffset) + |s|
    {
      hide From, Taken;
      s := [];
      NothingTaken(disk, roffset);
      while true
        invariant Valid() && disk == old(disk) && wpos == 0 && rpos == rend && kernel == roffset
        invariant failures == old(failures)
        invariant |s| < cap && s <= From(disk, old(roffset)) && roffset == old(roffset) + |s|
        decreases |From(disk, old(roffset))| - |s|
      {
        var remaining := cap - |s|;
        var chunk := KernelRead(remaining + BUFFER_SIZE);
        ChunkTaken(disk, old(roffset), s, cap, chunk, BUFFER_SIZE);
        if chunk == [] {
          return;
        }
        if |chunk| >= remaining {
          s := s + chunk[..remaining];
          Keep(remaining, chunk);
          return;
        }
        s := s + chunk;
        roffset := roffset + |chunk|;
      }
    }

    /** What a read brought in past the caller's `used` bytes stays in the buffer. */
    method Keep(used: nat, chunk: string)
      requires Valid() && wpos == 0 && used <= |chunk| <= used + BUFFER_SIZE
      requires chunk <= From(disk, roffset) && kernel == roffset + |chunk|
      modifies this`rpos, this`rend, this`roffset, buf
      ensures Valid() && Readable() && roffset == old(roffset) + used && rpos == 0 && rend == |chunk| - used
    {
      CopyIn(0, chunk[used..]);
      roffset := roffset + used;
      rpos, rend := 0, |chunk| - used;
      if rend > 0 {
        assert chunk[used..] == disk[roffset..kernel];
      }
    }
  }

  lemma NothingTaken(disk: string, offset: nat)
    ensures [] <= From(disk, offset)
  {
  }

  lemma NothingMore(rest: string, s: string)
    ensures s + Taken(rest, 0) == s
  {
  }

  /** The first `n` bytes, or all when there are fewer. */
  function Taken(s: string, n: nat): string {
    if |s| < n then s else s[..n]
  }

  lemma TakenInTwo(disk: string, offset: nat, s: string, cap: nat)
    requires s <= From(disk, offset) && |s| <= cap
    ensures Taken(From(disk, offset), cap) == s + Taken(From(disk, offset + |s|), cap - |s|)
    ensures From(disk, offset + |s|) == From(disk, offset)[|s|..]
  {
  }

  lemma ChunkTaken(disk: string, start: nat, s: string, cap: nat, chunk: string, extra: nat)
    requires s <= From(disk, start) && |s| < cap
    requires chunk == Taken(From(disk, start + |s|), cap - |s| + extra)
    ensures chunk <= From(disk, start + |s|) && s + chunk <= From(disk, start) && |chunk| <= cap - |s| + extra
    ensures chunk == [] ==> Taken(From(disk, start), cap) == s
    ensures |chunk| >= cap - |s| ==> Taken(From(disk, start), cap) == s + chunk[..cap - |s|]
  {
    TakenInTwo(disk, start, s, cap);
  }

  lemma Regroup(a: string, b: string, c: string)
    ensures a + b + c == a + (b + c)
  {
  }

  lemma Advance(d: string, x: string, k: nat)
    requires k <= |x|
    ensures d + x[..k] + x[k..] == d + x
  {
  }

  lemma DropFirst(a: string, b: string, k: nat)
    requires k <= |a|
    ensures (a + b)[k..] == a[k..] + b
  {
  }

  lemma DropSecond(a: string, b: string, k: nat)
    requires |a| <= k <= |a| + |b|
    ensures (a + b)[k..] == b[k - |a|..]
  {
  }

  lemma PrefixWritten(before: string, data: string, after: string, rest: string)
    requires before + data == after + rest && 0 < |rest| <= |data|
    ensures before <= after < before + data
  {
    assert before == (before + data)[..|before|];
    assert after == (before + data)[..|after|];
  }

  /** A line that starts with bytes already taken and goes on in the next piece. */
  lemma FirstLine(disk: string, start: nat, got: string, piece: string, cap: nat)
    requires got <= From(disk, start) && '\n' !in got && |got| <= cap
    requires piece != [] && piece <= From(disk, start + |got|)
    ensures got + piece <= From(disk, start)
    ensures piece[|piece| - 1] == '\n' && '\n' !in piece[..|piece| - 1] ==>
              Line(From(disk, start), cap) == if |got| + |piece| <= cap then Some(got + piece) else None
    ensures '\n' !in piece && |got| + |piece| > cap ==> Line(From(disk, start), cap) == None
  {
    var rest := From(disk, start);
    assert rest[|got|..] == From(disk, start + |got|);
    LineOfTwo(rest, got, piece, cap);
  }

  lemma LineOfTwo(rest: string, got: string, piece: string, cap: nat)
    requires got <= rest && '\n' !in got && piece != [] && piece <= rest[|got|..]
    ensures got + piece <= rest
    ensures piece[|piece| - 1] == '\n' && '\n' !in piece[..|piece| - 1] ==>
              Line(rest, cap) == if |got| + |piece| <= cap then Some(got + piece) else None
    ensures '\n' !in piece && |got| + |piece| > cap ==> Line(rest, cap) == None
  {
    var all := got + piece;
    assert rest == all + rest[|all|..];
    if '\n' !in piece {
      NewlineAfter(all, rest[|all|..]);
    } else if piece[|piece| - 1] == '\n' && '\n' !in piece[..|piece| - 1] {
      var a := got + piece[..|piece| - 1];
      var t := rest[|a|..];
      assert rest == a + t;
      assert t[0] == '\n' && Newline(t) == 0;
      NewlineAfter(a, t);
      assert rest[..|a| + 1] == all;
    }
  }

  lemma NoLine(disk: string, start: nat, got: string, cap: nat)
    requires got <= From(disk, start) && '\n' !in got && From(disk, start + |got|) == []
    ensures Line(From(disk, start), cap) == None
  {
    assert From(disk, start) == got + [];
    NewlineAfter(got, []);
  }
}
