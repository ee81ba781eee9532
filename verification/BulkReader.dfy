/** Reading bulk-string fields through a buffered file. */
module BulkReader {
  import opened Wrappers
  import opened Decimal
  import opened FileIO
  import opened MultiBulk

  method ReadLength(f: File, kind: char) returns (r: Option<int>)
    requires f.Valid() && f.Readable()
    modifies f, f.buf
    ensures f.Valid() && f.wpos == 0 && f.disk == old(f.disk) && f.failures == old(f.failures)
    ensures r.Some? ==> f.Readable() && ParseLength(f.disk, old(f.roffset), kind) == Some((r.value, f.roffset))
    ensures r.None? ==> ParseLength(f.disk, old(f.roffset), kind) == None
  {
    hide Line, ScanNumber;
    var got := f.Gets(LINE_CAP);
    if got.None? {
      return None;
    }
    var line := got.value;
    if line[0] != kind {
      return None;
    }
    var rest := line[1..];
    match ScanNumber(rest, 0)
    case NotANumber =>
      return None;
    case Number(v, end) =>
      if INT_MIN <= v <= INT_MAX && CRLF <= rest[end..] {
        return Some(v);
      }
      return None;
  }

  method ReadBulk(f: File, limit: Option<nat>) returns (r: Option<string>)
    requires f.Valid() && f.Readable()
    modifies f, f.buf
    ensures f.Valid() && f.wpos == 0 && f.disk == old(f.disk) && f.failures == old(f.failures)
    ensures r.Some? ==> f.Readable() && ParseBulk(f.disk, old(f.roffset), limit) == Some((r.value, f.roffset))
    ensures r.None? ==> ParseBulk(f.disk, old(f.roffset), limit) == None
  {
    hide ParseLength, ParseBody, Taken, From;
    var length := ReadLength(f, '$');
    if length.None? {
      return None;
    }
    var len := length.value;
    ghost var at := f.roffset;
    BodyRejected(f.disk, at, len, limit);
    if len < 0 || (limit.Some? && len > limit.value) {
      return None;
    }
    var s := f.Read(len);
    BodyShort(f.disk, at, len, limit, s);
    if |s| != len {
      return None;
    }
    var end := f.Read(2);
    BodyRead(f.disk, at, len, limit, s, end);
    if end != CRLF {
      return None;
    }
    return Some(s);
  }

  lemma BodyRejected(d: string, at: nat, len: int, limit: Option<nat>)
    ensures len < 0 || (limit.Some? && len > limit.value) ==> ParseBody(d, at, len, limit) == None
  {
  }

  lemma BodyShort(d: string, at: nat, len: nat, limit: Option<nat>, s: string)
    requires at <= |d| && s == Taken(From(d, at), len)
    ensures |s| != len ==> ParseBody(d, at, len, limit) == None
  {
  }

  lemma BodyRead(d: string, at: nat, len: nat, limit: Option<nat>, s: string, end: string)
    requires at <= |d| && s == Taken(From(d, at), len) && |s| == len && end == Taken(From(d, at + len), 2)
    requires limit.Some? ==> len <= limit.value
    ensures end == CRLF ==> ParseBody(d, at, len, limit) == Some((s, at + len + |end|))
    ensures end != CRLF ==> ParseBody(d, at, len, limit) == None
  {
    if at + len + 2 <= |d| {
      assert From(d, at + len)[..2] == d[at + len..at + len + 2];
      assert From(d, at)[..len] == d[at..at + len];
    }
  }

  /** A run of fields, each with its own limit. */
  method ReadBulks(f: File, limits: seq<Option<nat>>) returns (r: Option<seq<string>>)
    requires f.Valid() && f.Readable()
    modifies f, f.buf
    ensures f.Valid() && f.wpos == 0 && f.disk == old(f.disk) && f.failures == old(f.failures)
    ensures r.Some? ==> f.Readable() && ParseBulks(f.disk, old(f.roffset), limits) == Some((r.value, f.roffset))
    ensures r.None? ==> ParseBulks(f.disk, old(f.roffset), limits) == None
  {
    hide ParseBulk, ParseBulks;
    var fields: seq<string> := [];
    var i := 0;
    ghost var d, off := f.disk, f.roffset;
    ParseSome(d, off, limits, [], off);
    while i < |limits|
      invariant 0 <= i <= |limits| && |fields| == i
      invariant f.Valid() && f.Readable() && f.wpos == 0 && f.disk == d && f.failures == old(f.failures)
      invariant ParsedSoFar(d, off, limits, fields, f.roffset)
    {
      ghost var at := f.roffset;
      var field := ReadBulk(f, limits[i]);
      ParseNext(d, off, limits, fields, at);
      if field.None? {
        return None;
      }
      fields := fields + [field.value];
      i := i + 1;
    }
    ParseDone(d, off, limits, fields, f.roffset);
    return Some(fields);
  }

  /** The first fields have been read and `at` is where the next one starts. */
  ghost predicate ParsedSoFar(d: string, off: nat, limits: seq<Option<nat>>, fields: seq<string>, at: nat) {
    |fields| <= |limits| &&
    ParseBulks(d, off, limits) ==
    match ParseBulks(d, at, limits[|fields|..])
    case None => None
    case Some((rest, end)) => Some((fields + rest, end))
  }

  lemma ParseSome(d: string, off: nat, limits: seq<Option<nat>>, fields: seq<string>, at: nat)
    requires fields == [] && at == off
    ensures ParsedSoFar(d, off, limits, fields, at)
  {
    hide ParseBulks;
    assert limits[0..] == limits;
    if ParseBulks(d, off, limits).Some? {
      assert [] + ParseBulks(d, off, limits).value.0 == ParseBulks(d, off, limits).value.0;
    }
  }

  lemma ParseNext(d: string, off: nat, limits: seq<Option<nat>>, fields: seq<string>, at: nat)
    requires ParsedSoFar(d, off, limits, fields, at) && |fields| < |limits|
    ensures ParseBulk(d, at, limits[|fields|]).None? ==> ParseBulks(d, off, limits) == None
    ensures ParseBulk(d, at, limits[|fields|]).Some? ==>
              var (s, next) := ParseBulk(d, at, limits[|fields|]).value;
              ParsedSoFar(d, off, limits, fields + [s], next)
  {
    hide ParseBulk;
    var i := |fields|;
    assert limits[i..][0] == limits[i] && limits[i..][1..] == limits[i + 1..];
    if ParseBulk(d, at, limits[i]).Some? {
      var (s, next) := ParseBulk(d, at, limits[i]).value;
      if ParseBulks(d, next, limits[i + 1..]).Some? {
        var rest := ParseBulks(d, next, limits[i + 1..]).value.0;
        assert fields + ([s] + rest) == fields + [s] + rest;
      }
    }
  }

  lemma ParseDone(d: string, off: nat, limits: seq<Option<nat>>, fields: seq<string>, at: nat)
    requires ParsedSoFar(d, off, limits, fields, at) && |fields| == |limits|
    ensures ParseBulks(d, off, limits) == Some((fields, at))
  {
    assert limits[|fields|..] == [];
    assert fields + [] == fields;
  }
}
