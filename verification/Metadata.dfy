/** The metadata file: term and vote as text, replaced atomically. */
module Metadata {
  import opened Wrappers
  import opened Statuses
  import opened Decimal
  import opened FileIO
  import opened MultiBulk
  import opened BulkReader

  const TAG := "METADATA"
  const VERSION := 1
  const ELEMENTS := 6
  const DBID_LEN := 32

  datatype Meta = Meta(dbid: string, nodeId: int, term: int, vote: int)

  ghost predicate MetaOk(m: Meta) {
    && |m.dbid| == DBID_LEN && '\0' !in m.dbid
    && INT_MIN <= m.nodeId <= INT_MAX && LONG_MIN <= m.term <= LONG_MAX && INT_MIN <= m.vote <= INT_MAX
  }

  function Fields(m: Meta): seq<string> { [TAG, Dec(VERSION), m.dbid, Dec(m.nodeId), Dec(m.term), Dec(m.vote)] }

  function MetaText(m: Meta): string { LengthLine('*', ELEMENTS) + Bulks(Fields(m)) }

  const LIMITS: seq<Option<nat>> := [Some(128), Some(64), Some(64), Some(64), Some(64), Some(64)]

  function Decode(f: seq<string>): Option<Meta>
    requires |f| == 6
  {
    var version := ParseRange(CString(f[1]), INT_MIN, INT_MAX);
    var node := ParseRange(CString(f[3]), INT_MIN, INT_MAX);
    var term := ParseRange(CString(f[4]), LONG_MIN, LONG_MAX);
    var vote := ParseRange(CString(f[5]), INT_MIN, INT_MAX);
    if TAG <= CString(f[0]) && version == Some(VERSION) && |CString(f[2])| == DBID_LEN && node.Some? && term.Some?
      && vote.Some?
    then Some(Meta(CString(f[2]), node.value, term.value, vote.value))
    else None
  }

  /** What reading a metadata file yields; anything malformed is a panic. */
  function ParseMeta(d: string): Option<Meta> {
    match ParseLength(d, 0, '*')
    case None => None
    case Some((n, at)) =>
      match ParseBulks(d, at, LIMITS)
      case None => None
      case Some((f, _)) => if n == ELEMENTS then Decode(f) else None
  }

  lemma FieldsFit(m: Meta)
    requires MetaOk(m)
    ensures AllFit(Fields(m), LIMITS)
  {
    hide Dec;
    DecIsText(VERSION);
    DecIsText(m.nodeId);
    DecIsText(m.term);
    DecIsText(m.vote);
  }

  lemma DecodeOwn(m: Meta)
    requires MetaOk(m)
    ensures Decode(Fields(m)) == Some(m)
  {
    hide Dec, ParseRange, CString;
    ParsePrinted(VERSION, INT_MIN, INT_MAX);
    ParsePrinted(m.nodeId, INT_MIN, INT_MAX);
    ParsePrinted(m.term, LONG_MIN, LONG_MAX);
    ParsePrinted(m.vote, INT_MIN, INT_MAX);
    CStringOfText(TAG);
    CStringOfText(m.dbid);
  }

  /** Reading what was written gives it back. */
  lemma ReadsBack(m: Meta)
    requires MetaOk(m)
    ensures ParseMeta(MetaText(m)) == Some(m)
  {
    hide ParseLength, ParseBulks, LengthLine, Bulks, Fields, Decode;
    var head, body, d := LengthLine('*', ELEMENTS), Bulks(Fields(m)), MetaText(m);
    FieldsFit(m);
    assert d[0..|head|] == head && d[|head|..|head| + |body|] == body;
    LengthAt(d, 0, '*', ELEMENTS);
    BulksAt(d, |head|, Fields(m), LIMITS);
    DecodeOwn(m);
  }

  /** A metadata file cut anywhere does not parse. */
  lemma MetaTorn(m: Meta, d: string)
    requires MetaOk(m) && d < MetaText(m)
    ensures ParseMeta(d) == None
  {
    hide ParseLength, ParseBulks, LengthLine, Bulks, Fields, Decode;
    var head, body := LengthLine('*', ELEMENTS), Bulks(Fields(m));
    FieldsFit(m);
    assert d == (head + body)[..|d|] && d[0..] == d;
    if |d| < |head| {
      assert d == head[..|d|];
      LengthTorn(d, 0, '*', ELEMENTS);
    } else {
      assert d[0..|head|] == head && d[|head|..] == body[..|d| - |head|];
      LengthAt(d, 0, '*', ELEMENTS);
      BulksTorn(d, |head|, Fields(m), LIMITS);
    }
  }

  /** Nor does one of another version, or whose vote is no 32-bit number. */
  lemma OthersRefused(f: seq<string>, v: int)
    requires |f| == 6 && LONG_MIN <= v <= ULONG_MAX
    requires (f[1] == Dec(v) && v != 1) || (f[5] == Dec(v) && !(-0x8000_0000 <= v <= 0x7fff_ffff))
    ensures Decode(f) == None
  {
    hide Dec, ParseRange, CString;
    RangeChecked(v, INT_MIN, INT_MAX);
  }

  /** Reads a metadata file through the buffered reader. */
  method ReadMeta(f: File) returns (r: Option<Meta>)
    requires f.Valid() && f.Readable() && f.roffset == 0
    modifies f, f.buf
    ensures r == ParseMeta(old(f.disk))
  {
    hide ParseLength, ParseBulks, Decode;
    var n := ReadLength(f, '*');
    if n.None? { return None; }
    var fields := ReadBulks(f, LIMITS);
    if fields.None? || n.value != ELEMENTS { return None; }
    return Decode(fields.value);
  }

  // ----- the file system -----

  /** A file's contents; until synced, a crash may leave anything in their place. */
  datatype Content = Content(data: string, synced: bool)

  /** The metadata file, the temporary file, and the metadata file a crash may still bring back because the
      directory has not been synced since a rename. */
  datatype Files = Files(meta: Option<Content>, tmp: Option<Content>, previous: Option<Option<Content>>)

  ghost predicate MayBecome(c: Option<Content>, found: Option<string>) {
    match c
    case None => found == None
    case Some(content) => found.Some? && (content.synced ==> found.value == content.data)
  }

  /** The contents of the metadata file that a start after a crash may find. */
  ghost predicate AfterCrash(fs: Files, found: Option<string>) {
    MayBecome(fs.meta, found) || (fs.previous.Some? && MayBecome(fs.previous.value, found))
  }

  /** Whatever happens, a start finds one of two contents. */
  ghost predicate OneOf(fs: Files, a: Option<string>, b: Option<string>) {
    forall found :: AfterCrash(fs, found) ==> found == a || found == b
  }

  /** A start between two states of the file reads the term and vote of one of them. */
  lemma CrashReadsOldOrNew(fs: Files, before: Meta, after: Meta, found: Option<string>)
    requires MetaOk(before) && MetaOk(after) && OneOf(fs, Some(MetaText(before)), Some(MetaText(after)))
             && AfterCrash(fs, found)
    ensures found.Some? && ParseMeta(found.value) in {Some(before), Some(after)}
  {
    hide MetaText, ParseMeta;
    ReadsBack(before);
    ReadsBack(after);
  }

  /** Nothing about the metadata file is still in the balance. */
  ghost predicate Settled(fs: Files) {
    fs.previous == None && (fs.meta.Some? ==> fs.meta.value.synced)
  }

  function Stored(fs: Files): Option<string> {
    if fs.meta.Some? then Some(fs.meta.value.data) else None
  }

  /** The store with the history of states a crash could have struck in. */
  class Store {
    var fs: Files
    var term: int
    var vote: int
    const dbid: string
    const nodeId: int
    ghost var history: seq<Files>
    ghost var failures: nat         // how many calls into the system have failed

    /** What is in the file agrees with what is in memory. */
    ghost predicate Valid()
      reads this
    {
      Settled(fs) && (fs.meta.Some? ==> Stored(fs) == Some(MetaText(Meta(dbid, nodeId, term, vote))))
    }

    method Record(next: Files)
      modifies this`fs, this`history
      ensures fs == next && history == old(history) + [next]
    {
      fs := next;
      history := history + [next];
    }

    /** The system carries out a call, or the call counts as failed. */
    method Attempt() returns (ok: bool)
      modifies this`failures
      ensures failures == old(failures) + if ok then 0 else 1
    {
      ok := *;
      if !ok { failures := failures + 1; }
    }

    /** Creates or empties the temporary file. */
    method OpenTemporary() returns (ok: bool)
      modifies this`fs, this`history, this`failures
      ensures failures == old(failures) + if ok then 0 else 1
      ensures fs == old(fs).(tmp := if ok then Some(Content("", false)) else old(fs).tmp)
              && history == old(history) + [fs]
    {
      ok := Attempt();
      Record(if ok then fs.(tmp := Some(Content("", false))) else fs);
    }

    /** Writes some of the text, byte by byte, until all is written or the system refuses. */
    method WriteTemporary(text: string) returns (ok: bool)
      requires fs.tmp == Some(Content("", false))
      modifies this`fs, this`history, this`failures
      ensures failures == old(failures) + if ok then 0 else 1
      ensures |history| >= |old(history)| && history[..|old(history)|] == old(history)
      ensures fs == old(fs).(tmp := fs.tmp) && fs.tmp.Some? && !fs.tmp.value.synced
              && (ok ==> fs.tmp.value.data == text)
      ensures forall i | |old(history)| <= i < |history| :: history[i] == old(fs).(tmp := history[i].tmp)
    {
      var n := 0;
      while n < |text|
        invariant 0 <= n <= |text| && failures == old(failures)
        invariant fs == old(fs).(tmp := Some(Content(text[..n], false)))
        invariant |history| >= |old(history)| && history[..|old(history)|] == old(history)
        invariant forall i | |old(history)| <= i < |history| :: history[i] == old(fs).(tmp := history[i].tmp)
      {
        var accepted := Attempt();
        if !accepted { return false; }
        n := n + 1;
        Record(fs.(tmp := Some(Content(text[..n], false))));
      }
      assert text[..n] == text;
      return true;
    }

    method SyncTemporary() returns (ok: bool)
      requires fs.tmp.Some?
      modifies this`fs, this`history, this`failures
      ensures failures == old(failures) + if ok then 0 else 1
      ensures fs == (if ok then old(fs).(tmp := Some(Content(old(fs).tmp.value.data, true))) else old(fs))
      ensures history == old(history) + [fs]
    {
      ok := Attempt();
      Record(if ok then fs.(tmp := Some(Content(fs.tmp.value.data, true))) else fs);
    }

    /** Renames the temporary file over the metadata file. */
    method Rename() returns (ok: bool)
      requires fs.tmp.Some?
      modifies this`fs, this`history, this`failures
      ensures failures == old(failures) + if ok then 0 else 1
      ensures fs == (if ok then Files(old(fs).tmp, None, Some(old(fs).meta)) else old(fs))
              && history == old(history) + [fs]
    {
      ok := Attempt();
      Record(if ok then Files(fs.tmp, None, Some(fs.meta)) else fs);
    }

    /** Syncs the directory. */
    method SyncDirectory()
      modifies this`fs, this`history
      ensures fs == old(fs).(previous := None) && history == old(history) + [fs]
    {
      Record(fs.(previous := None));
    }

    /** Replaces term and vote, unless a call into the system fails.  A crash at any moment leaves the old file or the
        new one, and the new one once the call has succeeded; after an error the old one is in place. */
    method Write(newTerm: int, newVote: int) returns (status: Status)
      requires Valid()
      modifies this
      ensures |history| >= |old(history)| && history[..|old(history)|] == old(history)
      ensures forall i | |old(history)| <= i < |history| ::
                OneOf(history[i], Stored(old(fs)), Some(MetaText(Meta(dbid, nodeId, newTerm, newVote))))
      ensures status == Ok ==> Valid() && term == newTerm && vote == newVote && fs.meta.Some? &&
                               OneOf(fs, Some(MetaText(Meta(dbid, nodeId, newTerm, newVote))), Stored(fs))
      ensures status != Ok ==> Valid() && term == old(term) && vote == old(vote) && Stored(fs) == Stored(old(fs)) &&
                               OneOf(fs, Stored(old(fs)), Stored(old(fs)))
      ensures status == Ok <==> failures == old(failures)
    {
      var text := MetaText(Meta(dbid, nodeId, newTerm, newVote));
      hide MetaText;
      var ok := OpenTemporary();
      if !ok { return Panic; }
      ok := WriteTemporary(text);
      if !ok { return Panic; }
      ok := SyncTemporary();
      if !ok { return Error; }
      SyncDirectory();
      ok := Rename();
      if !ok { return Error; }
      SyncDirectory();
      term, vote := newTerm, newVote;
      return Ok;
    }
  }
}
