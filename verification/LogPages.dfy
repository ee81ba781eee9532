/** One page of the persistent log: a page file, its side index and the counters kept in memory. */
module LogPages {
  import opened Wrappers
  import opened Statuses
  import opened Decimal
  import opened FileIO
  import opened MultiBulk
  import opened BulkReader
  import opened Crc32c
  import opened PageCodec
  import opened PageRecovery
  import opened IndexWords

  // ----- reading records through a file -----

  method ReadEntry(f: File) returns (r: Option<(Entry, int)>)
    requires f.Valid() && f.Readable()
    modifies f, f.buf
    ensures f.Valid() && f.wpos == 0 && f.disk == old(f.disk) && f.failures == old(f.failures)
    ensures r.Some? ==> f.Readable() && ParseEntry(f.disk, old(f.roffset)) == Some((r.value.0, r.value.1, f.roffset))
    ensures r.None? ==> ParseEntry(f.disk, old(f.roffset)) == None
  {
    hide ParseLength, ParseBulks, DecodeEntry;
    var n := ReadLength(f, '*');
    if n.None? {
      return None;
    }
    var fields := ReadBulks(f, ENTRY_LIMITS);
    if fields.None? || n.value != ELEMENTS {
      return None;
    }
    return DecodeEntry(fields.value);
  }

  method ReadHeader(f: File) returns (r: Option<(Header, int)>)
    requires f.Valid() && f.Readable()
    modifies f, f.buf
    ensures f.Valid() && f.wpos == 0 && f.disk == old(f.disk) && f.failures == old(f.failures)
    ensures r.Some? ==> f.Readable() && ParseHeader(f.disk, old(f.roffset)) == Some((r.value.0, r.value.1, f.roffset))
    ensures r.None? ==> ParseHeader(f.disk, old(f.roffset)) == None
  {
    hide ParseLength, ParseBulks, DecodeHeader;
    var n := ReadLength(f, '*');
    if n.None? {
      return None;
    }
    var fields := ReadBulks(f, HEADER_LIMITS);
    if fields.None? || n.value != ELEMENTS {
      return None;
    }
    return DecodeHeader(fields.value);
  }

  /** Write one entry.  A failure leaves the old contents with some more bytes behind them. */
  method WriteEntry(f: File, e: Entry, crc: word32) returns (ok: bool)
    requires f.Valid()
    modifies f, f.buf
    ensures f.Valid()
    ensures ok ==> f.Contents() == old(f.Contents()) + EntryText(e, crc)
    ensures old(f.Contents()) <= f.Contents() && |old(f.disk)| <= |f.disk|
    ensures f.failures == old(f.failures) + if ok then 0 else 1
  {
    hide EntryHead, EntryText, Bulk, Dec, Crc, File.Contents, File.Valid;
    var head := EntryHead(e);
    var n := f.Write(head);
    if n != |head| {
      return false;
    }
    n := f.Write(e.data);
    if n != |e.data| {
      return false;
    }
    n := f.Write(CRLF);
    if n != |CRLF| {
      return false;
    }
    var c := Crc(Crc(Crc(crc, head), e.data), CRLF);
    var sum := Bulk(Dec(c));
    n := f.Write(sum);
    EntryPieces(old(f.Contents()), e, crc);
    return n == |sum|;
  }

  /** The pieces written one after the other are the entry's text, and the checksum continued
      over them is the checksum of the whole. */
  lemma EntryPieces(before: string, e: Entry, crc: word32)
    ensures before + EntryHead(e) + e.data + CRLF + Bulk(Dec(Crc(Crc(Crc(crc, EntryHead(e)), e.data), CRLF))) ==
            before + EntryText(e, crc)
  {
    hide EntryHead, Bulk, Dec, Crc;
    CrcConcat(crc, EntryHead(e), e.data);
    CrcConcat(crc, EntryHead(e) + e.data, CRLF);
    var sum := Bulk(Dec(Crc(crc, EntryBody(e))));
    FourInOne(before, EntryHead(e), e.data, CRLF, sum);
  }

  lemma FourInOne(a: string, b: string, c: string, d: string, e: string)
    ensures a + b + c + d + e == a + (b + c + d + e)
  {
  }

  // ----- the page -----

  class LogPage {
    var dbid: string
    var nodeId: int
    var prevLogTerm: int
    var prevLogIdx: int
    var numEntries: int
    var index: int
    var currentCrc: word32
    const file: File
    const idxfile: File
    ghost var entries: seq<Entry>
    ghost var synced: nat          // how many of them were in the page file when it was last synced

    function Head(): Header
      reads this
    {
      Header(dbid, nodeId, prevLogTerm, prevLogIdx)
    }

    ghost function Repr(): set<object> {
      {this, file, file.buf, idxfile, idxfile.buf}
    }

    ghost function Starts(): seq<nat>
      reads this
    {
      Offsets(entries, HeaderCrc(Head()), |HeaderText(Head())|)
    }

    /** How many bytes of the page file survive a power failure: at least the header. */
    ghost function Durable(): nat
      reads this
      requires synced <= |entries|
    {
      SizeOf(Head(), entries, synced)
    }

    /** Both files and the last index describe the same entries. */
    ghost predicate Stored()
      reads Repr()
    {
      && file != idxfile && file.buf != idxfile.buf
      && file.Valid() && idxfile.Valid()
      && HeaderOk(Head()) && AllWellFormed(entries)
      && file.Contents() == PageText(Head(), entries) && synced <= |entries| && Durable() <= |file.disk|
      && idxfile.Contents() == Words(Starts())
      && index == prevLogIdx + |entries|
    }

    /** So does the running checksum. */
    ghost predicate Consistent()
      reads Repr()
    {
      Stored() && currentCrc == ChainCrc(entries, HeaderCrc(Head()))
    }

    /** The page invariant. */
    ghost predicate Valid()
      reads Repr()
    {
      Consistent() && numEntries == |entries| && index == prevLogIdx + |entries|
    }

    /** No bytes wait in either buffer, so nothing has to be written before a read. */
    ghost predicate Flushed()
      reads Repr()
    {
      file.wpos == 0 && idxfile.wpos == 0
    }

    /** How many calls into the kernel have failed on the page's files. */
    ghost function Failures(): nat
      reads file, idxfile
    {
      file.failures + idxfile.failures
    }

    /** Open the files: the page file as it is on disk, the index file emptied. */
    constructor (contents: string)
      requires |contents| <= OFFSET_MAX
      ensures fresh(Repr()) && file != idxfile && file.buf != idxfile.buf
      ensures file.Valid() && idxfile.Valid() && Flushed()
      ensures file.Contents() == contents && idxfile.Contents() == []
      ensures numEntries == 0 && entries == [] && synced == 0 && Failures() == 0
    {
      file := new File(contents);
      idxfile := new File([]);
      dbid, nodeId, prevLogTerm, prevLogIdx, numEntries, index, currentCrc := "", 0, 0, 0, 0, 0, 0;
      entries, synced := [], 0;
    }

    method TruncateFiles(offset: nat, idxOffset: nat) returns (ok: bool)
      requires file != idxfile && file.buf != idxfile.buf && file.Valid() && idxfile.Valid()
      modifies file, file.buf, idxfile, idxfile.buf
      ensures file.Valid() && idxfile.Valid()
      ensures ok ==> Flushed() && file.Contents() == Truncated(old(file.Contents()), offset)
                     && idxfile.Contents() == Truncated(old(idxfile.Contents()), idxOffset)
      ensures Failures() == old(Failures()) + if ok then 0 else 1
    {
      ok := file.Truncate(offset);
      if ok {
        ok := idxfile.Truncate(idxOffset);
      }
    }

    /** Write an entry and its index word, or put both files back as they were. */
    method WriteRecord(e: Entry) returns (st: Status)
      requires file != idxfile && file.buf != idxfile.buf && file.Valid() && idxfile.Valid()
      modifies file, file.buf, idxfile, idxfile.buf
      ensures file.Valid() && idxfile.Valid()
      ensures st == Ok ==> file.Contents() == old(file.Contents()) + EntryText(e, currentCrc)
                           && idxfile.Contents() == old(idxfile.Contents()) + Word(|old(file.Contents())|)
      ensures st == Error ==> file.Contents() == old(file.Contents()) && idxfile.Contents() == old(idxfile.Contents())
      ensures st != Panic ==> |old(file.disk)| <= |file.disk|
      ensures old(Failures()) <= Failures() && (st == Ok <==> Failures() == old(Failures()))
    {
      hide EntryText, Word, Truncated;
      var offset := file.Size();
      var idxOffset := idxfile.Size();
      var ok := WriteEntry(file, e, currentCrc);
      if ok {
        var word := Word(offset);
        var n := idxfile.Write(word);
        ok := n == |word|;
      }
      if ok {
        return Ok;
      }
      TruncateExtended(old(file.Contents()), file.Contents());
      TruncateExtended(old(idxfile.Contents()), idxfile.Contents());
      var undone := TruncateFiles(offset, idxOffset);
      return if undone then Error else Panic;
    }

    /** Append one entry.  It succeeds unless a call into the kernel fails, and an error means that the page is exactly
        as before. */
    method Append(e: Entry) returns (st: Status)
      requires Consistent() && WellFormed(e)
      modifies Repr()
      ensures st == Ok ==> Consistent() && Head() == old(Head()) && entries == old(entries) + [e]
                           && numEntries == old(numEntries) + 1
      ensures st == Error ==> Consistent() && Head() == old(Head()) && entries == old(entries)
                              && numEntries == old(numEntries)
      ensures st != Panic ==> index == prevLogIdx + |entries| && synced == old(synced)
      ensures old(Failures()) <= Failures() && (st == Ok <==> Failures() == old(Failures()))
    {
      hide PageText, Words, HeaderText, HeaderCrc, Offsets, ChainCrc, Word, EntryText, NextCrc, SizeOf;
      PageAppend(Head(), entries, e);
      SizeKept(Head(), entries, e, synced);
      WordsAppend(Starts(), |file.Contents()|);
      st := WriteRecord(e);
      if st == Ok {
        currentCrc := NextCrc(currentCrc, e);
        entries := entries + [e];
        index := index + 1;
        numEntries := numEntries + 1;
      }
    }

    /** Word `k` of the index file; nothing past its end. */
    method ReadWord(k: nat) returns (r: Option<nat>, fault: bool)
      requires Stored()
      modifies idxfile, idxfile.buf
      ensures Stored() && (fault ==> !old(Flushed()) && r == None) && file.wpos == old(file.wpos)
      ensures !fault ==> r == if k < |entries| then Some(Starts()[k]) else None
      ensures old(Flushed()) ==> Flushed()
      ensures Failures() == old(Failures()) + if fault then 1 else 0
    {
      hide PageText, Words, HeaderText, HeaderCrc, Offsets, ChainCrc, WordValue, From, Taken, Chain;
      var ok := idxfile.SetReadOffset(WORD * k);
      if !ok {
        return None, true;
      }
      ghost var words := idxfile.disk;
      var word := idxfile.Read(WORD);
      assert idxfile.Contents() == words;
      SeekWord(Starts(), k);
      if |word| != WORD {
        return None, false;
      }
      StartsInFile(Head(), entries, k);
      ValueOfWord(Starts()[k]);
      return Some(WordValue(word)), false;
    }

    /** Position the page file at entry `idx`; zero when there is none. */
    method Seek(idx: int) returns (offset: nat, fault: bool)
      requires Stored()
      modifies file, file.buf, idxfile, idxfile.buf
      ensures Stored()
      ensures fault ==> !old(Flushed()) && offset == 0 && prevLogIdx < idx <= prevLogIdx + numEntries
      ensures offset > 0 ==> prevLogIdx < idx <= index && offset == Starts()[idx - prevLogIdx - 1]
                             && file.Readable() && file.roffset == offset && file.disk == file.Contents()
      ensures !fault && prevLogIdx < idx <= index && idx <= prevLogIdx + numEntries ==> offset > 0
      ensures old(Flushed()) ==> Flushed()
      ensures Failures() == old(Failures()) + if fault then 1 else 0
    {
      hide PageText, Words, HeaderText, HeaderCrc, Offsets, ChainCrc, Chain;
      fault := false;
      if idx <= prevLogIdx || idx > prevLogIdx + numEntries {
        return 0, false;
      }
      var word;
      word, fault := ReadWord(idx - prevLogIdx - 1);
      if word.None? {
        return 0, fault;
      }
      StartsInFile(Head(), entries, idx - prevLogIdx - 1);
      var ok := file.SetReadOffset(word.value);
      if !ok {
        return 0, true;
      }
      return word.value, false;
    }

    /** The entry at an index, or nothing outside the page; also nothing when bytes that wait
        in a buffer cannot be written out first. */
    method Get(idx: int) returns (r: Option<Entry>, fault: bool)
      requires Valid()
      modifies file, file.buf, idxfile, idxfile.buf
      ensures Valid()
      ensures fault ==> !old(Flushed()) && r == None && prevLogIdx < idx <= index
      ensures !fault ==> r == if prevLogIdx < idx <= index then Some(entries[idx - prevLogIdx - 1]) else None
      ensures old(Flushed()) ==> Flushed()
      ensures Failures() == old(Failures()) + if fault then 1 else 0
    {
      hide PageText, Words, HeaderText, HeaderCrc, Offsets, ChainCrc, ParseEntry;
      var offset;
      offset, fault := Seek(idx);
      if offset == 0 {
        return None, fault;
      }
      EntryStored(Head(), entries, idx - prevLogIdx - 1);
      var e := ReadEntry(file);
      r := Some(e.value.0);
    }

    /** Remove the entries from `from` on.  The count may exceed the entries by a stale surplus
        left behind by a reset; then removing every entry stops the process. */
    method Delete(from: int) returns (st: Status, fault: bool)
      requires Consistent() && numEntries >= |entries|
      modifies Repr()
      ensures st != Panic ==> Consistent() && Head() == old(Head()) && index == prevLogIdx + |entries|
      ensures st == Ok ==> prevLogIdx < from <= old(index) && entries == old(entries)[..from - prevLogIdx - 1]
                           && numEntries - |entries| == old(numEntries - |entries|)
      ensures st == Error ==> entries == old(entries) && numEntries == old(numEntries)
      ensures st == Error ==> fault || !(prevLogIdx < from <= index)
      ensures fault ==> !old(Flushed()) && st == Error
      ensures !(old(prevLogIdx) < from <= old(index)) ==> st == Error && !fault
      ensures st == Ok ==> old(numEntries) == old(|entries|) || from > prevLogIdx + 1
      ensures st != Panic ==> synced == if old(synced) <= |entries| then old(synced) else |entries|
      ensures old(Failures()) <= Failures() && (fault ==> old(Failures()) < Failures())
      ensures st != Panic && !fault ==> Failures() == old(Failures())
      ensures old(prevLogIdx) < from <= old(index) && Failures() == old(Failures()) ==>
                st == if old(numEntries) == old(|entries|) || from > old(prevLogIdx) + 1 then Ok else Panic
    {
      hide PageText, Words, HeaderText, HeaderCrc, Offsets, ChainCrc, Chain, Truncated, SizeOf;
      if from <= prevLogIdx || from > index {
        return Error, false;
      }
      var offset;
      offset, fault := Seek(from);
      if offset == 0 {
        return Error, fault;
      }
      var ok := Cut(from - prevLogIdx - 1, offset);
      if !ok {
        return Panic, false;
      }
      if numEntries == 0 {
        ChainOfNone(HeaderCrc(Head()));
        currentCrc := HeaderCrc(Head());
        return Ok, false;
      }
      st := RereadCrc();
    }

    /** Cut both files before entry `k` and adjust the counters. */
    method Cut(k: nat, offset: nat) returns (ok: bool)
      requires Stored() && k < |entries| && offset == Starts()[k]
      modifies Repr()
      ensures Head() == old(Head())
      ensures ok ==> Stored() && Flushed() && entries == old(entries)[..k]
                     && numEntries - |entries| == old(numEntries - |entries|)
                     && synced == if old(synced) <= k then old(synced) else k
      ensures Failures() == old(Failures()) + if ok then 0 else 1
    {
      hide PageText, Words, HeaderText, HeaderCrc, Offsets, ChainCrc, Chain, Truncated, SizeOf;
      CutPage(Head(), entries, k);
      CutWords(Starts(), k);
      SizeOfCut(Head(), entries, synced, k);
      ok := TruncateFiles(offset, WORD * k);
      if ok {
        assert file.disk == file.Contents();
        var count := index - (prevLogIdx + k);
        entries := entries[..k];
        synced := if synced <= k then synced else k;
        numEntries := numEntries - count;
        index := index - count;
      }
    }

    /** Take the running checksum from the last entry left. */
    method RereadCrc() returns (st: Status)
      requires Stored() && Flushed() && numEntries >= |entries|
      modifies file, file.buf, idxfile, idxfile.buf, this`currentCrc
      ensures st == if entries == [] then Panic else Ok
      ensures st == Ok ==> Consistent()
      ensures Failures() == old(Failures())
    {
      hide PageText, Words, HeaderText, HeaderCrc, Offsets, ChainCrc, Chain, ParseEntry;
      var pos, fault := Seek(index);
      if pos == 0 {
        return Panic;
      }
      EntryStored(Head(), entries, |entries| - 1);
      assert entries[..|entries|] == entries;
      var e := ReadEntry(file);
      currentCrc := e.value.1;
      return Ok;
    }

    /** Empty both files and write the header alone. */
    method WriteHeader() returns (st: Status)
      requires file != idxfile && file.buf != idxfile.buf && file.Valid() && idxfile.Valid()
      modifies Repr()
      ensures file.Valid() && idxfile.Valid()
      ensures Head() == old(Head()) && numEntries == old(numEntries) && index == old(index)
      ensures st == Ok ==> file.Contents() == HeaderText(Head()) && idxfile.Contents() == [] && Flushed()
                           && currentCrc == HeaderCrc(Head()) && entries == [] && synced == 0
      ensures st != Panic
      ensures old(Failures()) <= Failures() && (st == Ok <==> Failures() == old(Failures()))
    {
      hide HeaderText, HeaderCrc;
      var text := HeaderText(Head());
      var ok := TruncateFiles(0, 0);
      assert ok ==> file.Contents() == [] && idxfile.Contents() == [];
      if ok {
        var n := file.Write(text);
        ok := n == |text|;
        assert ok ==> file.Contents() == text;
      }
      if ok {
        ok := Sync(true);
      }
      if !ok {
        var undone := TruncateFiles(0, 0);
        return Error;
      }
      entries, synced := [], 0;
      currentCrc := HeaderCrc(Head());
      return Ok;
    }

    /** Flush the page file and, if asked, fsync it. */
    method Sync(fsync: bool) returns (ok: bool)
      requires file != idxfile && file.buf != idxfile.buf && file.Valid()
      modifies file, file.buf, this`synced
      ensures file.Valid() && file.Contents() == old(file.Contents())
      ensures ok ==> file.wpos == 0
      ensures synced == if ok && fsync then |entries| else old(synced)
      ensures old(Valid()) ==> Valid()
      ensures Failures() == old(Failures()) + if ok then 0 else 1
    {
      hide PageText, Words, HeaderText, HeaderCrc, Offsets, ChainCrc, AllWellFormed, HeaderOk, SizeOf;
      ok := file.Flush();
      if ok && fsync {
        ok := file.KernelSync();
        if ok {
          WholeSize(Head(), entries);
          assert file.disk == file.Contents();
          synced := |entries|;
        }
      }
    }

    /** The header of a page that goes on after this one. */
    lemma NextHeaderOk()
      requires Valid() && entries != [] && index <= LONG_MAX
      ensures HeaderOk(Header(dbid, nodeId, entries[|entries| - 1].term, index))
      ensures file != idxfile && file.buf != idxfile.buf && file.Valid()
    {
      hide PageText, Words, HeaderText, HeaderCrc, Offsets, ChainCrc;
    }

    /** Start the page over after `idx`.  The entry count is not touched, so the page invariant
        holds afterwards exactly when the page had no entries. */
    method Reset(idx: int, term: int) returns (st: Status)
      requires Consistent() && 0 <= idx <= LONG_MAX && LONG_MIN <= term <= LONG_MAX
      modifies Repr()
      ensures st != Panic
      ensures st == Ok ==> Consistent() && entries == [] && synced == 0 && numEntries == old(numEntries)
                           && Head() == Header(old(dbid), old(nodeId), term, idx)
      ensures st == Ok ==> (Valid() <==> old(numEntries) == 0)
      ensures old(Failures()) <= Failures() && (st == Ok <==> Failures() == old(Failures()))
    {
      hide HeaderText, HeaderCrc, Chain, HeaderOk, File.Contents, File.Valid;
      HeadIsOk(idx, term);
      hide Consistent, Stored;
      index := idx;
      prevLogIdx := idx;
      prevLogTerm := term;
      st := WriteHeader();
      if st == Ok {
        EmptyIsConsistent();
      }
    }

    lemma HeadIsOk(idx: int, term: int)
      requires Consistent() && 0 <= idx <= LONG_MAX && LONG_MIN <= term <= LONG_MAX
      ensures file != idxfile && file.buf != idxfile.buf && file.Valid() && idxfile.Valid()
      ensures HeaderOk(Header(dbid, nodeId, term, idx))
    {
      hide PageText, Words, HeaderText, HeaderCrc, Offsets, ChainCrc, File.Contents, File.Valid;
    }

    /** A page file with the header alone, and an empty index. */
    lemma EmptyIsConsistent()
      requires file != idxfile && file.buf != idxfile.buf && file.Valid() && idxfile.Valid() && HeaderOk(Head())
      requires file.Contents() == HeaderText(Head()) && idxfile.Contents() == [] && Flushed()
      requires entries == [] && synced == 0 && index == prevLogIdx && currentCrc == HeaderCrc(Head())
      ensures Consistent() && (Valid() <==> numEntries == 0)
    {
      hide HeaderText, HeaderCrc, Chain;
      EmptyPage(Head());
      assert file.disk == file.Contents();
    }

    /** A new page with a header and no entries; none only if a call into the kernel failed on the page's files. */
    static method Create(leftover: string, dbid: string, nodeId: int, prevTerm: int, prevIdx: int)
      returns (p: LogPage?, ghost tried: LogPage)
      requires |leftover| <= OFFSET_MAX && HeaderOk(Header(dbid, nodeId, prevTerm, prevIdx))
      ensures p != null ==> fresh(p.Repr()) && p.Valid() && p.Flushed()
      ensures p != null ==> p.entries == [] && p.synced == 0 && p.Head() == Header(dbid, nodeId, prevTerm, prevIdx)
      ensures fresh(tried.Repr()) && if p == null then tried.Failures() > 0 else p == tried && p.Failures() == 0
    {
      hide HeaderText, HeaderCrc, HeaderOk, LogPage.Consistent, LogPage.Stored, File.Contents, File.Valid;
      var page := new LogPage(leftover);
      page.dbid := dbid;
      page.nodeId := nodeId;
      page.prevLogTerm := prevTerm;
      page.prevLogIdx := prevIdx;
      page.index := prevIdx;
      var st := page.WriteHeader();
      if st != Ok {
        return null, page;
      }
      page.EmptyIsConsistent();
      return page, page;
    }

    /** Open an existing page file; its entries are not loaded yet. */
    static method Open(contents: string) returns (p: LogPage?)
      requires |contents| <= OFFSET_MAX
      ensures p == null <==> OpenPage(contents) == None
      ensures p != null ==> fresh(p.Repr()) && p.Opened(contents)
      ensures p != null ==> p.Head() == OpenPage(contents).value.0 && p.Failures() == 0
    {
      hide ParseHeader, HeaderCrc, HeaderText, From, Line;
      var page := new LogPage(contents);
      var ok := page.file.SetReadOffset(0);
      var header := ReadHeader(page.file);
      if header.None? {
        return null;
      }
      var (h, crc) := header.value;
      if HeaderCrc(h) != crc {
        return null;
      }
      page.dbid, page.nodeId, page.prevLogTerm, page.prevLogIdx := h.dbid, h.nodeId, h.prevTerm, h.prevIdx;
      page.index := h.prevIdx;
      return page;
    }

    /** The header has been read from the page file and the index file is empty. */
    ghost predicate Opened(contents: string)
      reads Repr()
    {
      && file != idxfile && file.buf != idxfile.buf && file.Valid() && idxfile.Valid() && Flushed()
      && file.Contents() == contents && idxfile.Contents() == []
      && OpenPage(contents).Some? && Head() == OpenPage(contents).value.0
      && index == prevLogIdx
    }

    /** Read the header again and stand at the first entry. */
    method StartLoading(ghost d: string)
      requires Opened(d)
      modifies Repr()
      ensures file.Valid() && idxfile.Valid() && file.Readable() && file.disk == d && idxfile.Contents() == []
      ensures file.roffset == OpenPage(d).value.1 && currentCrc == HeaderCrc(Head())
      ensures Head() == old(Head()) && numEntries == 0 && entries == [] && synced == 0 && index == prevLogIdx
      ensures Failures() == old(Failures())
    {
      hide ParseHeader, HeaderCrc;
      numEntries := 0;
      entries, synced := [], 0;
      var ok := file.SetReadOffset(0);
      var header := ReadHeader(file);
      currentCrc := header.value.1;
    }

    /** Record where a loaded entry starts. */
    method IndexEntry(offset: nat, ghost offsets: seq<nat>) returns (ok: bool)
      requires file != idxfile && file.buf != idxfile.buf && idxfile.Valid() && idxfile.Contents() == Words(offsets)
      modifies idxfile, idxfile.buf
      ensures ok ==> idxfile.Valid() && idxfile.Contents() == Words(offsets + [offset])
      ensures Failures() == old(Failures()) + if ok then 0 else 1
    {
      hide Words, Word;
      WordsAppend(offsets, offset);
      var n := idxfile.Write(Word(offset));
      ok := n == WORD;
    }

    /** Rebuild the index, the counters and the checksum from the page file, and cut off whatever
        follows the last good entry. */
    method LoadEntries(ghost d: string) returns (st: Status)
      requires Opened(d)
      modifies Repr()
      ensures st != Error && (st == Ok ==> Head() == old(Head()) && file.Valid() && file.wpos == 0 && idxfile.Valid())
      ensures st == Ok ==>
                var r := LoadFrom(d, OpenPage(d).value.1, HeaderCrc(Head()));
                && entries == r.entries && numEntries == |r.entries| && index == prevLogIdx + numEntries
                && currentCrc == r.crc && file.Contents() == d[..r.end] && idxfile.Contents() == Words(r.offsets)
      ensures old(Failures()) <= Failures() && (st == Ok <==> Failures() == old(Failures()))
    {
      hide LoadFrom, OpenPage, ParseEntry, HeaderCrc, Words, Word, NextCrc, LoadedSoFar;
      StartLoading(d);
      ghost var base, crc0 := file.roffset, currentCrc;
      ghost var offsets: seq<nat> := [];
      LoadStart(d, base, crc0);
      WordsOfNone();
      while true
        invariant file.Valid() && idxfile.Valid() && file.Readable() && file.disk == d
        invariant Head() == old(Head()) && numEntries == |entries| && index == prevLogIdx + numEntries
        invariant idxfile.Contents() == Words(offsets)
        invariant LoadedSoFar(d, base, crc0, entries, offsets, file.roffset, currentCrc)
        invariant Failures() == old(Failures())
        decreases |d| - file.roffset
      {
        var offset := file.roffset;
        LoadNext(d, base, crc0, entries, offsets, offset, currentCrc);
        var read := ReadEntry(file);
        if read.None? || NextCrc(currentCrc, read.value.0) != read.value.1 {
          st := CutTail(offset, read.Some?, d);
          return;
        }
        currentCrc := NextCrc(currentCrc, read.value.0);
        index := index + 1;
        numEntries := numEntries + 1;
        var ok := IndexEntry(offset, offsets);
        if !ok {
          return Panic;
        }
        offsets := offsets + [offset];
        entries := entries + [read.value.0];
      }
    }

    /** Loading a page file that a crash cut at byte `k`: the page invariant holds for exactly the
        entries wholly contained in the file, the first `known` of which are known to be durable. */
    method LoadAfterCrash(ghost h: Header, ghost es: seq<Entry>, ghost k: nat, ghost known: nat) returns (st: Status)
      requires HeaderOk(h) && AllWellFormed(es) && |HeaderText(h)| <= k <= |PageText(h, es)|
      requires known <= WholeEntries(es, HeaderCrc(h), k - |HeaderText(h)|)
      requires Opened(PageText(h, es)[..k])
      modifies Repr()
      ensures st != Error
      ensures st == Ok ==>
                Valid() && Head() == h && entries == es[..WholeEntries(es, HeaderCrc(h), k - |HeaderText(h)|)]
                           && synced == known
      ensures old(Failures()) <= Failures() && (st == Ok <==> Failures() == old(Failures()))
    {
      hide PageText, Words, HeaderText, HeaderCrc, Offsets, ChainCrc, LoadFrom, WholeEntries, OpenPage, SizeOf;
      ghost var d := PageText(h, es)[..k];
      ghost var m := WholeEntries(es, HeaderCrc(h), k - |HeaderText(h)|);
      CutPageRecovers(h, es, k);
      CutAgain(h, es, m, k);
      SizeOfCut(h, es, known, m);
      st := LoadEntries(d);
      assert st == Ok ==> file.disk == file.Contents();
      synced := known;
    }

    /** Discard what follows the last good entry, if there is anything or it failed its checksum. */
    method CutTail(offset: nat, always: bool, ghost d: string) returns (st: Status)
      requires file.Valid() && file.wpos == 0 && file.disk == d && offset <= |d|
      modifies file, file.buf
      ensures st != Error && (st == Ok ==> file.Valid() && file.wpos == 0 && file.Contents() == d[..offset])
      ensures file.failures == old(file.failures) + if st == Ok then 0 else 1
    {
      assert file.Contents() == d;
      var size := file.Size();
      if always || size > offset {
        var ok := file.Truncate(offset);
        return if ok then Ok else Panic;
      }
      return Ok;
    }
  }

  /** The size of a page file with the first `n` of some entries. */
  ghost function SizeOf(h: Header, es: seq<Entry>, n: nat): (size: nat)
    requires n <= |es|
    ensures |HeaderText(h)| <= size
  {
    |PageText(h, es[..n])|
  }

  lemma SizeKept(h: Header, es: seq<Entry>, e: Entry, n: nat)
    requires n <= |es|
    ensures SizeOf(h, es + [e], n) == SizeOf(h, es, n)
  {
    assert (es + [e])[..n] == es[..n];
  }

  lemma WholeSize(h: Header, es: seq<Entry>)
    ensures SizeOf(h, es, |es|) == |PageText(h, es)|
  {
    assert es[..|es|] == es;
  }

  lemma SizeGrows(h: Header, es: seq<Entry>, i: nat, j: nat)
    requires i <= j <= |es|
    ensures SizeOf(h, es, i) <= SizeOf(h, es, j)
  {
    hide Chain, ChainCrc, HeaderText, HeaderCrc;
    ChainSplit(es[..i], es[i..j], HeaderCrc(h));
    assert es[..i] + es[i..j] == es[..j];
  }

  /** What is durable of the entries before a cut is in the file that is left. */
  lemma SizeOfCut(h: Header, es: seq<Entry>, n: nat, k: nat)
    requires n <= |es| && k <= |es|
    ensures var m := if n <= k then n else k;
            SizeOf(h, es[..k], m) == SizeOf(h, es, m) <= |PageText(h, es[..k])|
  {
    hide PageText;
    var m := if n <= k then n else k;
    SizeGrows(h, es, m, k);
    assert es[..k][..m] == es[..m];
  }

  /** A reset page that had entries keeps their count, and deleting the next entry appended to it
      cannot succeed: it either stops the process or fails to flush. */
  method StaleCountAfterReset(p: LogPage, idx: int, term: int, e: Entry)
                              returns (reset: Status, appended: Status, deleted: Status)
    requires p.Valid() && p.numEntries > 0 && WellFormed(e)
    requires 0 <= idx <= LONG_MAX && LONG_MIN <= term <= LONG_MAX
    modifies p.Repr()
    ensures reset == Ok && appended == Ok ==> deleted != Ok
    ensures p.Failures() == old(p.Failures()) ==> reset == Ok && appended == Ok && deleted == Panic
  {
    appended, deleted := Error, Error;
    reset := p.Reset(idx, term);
    if reset == Ok {
      appended := p.Append(e);
      if appended == Ok {
        var fault;
        deleted, fault := p.Delete(idx + 1);
      }
    }
  }

  lemma TruncateExtended(before: string, after: string)
    requires before <= after
    ensures Truncated(after, |before|) == before
  {
  }

  /** Reading word `k` of the index. */
  lemma SeekWord(starts: seq<nat>, k: nat)
    ensures Taken(From(Words(starts), WORD * k), WORD) == if k < |starts| then Word(starts[k]) else []
  {
    hide Words, Word, Taken, From;
    TakenSlice(Words(starts), WORD * k, WORD);
    if k < |starts| {
      WordAtIndex(starts, k);
    }
  }

  lemma TakenSlice(s: string, at: nat, n: nat)
    ensures at + n <= |s| ==> Taken(From(s, at), n) == s[at..at + n]
    ensures at >= |s| ==> Taken(From(s, at), n) == []
  {
    if at + n <= |s| {
      assert s[at..][..n] == s[at..at + n];
    }
  }

  lemma HeaderNotEmpty(h: Header)
    ensures |HeaderText(h)| > 0
  {
  }

  lemma StartsInFile(h: Header, es: seq<Entry>, k: nat)
    ensures k < |es| ==> 0 < Offsets(es, HeaderCrc(h), |HeaderText(h)|)[k] <= |PageText(h, es)|
  {
    hide Chain, ChainCrc, Offsets, EntryText, HeaderText, HeaderCrc;
    HeaderNotEmpty(h);
    if k < |es| {
      ChainAtIndex(es, HeaderCrc(h), |HeaderText(h)|, k);
    }
  }

  lemma AtAfter(head: string, before: string, text: string, chain: string)
    requires before + text <= chain
    ensures At(head + chain, |head| + |before|, text)
  {
    var d, off := head + chain, |head| + |before|;
    assert |chain| >= |before| + |text|;
    assert forall i | 0 <= i < |text| :: d[off + i] == (before + text)[|before| + i] == text[i];
  }

  /** Entry `k` parses at its recorded offset. */
  lemma EntryStored(h: Header, es: seq<Entry>, k: nat)
    requires AllWellFormed(es) && k < |es|
    ensures ParseEntry(PageText(h, es), Offsets(es, HeaderCrc(h), |HeaderText(h)|)[k]).Some?
    ensures var got := ParseEntry(PageText(h, es), Offsets(es, HeaderCrc(h), |HeaderText(h)|)[k]).value;
            got.0 == es[k] && got.1 == ChainCrc(es[..k + 1], HeaderCrc(h))
  {
    hide Chain, ChainCrc, Offsets, EntryText, HeaderText, HeaderCrc, ParseEntry, NextCrc, At, WellFormed;
    var crc, head := HeaderCrc(h), HeaderText(h);
    ChainAtIndex(es, crc, |head|, k);
    var here := ChainCrc(es[..k], crc);
    AtAfter(head, Chain(es[..k], crc), EntryText(es[k], here), Chain(es, crc));
    EntryAt(PageText(h, es), |head| + |Chain(es[..k], crc)|, es[k], here);
    assert ChainCrc(es[..k + 1], crc) == NextCrc(here, es[k]) by {
      ChainAppend(es[..k], es[k], crc, 0);
      assert es[..k] + [es[k]] == es[..k + 1];
    }
  }

  /** Cutting the page file at an entry's offset leaves the page of the entries before it. */
  lemma CutPage(h: Header, es: seq<Entry>, k: nat)
    requires k < |es|
    ensures Truncated(PageText(h, es), Offsets(es, HeaderCrc(h), |HeaderText(h)|)[k]) == PageText(h, es[..k])
    ensures Offsets(es[..k], HeaderCrc(h), |HeaderText(h)|) == Offsets(es, HeaderCrc(h), |HeaderText(h)|)[..k]
  {
    hide Chain, ChainCrc, Offsets, EntryText, HeaderText, HeaderCrc;
    ChainAtIndex(es, HeaderCrc(h), |HeaderText(h)|, k);
    TruncateExtended(PageText(h, es[..k]), PageText(h, es));
  }

  lemma CutWords(starts: seq<nat>, k: nat)
    requires k <= |starts|
    ensures Truncated(Words(starts), WORD * k) == Words(starts[..k])
  {
    WordsPrefix(starts, k);
  }

  lemma ChainOfNone(crc: word32)
    ensures ChainCrc([], crc) == crc && Chain([], crc) == [] && Offsets([], crc, 0) == []
  {
  }

  lemma EmptyPage(h: Header)
    ensures PageText(h, []) == HeaderText(h) && ChainCrc([], HeaderCrc(h)) == HeaderCrc(h)
    ensures Words(Offsets([], HeaderCrc(h), |HeaderText(h)|)) == []
  {
    hide HeaderText, HeaderCrc;
    assert Chain([], HeaderCrc(h)) == [];
  }

  lemma CutAgain(h: Header, es: seq<Entry>, m: nat, k: nat)
    requires m <= |es| && |PageText(h, es[..m])| <= k <= |PageText(h, es)|
    ensures PageText(h, es)[..k][..|PageText(h, es[..m])|] == PageText(h, es[..m])
  {
    hide Chain, ChainCrc, HeaderText, HeaderCrc;
    ChainSplit(es[..m], es[m..], HeaderCrc(h));
    assert es[..m] + es[m..] == es;
    assert PageText(h, es[..m]) <= PageText(h, es);
  }

  lemma WordsOfNone()
    ensures Words([]) == []
  {
  }

  /** What has been loaded, followed by what loading from `at` will find. */
  ghost predicate LoadedSoFar(d: string, base: nat, crc0: word32, es: seq<Entry>, offsets: seq<nat>, at: nat,
                              crc: word32) {
    base <= |d| && at <= |d| &&
    var rest := LoadFrom(d, at, crc);
    LoadFrom(d, base, crc0) == Loaded(es + rest.entries, offsets + rest.offsets, rest.crc, rest.end)
  }

  lemma LoadStart(d: string, base: nat, crc0: word32)
    requires base <= |d|
    ensures LoadedSoFar(d, base, crc0, [], [], base, crc0)
  {
    hide LoadFrom;
    var r := LoadFrom(d, base, crc0);
    assert [] + r.entries == r.entries && [] + r.offsets == r.offsets;
  }

  lemma LoadNext(d: string, base: nat, crc0: word32, es: seq<Entry>, offsets: seq<nat>, at: nat, crc: word32)
    requires LoadedSoFar(d, base, crc0, es, offsets, at, crc)
    ensures base <= |d| && at <= |d|
    ensures ParseEntry(d, at) == None ==> LoadFrom(d, base, crc0) == Loaded(es, offsets, crc, at)
    ensures ParseEntry(d, at).Some? ==>
              var (e, stored, next) := ParseEntry(d, at).value;
              if NextCrc(crc, e) != stored then LoadFrom(d, base, crc0) == Loaded(es, offsets, crc, at)
              else LoadedSoFar(d, base, crc0, es + [e], offsets + [at], next, stored)
  {
    hide ParseEntry, NextCrc;
    assert es + [] == es && offsets + [] == offsets;
    if ParseEntry(d, at).Some? {
      var (e, stored, next) := ParseEntry(d, at).value;
      if NextCrc(crc, e) == stored {
        var r := LoadFrom(d, next, stored);
        assert es + ([e] + r.entries) == es + [e] + r.entries;
        assert offsets + ([at] + r.offsets) == offsets + [at] + r.offsets;
      }
    }
  }

  lemma PageAppend(h: Header, es: seq<Entry>, e: Entry)
    ensures PageText(h, es + [e]) == PageText(h, es) + EntryText(e, ChainCrc(es, HeaderCrc(h)))
    ensures ChainCrc(es + [e], HeaderCrc(h)) == NextCrc(ChainCrc(es, HeaderCrc(h)), e)
    ensures Offsets(es + [e], HeaderCrc(h), |HeaderText(h)|) ==
            Offsets(es, HeaderCrc(h), |HeaderText(h)|) + [|PageText(h, es)|]
  {
    hide Chain, ChainCrc, Offsets, EntryText, NextCrc, HeaderText, HeaderCrc;
    ChainAppend(es, e, HeaderCrc(h), |HeaderText(h)|);
    assert HeaderText(h) + (Chain(es, HeaderCrc(h)) + EntryText(e, ChainCrc(es, HeaderCrc(h)))) ==
           HeaderText(h) + Chain(es, HeaderCrc(h)) + EntryText(e, ChainCrc(es, HeaderCrc(h)));
  }
}
