/** The log page file: a checksummed header and a chain of checksummed entries, as text. */
module PageCodec {
  import opened Wrappers
  import opened Decimal
  import opened MultiBulk
  import opened Crc32c

  const DBID_LEN: nat := 32
  const ELEMENTS: int := 7
  const VERSION: int := 1
  const HEADER_TAG := "RAFTLOG"
  const ENTRY_TAG := "ENTRY"

  datatype Entry = Entry(term: int, id: int, session: int, kind: int, data: string)

  datatype Header = Header(dbid: string, nodeId: int, prevTerm: int, prevIdx: int)

  /** The ranges of the C types, and a length that the `int` in the file can hold. */
  ghost predicate WellFormed(e: Entry) {
    && LONG_MIN <= e.term <= LONG_MAX
    && INT_MIN <= e.id <= INT_MAX
    && 0 <= e.session <= ULONG_MAX
    && INT_MIN <= e.kind <= INT_MAX
    && |e.data| <= INT_MAX
  }

  ghost predicate AllWellFormed(es: seq<Entry>) {
    forall i | 0 <= i < |es| :: WellFormed(es[i])
  }

  ghost predicate HeaderOk(h: Header) {
    && |h.dbid| == DBID_LEN && '\0' !in h.dbid
    && INT_MIN <= h.nodeId <= INT_MAX
    && LONG_MIN <= h.prevTerm <= LONG_MAX
    && 0 <= h.prevIdx <= LONG_MAX
  }

  // ----- checksums of text -----

  function Octets(s: string): seq<byte> {
    seq(|s|, i requires 0 <= i < |s| => s[i] as int % 256)
  }

  function Crc(c: word32, s: string): word32 {
    Checksum(c, Octets(s))
  }

  lemma CrcConcat(c: word32, a: string, b: string)
    ensures Crc(Crc(c, a), b) == Crc(c, a + b)
  {
    hide Checksum, Octets;
    OctetsConcat(a, b);
    ChecksumConcat(c, Octets(a), Octets(b));
  }

  lemma OctetsConcat(a: string, b: string)
    ensures Octets(a + b) == Octets(a) + Octets(b)
  {
  }

  // ----- writing -----

  function EntryFields(e: Entry): seq<string> {
    [ENTRY_TAG, Dec(e.term), Dec(e.id), Dec(e.session), Dec(e.kind)]
  }

  /** Everything before the data: the count, five fields and the data's length. */
  function EntryHead(e: Entry): string {
    LengthLine('*', ELEMENTS) + Bulks(EntryFields(e)) + LengthLine('$', |e.data|)
  }

  /** What an entry's checksum covers. */
  function EntryBody(e: Entry): string {
    EntryHead(e) + e.data + CRLF
  }

  function NextCrc(crc: word32, e: Entry): word32 {
    Crc(crc, EntryBody(e))
  }

  /** An entry with some checksum behind it. */
  function EntryWith(e: Entry, stored: word32): string {
    EntryBody(e) + Bulk(Dec(stored))
  }

  function EntryText(e: Entry, crc: word32): string {
    EntryWith(e, NextCrc(crc, e))
  }

  function HeaderFields(h: Header): seq<string> {
    [HEADER_TAG, Dec(VERSION), h.dbid, Dec(h.nodeId), Dec(h.prevTerm), Dec(h.prevIdx)]
  }

  function HeaderHead(h: Header): string {
    LengthLine('*', ELEMENTS) + Bulks(HeaderFields(h))
  }

  function HeaderCrc(h: Header): word32 {
    Crc(0, HeaderHead(h))
  }

  function HeaderWith(h: Header, stored: word32): string {
    HeaderHead(h) + Bulk(Dec(stored))
  }

  function HeaderText(h: Header): string {
    HeaderWith(h, HeaderCrc(h))
  }

  function Chain(es: seq<Entry>, crc: word32): string {
    if es == [] then [] else EntryText(es[0], crc) + Chain(es[1..], NextCrc(crc, es[0]))
  }

  /** The running checksum after all entries. */
  function ChainCrc(es: seq<Entry>, crc: word32): word32 {
    if es == [] then crc else ChainCrc(es[1..], NextCrc(crc, es[0]))
  }

  function PageText(h: Header, es: seq<Entry>): string {
    HeaderText(h) + Chain(es, HeaderCrc(h))
  }

  // ----- reading -----

  function ShortFields(n: nat): (l: seq<Option<nat>>)
    ensures |l| == n
  {
    seq(n, i => Some(FIELD_SIZE))
  }

  const ENTRY_LIMITS: seq<Option<nat>> := ShortFields(5) + [None] + ShortFields(1)

  /** An entry with its stored checksum and the offset after it. */
  function ParseEntry(d: string, off: nat): (r: Option<(Entry, int, nat)>)
    ensures r.Some? ==> off < r.value.2 <= |d|
  {
    match ParseLength(d, off, '*')
    case None => None
    case Some((n, at)) =>
      match ParseBulks(d, at, ENTRY_LIMITS)
      case None => None
      case Some((f, end)) =>
        if n != ELEMENTS then None
        else match DecodeEntry(f)
        case None => None
        case Some((e, crc)) => Some((e, crc, end))
  }

  function DecodeEntry(f: seq<string>): Option<(Entry, int)>
    requires |f| == 7
  {
    var term := ParseRange(CString(f[1]), LONG_MIN, LONG_MAX);
    var id := ParseRange(CString(f[2]), INT_MIN, INT_MAX);
    var session := ParseUnsigned(CString(f[3]));
    var kind := ParseRange(CString(f[4]), INT_MIN, INT_MAX);
    var crc := ParseRange(CString(f[6]), LONG_MIN, LONG_MAX);
    if ENTRY_TAG <= CString(f[0]) && term.Some? && id.Some? && session.Some? && kind.Some? && crc.Some?
    then Some((Entry(term.value, id.value, session.value, kind.value, f[5]), crc.value))
    else None
  }

  const HEADER_LIMITS: seq<Option<nat>> := ShortFields(7)

  function ParseHeader(d: string, off: nat): (r: Option<(Header, int, nat)>)
    ensures r.Some? ==> off < r.value.2 <= |d|
  {
    match ParseLength(d, off, '*')
    case None => None
    case Some((n, at)) =>
      match ParseBulks(d, at, HEADER_LIMITS)
      case None => None
      case Some((f, end)) =>
        if n != ELEMENTS then None
        else match DecodeHeader(f)
        case None => None
        case Some((h, crc)) => Some((h, crc, end))
  }

  function DecodeHeader(f: seq<string>): Option<(Header, int)>
    requires |f| == 7
  {
    var version := ParseRange(CString(f[1]), LONG_MIN, LONG_MAX);
    var dbid := CString(f[2]);
    var node := ParseRange(CString(f[3]), INT_MIN, INT_MAX);
    var term := ParseRange(CString(f[4]), LONG_MIN, LONG_MAX);
    var idx := ParseRange(CString(f[5]), LONG_MIN, LONG_MAX);
    var crc := ParseRange(CString(f[6]), LONG_MIN, LONG_MAX);
    if HEADER_TAG <= CString(f[0]) && version == Some(VERSION) && |dbid| == DBID_LEN
       && node.Some? && term.Some? && idx.Some? && crc.Some?
    then Some((Header(dbid, node.value, term.value, idx.value), crc.value))
    else None
  }

  // ----- an entry is one length line and seven bulk strings -----

  function AllFields(e: Entry, stored: word32): seq<string> {
    EntryFields(e) + [e.data, Dec(stored)]
  }

  function AllHeaderFields(h: Header, stored: word32): seq<string> {
    HeaderFields(h) + [Dec(stored)]
  }

  lemma {:induction false} BulksConcat(a: seq<string>, b: seq<string>)
    ensures Bulks(a + b) == Bulks(a) + Bulks(b)
    decreases |a|
  {
    if a == [] {
      assert a + b == b;
    } else {
      assert (a + b)[1..] == a[1..] + b;
      BulksConcat(a[1..], b);
    }
  }

  lemma EntryAsFields(e: Entry, stored: word32)
    ensures EntryWith(e, stored) == LengthLine('*', ELEMENTS) + Bulks(AllFields(e, stored))
  {
    hide LengthLine, Dec;
    var c := Dec(stored);
    BulksConcat(EntryFields(e), [e.data, c]);
    assert [e.data, c][1..] == [c] && [c][1..] == [];
    assert Bulks([c]) == Bulk(c);
    assert Bulks([e.data, c]) == Bulk(e.data) + Bulk(c);
    assert EntryBody(e) == LengthLine('*', ELEMENTS) + Bulks(EntryFields(e)) + Bulk(e.data);
  }

  lemma HeaderAsFields(h: Header, stored: word32)
    ensures HeaderWith(h, stored) == LengthLine('*', ELEMENTS) + Bulks(AllHeaderFields(h, stored))
  {
    hide LengthLine, Dec;
    var c := Dec(stored);
    BulksConcat(HeaderFields(h), [c]);
    assert [c][1..] == [];
    assert Bulks([c]) == Bulk(c);
  }

  lemma EntryFieldsFit(e: Entry, stored: word32)
    requires WellFormed(e)
    ensures AllFit(AllFields(e, stored), ENTRY_LIMITS)
  {
    hide Dec;
    DecIsText(e.term);
    DecIsText(e.id);
    DecIsText(e.session);
    DecIsText(e.kind);
    DecIsText(stored);
  }

  lemma HeaderFieldsFit(h: Header, stored: word32)
    requires HeaderOk(h)
    ensures AllFit(AllHeaderFields(h, stored), HEADER_LIMITS)
  {
    hide Dec;
    DecIsText(VERSION);
    DecIsText(h.nodeId);
    DecIsText(h.prevTerm);
    DecIsText(h.prevIdx);
    DecIsText(stored);
  }

  lemma DecodeOwnFields(e: Entry, stored: word32)
    requires WellFormed(e)
    ensures DecodeEntry(AllFields(e, stored)) == Some((e, stored))
  {
    hide Dec, ParseRange, ParseUnsigned, CString;
    ParsePrinted(e.term, LONG_MIN, LONG_MAX);
    ParsePrinted(e.id, INT_MIN, INT_MAX);
    ParsePrinted(e.session, 0, ULONG_MAX);
    ParsePrinted(e.kind, INT_MIN, INT_MAX);
    ParsePrinted(stored, LONG_MIN, LONG_MAX);
    CStringOfText(ENTRY_TAG);
  }

  lemma DecodeOwnHeader(h: Header, stored: word32)
    requires HeaderOk(h)
    ensures DecodeHeader(AllHeaderFields(h, stored)) == Some((h, stored))
  {
    hide Dec, ParseRange, CString;
    ParsePrinted(VERSION, LONG_MIN, LONG_MAX);
    ParsePrinted(h.nodeId, INT_MIN, INT_MAX);
    ParsePrinted(h.prevTerm, LONG_MIN, LONG_MAX);
    ParsePrinted(h.prevIdx, LONG_MIN, LONG_MAX);
    ParsePrinted(stored, LONG_MIN, LONG_MAX);
    CStringOfText(HEADER_TAG);
    CStringOfText(h.dbid);
  }

  /** Fields behind a length line, whole or torn. */
  lemma RecordAt(d: string, off: nat, fields: seq<string>, limits: seq<Option<nat>>)
    requires AllFit(fields, limits) && At(d, off, LengthLine('*', ELEMENTS) + Bulks(fields))
    ensures ParseLength(d, off, '*') == Some((ELEMENTS, off + |LengthLine('*', ELEMENTS)|))
    ensures ParseBulks(d, off + |LengthLine('*', ELEMENTS)|, limits) ==
            Some((fields, off + |LengthLine('*', ELEMENTS) + Bulks(fields)|))
  {
    hide LengthLine, Bulks, ParseLength, ParseBulks;
    var head, rest := LengthLine('*', ELEMENTS), Bulks(fields);
    var n := |head + rest|;
    assert (head + rest)[0..|head|] == head && (head + rest)[|head|..n] == rest;
    SliceOfSlice(d, off, n, 0, |head|);
    SliceOfSlice(d, off, n, |head|, n);
    LengthAt(d, off, '*', ELEMENTS);
    BulksAt(d, off + |head|, fields, limits);
  }

  lemma RecordTorn(d: string, off: nat, fields: seq<string>, limits: seq<Option<nat>>)
    requires AllFit(fields, limits) && TornAt(d, off, LengthLine('*', ELEMENTS) + Bulks(fields))
    ensures ParseLength(d, off, '*') == None ||
            (ParseLength(d, off, '*') == Some((ELEMENTS, off + |LengthLine('*', ELEMENTS)|)) &&
             ParseBulks(d, off + |LengthLine('*', ELEMENTS)|, limits) == None)
  {
    hide LengthLine, Bulks, ParseLength, ParseBulks;
    var head, rest := LengthLine('*', ELEMENTS), Bulks(fields);
    var n := |d| - off;
    if n < |head| {
      assert (head + rest)[..n] == head[..n];
      LengthTorn(d, off, '*', ELEMENTS);
    } else {
      assert (head + rest)[..n][..|head|] == head && (head + rest)[..n][|head|..] == rest[..n - |head|];
      assert d[off..off + |head|] == d[off..][..|head|] && d[off + |head|..] == d[off..][|head|..];
      LengthAt(d, off, '*', ELEMENTS);
      BulksTorn(d, off + |head|, fields, limits);
    }
  }

  /** An entry parses with whatever checksum stands behind it. */
  lemma EntryWithAt(d: string, off: nat, e: Entry, stored: word32)
    requires WellFormed(e) && At(d, off, EntryWith(e, stored))
    ensures ParseEntry(d, off) == Some((e, stored, off + |EntryWith(e, stored)|))
  {
    hide ParseLength, ParseBulks, EntryWith, LengthLine, Bulks, AllFields, DecodeEntry;
    EntryAsFields(e, stored);
    EntryFieldsFit(e, stored);
    RecordAt(d, off, AllFields(e, stored), ENTRY_LIMITS);
    DecodeOwnFields(e, stored);
  }

  /** Parsing what was written returns the entry, its checksum and the offset after it. */
  lemma EntryAt(d: string, off: nat, e: Entry, crc: word32)
    requires WellFormed(e) && At(d, off, EntryText(e, crc))
    ensures ParseEntry(d, off) == Some((e, NextCrc(crc, e), off + |EntryText(e, crc)|))
  {
    hide ParseEntry, EntryWith, NextCrc;
    EntryWithAt(d, off, e, NextCrc(crc, e));
  }

  /** No proper prefix of an entry parses. */
  lemma EntryTorn(d: string, off: nat, e: Entry, crc: word32)
    requires WellFormed(e) && TornAt(d, off, EntryText(e, crc))
    ensures ParseEntry(d, off) == None
  {
    hide ParseLength, ParseBulks, EntryWith, LengthLine, Bulks, AllFields, DecodeEntry, NextCrc;
    var stored := NextCrc(crc, e);
    EntryAsFields(e, stored);
    EntryFieldsFit(e, stored);
    RecordTorn(d, off, AllFields(e, stored), ENTRY_LIMITS);
  }

  lemma HeaderWithAt(d: string, h: Header, stored: word32)
    requires HeaderOk(h) && At(d, 0, HeaderWith(h, stored))
    ensures ParseHeader(d, 0) == Some((h, stored, |HeaderWith(h, stored)|))
  {
    hide ParseLength, ParseBulks, HeaderWith, LengthLine, Bulks, AllHeaderFields, DecodeHeader;
    HeaderAsFields(h, stored);
    HeaderFieldsFit(h, stored);
    RecordAt(d, 0, AllHeaderFields(h, stored), HEADER_LIMITS);
    DecodeOwnHeader(h, stored);
  }

  lemma HeaderAt(d: string, h: Header)
    requires HeaderOk(h) && At(d, 0, HeaderText(h))
    ensures ParseHeader(d, 0) == Some((h, HeaderCrc(h), |HeaderText(h)|))
  {
    hide ParseHeader, HeaderWith, HeaderCrc;
    HeaderWithAt(d, h, HeaderCrc(h));
  }

  /** A header cut short never parses. */
  lemma HeaderTorn(d: string, h: Header)
    requires HeaderOk(h) && TornAt(d, 0, HeaderText(h))
    ensures ParseHeader(d, 0) == None
  {
    hide ParseLength, ParseBulks, HeaderWith, LengthLine, Bulks, AllHeaderFields, DecodeHeader, HeaderCrc;
    HeaderAsFields(h, HeaderCrc(h));
    HeaderFieldsFit(h, HeaderCrc(h));
    RecordTorn(d, 0, AllHeaderFields(h, HeaderCrc(h)), HEADER_LIMITS);
  }
}
