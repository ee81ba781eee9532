/** What the chained checksum of a log page detects: the entries in front of a damaged one load, nothing after them
    does, and a damaged header opens no page. */
module PageDetection {
  import opened Wrappers
  import opened Decimal
  import opened MultiBulk
  import opened Crc32c
  import opened CrcDetection
  import opened PageCodec
  import opened PageRecovery

  // ----- the checksum of text -----

  /** The two texts are as long as each other and differ only within 32 consecutive bits. */
  ghost predicate BurstText(a: string, b: string, at: nat) {
    Burst(Octets(a), Octets(b), at)
  }

  /** Such a change never leaves the checksum as it was, whatever came before. */
  lemma BurstSeen(crc: word32, a: string, b: string, at: nat)
    requires BurstText(a, b, at)
    ensures Crc(crc, a) != Crc(crc, b)
  {
    hide Checksum, Burst, Octets;
    BurstDetected(crc, Octets(a), Octets(b), at);
  }

  /** A change of up to four neighbouring bytes is such a change. */
  lemma FewBytes(front: string, a: string, b: string, back: string)
    requires |a| == |b| <= 4 && Octets(a) != Octets(b)
    ensures BurstText(front + a + back, front + b + back, 8 * |front|)
  {
    hide Burst;
    OctetsConcat(front + a, back);
    OctetsConcat(front, a);
    OctetsConcat(front + b, back);
    OctetsConcat(front, b);
    BytesAreBurst(Octets(front), Octets(a), Octets(b), Octets(back));
  }

  ghost predicate OtherByte(x: char, y: char) {
    x as int % 256 != y as int % 256
  }

  lemma OneByteSeen(crc: word32, front: string, x: char, y: char, back: string)
    requires OtherByte(x, y)
    ensures Crc(crc, front + [x] + back) != Crc(crc, front + [y] + back)
  {
    hide Burst, Crc;
    assert Octets([x])[0] == x as int % 256 && Octets([y])[0] == y as int % 256;
    FewBytes(front, [x], [y], back);
    BurstSeen(crc, front + [x] + back, front + [y] + back, 8 * |front|);
  }

  /** Texts that end alike have the same checksum exactly when their beginnings have. */
  lemma SameEnd(crc: word32, a: string, b: string, back: string)
    ensures Crc(crc, a + back) == Crc(crc, b + back) <==> Crc(crc, a) == Crc(crc, b)
  {
    hide Crc;
    CrcConcat(crc, a, back);
    CrcConcat(crc, b, back);
    CrcInjective(Crc(crc, a), Crc(crc, b), back);
  }

  lemma CrcInjective(a: word32, b: word32, s: string)
    ensures Crc(a, s) == Crc(b, s) <==> a == b
  {
    hide Checksum;
    if a != b { ChecksumInjective(a, b, Octets(s)); }
  }

  // ----- where loading stops -----

  /** What loading the page of these entries, and no more, returns. */
  function Kept(h: Header, es: seq<Entry>): Loaded {
    Loaded(es, Offsets(es, HeaderCrc(h), |HeaderText(h)|), ChainCrc(es, HeaderCrc(h)), |PageText(h, es)|)
  }

  /** The running checksum behind the entries of a page. */
  function CrcBehind(h: Header, es: seq<Entry>): word32 {
    ChainCrc(es, HeaderCrc(h))
  }

  /** What opening the file and loading its entries returns, when its header is that of `h`. */
  function LoadPage(d: string, h: Header): (r: Loaded)
    requires |HeaderText(h)| <= |d|
  {
    LoadFrom(d, |HeaderText(h)|, HeaderCrc(h))
  }

  /** The code's own test of one entry: it parses, and its checksum continues the chain. */
  ghost predicate Accepted(d: string, off: nat, crc: word32) {
    var r := ParseEntry(d, off);
    r.Some? && NextCrc(crc, r.value.0) == r.value.1
  }

  /** What was loaded first, and what is loaded behind it. */
  function Joined(es: seq<Entry>, offsets: seq<nat>, r: Loaded): Loaded {
    Loaded(es + r.entries, offsets + r.offsets, r.crc, r.end)
  }

  lemma LoadOne(d: string, off: nat, e: Entry, crc: word32)
    requires WellFormed(e) && At(d, off, EntryText(e, crc))
    ensures LoadFrom(d, off, crc) ==
            Joined([e], [off], LoadFrom(d, off + |EntryText(e, crc)|, NextCrc(crc, e)))
  {
    hide ParseEntry, EntryText, NextCrc;
    EntryAt(d, off, e, crc);
  }

  lemma AtBoth(d: string, off: nat, a: string, b: string)
    requires At(d, off, a + b)
    ensures At(d, off, a) && At(d, off + |a|, b)
  {
    assert (a + b)[0..|a|] == a && (a + b)[|a|..|a + b|] == b;
    SliceOfSlice(d, off, |a + b|, 0, |a|);
    SliceOfSlice(d, off, |a + b|, |a|, |a + b|);
  }

  lemma JoinedTwice(a: seq<Entry>, m: seq<nat>, b: seq<Entry>, n: seq<nat>, r: Loaded)
    ensures Joined(a, m, Joined(b, n, r)) == Joined(a + b, m + n, r)
  {
    assert a + (b + r.entries) == a + b + r.entries && m + (n + r.offsets) == m + n + r.offsets;
  }

  lemma {:induction false} LoadPast(d: string, off: nat, es: seq<Entry>, crc: word32)
    requires AllWellFormed(es) && At(d, off, Chain(es, crc))
    ensures LoadFrom(d, off, crc) ==
            Joined(es, Offsets(es, crc, off), LoadFrom(d, off + |Chain(es, crc)|, ChainCrc(es, crc)))
    decreases |es|
  {
    hide LoadFrom, EntryText, NextCrc, WellFormed, Joined;
    if es == [] {
      LoadNone(LoadFrom(d, off, crc));
    } else {
      var e, rest := es[0], es[1..];
      var text, next := EntryText(e, crc), NextCrc(crc, e);
      AtBoth(d, off, text, Chain(rest, next));
      LoadOne(d, off, e, crc);
      LoadPast(d, off + |text|, rest, next);
      var r := LoadFrom(d, off + |Chain(es, crc)|, ChainCrc(es, crc));
      JoinedTwice([e], [off], rest, Offsets(rest, next, off + |text|), r);
      assert [e] + rest == es;
    }
  }

  lemma LoadNone(r: Loaded)
    ensures Joined([], [], r) == r
  {
    assert [] + r.entries == r.entries && [] + r.offsets == r.offsets;
  }

  lemma StopsOrGoesOn(d: string, off: nat, crc: word32)
    requires off <= |d|
    ensures !Accepted(d, off, crc) ==> LoadFrom(d, off, crc) == Loaded([], [], crc, off)
    ensures Accepted(d, off, crc) ==> LoadFrom(d, off, crc).entries != []
  {
    hide ParseEntry, NextCrc;
  }

  /** A file that starts as the page of `es` and goes on in any way loads exactly `es` if and only if what
      follows fails the test. */
  lemma StopsExactly(h: Header, es: seq<Entry>, d: string)
    requires HeaderOk(h) && AllWellFormed(es) && PageText(h, es) <= d
    ensures OpenPage(d) == Some((h, |HeaderText(h)|))
    ensures LoadPage(d, h) == Kept(h, es) <==> !Accepted(d, |PageText(h, es)|, CrcBehind(h, es))
    ensures es <= LoadPage(d, h).entries
  {
    hide Chain, ChainCrc, HeaderText, HeaderCrc, Offsets, LoadFrom, ParseHeader, ParseEntry, NextCrc;
    var head, chain := HeaderText(h), Chain(es, HeaderCrc(h));
    assert d[0..|head|] == head && d[|head|..|head| + |chain|] == chain;
    HeaderAt(d, h);
    LoadPast(d, |head|, es, HeaderCrc(h));
    StopsOrGoesOn(d, |PageText(h, es)|, CrcBehind(h, es));
    var r := LoadFrom(d, |PageText(h, es)|, CrcBehind(h, es));
    assert r.entries != [] ==> |es + r.entries| != |es|;
    assert es + [] == es && Offsets(es, HeaderCrc(h), |head|) + [] == Offsets(es, HeaderCrc(h), |head|);
  }

  // ----- another entry in the place of one -----

  /** Behind intact entries stands an entry with a checksum that is not the one its own text continues to. */
  lemma WrongChecksum(h: Header, front: seq<Entry>, f: Entry, stored: word32, rest: string)
    requires HeaderOk(h) && AllWellFormed(front) && WellFormed(f) && NextCrc(CrcBehind(h, front), f) != stored
    ensures LoadPage(PageText(h, front) + EntryWith(f, stored) + rest, h) == Kept(h, front)
  {
    hide PageText, EntryWith, CrcBehind, ParseEntry, NextCrc, LoadPage, HeaderText, Kept;
    var page, text := PageText(h, front), EntryWith(f, stored);
    var d := page + text + rest;
    assert page <= d && d[|page|..|page| + |text|] == text;
    EntryWithAt(d, |page|, f, stored);
    StopsExactly(h, front, d);
  }

  /** An entry damaged within 32 consecutive bits of its body into the body of any other entry is dropped, with
      everything behind it. */
  lemma BurstInEntry(h: Header, front: seq<Entry>, e: Entry, f: Entry, at: nat, rest: string)
    requires HeaderOk(h) && AllWellFormed(front) && WellFormed(f) && BurstText(EntryBody(e), EntryBody(f), at)
    ensures var stored := NextCrc(CrcBehind(h, front), e);
            LoadPage(PageText(h, front) + EntryWith(f, stored) + rest, h) == Kept(h, front)
  {
    hide EntryBody, BurstText, Crc, CrcBehind, LoadPage, PageText, EntryWith, Kept, HeaderOk, WellFormed, AllWellFormed;
    var crc := CrcBehind(h, front);
    BurstSeen(crc, EntryBody(e), EntryBody(f), at);
    assert NextCrc(crc, e) == Crc(crc, EntryBody(e)) && NextCrc(crc, f) == Crc(crc, EntryBody(f));
    WrongChecksum(h, front, f, NextCrc(crc, e), rest);
  }

  // ----- one byte of a field -----

  /** The text of a record: its length line and its fields. */
  function Record(fields: seq<string>): string {
    LengthLine('*', ELEMENTS) + Bulks(fields)
  }

  function FieldByte(fields: seq<string>, i: nat, j: nat, c: char): seq<string>
    requires i < |fields| && j < |fields[i]|
  {
    fields[i := fields[i][j := c]]
  }

  /** Where byte `j` of field `i` stands in the record. */
  function Place(fields: seq<string>, i: nat, j: nat): nat
    requires i < |fields| && j < |fields[i]|
  {
    |LengthLine('*', ELEMENTS)| + |Bulks(fields[..i])| + |LengthLine('$', |fields[i]|)| + j
  }

  /** A changed byte of a field is that one byte of the record, and the framing stays. */
  lemma FieldByteInRecord(fields: seq<string>, i: nat, j: nat, c: char) returns (a: string, b: string)
    requires i < |fields| && j < |fields[i]|
    ensures Record(fields) == a + [fields[i][j]] + b && |a| == Place(fields, i, j)
    ensures Record(FieldByte(fields, i, j, c)) == a + [c] + b
  {
    hide LengthLine, Bulks;
    var s, t := fields[i], fields[i][j := c];
    var front, back := fields[..i], fields[i + 1..];
    var changed := FieldByte(fields, i, j, c);
    BulksAround(fields, i);
    BulksAround(changed, i);
    assert changed[..i] == front && changed[i + 1..] == back;
    var line := LengthLine('$', |s|);
    a := LengthLine('*', ELEMENTS) + Bulks(front) + line + s[..j];
    b := s[j + 1..] + CRLF + Bulks(back);
    assert s == s[..j] + [s[j]] + s[j + 1..];
    assert t == s[..j] + [c] + s[j + 1..];
  }

  lemma BulksAround(fields: seq<string>, i: nat)
    requires i < |fields|
    ensures Bulks(fields) == Bulks(fields[..i]) + Bulk(fields[i]) + Bulks(fields[i + 1..])
  {
    hide Bulk, Bulks;
    var front, one, back := fields[..i], [fields[i]], fields[i + 1..];
    assert fields == front + one + back;
    BulksConcat(front + one, back);
    BulksConcat(front, one);
    BulksOfOne(fields[i]);
  }

  lemma BulksOfOne(s: string)
    ensures Bulks([s]) == Bulk(s)
  {
    hide Bulk;
    assert [s][1..] == [];
  }

  lemma SameFraming(fields: seq<string>, i: nat, j: nat, c: char, limits: seq<Option<nat>>)
    requires AllFit(fields, limits) && i < |fields| && j < |fields[i]|
    ensures AllFit(FieldByte(fields, i, j, c), limits)
  {
  }

  lemma RecordParses(d: string, off: nat, fields: seq<string>)
    requires AllFit(fields, ENTRY_LIMITS) && At(d, off, Record(fields))
    ensures DecodeEntry(fields).None? ==> ParseEntry(d, off) == None
    ensures DecodeEntry(fields).Some? ==>
            ParseEntry(d, off) ==
            Some((DecodeEntry(fields).value.0, DecodeEntry(fields).value.1, off + |Record(fields)|))
  {
    hide DecodeEntry, LengthLine, Bulks, ParseLength, ParseBulks;
    RecordAt(d, off, fields, ENTRY_LIMITS);
  }

  /** Behind intact entries, a record is dropped unless its fields decode to an entry with the right checksum. */
  lemma RecordDecides(h: Header, front: seq<Entry>, fields: seq<string>, rest: string)
    requires HeaderOk(h) && AllWellFormed(front) && AllFit(fields, ENTRY_LIMITS)
    ensures LoadPage(PageText(h, front) + Record(fields) + rest, h) == Kept(h, front) <==>
            !(DecodeEntry(fields).Some? &&
              NextCrc(CrcBehind(h, front), DecodeEntry(fields).value.0) == DecodeEntry(fields).value.1)
  {
    hide PageText, CrcBehind, NextCrc, LoadPage, HeaderText, Kept, DecodeEntry, Record, ParseEntry, AllFit,
      AllWellFormed, HeaderOk;
    var page, text := PageText(h, front), Record(fields);
    var d := page + text + rest;
    assert page <= d && d[|page|..|page| + |text|] == text;
    RecordParses(d, |page|, fields);
    StopsExactly(h, front, d);
  }

  /** The fields decode to an entry that is not the one they print, and whose own head happens to have the checksum
      of the head that was there. */
  ghost predicate Disguised(crc: word32, e: Entry, fields: seq<string>)
    requires |fields| == 7
  {
    && DecodeEntry(fields).Some?
    && EntryFields(DecodeEntry(fields).value.0) != fields[..5]
    && Crc(crc, EntryHead(DecodeEntry(fields).value.0)) == Crc(crc, EntryHead(e))
  }

  lemma BodyIsRecord(f: Entry, stored: word32)
    ensures EntryBody(f) + Bulk(Dec(stored)) == Record(AllFields(f, stored))
    ensures EntryBody(f) == Record(EntryFields(f) + [f.data])
  {
    hide LengthLine, Dec;
    EntryAsFields(f, stored);
    BulksConcat(EntryFields(f), [f.data]);
    BulksOfOne(f.data);
  }

  /** An entry that prints as another with one byte of a field changed has another checksum. */
  lemma PrintedDiffers(crc: word32, e: Entry, f: Entry, i: nat, j: nat, c: char)
    requires var fields := EntryFields(e) + [e.data];
             i < 6 && j < |fields[i]| && OtherByte(fields[i][j], c) &&
             EntryFields(f) + [f.data] == FieldByte(fields, i, j, c)
    ensures NextCrc(crc, e) != NextCrc(crc, f)
  {
    hide Crc, LengthLine, Bulks, Dec, EntryBody, Place;
    var fields := EntryFields(e) + [e.data];
    var a, b := FieldByteInRecord(fields, i, j, c);
    BodyIsRecord(e, 0);
    BodyIsRecord(f, 0);
    OneByteSeen(crc, a, fields[i][j], c, b);
  }

  /** Entries with the same data have the same checksum exactly when their heads have. */
  lemma HeadsDecide(crc: word32, e: Entry, f: Entry)
    requires e.data == f.data
    ensures NextCrc(crc, e) == NextCrc(crc, f) <==> Crc(crc, EntryHead(e)) == Crc(crc, EntryHead(f))
  {
    hide Crc, EntryHead;
    var back := e.data + CRLF;
    assert EntryBody(e) == EntryHead(e) + back && EntryBody(f) == EntryHead(f) + back;
    SameEnd(crc, EntryHead(e), EntryHead(f), back);
  }

  lemma {:induction false} UpToNulPrefix(s: string)
    ensures UpToNul(s) <= s
  {
    if s != [] && s[0] != '\0' { UpToNulPrefix(s[1..]); }
  }

  lemma TagChanged(tag: string, s: string)
    requires |s| == |tag| < FIELD_SIZE && s != tag
    ensures !(tag <= CString(s))
  {
    UpToNulPrefix(s);
  }

  lemma DecodedField(e: Entry, stored: word32, fields: seq<string>)
    requires |fields| == 7 && fields[5..] == [e.data, Dec(stored)] && DecodeEntry(fields).Some?
    ensures DecodeEntry(fields).value.0.data == e.data && DecodeEntry(fields).value.1 == stored
  {
    hide Dec, ParseRange, ParseUnsigned, CString;
    assert fields[5] == fields[5..][0] && fields[6] == fields[5..][1];
    ParsePrinted(stored, LONG_MIN, LONG_MAX);
  }

  lemma DataByte(e: Entry, stored: word32, j: nat, c: char)
    requires WellFormed(e) && j < |e.data|
    ensures var f := e.(data := e.data[j := c]);
            DecodeEntry(FieldByte(AllFields(e, stored), 5, j, c)) == Some((f, stored)) &&
            EntryFields(f) + [f.data] == FieldByte(EntryFields(e) + [e.data], 5, j, c) &&
            EntryFields(f) == FieldByte(AllFields(e, stored), 5, j, c)[..5]
  {
    hide Dec, DecodeEntry;
    var f := e.(data := e.data[j := c]);
    DecodeOwnFields(f, stored);
    assert AllFields(f, stored) == FieldByte(AllFields(e, stored), 5, j, c);
  }

  /** Whether an entry with one byte of one field changed still passes the test of its checksum. */
  lemma FieldByteTested(crc: word32, e: Entry, i: nat, j: nat, c: char)
    requires var fields := AllFields(e, NextCrc(crc, e));
             WellFormed(e) && i < 6 && j < |fields[i]| && OtherByte(fields[i][j], c)
    ensures var fields := FieldByte(AllFields(e, NextCrc(crc, e)), i, j, c);
            (DecodeEntry(fields).Some? && NextCrc(crc, DecodeEntry(fields).value.0) == DecodeEntry(fields).value.1) <==>
            1 <= i <= 4 && Disguised(crc, e, fields)
  {
    hide Dec, DecodeEntry, NextCrc, Crc, EntryHead, CString, WellFormed;
    var stored := NextCrc(crc, e);
    var fields := FieldByte(AllFields(e, stored), i, j, c);
    if i == 0 {
      TagChanged(ENTRY_TAG, fields[0]);
      NoTag(fields);
    } else if i == 5 {
      DataByte(e, stored, j, c);
      PrintedDiffers(crc, e, e.(data := e.data[j := c]), 5, j, c);
    } else if DecodeEntry(fields).Some? {
      var f := DecodeEntry(fields).value.0;
      DecodedField(e, stored, fields);
      HeadsDecide(crc, e, f);
      if EntryFields(f) == fields[..5] {
        assert EntryFields(f) + [f.data] == FieldByte(EntryFields(e) + [e.data], i, j, c);
        PrintedDiffers(crc, e, f, i, j, c);
      }
    }
  }

  lemma NoTag(fields: seq<string>)
    requires |fields| == 7 && !(ENTRY_TAG <= CString(fields[0]))
    ensures DecodeEntry(fields) == None
  {
    hide ParseRange, ParseUnsigned, CString;
  }

  /** Changing one byte of any field of entry `k`, in any page: exactly the entries before it load, unless a number
      then reads as a value that prints otherwise and the checksums of the two printed heads agree. */
  lemma OneByteOfEntry(h: Header, es: seq<Entry>, k: nat, i: nat, j: nat, c: char)
    requires HeaderOk(h) && AllWellFormed(es) && k < |es| && i < 6
    requires var fields := AllFields(es[k], NextCrc(CrcBehind(h, es[..k]), es[k]));
             j < |fields[i]| && OtherByte(fields[i][j], c)
    ensures var crc := CrcBehind(h, es[..k]);
            var fields := AllFields(es[k], NextCrc(crc, es[k]));
            var p := |PageText(h, es[..k])| + Place(fields, i, j);
            && p < |PageText(h, es)| && |HeaderText(h)| <= p
            && PageText(h, es)[p] == fields[i][j]
            && (LoadPage(PageText(h, es)[p := c], h) == Kept(h, es[..k]) <==>
                !(1 <= i <= 4 && Disguised(crc, es[k], FieldByte(fields, i, j, c))))
  {
    hide PageText, HeaderText, NextCrc, Record, Place, LoadPage, Kept, Disguised, Dec, DecodeEntry, AllFit,
      ENTRY_LIMITS, CrcBehind, Chain, LengthLine;
    var front, e := es[..k], es[k];
    var crc := CrcBehind(h, front);
    var stored := NextCrc(crc, e);
    var fields := AllFields(e, stored);
    var a, b := FieldByteInRecord(fields, i, j, c);
    var page := PageText(h, front);
    var rest := PageAround(h, es, k);
    assert (page + (a + [fields[i][j]] + b) + rest)[|page| + |a| := c] == page + (a + [c] + b) + rest;
    EntryFieldsFit(e, stored);
    SameFraming(fields, i, j, c, ENTRY_LIMITS);
    RecordDecides(h, front, FieldByte(fields, i, j, c), rest);
    FieldByteTested(crc, e, i, j, c);
    PageHasHeader(h, front);
  }

  lemma PageHasHeader(h: Header, es: seq<Entry>)
    ensures |HeaderText(h)| <= |PageText(h, es)|
  {
  }

  lemma PageAround(h: Header, es: seq<Entry>, k: nat) returns (rest: string)
    requires k < |es|
    ensures PageText(h, es) == PageText(h, es[..k]) +
                               Record(AllFields(es[k], NextCrc(CrcBehind(h, es[..k]), es[k]))) + rest
  {
    hide HeaderText, HeaderCrc, Chain, ChainCrc, EntryText, NextCrc, Record, AllFields, Offsets;
    var crc := CrcBehind(h, es[..k]);
    ChainAtIndex(es, HeaderCrc(h), 0, k);
    RecordIsEntry(es[k], crc);
    var shown := Chain(es[..k], HeaderCrc(h)) + EntryText(es[k], crc);
    rest := Chain(es, HeaderCrc(h))[|shown|..];
    assert Chain(es, HeaderCrc(h)) == shown + rest;
  }

  lemma RecordIsEntry(e: Entry, crc: word32)
    ensures EntryText(e, crc) == Record(AllFields(e, NextCrc(crc, e)))
  {
    hide NextCrc, EntryWith, AllFields, LengthLine, Bulks;
    EntryAsFields(e, NextCrc(crc, e));
  }

  /** In particular, changing any byte of any entry's data to any other. */
  lemma OneByteOfData(h: Header, es: seq<Entry>, k: nat, j: nat, c: char)
    requires HeaderOk(h) && AllWellFormed(es) && k < |es| && j < |es[k].data| && OtherByte(es[k].data[j], c)
    ensures var p := |PageText(h, es[..k])| + |EntryHead(es[k])| + j;
            && p < |PageText(h, es)| && |HeaderText(h)| <= p && PageText(h, es)[p] == es[k].data[j]
            && LoadPage(PageText(h, es)[p := c], h) == Kept(h, es[..k])
  {
    hide PageText, HeaderText, NextCrc, LoadPage, Kept, Disguised, Dec, CrcBehind, LengthLine, Bulks, WellFormed;
    var fields := AllFields(es[k], NextCrc(CrcBehind(h, es[..k]), es[k]));
    assert fields[..5] == EntryFields(es[k]);
    assert Place(fields, 5, j) == |EntryHead(es[k])| + j;
    OneByteOfEntry(h, es, k, 5, j, c);
  }

  // ----- a digit for a digit -----

  lemma {:induction false} DigitsOfValue(s: string)
    requires s != [] && AllDigits(s) && (s[0] != '0' || |s| == 1)
    ensures Digits(Value(s, 10)) == s
    ensures s[0] != '0' ==> Value(s, 10) > 0
    decreases |s|
  {
    var front, last := s[..|s| - 1], s[|s| - 1];
    assert s == front + [last];
    var v, d := Value(front, 10), DigitValue(last);
    assert DigitChar(d) == last;
    if front != [] {
      assert front[0] == s[0];
      DigitsOfValue(front);
      assert (v * 10 + d) / 10 == v && (v * 10 + d) % 10 == d;
    }
  }

  /** Another digit in the place of a digit, other than a zero in front, makes a printed number again. */
  lemma DigitForDigit(n: int, j: nat, c: char) returns (m: int)
    requires j < |Dec(n)| && IsDigit(Dec(n)[j]) && IsDigit(c)
    requires c != '0' || (j > 0 && IsDigit(Dec(n)[j - 1]))
    ensures Dec(m) == Dec(n)[j := c] && (n >= 0 ==> m >= 0)
  {
    hide Digits, Value;
    if n < 0 {
      DigitsShape(-n);
      assert Dec(n)[0] == '-';
      var s := Digits(-n)[j - 1 := c];
      DigitsOfValue(s);
      var v: int := Value(s, 10);
      m := -v;
      assert Dec(n)[j := c] == "-" + s;
    } else {
      DigitsShape(n);
      var s := Digits(n)[j := c];
      DigitsOfValue(s);
      m := Value(s, 10);
    }
  }

  lemma PrintedScans(m: int)
    requires |Dec(m)| < FIELD_SIZE
    ensures CString(Dec(m)) == Dec(m) && ScanNumber(Dec(m), 0) == Number(m, |Dec(m)|)
  {
    hide Digits, ScanNumber;
    DigitsShape(if m < 0 then -m else m);
    CStringOfText(Dec(m));
    ScanPrinted(m, [], 0);
    assert Dec(m) + [] == Dec(m);
  }

  lemma OthersDecode(e: Entry, stored: word32, i: nat, t: string)
    requires WellFormed(e) && 1 <= i <= 4
    requires DecodeEntry(AllFields(e, stored)[i := t]).Some?
    ensures var f := DecodeEntry(AllFields(e, stored)[i := t]).value.0;
            && (i != 1 ==> f.term == e.term) && (i != 2 ==> f.id == e.id)
            && (i != 3 ==> f.session == e.session) && (i != 4 ==> f.kind == e.kind)
            && (i == 1 ==> ParseRange(CString(t), LONG_MIN, LONG_MAX) == Some(f.term))
            && (i == 2 ==> ParseRange(CString(t), INT_MIN, INT_MAX) == Some(f.id))
            && (i == 3 ==> ParseUnsigned(CString(t)) == Some(f.session))
            && (i == 4 ==> ParseRange(CString(t), INT_MIN, INT_MAX) == Some(f.kind))
  {
    hide Dec, ParseRange, ParseUnsigned, CString;
    ParsePrinted(e.term, LONG_MIN, LONG_MAX);
    ParsePrinted(e.id, INT_MIN, INT_MAX);
    ParsePrinted(e.session, 0, ULONG_MAX);
    ParsePrinted(e.kind, INT_MIN, INT_MAX);
  }

  lemma PrintedNotDisguised(crc: word32, e: Entry, stored: word32, i: nat, m: int)
    requires WellFormed(e) && 1 <= i <= 4 && (i == 3 ==> m >= 0) && |Dec(m)| < FIELD_SIZE
    ensures !Disguised(crc, e, AllFields(e, stored)[i := Dec(m)])
  {
    hide Dec, DecodeEntry, CString, ScanNumber, Crc, WellFormed;
    var fields := AllFields(e, stored)[i := Dec(m)];
    if DecodeEntry(fields).Some? {
      OthersDecode(e, stored, i, Dec(m));
      PrintedScans(m);
      assert EntryFields(DecodeEntry(fields).value.0) == fields[..5];
    }
  }

  /** Changing any digit of a term, id, session or type to any other digit, short of a zero in front: exactly the
      entries before it load. */
  lemma OneDigitOfEntry(h: Header, es: seq<Entry>, k: nat, i: nat, j: nat, c: char)
    requires HeaderOk(h) && AllWellFormed(es) && k < |es| && 1 <= i <= 4
    requires var s := EntryFields(es[k])[i];
             && j < |s| && c != s[j] && IsDigit(s[j]) && IsDigit(c)
             && (c != '0' || (j > 0 && IsDigit(s[j - 1])))
    ensures var fields := AllFields(es[k], NextCrc(CrcBehind(h, es[..k]), es[k]));
            var p := |PageText(h, es[..k])| + Place(fields, i, j);
            && p < |PageText(h, es)| && |HeaderText(h)| <= p && PageText(h, es)[p] == EntryFields(es[k])[i][j]
            && LoadPage(PageText(h, es)[p := c], h) == Kept(h, es[..k])
  {
    hide PageText, HeaderText, NextCrc, LoadPage, Kept, Disguised, Dec, CrcBehind, Place, HeaderOk;
    var e := es[k];
    var crc := CrcBehind(h, es[..k]);
    var stored := NextCrc(crc, e);
    var n := [0, e.term, e.id, e.session, e.kind][i];
    assert EntryFields(e)[i] == Dec(n);
    var m := DigitForDigit(n, j, c);
    DecIsText(n);
    PrintedNotDisguised(crc, e, stored, i, m);
    OneByteOfEntry(h, es, k, i, j, c);
  }

  // ----- the stored checksum -----

  /** Any other checksum behind an entry. */
  lemma OtherStored(h: Header, front: seq<Entry>, e: Entry, stored: word32, rest: string)
    requires HeaderOk(h) && AllWellFormed(front) && WellFormed(e)
    ensures LoadPage(PageText(h, front) + EntryWith(e, stored) + rest, h) == Kept(h, front) <==>
            stored != NextCrc(CrcBehind(h, front), e)
  {
    hide PageText, EntryWith, CrcBehind, ParseEntry, NextCrc, LoadPage, HeaderText, Kept, HeaderOk;
    var page, text := PageText(h, front), EntryWith(e, stored);
    var d := page + text + rest;
    assert page <= d && d[|page|..|page| + |text|] == text;
    EntryWithAt(d, |page|, e, stored);
    StopsExactly(h, front, d);
  }

  // ----- headers -----

  lemma HeaderRecordDecides(fields: seq<string>, rest: string)
    requires AllFit(fields, HEADER_LIMITS)
    ensures OpenPage(Record(fields) + rest) == None <==>
            !(DecodeHeader(fields).Some? && HeaderCrc(DecodeHeader(fields).value.0) == DecodeHeader(fields).value.1)
  {
    hide DecodeHeader, LengthLine, Bulks, ParseLength, ParseBulks, HeaderCrc;
    var d := Record(fields) + rest;
    assert d[0..|Record(fields)|] == Record(fields);
    RecordAt(d, 0, fields, HEADER_LIMITS);
  }

  /** The fields decode to a header that is not the one they print, with the checksum of the one that was there. */
  ghost predicate DisguisedHeader(h: Header, fields: seq<string>)
    requires |fields| == 7
  {
    && DecodeHeader(fields).Some?
    && HeaderFields(DecodeHeader(fields).value.0) != fields[..6]
    && HeaderCrc(DecodeHeader(fields).value.0) == HeaderCrc(h)
  }

  lemma PrintedHeaderDiffers(h: Header, g: Header, i: nat, j: nat, c: char)
    requires i < 6 && j < |HeaderFields(h)[i]| && OtherByte(HeaderFields(h)[i][j], c)
    requires HeaderFields(g) == FieldByte(HeaderFields(h), i, j, c)
    ensures HeaderCrc(h) != HeaderCrc(g)
  {
    hide Crc, LengthLine, Bulks, Dec, Place;
    var a, b := FieldByteInRecord(HeaderFields(h), i, j, c);
    OneByteSeen(0, a, HeaderFields(h)[i][j], c, b);
  }

  lemma PrintedVersion()
    ensures Dec(VERSION) == "1"
  {
  }

  lemma ValueOfOne(c: char, base: nat)
    ensures Value([c], base) == DigitValue(c)
  {
    assert [c][..0] == [];
    assert Value([], base) == 0;
  }

  lemma MagnitudeOfOne(s: string)
    requires |s| <= 1
    ensures ScanMagnitude(s, 0) == Number(1, 1) ==> s == "1"
  {
    hide Value;
    if s != [] {
      assert s == [s[0]] && s[0..] == s && s[0..1] == s;
      ValueOfOne(s[0], 8);
      ValueOfOne(s[0], 10);
    }
  }

  lemma VersionChanged(c: char)
    requires c != '1'
    ensures ParseRange(CString([c]), LONG_MIN, LONG_MAX) != Some(VERSION)
  {
    hide ScanMagnitude, UpToNul;
    var s := CString([c]);
    UpToNulPrefix([c]);
    assert |s| <= 1;
    MagnitudeOfOne(s);
    MagnitudeOfOne([]);
    assert s[0..] == s;
  }

  lemma HeaderDecoded(h: Header, stored: word32, i: nat, j: nat, c: char)
    requires HeaderOk(h) && i < 6 && j < |HeaderFields(h)[i]| && OtherByte(HeaderFields(h)[i][j], c)
    requires DecodeHeader(FieldByte(AllHeaderFields(h, stored), i, j, c)).Some?
    ensures i >= 2 && DecodeHeader(FieldByte(AllHeaderFields(h, stored), i, j, c)).value.1 == stored
  {
    hide Dec, ParseRange, CString;
    ParsePrinted(stored, LONG_MIN, LONG_MAX);
    var fields := FieldByte(AllHeaderFields(h, stored), i, j, c);
    if i == 0 {
      TagChanged(HEADER_TAG, fields[0]);
    } else if i == 1 {
      PrintedVersion();
      assert fields[1] == [c];
      VersionChanged(c);
    }
  }

  lemma DbidByte(h: Header, stored: word32, j: nat, c: char)
    requires HeaderOk(h) && j < DBID_LEN
    requires DecodeHeader(FieldByte(AllHeaderFields(h, stored), 2, j, c)).Some?
    ensures var g := h.(dbid := h.dbid[j := c]);
            DecodeHeader(FieldByte(AllHeaderFields(h, stored), 2, j, c)) == Some((g, stored)) &&
            HeaderFields(g) == FieldByte(HeaderFields(h), 2, j, c)
  {
    hide Dec, ParseRange, UpToNul;
    var fields := FieldByte(AllHeaderFields(h, stored), 2, j, c);
    var g := h.(dbid := h.dbid[j := c]);
    UpToNulPrefix(fields[2]);
    assert CString(fields[2]) == g.dbid;
    UpToNulHasNone(g.dbid);
    hide CString;
    DecodeOwnHeader(g, stored);
    assert AllHeaderFields(g, stored) == fields;
  }

  lemma {:induction false} UpToNulHasNone(s: string)
    ensures '\0' !in UpToNul(s)
  {
    if s != [] && s[0] != '\0' { UpToNulHasNone(s[1..]); }
  }

  lemma HeaderByteTested(h: Header, i: nat, j: nat, c: char)
    requires HeaderOk(h) && i < 6 && j < |HeaderFields(h)[i]| && OtherByte(HeaderFields(h)[i][j], c)
    ensures var fields := FieldByte(AllHeaderFields(h, HeaderCrc(h)), i, j, c);
            (DecodeHeader(fields).Some? && HeaderCrc(DecodeHeader(fields).value.0) == DecodeHeader(fields).value.1) <==>
            3 <= i && DisguisedHeader(h, fields)
  {
    hide Dec, DecodeHeader, HeaderCrc, HeaderOk;
    var stored := HeaderCrc(h);
    var fields := FieldByte(AllHeaderFields(h, stored), i, j, c);
    if DecodeHeader(fields).Some? {
      var g := DecodeHeader(fields).value.0;
      HeaderDecoded(h, stored, i, j, c);
      if i == 2 {
        HeaderOkDbid(h);
        DbidByte(h, stored, j, c);
      }
      if HeaderFields(g) == fields[..6] {
        assert HeaderFields(g) == FieldByte(HeaderFields(h), i, j, c);
        PrintedHeaderDiffers(h, g, i, j, c);
      }
    }
  }

  lemma HeaderOkDbid(h: Header)
    requires HeaderOk(h)
    ensures |h.dbid| == DBID_LEN
  {
  }

  /** Changing one byte of any field of the header, in any page: the page does not open, unless a number then reads
      as a value that prints otherwise and the two printed headers have the same checksum. */
  lemma OneByteOfHeader(h: Header, es: seq<Entry>, i: nat, j: nat, c: char)
    requires HeaderOk(h) && i < 6 && j < |HeaderFields(h)[i]| && OtherByte(HeaderFields(h)[i][j], c)
    ensures var fields := AllHeaderFields(h, HeaderCrc(h));
            var p := Place(fields, i, j);
            && p < |HeaderText(h)| <= |PageText(h, es)| && PageText(h, es)[p] == HeaderFields(h)[i][j]
            && (OpenPage(PageText(h, es)[p := c]) == None <==>
                !(3 <= i && DisguisedHeader(h, FieldByte(fields, i, j, c))))
  {
    hide HeaderCrc, Record, Place, OpenPage, DisguisedHeader, Dec, DecodeHeader, AllFit, HEADER_LIMITS, Chain,
      LengthLine, HeaderOk, Bulks;
    var stored := HeaderCrc(h);
    var fields := AllHeaderFields(h, stored);
    var a, b := FieldByteInRecord(fields, i, j, c);
    HeaderIsRecord(h, stored);
    var rest := Chain(es, stored);
    assert (a + [fields[i][j]] + b + rest)[|a| := c] == a + [c] + b + rest;
    HeaderFieldsFit(h, stored);
    SameFraming(fields, i, j, c, HEADER_LIMITS);
    HeaderRecordDecides(FieldByte(fields, i, j, c), rest);
    HeaderByteTested(h, i, j, c);
  }

  lemma HeaderIsRecord(h: Header, stored: word32)
    ensures HeaderWith(h, stored) == Record(AllHeaderFields(h, stored))
  {
    hide LengthLine, Bulks, Dec, HeaderWith;
    HeaderAsFields(h, stored);
  }

  /** Any other checksum behind a header, whatever follows. */
  lemma OtherStoredHeader(h: Header, stored: word32, rest: string)
    requires HeaderOk(h)
    ensures OpenPage(HeaderWith(h, stored) + rest) == None <==> stored != HeaderCrc(h)
  {
    hide HeaderWith, HeaderCrc, ParseHeader;
    var d := HeaderWith(h, stored) + rest;
    assert d[0..|HeaderWith(h, stored)|] == HeaderWith(h, stored);
    HeaderWithAt(d, h, stored);
  }

  // ----- counts and lengths that cannot be -----

  /** A record that announces another number of elements is neither an entry nor a header. */
  lemma OtherCount(d: string, off: nat, n: int)
    requires INT_MIN <= n <= INT_MAX && n != 7 && At(d, off, LengthLine('*', n))
    ensures ParseEntry(d, off) == None && ParseHeader(d, off) == None
  {
    hide ParseLength, ParseBulks, DecodeEntry, DecodeHeader, LengthLine;
    LengthAt(d, off, '*', n);
  }

  /** A field longer than its buffer is not read. */
  lemma FieldTooLong(d: string, off: nat, s: string, limit: nat)
    requires limit < |s| <= INT_MAX && At(d, off, Bulk(s))
    ensures ParseBulk(d, off, Some(limit)) == None
  {
    hide ParseLength, LengthLine;
    var head := LengthLine('$', |s|);
    assert Bulk(s)[0..|head|] == head;
    SliceOfSlice(d, off, |Bulk(s)|, 0, |head|);
    LengthAt(d, off, '$', |s|);
  }

  // ----- a byte of a length line is another matter -----

  const SHORT: nat := 10
  const LONG: nat := 30

  /** An entry of ten bytes, and one of thirty whose data holds those ten and the checksum of the former. */
  function Inner(): Entry {
    Entry(1, 1, 1, 0, "0123456789")
  }

  function Tail(crc: word32): string {
    CRLF + Bulk(Dec(NextCrc(crc, Inner())))
  }

  function Host(crc: word32): Entry {
    var data := Inner().data + Tail(crc);
    Entry(1, 1, 1, 0, data + seq(if |data| < LONG then LONG - |data| else 0, i => ' '))
  }

  lemma HostLength(crc: word32)
    ensures |Host(crc).data| == LONG && WellFormed(Host(crc)) && WellFormed(Inner())
    ensures Inner().data + Tail(crc) <= Host(crc).data
  {
    hide Dec, NextCrc;
    var stored := NextCrc(crc, Inner());
    WordPrints(stored);
    LineOfLength('$', |Dec(stored)|);
    ShortPrints(|Dec(stored)|);
  }

  lemma WordPrints(w: word32)
    ensures |Dec(w)| <= 10
  {
    assert Pow10(5) == 100000;
    assert Pow10(10) == 10_000_000_000;
    DigitsLength(w, 10);
  }

  lemma ShortPrints(n: nat)
    requires n <= 10
    ensures |Dec(n)| <= 2
  {
    assert Pow10(2) == 100;
    DigitsLength(n, 2);
  }

  lemma TenAndThirty()
    ensures LengthLine('$', LONG) == "$" + "3" + "0\r\n" && LengthLine('$', SHORT) == "$" + "1" + "0\r\n"
  {
    assert Digits(3) == "3" && Digits(1) == "1";
    assert Digits(30) == "30" && Digits(10) == "10";
  }

  lemma HostTexts(crc: word32) returns (head: string, back: string)
    ensures EntryText(Host(crc), crc) == head + "3" + back && EntryText(Inner(), crc) <= head + "1" + back
    ensures |head| == |EntryHead(Host(crc))| - 4
  {
    hide Dec, NextCrc, LengthLine, Bulks;
    TenAndThirty();
    HostLength(crc);
    var e, f := Host(crc), Inner();
    var a := LengthLine('*', ELEMENTS) + Bulks(EntryFields(f));
    assert EntryFields(e) == EntryFields(f);
    var text := f.data + Tail(crc);
    var pad := e.data[|text|..];
    assert e.data == text + pad;
    var more := pad + CRLF + Bulk(Dec(NextCrc(crc, e)));
    head, back := a + "$", "0\r\n" + text + more;
    assert EntryText(e, crc) == head + "3" + back;
    assert EntryText(f, crc) + more == head + "1" + back;
  }

  lemma PageWithOne(h: Header, front: seq<Entry>, e: Entry)
    ensures PageText(h, front + [e]) == PageText(h, front) + EntryText(e, CrcBehind(h, front))
  {
    hide HeaderText, HeaderCrc, Chain, ChainCrc, EntryText, NextCrc, Offsets;
    ChainAppend(front, e, HeaderCrc(h), 0);
  }

  /** After any entries of any page: one byte of the length line of such an entry's data, changed from 3 to 1, makes
      the page load the shorter entry as a good one. */
  lemma LengthByteUnseen(h: Header, front: seq<Entry>)
    requires HeaderOk(h) && AllWellFormed(front)
    ensures var e := Host(CrcBehind(h, front));
            var d := PageText(h, front + [e]);
            var p := |PageText(h, front)| + |EntryHead(e)| - 4;
            && WellFormed(e) && |HeaderText(h)| <= p < |d| && d[p] == '3'
            && front + [Inner()] <= LoadPage(d[p := '1'], h).entries && Inner() != e
  {
    hide PageText, HeaderText, LoadPage, CrcBehind, EntryHead, EntryText, HeaderOk, Tail, WellFormed, OpenPage, Kept,
      Accepted;
    var crc := CrcBehind(h, front);
    var e, f := Host(crc), Inner();
    HostLength(crc);
    hide Host;
    var page := PageText(h, front);
    var head, back := HostTexts(crc);
    PageWithOne(h, front, e);
    PageWithOne(h, front, f);
    PageHasHeader(h, front);
    assert (page + (head + "3" + back))[|page| + |head| := '1'] == page + (head + "1" + back);
    StopsExactly(h, front + [f], page + (head + "1" + back));
  }
}
