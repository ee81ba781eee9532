# Verification of RedisRaft's storage, sharding and wire formats

This project models the parts of RedisRaft that carry its guarantees and proves properties of them in Dafny:

- the log on disk: the CRC-32C in its table-driven and interleaved forms, the buffered file, the entry
  format, log pages, the two-page log, the entry cache, the interface given to the Raft library, and
  recovery after a crash at any byte (`Gf2`, `Crc32c*`, `FileIO`, `MultiBulk`, `BulkReader`, `PageCodec`,
  `PageRecovery`, `IndexWords`, `LogPages`, `Logs`, `EntryCaches`, `LogStores`, `LogRuns`, `CrashRecovery`);
  that the checksum is the remainder by the polynomial of the standard, and what damage it detects
  (`CrcPolynomial`, `CrcDetection`, `PageDetection`);
- log compaction against snapshots, with a crash between any two steps (`Compaction`,
  `CompactionProgress`), the fsync worker (`Fsync`) and the term and vote file (`Metadata`);
- slot ownership: the parser's check, adding, replacing and loading shard groups (`SlotMaps`, `ShardOrders`,
  `Sharding`, `ShardWitnesses`), the migration of keys between clusters (`KeySpace`, `Migration`,
  `HandOver`, `MigrationWitness`) and where commands are carried out meanwhile (`Routing`);
- the formats: the resumable RESP reader and command formatter of hiredis (`StrictInteger`,
  `RespProtocol`, `RespReader`, `RespCommand`, `RespPrinter`), entry payloads (`Serialization`, `Payloads`),
  shard groups as text (`ShardText`), that none of these reads back when cut (`TornTexts`), Base64 (`Base64`),
  and what the files look like (`FileFormats`).

Code that updates state is modelled by classes and loops, proved against specification functions; protocols
are step relations with invariants over all runs. Bytes of text are `char`; bytes under a checksum are
numbers below 256. The kernel may write any part of what it is given, or fail, at every call; a ghost count of
its failures tells when operations may fail.
`dafny verify dfyconfig.toml` checks the project.

The deepest results: `HardwareCrc.Compute` and `SoftwareCrc.Compute` equal the bit-at-a-time checksum, which
`CrcPolynomial.FeedIsRemainder` proves to be the remainder over GF(2) by the generator of CRC-32C;
`PageDetection.OneByteOfEntry` and `OneByteOfHeader` say exactly which one-byte changes of a page are rejected;
`LogRuns.Run` refines the log to an indexed sequence over every run, and `CrashRecovery.RunCrashReopen` adds
a crash and a start, with exactly what survives; `Compaction.NoIndexMismatch`, `NoTermMismatch` and `NothingLost` hold of every run;
`Migration.OneExecutor`, `LockedKeyIsSafe` and `MigrationIsTransparent` hold of every run, and
`Routing.ClientReaches` says exactly when a client that follows redirections is served;
`SlotMaps.AddedIff`, `ShardOrders.LoadsBackIff` and `Sharding.ReplaceMatchesParser` say exactly when
configurations can be built, loaded back and applied;
`RespReader.ReadChunks` makes the resumable reader independent of chunking, and `RespPrinter.ReadsBack` is the
round trip of every reply.

## Model

| member | source | states |
|---|---|---|
| Crc32c.ZerosLinear | deps/common/sc_crc32.c:63-90 | Appending zero bits to the register is linear over GF(2), which is what lets the code represent it by a 32-row matrix. |
| Crc32c.ZerosAdd | deps/common/sc_crc32.c:92-133 | Appending m zeros and then n zeros is appending m+n: squaring an operator doubles its zeros. |
| Crc32c.FeedConcat | deps/common/sc_crc32.c:174-271 | The bit-at-a-time register after a concatenation is the register after the second part started from the first. |
| Crc32c.FeedLinear | deps/common/sc_crc32.c:194-220 | A change of the starting register shows up as that change pushed through as many zero bytes as the data has; the reason three streams can be checksummed apart. |
| Crc32c.ChecksumConcat | src/log.c:170-174 | crc(crc(c, a), b) = crc(c, a + b) for all c, a, b: the chained calls over an entry's pieces give the checksum of the entry. |
| CrcPolynomial.PolyIsGenerator | deps/common/sc_crc32.c:36-39 | The constant in the code is the generator of section 12.1 of RFC 3720, given by its exponents 32, 28, 27, 26, 25, 23, 22, 20, 19, 18, 14, 13, 11, 10, 9, 8, 6 and 0, without its leading term and with the bits in reverse. |
| CrcPolynomial.RemainderUnique | deps/common/sc_crc32.c:36-39 | Carry-less division by the generator has one remainder. |
| CrcPolynomial.ShiftDivides | deps/common/sc_crc32.c:285-294 | One bit step of the register, read in reverse, multiplies by x and takes out the generator. |
| CrcPolynomial.FeedIsRemainder | deps/common/sc_crc32.c:281-338 | For every register and every message, the register after the message, read in reverse, is the remainder over GF(2) of the message followed by 32 zeros, with the register added to its first bits, by the generator. |
| CrcPolynomial.ChecksumIsRemainder | deps/common/sc_crc32.c:307-338 | The checksum of a message is the complement of the remainder that an all-ones register leaves. |
| CrcPolynomial.OnlyRegister | deps/common/sc_crc32.c:281-338 | No other register is that remainder. |
| Crc32cVectors.ThirtyTwoZeros | deps/common/sc_crc32.c:307-338 | The example of section B.4 of RFC 3720: 32 bytes of zeros have the checksum 0x8a9136aa. |
| CrcDetection.ZerosInjective | deps/common/sc_crc32.c:92-133 | Appending zeros never makes two registers the same. |
| CrcDetection.BurstDetected | src/log.c:376-392 | For every starting value: two messages of equal length that differ only within 32 consecutive bits have different checksums. |
| CrcDetection.BytesAreBurst | src/log.c:376-392 | A change of up to four neighbouring bytes is such a difference. |
| CrcDetection.ChecksumInjective | src/log.c:170-174 | Different checksums stay different whatever the same bytes are appended. |
| Crc32cSoftware.TableStep | deps/common/sc_crc32.c:312-315 | Eight bit steps on a byte equal one look-up of the low byte and a shift. |
| Crc32cSoftware.FillFirstRow | deps/common/sc_crc32.c:283-294 | Row 0 of the table holds, for each byte, the register after eight zero bits. |
| Crc32cSoftware.FillColumn | deps/common/sc_crc32.c:295-301 | Row k holds the register after 8(k+1) zero bits; other columns are untouched. |
| Crc32cSoftware.WordStep | deps/common/sc_crc32.c:316-328 | Eight bytes folded in as one little-endian word, each byte of it pushed through its own number of zeros, equal eight byte steps. |
| Crc32cSoftware.LookupsAreSlices | deps/common/sc_crc32.c:319-326 | The eight nested look-ups of the inner loop are the exclusive-or of the word's eight slices. |
| Crc32cSoftware.SoftwareCrc.constructor | deps/common/sc_crc32.c:281-302 | The whole 8 by 256 table has its meaning after initialization. |
| Crc32cSoftware.SoftwareCrc.ByteStep | deps/common/sc_crc32.c:312-315 | One table step is eight steps of the bit-at-a-time reference. |
| Crc32cSoftware.SoftwareCrc.EightByteStep | deps/common/sc_crc32.c:316-330 | One iteration of the word loop is eight bytes of the reference. |
| Crc32cSoftware.SoftwareCrc.Compute | deps/common/sc_crc32.c:307-338 | For every buffer, alignment and starting value the table-driven checksum is the bit-at-a-time one, which CrcPolynomial.FeedIsRemainder identifies as the remainder by the generator of CRC-32C. |
| Crc32cHardware.MatrixTimes | deps/common/sc_crc32.c:67-81 | The loop over set bits is the matrix-vector product over GF(2). |
| Crc32cHardware.MatrixSquare | deps/common/sc_crc32.c:85-90 | If a matrix appends n zero bits to every register, its square appends 2n. |
| Crc32cHardware.OneBitOperator | deps/common/sc_crc32.c:102-108 | The initial rows are the operator for one zero bit. |
| Crc32cHardware.ZerosOperator | deps/common/sc_crc32.c:92-133 | The result appends len zero bytes when len is a power of two, otherwise as many as the largest power of two below it, and one byte for length zero, as the comment promises. |
| Crc32cHardware.FillZeroTables | deps/common/sc_crc32.c:137-149 | The four tables hold the operator applied to each byte in each of the four places. |
| Crc32cHardware.ShiftByTables | deps/common/sc_crc32.c:152-156 | Four look-ups apply the operator to any register. |
| Crc32cHardware.JoinStreams | deps/common/sc_crc32.c:194-220 | Three adjacent blocks checksummed apart and joined by appending zeros give the checksum of the three together. |
| Crc32cHardware.ThreeBlocks | deps/common/sc_crc32.c:194-249 | The interleaved loop over three blocks equals the reference on their concatenation. |
| Crc32cHardware.HardwareCrc.constructor | deps/common/sc_crc32.c:168-172 | Both pairs of tables, for 2048 and 256 bytes, have their meaning. |
| Crc32cHardware.HardwareCrc.Compute | deps/common/sc_crc32.c:174-271 | For every buffer, alignment and starting value the three-way interleaved checksum is the bit-at-a-time one, and so the same remainder. |
| FileIO.File.Flush | src/file.c:80-112 | Whatever the kernel writes before failing, disk and buffer together still hold the same contents; it succeeds, and then empties the buffer, if and only if no call into the kernel fails. |
| FileIO.File.Write | src/file.c:245-301 | Success appends exactly the data; an error has appended a proper prefix of it and lost nothing before it, and comes if and only if a call into the kernel fails; data that fits the buffer is taken without any. |
| FileIO.File.WriteVectors | src/file.c:260-300 | Through any sequence of partial vectored writes, what is on disk plus what each vector still holds is always the intended text. |
| FileIO.File.Truncate | src/file.c:313-329 | The contents, buffered bytes included, are cut or zero-extended to the length, unless a call into the kernel fails, which leaves them alone. |
| FileIO.File.SetReadOffset | src/file.c:124-143 | After success, buffer and kernel agree on what comes at the offset; it fails if and only if buffered bytes cannot be written out. |
| FileIO.File.Gets | src/file.c:147-186 | The next line of the file, however it lies across buffer refills, and nothing when no newline comes within the limit. |
| FileIO.File.Find | src/file.c:158-165 | The first newline in the buffer. |
| FileIO.File.Read | src/file.c:190-241 | The bytes of the file at the tracked offset, fewer than asked only at its end, and the offset moves by as many. |
| FileIO.File.ReadThrough | src/file.c:215-240 | Filling the caller's buffer and this one by vectored reads gives the same bytes. |
| Decimal.ScanPrinted | src/util.c:271-332 | A printed number reads back and the scan stops right after it, in base 10 and in automatic base. |
| Decimal.ScanHexadecimal | src/util.c:271-288 | With automatic base, 0x and a hexadecimal digit start a hexadecimal number, which goes as far as such digits do. |
| Decimal.ScanOctal | src/util.c:271-288 | Any other leading zero starts an octal number. |
| MultiBulk.BulksAt | src/util.c:334-434 | Written fields read back, with the offset after them. |
| MultiBulk.BulksTorn | src/util.c:334-406 | No proper prefix of a written run of fields reads as that run. |
| MultiBulk.ParsePrinted | src/util.c:352-386 | A number written as a field parses to itself within its type's range. |
| MultiBulk.RangeChecked | src/util.c:308-332 | A printed number parses if and only if it is in the range of its type. |
| BulkReader.ReadLength | src/util.c:334-350 | Reading through the file buffer is parsing the file at the offset, both when it succeeds and when it fails. |
| BulkReader.ReadBulk | src/util.c:388-406 | The same for one field with its size limit. |
| BulkReader.ReadBulks | src/log.c:77-128 | The same for a run of fields. |
| PageCodec.EntryAt | src/log.c:202-260 | A written entry parses, anywhere in a file, to itself, its running checksum and the offset after it. |
| PageCodec.EntryTorn | src/log.c:202-260 | No proper prefix of a written entry parses. |
| PageCodec.HeaderAt | src/log.c:35-128 | A written page header parses to itself and its checksum. |
| PageCodec.HeaderTorn | src/log.c:77-128 | No proper prefix of a header parses. |
| PageCodec.EntryWithAt | src/log.c:202-260 | An entry parses with whatever checksum stands behind it. |
| FileFormats.EntryFormat | src/log.c:130-145 | An entry is written as the count 7 and the fields ENTRY, term, id, session, type and data. |
| FileFormats.HeaderFormat | src/log.c:35-49 | A page header as the count 7 and the fields RAFTLOG, 1, database id, node id, previous term and previous index. |
| FileFormats.FieldFormat | src/util.c:408-434 | A field is its length and its bytes, each with a line end. |
| PageRecovery.LoadCutChain | src/log.c:394-451 | A chain of entries cut at any byte loads exactly the whole entries, with their offsets and the running checksum. |
| PageRecovery.WholeEntriesExact | src/log.c:394-451 | The entries recovered are the longest prefix whose text fits. |
| PageRecovery.CutPageRecovers | src/log.c:340-451 | A page file cut at any byte after its header opens and loads exactly the entries wholly contained in it; the next entry would not have fitted. |
| PageDetection.BurstSeen | src/log.c:376-392 | Texts of equal length that differ only within 32 consecutive bits have different checksums from every start. |
| PageDetection.StopsExactly | src/log.c:394-451 | A file that starts as the page of some entries and goes on in any way loads exactly these if and only if what follows does not parse or fails its checksum. |
| PageDetection.BurstInEntry | src/log.c:418-431 | An entry damaged within 32 consecutive bits of its body into the body of any other entry is dropped, with everything behind it: exactly the entries before it load. |
| PageDetection.OneByteOfEntry | src/log.c:376-431 | For every page and every k, changing one byte of any field of entry k makes loading return exactly the first k entries, if and only if not a number then reads as a value that prints otherwise and the checksums of the two printed heads happen to agree. |
| PageDetection.OneByteOfData | src/log.c:376-431 | Changing any byte of any entry's data to any other makes loading return exactly the entries before it. |
| PageDetection.OneDigitOfEntry | src/log.c:376-431 | So does changing any digit of its term, id, session or type to any other digit, short of a zero in front. |
| PageDetection.OtherStored | src/log.c:387-389 | So does any other checksum behind the entry, and only such a one. |
| PageDetection.OneByteOfHeader | src/log.c:340-364 | For every page, changing one byte of any field of the header keeps the page from opening, if and only if not a number then reads as a value that prints otherwise and the two printed headers have the same checksum; tag, version and database id are always protected. |
| PageDetection.OtherStoredHeader | src/log.c:340-364 | A header with any other checksum does not open, whatever follows. |
| PageDetection.OtherCount | src/log.c:206-215 | A record that announces another number of elements than seven is neither an entry nor a header. |
| PageDetection.FieldTooLong | src/util.c:388-406 | A field longer than its buffer is not read. |
| PageDetection.LengthByteUnseen | src/log.c:228-236 | After any entries of any page there is an entry of which one byte, of the length line of its data, can be changed so that the page loads another, shorter entry as good. |
| IndexWords.WordAtIndex | src/log.c:482-500 | The k-th word of the index file is the k-th offset. |
| IndexWords.ValueOfWord | src/log.c:488-497 | A 64-bit offset written as bytes reads back. |
| FileFormats.IndexFormat | src/log.c:488-497 | The least significant byte comes first. |
| LogPages.ReadEntry | src/log.c:202-260 | Reading an entry through the file buffer is parsing the file at the offset. |
| LogPages.ReadHeader | src/log.c:77-128 | The same for a header. |
| LogPages.WriteEntry | src/log.c:147-184 | Success appends the entry's text with the checksum continued over its pieces; a failure leaves the old contents as a prefix. |
| LogPages.EntryStored | src/log.c:376-392 | Each entry parses at its recorded offset with the checksum of the chain up to it. |
| LogPages.CutPage | src/log.c:514-561 | Cutting a page file at an entry's offset leaves exactly the page of the entries before it. |
| LogPages.LogPage.Append | src/log.c:470-480 | The entry is appended, with file, index file, checksum and counters consistent, if and only if no call into the kernel fails; an error leaves the page exactly as it was, the partial write undone. |
| LogPages.LogPage.Seek | src/log.c:482-500 | The page file stands at the entry's recorded offset; zero outside the page or when buffered bytes cannot be written out. |
| LogPages.LogPage.Get | src/log.c:502-512 | Exactly the entry at the index, nothing outside the page; a miss inside it if and only if a call into the kernel fails. |
| LogPages.LogPage.Delete | src/log.c:514-561 | Success keeps exactly the entries before the index, with the checksum of the last one left; the error cases leave the page alone; with a stale surplus in the count, removing every entry cannot succeed; with no failing call into the kernel an index inside always succeeds otherwise. |
| LogPages.LogPage.RereadCrc | src/log.c:537-557 | The running checksum is taken from the last entry left, and the assertion fails exactly when there is none. |
| LogPages.LogPage.Reset | src/log.c:797-809 | The page becomes empty under a new header, but keeps its old count: the page invariant holds afterwards if and only if the page had no entries; it fails if and only if a call into the kernel does. |
| LogPages.StaleCountAfterReset | src/log.c:797-809 | After the reset of a page with entries, deleting the next entry appended cannot succeed; if no call into the kernel fails it stops the process. |
| LogPages.LogPage.Create | src/log.c:292-319 | A new page is valid, empty and flushed whatever the file held before; there is none only if a call into the kernel failed on its files. |
| LogPages.LogPage.Open | src/log.c:340-364 | A page opens if and only if its header parses and passes its checksum, and has that header. |
| LogPages.LogPage.LoadEntries | src/log.c:394-451 | Index, counters and checksum are rebuilt for exactly the entries that parse and whose checksums continue the chain, the rest is cut off (PageDetection says what that rejects), and the process stops if and only if a call into the kernel fails. |
| LogPages.LogPage.Sync | src/log.c:453-468 | Flushing and syncing keep the contents; after success with fsync the whole page file is durable; it fails if and only if a call into the kernel does. |
| LogPages.LogPage.LoadAfterCrash | src/log.c:394-451 | Loading a page cut anywhere after its header gives a valid page with exactly the whole entries, unless a call into the kernel fails. |
| Logs.Log.Append | src/log.c:659-663 | The log as one indexed sequence grows by the entry if and only if no call into the kernel fails, and is unchanged on an error. |
| Logs.Log.Get | src/log.c:756-769 | Exactly the entry at the index across both pages, nothing outside the log; a miss inside it if and only if a call into the kernel fails. |
| Logs.Log.Delete | src/log.c:771-795 | Success cuts the sequence, giving up the second page when the cut reaches into the first; an error exactly for an index outside; a flush failure is reported as success and removes nothing; the process stops, or nothing is removed, only if a call into the kernel fails. |
| Logs.Log.Reset | src/log.c:797-809 | The log starts over after the index; it is valid afterwards if and only if its first page was empty; it fails if and only if a call into the kernel does. |
| Logs.Log.CompactionBegin | src/log.c:839-869 | The sequence is unchanged and a second page now continues it; a no-op while one exists; an error when there are fewer than two entries; in all other cases it succeeds unless a call into the kernel fails. |
| Logs.Log.AddPage | src/log.c:846-869 | With entries in the only page, a second, empty page follows the last entry and the first is durable, if and only if no call into the kernel fails. |
| Logs.Log.CompactionEnd | src/log.c:872-894 | The sequence becomes that of the second page, unless the rename fails; without a second page the assertion stops the process. |
| Logs.Log.Sync | src/log.c:721-737 | After a sync with fsync every entry of the log is durable; a failure stops the process, and comes only with a failing call into the kernel. |
| Logs.Log.Open | src/log.c:599-632 | The log fails to open exactly when a header does not parse; it stops the process only when the pages belong to different logs. |
| Logs.Log.LoadAfterCrash | src/log.c:665-693 | After a crash that cut each page anywhere past its header the log is valid and holds exactly the recoverable entries; the second page counts only if the first is complete; only a failing call into the kernel stops it. |
| Logs.RecoveredIsPrefix | src/log.c:665-693 | What is recovered is always a prefix of what was written. |
| EntryCaches.EntryCache.Append | src/entrycache.c:33-60 | Accepted exactly when the index is the next one or the cache is empty; then the contents grow by the entry, through a doubling of the ring. |
| EntryCaches.EntryCache.Grow | src/entrycache.c:41-54 | Doubling moves the wrapped part so that every entry is at its place in the larger ring. |
| EntryCaches.EntryCache.Get | src/entrycache.c:62-76 | Exactly the cached entry at the index, or nothing. |
| EntryCaches.EntryCache.DeleteHead | src/entrycache.c:78-106 | Drops exactly the entries before the index and counts them. |
| EntryCaches.EntryCache.DeleteTail | src/entrycache.c:114-145 | Drops exactly the entries from the index on and counts them. |
| EntryCaches.EntryCache.Compact | src/entrycache.c:147-171 | Drops the fewest entries from the head that bring the accounted memory within the limit. |
| LogStores.LogStore.Append | src/log.c:940-952 | Log and cache stay in step and the cache's contiguity assertion never fails; the entry is appended if and only if no call into the kernel fails. |
| LogStores.LogStore.Get | src/log.c:977-993 | Exactly the entry at the index, from cache or pages; a miss inside the log only when buffered bytes cannot be written out. |
| LogStores.LogStore.GetBatch | src/log.c:995-1016 | The longest run of consecutive entries from the index, up to the number asked; cut short if and only if a call into the kernel fails. |
| LogStores.LogStore.Pop | src/log.c:964-975 | Cache and log are cut at the same index; after an unnoticed flush failure they still agree if and only if the cache was empty or began at or after the index. |
| LogStores.LogStore.Poll | src/log.c:954-962 | The log becomes the second page and the cache stays its tail, unless the rename fails. |
| LogStores.LogStore.Reset | src/log.c:924-938 | Both start over; they are sound afterwards if and only if the first page was empty. |
| LogStores.LogStore.CompactCache | src/raft.c:1639-1642 | Shrinking the cache never changes the log. |
| LogStores.LogStore.CompactionBegin | src/log.c:839-869 | Opening the second page leaves the sequence and the cache in step; with two entries or more, or a second page already, it succeeds unless a call into the kernel fails. |
| LogStores.LogStore.Sync | src/log.c:1036-1041 | Syncing leaves log and cache alone and, if fsync is on, makes every entry durable. |
| LogRuns.Execute | src/log.c:905-1041 | Every call of the interface, sync included, that gets a reply is a step of a simple indexed sequence and keeps what was synced durable; unless a call into the kernel fails it gets the one reply the sequence has for it. |
| LogRuns.NoFailures | src/log.c:905-1041 | In a run during which no call into the kernel fails, every call has that one reply. |
| LogRuns.Run | src/log.c:905-1041 | For every sequence of calls, syncs and resets of an empty log included, each reply is the indexed sequence's, the final log is its final state, and every entry present at the last sync and not removed since is durable; if no call into the kernel fails the run is complete and every call gets the one reply of the indexed sequence, every append among them done. |
| CrashRecovery.PageOnDisk | src/log.c:51-75 | The kernel holds a running page's whole header and then a prefix of its entries' text, at every moment between calls. |
| CrashRecovery.OpensIff | src/log.c:340-364 | A page file cut at any byte opens if and only if its header survived. |
| CrashRecovery.DurableRecovered | src/log.c:394-451 | A page file that kept the bytes of its first n entries gives these back. |
| CrashRecovery.ImageIsValid | src/log.c:599-632 | Whatever is kept of a running log's two files is a cut of its pages, with the log's entries and what was synced of them. |
| CrashRecovery.ProcessDeath | src/log.c:599-632 | The death of the process alone costs no header and nothing that was synced, and nothing at all when no bytes waited in the buffers. |
| CrashRecovery.FoundLog | src/log.c:665-693 | The log loaded from a crash image holds a prefix of the log's entries, all of them when nothing was lost, and every durable one when the synced bytes survived. |
| CrashRecovery.Start | src/log.c:599-693 | Opening and loading any crash image: it fails to open if and only if a header was lost, never when the synced bytes survived, and otherwise holds exactly the entries whose text survived; it stops the process only if a call into the kernel fails. |
| CrashRecovery.Reopen | src/log.c:599-693 | The same from any cut of a running log's files. |
| CrashRecovery.RunCrashReopen | src/log.c:563-1041 | Any calls, then a crash that keeps any given part of the files, then a start: the log opens if and only if the headers survived, holds exactly the entries whose text survived, all of them if nothing was lost, and every entry synced in the run and not removed since if the synced bytes survived. |
| Compaction.InitialOk | src/log.c:574-591 | A freshly created node satisfies the invariants. |
| Compaction.KeepsInv | src/raft.c:1598-1690 | Every step of appending, popping, committing, syncing, compacting, loading a snapshot, crashing and starting keeps the invariant tying log pages, snapshot file and history together. |
| Compaction.RunKeepsInv | src/raft.c:1598-1690 | The invariant holds in every state of every run. |
| Compaction.KeepsTermInv | src/raft.c:1488-1517 | Every step keeps the agreement of page terms with the snapshot's term. |
| Compaction.SafeInLog | deps/raft/src/raft_server.c:1411-1418 | What was acknowledged as durable lies within the log, so a snapshot that is loaded always covers it. |
| Compaction.SurvivorsKept | src/log.c:665-693 | Whatever unsynced entries a crash takes, the acknowledged ones are still there. |
| Compaction.StartedIsLive | src/raft.c:1473-1538 | A node that starts satisfies the invariant of a running one or resets its log behind the snapshot. |
| Compaction.NoIndexMismatch | src/raft.c:1497-1507 | In every run with crashes anywhere the index panics at start and the assertion at compaction's end are unreachable, and while a snapshot is taken the second page exists and the snapshot reaches the first page's end. |
| Compaction.NoTermMismatch | src/raft.c:1493-1496 | In every run with crashes anywhere the term panic at start is unreachable. |
| Compaction.NothingLost | src/snapshot.c:238-301 | In every state of every run, in every phase, every entry ever committed and acknowledged as durable is covered by the snapshot file or is a durable entry of the log that a start loads, whichever of the pending files a crash leaves. |
| Compaction.OpensUnlessTorn | src/log.c:599-632 | In a run the log can be opened if and only if no crash came in the middle of writing a page header; after one it stays shut. |
| Compaction.StartFailsIff | src/log.c:599-632 | A start fails to open the log if and only if a header was torn before it. |
| CompactionProgress.CompactionCompletes | src/snapshot.c:238-452 | From every state in which the only page has two entries or more and all are committed and applied, a compaction that nothing interrupts replaces the page by a snapshot of exactly its last entry's index and term. |
| CompactionProgress.LoadCompletes | src/snapshot.c:501-561 | A received snapshot that reaches beyond the log, loaded without interruption, leaves an empty log right after it. |
| CompactionProgress.StartFromAnyFiles | src/raft.c:1473-1538 | A start from any files, not only those of a run: which outcome it has, and with which log and indexes it goes on. |
| CompactionProgress.GapOfOne | src/raft.c:1497-1500 | A start goes on although an index is covered by neither snapshot nor log, if and only if exactly the one before the log is missing. |
| CompactionProgress.NoGapInRuns | src/raft.c:1497-1507 | No run gets there. |
| SlotMaps.AddStep | src/cluster.c:764-851 | A new group that those present let in is accepted, and the slot maps take exactly its claims. |
| SlotMaps.AcceptedIsLetIn | src/cluster.c:689-721 | No other group is accepted. |
| SlotMaps.AddedIff | src/cluster.c:764-851 | A list is added without a failure if and only if its ids are distinct and, for every pair of ranges of an earlier and a later group, they are disjoint or the earlier is not stable and of another type; the maps then say exactly who claims what. |
| ShardOrders.OrdersAgree | src/cluster.c:639-679 | Two orders of the same groups that are both accepted give the same configuration. |
| ShardOrders.EveryOrderIff | src/cluster.c:764-851 | Exactly the lists without contradictions between groups and with distinct ids are accepted in every order. |
| ShardOrders.SortedInOrderIff | src/cluster.c:609-620 | The order of the dictionary is one in which the groups let each other in if and only if no slot's stable owner comes before one that imports or migrates it. |
| ShardOrders.LoadsBackIff | src/cluster.c:594-679 | A configuration, however built, loads back from its own snapshot, which stores the groups in the order of their ids, if and only if for every slot the stable owner's id is not below that of one who imports or migrates it; what is loaded is then the configuration, with routing on only if needed. |
| ShardOrders.ReplaceVersusLoad | src/raft.c:2088-2095 | For every list: replacing the configuration by it and loading it from a snapshot succeed alike, and leave the same configuration if and only if routing was off before or the list needs it. |
| ShardOrders.UnroutedIff | src/cluster.c:826-844 | Starting afresh, routing stays off if and only if there is no group, or one alone that is the local one and owns every slot as stable in one range; then every slot is the local group's. A foreign group alone leaves it on. |
| SlotMaps.AddedIsRoutable | src/cluster.c:764-851 | Adding keeps every slot's owner registered with a range over the slot. |
| SlotMaps.RouteAssociates | src/raft.c:166-215 | The group found for a slot always has a range over it: the error for an unassociated slot cannot occur. |
| SlotMaps.RangeKindFound | src/raft.c:202-215 | The range found for a covered slot is one that covers it, no later than the given one. |
| SlotMaps.RoutedKind | src/raft.c:188-215 | In a consistent configuration the type found is the one under which the group owns the slot, except for a group that both imports and migrates it. |
| Sharding.ClaimRange | src/cluster.c:1020-1060 | A range is refused exactly when one of its slots is taken in a way its type does not allow; otherwise exactly its slots are marked. |
| Sharding.CheckGroups | src/cluster.c:965-1077 | The three-map scan accepts a list if and only if it is pairwise consistent, and the maps then say who claims each slot. |
| Sharding.SoundIffConsistent | src/cluster.c:1011-1062 | The incremental soundness that the scan keeps is, at the end, consistency of all pairs. |
| Sharding.ReplaceMatchesParser | src/raft.c:2071-2134 | A list the parser accepted is applied without an assertion failure if and only if its ids are distinct, and the maps built are those the parser computed. |
| Sharding.AddVersusParser | src/cluster.c:689-721 | For every configuration and every group that adding accepts: the parser accepts the list with the group if and only if it accepted the list, the group's own ranges do not overlap, and none of its stable ranges covers a slot that others import or migrate. |
| Sharding.AddedIdsDistinct | src/cluster.c:764-780 | A list that was added has distinct ids, none of them present before. |
| Sharding.ShardingInfo.constructor | src/cluster.c:1083-1136 | The empty configuration. |
| Sharding.ShardingInfo.Validate | src/cluster.c:689-721 | The slot-by-slot check accepts exactly the groups whose every slot is available. |
| Sharding.ShardingInfo.MapRange | src/cluster.c:789-813 | Exactly the slots of the range change, in the map of its type, and an import term is reset exactly where the local group stops importing. |
| Sharding.ShardingInfo.MapRanges | src/cluster.c:787-814 | The same for all ranges together; an unknown type is a panic. |
| Sharding.ShardingInfo.Add | src/cluster.c:764-851 | Refused exactly when unacceptable, and then nothing has changed; otherwise the configuration with the group. |
| Sharding.ShardingInfo.AddEach | src/raft.c:2101-2127 | A list is added in order; the assertion holds exactly when each group is accepted in its turn. |
| Sharding.ShardingInfo.Replace | src/raft.c:2071-2134 | A REPLACE entry leaves exactly the list's configuration, with routing on if it was on before. |
| Sharding.ShardingInfo.Load | src/cluster.c:639-679 | Loading a snapshot leaves exactly the list's configuration and the saved import terms. |
| Sharding.ShardingInfo.Save | src/cluster.c:594-623 | The groups saved are exactly those of the configuration, in the order of their ids, with the import terms. |
| Sharding.SaveAndLoad | src/cluster.c:594-679 | Saving and loading succeeds if and only if every slot's stable owner comes last, and then gives the configuration back. |
| ShardWitnesses.LoadsThoughRefused | src/cluster.c:594-679 | Two groups that the parser refuses and that load back all the same. |
| ShardWitnesses.DoesNotLoadBack | src/cluster.c:663-673 | Two groups that are added one after the other and whose snapshot fails the assertion of loading. |
| ShardWitnesses.OwnOverlapAccepted | src/cluster.c:1863-1879 | A group with overlapping ranges that adding accepts and the parser refuses. |
| ShardWitnesses.StableOverImportAccepted | src/cluster.c:1863-1879 | A group with a stable range over an imported slot that adding accepts and the parser refuses. |
| ShardWitnesses.DuplicateIdsFail | src/raft.c:2101-2127 | Two groups of the same id that pass the parser and fail the assertion of applying. |
| ShardWitnesses.RoutingLeftOn | src/raft.c:2088-2095 | One local group that owns every slot, after which routing is on where it was replaced and off where its snapshot was loaded. |
| KeySpace.Store.CheckExistence | src/raft.c:116-154 | The counting loop classifies the keys of a command list: all there, none there, some missing, some locked. |
| KeySpace.Store.FindKind | src/raft.c:202-215 | The type of the first range over the slot. |
| KeySpace.Store.Validate | src/raft.c:188-265 | The decision for a command list is the routing rule's, for every configuration, and never that the group is not associated with the slot. |
| KeySpace.Store.ComputeSlot | src/cluster.c:1141-1172 | The slot of all keys of some commands, none without keys, and an error if and only if they are of several slots. |
| KeySpace.Store.HandleSharding | src/raft.c:276-297 | With routing off, or without keys, commands run; keys of several slots are refused; everything else is the routing rule's decision. |
| Routing.KindIs | src/raft.c:207-214 | A group's first range over a slot has the one role that the slot maps give the group there. |
| Routing.StableSlot | src/raft.c:168-171 | In every consistent configuration and on every cluster: commands on a stable slot run at its owner and are sent to the owner everywhere else. |
| Routing.UnownedSlot | src/raft.c:197-203 | A slot that nobody owns as stable or migrates is not served, if and only if the request is not one that asks at its importer. |
| Routing.AtSource | src/raft.c:231-252 | At the source of a moving slot commands run if and only if all keys are there and none is locked, are sent to ask at the importer if and only if none is there, and are put off otherwise. |
| Routing.AtImporter | src/raft.c:178-186 | At the importer of a moving slot a request that asks runs if and only if all keys are there and none is locked; one that does not ask is sent to the source. |
| Routing.ElsewhereMoved | src/raft.c:223-230 | Every other cluster names the source. |
| Routing.AtBoth | src/raft.c:231-262 | A group that migrates and imports a slot decides by the first of its ranges. |
| Routing.SlotsDecide | src/raft.c:276-297 | Commands are refused as cross-slot if and only if routing is on and two of their keys are of different slots; without keys or without routing they run. |
| Routing.FollowStable | src/raft.c:223-230 | A client that follows redirections gets its commands on a stable slot carried out by the owner, from any cluster, after at most one. |
| Routing.FollowMoving | src/raft.c:188-265 | On a moving slot, from any cluster and after at most two redirections: commands are carried out if and only if the source has all keys unlocked, or none of them and the importer has all unlocked. |
| Routing.ClientReaches | src/raft.c:188-265 | In every state of every run, of a moving key that source or importer holds unlocked: a client that follows redirections gets its command carried out if and only if the source does not hold the key locked; and it is carried out where the key is. |
| Routing.ClientFindsValue | src/raft.c:188-265 | As long as no import is applied to keys that clients have changed at the destination since, such a client finds a moving key with its current value, if and only if it is not locked for hand-over. |
| KeySpace.Store.LockKeys | src/raft.c:473-561 | Locks exactly the listed keys that exist, when all are of one slot that this cluster migrates and another imports; otherwise nothing. |
| KeySpace.Store.UnlockDeleteKeys | src/raft.c:563-593 | Removes exactly the listed keys and their locks. |
| KeySpace.Store.FindSession | src/migrate.c:11-31 | The migration session of the first range over the slot. |
| KeySpace.Store.AcceptsImport | src/migrate.c:11-54 | Accepted exactly for a slot imported here, under its session and from a term not older than the last. |
| KeySpace.Store.ApplyImport | src/migrate.c:56-130 | An accepted import restores exactly the listed keys and records the term; another changes nothing. |
| Migration.ExecuteMeans | src/raft.c:188-265 | On a slot being moved a command runs only at the source or the destination, and only if all its keys are there and none is locked. |
| Migration.KeepsInv | src/migrate.c:56-399 | Every client command, lock, import delivery (repeated, reordered or late), unlock and term change, on any cluster, keeps the hand-over invariant. |
| Migration.RunKeepsInv | src/migrate.c:56-399 | The invariant holds in every state of every run. |
| Migration.OneExecutor | src/raft.c:188-265 | In every state of every run a key can be used on at most one cluster. |
| Migration.LockedKeyIsSafe | src/raft.c:473-593 | From its lock on: while the key is at the source it is locked with its value unchanged, and once it is gone it is at the destination unless a client deleted it there. |
| Migration.StaleImportIgnored | src/migrate.c:33-43 | Once an import was applied, one of the same slot with a lower term changes nothing. |
| HandOver.OtherSessionIgnored | src/migrate.c:11-31 | In every run an import under another session key, or at a cluster that does not import the slot, changes nothing. |
| HandOver.ImportTaken | src/migrate.c:56-130 | In every run one at the importer under its session key and in no older term leaves every key with the value sent and sets the slot's term. |
| HandOver.UnlockRemoves | src/raft.c:563-593 | In every run an unlocked key is gone from its source, with its lock, and never returns there. |
| HandOver.HandOverCompletes | src/migrate.c:11-130 | From every state in which the source has the keys, lock, import and unlock bring them to the destination with their values, and every client is then served there. |
| Migration.RunsOnTruth | src/raft.c:188-265 | Where a command runs, each of its keys has its current value. |
| Migration.DeliverTruth | src/migrate.c:56-130 | A delivered import keeps a key's value for its clients if and only if it is ignored, does not name the key, or the destination does not have the key yet (and no client deleted it) or has the very value imported. |
| Migration.MigrationIsTransparent | src/migrate.c:333-399 | In every run in which no import is applied over keys that clients changed since, every command that runs, wherever, reads the value the last write of each key left. |
| Migration.ConsistentConfig | src/cluster.c:965-1077 | Every configuration that the parser accepts, with routing on, meets what migration assumes of it. |
| Migration.MovingIsRouted | src/cluster.c:826-844 | Routing is on in every configuration in which anyone imports or migrates a slot. |
| MigrationWitness.ImportLosesWrite | src/migrate.c:33-130 | A run in which an import delivered a second time overwrites a client's write at the destination. |
| MigrationWitness.HandOverPutsOff | src/raft.c:231-241 | A state between import and unlock in which the destination holds a key unlocked and every client is put off by the source. |
| StrictInteger.StringToLongLong | deps/hiredis/read.c:163-224 | The overflow-checked loop accepts exactly the printed forms of 64-bit integers and returns the integer. |
| StrictInteger.PrintedOf | deps/hiredis/read.c:163-224 | Every 64-bit integer is read back from its printed form. |
| StrictInteger.DecInjective | deps/hiredis/read.c:163-224 | No two integers print alike. |
| RespProtocol.ReplyExtends | deps/hiredis/read.c:528-603 | What the recursive parser decides on an input it still decides when more input follows. |
| RespProtocol.SettleMeans | deps/hiredis/read.c:241-267 | Closing the aggregates that an item completes is what the recursive parser does after it. |
| RespReader.StepMeans | deps/hiredis/read.c:528-603 | One step of the explicit-stack machine, on the input so far and with any continuation, leaves the recursive parser's answer for the whole. |
| RespReader.SeekNewline | deps/hiredis/read.c:125-149 | The memchr loop finds the first CR LF, or none. |
| RespReader.Reader.constructor | deps/hiredis/read.c:605-635 | A new reader has been fed nothing. |
| RespReader.Reader.Feed | deps/hiredis/read.c:657-686 | Accepted exactly while there was no error; discarding consumed bytes loses nothing. |
| RespReader.Reader.MoveToNextTask | deps/hiredis/read.c:241-267 | Moves up the stack over completed aggregates. |
| RespReader.Reader.ReadLine | deps/hiredis/read.c:226-239 | The next line, or nothing with the position unchanged. |
| RespReader.Reader.ReadBulk | deps/hiredis/read.c:351-421 | A bulk item exactly when all of it has arrived. |
| RespReader.Reader.ProcessLine | deps/hiredis/read.c:269-349 | A line item advances the machine as specified, with each kind's error. |
| RespReader.Reader.ProcessBulk | deps/hiredis/read.c:351-421 | The same for a bulk item. |
| RespReader.Reader.ProcessAggregate | deps/hiredis/read.c:449-526 | The same for the header of an aggregate. |
| RespReader.Reader.ProcessItem | deps/hiredis/read.c:528-603 | The same for an item of any type. |
| RespReader.Reader.GetReply | deps/hiredis/read.c:688-739 | Replies come out in the order of the recursive parser of all input fed; none left means the parser waits too; an error means it fails there too. |
| RespReader.Drain | deps/hiredis/read.c:688-739 | Repeated calls take out exactly the complete replies. |
| RespReader.ReadChunks | deps/hiredis/read.c:657-739 | For every way of cutting a stream into chunks the replies, and the first error, are those of the recursive parser on the whole stream. |
| RespCommand.CountDigits | deps/hiredis/hiredis.c:287-297 | The four-way loop counts the decimal digits. |
| RespCommand.BulkLength | deps/hiredis/hiredis.c:300-302 | The length of the bulk of every string of that length. |
| RespCommand.FormatCommandArgv | deps/hiredis/hiredis.c:624-660 | The buffer has exactly the size computed beforehand and holds the command and its terminator. |
| RespCommand.CommandReadsBack | deps/hiredis/hiredis.c:624-660 | A formatted command, with any bytes in its arguments, is read as the array of its arguments with nothing left over. |
| RespCommand.PipelineReadsBack | deps/hiredis/hiredis.c:1073-1080 | A pipeline of commands is read as exactly those commands. |
| RespPrinter.ReadsBack | deps/hiredis/read.c:269-603 | For every reply tree within the protocol's limits, errors, statuses, texts, verbatim texts, numbers, doubles, nil, booleans, arrays, maps, sets and pushes: what a printer with its own type bytes prints is read back as that reply, with what follows left over. |
| RespPrinter.StreamReadsBack | deps/hiredis/read.c:688-739 | A printed stream is read as exactly its replies. |
| RespPrinter.ReadPrinted | deps/hiredis/read.c:688-739 | The resumable reader, fed a printed stream in any chunks, returns exactly the replies printed. |
| RespPrinter.TypeBytes | deps/hiredis/read.c:534-584 | Any byte but the twelve type bytes is an error at once. |
| RespPrinter.LinesChecked | deps/hiredis/read.c:277-322 | Lines that are no integer, or no double of at most 325 bytes, are errors. |
| RespPrinter.CountsChecked | deps/hiredis/read.c:461-482 | A count of minus one is nil; below it and above 4294967295 an error. |
| RespPrinter.LengthsChecked | deps/hiredis/read.c:351-400 | A length of minus one is nil, below it an error, and a text is not there before its last byte is. |
| Fsync.KeepsShape | src/fsync.c:20-88 | Every step of the main thread, the worker and the event loop keeps the files in use open and the flag telling whether anything is pending. |
| Fsync.KeepsInv | src/fsync.c:20-88 | Every step keeps the invariant of durability and order, but for a deletion of entries whose sync is pending. |
| Fsync.RunKeepsInv | src/fsync.c:20-88 | The invariant holds after every run without such a deletion. |
| Fsync.SyncIsSafe | src/raft.c:2138-2194 | In every run without such a deletion, under both writers, the reported index is durable, and when the wait for the worker ends all that was requested is durable; in every run the worker only uses open files and nothing is pending when the wait ends. |
| Fsync.UnsafeIff | src/raft.c:2138-2149 | The reported index stops being durable if and only if a background result arrives that is beyond what is durable. |
| Fsync.UnsafeNeedsDeletion | deps/raft/src/raft_server.c:375-412 | In a run that happens only after entries were deleted whose sync was pending. |
| Fsync.UnsafeReport | src/raft.c:2138-2149 | A run in which an entry is reported as durable that was written in the place of a deleted one and never synced. |
| Fsync.DurableGrows | src/log.c:721-737 | What is durable stays durable until it is deleted. |
| Fsync.GoesBackIff | src/raft.c:2138-2149 | The reported index goes back if and only if a background result older than the index arrives, or the log is synced or cut below it. |
| Fsync.AheadKept | src/log.c:1036-1041 | Only a sync or a deletion at once can overtake a pending sync. |
| Fsync.GoesBackNeedsOvertaking | src/log.c:721-737 | In a run a report takes the index back only if the log was synced or cut at once while another sync was pending. |
| Fsync.ReportsAscend | src/raft.c:2138-2149 | With neither the reported index never goes back. |
| Fsync.GoesBack | src/raft.c:2138-2149 | A run in which it goes from 2 to 1. |
| Fsync.WaitEnds | src/fsync.c:38-88 | While the main thread waits, the worker always has a step to take and each brings it closer to rest. |
| Fsync.RequestIsReported | src/fsync.c:20-88 | A request made while the worker rests, carried through, makes the last entry durable and reports its index. |
| Metadata.ReadsBack | src/metadata.c:65-155 | Written metadata reads back. |
| FileFormats.MetadataFormat | src/metadata.c:73-80 | The file is the count 6 and the fields METADATA, 1, database id, node id, term and vote. |
| Metadata.MetaTorn | src/metadata.c:109-155 | A metadata file cut anywhere does not parse. |
| Metadata.OthersRefused | src/metadata.c:128-150 | Nor does one of another version, or whose vote is no 32-bit number. |
| Metadata.ReadMeta | src/metadata.c:109-155 | Reading through the file buffer is parsing the file. |
| Metadata.Store.WriteTemporary | src/metadata.c:84-96 | While the temporary file is written, in any portions, the metadata file is untouched. |
| Metadata.Store.Rename | src/util.c:514-524 | The temporary file takes the metadata file's place, the old one still possible after a power failure. |
| Metadata.Store.Write | src/metadata.c:65-107 | At every moment the metadata file is the old one or the new one, the new one for good once the call succeeded, the old one after an error; it succeeds if and only if no call into the system fails. |
| Metadata.CrashReadsOldOrNew | src/metadata.c:109-155 | A start after a crash at any such moment reads the old or the new term and vote. |
| Serialization.IntFits | src/serialization_utils.c:12-31 | The computed size of an integer is always enough, exact below ten million and from there only for some of the largest numbers. |
| Serialization.IntReadsBack | src/serialization_utils.c:53-100 | Every 64-bit unsigned integer reads back, whatever follows. |
| Serialization.StrReadsBack | src/serialization_utils.c:108-162 | Every string reads back, whatever follows. |
| Serialization.StrsReadBack | src/serialization_utils.c:108-162 | So does every list of strings. |
| Serialization.Encoder.Integer | src/serialization_utils.c:92-100 | Succeeds exactly when a byte is left over for the terminator; then appends exactly the text. |
| Serialization.Encoder.Str | src/serialization_utils.c:133-162 | Succeeds exactly when the text fits; then appends exactly it. |
| Serialization.ReadInt | src/serialization_utils.c:53-83 | The decoding loop is the decoder of the round trip, on any input. |
| Serialization.ReadStr | src/serialization_utils.c:108-126 | The same for a string. |
| Serialization.ReadStrs | src/serialization.c:188-224 | The same for several strings. |
| Payloads.ArrayReadsBack | src/serialization.c:226-295 | Every command array reads back, whatever follows. |
| FileFormats.CommandFormat | src/serialization.c:101-186 | How a command array looks. |
| Payloads.SerializeArray | src/serialization.c:101-186 | For every command array the precomputed buffer suffices, no assertion fails and decoding gives the array back. |
| TornTexts.ArrayTorn | src/serialization.c:188-295 | For every command array, no proper beginning of its serialized form decodes. |
| Payloads.DeserializeArray | src/serialization.c:188-295 | The loops are the decoder of the round trip, on any input. |
| Payloads.ImportReadsBack | src/serialization.c:297-350 | Every import reads back. |
| FileFormats.ImportFormat | src/serialization.c:352-398 | How an import of one key looks. |
| Payloads.SerializeImport | src/serialization.c:352-398 | For every import the buffer suffices, no assertion fails and decoding gives it back. |
| TornTexts.ImportTorn | src/serialization.c:297-350 | Nor does one of an import. |
| Payloads.SerializeTimeout | src/serialization.c:469-496 | The buffer suffices for every index. |
| Payloads.TimeoutReadsBack | src/serialization.c:498-524 | Index and flag always read back; the decoder's assertion on the bytes left holds if and only if the index is below ten million. |
| FileFormats.TimeoutFormat | src/serialization.c:469-496 | How timeout entries look. |
| Payloads.Collect | src/serialization.c:401-415 | The distinct keys and their total size. |
| Payloads.Walk | src/serialization.c:427-438 | A dictionary walk visits each key once, in whatever order. |
| Payloads.SerializeLockKeys | src/serialization.c:401-444 | The assertions hold exactly when the text of the count is shorter than the keys' total size and its computed size is exact; the result reads back exactly when no key contains a terminator. |
| Payloads.KeysReadBack | src/serialization.c:446-467 | Keys read back if and only if none contains a NUL byte. |
| Payloads.BinaryKeyIsCut | src/serialization.c:460-464 | A key with a NUL byte that comes back as another key. |
| Payloads.OneKey | src/serialization.c:401-444 | A single key can be serialized if and only if it has at least three bytes. |
| Payloads.DeserializeLockKeys | src/serialization.c:446-467 | The loop is the decoder of the round trip, on any input. |
| ShardText.AddrReadsBack | src/node_addr.c:15-52 | An address reads back, colons in the host included. |
| ShardText.GroupReadsBack | src/cluster.c:30-180 | Every group within the field limits reads back, whatever follows. |
| FileFormats.GroupFormat | src/cluster.c:30-56 | How a group of one range and one node looks. |
| TornTexts.GroupTorn | src/cluster.c:61-180 | For every group, its text cut anywhere is rejected, without a failed assertion. |
| TornTexts.LongIdRejected | src/cluster.c:78-81 | A group whose id is longer than 32 bytes is rejected. |
| ShardText.PayloadReadsBack | src/raft.c:2101-2127 | The payload of a REPLACE entry splits back into exactly the groups submitted. |
| ShardText.TextBuffer.Cat | src/util.c:40-69 | Appends exactly the piece; its assertion fails if and only if the piece exceeds the space left by exactly 4096 bytes. |
| ShardText.SerializeGroup | src/cluster.c:30-56 | For every group the buffer's assertion holds and the text is the group's. |
| ShardText.SerializeGroups | src/cluster.c:389-410 | The buffer's assertion holds if and only if no frame exceeds by exactly 4096 bytes the space left in its turn. |
| ShardText.UnluckyIsNotRoomy | src/cluster.c:389-410 | One group of 27 nodes, within every limit, fails the assertion. |
| ShardText.DeserializeGroup | src/cluster.c:61-180 | The line-by-line loop is the reader of the round trip, on any text. |
| ShardText.DeserializeGroups | src/raft.c:2101-2127 | So is the splitting of a payload. |
| Base64.Alphabet | src/util.c:526-609 | The letters are those of section 4 of RFC 4648, in both directions. |
| Base64.ExampleThree | src/util.c:616-646 | The example "foo" of section 10 of RFC 4648. |
| Base64.EncodedLength | src/util.c:611-614 | The encoding of n bytes has exactly the precomputed length. |
| Base64.BytesLength | src/util.c:548-561 | The number of bytes decoded from any input. |
| Base64.DecodeEncode | src/util.c:563-646 | Decoding an encoding gives the bytes back, whatever follows its terminator (section 4 of RFC 4648). |
| Base64.Encode | src/util.c:616-646 | Fills exactly the buffer of the precomputed length. |
| Base64.Decode | src/util.c:563-606 | On any input the precomputed buffer suffices and the returned count is exact. |

## Findings

Properties that the code does not have, each with its exact condition:

- Torn header. A crash while a page header is being written leaves a log that does not open: `LogOpen`
  (src/log.c:599-632) gives up on a second page whose header does not parse, even when the first page is
  complete. `CrashRecovery.Start` states the condition both ways; `Compaction.StartFailsIff` shows that exactly
  these crashes have this effect.
- Stale count. `LogReset` (src/log.c:797-809) keeps the entry count of the first page. The log is sound
  afterwards if and only if that page was empty (`Logs.Log.Reset`); otherwise the next deletion fails
  (`LogPages.StaleCountAfterReset`).
- Damage that goes unseen. The checksum of an entry is computed over the values read and printed again
  (src/log.c:376-392), not over the bytes of the file. Changing one byte of a length line can make the page load
  another entry as good (`PageDetection.LengthByteUnseen`); changing one byte of a number, say to a zero in
  front, can go unseen only if the printed heads have the same checksum. `PageDetection.OneByteOfEntry` and
  `OneByteOfHeader` give the exact condition, `StopsExactly` that of any change at all.
- A missing entry at start. The check of the snapshot against the log (src/raft.c:1497-1500) lets a gap of exactly
  one entry pass (`CompactionProgress.GapOfOne`); no run produces it (`NoGapInRuns`).
- Silent deletions. `LogDelete` (src/log.c:771-795) ignores the result of its pages, so a flush failure is
  reported as success and nothing is removed (`Logs.Log.Delete`). The cache has been cut by then:
  `LogStores.LogStore.Pop` says when the two still agree. `LogCompactionBegin` (src/log.c:839-869) uses the
  last entry without checking that it could be read, which a flush failure makes null; the model
  shows it as a stop of the process.
- Reported index going back. The completion of a background sync (src/raft.c:2144) overwrites the index
  that a sync at once has already raised (`Fsync.GoesBack`, `GoesBackIff`, `GoesBackNeedsOvertaking`).
- Reported index beyond what is durable. The same assignment reports entries that were deleted while their
  sync was pending; entries written in their place then count as durable before they are
  (`Fsync.UnsafeReport`). `UnsafeIff` and `UnsafeNeedsDeletion` give the condition; in all other runs the
  reported index is durable (`SyncIsSafe`).
- Timeout entries. The decoder's assertion (src/serialization.c:498-524) fails from index 10,000,000 on,
  because the size computed for an integer of eight digits or more is not exact (`Payloads.TimeoutReadsBack`).
- Lock keys. Keys with a NUL byte do not read back (`Payloads.KeysReadBack`, `BinaryKeyIsCut`), and a single
  key of fewer than three bytes fails an assertion (`Payloads.OneKey`).
- Growing text buffer. `catsnprintf` (src/util.c:40-69) fails its assertion when a piece exceeds the space
  left by exactly 4096 bytes; `ShardText.SerializeGroups` gives the condition for a whole list and
  `UnluckyIsNotRoomy` a list that meets it.
- Import after hand-over. The term check (src/migrate.c:33-43) lets an import of the same term be applied
  again, over what clients wrote at the destination since (`MigrationWitness.ImportLosesWrite`).
  `Migration.DeliverTruth` says exactly when a delivery is harmless.
- Put off during hand-over. That some cluster holds a key unlocked is not enough to reach it: between import and
  unlock the source still answers TRYAGAIN (`MigrationWitness.HandOverPutsOff`). `Routing.ClientReaches` gives the
  exact condition.
- Adding is laxer than parsing, in two ways: the ranges of a group added on its own may overlap each other
  (`ShardWitnesses.OwnOverlapAccepted`), and a stable range may cover a slot that others import or migrate
  (`StableOverImportAccepted`). `Sharding.AddVersusParser` says that there is no third.
- Snapshots that do not load. A configuration built that way may fail the assertion of loading it back
  (`ShardWitnesses.DoesNotLoadBack`), depending on the order of the ids; `ShardOrders.LoadsBackIff` gives the
  exact condition.
- Duplicate ids. The parser accepts a list in which two groups have the same id, and applying it fails an
  assertion (`Sharding.ReplaceMatchesParser`, `ShardWitnesses.DuplicateIdsFail`).
- Routing stays on. Replacing the configuration keeps `is_sharding` while loading a snapshot clears it, so
  two nodes can disagree (`ShardOrders.ReplaceVersusLoad`, `ShardWitnesses.RoutingLeftOn`).

Where a comment and the code differ, the code was followed: the one on `ShardingInfoRDBSave`
(src/cluster.c:588-592) says that the local group is not written, but all groups are.

## Left out

Assumptions:

- The Raft library is represented by its contract: a snapshot is loaded only when it reaches beyond the log
  (deps/raft/src/raft_server.c:1411-1418 and 1828-1833), polling follows a finished snapshot and names an
  index after the first page, committed entries are never popped, and its calls of sync
  (deps/raft/src/raft_server.c:396, 411, 455, 947, 1167, 1791) may come at any time. Elections, replication
  and membership changes are not modelled.
- The operating system: write may be short or fail; read is short only at the end of the file (after any
  other short read, src/file.c:238 would advance the destination by the wrong amount); fsync makes durable what was written before it, rename is atomic, and a rename not yet
  followed by a sync of the directory may be lost.
- `Compaction` and `Fsync` take log_fsync to be on; files and buffers are below 2 GiB and element counts within an `int`, as the
  source's types ask; addresses are given to the checksum as an alignment only.

Not modelled:

- Compaction.KeepsInv: a crash may undo a truncation of the log until the library's sync that ends it; file
  systems that undo it later are not considered.
- Compaction.RunKeepsInv: works on terms and indexes only; the page format below it is the subject of `LogPages`.
- CrashRecovery.RunCrashReopen: the crash comes between two calls of the interface; that appends are safe in
  between follows from the cut being arbitrary, deletions are covered by `Compaction`.
- LogRuns.Run: calls the library makes in other circumstances than the contract above are answered `Refused`
  by the model without being executed; a reset is one of them while the log has entries. That what was synced is
  durable is stated for logs whose first page was synced before the second was created, as creating it does.
- Fsync.SyncIsSafe: a deletion that reaches into the first of two pages, and so closes a file, is not modelled.
- Crc32cSoftware.SoftwareCrc.Compute: the big-endian variant (deps/common/sc_crc32.c:340-419) is not modelled.
- Crc32cHardware.HardwareCrc.Compute: the instructions are modelled by their definition as eight bytes or one
  byte of the reference.
- MultiBulk.ParseBulk: a negative length, which C would turn into a huge size, is rejected.
- PageCodec.EntryAt: the 1024-byte print buffers are taken to be large enough for a header.
- KeySpace.Store.HandleSharding: which arguments of a command are keys is given; the key hash is an arbitrary
  function.
- Routing.FollowMoving: all clusters have the same slot configuration; which node of a cluster is named does not
  matter.
- Migration.MigrationIsTransparent: expiry of keys, writes that name no key and changes of the slot
  configuration during the migration are not modelled, and every key listed for transfer must exist at the
  source, as `transferKeys` checks.
- RespReader.ReadChunks: which texts are doubles is a parameter (strtod); running out of memory and the
  construction of reply objects are not modelled.
- RespPrinter.ReadsBack: the printer is the protocol's; RedisRaft itself only prints commands
  (`RespCommand.CommandReadsBack`).
- ShardText.GroupReadsBack: ids and hosts contain no newline or NUL byte and keep to the field sizes.
- RespCommand.CommandReadsBack: arguments and counts within the reader's own limits.
- The RDB byte format, the network, DNS, TLS and event-loop plumbing, client sessions, the CLUSTER command
  replies, configuration parameters and the command table.
