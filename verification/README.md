# s3search, verified

s3search is a log-structured search index kept in object storage. This project models the parts of it that are
hard to get right and proves what they promise, in Dafny 4.11. `dafny verify dfyconfig.toml` checks everything.

## What is modelled

**Ingest and the write-ahead log.** `WalLog` gives the log's bytes: frames of length, checksum and payload behind an
eight-byte header, and what replay makes of any bytes. `Wal` is the `WAL` class itself, with its file, cursor and
64 KiB buffer, and `Migration` what opening makes of older, short and empty files. `Ingest` is a state machine over
Add, AddBatch, starting and finishing flushes, failed flushes, log truncation and crashes. `Index` is the `Index`
class, each of whose methods is shown to be a step of that machine. `Durability` proves, over whole runs, that no
acknowledged document is lost, and says exactly when truncating the log is safe; `CalmRuns` adds what holds when
nothing fails, `FlushOverlap` runs whose flushes overlap, and `Residues` what follows a record that was written only
in part. `LossTraces` shows, for every engine and all documents
of the right kind, that each hypothesis is needed.

**Manifests.** `Manifest` has the keys and the changes writers publish, `Store` the conditional PUT,
`Publishing` any number of publishers whose List, Get and Put steps interleave, and `ManifestStore` the retry loop
run against an arbitrary schedule of rivals.

**Segments.** `Positions` (LEB128 deltas), `Docstore` (compressed blocks and their index), `Hotcache` (term
dictionary and offset table), `Accumulator` and `Terms` (inverted lists and their byte ranges), `Segment` and `Build`
(the whole file and the range reads of it), `Analyze` and `Memtable` (from JSON documents to columns).

**Queries.** `Query` says what a query tree means for one document. `Lookup`, `Phrase` and `Eval` are the evaluator,
which combines bitmaps in place and reads postings and positions back from the bytes of a segment. `Answers` joins the
chain from the JSON documents to the answers, and `Meaning` says in words, fields and places of a text which documents
these are. `Grammar`, `Scanning` and `Parser` are the query-string parser; `Atoms` and `Spelling` give every way of
writing an expression and what it means. `Paging` is the fan-out with its from+size window.

**Maintenance.** `Visibility`, `Catalog` and `Conservation` are flushes, merges, deletes by query, garbage
collection and crashes as interleaved steps on one index, with the multiset of visible documents. `CatalogAnswers`
carries this over to every query's answers. `TwoWriters`, `Overlap` and `SameKind` let merges and deletes run at the
same time, and `EarlyCollection` lets uploads and collections meet. `Files` reads built segments, and `Dedup`, `Merging`,
`Compaction` and `Maintenance` are the loops of the compactor, of delete-by-query and of the collector over them.
`EndToEnd` runs ingest and catalog as one machine.

External libraries are parameters with round-trip hypotheses only: CRC32 is any checksum function, JSON compaction and
validity, zstd, roaring serialisation, the FST and the conversion of strings to bytes are functions whose decoder
undoes their encoder, and Unicode classes and foldings are uninterpreted. Time, segment ids and map iteration order
are nondeterministic.

## Hypotheses the code needs

Each is a step precondition, and a lemma shows what happens without it.

- A truncation after a failed flush loses the failed flush's records (`TruncateAfterFailedFlushLoses`); in careful runs
  without crashes and failed batches it is safe if and only if nothing was lost to a failed flush before
  (`TruncateSafeIff`).
- A flush starts only when no other is between snapshot and truncation. In runs in which nothing fails, with any number
  of them in the air, the first cut is safe if and only if what earlier flights owe is published again behind it (`FirstCutSafeIff`): of two flushes
  the older may cut first, and the younger if and only if the older is published (`FirstOfTwoCuts`, `EarlyCutLoses`).
  Once one of two has cut the log, the other's cut is safe if and only if the memtable is empty (`SecondOfTwoCuts`,
  `OverlappingFlushesLose`; `NextCutSafeIff` for more than two).
- No crash leaves a part of a record header, and no refused batch a part of a record. Behind any log and any part of a
  record, a later record is read if and only if it is that record again when read from the residue on
  (`ReadBehindIff`), and the document is durable if and only if it is read or a spare copy is held
  (`AddAfterCrashIff`, `AddAfterSpillIff`; traces in `TornHeaderLoses` and `SpilledBatchLoses`). Replay repairs the
  file if and only if the residue is 0 or at least 8 bytes (`ReplayAfterCut`).
- Manifest keys have six digits; version 1000000 sorts before the others and publishing then stops for good
  (`SevenDigitsSortFirst`, `PublishingStopsAtSevenDigits`).
- A merge or delete publishes only while no other is at work; flushes interleave freely. Without that, wherever the
  other one is between its beginning and its publishing, exactly a delete's hits in a merge's sources stay or come
  back, in whichever order they publish (`MergeAfterDelete`, `HitsComeBack`, `DeleteAfterMerge`; between the two
  publishes the second job, flushes and collections go on), and there are none if and only if the delete plans no
  change to a source (`OverlapHarmlessIff`).
- Two deletes do not write the same bitmap. If they do, the first one's hits in common segments stay unless the second
  bitmap covers them (`SecondDeleteOverwrites`, `NothingUndoneIff`). Two merges at once double exactly the live
  documents of common sources (`TwoMergesShow`, `MergesDouble`, `NothingDoubledIff`).
- No segment is uploaded or awaits its manifest between a collection's reading of the manifest and its listing.
  Removing an object is safe if and only if no active segment, uploaded flush or uploaded merge needs it
  (`RemoveSegSafeIff`, `RemoveDelSafeIff`), and a collection at one moment if and only if no upload awaits its manifest
  (`CollectSafeIff`); otherwise a published flush or all sources of a merge are lost (`LateFlushLoses`,
  `PendingFlushLoses`, `LateMergeLoses`). The code declares a grace period in pkg/index/compactor.go:24 and does not
  use it.
- The rest of a query string behind a NOT or a closing parenthesis is ignored: a left-to-right scan with a depth and a
  mode says before parsing whether the string is refused, taken whole or cut, and where (`ScanDecides`,
  `TrailingNotIgnored`).

Where the repository's README speaks of UAX#29 word boundaries, the code splits runs of letters and digits; the model
follows the code. Prefix and phrase queries do not treat the field `_all` specially, and neither does the model.

## Model

| member | source | states |
|---|---|---|
| `WalLog.ScanFrames` | pkg/wal/wal.go:150-195 | scanning the frames of any records followed by any tail gives those records and then what the tail gives |
| `WalLog.ScanSound` | pkg/wal/wal.go:150-195 | whatever the bytes, the accepted part is exactly the frames of the delivered records, each with a matching checksum |
| `WalLog.ReplayIdempotent` | pkg/wal/wal.go:169-178 | replaying a repaired file delivers the same records and truncates nothing |
| `WalLog.ReplayAfterCut` | pkg/wal/wal.go:150-195 | for every cut, replay delivers the records wholly before it; the file is then exactly their encoding if and only if the residue is 0 or at least 8 bytes |
| `WalLog.PrefixRemovedAtBoundary` | pkg/wal/wal.go:237-274 | removing a prefix that ends on a record boundary leaves the encoding of the later records |
| `Wal.WAL.Open` | pkg/wal/wal.go:49-106 | null if and only if opening fails; otherwise a fresh file has the version 2 header, a version 2 file is as it was, an older one is migrated, and the cursor is at the end |
| `Wal.WAL.MigrateV1ToV2` | pkg/wal/wal.go:306-354 | the valid lines become records in their order; if a line is too long the file stays as it was, and if a valid one has no compact form the file keeps its new header |
| `Migration.OpenIdempotent` | pkg/wal/wal.go:82-103 | opening an opened file leaves it as it is: a migrated log is not migrated again |
| `Migration.LinesRead` | pkg/wal/wal.go:311-329 | of a log of one valid document per line, migration keeps exactly those documents |
| `Migration.LinesCleaned` | pkg/wal/wal.go:311-329 | whatever the lines of the older log are, migration fails if and only if one is too long, and otherwise keeps the valid ones without their carriage returns and goes on behind empty and invalid ones |
| `Migration.CompactedEach` | pkg/wal/wal.go:343-347 | record i of the migrated log is the compact form of line i, and there is none if one line has no compact form |
| `Migration.OldLogReplays` | pkg/wal/wal.go:306-354 | the opened older log replays exactly its documents, in compact form |
| `Wal.WAL.Append` | pkg/wal/wal.go:120-136 | a valid document adds one frame of its compact form behind file and buffer; invalid JSON changes nothing |
| `Wal.WAL.Flush` | pkg/wal/wal.go:139-144 | everything buffered is in the file |
| `Wal.WAL.Replay` | pkg/wal/wal.go:150-195 | delivers the valid records of the scan and leaves the repaired file, cursor at its end |
| `Wal.WAL.DiscardBuffer` | pkg/wal/wal.go:198-200 | drops the buffer and nothing of the file |
| `Wal.WAL.Truncate` | pkg/wal/wal.go:203-215 | only the header remains |
| `Wal.WAL.Position` | pkg/wal/wal.go:220-229 | flushes and returns the size of the file |
| `Wal.WAL.TruncatePrefix` | pkg/wal/wal.go:237-274 | removes the bytes between the header and the offset, with its two special cases |
| `Wal.WAL.TruncateToOffset` | pkg/wal/wal.go:293-302 | keeps the bytes before the offset and the cursor at the end |
| `Index.Index.Open` | pkg/index/index.go:60-110 | opening fails exactly when the log does not open; otherwise log and memtable are what replay makes of it, and on the file a crash left that is the state after the crash step |
| `Index.Index.Add` | pkg/index/index.go:113-135 | is the Add step, refused while a flush error is pending; an accepted document is in the log, and a flush is due if and only if the documents held after it reach maxDocs, their bytes maxBytes, or they are old enough; a due flush with none in the air leaves an empty memtable and takes all documents held with the log's offset, and otherwise the document stays in the memtable |
| `Index.Index.AddBatch` | pkg/index/index.go:361-393 | the same for a batch: taken whole and then due under the same condition, or refused with what the documents before the refused one leave in memtable and file |
| `Index.Index.TriggerAsyncFlush` | pkg/index/index.go:204-220 | swaps the memtable for an empty one and records the log offset of the swap |
| `Index.Index.FinishAsyncFlush` | pkg/index/index.go:224-240 | is the Truncate step after success, which removes the log up to the recorded offset, and the Fail step after failure, which keeps the log and leaves the error pending |
| `Index.Index.FlushNowBegin` | pkg/index/index.go:139-164 | is the FlushNow step: it starts if and only if no error is pending and the memtable holds something, and then takes all of it with the log's offset |
| `Index.Index.FlushNowEnd` | pkg/index/index.go:166-176 | is the Truncate step of a synchronous flush |
| `Index.Index.FlushNowFailed` | pkg/index/index.go:166-168 | a failed synchronous flush is the Fail step: nothing is truncated and no error stays pending |
| `Durability.StepKeeps` | pkg/index/index.go:113-240 | every careful step keeps the invariant that ties log bytes, record boundaries, flush offset, snapshot and memtable together |
| `Durability.AcknowledgedIsDurable` | pkg/index/index.go:87-240 | in every state of every careful run each acknowledged document is published or replayable, as often as it was acknowledged |
| `Durability.FlightOffsetSplitsLog` | pkg/index/index.go:204-240 | while a flush is in flight its offset is a record boundary, what replay takes of the records behind it are the memtable's documents in order, and truncating leaves a log that decodes to exactly those records |
| `CalmRuns.MemtableRecordsExact` | pkg/index/index.go:204-240 | in runs whose documents are all accepted the records behind the offset are the memtable's documents themselves |
| `Durability.TruncateSafeIff` | pkg/index/index.go:229-239 | in careful runs without crashes and failed batches, truncating after a flush keeps everything durable if and only if no earlier flush failed with documents |
| `FlushOverlap.FirstCutSafeIff` | pkg/index/index.go:157-170 | in every run in which all documents are accepted and nothing fails, with any number of flushes between snapshot and truncation, the first cut is safe if and only if what earlier flights owe is published again behind it |
| `FlushOverlap.FirstOfTwoCuts` | pkg/index/index.go:157-240 | of two flushes in the air, synchronous or not, the older may cut first; the younger may if and only if the older is published |
| `FlushOverlap.StaleCutSafeIff` | pkg/wal/wal.go:237-274 | a cut beyond the records it is meant for is safe if and only if nothing lies behind them and nothing else is owed, for every checksum |
| `FlushOverlap.NextCutSafeIff` | pkg/index/index.go:157-240 | after a first cut, until another flush starts, the last flight's cut, or any if the last one cut first, is safe if and only if the memtable is empty and no flight owes anything |
| `FlushOverlap.SecondOfTwoCuts` | pkg/index/index.go:157-240 | of two flushes, once one has cut the log the other's cut is safe if and only if the memtable is empty |
| `LossTraces.TruncateAfterFailedFlushLoses` | pkg/index/index.go:229-239 | for any two documents, a failed flush followed by a successful one loses the first |
| `LossTraces.OverlappingFlushesLose` | pkg/index/index.go:157-170 | an Add during FlushNow can start a second flush, after which the stale offset removes unpublished records |
| `LossTraces.EarlyCutLoses` | pkg/index/index.go:157-170 | that second flush can cut the log before FlushNow has published, and FlushNow's document stays lost when it fails |
| `Residues.ReadBehindIff` | pkg/wal/wal.go:150-195 | behind any log and any part of a record, replay reads a record if and only if it is that record again when read from the residue on |
| `Residues.NextAddIff` | pkg/index/index.go:113-135 | in any durable state whose log ends in a part of a record, the next document is durable if and only if its record is so read or a spare copy is held |
| `Residues.AddAfterCrashIff` | pkg/wal/wal.go:161-178 | the same for every careful run that goes on with a crash, wherever it cuts, and a document |
| `Residues.AddAfterSpillIff` | pkg/index/index.go:361-393 | the same for every careful run that goes on with a refused batch, whatever has spilled of it, and a document |
| `Residues.BoundaryIff` | pkg/wal/wal.go:198-200 | a spill ends on a record boundary if and only if it leaves no residue |
| `LossTraces.TornHeaderLoses` | pkg/wal/wal.go:161-164 | a crash that leaves any 1 to 7 bytes of a header loses the next document if the two lengths differ in their lowest byte |
| `LossTraces.SpilledBatchLoses` | pkg/wal/wal.go:198-200 | a refused batch of one large record loses a small document acknowledged after it |
| `Store.MemStore.Put` | internal/testutil/memstore.go:61-73 | with If-None-Match an existing object stays and the PUT fails |
| `Store.MemStore.List` | internal/testutil/memstore.go:82-92 | every key with the prefix, once |
| `Manifest.KeyOrder` | pkg/index/manifest.go:57-59 | up to 999999 keys sort like versions |
| `Manifest.SevenDigitsSortFirst` | pkg/index/manifest.go:71-72 | the key of version 1000000 sorts before that of 999999 |
| `Publishing.VersionsFormAChain` | pkg/index/manifest.go:62-167 | with any interleaving of any number of publishers and any transforms, the stored manifests are versions 1 to n, each one writer's transform of the one before |
| `Publishing.WrittenStaysWritten` | pkg/index/manifest.go:84-111 | a written manifest never changes |
| `Publishing.CallsReportTheTruth` | pkg/index/manifest.go:145-167 | a successful call's change is in the chain exactly once, at the version it returns; a call that gives up saw as many other publishes land as it had retries |
| `Publishing.PublishingStopsAtSevenDigits` | pkg/index/manifest.go:57-82 | once version 1000000 is written no further version is ever written |
| `ManifestStore.ManifestStore.Latest` | pkg/index/manifest.go:62-82 | the newest manifest of the index, or none, whatever other objects the store holds |
| `ManifestStore.ManifestStore.PublishNext` | pkg/index/manifest.go:86-111 | writes version+1 unless it exists |
| `ManifestStore.ManifestStore.PublishTransform` | pkg/index/manifest.go:145-167 | any transform against every schedule of rival publishes succeeds on the first uncontested attempt, on top of all of them, and leaves foreign objects alone |
| `Positions.PositionsRoundTrip` | pkg/postings/postings.go:51-100 | decoding gives back every list of entries, unsorted positions included, by wrapping deltas |
| `Positions.EncodePositions` | pkg/postings/postings.go:51-63 | the encoder's loops write that encoding |
| `Positions.DecodePositions` | pkg/postings/postings.go:66-94 | the decoder's nested loops read it, failures included |
| `Docstore.Writer.Add` | pkg/docstore/docstore.go:39-56 | wherever block boundaries fall, the store holds one more document; a full block is committed at once and no other |
| `Docstore.Writer.FlushBlock` | pkg/docstore/docstore.go:58-75 | the block is committed and the index fix-up changes no entry |
| `Docstore.Writer.Finalize` | pkg/docstore/docstore.go:78-83 | every document is read back through its entry |
| `Docstore.IndexRoundTrip` | pkg/docstore/docstore.go:86-107 | the encoded index decodes to itself |
| `Docstore.GetFinds` | pkg/docstore/docstore.go:124-145 | a length-prefixed document at an entry's offset, below 4 GiB, is what Get returns through its wrapping sums |
| `Docstore.WriteSection` | pkg/segment/writer.go:133-145 | the offset table and the blocks, with running offsets |
| `Docstore.DocBlockRoundTrip` | pkg/segment/reader.go:68-89 | every block is read back through the offset table of a segment that holds the section anywhere |
| `Docstore.DocumentRoundTrip` | pkg/segment/reader.go:68-89 | document i through the encoded index, the table and the block is document i |
| `Hotcache.EncodeHotcache` | pkg/segment/hotcache.go:45-88 | writes the layout |
| `Hotcache.DecodeHotcache` | pkg/segment/hotcache.go:100-171 | reads it field by field; bad magic is an error, and so is short data, on which the code's slices panic |
| `Hotcache.HotcacheRoundTrip` | pkg/segment/hotcache.go:45-171 | a hotcache below 4 GiB decodes to what was encoded, dictionaries loaded |
| `Hotcache.LookupTerm` | pkg/segment/hotcache.go:174-186 | found if and only if the dictionary has the term, once the table covers the dictionary, with the ranges at the term's own number |
| `Accumulator.FieldAccumulator.AddToken` | pkg/segment/writer.go:42-53 | the inverted lists stay exactly those of the token sequences, one token longer |
| `Accumulator.FieldAccumulator.SetDoclen` | pkg/segment/writer.go:56-61 | sets one length, earlier gaps are 0 |
| `Accumulator.OccurrencesExact` | pkg/segment/writer.go:52-52 | a position list is ascending and holds exactly the places of the term |
| `Memtable.AddTokens` | pkg/index/memtable.go:71-77 | the document gets the terms of the tokens in their order, and the recorded lengths stay the token counts of all documents |
| `Terms.EncodeTerm` | pkg/segment/writer.go:104-118 | documents ascending from map order, each with its positions sorted, are encoded |
| `Numbers.InOrderSorts` | pkg/segment/writer.go:110-115 | the sorted list is in order and has every number as often as before |
| `Terms.WriteField` | pkg/segment/writer.go:89-131 | terms strictly ascending, each once, each with its bytes at its recorded ranges |
| `Segment.GroupByField` | pkg/segment/writer.go:190-210 | each field gets exactly its records, in order, with absolute offsets |
| `Build.BuildDictionary` | pkg/segment/writer.go:230-257 | refuses a dictionary if and only if some key does not exceed the one before it |
| `Build.Build` | pkg/segment/writer.go:71-293 | for fields with distinct names, the loaded segment answers for every column, has the token counts of every column as its document lengths next to their mean, and gives back every document |
| `Build.LengthsLoaded` | pkg/segment/writer.go:259-274 | the lengths read back from the hotcache are the token counts of the documents, documents behind the last length having none |
| `Segment.LookupFinds` | pkg/segment/reader.go:43-64 | a lookup finds a term if and only if some document has it, and the two range reads give exactly its documents and positions |
| `Segment.IterateDocs` | pkg/segment/reader.go:93-130 | delivers exactly the documents that are not deleted, in order |
| `Analyze.Tokenize` | pkg/analyze/analyze.go:48-88 | the loop yields the tokens of the reference definition |
| `Analyze.TokensAreWords` | pkg/analyze/analyze.go:48-88 | token k has position k and is the non-empty folding of a maximal run of word characters |
| `Analyze.RunsOrdered` | pkg/analyze/analyze.go:54-75 | the runs come in the order of the text and do not overlap |
| `Analyze.TokensInOrder` | pkg/analyze/analyze.go:54-86 | a token ends before every later one begins in the text |
| `Analyze.WordsAreTokens` | pkg/analyze/analyze.go:48-88 | every maximal run with a non-empty folding is a token |
| `Memtable.Memtable.Add` | pkg/index/memtable.go:48-98 | invalid JSON changes nothing; otherwise every column with its lengths and the document store gain exactly this document, and the byte count its length |
| `Memtable.Memtable.Build` | pkg/index/memtable.go:101-110 | the segment answers for the columns of the documents |
| `Answers.BuiltSegmentAnswers` | pkg/query/exec.go:193-241 | for every query, the answer over a built and reloaded segment is the set of documents whose JSON satisfies it |
| `Meaning.TermAnswers` | pkg/index/memtable.go:57-91 | a term or keyword query on a field is answered by exactly the documents that parse and have the field, with a maximal run of a text that folds to the term or with a keyword that it is in lower case, and by none for a number field |
| `Meaning.AllAnswers` | pkg/query/exec.go:243-300 | on _all, by those that have the term in some field |
| `Meaning.MatchAnswers` | pkg/query/exec.go:193-241 | a match query, by those whose field has every word of the text, which has at least one |
| `Meaning.PrefixAnswers` | pkg/query/exec.go:302-338 | a prefix query, by those whose field has a term that starts with it |
| `Meaning.PhraseAnswers` | pkg/query/exec.go:340-418 | a phrase query, by those with the words one next to the other in the order of the text, no other word between them |
| `Meaning.BoolAnswers` | pkg/query/exec.go:420-493 | a bool query, by those that answer all of Must and Filter, none of MustNot and, where neither Must nor Filter is given, one of Should |
| `Meaning.UnknownField` | pkg/query/exec.go:193-338 | a field that the schema does not name has no answers |
| `Lookup.TermBitmap` | pkg/query/exec.go:243-300 | exactly the documents with the term in the field, or in any field for _all |
| `Lookup.PrefixBitmap` | pkg/query/exec.go:302-338 | exactly the documents with a term that starts with the prefix |
| `Lookup.PrefixesContiguous` | pkg/query/exec.go:309-317 | stopping at the first key without the prefix misses none |
| `Phrase.PhraseMatch` | pkg/query/exec.go:390-418 | the flagged loops with early exit decide whether some start is followed by all further terms |
| `Phrase.FollowsIsContains` | pkg/query/exec.go:390-418 | that is whether the tokens contain the terms contiguously, since the scan fails before its 32-bit sums wrap |
| `Phrase.PhraseBitmap` | pkg/query/exec.go:340-383 | exactly the documents whose field contains the phrase |
| `Eval.EvalBitmap` | pkg/query/exec.go:193-241 | an error if and only if some node is unknown; otherwise a new bitmap of exactly the documents that match |
| `Eval.EvalBool` | pkg/query/exec.go:420-493 | the same for bool nodes, whatever in-place And, Or and AndNot its children go through |
| `Eval.SearchDocIDs` | pkg/query/exec.go:143-167 | the matching documents that are not deleted |
| `Query.BoolSat` | pkg/query/exec.go:420-493 | Must and Filter intersect, Should filters only without them, MustNot subtracts, an empty bool is everything |
| `Parser.ParseQueryString` | pkg/query/parser.go:13-20 | every input gives the grammar's tree or an error; `Spelling.SpelledParses` says what that tree means |
| `Parser.QsParser.ParseOr` | pkg/query/parser.go:48-65 | the grammar's result and cursor, which has advanced within the input |
| `Parser.QsParser.ParseAnd` | pkg/query/parser.go:67-100 | the same, with must clauses extended in place |
| `Parser.QsParser.ParsePrimary` | pkg/query/parser.go:114-133 | the same for a parenthesis or a term |
| `Parser.QsParser.ReadToken` | pkg/query/parser.go:170-205 | a quoted string or the characters up to a blank or parenthesis, never an operator |
| `Scanning.ScanDecides` | pkg/query/parser.go:48-133 | a flat scan of the input with a parenthesis depth and an operand-expected mode decides whether parsing fails, takes everything, or stops, and where: at depth 0 behind an operand at a closing parenthesis or NOT |
| `Scanning.QueryRefusedIff` | pkg/query/parser.go:13-20 | a query string is refused if and only if that scan of the trimmed input is bad |
| `Atoms.AtomParses` | pkg/query/parser.go:135-205 | a word, a prefix with a star or several words in quotes, with or without a field, is read to its end and becomes the match, prefix or phrase on that field or on _all |
| `Atoms.NodeMeans` | pkg/query/parser.go:158-168 | f:w matches where field f has every word of w, f:p* where it has a term that starts with p, and "f:a b" where the terms stand next to each other in it |
| `Spelling.SpelledParses` | pkg/query/parser.go:13-205 | every string that spells an expression over such terms, with or without parentheses, with AND or side by side, OR and NOT in any case and any white space, parses to its end to a tree that matches the documents the expression holds for; NOT binds closest, then AND, then OR, and both group to the left |
| `Spelling.AtomAlone` | pkg/query/parser.go:135-168 | a query string of one term, such as title:hello, is that term |
| `Spelling.TreeMeans` | pkg/query/parser.go:48-112 | AND extended in place, OR and NOT keep the meaning of the expression |
| `Spelling.TrailingNotIgnored` | pkg/query/parser.go:72-88 | e NOT x parses as e |
| `Paging.SegmentTop` | pkg/query/exec.go:60-66 | all hits counted, the scores of the best topK kept |
| `Paging.Search` | pkg/search/search.go:76-118 | the window has min(size, max(0, n - from)) of the n hits, hit i of it has score from + i of all scores sorted descending, and every hit is counted |
| `Paging.BestKept` | pkg/search/search.go:76-106 | the best k of the whole need only the best k of each segment |
| `Paging.WindowIs` | pkg/search/search.go:111-118 | the window of a list is the part from position from on, of at most size elements |
| `Catalog.PlanIsPlanned` | pkg/index/delete.go:78-120 | the plan names exactly the segments with hits, each with old and new deletes together |
| `Conservation.StepKeeps` | pkg/index/compactor.go:124-296 | every careful step keeps the invariant that ties jobs, objects, manifest and a running collection together |
| `Conservation.RemoveSegSafeIff` | pkg/index/compactor.go:282-293 | removing a segment's object keeps the invariant if and only if no active segment, uploaded flush or uploaded merge has its id |
| `Conservation.RemoveDelSafeIff` | pkg/index/compactor.go:282-293 | removing a bitmap keeps it if and only if the bitmap is neither in use nor written for a delete that will publish |
| `Conservation.CollectSafeIff` | pkg/index/compactor.go:261-296 | a whole collection keeps it if and only if no uploaded segment awaits its manifest, deletes in progress notwithstanding |
| `Conservation.OnlyPublishingShows` | pkg/index/compactor.go:154-296 | uploads, bitmap writes, crashes, abandoned jobs and the steps of a collection change nothing visible |
| `Conservation.MergeShows` | pkg/index/compactor.go:181-193 | a published merge replaces the live documents of its sources by what it kept of them, flushes in between untouched |
| `Conservation.DeleteShows` | pkg/index/delete.go:122-154 | a published delete removes exactly the hits in the segments it read, as many as it counted |
| `Conservation.DocumentsConserved` | pkg/index/index.go:259-307 | in every run without an id field, a document is visible as often as published flushes brought it and published deletes did not take it |
| `CatalogAnswers.FoundIsVisible` | pkg/query/exec.go:143-167 | a query finds exactly the visible documents that satisfy it |
| `CatalogAnswers.MergePreservesAnswers` | pkg/index/compactor.go:124-240 | without an id field a merge changes no query's answers |
| `CatalogAnswers.RepeatDeletesNothing` | pkg/index/delete.go:78-124 | with no new documents the same delete counts 0 and plans nothing |
| `CatalogAnswers.HitsAreAnswers` | pkg/index/delete.go:96-101 | a segment's hits are the evaluator's answer without the deleted documents |
| `EarlyCollection.LateFlushLoses` | pkg/index/compactor.go:261-296 | a flush that uploads after a collection read the manifest and publishes before its object is removed: its documents appear and are gone |
| `EarlyCollection.PendingFlushLoses` | pkg/index/compactor.go:261-296 | the same for a flush uploaded before the collection began |
| `EarlyCollection.LateMergeLoses` | pkg/index/compactor.go:261-296 | a merge that uploads in that window loses every live document of its sources |
| `EarlyCollection.RemovalHides` | pkg/index/compactor.go:282-293 | removing a segment's object hides exactly what the segment shows |
| `TwoWriters.DuoStepKeeps` | pkg/index/compactor.go:63-193 | two merges or deletes at the same time keep the invariant for both as long as neither publishes while the other is at work and no bitmap is overwritten |
| `Overlap.MergeAfterDelete` | pkg/index/compactor.go:72-193 | in every run in which a delete publishes while a merge is anywhere between picking and publishing, the merge, which may read and upload after that, replaces what is left of its sources by what it keeps of all they had before |
| `Overlap.HitsComeBack` | pkg/index/compactor.go:72-193 | without an id field exactly the delete's hits in the sources are visible again |
| `Overlap.DeleteAfterMerge` | pkg/index/delete.go:62-147 | in every run in which a merge publishes while a delete is anywhere between reading the manifest and publishing, the delete, which may read and write bitmaps after that, removes its hits except those in the merge's sources |
| `Overlap.OverlapHarmlessIff` | pkg/index/delete.go:75-147 | either way nothing comes back if and only if the delete, whether it has read yet or not, plans no change to a source |
| `Overlap.NothingComesBackIff` | pkg/index/delete.go:78-120 | the hits in segments a merge has read are none if and only if the plan names none of those segments |
| `Overlap.ReadBeforeDelete` | pkg/index/compactor.go:132-147 | what a merge read before a delete published is what is still live of its sources and those hits |
| `SameKind.SecondDeleteOverwrites` | pkg/index/delete.go:126-147 | in every run in which a second delete writes its bitmaps after a first one and both publish, each removes the hits it counted except the first one's in segments the second has planned |
| `SameKind.NothingUndoneIff` | pkg/index/delete.go:126-147 | the first delete has removed all it read if and only if every common bitmap of the second covers its own |
| `SameKind.TwoMergesShow` | pkg/index/compactor.go:124-193 | two merges that publish one after the other put the live documents of common sources into both new segments |
| `SameKind.MergesDouble` | pkg/index/compactor.go:124-193 | without an id field exactly those are doubled |
| `SameKind.NothingDoubledIff` | pkg/index/compactor.go:124-193 | none is doubled if and only if no segment that both have picked shows anything |
| `EndToEnd.NothingVanishes` | pkg/index/index.go:113-307 | in every careful run of ingest and catalog together, acknowledged documents are published or replayable, and the published ones are visible, deleted by query or replaced by a copy with the same id, as often as published |
| `EndToEnd.AcknowledgedIsSomewhere` | pkg/index/index.go:113-307 | each acknowledged document is replayable or, up to JSON whitespace, visible, deleted or replaced |
| `EndToEnd.MergesSelect` | pkg/index/compactor.go:227-239 | merges keep some of the documents they read and invent none |
| `Visibility.IteratedIsLive` | pkg/segment/reader.go:114-128 | what the iteration delivers are the live documents |
| `Dedup.MergeDocs` | pkg/index/compactor.go:132-147 | the loop from the newest segment to the oldest adds the deduplicated documents |
| `Dedup.Reindex` | pkg/index/compactor.go:227-239 | the callback adds a document unless its id was seen |
| `Dedup.FirstOfEachId` | pkg/index/compactor.go:227-239 | every non-empty id occurs once, in its first document; documents without id are all kept |
| `Dedup.SurvivorIsNewest` | pkg/index/compactor.go:125-147 | the survivor is the first live copy in a newest source that holds one |
| `Dedup.NoIdsKeepAll` | pkg/index/compactor.go:229-239 | without an id field everything is kept |
| `Merging.MergeSources` | pkg/index/compactor.go:124-147 | over the built files of the candidates: sorted by creation, read newest first; every id with a live copy remains once, in the first live copy of a newest source, ids without one are absent, and documents without id all remain |
| `Merging.MergeKeepsNewest` | pkg/index/compactor.go:124-147 | that statement for any list of sources, independent of the order they were given in |
| `Files.LiveOf` | pkg/index/compactor.go:201-224 | iterating over a built segment yields the live documents |
| `Files.MatchingDocs` | pkg/index/delete.go:85-101 | evaluating a query on a built segment gives the live documents whose JSON satisfies it, or an error exactly for an unknown node |
| `Merging.NoIdFieldKeepsAll` | pkg/index/compactor.go:229-239 | without an id field a merge keeps every live document, as the conservation of documents assumes |
| `Merging.CandidatesPicked` | pkg/index/compactor.go:72-79 | candidates chosen from the active segments are distinct active segments in whatever order they are read |
| `Compaction.PickMergeCandidates` | pkg/index/compactor.go:84-120 | nothing below four segments; otherwise the whole of a fullest tier of at least four or, if no tier has four, the four smallest |
| `Compaction.SameTierIff` | pkg/index/compactor.go:88-102 | two segments share a tier if and only if for some power of two p both sizes, of which 0 and less count as 1, are at least p and below 2p |
| `Compaction.TierIsWhole` | pkg/index/compactor.go:93-102 | the segments of a tier are exactly the segments given that belong to it, each as often |
| `Compaction.MergeShrinks` | pkg/index/compactor.go:149-193 | merging k segments leaves k - 1 fewer, or k fewer if nothing is left |
| `Compaction.CompactRepeatedly` | pkg/index/compactor.go:63-80 | repeated compaction ends with fewer than four active segments, each round retiring at least three |
| `Maintenance.PlanDelete` | pkg/index/delete.go:75-120 | over the built files of the segments: an error exactly for an unknown node, otherwise the plan, the versions to publish and the number deleted of the catalog's delete step |
| `Maintenance.GC` | pkg/index/compactor.go:261-296 | removes exactly the objects of segments that are not active |
| `Maintenance.GarbageIffInactive` | pkg/index/compactor.go:299-310 | segment, hotcache and delete bitmap are garbage if and only if the segment is inactive |
| `Maintenance.OthersStay` | pkg/index/compactor.go:275-287 | a collection removes no manifest and nothing of another index |
| `Maintenance.IdExtracted` | pkg/index/compactor.go:299-310 | a segment's id is read back from the key of any of its objects |

## Left out

- File locking and fsync failures.
- Hotcache.DecodeHotcache: short data is an error value here; the code's slices panic on it.
- Docstore.Writer.Add: requires the current block to stay below 4 GiB and the block numbers to fit 32 bits.
- A merge that cannot read a delete bitmap logs a warning and goes on without it (pkg/index/compactor.go:215-220); reads succeed here.
- I/O errors of the object store beyond a failed conditional PUT; a range read past the end of an object.
- The S3 client in pkg/store/minio.go, whose If-None-Match is a Stat followed by a Put; the model uses an atomic one.
- A crash in the middle of TruncatePrefix, which rewrites the file in place (pkg/wal/wal.go:257-273); it is one step here.
- BM25 scores (pkg/query/bm25.go, the score maps of pkg/query/exec.go): scores are real numbers given with each hit.
- The footer's layout (pkg/segment/format.go): the segment ends in arbitrary bytes and the docstore offset is passed on.
- The float32 division of the average document length, which is any function of the lengths here; the doclens section of the segment, which is written and not read.
- Spelling.SpelledParses: terms with a quotation mark or parenthesis inside, a colon in front or an operator name at the front, and tabs or line ends between quoted words, are left to the grammar and ReadToken.
- Byte offsets of tokens count characters of the text here, not bytes of its encoding.
- Payloads, documents, blocks and hotcaches of 4 GiB and more, segments of 2^64 bytes, and fields whose token counts pass 2^32; where the code truncates a length the model does too, and the round trips assume that it fits.
- A document range that wraps around in Reader.Get, on which the code's slice panics, is an error here.
- Memtable.Memtable.Add: requires the block and the field values to fit their 32-bit lengths.
- Compaction.CompactRepeatedly: which segments share a tier depends on sizes; the sizes of merged segments are arbitrary.
- Dedup.MergeDocs: the memtable that takes the documents is a list of documents here.
- Overlap.MergeAfterDelete: no third merge or delete starts between the two publishes; the same holds for Overlap.DeleteAfterMerge.
- FlushOverlap.NextCutSafeIff: of three and more overlapping flushes, cuts by a middle flight after an earlier one's are not covered, because the stale offset can fall into a record that is already published.
- Catalog reads a segment's files in one step and its manifest in an earlier one; the .seg and .hotcache uploads of one segment are one step.
- Caching of hotcaches, fetching of sources for hits, HTTP, CLI, authentication, metrics and the request DSL.
