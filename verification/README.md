# AlliDB: a verified model

This project models the parts of AlliDB whose correctness lives in the code rather than in a library: the storage
engine, the vector and graph indexes, the gossip protocol, the hash ring with its quorum coordinator, Merkle
anti-entropy and compaction. Every file is one module; `dafny verify dfyconfig.toml` checks all of them.

How the source is represented:

- Go strings and byte slices are `Prelude.Bytes`, compared byte by byte. Fixed-width integers are written out where
  they are encoded (little-endian fields, the truncation of lengths to 32 bits, 64-bit conversions and their wrap).
- Objects that update their fields are classes (`WAL`, `Memtable`, `Writer`, `StorageService`, `UnifiedEntity`,
  `HNSW`, `Gossip`, `Ring`, `Coordinator`, `GraphCache`). Their methods are proved against functions and relations on
  values, and the theorems are about those.
- Ranging over a Go map picks the keys in an arbitrary order; `sort.Slice` is seen through its contract, so equal
  elements may come out in any order; `sort.Search` is the library's binary search.
- SHA-1, CRC-32, vector distance and the neighbour lookup of the query executor are parameters. Merkle hashes are the
  terms of a free algebra, so "collision-free, with leaves and inner nodes apart" is part of the type and not an
  assumption. Clock readings, random levels and the answers of remote replicas are arguments.

The storage engine (`Storage`, `TableNames`, `StorageTheory`, `StorageRuns`, `StorageService`) is a state machine with
the steps put, flush and crash-and-replay over the bytes of the write-ahead log and the table files. Its main theorem,
`StorageRuns.RunRefinesMap`, says that in every reachable state a range scan is exactly a plain map of last puts, as
long as the flush numbers come in the order of the file names; `StorageOrder.FlushOrderExactly` shows that this is
exactly the condition, `TornPut.TornPutIsAtomic` covers a crash at any byte of a put's log record, and `TornLog`
follows the log after it. It rests on byte-level round trips: entities, edges and chunks (`EntityCodec`, `EdgeCodec`,
`ChunkCodec`, `UnifiedEntity`), log frames and torn tails (`Wal`, `WalTheory`), and table images with their index and
binary search (`SSTableFormat`, `SSTableWriter`, `SSTableReader`, `SSTableRoundTrip`). `Compaction` and
`CompactionVersions` build on the same images. `StorageLaws`, `ByteLaws` and `ByteLayouts` say what scans and bytes
mean to a caller, without the functions that compute them.

The remaining modules stand alone: `Merkle`, `MerkleTheory`, `MerkleRanges` and `Compare`; `Hnsw` (the layer search),
`HnswLinks` (neighbour lists), `HnswOpen` (when searches get through) and `HnswIndex` (insertion and search); `Gossip`
(one member) and `GossipRuns` (a cluster over an unreliable network); `Ring`; `Coordinator`; `GraphCache` (the cache
on values), `GraphRecency` (its eviction order), `GraphCacheObject` (the object) and `Traversal`; `Expansion`.

Where the code differs from what one might expect, the code is modelled and the difference is proved:

- Table names hold a decimal number without padding and are read by name. Of two numbers the shorter sorts first when
  it does not exceed the leading digits of the longer (`TableNames.NameOrder`); at every power of ten the newer table
  sorts before its predecessor (`TableNames.DigitGained`), and scans then return stale entities or miss some
  (`StorageOrder.StaleRun`, `StorageOrder.LostRun`).
- A tenant's scan falls through to an older version of an id that was last put for another tenant, exactly when a
  table holds one (`StorageTheory.ScanExactly`).
- Opening a table panics, rather than fails, exactly when its footer's index end leaves the 64-bit range
  (`SSTableReader.PanicsExactly`, `SSTableReader.PanickingFile`).
- Compaction ranks the versions of an entity by length when its id has at least four bytes or its tenant does not
  change, since then the eight bytes it takes for a timestamp are the same in all of them: it keeps the first of the
  longest, which need not be the last put (`CompactionVersions.SurvivesExactly`, `CompactionVersions.FirstPutKept`).
- A restart continues a torn log file that is not full. From then on replay is faithful if and only if the tear left
  nothing of its record (`TornLog.TornRunExactly`): records behind the torn bytes or in later files may be lost, and
  the torn record may come back in place of a later one (`TornLog.TornRunReplays`, `TornLog.TornRecordRevived`).
- A chunk whose metadata repeats a key re-encodes shorter than the bytes it was decoded from, exactly then
  (`ChunkCodec.ChunkParsed`).
- The leaf preimage joins key and value with a zero byte, so Merkle roots identify maps exactly when no key followed
  by a zero byte is a prefix of another key (`MerkleTheory.RootsIdentifyExactly`).
- A new node is not yet in the snapshot that pruning ranks by, so a full neighbour list refuses it exactly when all
  its members are nearer than the farthest distance (`HnswLinks.PruneExactly`), which a stored vector of another
  dimension is not (`HnswLinks.PruneByDimension`, `HnswLinks.OtherDimensionGivesWay`).
- Adding an id again leaves searches that find something as long as no other node names it above its new level and an
  entry point stays at the top layer (`HnswIndex.HNSW.Add`, `HnswIndex.AddAgain`). An entry point added again with a
  lower level makes every search come back empty, exactly then (`HnswIndex.AddEntryAgain`), and a neighbour added
  again with a lower level may make searches near it do so (`HnswIndex.AddNeighborAgain`).
- Without a majority the divergent ranges are told apart by a textual key only, and are all reported exactly when no
  two share it (`Compare.AllReportedExactly`).
- The third gossip message teaches its receiver nothing about other nodes (`GossipRuns.Ack2TeachesNothing`).
- A read takes a plurality, so overlap of the quorums alone does not make it return the last write; the exact
  condition is `2W + m > 2N` (`Coordinators.ReadsBackIff`). A negative count of replicas or quorum panics
  (`Coordinators.Coordinator.Read`).
- After an eviction the graph cache may keep edges of entities it no longer lists, and removing such an entity does
  not delete them (`GraphCaches.RemovedIff`, `GraphCaches.EvictionLeavesEdge`).

## Model

| member | source | states |
|---|---|---|
| StorageRuns.RunRefinesMap | cmd/allidbd/storage_service.go:47-249 | after every run of puts, flushes and crashes with replay whose flush numbers come in the order of the file names, a range scan returns exactly the last-put entity of every id in the range and nothing else, and no file makes the reader panic |
| StorageRuns.RunScansExactly | cmd/allidbd/storage_service.go:47-249 | after such a run a scan for any tenant is that of the map of last puts if and only if no flush of the run wrote, for the tenant, a last version of an id in range that was last put for another |
| StorageLaws.RunScanMeans | cmd/allidbd/storage_service.go:184-316 | after such a run an entity is in a scan if and only if it was put, has no later put of its id, the id is not below a nonempty start and is below a nonempty end, and the entity has the tenant, if one is given and no id changes its tenant |
| StorageLaws.RunScansPartition | cmd/allidbd/storage_service.go:184-316 | cutting a range at any id cuts its scan into two disjoint ones; an entity at the cut is in the second |
| StorageLaws.ScanStaysWithin | cmd/allidbd/storage_service.go:184-316 | of any store, whatever its files hold, a scan returns nothing below a nonempty start, nothing at or above a nonempty end and nothing of another tenant |
| StorageLaws.UnreadableFilesSkipped | cmd/allidbd/storage_service.go:211-223 | a scan over files of which some do not open is the scan over the others |
| StorageLaws.PutFlushesExactly | cmd/allidbd/storage_service.go:76-85 | after such a run a put writes a table if and only if the estimated sizes of the puts since the last flush, or after a crash of all puts, and its own reach the limit, 64 MB unless a positive one is configured |
| StorageLaws.RestoreStops | cmd/allidbd/main.go:121-148 | a logged payload that does not decode ends the restoring: nothing after it reaches the memtable |
| StorageOrder.FlushOrderExactly | cmd/allidbd/storage_service.go:128-249 | all runs with a given list of flush numbers refine the map of last puts if and only if each number's file name sorts after the names of all before it |
| StorageOrder.StaleRun | cmd/allidbd/storage_service.go:128-249 | for any distinct names of which a later sorts before an earlier there is a run whose scan returns an entity that has been put again since |
| StorageOrder.StaleAtNewDigit | cmd/allidbd/storage_service.go:128-249 | in particular for two flushes numbered one below a power of ten and that power |
| StorageOrder.LostRun | cmd/allidbd/storage_service.go:128-249 | for any list of numbers with a name that repeats there is a run whose scan misses an entity that was put |
| TornPut.TornPutIsAtomic | core/storage/wal/wal.go:220-261 | a crash after any number of bytes of a put's log record, at the end of any such run: the restarted store answers every scan as if the put had completed when the whole record is on disk, and otherwise as if it had not begun |
| TornPut.TornPutRecovers | cmd/allidbd/main.go:114-148 | the same from any good store |
| TornLog.TornRunExactly | core/storage/wal/wal.go:104-261 | after an append torn at any byte, a restart and any further appends, rotations and restarts, replay delivers exactly the entries written, without error, if and only if the tear left no byte of its record; and also the torn one if and only if it left all of them |
| TornLog.TornRunReplays | core/storage/wal/replay.go:16-104 | what replay then delivers: the entries before the torn one, what the torn bytes and the records appended behind them read as, and the records in later files if and only if that reads without error; a file that was full at the restart gets no records behind the tear |
| TornLog.FullFileExactly | core/storage/wal/wal.go:104-261 | when the torn file was full at the restart, all later records are delivered if nothing of the torn one is left, and otherwise none is |
| TornLog.TornRecordRevived | core/storage/wal/wal.go:104-261 | for every checksum: a torn record that ends in the frame of a payload appended after the restart is delivered whole in its place |
| TornLog.FramesThenRest | core/storage/wal/replay.go:16-104 | a file's whole frames are delivered, and then exactly what the remaining bytes read as |
| TornLog.CleanSize | core/storage/wal/replay.go:16-104 | a file that reads without error is exactly as long as the frames of what it delivers |
| StorageRuns.StepKeeps | cmd/allidbd/storage_service.go:47-180 | every put, flush or crash keeps the store invariant: the log holds an encoding of every put in order, the files are the images of sorted tables in name order, and memtable plus files show every id's last put; only a step that writes a table needs a number that sorts last |
| StorageRuns.LogStepKeeps | cmd/allidbd/storage_service.go:47-85 | appending to the log and then to the memtable keeps the invariant for one more put |
| StorageRuns.FlushStepKeeps | cmd/allidbd/storage_service.go:116-180 | moving the memtable to a new table and emptying it keeps the invariant when the flush's number sorts after those of the tables; the only new table carries that number, and an empty memtable needs none |
| StorageRuns.CrashStepKeeps | cmd/allidbd/main.go:114-148 | losing the memtable and rebuilding it from the log keeps the invariant, although rows already flushed are replayed again |
| StorageRuns.RunGood | cmd/allidbd/storage_service.go:47-249 | every state reached with flush numbers in name order is good for some list of tables, each dated by a flush of the run |
| StorageRuns.InOrderIs | cmd/allidbd/storage_service.go:128-160 | the rows of a flush are sorted by entity id, are exactly memtable rows, and the last one of an id is the memtable's last |
| StorageTheory.GoodScan | cmd/allidbd/storage_service.go:184-249 | on a good store a scan is exactly the last puts in range, also for one tenant when no id changes its tenant |
| StorageTheory.ScanExactly | cmd/allidbd/storage_service.go:184-249 | on a good store the scan for any tenant is that of the last puts if and only if no table holds, for the tenant, an id in range that was last put for another |
| TableNames.NameOrder | cmd/allidbd/storage_service.go:128-130 | for all numbers one table name sorts before another if and only if the shorter number does not exceed the leading digits of the longer, or the longer's leading digits are less than the shorter, and equally wide numbers compare as numbers |
| TableNames.DigitGained | cmd/allidbd/storage_service.go:128-130 | the name of every power of ten sorts before that of its predecessor |
| StorageTheory.ScanGoodFile | cmd/allidbd/storage_service.go:205-245 | reading one good table into the result overrides exactly the in-range ids the table holds, with its last row of each |
| ByteLaws.LessMeans | cmd/allidbd/storage_service.go:308-316 | ids are ordered as byte strings: a proper prefix first, otherwise by the first differing byte |
| Services.StorageService.constructor | cmd/allidbd/storage_service.go:37-44 | opening over an existing log and directory is the crash-and-replay step |
| Services.StorageService.PutEntity | cmd/allidbd/storage_service.go:47-85 | an admitted put is the put step (log, memtable, flush when full); a refused one changes nothing and panics only under a failing-hard guard |
| Services.StorageService.FlushMemtable | cmd/allidbd/storage_service.go:116-180 | is the flush step |
| Services.StorageService.RangeScan | cmd/allidbd/storage_service.go:184-249 | returns the scan of the store, memtable first and then files by descending name, keeping what was found first |
| Services.StorageService.RestoreMemtable | cmd/allidbd/main.go:121-148 | the memtable becomes the one rebuilt from the replayed payloads |
| Memtables.Memtable.constructor | core/storage/memtable/memtable.go:43-61 | starts empty; a size limit that is not positive falls back to the default |
| Memtables.Memtable.Put | core/storage/memtable/memtable.go:71-104 | appends the row under its id and adds its size |
| Memtables.Memtable.Reset | core/storage/memtable/memtable.go:131-144 | empties the table and its size |
| Memtables.RowSizeMeans | cmd/allidbd/storage_service.go:411-423 | the estimate is the lengths of id, tenant and all texts, four bytes for every vector component, a hundred for every edge and fifty for every chunk |
| WalTheory.WalRoundTrip | core/storage/wal/replay.go:16-104 | after any appends, rotations and clean reopenings replay delivers exactly the appended payloads, cleanly, if and only if every payload length fits its 32-bit field |
| WalTheory.WalReplays | core/storage/wal/replay.go:16-104 | with a callback that may refuse, replay delivers the appended payloads up to and including the first refusal |
| WalTheory.RunHolds | core/storage/wal/wal.go:104-177 | after every run the files hold the appended payloads in order, every file is at most MaxFileSize long or holds at most one entry, and the current file is the last |
| WalTheory.RunPacks | core/storage/wal/wal.go:104-261 | after every run a file has a successor only if it has reached MaxFileSize or the successor's first record would not have fitted |
| WalTheory.CutFileReplays | core/storage/wal/wal.go:304-333 | a file cut at any byte replays exactly its complete frames, cleanly at a frame boundary and with an error elsewhere |
| WalTheory.TornTailReplays | core/storage/wal/replay.go:16-66 | cutting the last file anywhere leaves replay with the earlier files and the complete frames of the last |
| WalTheory.AppendHolds | core/storage/wal/wal.go:220-261 | one append keeps the file invariant and extends the log by its payload, with or without a rotation |
| WalTheory.ReopenHolds | core/storage/wal/wal.go:104-151 | reopening keeps the invariant and the log |
| WalTheory.FileReplays | core/storage/wal/replay.go:69-104 | a whole file replays the payloads of its frames |
| ByteLaws.EntryParsed | core/storage/wal/wal.go:304-333 | only bytes that are the frame of a payload, with its checksum, are read as a log entry |
| ByteLayouts.FrameLayout | core/storage/wal/wal.go:220-261 | a log record holds the length, the checksum of the data and the data, at offsets 0, 4 and 8 |
| Wal.WAL.constructor | core/storage/wal/wal.go:77-101 | opens the directory as Reopen says |
| Wal.WAL.OpenOrCreateFile | core/storage/wal/wal.go:104-151 | continues the newest file while it is below the limit and otherwise starts the next number |
| Wal.WAL.RotateFile | core/storage/wal/wal.go:154-177 | starts a new empty file under the given number |
| Wal.WAL.WriteEntry | core/storage/wal/wal.go:220-261 | appends one length-and-checksum frame, rotating first when it would not fit |
| Wal.WAL.SortedPaths | core/storage/wal/replay.go:20-40 | lists the files in ascending number however the directory enumerates them |
| Wal.WAL.Replay | core/storage/wal/replay.go:16-66 | delivers file by file what ReplayDir says and stops at the first error |
| Wal.WAL.ReplayOne | core/storage/wal/replay.go:69-104 | delivers the entries of one file up to its end, an error or a refusal |
| SSTableRoundTrip.TableReadsBack | core/storage/sstable/reader.go:28-201 | opening the writer's output for sorted rows gives, for every id, exactly its rows in write order and nothing for absent ids, the sorted distinct ids and the row count; the empty id is never returned |
| SSTableRoundTrip.ImageReadsBack | core/storage/sstable/reader.go:91-201 | the same for any image made of index groups, through the footer, the index and binary search |
| SSTableRoundTrip.IndexLoads | core/storage/sstable/reader.go:70-88 | the index section decodes to exactly the entries written |
| SSTableRoundTrip.ImageGet | core/storage/sstable/reader.go:91-137 | the search finds an id's group and the reader returns its rows and stops at the next id |
| SSTableFormat.RowRoundTrip | core/storage/sstable/reader.go:140-201 | a row reads back from its encoding whatever follows, if and only if its lengths fit their fields |
| ByteLaws.RowParsed | core/storage/sstable/reader.go:140-201 | only bytes that are the encoding of a row, with its checksum, are read as one |
| ByteLayouts.RowLayout | core/storage/sstable/writer.go:66-163 | where type, id, data and checksum of a row stand; the checksum is that of all bytes before it |
| SSTableFormat.FooterRoundTrip | core/storage/sstable/format.go:124-155 | the footer decodes to what was encoded |
| ByteLayouts.FooterLayout | core/storage/sstable/format.go:124-155 | index offset, index size and row count stand at offsets 0, 8 and 16 |
| SSTableFormat.EntryRoundTrip | core/storage/sstable/format.go:158-204 | an index entry decodes to what was encoded, whatever follows, if and only if its id fits |
| ByteLayouts.EntryLayout | core/storage/sstable/format.go:158-204 | where id and offset of an index entry stand |
| SSTableFormat.HeaderAccepted | core/storage/sstable/format.go:54-100 | the written header is accepted |
| SSTableFormat.VersionRoundTrip | core/storage/sstable/format.go:54-100 | the version survives the header |
| ByteLaws.StartMeans | core/storage/sstable/format.go:54-100 | a header is accepted if and only if it has sixteen bytes and starts with 42 54 53 53 01 00 |
| ByteLaws.LittleEndian | core/storage/sstable/writer.go:66-163 | 32-bit integers are written modulo 2^32, least significant byte first |
| ByteLaws.LittleEndian64 | core/storage/sstable/writer.go:166-212 | 64-bit integers are written as their low and then their high half |
| SSTableWriter.Writer.constructor | core/storage/sstable/writer.go:31-39 | starts with nothing written |
| SSTableWriter.Writer.WriteHeader | core/storage/sstable/writer.go:42-63 | emits the header and establishes the writer's invariant |
| SSTableWriter.Writer.WriteRow | core/storage/sstable/writer.go:66-163 | appends one encoded row; offsets, the open index group and the row count stay in step with the rows written |
| SSTableWriter.Writer.WriteIndex | core/storage/sstable/writer.go:166-212 | closes the last group and emits a sorted index and the footer; for sorted rows the output is the table image |
| SSTableReader.Reader.NewReader | core/storage/sstable/reader.go:28-67 | opens, rejects or panics exactly as OpenTable says, including the 64-bit wrap of the footer's offsets |
| SSTableReader.PanicsExactly | core/storage/sstable/reader.go:28-67 | opening panics if and only if size and header pass, the index offset lies in the file and the index size reaches past the 64-bit range |
| SSTableReader.PanickingFile | core/storage/sstable/reader.go:28-67 | a file of forty bytes for which it does |
| ByteLaws.OpensExactly | core/storage/sstable/reader.go:28-88 | a file opens with given index entries if and only if it has forty bytes, starts as a header does, and its footer points within the file at exactly the encodings of those entries |
| ByteLaws.IndexParsed | core/storage/sstable/reader.go:70-88 | an index section that loads consists of exactly the encodings of its entries |
| SSTableReader.Reader.LoadIndexLoop | core/storage/sstable/reader.go:70-88 | decodes index entries up to the end of the section or the first short one |
| SSTableReader.Reader.DecodeIndexEntry | core/storage/sstable/format.go:178-204 | decodes one entry or reports that the data is too short |
| SSTableReader.Reader.Get | core/storage/sstable/reader.go:91-137 | returns the rows of one id as GetRows says |
| SSTableReader.Reader.ReadRowAt | core/storage/sstable/reader.go:140-201 | decodes one row with its bounds and checksum checks |
| SSTableReader.Reader.GetAllEntityIDs | core/storage/sstable/reader.go:238-250 | lists the ids of the index |
| EntityCodec.EntityRoundTrip | core/entity/entity.go:218-508 | an entity decodes from its encoding, whatever order its chunks' metadata was written in and whatever follows, if and only if its lengths fit their fields |
| EntityCodec.EntityParsed | core/entity/entity.go:340-508 | on arbitrary bytes a decoded entity fits its fields |
| EntityCodec.EncodedChunkSize | core/entity/entity.go:470-490 | the re-encoded length of a chunk is what its decoder consumed |
| EntityCodec.EmbeddingRoundTrip | core/entity/entity.go:281-299 | an embedding decodes from its encoding whatever follows |
| ByteLayouts.EntityLayout | core/entity/entity.go:218-337 | where the names, the importance and the times of an entity stand |
| ByteLayouts.EntityLists | core/entity/entity.go:218-337 | where its embeddings, incoming edges, outgoing edges and chunks stand, each list after its length |
| ByteLayouts.EmbeddingLayout | core/entity/entity.go:281-299 | where version, time, length and every component of an embedding stand |
| Entities.UnifiedEntity.constructor | core/entity/entity.go:40-55 | a new entity has its three names, no lists, and equal creation and update times |
| Entities.UnifiedEntity.ToBytes | core/entity/entity.go:218-337 | fills the precomputed buffer exactly with an encoding of the entity |
| Entities.UnifiedEntity.FromBytes | core/entity/entity.go:340-508 | succeeds exactly when the bytes parse and then sets every field to the parsed entity |
| ChunkCodec.ChunkRoundTrip | core/entity/chunk.go:46-180 | a chunk decodes from its encoding, for every enumeration of its metadata, if and only if its lengths fit |
| ChunkCodec.ChunkParsed | core/entity/chunk.go:109-180 | on arbitrary bytes a decoded chunk re-encodes to at most the bytes consumed, and to exactly as many if and only if no metadata key repeats |
| ChunkCodec.LastEntryWins | core/entity/chunk.go:150-180 | a decoded chunk's metadata gives each key the value of its last entry |
| ByteLayouts.ChunkLayout | core/entity/chunk.go:46-106 | where id, text, the number of metadata entries and the entries stand |
| ChunkCodec.TextChunk.ToBytes | core/entity/chunk.go:46-106 | fills the precomputed buffer exactly, enumerating the metadata in some order |
| ChunkCodec.TextChunk.FromBytes | core/entity/chunk.go:109-180 | returns the parsed chunk or fails on short data |
| EdgeCodec.EdgeRoundTrip | core/entity/edge.go:36-145 | an edge decodes from its encoding whatever follows, if and only if its lengths fit |
| EdgeCodec.EdgeParsed | core/entity/edge.go:86-145 | on arbitrary bytes a decoded edge re-encodes to exactly the bytes consumed |
| ByteLayouts.EdgeLayout | core/entity/edge.go:36-83 | where source, target, relation, weight and time stand |
| EdgeCodec.GraphEdge.ToBytes | core/entity/edge.go:36-83 | fills the precomputed buffer exactly |
| EdgeCodec.GraphEdge.FromBytes | core/entity/edge.go:86-145 | returns the parsed edge or fails on short data |
| Compaction.Compact | core/storage/compaction/executor.go:81-200 | no input fails; otherwise the first input that does not open fails it or panics as opening does; otherwise an entity whose rows cannot be read fails it; otherwise the output is the image of the merged rows, for images of sorted tables the image of their merge |
| Compaction.MergedRowsSorted | core/storage/compaction/executor.go:204-253 | whatever bytes the inputs hold, the merged rows are sorted and name only listed ids |
| SSTableReader.RowsCarryID | core/storage/sstable/reader.go:91-137 | whatever bytes a table holds, the rows read for an id carry that id |
| Compaction.StreamMergeAndDeduplicate | core/storage/compaction/executor.go:204-253 | writes the best row of every id in ascending order of ids |
| Compaction.SelectBestRow | core/storage/compaction/executor.go:256-288 | returns the best row, none of none |
| Compaction.BestIsFirstMaximal | core/storage/compaction/executor.go:256-310 | the best row is the first one of maximal timestamp and, among those, of maximal data length |
| ByteLaws.TimeRead | core/storage/compaction/executor.go:291-310 | the first eight data bytes count as a little-endian time if and only if that lies between 2000 and 2100, and otherwise as none |
| ByteLaws.LaterTimeSurvives | core/storage/compaction/executor.go:256-310 | of two rows whose data starts with such a time the later survives, in either order |
| Compaction.BestAppend | core/storage/compaction/executor.go:256-288 | the best of two lists joined is the better of their bests, ties going to the first list |
| Compaction.MergedIs | core/storage/compaction/executor.go:204-253 | the merged rows are sorted, name exactly the inputs' named ids, and hold one row per id: the first best among all its rows, last reader first |
| Compaction.MergeIsMerged | core/storage/compaction/executor.go:204-253 | reading the inputs id by id and selecting gives exactly the merged rows |
| Compaction.CompactedReadsBack | core/storage/compaction/executor.go:81-200 | a compacted table opens and reads back exactly the survivors, with one row per id |
| Compaction.StagedCompaction | core/storage/compaction/executor.go:81-253 | compacting any contiguous block first and then the rest gives the same rows as one pass |
| CompactionVersions.VersionsTie | core/storage/compaction/executor.go:291-310 | all versions of an entity whose id has at least four bytes, or that keeps its tenant, rank with the same timestamp |
| CompactionVersions.SurvivesExactly | core/storage/compaction/executor.go:204-310 | of the versions of such an entity exactly the first of the longest survives, the newest table being read first |
| CompactionVersions.NewestSurvivesExactly | core/storage/compaction/executor.go:204-310 | a version alone in the newest table survives if and only if no version in the older tables is longer |
| CompactionVersions.FirstPutKept | core/storage/compaction/executor.go:204-310 | compacting one table with two equally long versions of an entity keeps the first put |
| Merkle.BuildTree | core/cluster/repair/entropy/merkle.go:50-102 | builds the tree of the sorted keys, independently of the map's enumeration |
| MerkleRanges.TreeRangesTile | core/cluster/repair/entropy/merkle.go:70-90 | a tree has one range for every key, in key order: it ends at the key and starts at the greatest smaller key, where the range before it ends, or at the key itself when it is the least |
| MerkleRanges.TreeSpans | core/cluster/repair/entropy/merkle.go:105-162 | the root's range runs from the least key to the greatest |
| Merkle.BuildTreeFromLeaves | core/cluster/repair/entropy/merkle.go:105-162 | pairs the level, duplicating a last odd node, until one node is left, and counts the levels |
| Merkle.TreeDepth | core/cluster/repair/entropy/merkle.go:50-162 | the recorded depth is the depth of the root, 2^(depth-2) < n <= 2^(depth-1) for n >= 2 keys, and depth 1 and 0 mean one key and none |
| Merkle.BuildDepth | core/cluster/repair/entropy/merkle.go:105-162 | the same for building from any level of leaves |
| MerkleRanges.ThreeLeaves | core/cluster/repair/entropy/merkle.go:105-162 | three leaves are hashed as the pair of the first two with the third paired with itself |
| MerkleTheory.RootIdentifies | core/cluster/repair/entropy/merkle.go:50-162 | with collision-free, leaf/node-separated hashing two maps over zero-separated keys have the same root hash if and only if they are the same map |
| MerkleTheory.RootsIdentifyExactly | core/cluster/repair/entropy/merkle.go:246-252 | roots identify all maps over a key set if and only if no key followed by a zero byte is a prefix of another key |
| MerkleTheory.ZeroFreeSeparated | core/cluster/repair/entropy/merkle.go:246-252 | keys without zero bytes are separated |
| MerkleTheory.RootInjective | core/cluster/repair/entropy/merkle.go:105-162 | levels of distinct equally deep hashes with the same root are the same level, despite last-node duplication |
| MerkleTheory.NoDivergenceIff | core/cluster/repair/entropy/merkle.go:178-243 | no divergent range is found between two built trees if and only if their root hashes are equal |
| MerkleTheory.DivergentRangesAre | core/cluster/repair/entropy/merkle.go:178-243 | for equal key counts the ranges found are, as a set, exactly those of the receiver's leaves that differ by position |
| MerkleTheory.DivergentEndsAre | core/cluster/repair/entropy/merkle.go:178-243 | for equal key sets the range ends are exactly the keys whose values differ |
| MerkleRanges.DivergentRangesMean | core/cluster/repair/entropy/merkle.go:178-243 | for equal key sets a range is found if and only if it ends at a key whose values differ and starts at the greatest smaller key, or at the key itself when it is the least |
| MerkleRanges.EmptyDiffers | core/cluster/repair/entropy/merkle.go:178-195 | against an empty tree all ranges of the other are divergent, whichever compares |
| MerkleTheory.RecollectedRanges | core/cluster/repair/entropy/merkle.go:349-358 | the ranges collected from a received root are, as a set, the ranges of the built tree |
| Compare.FindMajorityTree | core/cluster/repair/entropy/compare.go:149-183 | returns a tree with a strict-majority root if there is one, whatever the map orders, and none otherwise |
| Compare.MajorityUnique | core/cluster/repair/entropy/compare.go:149-183 | there is at most one strict-majority root |
| Compare.MajorityMeans | core/cluster/repair/entropy/compare.go:149-183 | a root is in the majority if and only if the replicas that have it outnumber those that do not |
| Compare.FindDivergent | core/cluster/repair/entropy/compare.go:108-146 | every entry is a divergent range of the one replica it names; every replica's range that differs from the majority tree has exactly one entry under its textual key |
| Compare.FindDivergentRangesOf | core/cluster/repair/entropy/compare.go:108-146 | with a majority, one entry for each textual key of a replica's range that differs from the majority tree, and each names one replica; without, one entry for each textual key of a range of any tree, naming none |
| Compare.AllRangesDivergent | core/cluster/repair/entropy/compare.go:186-211 | every entry is a range of some tree and names no replica; every range's textual key has exactly one entry |
| Compare.AllReportedExactly | core/cluster/repair/entropy/compare.go:186-211 | without a majority exactly the ranges of the trees are reported if and only if no two of them share their textual key |
| Compare.ColonFreeApart | core/cluster/repair/entropy/compare.go:186-211 | range ends without colons share no key |
| Compare.FindCorrectNode | core/cluster/repair/entropy/compare.go:214-233 | returns a replica that holds the correct tree; when none does, some replica, and the empty id when there are none |
| Compare.NamedIffDifferent | core/cluster/repair/entropy/compare.go:108-146 | for trees built from data and colon-free node ids, a replica is named if and only if its root differs from the majority's |
| Compare.ReportedRangesAre | core/cluster/repair/entropy/compare.go:108-146 | and the ranges reported for it are exactly its divergent ranges |
| Hnsw.SearchLayer | core/index/hnsw/hnsw.go:312-395 | terminates; from distinct entry points it returns at most ef distinct nodes in non-decreasing distance, the first no farther than any entry point of the layer and than any of its own neighbours there; an entry point of the layer is missing only when ef nodes no farther are returned; with fewer than ef results all neighbours of the first are among them; every result that is no entry point is a neighbour of a node no farther than any entry point of the layer; in a layer whose lists name only nodes that reach it all results do; without an entry point of the layer nothing is returned |
| Hnsw.ExplorePass | core/index/hnsw/hnsw.go:341-375 | one pass over the candidates visits the neighbours of every candidate tied with the best, or finds something new |
| Hnsw.Visit | core/index/hnsw/hnsw.go:364-373 | a first-seen neighbour joins the candidates when it is nearer than the best or there is room |
| Hnsw.SortAndCut | core/index/hnsw/hnsw.go:377-386 | keeps min(ef, n) candidates in non-decreasing distance, none farther than a dropped one |
| HnswIndex.HNSW.constructor | core/index/hnsw/hnsw.go:71-112 | starts empty and valid, non-positive settings falling back to the defaults |
| HnswIndex.HNSW.Add | core/index/hnsw/hnsw.go:141-281 | for any id: the node takes its vector and level, no other node's changes, the shape of the index is kept and the count grows by one. A new id keeps the index valid: each of the node's layers up to the old top gets the M nearest of a search of the layer, whose nearest member is a local minimum (with all its neighbours while there is room), a list it is linked from gains it or is pruned to M, and no other list changes. In an index open to searches any id gets nonempty lists of nodes that reach their layers, other lists gain only the id and change only at those layers, and the index stays open if and only if the id is new, or is named by no other node above its new level and is not an entry point put below the top layer |
| HnswIndex.HNSW.ConnectLayer | core/index/hnsw/hnsw.go:185-271 | links one layer, leaving all other layers as they were; the selection seeds the next layer |
| HnswIndex.HNSW.Link | core/index/hnsw/hnsw.go:213-260 | appends the neighbour to the new node's list and offers the new node to the neighbour's |
| HnswIndex.HNSW.Offer | core/index/hnsw/hnsw.go:236-259 | a list with room gains the new id at its end; a full one becomes M of its members and the new id of which no dropped one is nearer than a kept one |
| HnswLinks.PruneExactly | core/index/hnsw/hnsw.go:240-258 | a full list refuses the new node, however the sort orders ties, if and only if all its members are strictly nearer than the farthest distance |
| HnswLinks.PruneKeeps | core/index/hnsw/hnsw.go:240-258 | such a list keeps exactly its members |
| HnswLinks.PruneByDimension | core/index/hnsw/distance.go:11-14 | with vectors of other dimensions at the farthest distance, it refuses if and only if all members are published with the dimension of the list's owner |
| HnswLinks.OtherDimensionGivesWay | core/index/hnsw/distance.go:11-14 | otherwise any one member of another dimension may give way to the new node |
| HnswLinks.SelectNeighborsWithDistances | core/index/hnsw/hnsw.go:413-429 | keeps min(M, n) candidates; when their ids differ they stay distinct and none is farther than a dropped one |
| HnswIndex.HNSW.SelectNeighbors | core/index/hnsw/hnsw.go:405-410 | is the prefix of length M or all |
| HnswIndex.HNSW.UpdateDataWithNode | core/index/hnsw/hnsw.go:284-309 | publishes the node and moves the entry point and the top level when asked |
| HnswIndex.HNSW.Descend | core/index/hnsw/hnsw.go:172-182 | in an open index the descent above a layer keeps a nonempty entry whose first node is no farther than the entry point; from an entry point below the top layer, or drawn to a node that does not reach the next layer, it ends with nothing |
| HnswIndex.HNSW.SearchNearest | core/index/hnsw/hnsw.go:433-460 | distinct nodes, nearest first: the k nearest of a search of the bottom layer bounded by ef, or all of it; nothing on an empty index, when the entry point is below the top layer, or when the search is drawn below its layer; an open index panics if and only if k is negative, and with k >= 1 the first result is a local minimum no farther than the entry point, with all its bottom-layer neighbours in the result while there is room; in an index of fewer than ef nodes a missing neighbour is no nearer than any of k results |
| HnswIndex.AddEntryAgain | core/index/hnsw/hnsw.go:141-460 | after the entry point of an open index is added again a search with k >= 1 comes back empty if and only if the new level is below the top layer |
| HnswIndex.AddAgain | core/index/hnsw/hnsw.go:141-460 | after any id of an open index is added again at or above its old level, or at a level above which no other node names it unless it is an entry point put below the top, every search with k >= 1 finds something |
| HnswIndex.AddNeighborAgain | core/index/hnsw/hnsw.go:141-460 | three insertions, the last of a neighbour of the entry point at a lower level, after which searches for any query nearer to that neighbour come back empty |
| HnswIndex.AddOnlyAgain | core/index/hnsw/hnsw.go:141-281 | after the only id is added again the node is its own neighbour |
| HnswOpen.OpenExactly | core/index/hnsw/hnsw.go:141-309 | the exact condition under which an insertion leaves the entry point at the top layer and every list naming only nodes that reach its layer |
| HnswOpen.NotSunk | core/index/hnsw/hnsw.go:141-309 | an id is named at no layer above a level at or above its own |
| HnswLinks.InsertedStep | core/index/hnsw/hnsw.go:185-271 | linking one more layer extends a partial insertion downwards without touching the layers above |
| Gossips.Gossip.constructor | core/cluster/gossip/gossip.go:142-189 | starts at the given generation and heartbeat 0 with no stored states |
| Gossips.Gossip.IncrementHeartbeat | core/cluster/gossip/gossip.go:568-573 | advances the member's own heartbeat by one, which makes its version newer |
| Gossips.Gossip.BuildDigest | core/cluster/gossip/gossip.go:295-320 | lists the member itself first and then every stored endpoint once, in some order |
| Gossips.Gossip.HandleSyn | core/cluster/gossip/gossip.go:348-412 | answers with the stored states that some digest is older than, and with its own state unless the first digest about it is current; learns nothing |
| Gossips.Gossip.HandleAck | core/cluster/gossip/gossip.go:415-446 | takes in the received states and answers the digests that are older |
| Gossips.Gossip.HandleAck2 | core/cluster/gossip/gossip.go:449-456 | takes in the received states |
| Gossips.Gossip.UpdateEndpointState | core/cluster/gossip/gossip.go:459-498 | an entry changes only to a newer version, alive and dated now; an unknown node is stored alive, with that version and date if it is newer than (0, 0), and otherwise with version (0, 0) and date 0 |
| Gossips.Gossip.TakeIn | core/cluster/gossip/gossip.go:420-423 | the order in which received states are taken in does not matter |
| Gossips.Gossip.CheckDeadNodes | core/cluster/gossip/gossip.go:518-539 | an entry changes if and only if it was alive and its last update is longer ago than the timeout, and is then dead; versions and dates stay |
| Gossips.VersionOrder | core/cluster/gossip/gossip.go:459-498 | versions are totally and strictly ordered, by generation first |
| GossipRuns.NeverAhead | core/cluster/gossip/gossip.go:295-498 | in every run over a network that loses, duplicates, reorders and delays, no stored or travelling version of a node is newer than the node's own |
| GossipRuns.StepKeeps | core/cluster/gossip/gossip.go:295-573 | every send, delivery, heartbeat, failure check and restart keeps that bound |
| GossipRuns.RestartOutdates | core/cluster/gossip/gossip.go:142-163 | a restart with a larger generation makes every earlier version of the node, stored or travelling in states or digests, strictly older |
| GossipRuns.NeverRegresses | core/cluster/gossip/gossip.go:459-539 | over any run without a restart of the holder no stored version decreases, and an entry that was dead and is alive again has a strictly newer version |
| GossipRuns.DeadExactly | core/cluster/gossip/gossip.go:518-539 | over any run without a restart of the holder a live entry that keeps its version is dead in the end if and only if the holder checked it later than the timeout after its last update |
| GossipRuns.HeardStaysAlive | core/cluster/gossip/gossip.go:459-539 | a node heard of in a newer version at time t is stored as alive, dated t, and stays so until a still newer version or a check later than the timeout after t |
| GossipRuns.CatchUp | core/cluster/gossip/gossip.go:295-446 | from any state within the bound, so from any reachable one: when A handles B's answer to A's SYN, however late, A is at least as new about B as B itself was when answering, and at least as new as B about every other node of that SYN |
| GossipRuns.AnswerCovers | core/cluster/gossip/gossip.go:348-412 | what an answer leaves out, the SYN's sender already had |
| GossipRuns.AnswerOnlyAsked | core/cluster/gossip/gossip.go:348-412 | an answer carries states only of nodes named in the SYN and of the answering node |
| GossipRuns.AnswerOnlyNewer | core/cluster/gossip/gossip.go:348-412 | and only states newer than some digest, and the answering node's own unless the SYN's first digest about it is as new |
| GossipRuns.UnaskedNotLearned | core/cluster/gossip/gossip.go:348-446 | so handling it leaves what is known of any other node as it was |
| GossipRuns.Ack2TeachesNothing | core/cluster/gossip/gossip.go:425-456 | in every reachable cluster handling an ACK2 changes nothing a member knows about any node but itself |
| Rings.Ring.constructor | core/cluster/ring/ring.go:50-64 | starts empty; non-positive settings fall back to 150 and 3 |
| Rings.Ring.AddNode | core/cluster/ring/ring.go:67-93 | refuses a known node; otherwise the ring becomes the sorted ring of one more node |
| Rings.Ring.RemoveNode | core/cluster/ring/ring.go:96-115 | refuses an unknown node; otherwise its virtual nodes leave and the others keep their order |
| Rings.Ring.GetOwners | core/cluster/ring/ring.go:119-147 | returns the first nodes of the key's clockwise preference order, up to the replication factor |
| Rings.Ring.FindVirtualNode | core/cluster/ring/ring.go:160-172 | finds the start from which the ring reads clockwise, wrapping at the end |
| Rings.Ring.Rebalance | core/cluster/ring/ring.go:265-286 | rebuilds a ring of the same nodes; with distinct hashes exactly the same ring |
| Rings.OwnersComplete | core/cluster/ring/ring.go:119-147 | the owners are min(replication factor, node count) distinct nodes of the ring |
| Rings.PreferenceComplete | core/cluster/ring/ring.go:119-147 | every node appears exactly once in every preference order |
| Rings.RemovalFilters | core/cluster/ring/ring.go:96-147 | removing a node deletes it from the preference order of every position and changes nothing else |
| Rings.RemovalIsMinimal | core/cluster/ring/ring.go:96-147 | a key the removed node did not own keeps its owners; a key it owned loses it and gains at most one, the next in order, at the end |
| Rings.AdditionIsMinimal | core/cluster/ring/ring.go:67-147 | with distinct hashes a joining node is inserted into preference orders and nothing else changes; keys it does not own keep their owners |
| Rings.RingUnique | core/cluster/ring/ring.go:67-93 | with distinct hashes the ring depends only on the set of nodes |
| Rings.RingUniqueExactly | core/cluster/ring/ring.go:67-93 | a set of nodes has a single ring if and only if no two of its virtual nodes share a hash |
| Rings.AddThenRemove | core/cluster/ring/ring.go:67-115 | with distinct hashes adding a node and removing it restores the ring exactly |
| Rings.RemovalRing | core/cluster/ring/ring.go:96-115 | dropping a node's virtual nodes leaves the ring of the other nodes |
| Rings.ClockwiseRotation | core/cluster/ring/ring.go:131-137 | in a sorted ring the clockwise order is the rotation at the first hash not below the key's |
| Rings.FirstOwner | core/cluster/ring/ring.go:119-172 | a key's first owner is the node of the first virtual node at or after its position, or of the very first one when there is none |
| Rings.VirtualNodeCount | core/cluster/ring/ring.go:67-93 | every node of a ring has the configured number of virtual nodes |
| Coordinators.Coordinator.constructor | core/cluster/coordinator.go:90-97 | keeps the ring and the configuration |
| Coordinators.Coordinator.SelectReplicas | core/cluster/coordinator.go:172-186 | panics if and only if ReplicaCount is negative, and otherwise the first min(ReplicaCount, n) of the key's n owners, all different |
| Coordinators.FilterAliveNodes | core/cluster/coordinator.go:189-209 | keeps the live replicas in order, or all without gossip |
| Coordinators.AskedExactly | core/cluster/coordinator.go:189-256 | exactly the replicas that the failure detector lists are asked, each once, and without one all are |
| Coordinators.WaitForQuorum | core/cluster/coordinator.go:259-278 | panics if and only if the quorum is negative; otherwise a prefix of the successful responses, shorter than the quorum exactly when too few succeeded |
| Coordinators.CountsMean | core/cluster/coordinator.go:259-305 | the number of successes is that of the replies without an error, and a value's count that of the replies that carry it |
| Coordinators.MergeReadResponses | core/cluster/coordinator.go:283-320 | a value carried by at least as many responses as any other, if any carries one, whatever the order of the counts |
| Coordinators.FirstValue | core/cluster/coordinator.go:311-317 | the fallback finds a value if there is one |
| Coordinators.Coordinator.ReadWithResponses | core/cluster/coordinator.go:110-138 | panics if and only if ReplicaCount is negative, or there are replicas and ReadQuorum is negative; fails for no replicas, too few alive or too few successes, and otherwise returns every response |
| Coordinators.Coordinator.Read | core/cluster/coordinator.go:100-138 | panics in the same cases; with a reached quorum, a plurality of all responses |
| Coordinators.Coordinator.Write | core/cluster/coordinator.go:141-169 | panics if and only if ReplicaCount is negative, or there are replicas and WriteQuorum is negative; succeeds exactly when there are replicas, enough are alive and enough acknowledge |
| Coordinators.ReadsBackIff | core/cluster/coordinator.go:110-169 | every read hearing m of N replicas, at least W of which hold v, returns v if and only if 2W + m > 2N |
| Coordinators.ReadSeesWrite | core/cluster/coordinator.go:110-169 | after a write acknowledged by W of a key's replicas a read hearing m with 2W + m > 2N returns it, and with R + W > N and m >= R some response carries it, even if the two saw different live replicas |
| Coordinators.PluralityWins | core/cluster/coordinator.go:283-320 | when the strays are too few to outvote v every plurality is v |
| Coordinators.OutvotedRead | core/cluster/coordinator.go:283-320 | otherwise there is a possible read that another value wins or ties |
| GraphCaches.RunOk | core/index/graph/cache.go:57-386 | after any operations on a new cache the LRU list has no duplicates and lists exactly the keys of both maps within the limit; every edge is filed under its own endpoint and was added at some time |
| GraphCaches.ApplyOk | core/index/graph/cache.go:57-386 | every operation keeps that invariant |
| GraphCaches.TouchOk | core/index/graph/cache.go:81-121 | touching restores the invariant for one entity not yet listed, evicting another if the cache is full |
| GraphRecency.RecencyExactly | core/index/graph/cache.go:57-203 | after any run one listed entity stands before another if and only if it was last used later, a use being an answered get or the creation of a list of the entity |
| GraphRecency.EvictsOldest | core/index/graph/cache.go:57-121 | after any run an insertion from a new source into a full cache forgets exactly the lists of the entity with the oldest last use |
| GraphRecency.GetMovesToFront | core/index/graph/cache.go:81-143 | after any run an answered get forgets nothing and makes its entity the most recently used |
| GraphCaches.RunTransposed | core/index/graph/cache.go:57-386 | until the first eviction the two maps are transposes of each other as multisets |
| GraphCaches.AddFits | core/index/graph/cache.go:57-77 | an insertion that needs no eviction extends exactly the two lists of its endpoints |
| GraphCaches.RemovedIff | core/index/graph/cache.go:342-386 | removing an entity leaves no edge touching it if and only if its own lists mirror the lists of the others |
| GraphCaches.RemovedUntilEviction | core/index/graph/cache.go:342-386 | so until the first eviction a removal leaves no edge touching the entity |
| GraphCaches.EvictionLeavesEdge | core/index/graph/cache.go:100-121 | after an eviction it may: a cache of two entities that meets a third keeps an edge of the one it evicted, and removing that one does not delete it |
| GraphCaches.RemoveCounts | core/index/graph/cache.go:342-386 | exactly which copies of an edge a removal deletes from each map |
| GraphCacheObjects.GraphCache.constructor | core/index/graph/cache.go:40-53 | starts empty; a size that is not positive falls back to 10000 |
| GraphCacheObjects.GraphCache.AddEdge | core/index/graph/cache.go:57-77 | is the insertion on cache values and keeps the invariant |
| GraphCacheObjects.GraphCache.TouchEntity | core/index/graph/cache.go:81-96 | moves the entity to the front, or pushes it after evicting when full |
| GraphCacheObjects.GraphCache.EvictLRU | core/index/graph/cache.go:100-121 | forgets the last entity of the list and its lists |
| GraphCacheObjects.GraphCache.GetOutgoingEdges | core/index/graph/cache.go:125-143 | answers with the stored list and changes only the LRU order |
| GraphCacheObjects.GraphCache.GetIncomingEdges | core/index/graph/cache.go:147-165 | answers with the stored list and changes only the LRU order |
| GraphCacheObjects.GraphCache.GetNeighborIDs | core/index/graph/cache.go:169-203 | the other ends of the entity's edges in both maps, each once |
| GraphCacheObjects.GraphCache.RemoveEntity | core/index/graph/cache.go:342-386 | is the removal on cache values, and is clean exactly when the lists were mirrored |
| GraphCacheObjects.GraphCache.Clear | core/index/graph/cache.go:330-339 | empties the cache |
| Traversals.Traverse | core/index/graph/cache.go:209-247 | terminates on every graph; the visitor sees distinct reachable nodes in the order in which the edges of those before them lead there, in non-decreasing hop distance, and all of them unless it refuses |
| Traversals.TraverseDepth | core/index/graph/cache.go:253-293 | terminates on every graph; the visitor sees the nodes in the order of recursive depth-first search, all reachable ones unless it refuses; each is the first unseen target, in edge order, of the latest visited node that has one |
| Traversals.CountsAgree | core/index/graph/cache.go:209-293 | with a visitor that never refuses either traversal counts exactly the reachable nodes |
| Traversals.HeadIsNearest | core/index/graph/cache.go:209-247 | the unvisited head of the queue is at its shortest distance from the start |
| Traversals.ClosedContains | core/index/graph/cache.go:209-293 | a set containing the start and closed under edges contains every reachable node |
| Traversals.AgendaVisit | core/index/graph/cache.go:261-290 | pushing unvisited neighbours in reverse continues the recursive search |
| Expansions.GraphExpansion | core/query/executor.go:180-241 | terminates; every node has a path from a seed along neighbours, without repetition, of at most max(1, MaxGraphHops) edges, ending at it; at most max(distinct seeds, MaxCandidates) nodes and at most a forest of fan-out expandFactor; no node within the hop bound was left with room; neighbours are taken in the order of the lookups and no level is begun before all nodes two levels up got their share |
| Expansions.ExpandItem | core/query/executor.go:212-231 | one dequeued item adds at most expandFactor children and stops only when its neighbours, its share or the total are used up |
| Expansions.Seed | core/query/executor.go:186-200 | the seeds enter the result and the queue, each with its own one-node path |
| Expansions.CountedFits | core/query/executor.go:204-232 | an expansion never raises the bound on what the queue can still add |
| Expansions.TakingStep | core/query/executor.go:225-230 | taking a neighbour keeps every recorded path and claim |
| Prelude.SearchFinds | core/cluster/ring/ring.go:160-172 | binary search finds the point where a predicate switches from false to true |
| Prelude.SortUnique | core/cluster/ring/ring.go:86-89 | a strictly ordered list is the only sorted order of its elements, so an unstable sort has one result |

## Left out

- StorageRuns.RunRefinesMap: assumes non-empty ids, encodings that fit their length fields and files below 2^63 bytes; a tenant-filtered scan also assumes that no id changes its tenant, and StorageRuns.RunScansExactly has the exact condition.
- StorageRuns.CrashStepKeeps: a crash happens between operations or, in TornPut, within the append to the log; a torn table file from a crash in the middle of a flush is not modelled, and after a restart on a torn log only the log is followed, in TornLog.
- StorageOrder.FlushOrderExactly: scans filtered by a tenant are covered only where no id changes its tenant.
- Services.StorageService.PutEntity: entities are stored by value, so a caller changing an entity after putting it is not captured; fsync, the log's writer goroutine and its channel are not modelled, nor is a put during a flush.
- Services.StorageService.RangeScan: I/O errors while listing or reading the directory are not modelled.
- `GetEntity`, `ReplicaRead` and `ReplicaWrite` of the storage service are not part of this model.
- Wal.WAL.Replay: file names are modelled by their numbers; file creation errors and the parsing of other file names are left out.
- SSTableWriter.Writer.WriteRow: the row's stored checksum field and write errors are left out.
- Compaction.Compact: the choice of the output file name, I/O errors and the deletion of inputs are left out.
- Merkle.BuildTree: nil tree pointers and the JSON wire form of a tree are not modelled beyond recollecting its ranges.
- Compare.FindDivergentRangesOf: trees are compared as values rather than by pointer; fetching them and the statistics counters are left out.
- Hnsw.SearchLayer: distances are real numbers, so NaN and rounding are not modelled, nor are settings so large that a slice cannot be allocated; recall is not claimed.
- HnswIndex.HNSW.Add: sequential, so the sharded locks are only an order of updates, and the random level is an argument; of an id that is present the lists are described by which nodes they may name, not by distance or length.
- Gossips.Gossip.HandleAck: application state, callbacks, known-node addresses, removal of nodes and integer overflow are not modelled; one clock reading serves a whole message.
- Coordinators.Coordinator.Read: replicas answer through a function, so timeouts appear as missing replies. Hinted handoff and read repair are left out.
- Expansions.GraphExpansion: path weights, scoring and top-k selection are left out as easier parts of the query.
- Network transports, authentication, configuration, metrics, tracing, AI clients and the unified index are not part of this model.
