# DistDB: durable and shared state

A Dafny model of the parts of DistDB that keep durable and shared state correct,
with proofs. Each module stands for one component:

| module | component |
|---|---|
| `Prelude`, `WalRecords` | small types; transaction records, the record codec and the standard library's searches as a lawful environment |
| `WalLog` | the in-memory log of a stream: appends, merges, batches, reads, convergence |
| `WalFrames` | the file format, its writer and its two readers |
| `WalRewrite` | realignment, compaction, the latest-write timestamp |
| `WalStream`, `WalRuns` | one durable stream as a state machine; whole runs, durability, replicas |
| `WalOrder` | sortedness of the log and the cached timestamp in every state, in sync or not |
| `WalManager` | the stream's calls as imperative code over its fields |
| `LikeIndex` | the two-way key index and LIKE search |
| `ImportWire` | one import request over a connection that may fail at every event; retries and replay |
| `ImportClient`, `ImportRuns` | the import client's batching as a function of the events; what every import keeps |
| `ImportFates` | what becomes of every statement of a dump, read off the events |
| `ImportLosses` | which acknowledged statements a completed import has lost |
| `ImportBatching` | the import client as imperative code over its fields |
| `Coordinator`, `CoordinatorLoop` | staged queries and table locks; the message loop |
| `CoordinatorOutcomes` | routing, staging, begins and locks on the commands and table owners |
| `SnapshotLimits` | snapshot eviction, which drives the coordinator |
| `CatchUp` | catch-up rounds between a source and a follower |
| `InsertSplit`, `InsertGrammar` | scanning and regrouping the tuples of an INSERT; the grammar of what is scanned |
| `Base64` | the base64 codec |

`dafny verify dfyconfig.toml` covers the whole project.

## How the source is read

- Code that changes state step by step is a class or a method with loops
  (`ManagedStream`, `TPHashSet`, `ImportSession`, `CoordinatorWorker`,
  `SnapshotStore`, `Follower`, the decoders, the scanner, the codec). Each such
  method is proved equal to a function of its old state or of its inputs, and
  the laws are proved about those functions.
- `WalRecords.Env` holds what the log takes from elsewhere. The codec (bincode,
  zlib, encryption, under the default payload context) is an encode/decode pair
  with `decode(encode(r)) == r` where `encode` may fail. `binary_search_by_key`
  is any function that returns a matching index, and `partition_point` any
  function that returns the split. Both are functions of the slice, so the same
  search on the same slice lands on the same index. On a slice that is not sorted
  they return some index, and appends and reads are modelled there too.
- A disk write is all or nothing and may fail. A client call is atomic.
- For the import, the network and the server are a sequence of events, one per
  request or reconnection: whether it connects, whether the request arrives, the
  server's verdict, whether the reply comes back, and whether the error is
  retryable. The whole import is a function of the events, and every theorem
  holds for every sequence. `Hears`, `LetThrough`, `LastTry`, `Decided`, `Taints`,
  `Joins` and `Strands` read the fate of a statement off the events alone.
- In `Coordinator` the identifier normalization and the tables a query writes
  are parameters.
- Byte text stays bytes in `WalFrames`, `InsertSplit` and `Base64`. Keys in
  `LikeIndex` are sequences of Unicode characters in code point order, which is
  the byte order of UTF-8.

## Where a promise needs a condition

Each condition below is exact unless it is called sufficient, and a failing case is
proved beside it.

- Durability. From a stream in sync, a call leaves it in sync exactly when the
  call is `WalStream.Safe` (`SyncStep`): the records it writes fit the frame limit,
  a missing file gets its header (or the call rewrites the whole file), and a
  compaction is acknowledged or changes nothing. In sync means that the file is
  byte for byte the image of the log in memory and the cached timestamp its latest
  write. Where the file has its header or can get one, what readers see in memory
  and on disk agrees under exactly the same condition (`AgreementStep`). A file
  left without a header is never in sync even while it and the log are both
  empty, because the next record acknowledged into it is lost
  (`HeaderlessFileLosesNext`). An oversize record is acknowledged and gone after a
  restart (`OversizeRecordIsLost`); so is the first record of a file whose header
  could not be written (`HeaderlessRecordIsLost`); a refused compaction shows the
  compacted log over the old file and the old cached timestamp
  (`RefusedCompactionDiverges`). An acknowledged compaction whose records fit, or
  an acknowledged clear, brings any stream back (`CompactionRecovers`,
  `ClearRecovers`, `RecoveredRunIsDurable`).
- Sorted logs. Reading by id is the linear filter for every cursor exactly on
  sorted logs (`SinceIsFilterOnSorted`). It is sufficient that no compaction of a
  run is refused with a change: then the log stays sorted through restarts,
  oversize records, missing headers and failed writes (`RunIsSorted`; a file
  without a header must also not begin with a frame that reads as one, which takes
  a record of more than five gigabytes). After a compaction refused in a stream in
  sync, the next record that fits and lies above the compacted ids is acknowledged
  behind the old frames, and what a restart finds is sorted exactly when its id is
  not below the old log's last (`RefusedCompactionThenAppend`); otherwise the
  stream holds an unsorted log and some read is not the filter
  (`RefusedCompactionUnsorts`).
- The cached write timestamp is right after a call, in sync or not, exactly when
  the call is no refused compaction that changes the latest write (`CacheStep`,
  `CacheRun`; the failing case is `RefusedCompactionDiverges`).
- Loading a file gives the written records exactly when all of them fit
  (`LoadOfImage`; the failing case is `OversizeRecordIsLost`).
- Compaction leaves no write exactly when no write shares an id with a retained
  record (`CompactionDropsWrites`, `SharedIdWriteIsKept`); with distinct ids none
  does.
- LIKE search equals the filter exactly when no key continues the searched
  prefix or suffix with U+10FFFF (`SearchLikeIsFilter`,
  `OutOfRangeKeyIsMissed`).
- A replayed batch is the connection's transaction exactly when the server
  accepts every replayed statement; one refused as a duplicate is skipped and
  missing from the transaction (`ReplayFate`, `DuplicateReplayExample`). A session
  stays clean of this exactly when no replay on the way to a statement's answer
  has a request rejected (`ExecuteTaint`), in particular when the server rejects
  none of the import's requests (`QuietImport`).
- In a clean session the open batch stays the connection's transaction exactly
  until a statement that is not batchable meets an open batch whose commit is
  finally refused with an error the import skips. The batch then stays open
  without a transaction and the import goes on (`CommitFate`, `StepAlignment`,
  `StrandedBatchExample`).
- A completed import, clean and never stranded, has committed all it acknowledged
  exactly when every batch it closed was committed or empty. It has counted every
  batch exactly when no answer to a batched statement or to a commit was a
  duplicate key, and then nothing is lost (`ImportLosesNothing`,
  `LostStatementExample`). A batch closed uncounted may have been committed all
  the same (`UncountedCommitExample`).

What is proved about the server's commits over a whole dump assumes a clean
session in which no batch is stranded (`ImportIsSound`). A batch may be committed
more than once even then (`RepeatedCommitExample`).

## Model

| member | source | states |
|---|---|---|
| WalLog.InsertedIsSorted | serverlib/src/engine/wal.rs:2056-2067 | a late record put behind every id not above its own keeps the log sorted |
| WalLog.InsertedContents | serverlib/src/engine/wal.rs:2056-2083 | inserting adds the one record and loses none, with multiplicities |
| WalLog.AppendAddsOne | serverlib/src/engine/wal.rs:1989-2096 | whichever path an append takes, on a sorted log or not, the log afterwards holds the old records and the new one |
| WalLog.AppendOnSorted | serverlib/src/engine/wal.rs:1999-2083 | on a sorted log push, duplicate scan and walk together drop a record found at or after the searched index and put any other behind every id not above its own |
| WalLog.AppendAllKeepsSorted | serverlib/src/engine/wal.rs:2191-2248 | merging records one by one keeps a sorted log sorted |
| WalLog.AppendKeepsSorted | serverlib/src/engine/wal.rs:1989-2096 | every append keeps the log sorted by id |
| WalLog.AppendTwice | serverlib/src/engine/wal.rs:2044-2062 | appending a record twice in a row is appending it once, wherever the search lands in a run of equal ids |
| WalLog.BatchIsFold | serverlib/src/engine/wal.rs:2112-2292 | the ordered fast path and the merge path of a batch both give the log of appending its records one by one |
| WalLog.OrderedBatchIsConcatenation | serverlib/src/engine/wal.rs:2134-2189 | appending an increasing batch one by one is concatenation |
| WalLog.DeliveriesSort | serverlib/src/engine/wal.rs:1989-2267 | any deliveries of records with distinct ids leave a strictly sorted log of exactly the old and delivered records |
| WalLog.StrictLogIsUnique | serverlib/src/engine/wal.rs:2054-2062 | a strictly sorted log is determined by the set of its records |
| WalLog.ReplicasConverge | serverlib/src/engine/wal.rs:1989-2267 | two replicas given the same records in any order, repetition and batching hold the same log, even with different searches |
| WalLog.DuplicateAtOrAfter | serverlib/src/engine/wal.rs:1921-1938 | the rightward scan covers the run of equal ids, which on a sorted log finds the record exactly when it occurs at or after the searched index |
| WalLog.InsertPosition | serverlib/src/engine/wal.rs:2056-2062 | the walk stops at the first larger id, which on a sorted log is behind every id not above the key |
| WalLog.SinceIsFilter | serverlib/src/engine/wal.rs:187-189 | on a sorted log the binary-search read is the linear filter on ids |
| WalLog.SinceIsFilterOnSorted | serverlib/src/engine/wal.rs:1072-1099 | the binary-search read is the linear filter for every cursor if and only if the log is sorted, whatever index the search returns otherwise |
| WalLog.KeepAfterMembers | serverlib/src/engine/wal.rs:1072-1099 | the filter keeps exactly the records above the cursor |
| WalLog.SinceKindsIsFilteredRead | serverlib/src/engine/wal.rs:1157-1202 | reading by kinds is the plain read filtered by kind, for any number of kinds |
| WalLog.KeepKindsMembers | serverlib/src/engine/wal.rs:1157-1202 | the filter by kind keeps every occurrence of a record of a listed kind and no other |
| WalLog.KeepKindsConcat | serverlib/src/engine/wal.rs:1157-1202 | and keeps them in order |
| WalFrames.LittleEndianRoundTrip | serverlib/src/engine/wal.rs:1264-1267 | a length survives its little-endian bytes |
| WalFrames.FrameBatch | serverlib/src/engine/wal.rs:2154-2170 | a batch is framed whole, or not at all if one record cannot be encoded |
| WalFrames.FileBytes | serverlib/src/engine/wal.rs:1807-1821 | a rewrite produces the header and every frame, or nothing |
| WalFrames.LoadOfImage | serverlib/src/engine/wal.rs:1483-1553 | loading a written file stops before the first record over the limit, so it gives the written records if and only if every encoding is within the limit |
| WalFrames.LoadStopsAtBadFrame | serverlib/src/engine/wal.rs:1513-1545 | a whole frame that cannot be decoded, or one over the limit, ends the load behind the records before it |
| WalFrames.LoadNeedsHeader | common/src/helpers/format.rs:101-119 | only a file that begins with the magic bytes and the version holds records |
| WalFrames.WholeFramesIsExact | serverlib/src/engine/wal.rs:1523-1534 | the count of whole frames in a cut is the one that fits while one more would not |
| WalFrames.LoadOfCut | serverlib/src/engine/wal.rs:1483-1553 | a file cut anywhere at or past its header loads exactly the records whose frames are whole |
| WalFrames.DecodeFromBytes | serverlib/src/engine/wal.rs:1483-1553 | the slice decoder takes frames while they are whole, within the limit and decodable |
| WalFrames.ByteReader.ReadExact | serverlib/src/engine/wal.rs:1555-1649 | a read returns the next bytes whole or fails |
| WalFrames.DecodeFromReader | serverlib/src/engine/wal.rs:1555-1649 | the reader decoder takes the same frames from where the reader stands |
| WalFrames.LoadFromStream | serverlib/src/engine/wal.rs:1658-1682 | a bad header gives no records, a good one what the frames hold |
| WalFrames.LoadFromPath | serverlib/src/engine/wal.rs:1684-1732 | the same for a file read through a reader |
| WalFrames.ReadersAgree | serverlib/src/engine/wal.rs:1658-1732 | the two readers agree on every byte string |
| WalRewrite.LatestWriteIsLatest | serverlib/src/engine/wal.rs:1422-1442 | the scanned timestamp is the largest of any insert, update or delete, absent when there is none |
| WalRewrite.LatestWriteOfUnion | serverlib/src/engine/wal.rs:1018-1028 | the latest write of a union is the later of the two, which is how the cache is raised |
| WalRewrite.RealignKeepsLinks | serverlib/src/engine/wal.rs:729-761 | with distinct ids, exactly the records that are not ignored remain, in order and with their contents; ids become positions, links between them are kept exactly and links to dropped records cleared |
| WalRewrite.RealignIdempotent | serverlib/src/engine/wal.rs:729-761 | realigning a realigned log changes nothing, for any log |
| WalRewrite.RealignKeepsLatestWrite | serverlib/src/engine/wal.rs:729-778 | realignment does not move the latest write, so the untouched cache stays right |
| WalRewrite.RealignedIsSorted | serverlib/src/engine/wal.rs:768-774 | every realigned id is its position, so the final validation never fails |
| WalRewrite.RefusalMeaning | serverlib/src/engine/wal.rs:749-751 | realignment is refused if and only if there are records and none is live |
| WalRewrite.BuildRemap | serverlib/src/engine/wal.rs:745-747 | the loop maps each surviving id to its last position |
| WalRewrite.RewriteLinks | serverlib/src/engine/wal.rs:753-761 | every record gets its position as id and its links through the map |
| WalRewrite.Realign | serverlib/src/engine/wal.rs:738-761 | the rebuilt vector is the realigned log; refused exactly when there are records and every one is ignored |
| WalRewrite.LastOfIsLast | serverlib/src/engine/wal.rs:1849-1871 | the backward scan finds the last record of its class, or that there is none |
| WalRewrite.FindLatest | serverlib/src/engine/wal.rs:1849-1871 | one backward loop that stops early finds both latest records |
| WalRewrite.CompactionKeepsLatest | serverlib/src/engine/wal.rs:1843-1919 | with distinct ids compaction leaves the latest schema and metadata-or-security records in log order and one truncate marker, numbered by position |
| WalRewrite.CompactionLeaves | serverlib/src/engine/wal.rs:1843-1919 | of a log with distinct ids the last schema change and the last metadata or security change stay, in order, with the references among them, and behind them a truncate record of the caller and time given |
| WalRewrite.CompactionDropsWrites | serverlib/src/engine/wal.rs:1882-1893 | no write remains if and only if none shares an id with a retained record |
| WalRewrite.SharedIdWriteIsKept | serverlib/src/engine/wal.rs:1882-1893 | a write that shares the id of the latest schema record survives compaction |
| WalRewrite.CompactionDropsWritesOfDistinct | serverlib/src/engine/wal.rs:1882-1893 | with distinct ids no write remains |
| WalRewrite.CompactedIsSorted | serverlib/src/engine/wal.rs:1913-1915 | the compacted log is numbered by position, so it is strictly sorted |
| WalRewrite.Mark | serverlib/src/engine/wal.rs:1882-1888 | records without a retained id become ignored and lose link and payload, the others stay |
| WalRewrite.Renumber | serverlib/src/engine/wal.rs:1895-1915 | links to ids not retained are cleared, the marker is appended and every id is its position |
| WalRewrite.Compact | serverlib/src/engine/wal.rs:1843-1919 | the loops compute the compacted log |
| WalStream.RestartRestores | serverlib/src/engine/wal.rs:289-303 | in a synchronized stream a restart or a dropped cache gives back the same log |
| WalStream.AppendIsBatchOfOne | serverlib/src/engine/wal.rs:1989-2096 | a single append does to memory, file and cache what a batch of one does |
| WalStream.BatchSync | serverlib/src/engine/wal.rs:2112-2306 | a batch keeps memory, file and cache in sync exactly under its safety condition, acknowledged or refused |
| WalStream.AppendSync | serverlib/src/engine/wal.rs:1989-2096 | the same for a single append |
| WalStream.CompactionSync | serverlib/src/engine/wal.rs:2325-2348 | the same for a compaction: a refused one breaks agreement unless it changed nothing |
| WalStream.RealignmentSync | serverlib/src/engine/wal.rs:729-778 | the same for a realignment |
| WalStream.SyncStep | serverlib/src/engine/wal.rs:1985-2366 | every call keeps a synchronized stream synchronized if and only if it is safe |
| WalStream.AckStep | serverlib/src/engine/wal.rs:1985-2366 | when each call is acknowledged: an append or batch if and only if it brings nothing new or can be encoded and written, a compaction or realignment if and only if its result can be encoded and written and, for the latter, the log is empty or has a live record |
| WalRuns.RunIsDurable | serverlib/src/engine/wal.rs:439-533 | after every run of safe calls the file decodes to the log in memory, restart and invalidation restore it, it is sorted, and the cached timestamp is its latest write |
| WalRuns.SafeRunStaysInSync | serverlib/src/engine/wal.rs:1985-2366 | a run of safe calls from a stream in sync ends in sync |
| WalRuns.AgreementStep | serverlib/src/engine/wal.rs:1985-2366 | where the file has its header or can get one, a call leaves the decoded file, the log in memory and the cached timestamp in agreement if and only if it is safe |
| WalRuns.CompactionRecovers | serverlib/src/engine/wal.rs:2325-2348 | an acknowledged compaction puts a stream in any state in sync if and only if the records left fit |
| WalRuns.ClearRecovers | serverlib/src/engine/wal.rs:851-899 | an acknowledged clear puts a stream in any state in sync, empty |
| WalRuns.RecoveredRunIsDurable | serverlib/src/engine/wal.rs:2308-2359 | from any state, after such a compaction every run of safe calls is durable again |
| WalRuns.OpenedStreamIsInSync | serverlib/src/engine/wal.rs:477-507 | a header with whole frames, or no file, is a state from which runs may start |
| WalRuns.ClearEffect | serverlib/src/engine/wal.rs:851-899 | clearing empties the log, or leaves it when its write fails |
| WalRuns.DeliveryRun | serverlib/src/engine/wal.rs:1985-2306 | through refusals, restarts and dropped caches the log stays strictly sorted and holds exactly what was acknowledged |
| WalRuns.DurableReplicasConverge | serverlib/src/engine/wal.rs:1985-2306 | two durable replicas that acknowledged the same records hold the same log |
| WalRuns.OversizeRecordIsLost | serverlib/src/engine/wal.rs:1513-1521 | a record over the frame limit is acknowledged and gone after a restart |
| WalRuns.HeaderlessRecordIsLost | serverlib/src/engine/wal.rs:1953-1959 | after a failed header write the first record is acknowledged into a file that loads as empty, for every frame limit under 0x14C425444 |
| WalRuns.HeaderlessFileLosesNext | serverlib/src/engine/wal.rs:1953-1959 | after a first append whose header and frame both fail memory and file agree, yet the next acknowledged record is lost |
| WalRuns.RefusedCompactionDiverges | serverlib/src/engine/wal.rs:2325-2342 | a refused compaction shows a log without writes, a cache with one, and loses the compaction on restart |
| WalOrder.CacheStep | serverlib/src/engine/wal.rs:1018-1028 | from a right cache, in any state of log and file, a call leaves it right if and only if it is no refused compaction that changes the latest write |
| WalOrder.CacheRun | serverlib/src/engine/wal.rs:535-574 | over any run without such a compaction the cached timestamp is the latest write |
| WalOrder.ReadingStops | serverlib/src/engine/wal.rs:1513-1521 | frames behind one over the limit are not read |
| WalOrder.ReloadInOrder | serverlib/src/engine/wal.rs:477-507 | what a reload finds in such a file is sorted, also with oversize frames or without a header |
| WalOrder.ShortFramesSpellNothing | serverlib/src/engine/wal.rs:1264-1267 | a frame under 0x14C425444 bytes does not begin like a header |
| WalOrder.OrderStep | serverlib/src/engine/wal.rs:1985-2366 | any call but a compaction refused with a change keeps the log, and what a reload would find, sorted |
| WalOrder.RunIsSorted | serverlib/src/engine/wal.rs:1072-1099 | over any run without such a compaction the log is sorted, so is what a restart finds, and every read by id is the linear filter |
| WalOrder.SyncedIsOrderly | serverlib/src/engine/wal.rs:439-533 | every stream in sync may start such a run, with a right cache |
| WalOrder.RefusedCompactionThenAppend | serverlib/src/engine/wal.rs:2325-2342 | after a refused compaction a record above the compacted ids is acknowledged behind the old frames, and a restart finds the old log with it, sorted if and only if its id is not below the old last |
| WalOrder.RefusedCompactionUnsorts | serverlib/src/engine/wal.rs:2325-2342 | three calls that bring a stream in sync to an unsorted log on which some read is not the filter |
| WalManager.MergeLate | serverlib/src/engine/wal.rs:2044-2067 | the search, duplicate scan and walk together place a late record as the append law says |
| WalManager.MergeOne | serverlib/src/engine/wal.rs:2214-2248 | one record of a batch is merged as a single append would place it |
| WalManager.ManagedStream.Hydrate | serverlib/src/engine/wal.rs:439-533 | first access loads the file and its latest write; a missing file loads as empty |
| WalManager.ManagedStream.StartWorker | serverlib/src/engine/wal.rs:1951-1959 | starting a worker creates a missing file, headerless when the header write fails |
| WalManager.ManagedStream.RaiseHighWater | serverlib/src/engine/wal.rs:1018-1028 | the cached timestamp only moves forward |
| WalManager.ManagedStream.Append | serverlib/src/engine/wal.rs:1208-1248 | memory, file, cache and acknowledgement of an append, to a sorted log or not, are those of the state machine |
| WalManager.ManagedStream.IsOrdered | serverlib/src/engine/wal.rs:2134-2148 | the ordering test holds exactly for strictly increasing ids above the log's last |
| WalManager.ManagedStream.MergeAll | serverlib/src/engine/wal.rs:2191-2248 | the staged merge is the fold of single appends, and is dirty exactly when it differs from the log |
| WalManager.ManagedStream.AppendBatch | serverlib/src/engine/wal.rs:985-1032 | memory, file, cache and acknowledgement of a batch, to a sorted log or not, are those of the state machine |
| WalManager.ManagedStream.CompactStream | serverlib/src/engine/wal.rs:674-724 | the same for a compaction, whose vector changes before its file |
| WalManager.ManagedStream.RealignStream | serverlib/src/engine/wal.rs:729-778 | memory, file and acknowledgement of a realignment are those of the state machine, whose refusal `WalStream.AckStep` states on the kinds of the records |
| WalManager.ManagedStream.InvalidateCache | serverlib/src/engine/wal.rs:289-303 | the vector and the cached timestamp are dropped, the file kept |
| WalManager.ManagedStream.ClearRecords | serverlib/src/engine/wal.rs:851-899 | worker, vector and cache are dropped and the file reduced to its header if the write succeeds |
| WalManager.ManagedStream.HasWriteAfter | serverlib/src/engine/wal.rs:535-574 | wherever the cache is right, which `WalOrder.CacheRun` gives for all runs but those with a spoiling refused compaction, the answer says whether the log holds an insert, update or delete with a later timestamp |
| WalManager.ManagedStream.ReadSince | serverlib/src/engine/wal.rs:1072-1099 | returns the suffix the search finds, which on a sorted log is exactly the records with larger ids |
| WalManager.ManagedStream.ReadSinceKinds | serverlib/src/engine/wal.rs:1157-1202 | returns what the plain read returns, filtered by kind |
| LikeIndex.LikeMatches | common/src/helpers/tphashset.rs:207-261 | the greedy matcher, remembering only the last `%`, terminates and accepts exactly what the recursive meaning of `%` and `_` accepts |
| LikeIndex.LaterStartIsCovered | common/src/helpers/tphashset.rs:226-231 | once a second `%` is met no earlier choice of the first is worth retrying |
| LikeIndex.PercentChoosesSuffix | common/src/helpers/tphashset.rs:226-231 | a `%` matches exactly when the rest of the pattern matches some suffix |
| LikeIndex.LikePrefix | common/src/helpers/tphashset.rs:129-134 | a plain text and a final `%` accept exactly the keys with that prefix |
| LikeIndex.LikeSuffix | common/src/helpers/tphashset.rs:122-127 | a leading `%` and a plain text accept exactly the keys with that suffix |
| LikeIndex.LikeUnderscores | common/src/helpers/tphashset.rs:219-224 | a pattern of underscores fits exactly the texts of its length |
| LikeIndex.PrefixRange | common/src/helpers/tphashset.rs:166-171 | the scanned range holds all keys with the prefix but those that continue with U+10FFFF |
| LikeIndex.SuffixIsReversedPrefix | common/src/helpers/tphashset.rs:86-93 | ending with a suffix is starting with its reversal, reversed |
| LikeIndex.SearchLikeHits | common/src/helpers/tphashset.rs:108-141 | through all four routes a key is found exactly when it matches and is in range of the scan |
| LikeIndex.SearchLikeIsFilter | common/src/helpers/tphashset.rs:108-141 | for every non-empty pattern the search is the LIKE filter of all keys, with their values, if and only if no key is out of range |
| LikeIndex.OrdinaryKeysAreInRange | common/src/helpers/tphashset.rs:166-171 | only a key with U+10FFFF can be out of range |
| LikeIndex.OutOfRangeKeyIsMissed | common/src/helpers/tphashset.rs:65-74 | a key that LIKE accepts and the search misses |
| LikeIndex.TPHashSet.Insert | common/src/helpers/tphashset.rs:37-41 | sets the value, returns the previous one, and keeps the reverse map exactly the reversals of the keys |
| LikeIndex.TPHashSet.Remove | common/src/helpers/tphashset.rs:150-155 | removes the key from both maps, or nothing when it is missing |
| LikeIndex.TPHashSet.Clear | common/src/helpers/tphashset.rs:157-160 | empties both maps |
| LikeIndex.TPHashSet.GetByReverseKey | common/src/helpers/tphashset.rs:51-55 | looking up a reversed key is looking up the key |
| LikeIndex.TPHashSet.SearchLike | common/src/helpers/tphashset.rs:108-141 | the chosen route computes the search, which is the LIKE filter when no key is out of range |
| LikeIndex.TPHashSet.MatchAll | common/src/helpers/tphashset.rs:136-139 | running the matcher over every key gives the LIKE filter |
| ImportWire.RequestFate | console/src/session_import.rs:146-197 | a request is lost if and only if its event does not connect, arrive and reply; lost, it drops the connection with its transaction; answered, it is what the server says in the transaction it meets |
| ImportWire.RequestRecords | console/src/session_import.rs:146-197 | a request may have committed or run only what it says, even unanswered; an acknowledged commit of a batch or statement outside a transaction has |
| ImportWire.TakenWhole | console/src/session_import.rs:240-245 | what the server takes of a replayed batch is the whole batch if and only if it accepts every statement |
| ImportWire.ReplayAllFate | console/src/session_import.rs:229-247 | the buffered statements go through if and only if each is accepted or refused as a duplicate, and exactly the accepted ones are staged, in order |
| ImportWire.ReplayFate | console/src/session_import.rs:201-251 | a replay succeeds if and only if the events let it through; the transaction is then the batch if and only if every statement was accepted; the session is tainted if and only if a request was rejected before any was lost; nothing is committed or run outside a transaction |
| ImportWire.CleanReplay | console/src/session_import.rs:199-251 | a replay without a rejected request restores the batch |
| ImportWire.ReopenFate | console/src/session_import.rs:135-136 | recovery and replay together: success, transaction, taint and untouched records, from the events |
| ImportWire.ExecuteFate | console/src/session_import.rs:98-143 | the event of the last attempt decides a statement: broken if and only if that attempt is lost, otherwise answered in the transaction it meets there, the live one or what its replay restored |
| ImportWire.ExecuteTaint | console/src/session_import.rs:119-138 | a statement taints the session if and only if one of its replays has a request rejected |
| ImportWire.LastTake | console/src/session_import.rs:135-138 | without such a rejection the last attempt meets the whole batch |
| ImportWire.ExecuteRecords | console/src/session_import.rs:98-143 | in a clean session every retry of a statement or commit of the open batch leaves only whole copies of the batch among the commits, at least one when the commit succeeds, and runs nothing outside the transaction |
| ImportWire.RollbackRecords | console/src/session_import.rs:266-273 | a rollback with all its retries commits and runs nothing |
| ImportWire.OutsideRecords | console/src/session_import.rs:380-396 | outside a batch only the statement itself is run, at least once when acknowledged with no transaction of the dump to take it, and no batch is committed |
| ImportWire.SqlFate | console/src/session_import.rs:107-117 | a statement is acknowledged, or fails with an error, if and only if its last attempt is answered so |
| ImportWire.DmlFate | console/src/session_import.rs:305-333 | in a clean session an acknowledged statement is staged exactly once behind the batch, and a refused one leaves the batch as it is |
| ImportWire.CommitFate | console/src/session_import.rs:344-368 | a commit succeeds, or fails with an error, if and only if its last attempt is answered so; either way no transaction is left |
| ImportWire.BeginFate | console/src/session_import.rs:286-303 | a begin succeeds if and only if its last attempt is accepted and meets no transaction |
| ImportClient.CommitsAreWholeBatches | console/src/session_import.rs:261-264 | in a history of closed batches every commit is the whole of one of them |
| ImportClient.CountedBatchesAreCommitted | console/src/session_import.rs:261-264 | in a history whose counted batches were committed, each of them is among the commits |
| ImportRuns.StepBooks | console/src/session_import.rs:275-398 | whatever the events, the counters stay right; a statement is added to the acknowledged ones if and only if the events acknowledge it into a batch; behind an acknowledged statement no full or aged batch stays open |
| ImportRuns.CommitSound | console/src/session_import.rs:344-368 | in a clean session a commit leaves whole batches among the commits, and is refused with an error if and only if the events refuse it so |
| ImportRuns.RollbackSound | console/src/session_import.rs:266-273 | a rolled-back batch is closed uncounted and everything holds again |
| ImportRuns.DmlSound | console/src/session_import.rs:305-332 | in a clean session an acknowledged statement, or a duplicate that rolls the batch back, keeps batch and transaction equal |
| ImportRuns.StepAlignment | console/src/session_import.rs:275-398 | in a clean session, when the import goes on behind a statement, the open batch is the connection's transaction if and only if the events did not strand it; every commit is a whole batch either way |
| ImportRuns.RunBooks | console/src/import.rs:114-131 | one outcome for each statement reached, only the last of which may end the import, and the acknowledged statements are exactly those the events acknowledge, in order |
| ImportRuns.FinalizeSound | console/src/session_import.rs:400-440 | in a clean session the end keeps whole commits, and a successful end leaves everything closed |
| ImportRuns.ImportBooks | console/src/session_import.rs:45-65 | over a whole dump, whatever the events: the outcomes and acknowledged statements are those of the dump, and a completed import has them all, in order, in closed batches, counted or rolled back |
| ImportRuns.ImportIsSound | console/src/session_import.rs:45-65 | over a whole dump with no replayed request rejected and no batch stranded: every commit is a whole batch in order, every counted batch was committed at least once, and no batchable statement ran outside a transaction while batching was on |
| ImportRuns.QuietImport | console/src/session_import.rs:201-251 | the replays of an import take only its own events, so a server that rejects none of its requests taints nothing |
| ImportRuns.StrandedBatchExample | console/src/session_import.rs:375-378 | events after which the import has gone on with an open batch, a live connection and no transaction behind it |
| ImportRuns.DuplicateReplayExample | console/src/session_import.rs:240-245 | events after which the import has gone on with a transaction that lacks a statement of the open batch |
| ImportRuns.RepeatedCommitExample | console/src/session_import.rs:240-241 | events after which a batch counted once was committed twice, with no request rejected |
| ImportFates.FourAttempts | console/src/session_import.rs:107-139 | a statement is sent at most four times: after three lost attempts the fourth decides |
| ImportFates.GoesOnExactly | console/src/import.rs:249-264 | the import goes on behind a success, a duplicate key, and a missing table if the statement is a DROP TABLE |
| ImportFates.RollbackFate | console/src/session_import.rs:266-273 | in a clean session no transaction is left behind a rollback, even a lost one |
| ImportFates.OpenFate | console/src/session_import.rs:286-303 | a batch is open afterwards if and only if one was or the begin goes through, and batching is turned off if and only if neither is so |
| ImportFates.OtherFate | console/src/session_import.rs:375-398 | a statement that is not batchable is sent behind the commit of an open batch, or at once, and succeeds or fails with an error if and only if its last attempt is answered so; a commit that is refused is the outcome instead |
| ImportFates.BatchableFate | console/src/session_import.rs:284-373 | a batchable statement with batching on, in a session that stays clean: the outcome, whether the batch stays open and with what, and whether it is counted, for every answer to the statement and to the commit due behind it |
| ImportFates.FinalizeFate | console/src/session_import.rs:400-440 | the end succeeds if and only if no batch is open or its commit is accepted or answered with a duplicate key, and counts it only if accepted |
| ImportFates.StepRuns | console/src/session_import.rs:380-396 | in a clean session a statement adds only itself to what ran outside transactions, at least once if it was acknowledged there |
| ImportFates.DumpRuns | console/src/session_import.rs:45-65 | over a dump, clean and never stranded, what ran outside transactions is the dump's own statements in order, every one acknowledged there among them |
| ImportFates.ImportRunsInOrder | console/src/session_import.rs:45-65 | the same for the whole import, whose last commit runs nothing outside a transaction |
| ImportFates.CreateTableExample | console/src/session_import.rs:380-382 | a CREATE TABLE uses an event and runs |
| ImportFates.MissingTableExample | console/src/import.rs:257-261 | a missing table is skipped for DROP TABLE and for nothing else |
| ImportLosses.CommittedIsShorter | console/src/session_import.rs:261-273 | the committed statements are all of the closed batches' statements if and only if every batch was committed or empty |
| ImportLosses.CommittedIsInCommits | console/src/session_import.rs:261-264 | each of them stands in one of the server's commits |
| ImportLosses.StepCounts | console/src/session_import.rs:305-368 | in a clean session a statement closes a batch uncounted if and only if its answer, or that of the commit due behind it, is a duplicate key |
| ImportLosses.ImportLosesNothing | console/src/session_import.rs:45-65 | a completed import, clean and never stranded, has committed exactly what it acknowledged if and only if every closed batch was committed or empty; it has counted all batches if and only if no such duplicate was answered, and then nothing is lost |
| ImportLosses.LostStatementExample | console/src/session_import.rs:309-312 | events after which a completed import has lost a statement it acknowledged |
| ImportLosses.UncountedCommitExample | console/src/session_import.rs:360-363 | events after which a batch is committed and yet not counted |
| ImportBatching.ImportSession.Request | console/src/session_import.rs:146-197 | connection, transaction, records and reply after a request are those of the model |
| ImportBatching.ImportSession.Recover | console/src/session_import.rs:442-455 | a recovered connection has no transaction |
| ImportBatching.ImportSession.Replay | console/src/session_import.rs:201-251 | begin and the loop over the buffered statements carry out the replay |
| ImportBatching.ImportSession.Reopen | console/src/session_import.rs:135-136 | recovery and replay one after the other |
| ImportBatching.ImportSession.Execute | console/src/session_import.rs:98-143 | the retry loop carries out the statement with all its attempts |
| ImportBatching.ImportSession.CloseBatch | console/src/session_import.rs:253-264 | the batch state is reset and a committed batch counted |
| ImportBatching.ImportSession.RollbackBatch | console/src/session_import.rs:266-273 | the rollback's own failure is ignored and the batch closed |
| ImportBatching.ImportSession.CommitBatch | console/src/session_import.rs:344-348 | an acknowledged commit closes and counts the batch, any other leaves it open |
| ImportBatching.ImportSession.OpenBatch | console/src/session_import.rs:286-303 | a batch is opened if none is open, or batching turned off |
| ImportBatching.ImportSession.ExecuteDml | console/src/session_import.rs:305-332 | the statement joins the open batch, or a duplicate rolls it back |
| ImportBatching.ImportSession.CommitIfDue | console/src/session_import.rs:334-368 | a batch that is full or aged is committed, or rolled back as a duplicate |
| ImportBatching.ImportSession.ExecuteWithBatching | console/src/session_import.rs:275-398 | all branches together carry out the step of the model |
| ImportBatching.ImportSession.Finalize | console/src/session_import.rs:400-440 | the last batch is committed, rolled back as a duplicate, or the import fails |
| ImportBatching.ImportSession.RunAll | console/src/import.rs:114-131 | the loop gives the outcomes of the statements in order and stops at the first error that is not skipped |
| ImportBatching.ImportSession.Import | console/src/session_import.rs:45-65 | the new state and the outcomes are those of the dump; completed, every statement was acknowledged or skipped and the acknowledged ones are exactly those the events acknowledge into batches, all in closed batches; if no replayed request is rejected and no batch stranded, all commits are whole batches and no batchable statement ran outside a transaction while batching was on |
| Coordinator.StepKeepsInverse | server/src/core/transaction_coordinator.rs:396-631 | every command keeps the table-to-owner and owner-to-tables maps inverse |
| Coordinator.RunKeepsInverse | server/src/core/transaction_coordinator.rs:396-637 | so they are inverse after every run |
| Coordinator.HoldStep | server/src/core/transaction_coordinator.rs:404-631 | a held lock survives a command if and only if the command is not its owner's rollback, finalize or remote release, and others' queries and lock requests on it are refused |
| Coordinator.LockExcludes | server/src/core/transaction_coordinator.rs:396-637 | from a lock until it is freed, over any run, the lock stays and every query or lock request on the table from another session is refused |
| Coordinator.LocksPassOn | server/src/core/transaction_coordinator.rs:548-558 | after a rollback another session can lock at once what only the rolled-back one held |
| Coordinator.StagedIsAdmitted | server/src/core/transaction_coordinator.rs:487-532 | what a take returns is exactly what the replies admitted since the session began or was restored, in order |
| Coordinator.StagedWorkIsConserved | server/src/core/transaction_coordinator.rs:487-570 | every query that entered a stage is still there, was taken once, or was dropped by its session's end |
| Coordinator.RestoreUndoesTake | server/src/core/transaction_coordinator.rs:525-546 | restoring the taken list after a failed commit gives the state as if neither had happened, locks included, whatever other sessions did in between |
| CoordinatorOutcomes.RouteFate | server/src/core/transaction_coordinator.rs:466-500 | a query is rejected if and only if a table belongs to another session or it cannot be staged in a transaction, run at once if and only if there is no transaction, and staged behind the others otherwise; only staging changes anything |
| CoordinatorOutcomes.StageIsSent | server/src/core/transaction_coordinator.rs:487-532 | over any run that does not end it, a transaction's stage grows by exactly the queries sent that can be staged and found their tables free, in order |
| CoordinatorOutcomes.TakenIsSent | server/src/core/transaction_coordinator.rs:406-532 | from an acknowledged begin on, that is exactly what a commit takes |
| CoordinatorOutcomes.BeginFate | server/src/core/transaction_coordinator.rs:406-460 | a transaction begins if and only if the session has none and, with locks, some table is named and none belongs to another; a refusal changes nothing |
| CoordinatorOutcomes.AnswersAgree | server/src/core/transaction_coordinator.rs:462-558 | the queries about a transaction agree with taking it, a rollback says whether there was one, and staging or restoring is refused accordingly |
| CoordinatorOutcomes.HoldExactly | server/src/core/transaction_coordinator.rs:416-631 | after a command a session holds a table if and only if it held it and the command does not free it, or the command gives it the lock |
| CoordinatorOutcomes.UniqueMembers | server/src/core/transaction_coordinator.rs:328-346 | the normalized list holds exactly the non-empty normal forms of the names |
| CoordinatorOutcomes.UniqueGrows | server/src/core/transaction_coordinator.rs:328-346 | first occurrences keep their places |
| CoordinatorLoop.NormalizeUnique | server/src/core/transaction_coordinator.rs:328-346 | the distinct non-empty normalized names in order of first occurrence |
| CoordinatorLoop.CoordinatorWorker.AnyLockedByOther | server/src/core/transaction_coordinator.rs:474-478 | holds exactly when some listed table belongs to another session |
| CoordinatorLoop.CoordinatorWorker.BeginWithTableLocks | server/src/core/transaction_coordinator.rs:416-460 | the new maps and the reply are those of the command |
| CoordinatorLoop.CoordinatorWorker.Grant | server/src/core/transaction_coordinator.rs:578-592 | locks exactly the listed tables no other session holds |
| CoordinatorLoop.CoordinatorWorker.ReleaseSessionLocks | server/src/core/transaction_coordinator.rs:375-394 | removes all and only the session's locks, in whatever order they are visited |
| CoordinatorLoop.CoordinatorWorker.ReleaseTables | server/src/core/transaction_coordinator.rs:614-628 | removes the session's locks on the listed tables, and its entry when none is left |
| CoordinatorLoop.CoordinatorWorker.Route | server/src/core/transaction_coordinator.rs:466-500 | the new stage and the decision are those of the command, which `CoordinatorOutcomes.RouteFate` states on the table owners and the stage |
| CoordinatorLoop.CoordinatorWorker.Rollback | server/src/core/transaction_coordinator.rs:548-558 | the new maps and the reply are those of the command |
| CoordinatorLoop.CoordinatorWorker.ApplyRemoteLocks | server/src/core/transaction_coordinator.rs:572-595 | the new maps are those of the command: remote locks never steal a table |
| CoordinatorLoop.CoordinatorWorker.ReleaseRemoteLocks | server/src/core/transaction_coordinator.rs:597-631 | the new maps are those of the command; an empty list releases everything |
| CoordinatorLoop.CoordinatorWorker.Handle | server/src/core/transaction_coordinator.rs:404-633 | each command's maps and reply are those of the state machine, pinned for every command in `CoordinatorOutcomes` |
| CoordinatorLoop.CoordinatorWorker.HandleAll | server/src/core/transaction_coordinator.rs:396-637 | the loop carries out the run of the commands, reply by reply |
| SnapshotLimits.EvictionBounds | server/src/core/app/state.rs:95-130 | afterwards at most the limit of snapshots remain, none is past its time, and no evicted session began later than a surviving one when every snapshot has a begin time |
| SnapshotLimits.EvictedExactly | server/src/core/app/state.rs:84-130 | a session is evicted if and only if there is a snapshot and it began at least the time limit ago, or it is a snapshot with at least the limit of snapshots behind it in age order |
| SnapshotLimits.OverflowIsMinimal | server/src/core/app/state.rs:108-130 | with no snapshot past its time exactly the smaller of their number and the limit remain |
| SnapshotLimits.AllRolledBackEffect | server/src/core/app/state.rs:136-141 | exactly the evicted sessions lose their staged queries and locks |
| SnapshotLimits.SnapshotStore.FindExpired | server/src/core/app/state.rs:97-106 | finds exactly the sessions whose age has reached the limit |
| SnapshotLimits.SnapshotStore.AddOverflow | server/src/core/app/state.rs:124-130 | the oldest sessions join those already found |
| SnapshotLimits.SnapshotStore.FindEvicted | server/src/core/app/state.rs:84-134 | finds exactly the expired sessions and the oldest above the limit |
| SnapshotLimits.SnapshotStore.RemoveAll | server/src/core/app/state.rs:136-141 | the listed sessions leave all maps and the coordinator, in whatever order; all others keep everything |
| SnapshotLimits.SnapshotStore.EnforceLimits | server/src/core/app/state.rs:82-152 | exactly the sessions past their time and the oldest above the limit leave all three maps and hold nothing in the coordinator; everyone else's work and locks are untouched |
| CatchUp.ImportAllEffect | server/src/core/app/control/wal.rs:341-393 | importing source frames in any order, with repeats, adds exactly their records in id order |
| CatchUp.MaxSeenIsLargest | server/src/core/control/replication_sync.rs:533-542 | the cursors hold, for exactly the streams received, the id of a received record that no received id of the stream exceeds |
| CatchUp.ImportedRoundCatchesUp | server/src/core/control/replication_sync.rs:444-573 | a round imported whole leaves the follower with the source's logs, although cursors may be stale or forgotten |
| CatchUp.NothingTwice | server/src/core/control/replication_sync.rs:533-573 | in the poll after a completed round the source exports nothing of the streams received in it, and nothing at all if everything had been asked for |
| CatchUp.EventKeepsInv | server/src/core/control/replication_sync.rs:99-116 | source growth, lost, failed and completed rounds and restarts of the follower all keep every source record up to every stored or sent cursor in the follower's log |
| CatchUp.CatchUpIsSound | server/src/core/control/replication_sync.rs:257-289 | over every run from any follower that holds part of the source and no cursor, restarts included, the cursors never pass a missing record, and every completed round leaves equal logs |
| CatchUp.Follower.Collect | server/src/core/control/replication_sync.rs:471-552 | gathers all answers in order, with the largest id of each stream received and of no other |
| CatchUp.Follower.CollectOne | server/src/core/control/replication_sync.rs:529-551 | one answer is added in order and raises the largest ids |
| CatchUp.Follower.KnownIds | server/src/core/app/control/wal.rs:358-369 | the collected ids are exactly those in the stream |
| CatchUp.Follower.ImportNew | server/src/core/app/control/wal.rs:375-380 | an unknown record is appended to its stream only, and the known ids plus its own are again the ids of the stream |
| CatchUp.Follower.ImportRecords | server/src/core/app/control/wal.rs:341-393 | imports everything, skipping known ids, if and only if the log does not refuse the append of an unknown record; otherwise exactly the frames before that one |
| CatchUp.Follower.CatchUpRound | server/src/core/control/replication_sync.rs:444-573 | a round succeeds if and only if no append is refused; it imports everything or the frames before the refused one, replaces the cursors, by the largest ids received, only after a complete, non-empty import, and so is the event of the run model |
| InsertSplit.ScannedAreTuples | console/src/import.rs:466-535 | everything the scanner returns is a balanced parenthesised text with its quotes and escapes closed |
| InsertSplit.ScanGapAndTuple | console/src/import.rs:466-535 | text between tuples is passed over and a tuple is taken whole, so the scanner finds exactly the tuples between gaps |
| InsertSplit.RescanJoined | console/src/import.rs:369-373 | rescanning tuples joined by commas gives them back, whatever is quoted, escaped or nested in them |
| InsertGrammar.TuplesAreGroups | console/src/import.rs:466-535 | a text is a tuple if and only if the grammar makes it one: parentheses around groups, quotations and plain bytes, where a backslash in single or double quotes takes the next byte with it and backticks know no escapes |
| InsertGrammar.ScanMeaning | console/src/import.rs:466-535 | for every text: a group at the front is taken as a tuple, a quotation or a byte that opens nothing is passed over, and where a quotation or parenthesis opens that never closes there are no more tuples |
| InsertGrammar.QuotationsExample | console/src/import.rs:489-512 | an escaped quote, a parenthesis in double quotes and one in backticks, in bytes |
| InsertSplit.JoinSnoc | console/src/import.rs:369-372 | tuples are joined by single commas |
| InsertSplit.ChunksMeaning | console/src/import.rs:355-367 | each statement is the prefix and its tuples, several only within both limits, and is followed by another only when one more tuple would have broken a limit |
| InsertSplit.ExtractTuples | console/src/import.rs:466-535 | the loop over quote, escape and depth flags computes the scan, whose meaning for every text is `InsertGrammar.ScanMeaning` |
| InsertSplit.SplitInsert | console/src/import.rs:345-381 | the emitted statements carry the scanned tuples in order and once each, up to a refusal, as many in each as the limits allow; a statement with at most one tuple is emitted unchanged |
| InsertSplit.Regroup | console/src/import.rs:350-378 | each statement holds 1 to the maximum of tuples, stays within the byte limit unless it holds one, rescans to its own tuples, and is closed only when its next tuple would not fit |
| Base64.BuildDecodeTable | common/src/helpers/base64.rs:49-70 | the table gives each letter of either alphabet its value and every other byte the invalid mark |
| Base64.AlphabetIsStandard | common/src/helpers/base64.rs:6 | the 64 letters by value, the two of section 5, and the padding character |
| Base64.GroupKeepsBits | common/src/helpers/base64.rs:12-43 | a group and its sextets are the same number, most significant first; short groups are filled with zero bits |
| Base64.EncodingExamples | common/src/helpers/base64.rs:4-45 | the first vectors of section 10 of RFC 4648 |
| Base64.DecodeOfEncode | common/src/helpers/base64.rs:84-146 | decoding an encoding gives the bytes back |
| Base64.EncodedShape | common/src/helpers/base64.rs:4-45 | an encoding has ceil(4n/3) letters, never a length of 1 modulo 4, and no padding |
| Base64.RoundTrip | common/src/helpers/base64.rs:84-146 | with zero, one or two padding characters added the bytes come back; with more nothing does |
| Base64.Acceptance | common/src/helpers/base64.rs:84-146 | exactly letters of a possible length with at most two padding characters are accepted |
| Base64.UrlSafeDecodesAlike | common/src/helpers/base64.rs:65-68 | the section 5 spelling decodes like the section 4 one |
| Base64.EncodeBytes | common/src/helpers/base64.rs:4-45 | the loop computes the encoding |
| Base64.DecodeGroups | common/src/helpers/base64.rs:84-146 | groups of four and the remainder, looked up in the decode table, give the decoding of a body |
| Base64.DecodeText | common/src/helpers/base64.rs:84-146 | padding loop, refusals and table lookups give the decoding |

## Left out

- Interleaving inside hydration, where an empty vector is published before it is filled: calls are atomic here.
- Partial disk writes, sync failures and torn file tails that are appended to: writes are all or nothing and runs start from whole frames.
- Ephemeral streams, in-memory managers, mode changes and `delete_stream`: they only add members without a file.
- Payload contexts other than the default one, and what is inside the codec.
- Ids and timestamps are unbounded naturals: they are only compared, or set to a position.
- References after compaction: kept ids change while kept references do not, so nothing is claimed about them.
- Late re-delivery of a record when several different records share its id: the scan looks only rightward.
- `TPHashSet` case-insensitive searches and the order of search results, and LIKE on the empty pattern, which returns everything.
- Import: a commit that the server carries out only after the client has replayed and moved on; transactions that the server evicts while their connection lives.
- Import: error texts of the transport or of a replay that happen to contain a skippable phrase; such an error always ends the import here.
- Import: timing counters and statement classification by prefix are inputs (`Statement`, `aged`).
- `Coordinator`: queries staged before another session takes a lock, and `Stage`, which checks no locks, are in the state machine but no exclusion is claimed for them.
- Transactions without a snapshot: eviction does nothing while no snapshot exists, as the model does too, and the time limit is claimed for snapshots only.
- The affinity lock around an import and the rebuilding of catalogs and indexes behind it.
- Catch-up from several writers with interleaving ids, frames that fail to decode, and a source that grows between two answers of the same round.
- `InsertSplit`: finding the VALUES keyword, the INSERT IGNORE rewrite, text behind the last tuple, and whitespace beyond ASCII in trimming, which no tuple begins or ends with.
- SQL parsing and execution, catalogs, TLS, sockets, peer discovery, console output: plumbing or foreign code.
