# IngoDB, modelled and proved

IngoDB is a single-node document store built as a log-structured merge tree. Documents are written to a log and a
memtable, flushed to immutable sorted tables, and merged by compaction; every write creates a new version, and
snapshots read the past. This project models that machinery in Dafny and proves that the layers answer every read as
a plain map from id to versioned document would. One view connects all layers: `Visible(blobs, id, s)`, the highest
version of `id` that is not above `s`.

## How the model is laid out

| module | models |
|---|---|
| Prelude, Bytes, Sorting | options and results, integers as bytes, byte-lexicographic order, the stable sort |
| Values, Blobs, Codec, IBlobs, Integrity | value encoding, documents, the document layout with its hash-sorted index, the caching document object, the single-field extractor, and what the content hash protects |
| Views, Merging | the view, first-match reads, the merge sort with dedup, the snapshot-aware dedup |
| Compaction, Tables | levels, overlap groups, picking; lists of tables, their read order, and what a merge does to it |
| Lsm, Refinement, Recovery, Runs | the engine as a state machine over values, the bytes of its log file included, its invariant, restart and crashes, all runs |
| Placement, Progress, Limits, Copies | level conditions a caller can check, termination of compaction, exact limits with runs that break a promise, and that no run stores a blob twice |
| Draining, Background | the engine with a background thread: a queue of memtables of any length, which tables draining it leaves, exactly when reads stay right, and all runs of writers and coordinator |
| Snapshots | which snapshots are open, and what one reads over a whole run |
| MemTables, Engine | the same steps on objects updated in place; each method is proved equal to its step |
| Wal | the log file and recovery of what is whole |
| Bloom, TableFormat, TableWriter, TableReader, TableFiles, TableLookups, VersionLookups | table files: filter, blocks, index, footer; writing, opening, iteration, lookups, range scans |
| Formats | what the formats are in bytes, and what their tags and checksums catch |
| DiskLookups | the engine's lookup with its tables read from their files |
| Numbers, Queries, QueryMeaning, Keys | number order, filters and comparison, what they mean without the comparator, order-preserving keys |
| Scans, SortedScans, SecondaryIndex, StaleEntries, IndexFiles, Traversal | the full scan and what it returns, index scans over fresh and over stale entries, index files, traversal by join |

Code that updates things in place is a class or a method with loops, proved against a function; what is promised is
proved about the functions as lemmas. Several sizes and outside functions are parameters, so the results hold for all of
them: encoded sizes and file sizes (`Config`), and hash, checksum, text check and compression (`Env`). Compression is
assumed to be undone by decompression only where a table is read back (`Lossless`).

## Hypotheses

The code does not give these properties without them.

- Steps do not overlap: an operation of a user, a drain of the queue and a compaction each happen as one step. Without
  the background thread they come one inside the other (`StoreIsMap`), with it in any order, one job at a time
  (`BackgroundStoreIsMap`). Versions come from a strictly increasing clock, as version-7 UUIDs do (section 5.7 of RFC
  9562); the clock has not run out.
- W does not change, and a level is the integer floor-logarithm of the file size.
- Placement: a flushed table is not placed above a table it shares a document with, and a compaction output is placed above
  the newer and not above the older tables it shares a document with. Landing on level 0, and on the level of the inputs or
  the next, is enough (`LevelledStoreIsMap`); so is landing on level 0 and merging at most fanout-many tables into a file
  no larger than they are together and not below their level (`ModestStoreIsMap`). The conditions are exact in every
  reachable state, for a flush already as to latest reads: `ReachableFlushIff`, `ReachableFlushLatestIff`,
  `ReachableCompactionIff`. With the background thread, a drained queue must have each of its tables placed so, and of
  two that share a document the newer on a strictly lower level; that is exact too (`ReachableDrainIff`).
- The data directory holds primary tables only: `open` loads every `.sst` file, index files included
  (crates/ingodb-lsm/src/lib.rs:264-285). File names are numbers of at most twelve digits, so they sort as numbers.
- The swap of inputs for output in a compaction is one step.
- Lengths, counts and offsets fit the fields they are written to (`Encodable`, `Loggable`, `Fits`).

## Where code and documentation disagree

The model follows the code.

- docs/mvcc.md:48-54 and crates/ingodb-lsm/src/lib.rs:174-177 promise that versions an open snapshot needs are retained.
  Compaction keeps the newest version and those not below the oldest snapshot; the version such a snapshot actually sees
  is usually below it and is dropped (`SnapshotReadLost`; exactly when: `MergedView`, `CompactionSnapshotView`,
  and over a whole run `RunSnapshotIff`).
- docs/compaction.md:39-46 and crates/ingodb-lsm/src/lib.rs:1692-1695 state the read order as a guarantee. Nothing in the code
  enforces it: a flushed table whose size reaches the next level is read after older ones (`LargeFlushReadsStale`).
- `open` deletes the log after replaying it, so a second restart before a flush forgets the replayed writes
  (`SecondRestartForgets`). It keeps a log that gave no record and appends behind it: an empty log, or one that gave a
  record, starts clean (`OpenStartsClean`), while a torn first record hides whatever is appended into its missing part
  (`AppendBehindTornIff`, `RestartBehindTornRecord`), and with its header whole it hides everything, checksum collisions
  aside (`NothingBehindHeader`).
- The queue of memtables is popped from its newest end (crates/ingodb-lsm/src/lib.rs:532), so of two queued memtables the
  older contents get the newer file name and are read first if both tables land on one level (`QueueOfTwoReadsStale`;
  exactly when: `DrainKeepsReadsIff`).
- A flush empties the log, which with the background thread also holds the records of the active memtable
  (crates/ingodb-lsm/src/lib.rs:584-592): a crash after a drain loses them (`DrainForgets`).
- An index scan tests its limit after a push, so limit 0 returns one document where the full scan returns none
  (`IndexScanIsFullScan`).
- Keys order -0.0 before 0.0 and order NaN, where the comparator calls the zeros equal and NaN incomparable
  (`ComparableOrderIff`).
- Two strings in a key field order wrongly, for some values of the fields behind them, exactly when one is the other
  followed by a zero byte and not then by as many high bytes as there are fields behind (`FieldOrderIff`,
  `DocumentsOrderIff`). High bytes do not occur in text, so in text the zero byte alone decides (`EngulfsPlainly`).

## Model

| member | source | states |
|---|---|---|
| Runs.StoreIsMap | crates/ingodb-lsm/src/lib.rs:329-498 | After every run of well-placed puts, batches, deletes, flushes with compaction, snapshots and restarts from the empty store, each id reads back the last document written for it, or nothing if never written or last deleted |
| Runs.ModelMeaning | crates/ingodb-lsm/src/lib.rs:329-445 | The map that reads are compared to: a put stores the document stamped with the clock, a deletion removes its id, and the later write of a batch wins |
| Placement.LevelledStoreIsMap | crates/ingodb-lsm/src/lib.rs:1692-1705 | The same for every run in which flushed tables land on level 0 and compaction outputs on the level of their inputs or the next |
| Placement.ModestStoreIsMap | crates/ingodb-lsm/src/compaction.rs:66-90 | The same for every run in which flushed tables land on level 0 and each merge of at most fanout-many tables writes a file no larger than its inputs together and not below their level |
| Runs.StepAnswers | crates/ingodb-lsm/src/lib.rs:329-636 | Every single operation keeps the engine invariant (read order, coherence, log contents) and the agreement with the map; a restart does when the log file is clean and holds what no table holds |
| Runs.RunAnswers | crates/ingodb-lsm/src/lib.rs:329-636 | Invariant and agreement with the map carry over whole runs from any state that has them, states behind torn log bytes included as long as they are not restarted before a flush |
| Runs.StepLogged | crates/ingodb-lsm/src/lib.rs:543-592 | Every operation other than a restart, on documents that fit the log, leaves the log file clean and all memtable entries in it or in a table |
| Runs.RunLogged | crates/ingodb-lsm/src/lib.rs:329-592 | So does every well-placed run without restarts |
| Runs.CrashAfterRun | crates/ingodb-wal/src/lib.rs:59-159 | After every well-placed run without restarts from the empty store, a crash at any byte of the next batch reopens to the map after the run and some prefix of the batch |
| Runs.CrashInFlushAfterRun | crates/ingodb-lsm/src/lib.rs:549-592 | After every such run, a crash between the table write and the log reset of a flush reopens to the map after the run |
| Background.BackgroundStoreIsMap | crates/ingodb-lsm/src/lib.rs:510-600 | With a background thread, however puts, batches, deletes, rotations and snapshots, drains of a queue of any length and compactions follow each other, each id reads back the last document written for it, or nothing if never written or last deleted; only drains and compactions have to be well placed |
| Background.EventAnswers | crates/ingodb-lsm/src/lib.rs:912-1008 | Every step of a user or of the coordinator keeps the invariant of a store with any queue and the agreement with the map |
| Background.BackLookupIsView | crates/ingodb-lsm/src/lib.rs:455-498 | Whatever is queued, first match is the global view, for every id and snapshot |
| Background.WorkGet | crates/ingodb-lsm/src/lib.rs:608-636 | A well-placed compaction under a queue of any length changes no latest read |
| Background.WorkBack | crates/ingodb-lsm/src/lib.rs:784-881 | And it keeps the invariant |
| Background.DrainBack | crates/ingodb-lsm/src/lib.rs:530-592 | Draining a placed queue keeps every read at every snapshot and the invariant, and leaves nothing queued |
| Background.ReachableDrainIff | crates/ingodb-lsm/src/lib.rs:530-583 | In every state such a run reaches, a drain keeps every read at every snapshot if and only if the queue is placed |
| Background.BackRestartIff | crates/ingodb-lsm/src/lib.rs:236-300 | A restart of such a store with a clean log keeps every read if and only if everything in the memtable and the queue is logged |
| Background.DrainForgets | crates/ingodb-lsm/src/lib.rs:584-592 | A restart after a drain that wrote a table keeps every read if and only if the active memtable is empty |
| Snapshots.RunSnapshotIff | crates/ingodb-lsm/src/lib.rs:1038-1053 | Over any placed run under which a snapshot stays open, its read is unchanged if and only if no compaction of the run drops the version it showed |
| Snapshots.CompactionSpares | crates/ingodb-lsm/src/lib.rs:801-829 | A compaction leaves the version shown if and only if it is elsewhere too, the newest of its id among the inputs, or not below the oldest open snapshot |
| Snapshots.GoneStays | crates/ingodb-lsm/src/lib.rs:329-636 | A version that is gone never comes back |
| Snapshots.OpenIff | crates/ingodb-lsm/src/lib.rs:217-221 | Over a placed run a snapshot is open exactly when it was, or was opened, and since then it was neither closed nor ended by a restart |
| Snapshots.CloseIs | crates/ingodb-lsm/src/lib.rs:217-221 | Closing takes away exactly that snapshot and changes nothing else |
| Snapshots.OpenThenClose | crates/ingodb-lsm/src/lib.rs:1040-1044 | Opening and then closing leaves no trace but the version taken |
| DiskLookups.ReadBack | crates/ingodb-lsm/src/lib.rs:455-498 | From bytes to map: after any placed run, opening the table files and looking an id up gives the last document written for it, or nothing |
| DiskLookups.LookupFiles | crates/ingodb-lsm/src/lib.rs:455-498 | Over table files that serve the tables, whatever is queued, the lookup through memory and files equals the lookup over tables of entries, at every snapshot |
| DiskLookups.StoredOpen | crates/ingodb-lsm/src/lib.rs:264-290 | Table files as the writer makes them all open and serve what was stored |
| DiskLookups.OpenTables | crates/ingodb-lsm/src/lib.rs:275-289 | Opening gives the readable tables in order and leaves the others out |
| Refinement.LookupIsView | crates/ingodb-lsm/src/lib.rs:455-498 | In every state of the invariant the sources are in read order, so the first match is the global view, for every id and snapshot |
| Refinement.WriteOneView | crates/ingodb-lsm/src/lib.rs:329-368 | A stamped write keeps the invariant, becomes the newest version of its document and changes no other read |
| Refinement.WriteManyAnswers | crates/ingodb-lsm/src/lib.rs:372-416 | A whole batch acts on the map as its writes one after the other |
| Refinement.WritesKeepSnapshots | crates/ingodb-lsm/src/lib.rs:1038-1044 | A batch of writes changes no read at a snapshot taken before it |
| Refinement.FlushKeepsViews | crates/ingodb-lsm/src/lib.rs:543-592 | A well-placed flush keeps the invariant and every read at every snapshot |
| Refinement.CompactionInv | crates/ingodb-lsm/src/lib.rs:784-881 | A well-placed compaction keeps the invariant and invents no blob |
| Refinement.CompactionKeepsLatest | crates/ingodb-lsm/src/lib.rs:626-630 | A compaction, tombstone purge and empty output included, changes no latest read |
| Refinement.DroppedLatest | crates/ingodb-lsm/src/compaction.rs:240-261 | A latest version that compaction drops is a purged tombstone, and no version of its document is left anywhere, so nothing is revived |
| Refinement.PurgeIff | crates/ingodb-lsm/src/lib.rs:626-630 | A picked compaction purges tombstones if and only if no snapshot is open and no table is above its inputs |
| Refinement.WriteFlushes | crates/ingodb-lsm/src/lib.rs:329-416 | A write flushes if and only if the memtable with it has reached the threshold, and leaves no full memtable behind |
| Refinement.CompactionSnapshotView | crates/ingodb-lsm/src/lib.rs:801-829 | At snapshot `s` a compaction keeps the read if and only if the version shown is absent, held outside the inputs, the newest of its id among them, or not below the oldest open snapshot |
| Views.FirstMatchIsVisible | crates/ingodb-lsm/src/lib.rs:464-493 | If no earlier source holds a version below one of a later source, first match wins gives the global highest version at every snapshot |
| Views.ReadsExactIff | crates/ingodb-lsm/src/lib.rs:464-493 | First match is right for all ids and snapshots if and only if a higher version in a later source also lies in an earlier one |
| Merging.MergedView | crates/ingodb-lsm/src/lib.rs:801-829 | The merged output shows at `s` what the inputs showed if and only if that version is absent, the newest of its id, or not below the oldest snapshot; otherwise the id is gone at `s` |
| Merging.LatestKept | crates/ingodb-lsm/src/lib.rs:801-829 | Without a purge a merge keeps every id's latest view |
| Merging.CompactedMembers | crates/ingodb-lsm/src/lib.rs:788-841 | Exactly which versions a merge keeps, as a condition on the inputs alone |
| Merging.KeepForSnapshots | crates/ingodb-lsm/src/lib.rs:807-825 | The nested loop over groups of equal ids computes the snapshot-aware dedup |
| Merging.Merge | crates/ingodb-lsm/src/lib.rs:788-841 | Sort, dedup and purge in the order of the code compute the function that the properties are about |
| Merging.NewestIsView | crates/ingodb-lsm/src/lib.rs:1448-1452 | Sort and dedup leave one blob for each id, in id order, and it is the id's visible version |
| Tables.FlushOrderIff | crates/ingodb-lsm/src/lib.rs:575-583 | When nothing is stored twice, adding a flushed table keeps the read order if and only if every table sharing a document with it is on its level or above |
| Tables.OutputOrderIff | crates/ingodb-lsm/src/lib.rs:868-878 | When nothing is stored twice, swapping in an output keeps the read order if and only if it lands above the newer and not above the older tables sharing a document with it |
| Tables.PickIsWholeGroup | crates/ingodb-lsm/src/compaction.rs:95-131 | A pick has at least two inputs of one level, shares no document with the rest of that level, and lies on top when its output level exceeds the maximum |
| Tables.MetaIsRange | crates/ingodb-lsm/src/lib.rs:611-621 | The range by which a table is picked is tight: both its ends are ids of entries, and all entries lie between |
| Tables.CompactionFits | crates/ingodb-lsm/src/lib.rs:784-841 | The survivors of a merge may be read after every lower table and before every higher one, and share no document with their own level |
| Limits.FlushReadsExactIff | crates/ingodb-lsm/src/lib.rs:575-583 | When nothing is stored twice, a flush leaves all reads exact if and only if the flushed table is placed no higher than tables it shares a document with |
| Limits.FlushLatestIff | crates/ingodb-lsm/src/lib.rs:575-583 | And a flush leaves all latest reads the same under that condition and no other: a misplaced table hides some newest version |
| Limits.CompactionReadsExactIff | crates/ingodb-lsm/src/lib.rs:868-878 | When nothing is stored twice, a compaction leaves all reads exact if and only if its output is well placed, whatever the memtable holds |
| Copies.StepStoredOnce | crates/ingodb-lsm/src/lib.rs:329-636 | No write, flush, compaction, snapshot or restart stores a blob in two places |
| Copies.RunStoredOnce | crates/ingodb-lsm/src/lib.rs:329-636 | Nor does any well-placed run |
| Copies.ReachableFlushIff | crates/ingodb-lsm/src/lib.rs:575-583 | In every reachable state a flush leaves all reads exact if and only if its table is placed no higher than tables it shares a document with |
| Copies.ReachableFlushLatestIff | crates/ingodb-lsm/src/lib.rs:575-583 | In every reachable state a flush leaves all latest reads the same if and only if its table is placed no higher than tables it shares a document with |
| Copies.ReachableCompactionIff | crates/ingodb-lsm/src/lib.rs:868-878 | In every reachable state a compaction leaves all reads exact if and only if its output is well placed |
| Draining.DrainIs | crates/ingodb-lsm/src/lib.rs:530-597 | What draining a queue of any length computes when a background thread does the compacting: the tables of the full memtables, an empty log if there are any, and nothing else changed |
| Draining.DrainedMembers | crates/ingodb-lsm/src/lib.rs:530-577 | Those tables are exactly the old ones and one for each full memtable, with its contents sorted, named upwards from the newest memtable to the oldest |
| Draining.DrainKeepsReadsIff | crates/ingodb-lsm/src/lib.rs:530-583 | Draining a queue of any length over existing tables keeps every read at every snapshot if and only if each queued table is placed as a flush must be and, of two that share a document, the newer one is on a strictly lower level |
| Draining.InvDrains | crates/ingodb-lsm/src/lib.rs:510-527 | Every state of the invariant that stores nothing twice, and so every reachable one, meets the hypothesis of the drain theorem |
| Draining.QueueUp | crates/ingodb-lsm/src/lib.rs:510-527 | Queueing the memtable without flushing it keeps that hypothesis |
| Draining.WriteDrains | crates/ingodb-lsm/src/lib.rs:329-368 | So does a write behind any queue |
| Limits.LargeFlushReadsStale | docs/compaction.md:39-46 | A run of a put, a flush and a batch with a large document after which the store reads the older version: the table of the batch lands above an older one |
| Limits.QueueOfTwoReadsStale | crates/ingodb-lsm/src/lib.rs:530-537 | A run of two puts and rotations with a background thread, at the default W, whose drain changes the latest read to the older version |
| Limits.SnapshotReadLost | docs/mvcc.md:48-54 | A run of a write, a flush, a snapshot, a second write and a flush after which the snapshot, still open, no longer sees the first version |
| Limits.ClosedSnapshotPurges | crates/ingodb-lsm/src/lib.rs:831-851 | A run of a put, a flush, a snapshot opened and closed, the deletion and a flush leaves no table; with the snapshot still open the tombstone stays in one |
| Recovery.RestartKeepsViewsIff | crates/ingodb-lsm/src/lib.rs:236-300 | When the log file is read back whole or not at all, a restart keeps every read at every version if and only if every memtable entry is recovered from the file or in a table |
| Recovery.OpenStartsClean | crates/ingodb-lsm/src/lib.rs:240-250 | Opening an empty log, or one that gave a record, starts a clean log: whatever is logged from then on is recovered |
| Recovery.RestartBehindTornRecord | crates/ingodb-lsm/src/lib.rs:240-250 | Behind a torn first record whose missing part the later records fit into, a restart keeps every read if and only if everything in the memtable is in a table |
| Recovery.SecondRestartForgets | crates/ingodb-lsm/src/lib.rs:240-257 | Any replayed write not yet in a table is read after one restart and lost after the next |
| Recovery.CrashInFlush | crates/ingodb-lsm/src/lib.rs:549-592 | After a crash between the table write and the log reset of a well-placed flush, reopening gives every read at every snapshot as before, if the log file is read back whole or not at all |
| Recovery.CrashInWrite | crates/ingodb-lsm/src/lib.rs:240-257 | After a crash with `k` records of a batch whole, reopening answers as the map after the first `k` writes, whatever bytes stay in the log |
| Recovery.CrashAtAnyByte | crates/ingodb-wal/src/lib.rs:59-159 | After a crash at any byte while a batch is appended, recovering the file and opening answers as the map after some prefix of the batch; the torn bytes stay in the log exactly when no record was recovered |
| Progress.PickShrinks | crates/ingodb-lsm/src/lib.rs:843-878 | Every picked compaction needs two tables and leaves strictly fewer |
| Progress.CompactionSettles | crates/ingodb-lsm/src/lib.rs:608-636 | Compacting without flushes comes to rest in fewer steps than there are tables |
| Placement.OutputNotTooHigh | crates/ingodb-lsm/src/compaction.rs:66-90 | The output of a picked group of at most fanout-many tables that does not outgrow its inputs lands at most one level up |
| Placement.LevelsSuffice | crates/ingodb-lsm/src/lib.rs:575-583 | Flush on level 0 and output on the inputs' level or the next satisfy the exact placement conditions |
| Compaction.LevelIsBand | crates/ingodb-lsm/src/compaction.rs:66-90 | A file is on level `k` or below exactly when its size is below the flush size, at least one byte, times `2 + |W|` to the power `k + 1` |
| Compaction.MergeLevelBound | crates/ingodb-lsm/src/compaction.rs:66-90 | Merging at most fanout-many tables of level at most `k` without growing gives level at most `k + 1` |
| Compaction.FindOverlapGroup | crates/ingodb-lsm/src/compaction.rs:189-228 | The sweep with its running maximum computes the group that the component theorem is about |
| Compaction.OverlapGroupIsLargestComponent | crates/ingodb-lsm/src/compaction.rs:189-228 | The group found is a largest connected component of the id-range overlap graph, and there is none exactly when every component is below the threshold |
| Compaction.PickOne | crates/ingodb-lsm/src/compaction.rs:95-131 | The loop over levels returns the pick of the lowest level that has one |
| Compaction.PickIsLowest | crates/ingodb-lsm/src/compaction.rs:95-131 | The pick is a largest component of at least two tables, or W + 2 for a positive W, on the lowest level that has one; no pick means no level has one |
| Compaction.RestIff | crates/ingodb-lsm/src/compaction.rs:74-131 | Nothing is picked if and only if no connected group of one level has two tables, or W + 2 for a positive W |
| Compaction.RestIsApart | crates/ingodb-lsm/src/compaction.rs:74-131 | For W at most zero nothing is picked if and only if no two tables of one level overlap |
| Compaction.PickAllCompactions | crates/ingodb-lsm/src/compaction.rs:135-172 | The shrinking loop ends on any list of tables and computes the jobs that the exactness theorem is about |
| Compaction.PickAllExact | crates/ingodb-lsm/src/compaction.rs:135-172 | The jobs are exactly such components of all levels, with disjoint inputs, and none is left unpicked |
| Compaction.FirstJob | crates/ingodb-lsm/src/compaction.rs:95-172 | The first of all jobs is the pick that a single compaction would make, and there is no job exactly when there is no pick |
| MemTables.MemTable.Insert | crates/ingodb-memtable/src/lib.rs:57-70 | Inserting keeps the keys strictly ordered and the size counter equal to the sum of the encoded sizes, replacing an equal key |
| MemTables.MemTable.Get | crates/ingodb-memtable/src/lib.rs:74-83 | The last key of the range up to (id, snapshot) is the visible version |
| MemTables.MemTable.Drain | crates/ingodb-memtable/src/lib.rs:120-126 | Draining hands out every entry in key order and leaves an empty memtable of size zero |
| Engine.LsmEngine.constructor | crates/ingodb-lsm/src/lib.rs:236-325 | Opening replays the blobs recovered from the log file, keeps the file exactly when it gave none, sorts the tables and starts after the highest file number |
| Engine.LsmEngine.LogAll | crates/ingodb-lsm/src/lib.rs:372-416 | Logging appends the records behind whatever the log file holds |
| Engine.LsmEngine.PutBatch | crates/ingodb-lsm/src/lib.rs:372-416 | Stamping, logging, inserting and the flush when full are exactly the write step of the state machine |
| Engine.LsmEngine.Put | crates/ingodb-lsm/src/lib.rs:329-368 | A put is the write step for one document |
| Engine.LsmEngine.Delete | crates/ingodb-lsm/src/lib.rs:420-445 | A delete is the write step for one tombstone |
| Engine.LsmEngine.Lookup | crates/ingodb-lsm/src/lib.rs:455-498 | The search through memtable, queued memtables newest first and tables in order is the first-match read |
| Engine.LsmEngine.ScanAt | crates/ingodb-lsm/src/lib.rs:1427-1526 | Gathering every source in the code's order and scanning it gives the full scan of the whole state |
| Engine.LsmEngine.RotateMemtable | crates/ingodb-lsm/src/lib.rs:510-527 | The swap and the queueing, and without a background thread the inline flush, are the rotation step |
| Engine.LsmEngine.FlushImmutableMemtables | crates/ingodb-lsm/src/lib.rs:530-537 | Popping from the end until the queue is empty is the flush of the queue, newest first |
| Engine.LsmEngine.FlushSingleMemtable | crates/ingodb-lsm/src/lib.rs:543-600 | An empty memtable writes nothing; any other becomes a table, leaves an empty log and, without a background thread, compacts |
| Engine.LsmEngine.StartBackgroundCompaction | crates/ingodb-lsm/src/lib.rs:910-1008 | From then on rotations only queue and flushes do not compact |
| Engine.LsmEngine.CoordinatorPass | crates/ingodb-lsm/src/lib.rs:940-993 | With one worker a pass is a drain followed by the compaction that picking a single group gives |
| Engine.LsmEngine.MaybeCompactNow | crates/ingodb-lsm/src/lib.rs:608-636 | At most one picked group is merged, purging only above the highest level and without snapshots |
| Engine.LsmEngine.Compact | crates/ingodb-lsm/src/lib.rs:784-881 | Merging, filtering and swapping is the compaction step, an empty output included |
| Engine.LsmEngine.TakeSnapshot | crates/ingodb-lsm/src/lib.rs:1040-1044 | A snapshot takes the next version and is registered |
| Engine.LsmEngine.DropSnapshot | crates/ingodb-lsm/src/lib.rs:217-221 | Dropping a snapshot unregisters exactly it |
| Wal.WalFile.Append | crates/ingodb-wal/src/lib.rs:74-87 | Appending adds exactly one record and returns where it starts |
| Wal.WalFile.AppendBatch | crates/ingodb-wal/src/lib.rs:59-71 | A batch adds its records in order and keeps the size counter right |
| Wal.Recover | crates/ingodb-wal/src/lib.rs:103-159 | The reading loop stops at the first record that is short, damaged or undecodable, on any bytes |
| Wal.RecoverTruncated | crates/ingodb-wal/src/lib.rs:103-159 | Recovering any truncation of a log returns exactly the blobs of its whole records |
| Wal.RecoverWhole | crates/ingodb-wal/src/lib.rs:59-159 | A log that was not torn is recovered whole |
| Formats.RecordDamage | crates/ingodb-wal/src/lib.rs:103-159 | A record whose document was changed ends the recovery before it, or the checksum collides |
| Wal.AppendBehindTornIff | crates/ingodb-lsm/src/lib.rs:243-250 | Records appended behind a torn first record that has its length, and fitting into its missing part, are recovered if and only if there are none |
| Wal.NothingBehindHeader | crates/ingodb-wal/src/lib.rs:103-159 | Behind a torn first record that has its header, nothing at all is ever recovered unless the bytes filling it collide with its checksum |
| Values.Encode | crates/ingodb-blob/src/value.rs:45-93 | Encoding appends exactly the value's encoding to the buffer |
| Values.DecodeAt | crates/ingodb-blob/src/value.rs:98-193 | The decoding loops compute the decoder, errors included, on any bytes and offset |
| Values.DecodeEncoding | crates/ingodb-blob/src/value.rs:45-193 | Decoding the encoding of an arbitrarily nested value at any place of any buffer gives the value and its exact length |
| Values.DecodeConsumes | crates/ingodb-blob/src/value.rs:98-205 | On arbitrary bytes, whatever decodes is encodable and took exactly the length of its own encoding |
| Blobs.ProjectGetField | crates/ingodb-blob/src/iblob.rs:109-123 | A projection reads like the document on the fields kept and on id and version, and as absent elsewhere; it is marked as one by its second flag bit, and no other flag changes |
| Codec.DecodeSerialized | crates/ingodb-blob/src/iblob.rs:225-414 | Decoding a document's bytes restores id, version, flags and fields, through the hash-sorted index, even when key hashes collide |
| IBlobs.IBlob.SetVersion | crates/ingodb-blob/src/iblob.rs:145-149 | A new version drops both caches, the hash and the encoding |
| IBlobs.IBlob.Encode | crates/ingodb-blob/src/iblob.rs:225-291 | Encoding, cached or not, gives the bytes of the current content and computes the hash at most once |
| IBlobs.DecodeBuffer | crates/ingodb-blob/src/iblob.rs:295-414 | The decoding loops compute the decoder, every error case included, on any bytes |
| IBlobs.DecodeObject | crates/ingodb-blob/src/iblob.rs:295-414 | The decoded object is in good order: its hash is set and right after a single computation, its encoding is not cached, and its content is what decoding says |
| IBlobs.ExtractField | crates/ingodb-blob/src/iblob.rs:418-474 | On every document's bytes and for every name, extraction gives the value that decoding would, or FieldNotFound, with colliding hashes |
| IBlobs.SerializedIsDocument | crates/ingodb-blob/src/iblob.rs:225-291 | The bytes of every encodable document are in the domain of extraction and decode to that document |
| Integrity.HashCovers | crates/ingodb-blob/src/iblob.rs:209-222 | What is hashed determines the document: its id, version, flags and every field |
| Integrity.TamperIsCollision | crates/ingodb-blob/src/iblob.rs:43-43 | Two buffers that decode to different documents under one stored hash are a collision of the hash function |
| Formats.BareDocument | crates/ingodb-blob/src/iblob.rs:16-41 | A document without fields, byte by byte: magic, version two, both ids, flags, hash, no fields |
| Formats.KeyHashIs | crates/ingodb-blob/src/iblob.rs:192-196 | The index files a field under the first eight bytes of the hash of its name, lowest byte first |
| Formats.ForeignBuffer | crates/ingodb-blob/src/iblob.rs:295-414 | Only buffers of the length of a header, with the magic, the version and the hash of what they hold, decode |
| Formats.TagDecides | crates/ingodb-blob/src/value.rs:98-193 | A first byte that names no type is an error, and what decodes has the type its first byte names |
| IBlobs.ProbeReads | crates/ingodb-blob/src/iblob.rs:418-474 | On any bytes, what the extractor finds behind an index entry is what decoding reads there, and the other way round |
| Bloom.BloomFilter.constructor | crates/ingodb-sstable/src/bloom.rs:18-26 | A new filter has ten bits for each key, at least 64, seven probes, enough bytes for its bits, and nothing set |
| Bloom.BloomFilter.Insert | crates/ingodb-sstable/src/bloom.rs:48-55 | Inserting sets the key's seven positions and changes no other bit |
| Bloom.MayContain | crates/ingodb-sstable/src/bloom.rs:59-69 | The probing loop computes the probe, on damaged filters too |
| Bloom.NeverRejects | crates/ingodb-sstable/src/bloom.rs:48-69 | A key that was inserted is never rejected |
| Bloom.AdmitsIff | crates/ingodb-sstable/src/bloom.rs:48-69 | A key is admitted if and only if each of its positions belongs to some inserted key |
| Bloom.Progression | crates/ingodb-sstable/src/bloom.rs:37-55 | The probes of a key start at the first eight bytes of its hash, step by the next eight with 64-bit wrap-around, and are taken modulo the number of bits |
| TableFormat.SplitWhole | crates/ingodb-sstable/src/writer.rs:82-118 | For every block size the blocks hold all entries in order and none is empty |
| TableFormat.SplitIsFull | crates/ingodb-sstable/src/writer.rs:82-118 | Blocks are as full as they may be: none of two entries or more exceeds the block size, and none could have taken the first entry of the next |
| Formats.TableTail | crates/ingodb-sstable/src/writer.rs:10-32 | Every written file ends with its magic and its version |
| Formats.ForeignTable | crates/ingodb-sstable/src/reader.rs:32-56 | Only files with the magic and the version at their end open |
| Formats.BlockDamage | crates/ingodb-sstable/src/reader.rs:364-428 | A stored block changed behind its checksum is an error, or the checksum collides |
| TableWriter.Write | crates/ingodb-sstable/src/writer.rs:50-150 | Nothing to write is an error; otherwise the one-pass loop writes the table of the key-sorted entries, equal keys in input order, with a filter of all keys and id prefixes |
| TableWriter.FlushBlock | crates/ingodb-sstable/src/writer.rs:153-176 | The patched, compressed and checksummed block and its offset and size |
| TableReader.OpenTable | crates/ingodb-sstable/src/reader.rs:32-105 | The opening loop computes the reader or the first error, on any bytes |
| TableReader.ReadBlockEntries | crates/ingodb-sstable/src/reader.rs:364-428 | The parsing loop computes the block's entries or the first error, on any bytes |
| TableFiles.BlockBack | crates/ingodb-sstable/src/reader.rs:364-428 | A stored block reads back entry by entry from any place of any file, and its first key without reading the rest |
| TableFiles.OpenBack | crates/ingodb-sstable/src/reader.rs:32-137 | Opening a written table finds its index, filter, and first and last keys: offsets and sizes line up |
| TableFiles.TableRoundTrip | crates/ingodb-sstable/src/writer.rs:50-176 | Any non-empty blobs written with any key and block size open again; first and last keys, all entries in stable key order, and a filter that admits them all |
| TableLookups.Iter | crates/ingodb-sstable/src/reader.rs:290-297 | The loop returns all blocks' entries in order, or the error of the first unreadable block |
| TableLookups.IterIsEntries | crates/ingodb-sstable/src/reader.rs:290-297 | When the blocks read back, iteration returns exactly their entries in order |
| TableLookups.BinarySearch | crates/ingodb-sstable/src/reader.rs:184-195 | Some match, or the insertion point that separates smaller from larger keys |
| TableLookups.Get | crates/ingodb-sstable/src/reader.rs:178-204 | On a written table the lookup finds an entry with the key, and nothing exactly when there is none |
| TableLookups.RangeScan | crates/ingodb-sstable/src/reader.rs:301-352 | On a written table exactly the entries between both bounds, in order, duplicates across blocks included, whichever equal block the search hits; otherwise it only fails with an unreadable block's error |
| VersionLookups.GetLatestByPrefix | crates/ingodb-sstable/src/reader.rs:232-286 | Searching one block and at most the one before it finds the highest key with the prefix and not above the bound, or that there is none |
| VersionLookups.OneBlockBack | crates/ingodb-sstable/src/reader.rs:269-283 | When the chosen block has no candidate, the last entry of the block before decides: one block back is enough |
| VersionLookups.GetByIdAt | crates/ingodb-sstable/src/reader.rs:223-228 | In a table of versions the lookup returns exactly the highest version of the id not above the snapshot, for every block size |
| VersionLookups.GetById | crates/ingodb-sstable/src/reader.rs:208-219 | In a table of versions the lookup returns the newest version, although it tries the bare id first |
| VersionLookups.VersionOrder | crates/ingodb-sstable/src/keys.rs:28-35 | Byte order of id-and-version keys is order by id and then version, so the file lists what the engine's table lists |
| VersionLookups.IdRange | crates/ingodb-sstable/src/reader.rs:151-170 | The id range a table reports is exactly the range of the ids written to it |
| Queries.DeMorgan | crates/ingodb-query/src/lib.rs:112-116 | Conjunction and disjunction of any number of filters, none included, are dual under negation |
| QueryMeaning.CompareMeaning | crates/ingodb-query/src/lib.rs:136-146 | The comparator answers exactly for two values of one ordered type without NaN, and less and greater are false below true, numbers by value, strings by the first byte that differs or by being a proper beginning |
| QueryMeaning.LexMeaning | crates/ingodb-query/src/lib.rs:136-146 | Slice comparison is less exactly at a smaller first differing byte or for a proper beginning, and equal only for equal bytes |
| QueryMeaning.FilterMeaning | crates/ingodb-query/src/lib.rs:86-117 | For any document, greater, less, range (at least the low value, below the high one), equality and existence filters in terms of that order and of identity; a document without the field matches none of them |
| QueryMeaning.IntegerFilters | crates/ingodb-query/src/lib.rs:86-117 | On signed integers: `x > y`, `x < y`, `x == y` and `y <= x < z` |
| QueryMeaning.UnsignedFilters | crates/ingodb-query/src/lib.rs:86-117 | The same on unsigned integers |
| QueryMeaning.FloatFilters | crates/ingodb-query/src/lib.rs:86-117 | The same on floating-point numbers by their value, where NaN on any side matches nothing |
| QueryMeaning.BoolFilters | crates/ingodb-query/src/lib.rs:86-117 | The same on booleans, false below true |
| QueryMeaning.IdFilters | crates/ingodb-query/src/lib.rs:86-117 | Ids are equal only to themselves and are neither less nor greater; `_id` equals exactly the document of that id |
| QueryMeaning.LogicMeaning | crates/ingodb-query/src/lib.rs:112-116 | A conjunction matches when all of its filters do, a disjunction when some does, a negation when its filter does not |
| QueryMeaning.FieldMeaning | crates/ingodb-blob/src/iblob.rs:179-185 | A field read by name is the id, the version, or exactly the entry the document has |
| QueryMeaning.ValueEqIff | crates/ingodb-blob/src/value.rs:7-29 | Two values, nested ones included, are equal exactly when they are the same up to the sign of zeros and no float inside is NaN |
| QueryMeaning.FloatlessEq | crates/ingodb-blob/src/value.rs:7-29 | Without floats inside, equality is identity |
| QueryMeaning.EqLaws | crates/ingodb-blob/src/value.rs:7-29 | Equality is symmetric and transitive, and a value equals itself exactly when it holds no NaN |
| Numbers.SortableBitsOrder | crates/ingodb-sstable/src/keys.rs:66-118 | The flipped bits order all floating-point numbers but NaN by value, except that negative zero comes just before zero |
| Keys.ExtractKey | crates/ingodb-sstable/src/keys.rs:49-61 | The loop concatenates the field keys, a missing field being one high byte |
| Keys.ComparableOrderIff | crates/ingodb-sstable/src/keys.rs:66-118 | For scalars, byte order is the comparator's order if and only if the values are equal or comparable and not the two zeros |
| Keys.TypesInOrder | crates/ingodb-sstable/src/keys.rs:48-118 | Values of different types sort by type, from null to ids and then arrays and documents, a missing field comes after all, and ids sort by number |
| Keys.SameKeyIff | crates/ingodb-sstable/src/keys.rs:66-118 | Two values have one key exactly when they are the same, except that arrays and documents share it when the first 16 bytes of the hash of their encodings agree |
| Keys.DocumentKeyOrder | crates/ingodb-sstable/src/keys.rs:49-61 | Byte order of concatenated keys is the field-by-field order with missing last, for every two documents whose fields compare and in no field are one string and its continuation by a zero byte (and too few high bytes) |
| Keys.FieldOrderIff | crates/ingodb-sstable/src/keys.rs:49-118 | Two different comparable values order rightly with any further fields behind them if and only if neither is the other followed by a zero byte and not then by as many high bytes as fields follow |
| Keys.DocumentsOrderIff | crates/ingodb-sstable/src/keys.rs:49-61 | The same for whole documents: all pairs with two given values in the first sort field order by key as the query orders them under that condition and no other |
| Keys.ZeroByteBreaksOrder | crates/ingodb-sstable/src/keys.rs:49-61 | Such a pair of documents |
| Scans.Scan | crates/ingodb-lsm/src/lib.rs:1444-1526 | The filtering loop, sort, limit and projection compute the full scan that the next rows describe |
| SortedScans.SortedScanOrder | crates/ingodb-lsm/src/lib.rs:1471-1496 | Of any two results of a sorted scan over documents that compare, the first sort field on which they are not tied puts the earlier one first: the smaller value with missing last, or the larger one with missing first when descending; ties stay in id order |
| SortedScans.ScanHolds | crates/ingodb-lsm/src/lib.rs:1444-1469 | A scan lists exactly the live visible versions that the filter accepts, each once, and in id order when there is no sort |
| SortedScans.ScanCut | crates/ingodb-lsm/src/lib.rs:1515-1523 | A limit keeps that many results from the front, and a projection maps each result by itself |
| SortedScans.CompareSortMeaning | crates/ingodb-lsm/src/lib.rs:1473-1495 | For any two documents, comparable or not, the comparator of a query puts first what the first deciding field puts first, each field in its own direction |
| SortedScans.FlipTurns | crates/ingodb-lsm/src/lib.rs:1486-1489 | Flipping all directions turns every order round and keeps every tie |
| Scans.LiveDocsAreViews | crates/ingodb-lsm/src/lib.rs:1444-1469 | A scan lists exactly the live visible versions, one for each id, in id order |
| Scans.ReadPathsAgree | crates/ingodb-lsm/src/lib.rs:1427-1469 | In every state of the invariant, for every id and snapshot, the point lookup equals the document the unfiltered scan lists |
| SecondaryIndex.IndexScan | crates/ingodb-lsm/src/lib.rs:1105-1139 | The loop returns the documents that StaleEntries.HitsIff characterises, in the order of the entries, cut after the push that reaches the limit |
| SecondaryIndex.IndexScanIsFullScan | crates/ingodb-lsm/src/lib.rs:1088-1139 | With a fresh full index, nothing buffered and an empty memtable, and matching documents whose fields compare, the index scan equals sort, filter and cut of the full scan, ties included, if and only if the limit is not 0 or nothing matches |
| StaleEntries.HitsIff | crates/ingodb-lsm/src/lib.rs:1105-1132 | Over any entries and any state, the walk gives exactly the documents that some entry leads to: what its id reads back, live, with the entry's value in every indexed field, and accepted by the filter |
| StaleEntries.StaleGivesNothing | crates/ingodb-lsm/src/lib.rs:1113-1119 | An entry that differs in some indexed field from the document its id reads back contributes nothing |
| StaleEntries.HitsRead | crates/ingodb-lsm/src/lib.rs:1110-1126 | Each result is what a lookup of its id returns, live and matching |
| StaleEntries.HitsInOrder | crates/ingodb-lsm/src/lib.rs:1105-1132 | Over entries in key order, stale ones included, documents come out in the order of their own current keys, where no indexed value holds a negative zero |
| StaleEntries.HitsOnce | crates/ingodb-lsm/src/lib.rs:1105-1132 | A document listed at most once under each key comes out at most once, however many stale entries it has |
| StaleEntries.CutIsPrefix | crates/ingodb-lsm/src/lib.rs:1127-1132 | The scan returns a beginning of these documents: all of them, or as many as the limit, but one for a limit of 0 |
| StaleEntries.IterHolds | crates/ingodb-lsm/src/secondary.rs:172-190 | The entries walked are those of the file and of the buffer, each as often as it stands there, in key order |
| StaleEntries.BuildHolds | crates/ingodb-lsm/src/secondary.rs:52-95 | A new index lists exactly the live newest versions of its tables, each reduced to the indexed fields, one for each id, in key order |
| IndexFiles.BuildIndex | crates/ingodb-lsm/src/secondary.rs:52-95 | With no live document there is no index; otherwise the written and reopened file lists exactly the index's entries in its order |
| Traversal.Traverse | crates/ingodb-lsm/src/lib.rs:1628-1653 | The rounds with their early breaks compute all rounds without breaks |
| Traversal.TraverseIsReachability | crates/ingodb-lsm/src/lib.rs:1602-1658 | The result is exactly the documents that join walks of 1 to `depth` steps from the start reach, each once, where a step goes to a document whose field holds the same value up to the sign of zeros and no NaN |
| Traversal.JoinOnIds | crates/ingodb-lsm/src/lib.rs:1638-1646 | A step on ids is identity: to `_id` it leads to the one document that the field names |
| Traversal.TraverseAt | crates/ingodb-lsm/src/lib.rs:1602-1658 | Over a store at a snapshot: start and candidates are that snapshot's live documents, and the result is bounded reachability among them |

## Left out

- Overlapping steps, group commit and several compaction workers: a memtable popped from the queue is nowhere to be found until its table is listed, versions are stamped before the log lock, and parallel merges on adjacent levels need not keep the read order.
- Crashes inside a compaction: inputs are deleted one by one while the output already exists.
- Index buffers, their merging, full rebuilds, partial and spilled indexes, and the memtable part of an index scan: the buffer is keyed by field key alone (crates/ingodb-lsm/src/secondary.rs:150-155), and the memtable part keeps the first match of an id, not its newest (crates/ingodb-lsm/src/lib.rs:1141-1161), so no equality with the full scan holds there.
- Descending index scans with a limit and `scan_with_filter_index`, for the same reasons.
- A query sort over values of mixed types is no total order; the standard library leaves the resulting order open there, and the model then shows one possible order.
- Adaptive W and floating-point arithmetic: levels are integer floor-logarithms; a rounded logarithm can differ at a band's edge.
- `SizeTieredCompaction`, `Database`, Liquid AST execution, statistics, timers and benchmarks: easy counters and plumbing.
- Files and directories: a file is its bytes.
- Overflow of 64-bit additions on hostile offsets, and allocation failure on hostile counts, when a table is opened.
- TableLookups.Get: says what is returned for tables whose blocks read back in key order, not for damaged ones.
- TableLookups.RangeScan: on a damaged table says only that an error is the error of an unreadable block.
- VersionLookups.GetByIdAt: says what is returned for tables whose blocks read back in key order, not for damaged ones.
- VersionLookups.GetById: likewise, and for tables keyed by id and version only.
- Keys.ComparableOrderIff: does not cover arrays and documents, whose keys are truncated hashes.
- Wal.AppendBehindTornIff: does not cover appended bytes that reach past the missing part (from eight torn bytes on, Wal.NothingBehindHeader does), nor torn records of fewer than four bytes: there the length or the checksum is read from appended bytes, and what is recovered depends on a checksum collision.
- Recovery.RestartKeepsViewsIff: takes a log file that is read back whole or not at all; anything between would need a checksum collision behind torn bytes.
- The engine object's tables are their entries, path and size rather than files, and flushes and compactions do not write bytes; DiskLookups.ReadBack reads them from files as TableWriter.Write makes them.
