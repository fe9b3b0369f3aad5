# Verified models of the storage engine and the message codec

The application in this repository is glue around two vendored engines. This project models both in Dafny 4.11 and proves what
they are for.

**The storage engine** (`YoYo/Pods/leveldb-library`) keeps a map from user keys to values with snapshots, spread over two
memtables, seven levels of immutable tables, logs and a manifest. The specification is one function, `Keys.View`: at snapshot
s a user key reads as its newest entry with sequence number <= s. Everything else is measured against it.

| files | subject |
|---|---|
| keys, version, lookup | internal keys, the level invariant, layered point lookup |
| selection, droprule, compaction, safety | choice of compaction inputs, the drop rule, the loop, and when a compaction is safe |
| install, midflush, builder, replay | steps that install a version, flushes during a compaction, the builder, when a replay is the live history |
| versionedit, manifest | the bytes of an edit, and recovery from the bytes of a manifest |
| runs, backlog | whole runs of flushes, compactions and reopenings with the numbers handed out: manifest, reads, progress |
| cutrun, gaprun | runs in which the engine loses a deletion, and a write |
| crash, recovery, groupcommit | the engine as a state machine with crashes, recovery, the write queue |
| cursor, dbiter, merger | bidirectional iterators |
| writebatch, memtable, skiplist | write batches, memtable entries, the skip list store by store |
| log, torn, logsound, block, separators, filter, table, datablock | the formats of logs and tables |
| coding, crc32c, cache | encodings, checksum, the LRU cache |

**The message codec** (`YoYo/Pods/nanopb`) encodes and decodes Protocol Buffers messages from field tables: pbschema,
pbencode and pbdecode are the specification, pbencoder and pbdecoder the stream code proved against it, pbroundtrip the round
trip, and pbcompat what becomes of unknown fields, other schemas and arbitrary bytes.

Code that changes state in the source is a class or a method with loops here, and its contract ties it to a specification
function or a model value; the lemmas about that specification carry the results.

## Results that are not what one would hope

- **A compaction can bring a deleted value back.** Output files may be cut between two versions of a user key, and
  SetupOtherInputs completes its inputs with boundary files on the upper level only (version_set.cc:1407 and 1422). A tombstone
  at the end of a level+1 input can then be dropped while the older value stays in the next file.
  `CompactionSafety.CutLosesDeletion` is a valid database on which this happens, and `CutRun.RunLosesDeletion` a run of the
  engine that reaches it from an empty database; `CompactionSafeIff` says exactly when it does,
  and `SafeWithoutCut` gives a guard that could be checked before the compaction.
- **A write can vanish behind a manual compaction.** DoCompactionWork flushes a full memtable in between (db_impl.cc:908), and
  nothing keeps its table out of a gap between the inputs that the outputs will span. `MidFlush.EndIsValidIff` says exactly when
  the outcome is a sorted level. Compactions that the engine picks itself have no such gap (`NoGapIsSafe`,
  `Selection.PickInputs`); `GapRun.RunHidesWrite` is a run with CompactRange that ends in a wrong read.
- **Manifest replay is not the live history for every sequence of edits.** `ManifestReplay.ReplayIsLiveIff` says exactly for
  which; `EquivalentAddedTwice` and `VersionBuilder.ReaddedNumberDiffers` are sequences on which the two differ. The engine
  writes none of these: with the numbers it hands out, no number is added to a level twice (`EngineRuns.ManifestIsCurrent`).
- **Strings without room for a terminator are encoded but cannot be decoded**, wherever they are in a message
  (`PbRoundTrip.MessageRoundTrip`, `StringComesBackIff`).
- **The 32-bit varint reader takes more than it can hold.** Besides 32-bit numbers and their sign extensions it accepts some other
  64-bit numbers, of which it ignores bits 32 to 34 and whole digits of zeroes (pb_decode.c:217-236).
  `PbRoundTrip.Varint32Exact` says exactly which.
- **Reopening a log behind a torn record can lose what is written next.** `TornLogs.ReopenedLogReadsIff` says exactly when it does
  not: when the cut falls at the end of a record, or the next header goes to a new block anyway. The hypothesis that mixed bytes
  do not pass the checksum is `CutUnverified`; `TornBatchLosesNext` shows it, and the loss, for the CRC in use.

## Conventions

- Automatic induction is off for every lemma (`{:induction false}`): all inductions are written out.
- `hide` statements keep definitions from the prover where a proof does not need them; they only make proofs cheaper.
- Numbers are unbounded; widths, wrap-around and truncation are written out where the code depends on them.
- Ghost parameters and fields hold the abstract value of an object (the list a cursor walks, the entries a builder was given).

## Model

| member | source | states |
|---|---|---|
| `DropRule.CompactionKeepsReadsIff` | YoYo/Pods/leveldb-library/db/db_impl.cc:929-970 | For any internal-key-sorted input, any other entries of the database and any smallest snapshot below kMaxSequenceNumber: every read at a snapshot >= smallest_snapshot answers the same before and after the drop loop, if and only if no dropped tombstone covers a live older entry outside of the inputs |
| `DropRule.NewestRule` | YoYo/Pods/leveldb-library/db/db_impl.cc:943-968 | The entry a read at the smallest snapshot would take is dropped exactly when it is a tombstone of a key at its base level; every older entry of that key is dropped |
| `DropRule.NewKept` | YoYo/Pods/leveldb-library/db/db_impl.cc:943-968 | An entry newer than the smallest snapshot is never dropped |
| `DropRule.KeptSorted` | YoYo/Pods/leveldb-library/db/db_impl.cc:929-999 | What is kept stays in internal-key order |
| `DropRule.ReadKept` | YoYo/Pods/leveldb-library/db/db_impl.cc:929-970 | Where no tombstone uncovers anything, a read of one key at one snapshot is unchanged by the drop loop |
| `DropRule.ReadLost` | YoYo/Pods/leveldb-library/db/db_impl.cc:929-970 | Where a dropped tombstone uncovers a live entry, the read at the smallest snapshot changes from NotFound to a value |
| `CompactionLoop.Compaction.IsBaseLevelForKey` | YoYo/Pods/leveldb-library/db/version_set.cc:1533-1552 | Called with non-decreasing user keys, the level_ptrs_ scan that only moves forward answers the plain question: no file of any level >= level+2 covers the key |
| `CompactionLoop.Compaction.ShouldStopBefore` | YoYo/Pods/leveldb-library/db/version_set.cc:1554-1576 | Counts exactly the grandparent bytes passed since the output was opened, and stops when they exceed the limit |
| `CompactionLoop.ShouldDrop` | YoYo/Pods/leveldb-library/db/db_impl.cc:943-968 | The stateful test of the loop is the drop rule on the sequence before this entry |
| `CompactionLoop.DoCompactionWork` | YoYo/Pods/leveldb-library/db/db_impl.cc:890-1007 | The whole loop writes non-empty outputs that concatenate to exactly the entries the drop rule keeps, in order; an output ends exactly where it has reached the size limit, or where the grandparent bytes passed since the last such stop exceed their limit |
| `CompactionLoop.CutsAreDetermined` | YoYo/Pods/leveldb-library/db/db_impl.cc:905-999 | These conditions leave one way only to cut the kept entries into outputs, for any measure of an output file |
| `CompactionSafety.CompactionSafeIff` | YoYo/Pods/leveldb-library/db/db_impl.cc:878-1036 | In a valid database, with inputs chosen by SetupOtherInputs: the compaction keeps every live read if and only if no user key cut at the end of the level+1 inputs has a dropped tombstone there over a live entry left behind |
| `CompactionSafety.OnlyCutKeysUncovered` | YoYo/Pods/leveldb-library/db/version_set.cc:1403-1462 | Boundary files of level, the whole levels above and the IsBaseLevelForKey test below leave only one place for an uncovered entry: the file of level+1 that continues the largest user key of its inputs |
| `CompactionSafety.SafeWithoutCut` | YoYo/Pods/leveldb-library/db/version_set.cc:1378-1401 | If no file of level+1 continues the largest key of the level+1 inputs (what AddBoundaryInputs would ensure there), every live read is kept |
| `CompactionSafety.CutLosesDeletion` | YoYo/Pods/leveldb-library/db/version_set.cc:1403-1422 | A valid database in which the code does lose a deletion: AddBoundaryInputs runs on level only, the tombstone at the end of a level+1 input is dropped and the value in the next file is read again |
| `CompactionSafety.CutDatabaseValid` | YoYo/Pods/leveldb-library/db/version_set.cc:1403-1422 | The database of CutLosesDeletion satisfies the level invariant |
| `CutRun.RunLosesDeletion` | YoYo/Pods/leveldb-library/db/version_set.cc:1403-1422 | A run from an empty database (two flushes, a compaction that keeps an old version for a snapshot and cuts its outputs between the two versions, a third flush) reaches the database of CutLosesDeletion, and its next compaction makes a key read as the old value that reads as deleted from everything written |
| `Selection.GetOverlappingInputs` | YoYo/Pods/leveldb-library/db/version_set.cc:519-559 | Returns exactly the files that meet the range; for level 0 the range it restarts to is overlap-closed and lies inside every overlap-closed range that contains the original one |
| `Selection.FindLargestKey` | YoYo/Pods/leveldb-library/db/version_set.cc:1326-1342 | The largest key, of one of the files |
| `Selection.FindSmallestBoundaryFile` | YoYo/Pods/leveldb-library/db/version_set.cc:1344-1362 | The file with the smallest key among those that continue the user key after the given internal key, if there is any |
| `Selection.AddBoundaryInputs` | YoYo/Pods/leveldb-library/db/version_set.cc:1378-1401 | Keeps the files given, appends a chain of boundary files, and ends with no file of the level continuing the largest key |
| `Selection.GetRange` | YoYo/Pods/leveldb-library/db/version_set.cc:1205-1224 | The tight range around the files, both ends attained |
| `Selection.SetupOtherInputs` | YoYo/Pods/leveldb-library/db/version_set.cc:1403-1462 | Level inputs are the picked files completed with boundary files, or the files that meet the range of those and of the level+1 inputs, completed again: the latter exactly when there are level+1 inputs and this grows the choice, stays below the expansion limit and meets as many level+1 files; level+1 inputs are exactly the files meeting their range; grandparents are the level+2 files meeting everything; picks without a gap between their ranges end in inputs without one |
| `Selection.ExpandedOnce` | YoYo/Pods/leveldb-library/db/version_set.cc:1418-1445 | What an expansion would take is determined by the level, the inputs and the level+1 inputs |
| `Selection.CompletedOnce` | YoYo/Pods/leveldb-library/db/version_set.cc:1378-1401 | So is the completion of picked files with boundary files |
| `Selection.PickedHasNoGap` | YoYo/Pods/leveldb-library/db/version_set.cc:1270-1324 | The files around one level-0 file that PickCompaction takes leave no gap between their ranges |
| `Selection.PickInputs` | YoYo/Pods/leveldb-library/db/version_set.cc:1270-1324 | Whatever file PickCompaction starts from, its compaction has that file among its inputs, which are those SetupOtherInputs makes of the files around it, and inputs without a gap between their ranges |
| `Selection.ClosedIsSettled` | YoYo/Pods/leveldb-library/db/version_set.cc:519-559 | In an overlap-closed level-0 choice no file left behind shares a user key with a chosen one |
| `Selection.SliceIsSettled` | YoYo/Pods/leveldb-library/db/version_set.cc:1378-1401 | In a choice completed with boundary files, what is left behind in the level is newer than what was chosen, on every common user key |
| `Selection.SelectIsSlice` | YoYo/Pods/leveldb-library/db/version_set.cc:519-559 | The files of a level >= 1 that meet a range are neighbours |
| `Install.SomeFileOverlapsRange` | YoYo/Pods/leveldb-library/db/version_set.cc:122-157 | True if and only if some file meets the range, both by scanning and, on disjoint levels, by the binary search |
| `Install.PickLevelForMemTableOutput` | YoYo/Pods/leveldb-library/db/version_set.cc:491-516 | A level at most kMaxMemCompactLevel such that no level from 0 down to it meets the table and no level two below one it passed holds more bytes of it than the limit; it stops short of kMaxMemCompactLevel only because level 0 or the next level meets the table, or because that limit is exceeded |
| `Install.FlushKeepsInvariant` | YoYo/Pods/leveldb-library/db/db_impl.cc:491-533 | Installing a fresh table at that level keeps the level invariant and adds exactly its entries |
| `Install.CompactionEdit` | YoYo/Pods/leveldb-library/db/version_set.cc:1525-1531 | Deletes exactly the input files by number and level, adds exactly the outputs at level+1 |
| `Install.CompactionKeepsInvariant` | YoYo/Pods/leveldb-library/db/db_impl.cc:860-876 | Installing compaction outputs keeps the level invariant: levels >= 1 sorted and disjoint in internal-key order, newer entries never below older ones, numbers unique; the contents are the outputs and what was not an input |
| `Install.LoopOutputsValid` | YoYo/Pods/leveldb-library/db/db_impl.cc:890-1007 | What the compaction loop writes under fresh numbers meets the conditions of an install, and holds exactly the kept entries |
| `Install.TrivialMoveValid` | YoYo/Pods/leveldb-library/db/db_impl.cc:718-725 | Moving one file down meets the conditions of an install and keeps the contents |
| `Install.EveryVersionValid` | YoYo/Pods/leveldb-library/db/db_impl.cc:491-533 | Over every run of flushes, moves and atomic compactions, every version satisfies the level invariant |
| `MidFlush.EndIsValidIff` | YoYo/Pods/leveldb-library/db/db_impl.cc:905-918 | A compaction that ends on a version which memtables flushed while it ran have grown: the outcome meets the level invariant if and only if every table flushed to the output level lies apart from every output |
| `MidFlush.NoGapIsSafe` | YoYo/Pods/leveldb-library/db/db_impl.cc:905-918 | When the inputs leave no gap between their ranges, as those of every compaction that the engine picks itself, the outcome always meets the level invariant |
| `MidFlush.NoGapLeavesRoom` | YoYo/Pods/leveldb-library/db/db_impl.cc:905-918 | A table flushed to the output level met no input on its way, so without a gap it lies before or behind all outputs |
| `MidFlush.FlushGrows` | YoYo/Pods/leveldb-library/db/db_impl.cc:535-567 | Every flush during the compaction only adds a newer table, which met no file down to its level |
| `MidFlush.EndContents` | YoYo/Pods/leveldb-library/db/db_impl.cc:905-918 | Such a compaction leaves its outputs and everything but its inputs, the flushed tables included |
| `GapRun.RunHidesWrite` | YoYo/Pods/leveldb-library/db/version_set.cc:1464-1495 | A run from an empty database in which a manual compaction has inputs with a gap and a memtable is flushed into the gap meanwhile: the output level is not sorted afterwards, and a read of the flushed key finds nothing, although its entry is in the version |
| `Lookup.FindFile` | YoYo/Pods/leveldb-library/db/version_set.cc:88-106 | The loop is the binary search Bisect, on any list of files |
| `Lookup.BisectFinds` | YoYo/Pods/leveldb-library/db/version_set.cc:88-106 | On a sorted level the binary search ends at the first file whose largest key reaches the target |
| `Lookup.SearchLevelZero` | YoYo/Pods/leveldb-library/db/version_set.cc:349-365 | Newest-first search of the overlapping files, stopping at the first hit, gives the newest visible entry of the level |
| `Lookup.SearchLevel` | YoYo/Pods/leveldb-library/db/version_set.cc:366-381 | A deeper level is answered from the one file that the binary search ends at |
| `Lookup.LevelGetAnswers` | YoYo/Pods/leveldb-library/db/version_set.cc:366-381 | On a sorted level that one file is enough: it gives the newest visible entry of the level |
| `Lookup.GetFromVersion` | YoYo/Pods/leveldb-library/db/version_set.cc:326-421 | Under the level invariant the first hit is the newest visible entry over all levels, and no hit means that nothing is visible |
| `Lookup.Get` | YoYo/Pods/leveldb-library/db/db_impl.cc:1100-1145 | Memtable, immutable memtable, version, in this order: exactly the view of the snapshot over all entries of the database |
| `Version.TableGetIsNewest` | YoYo/Pods/leveldb-library/db/version_set.cc:263-276 | Seek to (key, snapshot) and a user-key comparison give the newest visible entry of a sorted table |
| `Keys.EmbeddingPreservesOrder` | YoYo/Pods/leveldb-library/util/comparator.cc:25-27 | Byte strings under the bytewise comparator embed in the reals with their order, which justifies real-valued user keys |
| `Keys.PackedOrder` | YoYo/Pods/leveldb-library/db/dbformat.cc:51-67 | Internal keys are totally ordered, newer first within a user key |
| `VersionBuilder.Builder.Apply` | YoYo/Pods/leveldb-library/db/version_set.cc:650-692 | Adds the deletions, takes re-added numbers out of them, and inserts the new files in their order |
| `VersionBuilder.Builder.SaveTo` | YoYo/Pods/leveldb-library/db/version_set.cc:695-754 | Every level is the ordered merge of base and added files without the deleted ones |
| `VersionBuilder.MergeListed` | YoYo/Pods/leveldb-library/db/version_set.cc:703-725 | The merge is sorted by smallest key and number |
| `VersionBuilder.RecoverVersion` | YoYo/Pods/leveldb-library/db/version_set.cc:886-990 | Recovery feeds all edits of the manifest to one builder and saves it once |
| `VersionBuilder.ApplyEdit` | YoYo/Pods/leveldb-library/db/version_set.cc:801-884 | LogAndApply makes the next version with one builder on the current one: level by level the specification of one edit, which the live history is built from |
| `ManifestReplay.ReplayIsLiveIff` | YoYo/Pods/leveldb-library/db/version_set.cc:886-990 | One builder over all edits of a history gives, level by level, the list that one builder per edit gives, if and only if no two edits hold equivalent current files (same smallest key and number) and, of the files whose number is in use, the current ones are exactly the first of their kind ever added |
| `ManifestReplay.ReplayIsLive` | YoYo/Pods/leveldb-library/db/version_set.cc:886-990 | When no number is ever added to a level twice, the condition of ReplayIsLiveIff holds and the two lists agree |
| `ManifestReplay.EquivalentAddedTwice` | YoYo/Pods/leveldb-library/db/version_set.cc:593-607 | With two equivalent files in two edits the lists differ even without any deletion: std::set keeps the first, upper_bound passes over it |
| `Manifests.RecoverManifest` | YoYo/Pods/leveldb-library/db/version_set.cc:886-990 | From the bytes of the records: each is decoded and fed to one builder, an undecodable one is refused, and the result is the replay of the decoded edits |
| `Manifests.WrittenIsDecoded` | YoYo/Pods/leveldb-library/db/version_edit.cc:41-205 | A record written for an edit, in any order of its deletions, is decoded to the edit |
| `Manifests.ManifestIsLive` | YoYo/Pods/leveldb-library/db/version_set.cc:886-990 | Decoding the records that were written for a history of edits and feeding them to one builder gives the replay of these edits, and the live lists exactly under the condition of ReplayIsLiveIff |
| `EngineRuns.ManifestIsCurrent` | YoYo/Pods/leveldb-library/db/version_set.cc:801-884 | In every state of every run from an empty database of flushes, also while a compaction runs, moves, compactions that leave room for what was flushed meanwhile, and reopenings, with numbers handed out in increasing order: no number was added twice to a level in the manifest in use, and one builder over that manifest gives the lists of the current version |
| `EngineRuns.RunIsSound` | YoYo/Pods/leveldb-library/db/version_set.cc:801-884 | In every such run every version meets the level invariant, and the manifest records every level |
| `EngineRuns.ReopenIsSound` | YoYo/Pods/leveldb-library/db/db_impl.cc:280-369 | Reopening replays the manifest to the version that was current, whenever the process ended; with the tables recovered from the logs, which one edit puts in level 0, the result is valid and holds the old contents and these tables |
| `EngineRuns.ReopenIsRecorded` | YoYo/Pods/leveldb-library/db/version_set.cc:801-884 | After reopening, the manifest that was continued, or the new one that starts with a snapshot, records every level again |
| `EngineRuns.TablesJoin` | YoYo/Pods/leveldb-library/db/db_impl.cc:371-489 | Several recovered tables added by one edit leave the version that flushing them one by one would leave |
| `EngineRuns.NewTableIsFresh` | YoYo/Pods/leveldb-library/db/db_impl.cc:491-533 | In a run, what a flush needs of its table follows from new file numbers and later sequence numbers |
| `EngineRuns.ReadsSurviveRuns` | YoYo/Pods/leveldb-library/db/db_impl.cc:878-1036 | In every run whose compactions meet the guard of SafeWithoutCut: a read at a snapshot no compaction has gone past answers from the current version what it would answer from everything ever flushed or recovered, whatever was dropped |
| `EngineRuns.GetsSurviveRuns` | YoYo/Pods/leveldb-library/db/db_impl.cc:1100-1145 | In every run whose compactions meet that guard, a read of the whole database, with newer entries in its memtables, answers as from everything ever written |
| `EngineRuns.NewerOnTop` | YoYo/Pods/leveldb-library/db/db_impl.cc:1100-1145 | Sets of entries that read alike still do under newer entries |
| `VersionBuilder.ReaddedNumberDiffers` | YoYo/Pods/leveldb-library/db/version_set.cc:656-692 | An edit sequence on which replay revives a deleted file; by ManifestIsCurrent the engine never writes one |
| `VersionBuilder.WriteSnapshot` | YoYo/Pods/leveldb-library/db/version_set.cc:1088-1116 | Every file of every level, as one edit |
| `VersionBuilder.SnapshotRestores` | YoYo/Pods/leveldb-library/db/version_set.cc:1088-1116 | Replaying that edit alone gives back the version |
| `VersionBuilder.ListedUnique` | YoYo/Pods/leveldb-library/db/version_set.cc:593-605 | A level list is determined by its set of files |
| `VersionEdits.EncodeTo` | YoYo/Pods/leveldb-library/db/version_edit.cc:41-85 | Writes the fields that are set, pointers, deletions and files, each with its tag |
| `VersionEdits.DecodeFrom` | YoYo/Pods/leveldb-library/db/version_edit.cc:107-205 | On any record, also a malformed one: the edit its fields spell out, or an error |
| `VersionEdits.EditRoundTrip` | YoYo/Pods/leveldb-library/db/version_edit.cc:41-205 | Decoding an encoded edit gives the edit back |
| `VersionEdits.PartsComeBack` | YoYo/Pods/leveldb-library/db/version_edit.cc:107-205 | Whatever bytes are accepted spell out valid fields (levels of the engine, numbers within their widths), which read back as themselves when they are written again |
| `VersionEdits.UnknownTagIsRefused` | YoYo/Pods/leveldb-library/db/version_edit.cc:190-193 | A record with any other tag is refused |
| `VersionEdits.FieldsRoundTrip` | YoYo/Pods/leveldb-library/db/version_edit.cc:118-190 | Every tagged field is read back, whatever follows it |
| `CrashSafety.CrashSafe` | YoYo/Pods/leveldb-library/db/db_impl.cc:223-566 | In every state of every run of writes, memtable switches, flushes, rewrites, file deletions, crashes and recoveries: the tables of the manifest and the logs from its log number up hold exactly the acknowledged entries, those a crash caught between log and acknowledgement, and those being written; a recovery keeps them and its LastSequence is at least every stored sequence number |
| `CrashSafety.AcknowledgedIsReadable` | YoYo/Pods/leveldb-library/db/db_impl.cc:1100-1145 | While running, memtables and the tables of the manifest serve every acknowledged entry |
| `CrashSafety.StepKeeps` | YoYo/Pods/leveldb-library/db/db_impl.cc:223-566 | Every step keeps the invariant |
| `CrashSafety.AppendKeeps` | YoYo/Pods/leveldb-library/db/db_impl.cc:1207-1222 | Appending a group to the log |
| `CrashSafety.SwitchKeeps` | YoYo/Pods/leveldb-library/db/db_impl.cc:1310-1370 | Switching memtable and log, possible only while there is no immutable memtable |
| `CrashSafety.InstallTableKeeps` | YoYo/Pods/leveldb-library/db/db_impl.cc:535-566 | Installing the flushed table and moving the log number: the immutable memtable is exactly what the logs that become obsolete hold |
| `CrashSafety.DeleteLogKeeps` | YoYo/Pods/leveldb-library/db/db_impl.cc:244-247 | Deleting a log below the log number |
| `CrashSafety.DeleteTableKeeps` | YoYo/Pods/leveldb-library/db/db_impl.cc:253-260 | Deleting a table that no version refers to and that is not pending |
| `CrashSafety.DebrisKeeps` | YoYo/Pods/leveldb-library/db/db_impl.cc:280-369 | A recovery that crashes half-way leaves nothing a later one would take for data |
| `CrashSafety.RecoverKeeps` | YoYo/Pods/leveldb-library/db/db_impl.cc:1474-1515 | A completed recovery |
| `Recovery.RecoverLogFile` | YoYo/Pods/leveldb-library/db/db_impl.cc:371-489 | Replays one log into tables and, for a reused last log, a memtable, together exactly the contents of the log, and finds its largest sequence number; every table but the last holds a run of batches that ends exactly where the memtable had become full; the log is reused exactly when it is the last, logs may be reused and its memtable never became full |
| `Recovery.RecoverDatabase` | YoYo/Pods/leveldb-library/db/db_impl.cc:280-369 | Replays the logs from the log number up in order and installs the result: a recovery as the protocol requires. The last log goes on exactly when it may be reused and its memtable never became full, the manifest exactly when it may be reused and nothing was written; no file number is passed over |
| `GroupCommit.BuildBatchGroup` | YoYo/Pods/leveldb-library/db/db_impl.cc:1260-1306 | The longest run of writers allowed to ride together by size and sync, their operations in queue order, and what tmp_batch_ then holds |
| `GroupCommit.GroupSize` | YoYo/Pods/leveldb-library/db/db_impl.cc:1260-1306 | Behind a first batch of at most 128 KB no more than 128 KB ride along, else no more than 1 MB in all; a writer is left behind only because it would exceed that, or wants a sync that the first does not |
| `GroupCommit.FirstInFirstOut` | YoYo/Pods/leveldb-library/db/db_impl.cc:1185-1256 | In every run writers finish at most once each, in the order in which they queued |
| `GroupCommit.NeverStuck` | YoYo/Pods/leveldb-library/db/db_impl.cc:1185-1377 | In every reachable state with a waiting writer some step other than a new call can be taken: the next one of the writer at the head, or the background work that MakeRoomForWrite waits for |
| `GroupCommit.NoWakeUpIsLost` | YoYo/Pods/leveldb-library/db/db_impl.cc:648-686 | In every run, while there is an immutable memtable or level 0 is at its limit, background work is scheduled, so a writer never waits in MakeRoomForWrite for work that nobody will do |
| `GroupCommit.StepsAreProgress` | YoYo/Pods/leveldb-library/db/db_impl.cc:1185-1377 | Every step other than a new call or a snapshot, be it of the writer at the head or of the background, finishes that writer or brings it nearer: room, start of the group, log, sync, inserts, and before that flush, compactions, delay |
| `GroupCommit.CallersDoNotDelay` | YoYo/Pods/leveldb-library/db/db_impl.cc:1185-1256 | New calls and snapshots leave the writer at the head, what is finished and how far the head has come as they were |
| `GroupCommit.EveryWriterFinishes` | YoYo/Pods/leveldb-library/db/db_impl.cc:1185-1377 | In every endless run in which steps other than new calls are taken again and again while writers wait: all writers that have queued by some moment are told later that they are done, in the order of their arrival |
| `GroupCommit.WritersCanFinish` | YoYo/Pods/leveldb-library/db/db_impl.cc:1185-1377 | From every reachable state finitely many steps without new calls finish the first n writers of the queue, in their order |
| `Backlog.CompactionLowers` | YoYo/Pods/leveldb-library/db/db_impl.cc:878-1036 | Counting each entry with the number of levels below it and its own: every compaction or move lowers the sum, whatever it drops and however its outputs are cut |
| `Backlog.CompactionsEnd` | YoYo/Pods/leveldb-library/db/db_impl.cc:688-767 | In every run, the compactions and moves that follow each other without a flush are at most as many as that sum |
| `Backlog.LevelZeroCounts` | YoYo/Pods/leveldb-library/db/version_set.cc:1036-1075 | Level 0 never has more files than that sum, so that where level 0 has files compactions have work to do |
| `GroupCommit.SequencesFollowQueueOrder` | YoYo/Pods/leveldb-library/db/db_impl.cc:1204-1238 | The operation at place p of all that was written, in queue order, is in the memtable under sequence start + p + 1, and LastSequence counts them all |
| `GroupCommit.SyncIsHonoured` | YoYo/Pods/leveldb-library/db/db_impl.cc:1275-1280 | No sync writer ever rides in a group that was not synced; tmp_batch_ is empty whenever a group is built |
| `GroupCommit.SnapshotsSeeWholeGroups` | YoYo/Pods/leveldb-library/db/db_impl.cc:1211-1237 | A snapshot taken at any moment sees all of a group or nothing of it |
| `GroupCommit.StepKeeps` | YoYo/Pods/leveldb-library/db/db_impl.cc:1185-1256 | Every step of the protocol keeps its invariant |
| `WriteBatches.WriteBatch.Add` | YoYo/Pods/leveldb-library/db/write_batch.cc:98-109 | Appends one operation and counts it |
| `WriteBatches.WriteBatch.Append` | YoYo/Pods/leveldb-library/db/write_batch.cc:144-148 | Appends all operations of another batch, or of itself; the sequence number stays |
| `WriteBatches.WriteBatch.SetSequence` | YoYo/Pods/leveldb-library/db/write_batch.cc:94-96 | Patches the sequence number and nothing else |
| `WriteBatches.Iterate` | YoYo/Pods/leveldb-library/db/write_batch.cc:42-80 | On any bytes: the operations, or an error for a bad tag, a short string, a short header or a wrong count |
| `WriteBatches.BodyRoundTrip` | YoYo/Pods/leveldb-library/db/write_batch.cc:42-80 | Operations are read back in order, whatever follows |
| `WriteBatches.UnknownTagFails` | YoYo/Pods/leveldb-library/db/write_batch.cc:42-80 | Behind any operations, a byte that is no tag makes the batch unreadable |
| `WriteBatches.IterateBatch` | YoYo/Pods/leveldb-library/db/write_batch.cc:42-80 | A batch iterates over exactly the operations put into it |
| `WriteBatches.InsertInto` | YoYo/Pods/leveldb-library/db/write_batch.cc:116-137 | Operations get consecutive sequence numbers from the batch's own |
| `MemTables.EntryRoundTrip` | YoYo/Pods/leveldb-library/db/memtable.cc:75-98 | Internal key and value are read back from a memtable buffer |
| `MemTables.KeyRoundTrip` | YoYo/Pods/leveldb-library/db/dbformat.h:165-177 | User key, sequence and type are read back from an encoded internal key |
| `MemTables.RankIsOrder` | YoYo/Pods/leveldb-library/db/memtable.cc:28-35 | The order of ranks by which the skip list is searched is the order of the key comparator |
| `MemTables.MemTable.Add` | YoYo/Pods/leveldb-library/db/memtable.cc:75-98 | Adds exactly one entry to the skip list, at its place in internal-key order |
| `MemTables.MemTable.Seek` | YoYo/Pods/leveldb-library/db/memtable.cc:100-104 | The skip list search ends at the node of the first entry at or after the key |
| `MemTables.MemTable.Get` | YoYo/Pods/leveldb-library/db/memtable.cc:100-136 | Through the skip list: the newest entry of the user key with sequence <= snapshot, its value or that it is a deletion; nothing if there is none |
| `MemTables.ReportsIsView` | YoYo/Pods/leveldb-library/db/memtable.cc:100-136 | That report is the view of the snapshot over the entries added |
| `MemTables.InsertBatch` | YoYo/Pods/leveldb-library/db/write_batch.cc:116-137 | Applying a batch adds exactly its operations under consecutive sequence numbers |
| `DBIterator.RowsAreTheView` | YoYo/Pods/leveldb-library/db/db_iter.cc:28-60 | The rows an iterator should walk, defined by a scan of the entries, are sorted by user key and are exactly the keys and values of the view at the snapshot |
| `DBIterator.DBIter.FindNextUserEntry` | YoYo/Pods/leveldb-library/db/db_iter.cc:168-198 | Stops at the next entry that yields a row, skipping hidden and deleted keys |
| `DBIterator.DBIter.FindPrevUserEntry` | YoYo/Pods/leveldb-library/db/db_iter.cc:227-267 | Finds the row before the position, or none |
| `DBIterator.DBIter.Next` | YoYo/Pods/leveldb-library/db/db_iter.cc:141-166 | One row on, also when the direction changes |
| `DBIterator.DBIter.Prev` | YoYo/Pods/leveldb-library/db/db_iter.cc:200-225 | One row back, also when the direction changes; not valid before the first row |
| `DBIterator.DBIter.Seek` | YoYo/Pods/leveldb-library/db/db_iter.cc:269-281 | The first row at or after the target |
| `DBIterator.DBIter.SeekToFirst` | YoYo/Pods/leveldb-library/db/db_iter.cc:283-292 | The first row |
| `DBIterator.DBIter.SeekToLast` | YoYo/Pods/leveldb-library/db/db_iter.cc:294-298 | The last row |
| `DBIterator.DBIter.CurrentRow` | YoYo/Pods/leveldb-library/db/db_iter.cc:64-71 | key() and value() are those of the current row |
| `Merger.MergeAllSorted` | YoYo/Pods/leveldb-library/table/merger.cc:178-192 | The union of sorted children with distinct keys is sorted |
| `Merger.MergeAllMembers` | YoYo/Pods/leveldb-library/table/merger.cc:178-192 | The union of the children holds exactly their entries |
| `Merger.MoveBoth` | YoYo/Pods/leveldb-library/table/merger.cc:14-175 | Every operation of the iterator interface moves a merging iterator and a cursor over the union to the same place, the one that the operation promises |
| `Merger.LooksTheSame` | YoYo/Pods/leveldb-library/table/merger.cc:110-118 | In step means that validity, key and value are the same |
| `Merger.MergingIterator.SeekToFirst` | YoYo/Pods/leveldb-library/table/merger.cc:31-37 | The first entry of the union |
| `Merger.MergingIterator.SeekToLast` | YoYo/Pods/leveldb-library/table/merger.cc:39-45 | The last entry of the union |
| `Merger.MergingIterator.Seek` | YoYo/Pods/leveldb-library/table/merger.cc:47-53 | The first entry of the union at or after the target |
| `Merger.MergingIterator.TurnForward` | YoYo/Pods/leveldb-library/table/merger.cc:62-75 | After a turn forward every other child stands strictly past the key |
| `Merger.MergingIterator.TurnBackward` | YoYo/Pods/leveldb-library/table/merger.cc:88-104 | After a turn backward every other child stands strictly before it |
| `Merger.MergingIterator.Next` | YoYo/Pods/leveldb-library/table/merger.cc:55-79 | One entry on in the union |
| `Merger.MergingIterator.Prev` | YoYo/Pods/leveldb-library/table/merger.cc:81-108 | One entry back in the union |
| `Merger.MergingIterator.FindSmallest` | YoYo/Pods/leveldb-library/table/merger.cc:148-161 | The child with the smallest key |
| `Merger.MergingIterator.FindLargest` | YoYo/Pods/leveldb-library/table/merger.cc:163-176 | The child with the largest key |
| `Merger.MergingIterator.SmallestIsNext` | YoYo/Pods/leveldb-library/table/merger.cc:148-161 | Going forward, the smallest head among the children is the next entry of the union |
| `Merger.MergingIterator.LargestIsPrevious` | YoYo/Pods/leveldb-library/table/merger.cc:163-176 | Going backward, the largest head among the children is the previous entry of the union |
| `Cursors.Cursor.Seek` | YoYo/Pods/leveldb-library/include/leveldb/iterator.h:48-53 | What the iterators rely on from a child: the first entry at or after the target |
| `Merger.MergingIterator.CurrentEntry` | YoYo/Pods/leveldb-library/table/merger.cc:110-118 | key() and value() are those of the union's entry |
| `RecordLog.Writer.AddRecord` | YoYo/Pods/leveldb-library/db/log_writer.cc:34-80 | Appends the fragments of the record, with trailers where no header fits, and keeps the block offset |
| `RecordLog.Writer.EmitPhysicalRecord` | YoYo/Pods/leveldb-library/db/log_writer.cc:82-108 | Appends header and payload of one fragment |
| `RecordLog.Reader.ReadPhysicalRecord` | YoYo/Pods/leveldb-library/db/log_reader.cc:189-269 | The buffered reader, block by block, reads what a direct parse of the file at that place reads, reports included |
| `RecordLog.Reader.Record` | YoYo/Pods/leveldb-library/db/log_reader.cc:56-174 | Puts fragments together as the specification of a logical record says |
| `LogSoundness.OnlyWholeRecords` | YoYo/Pods/leveldb-library/db/log_reader.cc:56-270 | On any file, however damaged, every record read is the payload of a FULL fragment, or of FIRST, MIDDLE and LAST fragments each of which lies directly behind the one before, all with matching checksums and within their blocks |
| `LogSoundness.NothingVanishes` | YoYo/Pods/leveldb-library/db/log_reader.cc:56-189 | On any file, the payload bytes that pass their checks add up: each of them is in a record returned, in a drop reported, or in a record that the file breaks off |
| `LogSoundness.ZeroesAreSkipped` | YoYo/Pods/leveldb-library/db/log_reader.cc:235-241 | Zeroes behind a log, as preallocated space leaves them, add no record and are not reported |
| `RecordLog.TruncatedLogReads` | YoYo/Pods/leveldb-library/db/log_reader.cc:56-271 | For every list of records and every cut of the bytes: the reader returns exactly the records that lie wholly inside the cut, in order, and reports no corruption |
| `RecordLog.ReopenedLogJoins` | YoYo/Pods/leveldb-library/db/log_writer.cc:27-30 | A writer reopened at the old length writes the bytes one writer would have written |
| `RecordLog.ReopenedAtRecordEnd` | YoYo/Pods/leveldb-library/db/log_writer.cc:27-30 | A writer reopened where a cut has left whole records only writes the log of these records and its own |
| `TornLogs.ReopenedLogReads` | YoYo/Pods/leveldb-library/db/log_reader.cc:56-271 | For every list of records, every cut of its bytes and every records written behind it by a writer reopened at that length, unless mixed bytes pass the checksum: the reader returns the records that were whole before the cut and then all new ones, or all but those that share a block with the torn bytes |
| `TornLogs.ReopenedLogReadsIff` | YoYo/Pods/leveldb-library/db/log_writer.cc:27-106 | Under the same hypothesis, nothing whole is lost if and only if the cut falls at the end of a record or the next header goes to a new block anyway (the cut is at a block end or leaves fewer than kHeaderSize bytes) |
| `TornLogs.TornBatchLosesNext` | YoYo/Pods/leveldb-library/db/db_impl.cc:457-476 | With the CRC in use and a write batch that lost its last byte, as a log may when reuse_logs reopens it: the hypothesis holds, and the batches written next into that block are lost, unless the first byte written is the lost one |
| `TornLogs.CrcTellsLastByte` | YoYo/Pods/leveldb-library/util/crc32c.cc:285-362 | Payloads that differ in their last byte have different CRCs |
| `RecordLog.WholeLog` | YoYo/Pods/leveldb-library/db/log_reader.cc:56-174 | An uncut log gives back every record |
| `RecordLog.RecordEndIsLength` | YoYo/Pods/leveldb-library/db/log_writer.cc:27-80 | The block offset is the length of the file modulo the block size |
| `RecordLog.WriterAndReaderAgree` | YoYo/Pods/leveldb-library/db/log_writer.cc:16-21 | Extending the precomputed CRC of the type is the CRC of type and payload together |
| `Blocks.BlockBuilder.Add` | YoYo/Pods/leveldb-library/table/block_builder.cc:72-106 | Appends the pair with a restart point every interval; at one it shares nothing, elsewhere all that it has in common with the key before |
| `Blocks.BlockBuilder.Finish` | YoYo/Pods/leveldb-library/table/block_builder.cc:62-70 | The bytes are a block holding exactly the pairs added |
| `Blocks.DecodeEntry` | YoYo/Pods/leveldb-library/table/block.cc:54-74 | On any bytes: what is accepted as an entry lies before the limit, unless its two lengths add up beyond 32 bits |
| `Blocks.DecodesEntry` | YoYo/Pods/leveldb-library/table/block.cc:54-74 | DecodeEntry reads back the lengths of an encoded entry, by the one-byte path and by the varint path |
| `Blocks.BlockParts` | YoYo/Pods/leveldb-library/table/block.cc:24-39 | Restart count and restart points are read back from the end of the block |
| `Blocks.Iter.ParseNextKey` | YoYo/Pods/leveldb-library/table/block.cc:224-251 | Rebuilds the full key of the next entry from the shared prefix |
| `Blocks.Iter.FindRestart` | YoYo/Pods/leveldb-library/table/block.cc:163-187 | The binary search over restart points: the one found comes before the target, the next does not, and everything before the one found is before the target |
| `Blocks.Iter.Seek` | YoYo/Pods/leveldb-library/table/block.cc:163-201 | The first entry with key >= target, in any order of keys |
| `Blocks.Iter.Prev` | YoYo/Pods/leveldb-library/table/block.cc:142-161 | The exact predecessor |
| `Blocks.Iter.Next` | YoYo/Pods/leveldb-library/table/block.cc:137-140 | The next pair added |
| `Blocks.Iter.SeekToFirst` | YoYo/Pods/leveldb-library/table/block.cc:203-206 | The first pair added |
| `Blocks.Iter.SeekToLast` | YoYo/Pods/leveldb-library/table/block.cc:208-213 | The last pair added |
| `Blocks.Iter.CurrentEntry` | YoYo/Pods/leveldb-library/table/block.cc:126-135 | key() and value() are those of the pair added |
| `Separators.FindShortestSeparator` | YoYo/Pods/leveldb-library/util/comparator.cc:29-50 | No longer than start, and start itself or strictly between start and limit; shortened behind the first difference wherever raising that byte stays below limit, and otherwise start |
| `Separators.FindShortSuccessor` | YoYo/Pods/leveldb-library/util/comparator.cc:52-65 | No longer, at or after the key: cut behind its first byte below 0xff, which is raised; unchanged exactly for runs of 0xff |
| `Separators.FindInternalSeparator` | YoYo/Pods/leveldb-library/db/dbformat.cc:69-86 | The internal key itself, or one whose user key lies strictly between, so that no user key continues past it; the latter exactly when a shorter such user key is found |
| `Separators.FindInternalSuccessor` | YoYo/Pods/leveldb-library/db/dbformat.cc:88-101 | The internal key itself, or one with a strictly later user key; the latter exactly when that is shorter |
| `Separators.SeparatorOrder` | YoYo/Pods/leveldb-library/db/dbformat.cc:69-86 | last <= separator < next first |
| `Separators.LiftPreservesOrder` | YoYo/Pods/leveldb-library/db/dbformat.cc:51-67 | Internal keys over bytes are ordered like internal keys of the engine modules |
| `Filters.BloomFilterPolicy.CreateFilter` | YoYo/Pods/leveldb-library/util/bloom.cc:28-54 | Appends a filter of at least 64 bits and bits_per_key for every key, rounded up to bytes, in which exactly the probes of the keys are set, and the probe count |
| `Filters.ProbeIs` | YoYo/Pods/leveldb-library/util/bloom.cc:40-50 | Double hashing: probe j is the hash plus j times its rotation, in 32 bits |
| `Filters.BloomFilterPolicy.KeyMayMatch` | YoYo/Pods/leveldb-library/util/bloom.cc:56-80 | True exactly if the filter is long enough and every probe finds its bit, or the probe count is reserved |
| `Filters.MatchesIff` | YoYo/Pods/leveldb-library/util/bloom.cc:28-80 | A filter lets a key pass exactly when the keys it was made from took all its probes, so every key it was made from passes |
| `Filters.FilterBlockBuilder.StartBlock` | YoYo/Pods/leveldb-library/table/filter_block.cc:21-27 | Closes filters up to the 2KB group of the offset |
| `Filters.FilterBlockBuilder.GenerateFilter` | YoYo/Pods/leveldb-library/table/filter_block.cc:51-75 | One filter for the pending keys, with exactly their probes; an empty one for none |
| `Filters.FilterBlockBuilder.Finish` | YoYo/Pods/leveldb-library/table/filter_block.cc:35-49 | The bytes are a filter block for the groups of keys added |
| `Filters.FilterBlockReader.KeyMayMatch` | YoYo/Pods/leveldb-library/table/filter_block.cc:90-104 | Asks the filter that the offset array names; true for unknown groups and broken offsets, false for empty filters |
| `Filters.NeverHidden` | YoYo/Pods/leveldb-library/table/filter_block.cc:90-104 | A lookup at a block offset asks the filter of the keys added while an offset of the same 2KB was current: an added key passes, and any other exactly when these keys took all its probes |
| `Filters.FilterIndexIsQuotient` | YoYo/Pods/leveldb-library/table/filter_block.cc:14-16 | Shifting by the base is division by 2KB |
| `Tables.TableBuilder.Add` | YoYo/Pods/leveldb-library/table/table_builder.cc:94-123 | Adds the entry; the data block is written exactly when the entry has made it full; index keys are the shortest separators of neighbouring blocks; the filter of a 2KB group holds the user keys of its blocks and no others |
| `Tables.TableBuilder.Flush` | YoYo/Pods/leveldb-library/table/table_builder.cc:125-139 | Writes the data block behind the last one and its trailer, under a handle with its size, and leaves its index entry pending |
| `Tables.TableBuilder.Finish` | YoYo/Pods/leveldb-library/table/table_builder.cc:198-253 | A complete table: blocks, index and filters for exactly the entries added |
| `Tables.Open` | YoYo/Pods/leveldb-library/table/table.cc:38-82 | What the finished builder wrote and the bytes of its filter block open as a table that holds exactly the entries added |
| `Tables.Table.MayMatch` | YoYo/Pods/leveldb-library/table/table.cc:222-229 | The filter never hides a block that holds the user key, and lets any other key pass exactly when the keys of the blocks of the same 2KB took all its probes |
| `Tables.Table.InternalGet` | YoYo/Pods/leveldb-library/table/table.cc:216-244 | For any increasing entries, any block boundaries and any filter: the newest entry of the user key with sequence <= snapshot, or, exactly when there is none, no entry of that key |
| `Tables.AnswersAreLookups` | YoYo/Pods/leveldb-library/table/table.cc:216-244 | Such an answer is a lookup in the entries as the engine modules see them |
| `DataBlocks.BuildDataBlock` | YoYo/Pods/leveldb-library/table/table_builder.cc:111-123 | The bytes that the block builder makes of a data block encode its entries |
| `DataBlocks.SeekDataBlockBytes` | YoYo/Pods/leveldb-library/table/block.cc:163-201 | The block iterator, over these bytes, lands on the first entry at or after an internal key and reads it back |
| `DataBlocks.InternalGetBytes` | YoYo/Pods/leveldb-library/table/table.cc:216-244 | InternalGet over data blocks as bytes gives the same answers |
| `Coding.Fixed32RoundTrip` | YoYo/Pods/leveldb-library/util/coding.h:60-72 | A fixed32 is read back |
| `Coding.Fixed64RoundTrip` | YoYo/Pods/leveldb-library/util/coding.h:74-86 | A fixed64 is read back |
| `Coding.EncodeVarint` | YoYo/Pods/leveldb-library/util/coding.cc:81-90 | The loop writes the varint of the value |
| `Coding.GetVarint` | YoYo/Pods/leveldb-library/util/coding.cc:142-157 | The loop reads at most the given number of bytes and drops bits beyond the width, on any input |
| `Coding.VarintRoundTrip` | YoYo/Pods/leveldb-library/util/coding.cc:81-157 | A varint is read back, with its length, whatever follows |
| `Crc32c.Extend` | YoYo/Pods/leveldb-library/util/crc32c.cc:276-377 | The striding, swath and word loops give the byte-at-a-time CRC for every buffer, length and alignment |
| `Crc32c.StrideStep` | YoYo/Pods/leveldb-library/util/crc32c.cc:294-320 | One stride over four running words and joining them later is one word read on |
| `Crc32c.StrideIsSixteenZeros` | YoYo/Pods/leveldb-library/util/crc32c.cc:294-300 | With tables of sixteen zero-byte steps a stride is sixteen zero bytes and then the word |
| `Crc32c.CrcComposes` | YoYo/Pods/leveldb-library/util/crc32c.cc:276-377 | Extend over two pieces is Extend over their concatenation |
| `Crc32c.CastagnoliDefined` | YoYo/Pods/leveldb-library/util/crc32c.cc:20-63 | Tables computed bit by bit from the CRC32C polynomial satisfy the equations assumed of the tables |
| `Crc32c.UnmaskUndoesMask` | YoYo/Pods/leveldb-library/util/crc32c.h:29-38 | Unmask undoes Mask |
| `SkipLists.SkipList.FindGreaterOrEqual` | YoYo/Pods/leveldb-library/db/skiplist.h:260-281 | The descent ends at the level-0 place of the key and notes a predecessor at every level |
| `SkipLists.SkipList.FindLessThan` | YoYo/Pods/leveldb-library/db/skiplist.h:283-302 | The last level-0 node before the key |
| `SkipLists.SkipList.FindLast` | YoYo/Pods/leveldb-library/db/skiplist.h:304-322 | The last level-0 node |
| `SkipLists.SkipList.StoreUnseen` | YoYo/Pods/leveldb-library/db/skiplist.h:361-365 | Setting a link of a node that is not reachable at that level keeps every chain |
| `SkipLists.SkipList.Publish` | YoYo/Pods/leveldb-library/db/skiplist.h:366-366 | The one store that makes a node reachable at a level keeps level 0 sorted and every level within the one below, so that searches by readers are right after every store |
| `SkipLists.SkipList.Insert` | YoYo/Pods/leveldb-library/db/skiplist.h:336-368 | The key is added at its place on each of the lowest height levels, and nothing else changes on any level |
| `Cache.HandleTable.FindPointer` | YoYo/Pods/leveldb-library/util/cache.cc:109-120 | The slot of the item with the hash and key, or the end of its bucket when there is none |
| `Cache.HandleTable.Lookup` | YoYo/Pods/leveldb-library/util/cache.cc:74-76 | The item of that key, or none if there is none |
| `Cache.HandleTable.Insert` | YoYo/Pods/leveldb-library/util/cache.cc:78-93 | Adds the item, in place of one with the same key; the table grows exactly when there are more items than buckets |
| `Cache.HandleTable.Remove` | YoYo/Pods/leveldb-library/util/cache.cc:95-103 | Takes out exactly the item of that key |
| `Cache.HandleTable.Resize` | YoYo/Pods/leveldb-library/util/cache.cc:122-147 | Keeps exactly the same items, in the least number of buckets, doubling from 4, that has room for them |
| `Cache.LRUCache.Ref` | YoYo/Pods/leveldb-library/util/cache.cc:217-223 | Exactly one reference more for this entry, all other handles unchanged; a cached entry is on the in-use list afterwards and not on the lru list, the others keep their places; lists and charges stay consistent |
| `Cache.LRUCache.Unref` | YoYo/Pods/leveldb-library/util/cache.cc:225-238 | Exactly one reference less; the entry goes and its deleter runs if and only if it was the last; an entry that only the cache still refers to becomes the newest of the lru list; the others keep their places |
| `Cache.LRUCache.Lookup` | YoYo/Pods/leveldb-library/util/cache.cc:252-259 | Hands out the entry of that key, if there is one; lists, table, usage and references stay consistent |
| `Cache.LRUCache.Release` | YoYo/Pods/leveldb-library/util/cache.cc:261-264 | Exactly one reference less; the entry goes if and only if it was the last handle of an entry not in the cache |
| `Cache.LRUCache.FinishErase` | YoYo/Pods/leveldb-library/util/cache.cc:302-315 | Takes an entry out of the lists and the usage, and drops the cache's reference |
| `Cache.LRUCache.Erase` | YoYo/Pods/leveldb-library/util/cache.cc:317-320 | Exactly the entry of that key leaves the cache; nothing else changes |
| `Cache.LRUCache.EvictOldest` | YoYo/Pods/leveldb-library/util/cache.cc:293-300 | The oldest entry nobody refers to is freed, its charge and its item go, nothing else |
| `Cache.LRUCache.Insert` | YoYo/Pods/leveldb-library/util/cache.cc:266-300 | The entry is cached with one handle given out; an entry of the same key makes way; evictions take the oldest entries, no more than needed, and leave entries in use alone; then usage_ <= capacity_ or the lru list is empty |
| `Cache.LRUCache.Prune` | YoYo/Pods/leveldb-library/util/cache.cc:322-333 | Frees exactly the entries nobody refers to |
| `Cache.LRUCache.SetCapacity` | YoYo/Pods/leveldb-library/util/cache.cc:156-156 | Only the capacity changes, and everything stays consistent: evictions come with the next insertion |
| `Cache.EraseKeeps` | YoYo/Pods/leveldb-library/util/cache.cc:302-315 | Erasing keeps the lists, the sum of charges, the table, the references and the deletions consistent |
| `Cache.ReleaseKeeps` | YoYo/Pods/leveldb-library/util/cache.cc:225-238 | Dropping a reference keeps all of this consistent; every entry made is alive or has been deleted once |
| `Cache.InsertKeeps` | YoYo/Pods/leveldb-library/util/cache.cc:283-288 | Adding an entry keeps all of this consistent |
| `PbRoundTrip.MessageRoundTrip` | YoYo/Pods/nanopb/pb_encode.c:528-550 | For every schema of static fields (required, optional, repeated packed and unpacked, oneof, nested messages) and every well-formed value that can be encoded: decoding gives the value if every string that is sent, at any depth, leaves room for its terminator, and fails otherwise |
| `PbRoundTrip.PrefixDecodes` | YoYo/Pods/nanopb/pb_decode.c:928-1040 | After the first n fields are decoded the destination holds exactly these, the rest at its defaults, unless one of them holds a string without room for its terminator; then decoding fails |
| `PbRoundTrip.ScalarRoundTrip` | YoYo/Pods/nanopb/pb_decode.c:1321-1504 | Every scalar type is read back, or fails exactly for unterminated strings |
| `PbRoundTrip.StringComesBackIff` | YoYo/Pods/nanopb/pb_decode.c:1471-1504 | A string of any length is encoded, but comes back if and only if it leaves room for its terminator; otherwise decoding fails |
| `PbRoundTrip.UnzigzagUndoesZigzag` | YoYo/Pods/nanopb/pb_encode.c:630-639 | Zigzag is undone for every 64-bit value |
| `PbRoundTrip.SignedUndoesUnsigned` | YoYo/Pods/nanopb/pb_decode.c:1332-1367 | Negative integers sent as 64-bit varints come back in 32 and 64 bits |
| `PbRoundTrip.Varint32RoundTrip` | YoYo/Pods/nanopb/pb_decode.c:187-253 | The 32-bit varint reader with its overflow rules reads back every 32-bit value |
| `PbRoundTrip.Varint32Exact` | YoYo/Pods/nanopb/pb_decode.c:187-253 | On the varint of any 64-bit number: the 32-bit reader gives what fits 32 bits, cuts what looks like a negative 32-bit number extended to 64 bits, and refuses the rest |
| `PbRoundTrip.SignExtendedRead` | YoYo/Pods/nanopb/pb_decode.c:217-229 | A negative 32-bit number sent as a 64-bit varint is read as its low 32 bits |
| `PbRoundTrip.RequiredAreEmitted` | YoYo/Pods/nanopb/pb_decode.c:1042-1073 | A well-formed message sends every required field |
| `PbCompat.UnknownFieldIsPassed` | YoYo/Pods/nanopb/pb_decode.c:316-340 | A field whose tag the schema does not have is passed over, whatever its type and however it is written: decoding goes on behind it with the same message |
| `PbCompat.ItemSkipped` | YoYo/Pods/nanopb/pb_decode.c:321-331 | The wire type alone tells where an item of any type ends |
| `PbCompat.UnknownWireTypeFails` | YoYo/Pods/nanopb/pb_decode.c:321-331 | An unknown field of any other wire type fails the message |
| `PbCompat.SizedPartIs` | YoYo/Pods/nanopb/pb_decode.c:1434-1551 | bytes takes up to its size, fixed_length_bytes exactly its size, where an empty part stands for zeroes; anything else fails |
| `PbCompat.NewerMessageDecodes` | YoYo/Pods/nanopb/pb_decode.c:928-1040 | A decoder with only the first k fields of a schema reads exactly these from any message of the whole schema |
| `PbCompat.OlderMessageDecodes` | YoYo/Pods/nanopb/pb_decode.c:928-1076 | A decoder with the whole schema reads a message that was written with its first k fields, with the others at their defaults; it fails exactly for a string without room for its terminator, or when one of the others is among the first 64 required ones |
| `PbCompat.MessageWithin` | YoYo/Pods/nanopb/pb_decode.c:406-483 | Whatever the bytes, a decoded message stays within its struct: integers in their widths, arrays and strings in their sizes, at most one member of every union |
| `PbCompat.DecodedComesBack` | YoYo/Pods/nanopb/pb_decode.c:1078-1090 | What any bytes decode to can be encoded, and decodes to the same message again |
| `PbEncoder.OStream.Write` | YoYo/Pods/nanopb/pb_encode.c:103-128 | Counts in a sizing stream; writes and counts in a buffer stream; refuses what does not fit without writing |
| `PbEncoder.OStream.WriteVarint` | YoYo/Pods/nanopb/pb_encode.c:608-628 | Writes the varint of a 64-bit value |
| `PbEncoder.WriteSubmessage` | YoYo/Pods/nanopb/pb_encode.c:717-765 | The sizing pass predicts exactly the bytes written, so that the size check after the second pass never fails; size prefix and bytes are written |
| `PbEncoder.WritePacked` | YoYo/Pods/nanopb/pb_encode.c:161-205 | Packed arrays: the size computed by type is the size written |
| `PbEncoder.WriteArray` | YoYo/Pods/nanopb/pb_encode.c:147-236 | Packed or tagged items, an error for too many |
| `PbEncoder.WriteField` | YoYo/Pods/nanopb/pb_encode.c:341-428 | Required, optional, repeated and oneof fields |
| `PbEncoder.WriteMessage` | YoYo/Pods/nanopb/pb_encode.c:528-550 | All fields in schema order: the encoding of the message if the stream has room, else failure, in sizing and in writing |
| `PbDecoder.IStream.DecodeVarint` | YoYo/Pods/nanopb/pb_decode.c:255-276 | Up to ten bytes, on any input |
| `PbDecoder.IStream.DecodeVarint32` | YoYo/Pods/nanopb/pb_decode.c:187-253 | The 32-bit reader with its sign-extension and overflow rules and its 8-bit bit position, which wraps around in long varints, on any input |
| `PbDecoder.IStream.MakeSubstream` | YoYo/Pods/nanopb/pb_decode.c:372-385 | Splits off a length-delimited part, or fails without enough bytes |
| `PbDecoder.IStream.Skip` | YoYo/Pods/nanopb/pb_decode.c:321-331 | Skips an unknown field by wire type; PbCompat.ItemSkipped says that this is what was written for it |
| `PbDecoder.FieldIter.Find` | YoYo/Pods/nanopb/pb_common.c:78-95 | The cyclic search finds a field of the tag from any position if and only if there is one; in an empty table it finds the terminator for tag 0 |
| `PbDecoder.FieldIter.Next` | YoYo/Pods/nanopb/pb_common.c:20-76 | Keeps the index among required fields and wraps around at the end |
| `PbDecoder.FieldIter.CountRequired` | YoYo/Pods/nanopb/pb_decode.c:1042-1055 | Walking to the end counts the required fields |
| `PbDecoder.ReadField` | YoYo/Pods/nanopb/pb_decode.c:406-483 | One field on any input: scalars, packed and unpacked arrays with their limits, nested messages, oneof |
| `PbDecoder.BitsSayAll` | YoYo/Pods/nanopb/pb_decode.c:1042-1073 | The bitmap check is the question whether every required field among the first PB_MAX_REQUIRED_FIELDS was seen |
| `PbDecoder.ReadMessage` | YoYo/Pods/nanopb/pb_decode.c:928-1076 | On any bytes and any destination: the message that the specification of decoding gives, or an error, also for a table that has only its terminator |
| `PbDecoder.Decode` | YoYo/Pods/nanopb/pb_decode.c:1078-1090 | Defaults first, then the fields |

## Left out

- The Swift application, umbrella headers, BoringSSL and GTMSessionFetcher. They hold callbacks and data, and would only add easy members.
- User keys in the engine modules are reals, with the order the comparator gives them (Keys.EmbeddingPreservesOrder); byte strings appear in the format modules only.
- I/O errors, background errors, corruption statuses, paranoid checks, statistics, logging, read sampling and seek compactions; a file is a byte sequence that keeps what was appended.
- The file system, Env, threads, mutexes and memory ordering: a region under the mutex is one atomic step. A compaction is picked in one step and installed in one step; its loop is proved on its own.
- Compaction scoring of the deeper levels, compaction pointers across restarts, previous log numbers and CURRENT file handling.
- GroupCommit.NeverStuck: writes that fail (a background error, or no new log file in MakeRoomForWrite) are left out; the sleep and the waits of MakeRoomForWrite are steps, but how long they take is not modelled.
- GroupCommit.EveryWriterFinishes: a background flush or compaction is one step that ends well; that only finitely many compactions come between two flushes is proved in Backlog, over versions.
- EngineRuns.ManifestIsCurrent: a crash loses no manifest record that was logged and leaves none half written; the numbers and sequences that recovery takes from the logs are parameters.
- CrashSafety.RewriteKeeps: takes a rewrite that keeps contents; what dropping compactions do to reads is proved in DropRule, CompactionSafety and, over runs, EngineRuns.
- CrashSafety.AppendKeeps: takes a log record to be appended whole or not at all; TornLogs shows what readers make of a torn record and of what is written behind it.
- Manifests.RecoverManifest: the comparator name, and the check that the manifest names its numbers, are left out.
- VersionEdits.DecodeFrom: starts from an empty edit; the compaction pointers that Clear leaves in place are not modelled. Levels, keys and strings are assumed below 4 GB.
- MemTables.MemTable.Add: arena allocation and approximate memory usage are left out.
- RecordLog.Reader.Record: reads from initial offset 0; resynchronisation at another offset is left out. The checksum is a parameter of the model; Crc32c proves what the engine uses for it.
- Crc32c.Extend: takes tables that satisfy their defining equations; the literal constants and the accelerated path are left out.
- Tables.TableBuilder.Add: the size of a data block, and when it is full, are parameters.
- Tables.TableBuilder.Finish: keeps data blocks as lists of entries under their offsets; DataBlocks encodes and reads them as bytes. The bytes of the index block, footer, metaindex and handles, compression, the block cache and TwoLevelIterator are left out.
- PbCompat.DecodedComesBack: is stated for schemas that C can declare: integers of 8, 16, 32 or 64 bits, and strings with room for a terminator.
- Filters.BloomFilterPolicy.CreateFilter: the hash function and the number of probes are parameters.
- Blocks.BlockBuilder.Finish: is stated for blocks below 4 GB.
- Cache.LRUCache.Insert: keys, values and charges are values, lists are sequences; sharding, allocation and the destructor are left out.
- SkipLists.SkipList.Insert: the random height is a parameter; nodes are places in an arena.
- PbRoundTrip.MessageRoundTrip: leaves out callbacks, extensions, pointer fields, fixed-count arrays, default values given by pointer and over-long varints; sizes are assumed not to reach SIZE_MAX.
- PbDecoder.ReadMessage: for a table without fields the bool read for tag 0 is stored to no field; the byte the source writes in that case is not modelled.
- repair.cc, dumpfile.cc, the C bindings, Snappy, hash.cc and the environment implementations.
