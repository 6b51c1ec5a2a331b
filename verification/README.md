# A model of two storage and wire-format engines

The repository is a small iOS application. Its own code is thin; what is intricate in it are the two
engines it vendors: **LevelDB**, a log-structured merge tree, and **nanopb**, a Protocol Buffers encoder
and decoder. This project models both and proves what they are for.

How the modules hang together:

- *Meaning.* `DbFormat` has internal keys and entries. `Meaning` says what a collection of entries means:
  for a user key and a snapshot, the value of the newest entry at or below it, unless that is a deletion.
  User keys are real numbers here, which stand for places in the comparator's order; `Comparator` gives such
  a place to every byte string and shows that the bytewise order is the order of the places.
- *Reads.* `Versions` has files, levels and the invariants of a version (well-formed levels, newer above
  older, no user key in two files of a level); `VersionGet` is `Version::Get`; `MemTables` reads the skip list.
- *Skip list.* `SkipLists` is the list as its writer uses it, over `SkipMemory` and `SkipInsertion`.
  `SkipListRace` lets readers load one link at a time while an insertion stores one link at a time.
- *Compaction.* `DropRule` is the drop rule, `CompactionRun` the merge loop with the base-level test;
  `CompactionMeaning` says what the result means once installed; `OverlappingInputs` and `PickCompaction` choose
  the inputs; `FlushLevel` chooses the level of a flushed memtable. `CompactionWindow` covers the time between
  the start of a merge and the installation of its result. `LsmRun` puts writes, snapshots, switches, flushes,
  moves and merges into runs; `CleanRuns` has the runs in which nothing can go wrong, `BoundaryFiles` and `GapRun`
  those in which something does.
- *Durability.* `Disks`, `DurableRun`, `DurableSteps` and `DurableRecovery` are a state machine over the disk:
  logs, tables in levels, manifests, obsolete-file deletion, a crash between any two steps, recovery. `LogOrder`
  follows the order of the logged groups, `DurableLevels` the levels (with `SortedLists` to build them),
  `CrashSafety` has what holds in every run, and `CrashPrefix` says when a crash loses only the latest groups.
- *Group commit.* `WriteBatches` is the byte form of a batch. `GroupCommit` is the queue of writers as a state
  machine, with the mutex released while the leader writes; `BatchGroups` builds a group and `GroupEntries`
  turns it into entries.
- *Versions on disk.* `VersionEdits` is the edit codec, `Builder` and `EditBatches` apply edits to levels,
  `Manifest` logs them, snapshots and recovers.
- *Iterators.* `DBIters` (over `Cursors` and `LiveEntries`), `Mergers` (with `MergePositions`), `TwoLevelIterators`.
- *Formats.* `Coding`; `LogFormat`, `LogWriters`, `LogParsing`, `LogRoundTrip`, `LogReaders`; `BlockFormat`,
  `BlockBuilders`, `BlockIters`; `Bloom`, `FilterBlocks`; `TableKeys`, `TableBuilders`, `Tables`.
- *Cache.* `HandleTables`, `CacheShards` and `Caches`.
- *nanopb.* `PbMessages` has schemas, values and the wire form; `PbEncoding` the two-pass encoder; `PbDecoding` the
  decoder over any bytes; `PbFields` and `PbFieldBits` the circular field iterator and the required-field mask;
  `PbRoundTrip` puts both sides together.
- `Runs` has runs of any state machine, and the one induction over them.

What the source changes step by step is a class or a method with a loop here, proved against a function or
a predicate; what is promised is then proved about that function or over whole runs.

## What was found

- **A deletion can come undone.** Compaction and trivial moves assume that no user key is spread over two files
  of one level, and neither `SetupOtherInputs` nor a manual compaction establishes it.
  `BoundaryFiles.DeletedValueReturns` is a run of the engine from the empty database, its picks all automatic, with
  one snapshot taken and released: a merge splits a user key over two files, a trivial move takes the newer one
  below the older, and a lookup finds the deleted value. In `BoundaryFiles.DroppedMarkerBringsBack` an
  automatic pick of such a file is merged, the marker is dropped, and the value shows. Exact conditions, on the
  levels and the inputs before the merge: it keeps every answer if and only if no marker it drops has a value behind
  it in a file of the two levels that stays (`CompactionMeaning.CompactionKeepsMeaning`), and the age order if and only
  if no file of its level that stays has an older entry of a user key that it keeps
  (`CompactionMeaning.CompactionKeepsAge`); a trivial move keeps the age order if and only if no file of the level
  begins with the user key the moved one ends with (`CompactionMeaning.TrivialMove`). Every run that meets these conditions
  is right (`LsmRun.RunKeepsInv`). Runs meet them whose merges split no user key, or start while no snapshot older than
  the newest of their input entries is held, if their flushes stay out of a merge's way (`CleanRuns.CleanRunKeepsInv`);
  and so does every run whose merges are automatic and start while no snapshot is held (`CleanRuns.AutomaticRunKeepsInv`).
- **A flush during a manual merge can land in a gap of its range.** `DoCompactionWork` flushes the immutable
  memtable while it merges. A manual pick can leave a gap between its files; a table flushed into the gap at
  the output level and an output that reaches over it then overlap: `GapRun.FlushIntoGap` is such a run from the
  empty database, without snapshots. Every cut of the outputs stays clear of a table if and only if all that the merge
  keeps lies before it, or all of it behind (`CompactionWindow.CutsStayClear`), and the levels stay disjoint, however the
  outputs are cut, if and only if that holds of every table at their level (`CompactionWindow.InstallBesideFlush`). An
  automatic pick has no gaps (`PickCompaction.NoGapInPick`), and no flush can land there (`CompactionWindow.NoGapKeepsFlushOut`).
- **A crash can lose an earlier write and keep a later one.** A change of logs does not sync the old log.
  `CrashPrefix.EarlierLostLaterKept` is a run and a crash that do it; `CrashPrefix.PrefixExactly` says that every
  crash leaves a prefix of what was written if and only if no log holds unsynced operations while a newer one holds
  operations too.
- `VersionEdit::Clear` leaves compaction pointers in place (version_edit.cc:26-39). Decoding an edit's bytes gives it
  back if and only if the edit decoded into had none (`VersionEdits.EditRoundTrip`, with an input that fails in
  `VersionEdits.OldPointerStays`); the callers always decode into a fresh one.
- The reader's codes for the end of the file and for a bad record are the record types 5 and 6 (log_reader.h:80-90), and a
  fragment's type byte is returned unchecked: a fragment of type 5 or 6 with a valid checksum acts as one of these.
  `LogParsing` follows the code.
- `VersionSet::Recover` marks the log numbers as used before it overwrites the next file number, so the marks
  have no effect (version_set.cc:1000-1011). `Manifest.Recover` marks nothing; nothing proved here rests on the marks.
- In an empty message type tag 0 finds the terminator of the field array (pb_common.c:78-97), as `PbFields.FieldIter.Find`
  has it; the decoder then fails on its size, as `PbDecoding.DecodeMessage` has it.

## Model

| member | source | states |
|---|---|---|
| CrashSafety.NothingSyncedIsLost | Demo/Pods/leveldb-library/db/db_impl.cc:274-363 | After a crash at any point of any such run, what is on disk brings back every group that was ever acknowledged with sync, each group wholly or not at all and none that was not written, finds every table it names, in levels that are disjoint and in age order, and answers as these groups alone would at every snapshot from a floor on that the last sequence number has reached |
| CrashSafety.RunKeepsInv | Demo/Pods/leveldb-library/db/db_impl.cc:1355-1375 | Writes, switches, flushes, compactions, moves, installs, deletions, crashes and recovery steps keep the invariant in every run, levels and the order of logged groups included, and acknowledged groups only grow; the steps keep to the exact conditions: compactions are safe, flushed tables leave them room, moves leave no boundary file |
| CrashSafety.RecoveryCompletes | Demo/Pods/leveldb-library/db/db_impl.cc:1490-1530 | From whatever a crash leaves, the recovery steps can be carried through to a running engine that has every surviving group and no other, its levels in good order |
| CrashSafety.DeletionSparesTheNeeded | Demo/Pods/leveldb-library/db/db_impl.cc:218-272 | Obsolete-file deletion removes no table of a live version or pending output, no log that recovery would read, and not the current manifest |
| CrashSafety.RunningAnswers | Demo/Pods/leveldb-library/db/db_impl.cc:1109-1154 | Memtables over tables of a running engine answer, from the floor on, as all its finished groups together would |
| CrashSafety.LookUpAnswers | Demo/Pods/leveldb-library/db/db_impl.cc:1109-1154 | In any reachable running engine, after any crashes and recoveries, the lookup of memtable, immutable memtable and then the levels from the top, as VersionGet.Get carries it out, gives the visible value of all finished groups |
| DurableLevels.MergeEditLevels | Demo/Pods/leveldb-library/db/db_impl.cc:866-885 | The outputs that the drop rule made of the inputs, installed in the levels of the moment, answer as the inputs did, and leave the levels disjoint and in age order |
| DurableLevels.StepKeepsLevels | Demo/Pods/leveldb-library/db/db_impl.cc:488-565 | Every step of engine, crash and recovery keeps the tables of each manifest state and of memory in levels that are disjoint and in age order; tables recovered from logs go to level 0 in the order of their age |
| CrashPrefix.PrefixExactly | Demo/Pods/leveldb-library/db/db_impl.cc:1318-1372 | Every crash in a state of any run leaves a prefix of the groups written, exactly if no log holds unsynced operations while a newer log holds operations |
| CrashPrefix.EarlierLostLaterKept | Demo/Pods/leveldb-library/db/db_impl.cc:1318-1372 | A run from the empty database, and a crash after it, that lose an earlier group and keep a later one |
| LogOrder.StepKeepsOrder | Demo/Pods/leveldb-library/db/db_impl.cc:274-363 | In the logs that recovery reads, later records are newer, and what it has converted so far is what comes first |
| DurableRecovery.TargetIsGood | Demo/Pods/leveldb-library/db/db_impl.cc:365-486 | The manifest that ends recovery stands for all that survived and needs no log but the new one |
| Disks.CrashIsRecoverable | Demo/Pods/leveldb-library/db/version_set.cc:905-1025 | Any prefix of the unsynced part of logs and manifest leaves a disk from which the synced groups come back |
| DurableSteps.FlushPointIsGood | Demo/Pods/leveldb-library/db/db_impl.cc:534-565 | The edit of a memtable flush, which gives up the older logs, still covers everything acknowledged |
| DurableSteps.CompactionPointIsGood | Demo/Pods/leveldb-library/db/db_impl.cc:866-885 | The edit of a compaction whose outputs answer as its inputs (which DurableLevels.MergeEditLevels proves) covers everything acknowledged, although a flush may have been installed since its inputs were chosen |
| DurableSteps.DeleteStep | Demo/Pods/leveldb-library/db/db_impl.cc:218-272 | A deletion that the keep test allows leaves a disk from which everything acknowledged can be recovered |
| GroupCommit.RunKeepsInv | Demo/Pods/leveldb-library/db/db_impl.cc:1194-1265 | Whatever the interleaving of writers, one leader at the front of the queue, followers waiting, and log and memtable hold exactly the finished groups and the part of the current one written so far |
| GroupCommit.OneLeader | Demo/Pods/leveldb-library/db/db_impl.cc:1201-1224 | At most one writer is past the wait loop, so at most one writes the log or the memtable while the mutex is free |
| GroupCommit.ExactlyOneGroup | Demo/Pods/leveldb-library/db/db_impl.cc:1247-1256 | Whoever has left the queue was in exactly one group |
| GroupCommit.GroupsInOrder | Demo/Pods/leveldb-library/db/db_impl.cc:1211-1217 | Groups are in queue order, and their ranges of sequence numbers are disjoint and in the same order |
| GroupCommit.NoPartialGroup | Demo/Pods/leveldb-library/db/db_impl.cc:1245 | A reader at LastSequence sees all of every group that succeeded, nothing of one that failed, and nothing else |
| GroupCommit.SnapshotStaysStable | Demo/Pods/leveldb-library/db/db_impl.cc:1175-1178 | Over any number of later steps of any threads, a reader at an earlier LastSequence sees the same |
| GroupCommit.AcknowledgedWrite | Demo/Pods/leveldb-library/db/db_impl.cc:1222-1265 | A write that returned success has its operations visible under consecutive numbers, its group in the log, and on disk if it asked for sync |
| BatchGroups.BuildBatchGroup | Demo/Pods/leveldb-library/db/db_impl.cc:1269-1314 | The group is the longest prefix of the queue whose members may join (no sync write behind a non-sync leader, no more than the size limit), and its operations are theirs in order |
| GroupCommit.PopGroup | Demo/Pods/leveldb-library/db/db_impl.cc:1247-1256 | The loop takes the group off the queue and tells every follower, and nobody else, the outcome |
| GroupEntries.GroupEntriesAreNumbered | Demo/Pods/leveldb-library/db/write_batch.cc:112-134 | A group becomes as many entries as it has operations, each under its own number of the range |
| WriteBatches.BatchRoundTrip | Demo/Pods/leveldb-library/db/write_batch.cc:42-80 | The bytes of a batch parse back to the operations it was filled with, and to its number and count |
| WriteBatches.InsertInto | Demo/Pods/leveldb-library/db/write_batch.cc:42-134 | For any bytes: which operations reach the memtable under which numbers, and that success means well-formed with the right count |
| WriteBatches.WriteBatch.Append | Demo/Pods/leveldb-library/db/write_batch.cc:141-145 | Appending one batch to another gives the byte form of the operations of both |
| WriteBatches.WriteBatch.Add | Demo/Pods/leveldb-library/db/write_batch.cc:98-110 | Put and Delete give the byte form of the batch with one more operation |
| WriteBatches.Commit | Demo/Pods/leveldb-library/db/db_impl.cc:1213-1232 | Given its sequence number, a batch goes into the memtable whole, its operations in order under consecutive numbers |
| LsmRun.RunKeepsInv | Demo/Pods/leveldb-library/db/db_impl.cc:686-769 | In every run of writes, snapshots, switches, flushes, moves and merges, with flushes while a merge is under way and older snapshots held, levels stay disjoint and in age order, and what is stored answers like everything ever written at every snapshot held; guard, before each step: a move leaves no boundary file behind, a merge that starts is safe, and a table flushed at its output level has all that it keeps on one side |
| CleanRuns.CleanRunKeepsInv | Demo/Pods/leveldb-library/db/version_set.cc:1345-1411 | In every run whose merges split no user key, or start while no snapshot older than the newest of their input entries is held, and whose flushes stay out of what a merge keeps, every step meets that guard, and every state is good and boundary-clean |
| CleanRuns.AutomaticRunKeepsInv | Demo/Pods/leveldb-library/db/version_set.cc:1291-1343 | In every run whose merges are all automatic and start while no snapshot is held, whatever is flushed in between, every state is good and boundary-clean |
| LsmRun.OldestOnlyGrows | Demo/Pods/leveldb-library/db/snapshot.h:38-61 | New snapshots go to the end of the list, so its oldest is its minimum and smallest_snapshot only grows |
| LsmRun.Get | Demo/Pods/leveldb-library/db/db_impl.cc:1109-1154 | Memtable, then immutable memtable, then version: the value is the visible one of everything written |
| BoundaryFiles.DeletedValueReturns | Demo/Pods/leveldb-library/db/version_set.cc:1466-1474 | A run from the empty database, all picks automatic, a snapshot held during one merge, at whose end the lookup finds a value that was deleted |
| BoundaryFiles.DroppedMarkerBringsBack | Demo/Pods/leveldb-library/db/version_set.cc:1345-1411 | Well-formed, age-ordered levels and an automatic pick on them whose merge drops a marker and brings a value back |
| GapRun.FlushIntoGap | Demo/Pods/leveldb-library/db/db_impl.cc:913-924 | A run from the empty database, without snapshots: a manual merge starts, a memtable is flushed into the gap between its files, the merge is installed, and its output level has two overlapping files |
| CompactionMeaning.CompactionKeepsMeaning | Demo/Pods/leveldb-library/db/db_impl.cc:938-972 | Every user key sees the same value at every snapshot not older than smallest_snapshot, before and after the merge is installed, exactly if no marker that is dropped has the newest remaining entry of its key, a value, in a file of the two levels that stays behind |
| CompactionWindow.InstallKeepsVersion | Demo/Pods/leveldb-library/db/db_impl.cc:866-885 | A merge installed in a version that flushes have added to since it started leaves levels disjoint, and the age order exactly if no file of its level that stays has an older entry of a user key that it keeps |
| CompactionWindow.InstallKeepsAnswers | Demo/Pods/leveldb-library/db/db_impl.cc:938-972 | It keeps every answer from its smallest snapshot on exactly if no marker that it drops uncovers a value, although the base-level test was made on the version of its start |
| CompactionWindow.FlushKeepsFit | Demo/Pods/leveldb-library/db/db_impl.cc:913-924 | After a flush the merge still fits, so that its installation does no harm, exactly if the flushed table stays out of what it keeps |
| CompactionWindow.NoGapKeepsFlushOut | Demo/Pods/leveldb-library/db/version_set.cc:502-528 | A flush cannot land beside the outputs of a merge without gaps: it would have met an input on its way down |
| CompactionWindow.InstallBesideFlush | Demo/Pods/leveldb-library/db/version_set.cc:759-772 | With tables flushed beside it, a merge leaves levels disjoint, however its outputs are cut and numbered, exactly if each of them has all that the merge keeps on one side |
| CompactionWindow.CutsStayClear | Demo/Pods/leveldb-library/db/db_impl.cc:930-936 | Every cut of what a merge keeps stays clear of a table exactly if all of it lies on one side of the table |
| CompactionWindow.SafeExactly | Demo/Pods/leveldb-library/db/db_impl.cc:866-885 | Installed in the version it was picked for, a merge leaves levels disjoint, and keeps age order and answers exactly if it was safe: a condition on levels, inputs and snapshot before it starts |
| CompactionWindow.CleanIsSafe | Demo/Pods/leveldb-library/db/version_set.cc:1345-1411 | On boundary-clean levels every closed pick is safe |
| CompactionWindow.InstallKeepsClean | Demo/Pods/leveldb-library/db/db_impl.cc:938-972 | If no held snapshot was older than its inputs, a merge leaves boundary-clean levels boundary-clean, also after flushes |
| CompactionRun.Compaction.IsBaseLevelForKey | Demo/Pods/leveldb-library/db/version_set.cc:1484-1503 | For non-decreasing keys the moving pointers answer exactly whether a deeper level can hold the key |
| CompactionRun.Compaction.DoCompactionWork | Demo/Pods/leveldb-library/db/db_impl.cc:887-1030 | The loop writes exactly the entries that the drop rule keeps, in order, cut into files none of which was full before its last entry |
| CompactionRun.Compaction.ShouldStopBefore | Demo/Pods/leveldb-library/db/version_set.cc:1505-1526 | An output ends exactly when the grandparent bytes passed since the last cut exceed the limit |
| DropRule.DropsKeepMeaning | Demo/Pods/leveldb-library/db/db_impl.cc:938-972 | Dropping hidden entries and base-level markers changes no answer that can still be asked for, exactly if no dropped marker that is the newest at the smallest snapshot has a value as the newest entry outside the compaction |
| CompactionMeaning.CompactionKeepsLevels | Demo/Pods/leveldb-library/db/version_set.cc:759-772 | The edit leaves levels from 1 on sorted and disjoint, so that MaybeAddFile never trips its assertion |
| CompactionMeaning.CompactionKeepsAge | Demo/Pods/leveldb-library/db/version_set.cc:1291-1343 | No newer data ends up below older data, exactly if no file of the level that stays behind holds an older entry of a user key that the merge keeps |
| CompactionMeaning.CompactionKeepsClean | Demo/Pods/leveldb-library/db/version_set.cc:1345-1411 | Boundary-clean levels stay so if the outputs share no user key |
| CompactionMeaning.NoSnapshotNoSharedKey | Demo/Pods/leveldb-library/db/db_impl.cc:938-972 | With no snapshot older than the newest entry a user key keeps at most one entry, so no cut separates one |
| CompactionMeaning.TrivialMove | Demo/Pods/leveldb-library/db/db_impl.cc:717-735 | A trivial move keeps the levels well formed and every entry, and the age order exactly if no other file of the level begins with the user key the moved one ends with; clean levels stay clean |
| OverlappingInputs.GetOverlappingInputs | Demo/Pods/leveldb-library/db/version_set.cc:531-572 | At level 0 the restarting scan ends, with the files that meet the least range around the request that is closed under overlap; below, with the files that meet the request |
| PickCompaction.VersionSet.PickCompaction | Demo/Pods/leveldb-library/db/version_set.cc:1291-1343 | Every pick is closed: its inputs contain all files of both levels that overlap its range; it is the one that file, expansion and size limit determine, it has no gaps, and the pointer moves to its end |
| PickCompaction.NoGapInPick | Demo/Pods/leveldb-library/db/version_set.cc:1345-1411 | Every user key in the range of an automatic pick lies in one of its files |
| PickCompaction.VersionSet.SetupOtherInputs | Demo/Pods/leveldb-library/db/version_set.cc:1345-1411 | The inputs stay closed through the expansion, which drops none |
| PickCompaction.VersionSet.CompactRange | Demo/Pods/leveldb-library/db/version_set.cc:1413-1446 | A manual compaction finds nothing exactly if no file meets the range, and otherwise the closed pick of the files that the size limit leaves |
| FlushLevel.PickLevelForMemTableOutput | Demo/Pods/leveldb-library/db/version_set.cc:502-528 | The level is the deepest allowed one above which nothing overlaps, and the reason it goes no deeper |
| FlushLevel.FlushKeepsInvariants | Demo/Pods/leveldb-library/db/version_set.cc:502-528 | A memtable flushed to that level keeps levels disjoint, in age order and boundary-clean |
| FlushLevel.SomeFileOverlapsRange | Demo/Pods/leveldb-library/db/version_set.cc:121-157 | The linear and the binary search both answer exactly whether some file overlaps |
| VersionGet.Get | Demo/Pods/leveldb-library/db/version_set.cc:332-429 | Stopping at the first hit finds what the levels from the top have first, in any well-formed version; if the levels are in age order that is the newest entry at or below the snapshot over all files |
| VersionGet.FoundIsVisible | Demo/Pods/leveldb-library/db/version_set.cc:332-429 | In age order, what a search level by level finds is the visible value of all entries together |
| VersionGet.FilesAroundIndex | Demo/Pods/leveldb-library/db/version_set.cc:371-388 | One file of a level is enough, even when a user key spans two of its files |
| VersionGet.FindFile | Demo/Pods/leveldb-library/db/version_set.cc:86-105 | Binary search finds the first file whose largest key is at or after the key |
| Versions.LevelIsARun | Demo/Pods/leveldb-library/db/version_set.cc:759-772 | A sorted level of disjoint files is a sequence of consecutive ranges |
| MemTables.MemTable.Get | Demo/Pods/leveldb-library/db/memtable.cc:108-145 | One seek finds the newest entry of the user key at or below the snapshot, or shows that there is none |
| MemTables.MemTable.Add | Demo/Pods/leveldb-library/db/memtable.cc:82-106 | Adds exactly the entry with the packed number and type |
| SkipListRace.SearchesAreSafe | Demo/Pods/leveldb-library/db/skiplist.h:337-370 | After every single store each level is a sorted sub-list of the one below; every finished search has a node at or after its target and skipped no key that was present when it began |
| SkipListRace.AnswerIsExactAtLastLoad | Demo/Pods/leveldb-library/db/skiplist.h:262-301 | At its last load a search has the exact answer for the list of that moment |
| SkipLists.SkipList.Insert | Demo/Pods/leveldb-library/db/skiplist.h:337-370 | Adds exactly the entry and keeps every level in order |
| SkipLists.SkipList.FindGreaterOrEqual | Demo/Pods/leveldb-library/db/skiplist.h:262-281 | Finds the first node at or after the key, and its predecessor on every level |
| SkipLists.SkipList.Contains | Demo/Pods/leveldb-library/db/skiplist.h:373-380 | Answers whether an entry with that key is in the list |
| SkipInsertion.Publish | Demo/Pods/leveldb-library/db/skiplist.h:363-369 | The one store that makes a node visible at a level keeps every level sorted and nested |
| SkipInsertion.StoreOwnLink | Demo/Pods/leveldb-library/db/skiplist.h:363-368 | The store before it changes no level and makes the node ready for publication |
| MemTables.Iterator.Prev | Demo/Pods/leveldb-library/db/skiplist.h:214-222 | Without back links, a search goes to the last entry before the current one |
| DBIters.DBIter.Next | Demo/Pods/leveldb-library/db/db_iter.cc:146-203 | From any valid position, whichever way it was moving, Next goes one on in the list of live user keys and values |
| DBIters.DBIter.Prev | Demo/Pods/leveldb-library/db/db_iter.cc:205-272 | Prev goes one back in the same list, across changes of direction |
| DBIters.DBIter.Seek | Demo/Pods/leveldb-library/db/db_iter.cc:274-286 | Seek goes behind exactly the live user keys smaller than the target |
| DBIters.DBIter.SeekToLast | Demo/Pods/leveldb-library/db/db_iter.cc:299-304 | SeekToLast goes to the last live user key |
| DBIters.DBIter.KeyAndValue | Demo/Pods/leveldb-library/db/db_iter.cc:66-73 | In both directions key and value are those of the list at the iterator position |
| LiveEntries.LiveListIsVisible | Demo/Pods/leveldb-library/db/db_iter.cc:173-203 | The list of live user keys is strictly increasing and pairs each with the value visible at the sequence number |
| LiveEntries.VisibleIsLive | Demo/Pods/leveldb-library/db/db_iter.cc:173-203 | Every visible user key is in it, with its value |
| Mergers.MergingIterator.Next | Demo/Pods/leveldb-library/table/merger.cc:59-83 | With distinct keys Next goes one on in the sorted union from either direction; moving forward it advances only the first smallest child |
| Mergers.MergingIterator.Prev | Demo/Pods/leveldb-library/table/merger.cc:85-112 | Prev goes one back in the sorted union from either direction |
| Mergers.MergingIterator.Seek | Demo/Pods/leveldb-library/table/merger.cc:51-57 | Seek goes to the first entry of the sorted union at or after the target |
| Mergers.ScanForward | Demo/Pods/leveldb-library/table/merger.cc:35-83 | A scan forward yields the full sorted multiset of the children, duplicates included |
| TwoLevelIterators.TwoLevelIterator.Next | Demo/Pods/leveldb-library/table/two_level_iterator.cc:112-136 | Next goes one on in the concatenation of the blocks, past empty ones |
| TwoLevelIterators.TwoLevelIterator.Prev | Demo/Pods/leveldb-library/table/two_level_iterator.cc:118-149 | Prev goes one back, past empty blocks |
| TwoLevelIterators.TwoLevelIterator.Seek | Demo/Pods/leveldb-library/table/two_level_iterator.cc:91-96 | Seek goes to the first item of all at or after the key |
| TwoLevelIterators.TableIsSeparated | Demo/Pods/leveldb-library/table/table.cc:220-224 | The index of a built table separates its blocks, so its iterator scans the items that were added |
| LogReaders.ReadPrefix | Demo/Pods/leveldb-library/db/log_reader.cc:60-182 | Reading any byte prefix of a written file returns exactly the records wholly inside it, each at its true start, and reports no corruption |
| LogReaders.WriteCutRead | Demo/Pods/leveldb-library/db/log_reader.cc:60-182 | Records written in any sessions, the file cut off anywhere, and read: exactly the records wholly there come back, each at its true start, with nothing reported |
| LogRoundTrip.PrefixReadsBack | Demo/Pods/leveldb-library/db/log_reader.cc:60-182 | After the first k records the next read finds record k whole or nothing, whatever the tail |
| LogReaders.Reader.ReadRecord | Demo/Pods/leveldb-library/db/log_reader.cc:60-182 | For any bytes at all the loop does what the parse of the file from that position says, drops and offsets included, and also for the type bytes that equal the codes of end of file and bad record |
| LogReaders.Reader.ReadPhysicalRecord | Demo/Pods/leveldb-library/db/log_reader.cc:199-281 | For any bytes: trailers skipped, torn tails taken for the end, bad lengths and checksums reported with what they cost, the type byte passed on as it is |
| LogWriters.Writer.AddRecord | Demo/Pods/leveldb-library/db/log_writer.cc:36-82 | Appends the fragments of the record as its position in the file demands, also after reopening |
| LogWriters.WriteSessions | Demo/Pods/leveldb-library/db/log_writer.cc:28-31 | Writers opened one after the other on the same file, each with records of its own, leave the file that one writer would have left |
| LogFormat.UnmaskUndoesMask | Demo/Pods/leveldb-library/util/crc32c.h:31-40 | Masking a checksum is undone exactly |
| BlockIters.Iter.Seek | Demo/Pods/leveldb-library/table/block.cc:165-203 | Seek lands on the first key at or after the target, or becomes invalid if there is none |
| BlockIters.Iter.Prev | Demo/Pods/leveldb-library/table/block.cc:144-163 | Prev goes to the entry before, by way of a restart point |
| BlockIters.Iter.Next | Demo/Pods/leveldb-library/table/block.cc:139-142 | Next goes to the entry after |
| BlockIters.ScanBlock | Demo/Pods/leveldb-library/table/block.cc:205-208 | A scan yields the entries of the block |
| BlockIters.Iter.ParseNextKey | Demo/Pods/leveldb-library/table/block.cc:226-251 | Parsing restores the whole key from the one before it and keeps the restart index right |
| BlockBuilders.BlockBuilder.Add | Demo/Pods/leveldb-library/table/block_builder.cc:73-107 | For any restart interval the entry is laid out behind the others, sharing the longest common prefix with the key before it, and nothing at restart points |
| BlockBuilders.BlockBuilder.Finish | Demo/Pods/leveldb-library/table/block_builder.cc:63-71 | The finished block has the layout that the iterator expects |
| BlockFormat.EntryRoundTrip | Demo/Pods/leveldb-library/table/block.cc:53-74 | An entry decodes to its lengths and bytes, by the fast path or the other |
| Tables.InternalGet | Demo/Pods/leveldb-library/table/table.cc:226-255 | The saver is handed the first item at or after the key whenever that is of its user key, and never anything else, despite shortened separators and filters |
| TableBuilders.TableBuilder.Add | Demo/Pods/leveldb-library/table/table_builder.cc:92-121 | Adds the item; the index entry of a written block waits for the first key of the next |
| TableBuilders.TableBuilder.Finish | Demo/Pods/leveldb-library/table/table_builder.cc:199-254 | The finished table holds exactly the items added, indexed and filtered |
| Tables.BlockDecides | Demo/Pods/leveldb-library/table/table.cc:226-255 | The block the index leads to has the first item at or after the key, or that item is of another user key |
| TableKeys.FindSeparator | Demo/Pods/leveldb-library/db/dbformat.cc:68-85 | A separator is at or after the last key, before the next one, and has a user key of its own or is the last key |
| FilterBlocks.FilterBlockBuilder.Finish | Demo/Pods/leveldb-library/table/filter_block.cc:36-50 | The bytes of the filter block, offset array and base included; every key matches in the filter of its own block, and so does it in the bytes |
| FilterBlocks.BytesReadBack | Demo/Pods/leveldb-library/table/filter_block.cc:78-110 | The reader, from offset array and filters as bytes, answers as the filters that were built |
| FilterBlocks.GeneratedAccounts | Demo/Pods/leveldb-library/table/filter_block.cc:52-76 | A new filter answers for the keys that were waiting, and leaves the older filters as they were |
| Bloom.CreateFilter | Demo/Pods/leveldb-library/util/bloom.cc:35-61 | The bytes appended have all the bits of every key set and no others, and the number of probes behind them; every key matches |
| Bloom.KeyMayMatch | Demo/Pods/leveldb-library/util/bloom.cc:63-87 | From the bytes of a filter: a match exactly if all the bits of the key are set, or the filter is of an unknown kind, and never on one shorter than two bytes |
| Comparator.FindShortestSeparator | Demo/Pods/leveldb-library/util/comparator.cc:29-51 | A shorter string between the two whenever the code can make one, and otherwise the first |
| Comparator.RankIsOrderEmbedding | Demo/Pods/leveldb-library/util/comparator.cc:25-27 | The bytewise order is the order of ranks among the reals |
| Coding.VarintRoundTrip | Demo/Pods/leveldb-library/util/coding.cc:131-170 | Varints of either width read back, whatever follows them |
| Coding.GetVarint64Ptr | Demo/Pods/leveldb-library/util/coding.cc:143-158 | The shifting loop computes the parse of the varint, cut to 64 bits |
| Coding.SliceRoundTrip | Demo/Pods/leveldb-library/util/coding.cc:98-101 | Length-prefixed slices read back |
| VersionEdits.EditRoundTrip | Demo/Pods/leveldb-library/db/version_edit.cc:41-210 | Decoding what EncodeTo wrote gives the edit back exactly if the edit decoded into has no compaction pointers |
| VersionEdits.DecodedInto | Demo/Pods/leveldb-library/db/version_edit.cc:26-39 | Decoding into an edit with compaction pointers keeps these in front of the new ones, and everything else is as encoded |
| VersionEdits.OldPointerStays | Demo/Pods/leveldb-library/db/version_edit.cc:26-39 | An edit, and one to decode into, from which the pointer does not go away |
| VersionEdits.DecodeFrom | Demo/Pods/leveldb-library/db/version_edit.cc:109-210 | The loop does what the field-by-field parse of the record says, and lets no level out of range through |
| Builder.Builder.SaveTo | Demo/Pods/leveldb-library/db/version_set.cc:711-757 | Each level becomes the sorted listing of its surviving files |
| EditBatches.BatchEqualsStepwise | Demo/Pods/leveldb-library/db/version_set.cc:665-772 | Applying a run of edits at once gives the levels that applying them one by one gives |
| EditBatches.OneMoreEdit | Demo/Pods/leveldb-library/db/version_set.cc:665-708 | One more edit on top of a batch gives what the edit makes of the result of the batch |
| Manifest.Reopen | Demo/Pods/leveldb-library/db/version_set.cc:905-1025 | After any successful run of LogAndApply recovery succeeds and finds the levels and log numbers of memory, and every compaction pointer that was logged |
| Manifest.ManifestRebuildsCurrent | Demo/Pods/leveldb-library/db/version_set.cc:820-903 | Whatever the manifest adds up to is the current version, with its log numbers and logged compaction pointers |
| Manifest.VersionSet.LogAndApply | Demo/Pods/leveldb-library/db/version_set.cc:820-903 | Installs the next version, moves the compaction pointers the edit names, and appends the snapshot, if the manifest is new, and the filled-in edit |
| Manifest.SnapshotAddsUp | Demo/Pods/leveldb-library/db/version_set.cc:1102-1130 | The snapshot record alone adds up to the version and the compaction pointers it was taken of |
| Manifest.VersionSet.SetCompactPointer | Demo/Pods/leveldb-library/db/version_set.cc:1405-1410 | A pick moves its pointer in memory at once, and until an edit that names the level is logged the manifest need not have it |
| Caches.LRUCache.Insert | Demo/Pods/leveldb-library/util/cache.cc:269-303 | The new entry replaces the one of its key; then the oldest entries without clients go, one by one, until the rest fits or none is left, and never one more than needed |
| Caches.LRUCache.Lookup | Demo/Pods/leveldb-library/util/cache.cc:255-262 | Finds the entry that the map from keys has, and counts the new client |
| Caches.LRUCache.Release | Demo/Pods/leveldb-library/util/cache.cc:264-267 | The last client puts the entry at the young end of the LRU list, or has it deleted if the cache has given it up |
| Caches.LRUCache.Erase | Demo/Pods/leveldb-library/util/cache.cc:318-321 | The key is gone from the map; its entry is deleted at once only if nobody holds it |
| Caches.LRUCache.Prune | Demo/Pods/leveldb-library/util/cache.cc:323-333 | Every entry without clients goes, oldest first |
| Caches.EvictionMeans | Demo/Pods/leveldb-library/util/cache.cc:294-301 | Evictions pass exactly the oldest entries to their deleters, give back their charges and spare entries with clients |
| CacheShards.EraseKeepsGood | Demo/Pods/leveldb-library/util/cache.cc:305-316 | Giving an entry up keeps usage the sum of cached charges, lists and reference counts in step, and deletions unique |
| CacheShards.RefKeepsGood | Demo/Pods/leveldb-library/util/cache.cc:221-227 | So does a new reference |
| CacheShards.ReleaseKeepsGood | Demo/Pods/leveldb-library/util/cache.cc:229-240 | So does a released one |
| Caches.ClientsKeepAlive | Demo/Pods/leveldb-library/util/cache.cc:24-47 | An entry with clients is not deleted, and one is deleted exactly when neither clients nor the cache hold it |
| HandleTables.HandleTable.Insert | Demo/Pods/leveldb-library/util/cache.cc:80-94 | Through the slot that FindPointer gives, in the array or in a handle, the new handle takes the place of the old one of its key, which is handed back, or the end of the chain; the chains agree with a map |
| HandleTables.HandleTable.Resize | Demo/Pods/leveldb-library/util/cache.cc:125-149 | Relinking every next_hash in place into more buckets loses and repeats no handle |
| HandleTables.HandleTable.Remove | Demo/Pods/leveldb-library/util/cache.cc:96-104 | Unlinks exactly the handle of the key through the slot that points to it |
| HandleTables.Splice | Demo/Pods/leveldb-library/util/cache.cc:116-123 | One store through the slot at a place of a chain replaces the rest of that chain and leaves the other chains alone |
| PbRoundTrip.MessageRoundTrip | Demo/Pods/nanopb/pb_decode.c:901-1049 | Decoding an encoded in-range message into a fresh struct succeeds and gives it back, up to the contents of absent fields |
| PbEncoding.WriteSubMessage | Demo/Pods/nanopb/pb_encode.c:682-730 | The second pass writes exactly as many bytes as the first one counted, at any depth, so that "submsg size changed" is never reported |
| PbEncoding.WriteMessage | Demo/Pods/nanopb/pb_encode.c:494-516 | Encoding writes the wire form of the message, sizing or not, and fails only if that does not fit |
| PbEncoding.WritePackedArray | Demo/Pods/nanopb/pb_encode.c:126-175 | A packed array is announced with its exact size |
| PbFields.DecodeNoInit | Demo/Pods/nanopb/pb_decode.c:901-1049 | For any input, success means that the records of the input, one after the other to its end, have the tags of the first 64 required fields among theirs; with distinct tags the loop does what the decoder function says and the tags are WireTags of the input |
| PbFields.DecodedHasRequired | Demo/Pods/nanopb/pb_decode.c:1013-1045 | Whenever decoding succeeds, the tag of every one of the first 64 required fields is among the tags on the wire |
| PbFields.CheckRequired | Demo/Pods/nanopb/pb_decode.c:1013-1045 | The check of whole words and remaining bits is the check of every single bit |
| PbFields.FieldIter.Find | Demo/Pods/nanopb/pb_common.c:78-97 | From any starting position, and in an empty message type too, the circular search finds the tag if any field has it, with the required-field index exact |
| PbFields.FieldIter.CountRequired | Demo/Pods/nanopb/pb_decode.c:1018-1029 | Seeking to the end counts all required fields, wherever it starts |
| PbFieldBits.WordOfOnes | Demo/Pods/nanopb/pb_decode.c:1030-1043 | A word has the value of n ones exactly if those bits are set and no others |
| PbRoundTrip.FieldsDecode | Demo/Pods/nanopb/pb_decode.c:401-475 | The fields still to come decode on top of those already back, required fields noted |
| PbRoundTrip.ScalarRoundTrip | Demo/Pods/nanopb/pb_decode.c:1289-1461 | Every scalar in the range of its field comes back through its wire type |
| PbRoundTrip.PackedRoundTrip | Demo/Pods/nanopb/pb_decode.c:416-443 | Packed arrays come back whole |
| PbRoundTrip.ItemsDecode | Demo/Pods/nanopb/pb_decode.c:444-455 | Unpacked arrays come back item by item |
| PbRoundTrip.ZeroIsDefault | Demo/Pods/nanopb/pb_encode.c:215-296 | What the encoder takes for a proto3 default decodes to the same value |
| PbRoundTrip.Varint32RoundTrip | Demo/Pods/nanopb/pb_decode.c:182-247 | Canonical varints of 32 bits read back through the overflow checks |
| PbMessages.ZigZagRoundTrip | Demo/Pods/nanopb/pb_encode.c:596-605 | Zigzag coding is undone exactly and fits 64 bits |

## Left out

- The Swift application, Firebase, push notifications and the interface-only pods: plumbing without logic of its own.
- I/O errors, background errors (bg_error_) outside of group commit, and the reuse_logs path: every operation on the disk succeeds or the engine crashes.
- LsmRun.RunKeepsInv: runs with a step outside its guard are not covered, because the claim is false of steps like it: `BoundaryFiles` and `GapRun` have such runs, and the conditions are exact for one merge (`CompactionWindow.SafeExactly`, `CompactionWindow.InstallBesideFlush`) and one move (`CompactionMeaning.TrivialMove`). A memtable or a released snapshot can still hide the harm of a step outside the guard.
- CrashSafety.RunKeepsInv: the same steps are outside the durability runs, where the guard is part of `StartCompaction`, `AppendFlushEdit` and `MoveLevels`; output files have no sizes there.
- CrashSafety.NothingSyncedIsLost: as `CrashSafety.RunKeepsInv`.
- Compaction scores and seek statistics: what triggers a compaction is arbitrary (`Trigger`), and so is the file it starts from.
- Sizes: file sizes, block sizes and the size estimate of a block are arbitrary functions or numbers; the numbers of output files are arbitrary, and distinct where a manifest names them.
- Running out of the 56 bits of sequence numbers: `GroupCommit` numbers without end.
- WriteBatch byte sizes inside group commit: a batch carries its size as a number; `WriteBatches` gives the byte form.
- GroupCommit.LeaveAlone: a leader without a batch or without room leaves alone; which condition of MakeRoomForWrite made it wait or fail is not told apart.
- SkipListRace.SearchesAreSafe: stores and loads are sequentially consistent; a stale maximum height is allowed for.
- Cursors: the iterators below `DBIters` and `Mergers` are positions in sorted lists, always without errors.
- Log reading with an initial offset above 0 (`SkipToInitialBlock`, resyncing): the engine never asks for it.
- CRC32C tables: a checksum is any function of the bytes. Compression is the identity.
- LogFormat.StoredCrc: a checksum collision is not excluded for damaged bytes, so corruption is reported as the code would, not detected for certain.
- BlockFormat.DecodeEntry: the sum of two lengths does not wrap at 32 bits; in a block that was built it never does.
- A filter policy is any pair of functions without false negatives; `Bloom` is one. A table keeps its filters as `FilterBlocks` builds them, and their bytes are treated there.
- Table footer, metaindex, block handles as bytes and the block cache: a table is its index, its blocks by offset, and its filters; a block as bytes is `BlockIters`, and the two are not composed.
- Caches.LRUCache.Insert: the doubly linked LRU and in-use lists are sequences of handles; their next and prev pointers are not modelled.
- Cache sharding, mutexes and the destructor.
- nanopb: pointer and callback fields, extensions, fixed-count arrays, PB_WITHOUT_64BIT, default values other than zero, and streams with callbacks of their own.
- PbDecoding.MoreVarint32: the bit position does not wrap at 256, which only a varint of more than 36 bytes could show.
- PbDecoding.DecodeMessage: a union is one slot per member, of which at most one is set; bytes shared by the members are not modelled.
- `repair.cc`, `dumpfile.cc`, the C interface, histograms and statistics: they would add easy members only.
