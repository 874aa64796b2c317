# A verified model of the storage core

The application keeps its offline data in two vendored libraries: **LevelDB**, a
log-structured merge tree, and **nanopb**, a small encoder and decoder of Protocol Buffers.
This project models both in Dafny, in the form their code has (objects with fields, loops,
steps of concurrent protocols), and proves what they are for.

Everything rests on one small specification. An entry is a user key, a sequence number, a
type and a value. Entries sort by user key, then by falling sequence number. The *view* of a
key at a sequence number is the value of the newest entry of the key that is not newer, and
there is none if that entry is a deletion (`Views`).

`dafny verify dfyconfig.toml` checks all modules together.

## What is proved

- **Compaction** (`MergeRules`, `Compaction`, `CompactionInputs`, `CompactionPicker`,
  `CompactionMeaning`). Which entries a merge drops, how outputs are split, and how inputs are
  chosen. Compaction keeps every view from the smallest snapshot on *exactly when* no deletion
  that it drops is followed, in a file of the output level that was not chosen, by a visible
  value of the same key. Input selection does not establish this: it completes user keys only
  on the input level. `CompactionExample` is a store in which a deleted value comes back.
- **Flushes during a merge** (`FlushDuring`, `FlushExample`). The merge loop writes out a full
  memtable in its midst, and the state machine of the store does so too. On the entries that
  adds nothing to what the merge may uncover; the levels stay apart *exactly when* no output
  covers a table that was flushed to the output level. A merge of one input file is always
  safe; `FlushExample` is a store in which a flushed value is lost to lookup.
- **Levels and lookup** (`Version`, `VersionBuilder`, `ManifestReplay`, `LevelRules`,
  `Lookup`). Flush, move, compaction and recovery keep the rules of the levels; under these
  rules the lookup that stops at the first hit returns the view.
- **The manifest** (`ManifestHistory`, `Manifest`, `ManifestRun`). From bytes to versions: the
  log, the encoding of edits and the builder together give back, from a manifest cut anywhere,
  the version that the disk stood for after the last whole edit that the run logged.
- **The store over its whole life** (`StoreState`, `StoreSteps`, `StoreSafety`, `StoreRun`,
  `StoreEffects`, `Recovery`). A state machine of writes, memtable switches, background work
  in its single steps, file deletion, crashes between any two steps and restarts. In every
  reachable state the disk alone holds the acknowledged writes, and readers see exactly the
  history; what is no longer needed goes: obsolete files, and entries that no snapshot sees.
- **Concurrency** (`SkipList`, `SkipListRun`, `GroupCommit`). A skip list that is searched
  between the single stores of insertions, and the writer queue with group commit, each under
  every interleaving of atomic steps with sequential consistency. A sync that was asked for
  comes between the record in the log and the insertions, and a failed one is final.
- **Iterators** (`Cursor`, `Merger`, `TwoLevel`, `DbIter`, `StoreIterator`). Each refines a
  position in a plain sorted sequence, through any sequence of operations and changes of
  direction; stacked over a whole store they show the history, in every reachable state.
- **Formats** (`Coding`, `LogFormat`, `LogDamage`, `WriteBatch`, `LogReplay`, `Footer`, `Block`,
  `VersionEdit`, `Comparator`, `Bloom`, `FilterBlock`, `Table`, `TableFormat`). Printers with
  their parsers: the log with every cut of its end and what damage does to it, write batches,
  blocks with shared prefixes, tables from their entries to their bytes and back, manifest
  edits.
- **Checksums and cache** (`Crc32c`, `HandleTable`, `LruCache`). The strided CRC is the
  bytewise one; the chained hash table is a map; the cache keeps its reference counts, lists
  and charges, and frees each handle once.
- **nanopb** (`NanopbFormat`, `NanopbParse`, `NanopbRoundTrip`, `NanopbWire`, `NanopbLimits`,
  `NanopbMerge`, `NanopbEncode`, `NanopbDecode`). Encoding and decoding driven by a descriptor tree, on
  streams and substreams, against one round trip for all descriptors and messages; what a
  reader without the descriptor finds in the bytes; what fields that come again do; no input
  overruns a member of a struct.

## Where code and comments disagree

- `AddBoundaryInputs` (db/version_set.cc:1367-1377) is documented as what keeps a deleted
  value from coming back. `SetupOtherInputs` calls it for the input level only
  (db/version_set.cc:1407 and 1422), so the output level can still be cut inside a user key.
- `Version::Get` and the rest rely on disjoint files below level 0, which `SaveTo` checks in
  debug builds only (db/version_set.cc:723-737). A flush inside a merge can break it
  (db/db_impl.cc:908-918 with db/version_set.cc:491-516).
- `ReadPhysicalRecord` returns the end of the file and a bad record as type numbers behind the
  largest one (db/log_reader.h:63-73), so a fragment of type 5 with a right checksum ends the
  log, and one of type 6 is passed over like a bad one (db/log_reader.cc:144-158).
- `VersionEdit::Clear` (db/version_edit.cc:26-39) leaves the compaction pointers, so decoding
  into a used object adds to them.
- The nanopb encoder accepts a string that fills its field without a terminator; the decoder
  refuses it (nanopb/pb_decode.c:1489-1507).

## Model

| member | source | states |
|---|---|---|
| CompactionMeaning.CompactionKeepsViewsExactly | ChatApplication/Pods/leveldb-library/db/db_impl.cc:878-1010 | for every choice of inputs, every key and every reader from the smallest snapshot on, a compaction leaves the view as it was if and only if no deletion it drops is followed by a file of the output level that was not chosen and begins with a visible value of the same user key |
| CompactionMeaning.SealedOutputKeepsViews | ChatApplication/Pods/leveldb-library/db/version_set.cc:1403-1462 | when no file of the output level continues the last user key of the chosen ones, every such view is kept |
| CompactionMeaning.OlderEntriesAreNext | ChatApplication/Pods/leveldb-library/db/version_set.cc:1533-1552 | older entries of a dropped deletion that take no part in the merge can only be in files of the output level that continue the largest chosen key |
| CompactionExample.DeletedValueReturns | ChatApplication/Pods/leveldb-library/db/version_set.cc:1407-1422 | a concrete store, well formed and with complete inputs, in which the merge brings a deleted value back |
| MergeRules.MergeKeepsView | ChatApplication/Pods/leveldb-library/db/db_impl.cc:935-999 | both drop rules together: a view at or after the smallest snapshot changes only where a dropped deletion was the newest entry, and then to what the untouched entries show |
| Compactions.DoCompactionWork | ChatApplication/Pods/leveldb-library/db/db_impl.cc:878-1010 | the outputs, in order, are exactly the surviving entries, numbered in turn: under the smallest snapshot at most one entry of a user key, no deletion of a key that no deeper file covers, and nothing else is missing; each output ends where it is big enough or where the scan of the grandparents stops, and nowhere else |
| Compactions.SurvivorsAreLeast | ChatApplication/Pods/leveldb-library/db/db_impl.cc:935-999 | what the loop keeps of any sorted input: at most one entry of a user key at or under the smallest snapshot, a deletion there only if a file from two levels further down on covers its key, and every missing entry is hidden from all snapshots by a newer one or is such a deletion |
| Compactions.Compaction.IsBaseLevelForKey | ChatApplication/Pods/leveldb-library/db/version_set.cc:1533-1552 | for user keys that never decrease, the moving level pointers answer true exactly if the key lies outside the range of every file from two levels further down on |
| Compactions.Compaction.ShouldStopBefore | ChatApplication/Pods/leveldb-library/db/version_set.cc:1554-1576 | an output has to end exactly when the grandparent files passed since the last stop, or since the first key, exceed the limit |
| CompactionInputs.GetOverlappingInputs | ChatApplication/Pods/leveldb-library/db/version_set.cc:519-559 | terminates; at level 0 with the least range closed under overlap, above with exactly the overlapping files |
| CompactionInputs.AddBoundaryInputs | ChatApplication/Pods/leveldb-library/db/version_set.cc:1378-1401 | terminates; the files that were there and, one after the other, exactly the smallest file that continues the largest key so far, until no file of the level continues it |
| CompactionInputs.FindSmallestBoundaryFile | ChatApplication/Pods/leveldb-library/db/version_set.cc:1344-1365 | none, or the file with the smallest start among those that continue the key |
| CompactionInputs.FindLargestKey | ChatApplication/Pods/leveldb-library/db/version_set.cc:1326-1340 | the largest key of the files, none for no files |
| CompactionInputs.GetRange | ChatApplication/Pods/leveldb-library/db/version_set.cc:1205-1224 | smallest and largest key over all inputs |
| CompactionInputs.PickLevelForMemTableOutput | ChatApplication/Pods/leveldb-library/db/version_set.cc:491-516 | the level is at most 2, nothing at it or above overlaps when it is below 0, and the climb stops only for one of the reasons of the code |
| CompactionPicker.VersionSet.SetupOtherInputs | ChatApplication/Pods/leveldb-library/db/version_set.cc:1403-1462 | as ChooseInputs says for the files the compaction began with; the next level's inputs are exactly the files meeting the final user-key range; grandparents and the compact pointer follow |
| CompactionPicker.VersionSet.CompactRange | ChatApplication/Pods/leveldb-library/db/version_set.cc:1464-1495 | no compaction just when nothing overlaps; otherwise it begins with the files of the range, below level 0 cut at the size limit, and is completed as above |
| CompactionPicker.VersionSet.PickCompaction | ChatApplication/Pods/leveldb-library/db/version_set.cc:1270-1322 | begins with the file after the compact pointer, or the one with too many seeks: alone below level 0, at level 0 with the least set of files that is closed under overlap; completed by its boundary files, or by the wider choice under its exact condition |
| CompactionPicker.MeetingIsLeast | ChatApplication/Pods/leveldb-library/db/version_set.cc:1307-1316 | the range that grows until no overlapping file sticks out of it selects the least set of level-0 files around the picked one that is closed under overlap |
| CompactionPicker.ChooseInputs | ChatApplication/Pods/leveldb-library/db/version_set.cc:1407-1453 | the first choice with its boundary files only, and the files of the next level that meet it; the wider choice is taken exactly if the next level has any, the wider one has more files, all together stay under 25 times the file size and no more files of the next level meet it; complete in both cases |
| CompactionPicker.LimitInputs | ChatApplication/Pods/leveldb-library/db/version_set.cc:1474-1487 | a manual compaction below level 0 keeps the shortest front part that reaches the size limit, or everything; still a contiguous run |
| Versions.FindFile | ChatApplication/Pods/leveldb-library/db/version_set.cc:88-106 | least index whose largest key is at or after the key |
| Versions.SomeFileOverlapsRange | ChatApplication/Pods/leveldb-library/db/version_set.cc:122-153 | true if and only if some file overlaps, by scan or by search |
| Versions.SortedLevelSearch | ChatApplication/Pods/leveldb-library/db/version_set.cc:366-382 | although a user key may span files, every older entry of it is behind the file that binary search finds, which has a newer one |
| Versions.SearchTableFindsNewest | ChatApplication/Pods/leveldb-library/db/version_set.cc:263-276 | stopping at the first entry at or after the lookup key finds the newest visible entry of the key, or there is none |
| Versions.SearchLevel0 | ChatApplication/Pods/leveldb-library/db/version_set.cc:349-365 | newest file first gives the newest visible entry of level 0 |
| Versions.SearchSortedLevel | ChatApplication/Pods/leveldb-library/db/version_set.cc:366-382 | one file per deeper level is enough |
| Versions.Get | ChatApplication/Pods/leveldb-library/db/version_set.cc:326-421 | Version::Get returns the view of the key over all entries of the version, and finds the key just when some entry is visible |
| Lookup.Get | ChatApplication/Pods/leveldb-library/db/db_impl.cc:1100-1145 | memtable, immutable memtable and version, in this order, give exactly the view over all three together |
| Lookup.UpperLayerDecides | ChatApplication/Pods/leveldb-library/db/db_impl.cc:1121-1135 | a layer that has a visible entry of the key decides; otherwise the layers below do |
| Lookup.MemTable.Add | ChatApplication/Pods/leveldb-library/db/memtable.cc:75-98 | one more entry, nothing else changes |
| Lookup.MemTable.Get | ChatApplication/Pods/leveldb-library/db/memtable.cc:100-134 | the view of the key over the memtable, and whether it knows the key at all |
| DbFormat.RankOrdersLikeBytes | ChatApplication/Pods/leveldb-library/util/comparator.cc:25-27 | user keys as numbers order like byte strings, and equal numbers mean equal strings |
| DbFormat.SeekKeySplitsByVisibility | ChatApplication/Pods/leveldb-library/db/dbformat.cc:121-138 | a lookup key stands exactly between the hidden and the visible entries of its user key |
| VersionBuilder.Builder.Apply | ChatApplication/Pods/leveldb-library/db/version_set.cc:650-693 | per level, the deletions and additions of one edit on top of those before |
| VersionBuilder.Builder.SaveTo | ChatApplication/Pods/leveldb-library/db/version_set.cc:695-755 | per level, the merge of the old files with the added ones, less the deleted, in key order |
| ManifestReplay.InstallIsApply | ChatApplication/Pods/leveldb-library/db/version_set.cc:650-755 | saving and then installing an edit is the same as applying it before saving |
| ManifestReplay.ReplayEqualsInstalls | ChatApplication/Pods/leveldb-library/db/version_set.cc:923-983 | one builder over a whole history of edits, saved once, gives the files that installing each edit in turn gave |
| ManifestReplay.RecoverRestoresVersion | ChatApplication/Pods/leveldb-library/db/version_set.cc:1088-1116 | a snapshot record followed by any later edits restores the version, level by level |
| ManifestHistory.HistoryIsFresh | ChatApplication/Pods/leveldb-library/db/version_set.cc:801-830 | the edits of every run of flushes, moves, compactions and reopenings add no number twice at a level, and installing them in turn gives the last version |
| ManifestHistory.StepIsConsistent | ChatApplication/Pods/leveldb-library/db/version_set.cc:801-830 | no change brings a number back to a level where it was, or to one above |
| ManifestHistory.ReopeningRestores | ChatApplication/Pods/leveldb-library/db/version_set.cc:886-996 | a snapshot of any sound version and the edits of any such run, read back by one builder, give the version that the run ended with |
| Manifests.Recover | ChatApplication/Pods/leveldb-library/db/version_set.cc:886-1010 | on any file: the first error decides, among them any report of the log reader, so a version is recovered only from a file in which nothing was dropped, of all its records, with the checks of names and numbers; of a written file, cut anywhere, exactly the records that are there in full |
| Manifests.DamagedManifestFails | ChatApplication/Pods/leveldb-library/db/version_set.cc:886-933 | a manifest one of whose fragments no longer fits its checksum or its block is refused, whatever follows the damage and however much is well before it |
| Manifests.ManifestRestores | ChatApplication/Pods/leveldb-library/db/version_set.cc:801-1010 | the bytes of a manifest, snapshot and edits, are read back to the version and the numbers of the last edit; the snapshot alone restores nothing |
| Manifests.CutManifestRestores | ChatApplication/Pods/leveldb-library/db/version_set.cc:924-1001 | a manifest cut at any byte restores the version after the last change whose record is there in full |
| ManifestRun.ManifestIsReplayed | ChatApplication/Pods/leveldb-library/db/version_set.cc:801-1010 | in every reachable state the version on disk is what one builder makes of the snapshot and the edits that the run itself has logged since the store was opened |
| ManifestRun.FileRestores | ChatApplication/Pods/leveldb-library/db/version_set.cc:801-1010 | the bytes of that manifest, cut anywhere, restore the version that the disk stood for at an earlier moment of the run, and the present one if no record was cut |
| LevelRules.BuildNextVersion | ChatApplication/Pods/leveldb-library/db/version_set.cc:801-823 | the next version is the current one with the edit installed |
| LevelRules.EditKeepsRules | ChatApplication/Pods/leveldb-library/db/version_set.cc:801-823 | an edit whose new files fit each other and the files that stay keeps every level rule |
| LevelRules.FlushKeepsRules | ChatApplication/Pods/leveldb-library/db/db_impl.cc:491-533 | a flush to the picked level keeps the rules and adds exactly its entries |
| LevelRules.MoveKeepsRules | ChatApplication/Pods/leveldb-library/db/db_impl.cc:719-733 | a trivial move keeps the rules and all entries |
| LevelRules.CompactionKeepsRules | ChatApplication/Pods/leveldb-library/db/db_impl.cc:860-876 | installing a compaction keeps the rules and puts the outputs in the place of the inputs |
| FlushDuringCompaction.RulesKeptExactly | ChatApplication/Pods/leveldb-library/db/db_impl.cc:860-930 | over any number of flushes while the merge ran: installing its outputs keeps the level rules if and only if no output covers a table that was flushed to the output level |
| FlushDuringCompaction.ViewsKeptExactly | ChatApplication/Pods/leveldb-library/db/db_impl.cc:860-1010 | over the same flushes, on the entries: no view from the smallest snapshot on changes if and only if the merge exposes nothing under the flushed entries |
| FlushDuringCompaction.FlushStaysMeanwhile | ChatApplication/Pods/leveldb-library/db/db_impl.cc:908-918 | a flush to the picked level, after any others, leaves all that a running merge relies on |
| FlushDuringCompaction.OnlyGapsAreCovered | ChatApplication/Pods/leveldb-library/db/version_set.cc:491-516 | a flushed table that an output covers lies in a gap between two chosen files of the input level |
| FlushDuringCompaction.OneInputIsClear | ChatApplication/Pods/leveldb-library/db/version_set.cc:491-516 | a merge of one file of the input level is never in the way of a flush |
| FlushExample.ResultIsUnsound | ChatApplication/Pods/leveldb-library/db/version_set.cc:491-516 | a manual compaction of two files, and a table flushed between them to the output level: the output covers it |
| FlushExample.FlushedValueIsLost | ChatApplication/Pods/leveldb-library/db/version_set.cc:346-400 | in that store the value is there, and the only file that the search of the level opens does not hold it |
| LevelRules.RecoveryKeepsRules | ChatApplication/Pods/leveldb-library/db/db_impl.cc:371-489 | the level-0 tables of recovery keep the rules and add exactly what the logs held |
| LevelRules.SoundIsWellFormed | ChatApplication/Pods/leveldb-library/db/version_set.cc:338-341 | the rules are what lookup by level relies on: sorted disjoint levels, newer above older, level 0 aged by number |
| Recovery.RecoverLogFile | ChatApplication/Pods/leveldb-library/db/db_impl.cc:371-489 | the tables written hold exactly the log so far in order of age, one for each memtable that is not empty; a memtable is closed with the first record that makes it larger than the write buffer, and not before; the last sequence number is known |
| Recovery.RecoverLogs | ChatApplication/Pods/leveldb-library/db/db_impl.cc:349-366 | all logs together give tables fit for level 0 that hold exactly the logged entries, each log cut into memtables of its own |
| Recovery.WriteLevel0Table | ChatApplication/Pods/leveldb-library/db/db_impl.cc:491-533 | an empty memtable gives no file, any other a file with exactly its entries |
| Recovery.InsertInto | ChatApplication/Pods/leveldb-library/db/write_batch.cc:132-137 | a record enters the memtable operation by operation, under consecutive sequence numbers |
| StoreRun.RunKeepsInv | ChatApplication/Pods/leveldb-library/db/db_impl.cc:280-369 | the invariant of the store holds in every reachable state, over writes, switches, flushes on their own and inside a merge, moves, compactions, manifest writes, file deletion, crashes at any point and restarts |
| StoreRun.GuardIsOftenMet | ChatApplication/Pods/leveldb-library/db/db_impl.cc:860-930 | a merge that was not interrupted by a flush, or has one file of the input level, meets the guard on flushed tables in every reachable state |
| StoreRun.AcknowledgedWritesAreRead | ChatApplication/Pods/leveldb-library/db/db_impl.cc:1185-1256 | an acknowledged write stays in the history forever, and readers at a snapshot or at the last sequence number see exactly the history |
| StoreRun.OpenReadersKeepTheirView | ChatApplication/Pods/leveldb-library/db/db_impl.cc:1062-1087 | an open iterator keeps its view and its files for as long as it stays open |
| StoreRun.DiskHoldsEverything | ChatApplication/Pods/leveldb-library/db/db_impl.cc:280-369 | in every state the tables of the manifest and the logs from its log number on show exactly the acknowledged writes, and at most the one that a crash completed |
| StoreRun.VersionsAreWellFormed | ChatApplication/Pods/leveldb-library/db/version_set.cc:784-799 | every version that is ever current obeys the level rules |
| StoreRun.HistoryOnlyGrows | ChatApplication/Pods/leveldb-library/db/db_impl.cc:1229-1239 | no step, crash or restart takes a write out of the history |
| StoreRun.CrashKeeps | ChatApplication/Pods/leveldb-library/db/db_impl.cc:280-369 | a crash between any two steps leaves a disk from which everything can be restored, with or without the write in flight |
| StoreRun.RecoverKeeps | ChatApplication/Pods/leveldb-library/db/db_impl.cc:280-369 | a restart establishes the invariant of a running store again |
| StoreRun.FailedRecoveryKeeps | ChatApplication/Pods/leveldb-library/db/db_impl.cc:371-489 | a restart that crashes on the way loses nothing either |
| StoreEffects.AcknowledgedBatchStays | ChatApplication/Pods/leveldb-library/db/db_impl.cc:1185-1256 | from the step that acknowledges a write on, every operation of its batch is in the history, in every later state, across crashes and restarts |
| StoreEffects.HistoryIsWritten | ChatApplication/Pods/leveldb-library/db/db_impl.cc:1185-1256 | nothing that was not written gets into the history |
| StoreEffects.SequencesHaveNoGaps | ChatApplication/Pods/leveldb-library/db/db_impl.cc:1205-1239 | in every running state the sequence numbers of the history are exactly 1 to the last one, each of one write, also after crashes and restarts |
| StoreEffects.SnapshotCoversHistory | ChatApplication/Pods/leveldb-library/db/db_impl.cc:1166-1169 | a new snapshot covers exactly the writes acknowledged so far |
| StoreEffects.ReadersAreOpen | ChatApplication/Pods/leveldb-library/db/db_impl.cc:1062-1087 | in every state the readers are exactly those that were opened, each with the version and memtables of that moment, and neither closed nor ended by a crash since |
| StoreEffects.FlushTakesMemtable | ChatApplication/Pods/leveldb-library/db/db_impl.cc:491-566 | from a switch of memtables to the record of its flush, whatever happens between: the record adds to the version exactly the entries of the memtable that was switched out, and names the log that was new then |
| StoreEffects.CompactionForgets | ChatApplication/Pods/leveldb-library/db/db_impl.cc:878-1010 | from the start of a compaction to its results, whatever happens between: the outputs are what the merge of the files chosen at the start leaves for the oldest snapshot that was open then, one entry for each user key under it and no useless deletion |
| StoreEffects.CleanupLeavesOnlyNeeded | ChatApplication/Pods/leveldb-library/db/db_impl.cc:223-278 | after the deletion of obsolete files the tables on disk are exactly those of the current version, of versions that readers hold and of the merge in progress, and the logs exactly those of the memtables |
| StoreSafety.DeleteObsoleteFilesKeeps | ChatApplication/Pods/leveldb-library/db/db_impl.cc:223-278 | no table or log that the current state, an open reader, a pending output or a restart needs is deleted |
| StoreSafety.CompactionApplyKeeps | ChatApplication/Pods/leveldb-library/db/db_impl.cc:860-876 | the record of a compaction that exposes nothing keeps the invariant |
| StoreSafety.FlushApplyKeeps | ChatApplication/Pods/leveldb-library/db/db_impl.cc:535-566 | the record of a flush, with its new log number, keeps the invariant |
| StoreSafety.WriteManifestKeeps | ChatApplication/Pods/leveldb-library/db/version_set.cc:837-858 | once the record is on disk a restart finds the new version, and nothing is lost before or after |
| StoreSafety.InstallVersionKeeps | ChatApplication/Pods/leveldb-library/db/version_set.cc:860-884 | installing the version after its record keeps the invariant |
| SkipLists.SkipList.FindGreaterOrEqual | ChatApplication/Pods/leveldb-library/db/skiplist.h:261-282 | the first node at or after the key, and per level the last node before it |
| SkipLists.SkipList.FindLessThan | ChatApplication/Pods/leveldb-library/db/skiplist.h:284-302 | the last node before the key |
| SkipLists.SkipList.FindLast | ChatApplication/Pods/leveldb-library/db/skiplist.h:304-322 | the last node |
| SkipLists.SkipList.Contains | ChatApplication/Pods/leveldb-library/db/skiplist.h:372-380 | whether the key is among the keys |
| SkipLists.SkipList.Insert | ChatApplication/Pods/leveldb-library/db/skiplist.h:336-370 | adds the key and nothing else: the new node is on exactly as many of the lowest levels as its height says and no other node moves; every level stays sorted and a sublist of the one below after each single store |
| SkipLists.Iterator.Next | ChatApplication/Pods/leveldb-library/db/skiplist.h:206-210 | one position further in key order |
| SkipLists.Iterator.Prev | ChatApplication/Pods/leveldb-library/db/skiplist.h:212-221 | one position back, or invalid at the first |
| SkipLists.Iterator.Seek | ChatApplication/Pods/leveldb-library/db/skiplist.h:223-226 | the position between the keys before the target and those at or after it |
| SkipLists.Iterator.SeekToFirst | ChatApplication/Pods/leveldb-library/db/skiplist.h:228-231 | the first position |
| SkipLists.Iterator.SeekToLast | ChatApplication/Pods/leveldb-library/db/skiplist.h:233-239 | the last position, or invalid when empty |
| SkipListRun.RunKeepsInv | ChatApplication/Pods/leveldb-library/db/skiplist.h:336-370 | with a search interleaved anywhere between the stores of any insertions, each level is sorted and a sublist of the level below |
| SkipListRun.InsertionsAreWhole | ChatApplication/Pods/leveldb-library/db/skiplist.h:336-370 | in every run: whenever the writer rests, the list has one node for each insertion, with its key and height, on exactly the levels below its height, and is as high as its highest node |
| SkipListRun.SearchNeverSkips | ChatApplication/Pods/leveldb-library/db/skiplist.h:261-282 | a concurrent search ends at a node of the list that is not before the target and not behind any key at or after the target that was there when the search was under way |
| SkipListRun.SearchIsBounded | ChatApplication/Pods/leveldb-library/db/skiplist.h:261-282 | it follows at most as many links as there are nodes by then, plus the levels |
| SkipListRun.SearchCanLook | ChatApplication/Pods/leveldb-library/db/skiplist.h:261-282 | the link it needs next is always there |
| GroupCommit.BuildBatchGroup | ChatApplication/Pods/leveldb-library/db/db_impl.cc:1260-1306 | the group is the longest front part of the queue that nobody stops, and its batch is theirs in order; no sync writer joins a leader that does not sync |
| GroupCommit.GroupIsLargest | ChatApplication/Pods/leveldb-library/db/db_impl.cc:1260-1306 | the group is the largest front part of the queue that is allowed as one: no sync writer behind a leader that does not sync, and together with other batches at most 128 KB above the first one, or 1 MB for a large first one |
| GroupCommit.SuccessIsCommitted | ChatApplication/Pods/leveldb-library/db/db_impl.cc:1185-1256 | in every interleaving a successful batch is in the log in one record and no other, and its entries are in the memtable under their sequence numbers, which no other insertion has |
| GroupCommit.NothingTwice | ChatApplication/Pods/leveldb-library/db/db_impl.cc:1205-1240 | in every state the memtable holds strictly rising sequence numbers, and the log the records of the groups in order, each once, with at most one more that is under way |
| GroupCommit.ServedInOrder | ChatApplication/Pods/leveldb-library/db/db_impl.cc:1190-1200 | writers leave in the order in which they came, none twice |
| GroupCommit.SyncIsHonoured | ChatApplication/Pods/leveldb-library/db/db_impl.cc:1211-1227 | a write that asked for a sync and was answered Ok was synced: its group has a step of its own that put its record into the log, behind that a successful sync of its own, and only behind that its insertions |
| GroupCommit.SyncWasAsked | ChatApplication/Pods/leveldb-library/db/db_impl.cc:1217-1218 | the log is synced only for a leader that asked for it |
| GroupCommit.FailureHasACause | ChatApplication/Pods/leveldb-library/db/db_impl.cc:1185-1256 | a group that got as far as the log and was answered with an error had a failed append or a failed sync of its own |
| GroupCommit.FailedSyncIsFinal | ChatApplication/Pods/leveldb-library/db/db_impl.cc:1216-1232 | after a failed sync its group and every later one fail, and nothing more is logged or inserted |
| GroupCommit.NumbersAreNotReused | ChatApplication/Pods/leveldb-library/db/db_impl.cc:1205-1239 | the sequence numbers of a group that was led are never given again, even if the group failed |
| GroupCommit.ReadersSeeWholeGroups | ChatApplication/Pods/leveldb-library/db/db_impl.cc:1219-1240 | what a reader at the last sequence number sees is exactly the groups that were through, never part of a batch |
| Crc32c.Extend | ChatApplication/Pods/leveldb-library/util/crc32c.cc:276-377 | for every length, alignment and starting value the strided loop gives the bytewise CRC-32C (section 12.1 of RFC 3720) |
| Crc32c.StrideAdvances | ChatApplication/Pods/leveldb-library/util/crc32c.cc:294-300 | the four stride tables together advance a partial result by 16 zero bytes |
| Crc32c.TableStepIsStep | ChatApplication/Pods/leveldb-library/util/crc32c.cc:286-291 | the byte table advances the state by one byte |
| Crc32c.ZerosOfXor | ChatApplication/Pods/leveldb-library/util/crc32c.cc:288-300 | zero bytes act linearly on the state |
| Crc32c.LinearTableIsRight | ChatApplication/Pods/leveldb-library/util/crc32c.cc:20-64 | a linear table that is right at the powers of two is right everywhere |
| Crc32c.ComputedIsSource | ChatApplication/Pods/leveldb-library/util/crc32c.cc:20-244 | tables with the contents that the proof asks for exist |
| Crc32c.Rotate | ChatApplication/Pods/leveldb-library/util/crc32c.cc:347-355 | after the rotation of the four partial results the oldest one has taken the next word |
| Crc32c.ExtendConcatenates | ChatApplication/Pods/leveldb-library/util/crc32c.h:14-22 | extending the checksum of a by b is the checksum of a followed by b |
| Crc32c.MaskRoundTrip | ChatApplication/Pods/leveldb-library/util/crc32c.h:29-38 | masking and unmasking undo each other |
| DbIterators.ElementsAreViews | ChatApplication/Pods/leveldb-library/db/db_iter.cc:38-61 | what the iterator yields is one element per user key with a view, in key order, with the view as value |
| DbIterators.DBIter.Next | ChatApplication/Pods/leveldb-library/db/db_iter.cc:141-166 | the next element in key order, in either direction before |
| DbIterators.DBIter.Prev | ChatApplication/Pods/leveldb-library/db/db_iter.cc:200-225 | the previous element, in either direction before |
| DbIterators.DBIter.FindNextUserEntry | ChatApplication/Pods/leveldb-library/db/db_iter.cc:168-198 | skips deletions, older entries and entries newer than the snapshot, and nothing else |
| DbIterators.DBIter.FindPrevUserEntry | ChatApplication/Pods/leveldb-library/db/db_iter.cc:227-267 | walking backward, keeps the newest visible entry of each user key |
| DbIterators.DBIter.Seek | ChatApplication/Pods/leveldb-library/db/db_iter.cc:269-281 | the first element at or after the target |
| DbIterators.DBIter.SeekToFirst | ChatApplication/Pods/leveldb-library/db/db_iter.cc:283-292 | the first element |
| DbIterators.DBIter.SeekToLast | ChatApplication/Pods/leveldb-library/db/db_iter.cc:294-299 | the last element |
| DbIterators.DBIter.Key | ChatApplication/Pods/leveldb-library/db/db_iter.cc:64-67 | the user key of the current element, in either direction |
| DbIterators.DBIter.Value | ChatApplication/Pods/leveldb-library/db/db_iter.cc:68-71 | the value of the current element, in either direction |
| StoreIterators.IteratorShowsHistory | ChatApplication/Pods/leveldb-library/db/db_impl.cc:1062-1087 | in every reachable state: the memtables, level-0 tables and concatenated levels meet what the merging iterator asks of its children, and the elements over their union are each user key with a view of the history once, in order, with that view |
| StoreIterators.OpenIteratorShowsHistory | ChatApplication/Pods/leveldb-library/db/db_impl.cc:1062-1087 | an iterator that stays open goes on showing the history as of its sequence number |
| StoreIterators.StoreHasUnion | ChatApplication/Pods/leveldb-library/db/db_impl.cc:1062-1087 | in every reachable state there is such a union |
| StoreIterators.LevelIsTwoLevel | ChatApplication/Pods/leveldb-library/db/version_set.cc:159-228 | the files of a sorted level are an index and blocks for the two-level iterator, whose entries are those of the level |
| Merger.MergingIterator.Next | ChatApplication/Pods/leveldb-library/table/merger.cc:55-79 | one position further in the sorted union, after any sequence of operations |
| Merger.MergingIterator.Prev | ChatApplication/Pods/leveldb-library/table/merger.cc:81-108 | one position back in the sorted union |
| Merger.MergingIterator.Seek | ChatApplication/Pods/leveldb-library/table/merger.cc:47-53 | the first entry of the union at or after the target |
| Merger.MergingIterator.SeekToFirst | ChatApplication/Pods/leveldb-library/table/merger.cc:31-37 | the first entry of the union |
| Merger.MergingIterator.SeekToLast | ChatApplication/Pods/leveldb-library/table/merger.cc:39-45 | the last entry of the union |
| Merger.MergingIterator.TurnForward | ChatApplication/Pods/leveldb-library/table/merger.cc:58-73 | the switch puts every other child behind the current key and keeps the position |
| Merger.MergingIterator.TurnBackward | ChatApplication/Pods/leveldb-library/table/merger.cc:84-103 | the switch puts every other child before the current key and keeps the position |
| Merger.MergingIterator.FindSmallest | ChatApplication/Pods/leveldb-library/table/merger.cc:148-161 | the current child is the one whose entry is first in the union |
| Merger.MergingIterator.FindLargest | ChatApplication/Pods/leveldb-library/table/merger.cc:163-175 | the current child is the one whose entry is last in the union |
| TwoLevel.SoughtPosition | ChatApplication/Pods/leveldb-library/table/two_level_iterator.cc:82-87 | search in the index and then in one block finds the position in the concatenation |
| TwoLevel.TwoLevelIterator.Seek | ChatApplication/Pods/leveldb-library/table/two_level_iterator.cc:82-87 | the first entry of the concatenation at or after the target |
| TwoLevel.TwoLevelIterator.SeekToFirst | ChatApplication/Pods/leveldb-library/table/two_level_iterator.cc:89-94 | the first entry, past empty blocks |
| TwoLevel.TwoLevelIterator.SeekToLast | ChatApplication/Pods/leveldb-library/table/two_level_iterator.cc:96-101 | the last entry, past empty blocks |
| TwoLevel.TwoLevelIterator.Next | ChatApplication/Pods/leveldb-library/table/two_level_iterator.cc:103-107 | one position further in the concatenation |
| TwoLevel.TwoLevelIterator.Prev | ChatApplication/Pods/leveldb-library/table/two_level_iterator.cc:109-113 | one position back in the concatenation |
| TwoLevel.TwoLevelIterator.SkipEmptyDataBlocksForward | ChatApplication/Pods/leveldb-library/table/two_level_iterator.cc:115-126 | an iterator that used up its block stands at the next entry, or is invalid behind the last |
| TwoLevel.TwoLevelIterator.SkipEmptyDataBlocksBackward | ChatApplication/Pods/leveldb-library/table/two_level_iterator.cc:128-139 | the same in the other direction |
| Coding.VarintRoundTrip | ChatApplication/Pods/leveldb-library/util/coding.cc:47-128 | a varint is read back, whatever follows it |
| Coding.UnrolledIsVarint | ChatApplication/Pods/leveldb-library/util/coding.cc:47-73 | the unrolled 32-bit encoder writes the same bytes as the loop |
| Coding.EncodeVarint64 | ChatApplication/Pods/leveldb-library/util/coding.cc:81-90 | the loop writes the varint |
| Coding.GetVarint32 | ChatApplication/Pods/leveldb-library/util/coding.cc:112-140 | fast path and loop read the varint, cut to 32 bits, of at most five bytes |
| Coding.GetVarint64 | ChatApplication/Pods/leveldb-library/util/coding.cc:142-169 | reads the varint of at most ten bytes |
| Coding.LengthPrefixedRoundTrip | ChatApplication/Pods/leveldb-library/util/coding.cc:98-101 | a length-prefixed string is read back, whatever follows it |
| LogFormat.Writer.AddRecord | ChatApplication/Pods/leveldb-library/db/log_writer.cc:34-80 | the file, reopened at any length, stays the layout of the fragments of all records, the new one last |
| LogFormat.Reader.ReadPhysicalRecord | ChatApplication/Pods/leveldb-library/db/log_reader.cc:189-271 | on any file, from any place: the next fragment, the end, or what is dropped there up to which place and with a report or without, as header, length, checksum and block say |
| LogFormat.KnownFind | ChatApplication/Pods/leveldb-library/db/log_reader.cc:189-271 | on any prefix of what a writer wrote the next fragment is found exactly if it is wholly there, otherwise the file ends |
| LogFormat.Reader.ReadRecord | ChatApplication/Pods/leveldb-library/db/log_reader.cc:56-174 | on any file: the next record that its fragments in their order make, with everything that is passed over and how often that is reported; on any prefix of what a writer wrote: the next record if it is wholly there, otherwise nothing, and no report |
| LogFormat.KnownRecord | ChatApplication/Pods/leveldb-library/db/log_reader.cc:56-174 | behind the first records of what was written the next one is put together without a report, exactly if it is wholly there |
| LogFormat.Reader.ReadAll | ChatApplication/Pods/leveldb-library/db/log_reader.cc:56-174 | on any file: all records that can be put together, and a report exactly if a record or a part of the file was dropped for more than the end of the file; of any prefix of a written file: exactly the records wholly inside it and no report |
| LogFormat.UnreportedIsIntact | ChatApplication/Pods/leveldb-library/db/log_reader.cc:182-187 | without a report no bytes were dropped for a wrong length or checksum, and the records before the first report are all records |
| LogFormat.ParseHeader | ChatApplication/Pods/leveldb-library/db/log_reader.cc:216-262 | the fragment at the front of any buffer, or why there is none, with what is dropped and whether that is reported |
| LogDamage.DamageIsReported | ChatApplication/Pods/leveldb-library/db/log_reader.cc:210-257 | a file that is what was written up to some fragment whose header then is broken, whatever follows: the reader reports it, and before that gives exactly the records that the fragments before complete |
| LogFormat.OpensAtStart | ChatApplication/Pods/leveldb-library/db/log_reader.cc:18-31 | every prefix of a written file is one that the statements above are about |
| WriteBatches.BatchRoundTrip | ChatApplication/Pods/leveldb-library/db/write_batch.cc:42-79 | a batch is read back from its bytes: its sequence number, and its operations in order |
| WriteBatches.WriteBatch.Iterate | ChatApplication/Pods/leveldb-library/db/write_batch.cc:42-79 | on any bytes: the operations up to the first error, and whether all are well formed and counted |
| WriteBatches.WriteBatch.Put | ChatApplication/Pods/leveldb-library/db/write_batch.cc:98-103 | one more operation behind the others, and the count one higher |
| WriteBatches.WriteBatch.Delete | ChatApplication/Pods/leveldb-library/db/write_batch.cc:105-109 | the same for a deletion |
| WriteBatches.WriteBatch.Append | ChatApplication/Pods/leveldb-library/db/write_batch.cc:144-148 | the operations of the other batch behind those of this one |
| WriteBatches.WriteBatch.SetSequence | ChatApplication/Pods/leveldb-library/db/write_batch.cc:94-96 | the sequence number, and nothing else, is replaced |
| LogReplay.ReadBatches | ChatApplication/Pods/leveldb-library/db/db_impl.cc:371-440 | on any file: without paranoid checks all records of the file are replayed and every error passed over; with them the replay goes up to the first error and succeeds exactly if all records are well formed and nothing was reported; of a written log, cut anywhere, the batches that are there in full |
| LogReplay.CutAppendIsCrash | ChatApplication/Pods/leveldb-library/db/db_impl.cc:1213-1230 | a log cut anywhere in its last append replays all acknowledged batches and the last one either whole or not at all, as the crash step of the store says |
| Blocks.BlockBuilder.Add | ChatApplication/Pods/leveldb-library/table/block_builder.cc:72-104 | one more entry, sharing the longest common prefix with the one before, or whole at the start of a run |
| Blocks.RunsAreMultiples | ChatApplication/Pods/leveldb-library/table/block_builder.cc:72-104 | runs start at every multiple of the restart interval, and nowhere else |
| Blocks.BlockBuilder.Finish | ChatApplication/Pods/leveldb-library/table/block_builder.cc:62-70 | the block is the image of exactly the added entries and their restart points |
| Blocks.DecodeEntry | ChatApplication/Pods/leveldb-library/table/block.cc:54-77 | the fast path for three single bytes and the general one agree, and refuse what does not fit |
| Blocks.ItemHere | ChatApplication/Pods/leveldb-library/table/block.cc:224-251 | decoding where an entry starts in a finished block gives the entry |
| Blocks.BlockIter.ParseNextKey | ChatApplication/Pods/leveldb-library/table/block.cc:224-251 | the key is put together from the one before and the bytes of the entry |
| Blocks.BlockIter.Next | ChatApplication/Pods/leveldb-library/table/block.cc:137-140 | the next added pair, or the end |
| Blocks.BlockIter.Prev | ChatApplication/Pods/leveldb-library/table/block.cc:142-161 | the pair before: Prev undoes Next |
| Blocks.BlockIter.Seek | ChatApplication/Pods/leveldb-library/table/block.cc:163-201 | binary search over restart points and the scan behind it land on the first key at or after the target |
| Blocks.BlockIter.SeekToFirst | ChatApplication/Pods/leveldb-library/table/block.cc:203-206 | the first pair, or the end of an empty block |
| Blocks.BlockIter.SeekToLast | ChatApplication/Pods/leveldb-library/table/block.cc:208-213 | the last pair, or the end of an empty block |
| VersionEdits.EditRoundTrip | ChatApplication/Pods/leveldb-library/db/version_edit.cc:41-205 | decoding an encoded edit gives the edit, with the compaction pointers added to those the decoding object had |
| VersionEdits.FieldRoundTrip | ChatApplication/Pods/leveldb-library/db/version_edit.cc:107-205 | each kind of field is read back, whatever follows it |
| VersionEdits.VersionEdit.Clear | ChatApplication/Pods/leveldb-library/db/version_edit.cc:26-39 | everything is reset but the compaction pointers |
| VersionEdits.VersionEdit.DeleteFile | ChatApplication/Pods/leveldb-library/db/version_edit.h:73-76 | one more deleted file, in its place in the set |
| VersionEdits.VersionEdit.EncodeTo | ChatApplication/Pods/leveldb-library/db/version_edit.cc:41-85 | the fields that are set, in a fixed order |
| VersionEdits.VersionEdit.DecodeFrom | ChatApplication/Pods/leveldb-library/db/version_edit.cc:107-205 | on any input: the decoded edit, or an error for exactly the inputs that are no edit |
| Comparators.FindShortestSeparator | ChatApplication/Pods/leveldb-library/util/comparator.cc:29-50 | unchanged exactly if no byte fits between the strings behind what they share; otherwise the shortest string strictly between them, and the first of those |
| Comparators.FindShortSuccessor | ChatApplication/Pods/leveldb-library/util/comparator.cc:52-63 | unchanged exactly if all bytes are the largest ones; otherwise the shortest string behind it, and the first of those |
| Comparators.ShortestSeparator | ChatApplication/Pods/leveldb-library/db/dbformat.cc:69-86 | the shortest user key between the two, before all its entries, exactly if there is one shorter than the first; otherwise the start |
| Comparators.ShortSuccessor | ChatApplication/Pods/leveldb-library/db/dbformat.cc:88-101 | the shortest user key behind that of the key, before all its entries, exactly if there is a shorter one; otherwise the key |
| Bloom.BloomFilterPolicy.CreateFilter | ChatApplication/Pods/leveldb-library/util/bloom.cc:28-54 | the filter of the keys, bit by bit, with the number of probes behind it |
| Bloom.BloomFilterPolicy.KeyMayMatch | ChatApplication/Pods/leveldb-library/util/bloom.cc:56-81 | on any filter: whether all probes are set, with short filters and reserved encodings as in the code |
| Bloom.BloomFilterPolicy.MatchesOwnKeys | ChatApplication/Pods/leveldb-library/util/bloom.cc:28-81 | no false negatives |
| Bloom.FilterBitsExactly | ChatApplication/Pods/leveldb-library/util/bloom.cc:28-54 | a bit of a filter is set if and only if a probe of one of its keys falls on it |
| Bloom.OwnKeysPass | ChatApplication/Pods/leveldb-library/util/bloom.cc:28-81 | a filter lets every key pass that it was made for |
| FilterBlocks.FilterBlockBuilder.StartBlock | ChatApplication/Pods/leveldb-library/table/filter_block.cc:21-27 | filters up to that of the new block are finished |
| FilterBlocks.FilterBlockBuilder.Finish | ChatApplication/Pods/leveldb-library/table/filter_block.cc:35-49 | every filter is of exactly the keys that were added while it was the next one, in order, and the block is the image of all filters |
| FilterBlocks.FilterBlockReader.KeyMayMatch | ChatApplication/Pods/leveldb-library/table/filter_block.cc:90-104 | on any filter block, errors are potential matches |
| FilterBlocks.FilterIsAsked | ChatApplication/Pods/leveldb-library/table/filter_block.cc:77-104 | of a written filter block the reader asks exactly the filter in whose range the offset lies; behind the last filter every key is a potential match |
| FilterBlocks.OwnKeysMatch | ChatApplication/Pods/leveldb-library/table/filter_block.cc:77-104 | a key is not rejected by the filter it was put into, found through offset / 2048 |
| Tables.TableBuilder.Add | ChatApplication/Pods/leveldb-library/table/table_builder.cc:94-123 | one more entry; the index key of the block before is fixed now, between its last key and the new one; the open block is written exactly if it has reached the block size |
| Tables.TableBuilder.Flush | ChatApplication/Pods/leveldb-library/table/table_builder.cc:125-139 | a block with entries is written and waits for its index key; its keys are in the filter of its offset |
| Tables.TableBuilder.Finish | ChatApplication/Pods/leveldb-library/table/table_builder.cc:198-253 | the file holds the added entries in blocks with checksums, filter, metaindex and index blocks that describe them, every filter of exactly the keys of the blocks in its range, and a footer that leads to these |
| Tables.Table.Open | ChatApplication/Pods/leveldb-library/table/table.cc:38-134 | any file opens if and only if footer and index block can be read; one that the builder wrote opens as what it is, with its filter |
| Tables.Table.InternalGet | ChatApplication/Pods/leveldb-library/table/table.cc:216-244 | in any table: nothing if the index ends or the filter of the block says so, an error if the block named by the index cannot be read, else the first entry of that block at or after the key unless it has another user key; in a table that was written this is the first entry of all, despite shortened index keys |
| Tables.DamagedBlockIsRefused | ChatApplication/Pods/leveldb-library/table/format.cc:85-95 | with verification a block whose bytes do not carry its checksum is not read |
| Tables.IndexLeadsToBlock | ChatApplication/Pods/leveldb-library/table/table.cc:216-229 | where the index sends the search, the block has the first entry at or after the key, or the next entry of the table has another user key |
| Tables.OwnKeyPasses | ChatApplication/Pods/leveldb-library/table/table.cc:222-226 | a user key of the block passes the filter that the lookup consults, whatever its sequence number |
| Footers.HandleRoundTrip | ChatApplication/Pods/leveldb-library/table/format.cc:15-29 | a block handle is read back, and takes at most 20 bytes |
| Footers.FooterRoundTrip | ChatApplication/Pods/leveldb-library/table/format.cc:31-63 | a footer is read back, behind its padding and with its magic number |
| Footers.HeldIsRead | ChatApplication/Pods/leveldb-library/table/format.cc:65-115 | a block written with its trailer is read back, with or without the check of its checksum |
| Footers.VerifiedIsHeld | ChatApplication/Pods/leveldb-library/table/format.cc:65-115 | with verification contents are read exactly if they stand in the file behind the handle with their trailer and its checksum |
| Tables.TableIsOneSequence | ChatApplication/Pods/leveldb-library/table/table.cc:210-214 | index and blocks fit, so the two-level iterator is a cursor over exactly the added entries |
| TableFormat.BuilderMakesThis | ChatApplication/Pods/leveldb-library/table/block_builder.cc:62-104 | a block is determined by the keys and values that were added and the restart interval |
| TableFormat.BlockReadsBack | ChatApplication/Pods/leveldb-library/table/block.cc:17-140 | reading a whole block gives the keys and values that it was built from |
| TableFormat.UnpackPacked | ChatApplication/Pods/leveldb-library/db/dbformat.h:165-178 | an internal key is read back from its bytes |
| TableFormat.BloomIsSound | ChatApplication/Pods/leveldb-library/util/bloom.cc:28-81 | the Bloom filter is a policy without false negatives, on the bytes that it stores |
| TableFormat.TableReadsBack | ChatApplication/Pods/leveldb-library/table/table_builder.cc:117-216 | every data block and the index block of a table with room for its sizes are read back |
| TableFormat.Get | ChatApplication/Pods/leveldb-library/db/table_cache.cc:102-116 | on a table file, nothing but its bytes given: the first entry at or after the key, unless that has another user key, through footer, index, filter and block; on any bytes an error if footer or index cannot be read |
| TableFormat.BuildTable | ChatApplication/Pods/leveldb-library/db/builder.cc:17-78 | the bytes of a table that holds exactly the entries, in blocks that end with the first entry that makes them as long as the block size; no table for no entries |
| TableFormat.BuildThenGet | ChatApplication/Pods/leveldb-library/db/builder.cc:17-78 | a table that was built answers every key for its entries |
| TableFormat.SeekInBlock | ChatApplication/Pods/leveldb-library/table/block.cc:164-216 | seeking in the bytes of a block by its restart points ends where a search in its entries does |
| HandleTables.HandleTable.Lookup | ChatApplication/Pods/leveldb-library/util/cache.cc:74-76 | the handle of the key, or none has it |
| HandleTables.HandleTable.Insert | ChatApplication/Pods/leveldb-library/util/cache.cc:78-92 | the handle takes the place of one for the same key; all others stay, also across a resize, which happens exactly when there are more handles than buckets |
| HandleTables.HandleTable.Remove | ChatApplication/Pods/leveldb-library/util/cache.cc:94-102 | exactly the handle of the key is gone |
| HandleTables.HandleTable.Resize | ChatApplication/Pods/leveldb-library/util/cache.cc:122-147 | the same handles, each once, in chains of the new length, which is the least power of two from 4 on with a bucket for every handle |
| LruCaches.LRUCache.Ref | ChatApplication/Pods/leveldb-library/util/cache.cc:217-223 | one more reference; a handle that nobody held moves from the unused to the used ones |
| LruCaches.LRUCache.Unref | ChatApplication/Pods/leveldb-library/util/cache.cc:225-237 | the last reference frees the handle, with one call of its deleter; the last client returns it as the newest unused one |
| LruCaches.LRUCache.Lookup | ChatApplication/Pods/leveldb-library/util/cache.cc:252-259 | the cached handle of the key, referenced once more, or none has the key |
| LruCaches.LRUCache.Release | ChatApplication/Pods/leveldb-library/util/cache.cc:261-264 | one reference less; freed exactly when it was the last and the cache holds none; every handle ever made is alive or was freed exactly once |
| LruCaches.LRUCache.Insert | ChatApplication/Pods/leveldb-library/util/cache.cc:266-303 | afterwards the charges fit or nothing is unused; a handle for the same key is replaced, exactly the oldest unused ones went and no more than needed, and every handle that a client holds keeps its references |
| LruCaches.LRUCache.Erase | ChatApplication/Pods/leveldb-library/util/cache.cc:318-321 | the key leaves the cache; its handle is freed just when no client holds it |
| LruCaches.LRUCache.Prune | ChatApplication/Pods/leveldb-library/util/cache.cc:323-333 | exactly the unused handles are freed, oldest first; every handle that a client holds keeps its references, erased or not |
| LruCaches.LRUCache.FinishErase | ChatApplication/Pods/leveldb-library/util/cache.cc:307-316 | off its list, its charge taken from the usage, the reference of the cache given up |
| LruCaches.LruRemove | ChatApplication/Pods/leveldb-library/util/cache.cc:239-242 | the circular list without the handle |
| LruCaches.LruAppend | ChatApplication/Pods/leveldb-library/util/cache.cc:244-250 | the circular list with the handle as its newest |
| NanopbRoundTrip.RoundTrip | ChatApplication/Pods/nanopb/pb_encode.c:528-550 | for every well-formed descriptor and message whose lengths fit: decoding the encoding gives the message, with absent optional fields at their defaults, if and only if every string in it leaves room for its terminator, and fails otherwise |
| NanopbRoundTrip.RoundTripAmongUnknown | ChatApplication/Pods/nanopb/pb_decode.c:928-1076 | the same, in both directions, with any well-formed fields that the descriptor does not know before, between and behind the records |
| NanopbRoundTrip.ValueRoundTrip | ChatApplication/Pods/nanopb/pb_decode.c:1328-1564 | a value of any type is read back, whatever follows it, if and only if its strings have room for their terminators; otherwise decoding fails |
| NanopbRoundTrip.RecordRoundTrip | ChatApplication/Pods/nanopb/pb_decode.c:406-472 | a record takes its slot one step further, or is refused for a string without room: fields with and without presence, packed and unpacked arrays, union members |
| NanopbRoundTrip.StringNeedsTerminator | ChatApplication/Pods/nanopb/pb_decode.c:1481-1517 | a string is read back if and only if its field has room for a terminator, although the encoder takes it in any case |
| NanopbRoundTrip.Varint32RoundTrip | ChatApplication/Pods/nanopb/pb_decode.c:187-247 | a 32-bit number is read back by the decoder that also accepts longer sign extensions |
| NanopbWire.EncodingOnWire | ChatApplication/Pods/nanopb/pb_encode.c:341-550 | split by tags and wire types alone, an encoded message is exactly this: field by field, one record for a required field, none for a singular one exactly if its value is zero, none for what is absent, one record for a packed array and one per item for others, each with the tag, wire type and value of its own |
| NanopbWire.SplitImages | ChatApplication/Pods/nanopb/pb_decode.c:278-332 | records are told apart without a descriptor, whatever they are |
| NanopbEncode.OutputStream.Write | ChatApplication/Pods/nanopb/pb_encode.c:103-125 | written or counted, unless the stream is full |
| NanopbEncode.EncodeVarint | ChatApplication/Pods/nanopb/pb_encode.c:608-628 | the varint, through a buffer of ten bytes |
| NanopbEncode.EncodeSvarint | ChatApplication/Pods/nanopb/pb_encode.c:630-639 | the varint of the zigzag form |
| NanopbEncode.WriteItems | ChatApplication/Pods/nanopb/pb_encode.c:196-205 | the items one after the other |
| NanopbEncode.PackedSize | ChatApplication/Pods/nanopb/pb_encode.c:168-189 | the size of a packed array, known or by a counting pass, is what writing produces |
| NanopbEncode.WritePacked | ChatApplication/Pods/nanopb/pb_encode.c:162-205 | tag, size and items of a packed array |
| NanopbEncode.WriteUnpacked | ChatApplication/Pods/nanopb/pb_encode.c:207-235 | one record per item |
| NanopbEncode.WriteField | ChatApplication/Pods/nanopb/pb_encode.c:341-426 | exactly the records of the field, or an error for a full stream or a field over its limits |
| NanopbEncode.WriteMsg | ChatApplication/Pods/nanopb/pb_encode.c:528-550 | succeeds exactly if the message can be encoded and fits the stream, and then has written its encoding |
| NanopbEncode.WriteSubmessage | ChatApplication/Pods/nanopb/pb_encode.c:717-765 | the counting pass and the writing pass produce as many bytes, so the size never turns out to have changed |
| NanopbEncode.GetEncodedSize | ChatApplication/Pods/nanopb/pb_encode.c:567-576 | the length of the encoding |
| NanopbEncode.FieldIterator.Next | ChatApplication/Pods/nanopb/pb_common.c:20-76 | the next field, or back to the first, with the number of required fields before it |
| NanopbEncode.FieldIterator.Find | ChatApplication/Pods/nanopb/pb_common.c:78-97 | going around from any field, finds the tag if any field has it |
| NanopbDecode.DecodeVarint32Eof | ChatApplication/Pods/nanopb/pb_decode.c:187-247 | on any input |
| NanopbDecode.DecodeVarint | ChatApplication/Pods/nanopb/pb_decode.c:255-275 | on any input, at most ten bytes |
| NanopbDecode.SkipFieldIn | ChatApplication/Pods/nanopb/pb_decode.c:278-332 | exactly the bytes of one field of the wire type, or an error |
| NanopbDecode.MakeStringSubstream | ChatApplication/Pods/nanopb/pb_decode.c:372-385 | a stream over exactly the announced bytes, if they are there |
| NanopbDecode.CloseStringSubstream | ChatApplication/Pods/nanopb/pb_decode.c:387-400 | the parent continues behind them, however much was read |
| NanopbDecode.DecodeNumber | ChatApplication/Pods/nanopb/pb_decode.c:1339-1422 | cut to the width of the field, or refused if that changes the number |
| NanopbDecode.DecodeData | ChatApplication/Pods/nanopb/pb_decode.c:1441-1517 | bytes and strings that the field has room for |
| NanopbDecode.DecodePacked | ChatApplication/Pods/nanopb/pb_decode.c:424-453 | all items of the substream, or an error when the array is full |
| NanopbDecode.DecodeField | ChatApplication/Pods/nanopb/pb_decode.c:406-480 | on any input: one field over what the struct holds, or an error, as the limits below and the round trip say |
| NanopbLimits.RecordFitsExactly | ChatApplication/Pods/nanopb/pb_decode.c:424-472 | a record of a repeated field, packed or not, is taken exactly if the array has room for all items it brings, and then these come behind the ones that are there |
| NanopbLimits.TakenBrings | ChatApplication/Pods/nanopb/pb_decode.c:424-472 | every record that is taken brings items, so the statement above is about all of them |
| NanopbLimits.MsgFits | ChatApplication/Pods/nanopb/pb_decode.c:928-1076 | no input makes decoding overrun an array, in nested messages too, over any struct whose arrays are not overrun |
| NanopbLimits.DecodedFits | ChatApplication/Pods/nanopb/pb_decode.c:1078-1106 | every array of a freshly decoded message holds at most as many items as it has room for |
| NanopbLimits.SignedFitsExactly | ChatApplication/Pods/nanopb/pb_decode.c:1339-1374 | on any input: a signed number is taken exactly if one that fits the width of the field has the same last 64 bits, or 32 for narrower fields, and that one it is |
| NanopbLimits.UnsignedFitsExactly | ChatApplication/Pods/nanopb/pb_decode.c:1376-1398 | on any input: an unsigned number is taken exactly if it fits the width of the field |
| NanopbLimits.ZigZagFitsExactly | ChatApplication/Pods/nanopb/pb_decode.c:1400-1422 | on any input: a zigzag number is taken exactly if one that fits the width has that zigzag form |
| NanopbLimits.DataFitsExactly | ChatApplication/Pods/nanopb/pb_decode.c:1441-1564 | on any input: bytes and strings are taken exactly if there is room for them behind their size or before their terminator; a field of fixed length takes that length, or nothing at all for zeros |
| NanopbLimits.RequiredIsInInput | ChatApplication/Pods/nanopb/pb_decode.c:1033-1072 | a message is decoded only if each of its first 64 required fields stands in the input |
| NanopbMerge.BytesOfBoth | ChatApplication/Pods/nanopb/pb_decode.c:928-1076 | decoding the bytes of two messages one behind the other is decoding the second over what the first made of the struct; a message that ended early does not look at what follows |
| NanopbMerge.LastValueCounts | ChatApplication/Pods/nanopb/pb_decode.c:406-480 | of a field that is no array and no submessage the last value counts, whatever the struct held and whatever the wire type |
| NanopbMerge.SubmessagesMerge | ChatApplication/Pods/nanopb/pb_decode.c:1519-1541 | a submessage that comes twice is the one whose bytes are those of both |
| NanopbMerge.AbsentStays | ChatApplication/Pods/nanopb/pb_decode.c:928-1076 | a field that does not come, and no other member of its union either, keeps what the struct held |
| NanopbDecode.DecodeMsg | ChatApplication/Pods/nanopb/pb_decode.c:928-1076 | on any input: the struct with every field of the input applied in turn, or an error for exactly the malformed and incomplete ones |
| NanopbDecode.DecodeFresh | ChatApplication/Pods/nanopb/pb_decode.c:1078-1106 | a message over the defaults of its fields |
| NanopbDecode.DecodeSubmessage | ChatApplication/Pods/nanopb/pb_decode.c:1519-1541 | a nested message over what the struct holds |
| NanopbDecode.CompleteByBits | ChatApplication/Pods/nanopb/pb_decode.c:1036-1072 | the bit set answers whether all watched required fields were seen |

## Left out

Assumptions that the code makes and the contracts state:

- The store machine installs only compactions none of whose outputs covers a table that was flushed to the output level in the meantime (db/db_impl.cc:908-918); `FlushDuringCompaction.RulesKeptExactly` says that this is exactly what the level rules need, and `StoreRun.GuardIsOftenMet` when it holds anyway.
- The store machine installs only compactions that expose no older value; `CompactionMeaning.CompactionKeepsViewsExactly` says that this is exactly what is needed.
- A crash is a crash of the process: what was appended survives, except that the last append may be cut anywhere (`LogReplay.CutAppendIsCrash`).
- Internal keys are unique over merged children, and parse; corrupted blocks, keys and checksums appear only where a decoder is stated for any input.
- The largest sequence number is never used up, and file offsets and sizes fit the widths of their formats.

Not modelled:

- File system errors, full disks, shutdown and background errors: the status that stops the store.
- Compaction scores, seek counts and read sampling: which compaction is chosen is free.
- Reference counts of versions and memtables: an open reader is a member of a set.
- Reuse of a log or manifest at opening, and of a log without any batch at recovery.
- The initial offset of a log reader and LastRecordOffset.
- The encoding of memtable entries, and the pointers of the snapshot list.
- Snappy: blocks are uncompressed, and a block of another type is an error.
- The choice of the number of bloom probes from the bits per key, by floating point, and the hash functions.
- The contents of the CRC tables beyond their entries at powers of two, from which linearity gives the rest, and the CRC instruction of the processor.
- Checksums inside the log are an abstract function.
- Random heights of the skip list are free between 1 and 12; more than one search at a time adds nothing, since searches change nothing.
- Sharding of the cache over 16 parts, its destructor and its mutex.
- nanopb callbacks, extensions, pointer fields, fixed-count arrays and platforms without 64 bits; a struct is a tree of values, so padding, alignment and what a union keeps of another member are not captured.
- NanopbDecode.DecodeVarint32Eof: the bit position is unbounded, while the code keeps it in at least eight bits; they differ only for varints of more than 36 bytes.
- NanopbEncode.WriteMsg: sizes are counted without the wrap-around of size_t, for encodings below 2^64 bytes.
- GroupCommit.SuccessIsCommitted: sequence numbers are unbounded.
- Blocks.BlockIter.Seek: about blocks of the builder.
- Blocks.BlockIter.ParseNextKey: about blocks of the builder; the corruption branch is not modelled.
- LogFormat.Reader.ReadPhysicalRecord: no initial offset.
- LogFormat.Reader.ReadRecord: no initial offset, and so none of the resynchronisation that one calls for.
- LogFormat.Reader.ReadAll: the checksum is any function, so a damage that leaves the checksum right is not noticed.
- StoreIterators.IteratorShowsHistory: the stack is put together over the sequences that the iterators of each layer are proved to walk, not over the objects.
- Manifests.Recover: the file is given, and CURRENT, its name and the reuse of the manifest are outside.
- StoreSteps.MoveApply: with the default size of files.
- Lookup.MemTable.Add: the entry goes into a sorted sequence; its encoding in the arena and the skip list are outside.
- Recovery.RecoverLogFile: the last log is always flushed, never reused as the current one.
- Recovery.WriteLevel0Table: the picked level and the writing of the file are modelled elsewhere.
- NanopbEncode.FieldIterator.Next: over fields, without data and size pointers.
- TableFormat.Get: no cache of opened tables or blocks; a block is parsed as a whole, which `TableFormat.SeekInBlock` shows to be the same as seeking in it.
- Performance and memory use.
