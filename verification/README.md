# The persistence layer, modelled and proved

This project models the persistence layer of the node: the LevelDB 1.17 storage engine under
`persistence/leveldb` and the layered key/value caches, undo logs and iterators on top of it
(`dbaccess.h`, `dbiterator.h`, `blockundo.cpp`, `cdpdb.cpp`). `dafny verify dfyconfig.toml` checks it.

## The storage engine

`Store.dfy` is the heart. It describes the database as a state machine: single updates going into the
memtable, publishing a sequence number, switching and dumping memtables, compactions and trivial moves, taking and
releasing snapshots. Beside the state it keeps the plain history of all writes, and an invariant says which updates
must still be stored: each one that some live or future reader can see, unless it is a deletion with nothing left to
hide. From the invariant follows what the engine is for: `DB.Get` and the iterators of `DbReads.NewIterator`
answer, at every live snapshot, what the plain history says.

The layers below and around it:

| file | part of the engine |
|---|---|
| `Slices`, `Runs` | byte strings and their order, internal keys, sorted runs, lookups in one run, merging runs |
| `Merger`, `DbIter`, `DbReads` | the merging iterator and the user-level iterator as exact two-way cursors |
| `Versions` | files, levels, searches by file bounds, `Version::Get` |
| `Builder`, `VersionSet`, `EditCodec`, `Manifest` | version edits, `LogAndApply`, MANIFEST replay, from edits and from the bytes of a torn file |
| `Picker`, `Compaction`, `CompactionWork`, `Install` | picking inputs, the drop rules, the compaction loop, installing results |
| `Store`, `ReadExact`, `SnapshotFree`, `Counterexamples`, `DbImpl` | the state machine, its invariant, exactly when it and the reads are kept, where they fail, and the object |
| `GroupCommit`, `WriteBatch` | the writer queue as a state machine of interleaved calls, the bytes of a batch |
| `Log`, `Coding` | the write-ahead log, its bytes, torn and damaged files, variable-length integers |
| `Block`, `Bloom`, `Table`, `TwoLevel` | prefix-compressed blocks, filters, tables, the two-level iterator |
| `SkipList`, `LruCache` | the memtable's skip list, store by store, and the block cache |

The ranks of user keys are real numbers. `Slices.RankOrder` proves that the rank of a byte string orders exactly
as the bytewise comparator does, so nothing is lost; sequence numbers stay below 2^56 - 1, the largest one the
format has.

### Where compactions go wrong

The pickers of this version of LevelDB do not look for a file, left behind in the level of an input, that continues
the input's last user key with older entries. Two files of a level can share a user key when a compaction
keeps several versions of it for a snapshot and cuts its output between them. The consequences are proved on concrete
runs from an empty database in `Counterexamples.dfy`. Every compaction in them is one that `PickFile` picks and
`DoCompactionWork` writes, table by table (`BothByTheCode`, `DropByTheCode`); the cut behind a value of two
megabytes is the one that the code makes.

- `MoveHidesNewest`: once the snapshot is gone, moving the first of the two files down leaves the older value in
  the shallower level, where a read finds it first.
- `DropRevivesDeleted`: a compaction of level 0 takes the first of the two files as its input from level 1. It holds
  a deletion that no deeper level makes necessary, so the deletion is dropped, and the value in the file left
  behind is visible again. So compactions of level 0 need a condition as well, not only those of deeper levels.

When it goes right is proved exactly, with conditions on the state before the step:

- The invariant (`Store.StepExact`, and `Store.RunExact` for whole runs). A move keeps it if and only if no file
  stays behind that continues the moved one (`Install.BoundaryOK`, a check of file bounds). A merge keeps it if and
  only if, for each file left behind that continues an input, all entries of the input for the shared key are dropped
  when that file is in the level of `inputs[0]`, and every deletion dropped among them has a newer stored entry at or
  below the floor (`Store.MergeOK`). It is not enough to look at the newest input entry of the key: an older
  deletion below the floor can be dropped under a newer entry that the oldest snapshot does not see.
- The reads (`ReadExact.CompactReadsExact`, `ReadExact.MoveReadsExact`). After the step every reader gets the newest
  write if and only if each reader who will get another entry gets the same answer from it.
  `ReadExact.Exposed` says which readers these are and which entry they will get. This condition is weaker: something
  stale may end up in front while no reader's newest entry is behind it.

`SnapshotFree` shows that runs which take no snapshots never leave anything behind that continues an input, so for
them nothing is asked. The sorting and disjointness of levels (`Install.LevelsStayDisjoint`, `Install.OutsideTheHull`)
need no condition: the overlap assertion of `MaybeAddFile` cannot fail.

## The caches

`Caches` models a chain of write-back caches that ends in a database: `View` is the finite map that the
chain stands for, and every operation is described by what it does to the views of the whole chain. Values have a part
that `IsEmpty` looks at and a part that it does not, so that different empty values exist, as they do for
the object types that are stored. `SimpleCache` is the cache of one value, `Undo` the undo of blocks from the
operation logs, `CacheIter` the recursive merge iterator and the prefix iterator, and `Cdp` the tables kept in step on
top of them.

The size counter of a cache over a database is not exact whenever the sum of the sizes fits in 32 bits:
`UpdateDataSize` adds the new size before it takes the old one away (`Caches.OverwriteLosesSize` is an input).
Every operation is told as changes of the counter, `Caches.ChangeExact` gives the exact condition for one change and
`Caches.SizeExactOverRuns` for all runs of them.

## Model

| member | source | states |
|---|---|---|
| Slices.RankOrder | persistence/leveldb/util/comparator.cc:25-27 | comparing two byte strings is the same as comparing their ranks, which are real numbers: the licence to order user keys as reals everywhere else |
| Slices.FindShortestSeparator | persistence/leveldb/util/comparator.cc:29-51 | the string cut behind the first byte that differs, with that byte raised by one, where this stays below `limit`, and `start` otherwise; so it is not before `start`, and before `limit` if `start` is |
| Slices.FindShortSuccessor | persistence/leveldb/util/comparator.cc:53-65 | the string cut behind its first byte that is not 255, with that byte raised by one; the key itself if all its bytes are 255 |
| Slices.CompareAtFirstDifference | persistence/leveldb/util/comparator.cc:25-27 | the first byte in which two strings differ decides their order, and a proper prefix comes first |
| Runs.RunGetFindsNewest | persistence/leveldb/db/memtable.cc:108-143 | one seek in a sorted run finds the newest entry of the key at or below the sequence number, or there is none |
| Runs.NewestIsFound | persistence/leveldb/db/memtable.cc:108-143 | the newest visible entry is what a lookup returns (the converse) |
| Runs.MergeAllSorted | persistence/leveldb/table/merger.cc:155-168 | merging sorted runs that share no internal key gives a sorted run |
| Runs.MergeAllElements | persistence/leveldb/table/merger.cc:155-168 | the merge holds exactly the entries of the runs |
| Merger.ExtremeIsCurrent | persistence/leveldb/table/merger.cc:155-183 | with every child on the right side of a position of the merge, the least (or greatest) child key is the entry at that position |
| Merger.MergingIterator.constructor | persistence/leveldb/table/merger.cc:16-20 | a new iterator over sorted children without common keys stands nowhere in their merge |
| Merger.MergingIterator.SeekToFirst | persistence/leveldb/table/merger.cc:35-41 | the cursor stands at position 0 of the merge |
| Merger.MergingIterator.SeekToLast | persistence/leveldb/table/merger.cc:43-49 | the cursor stands at the last position of the merge |
| Merger.MergingIterator.Seek | persistence/leveldb/table/merger.cc:51-57 | the cursor stands at the first entry of the merge at or after the target |
| Merger.MergingIterator.Next | persistence/leveldb/table/merger.cc:59-83 | the cursor moves one position on, also right after a change of direction |
| Merger.MergingIterator.Prev | persistence/leveldb/table/merger.cc:85-112 | the cursor moves one position back, also right after a change of direction; before the first entry it becomes invalid |
| Merger.MergingIterator.FindSmallest | persistence/leveldb/table/merger.cc:155-168 | the child chosen holds the entry of the merge at the cursor |
| Merger.MergingIterator.FindLargest | persistence/leveldb/table/merger.cc:170-183 | the same for the reverse direction |
| DbIter.LiveListIsTheView | persistence/leveldb/db/db_iter.cc:173-203 | the list a user iterator walks holds a key and value exactly if a point lookup at its sequence number finds that value |
| DbIter.LiveListIncreasing | persistence/leveldb/db/db_iter.cc:146-171 | that list is strictly increasing in the user key |
| DbIter.SeekIndex | persistence/leveldb/db/db_iter.cc:274-286 | the first live entry at or after a seek key is the first list element with a user key at or after the target |
| DbIter.DbIter.constructor | persistence/leveldb/db/db_iter.cc:51-61 | a new iterator is not valid and walks the list of its sequence number |
| DbIter.DbIter.SeekToFirst | persistence/leveldb/db/db_iter.cc:288-297 | index 0 of the list |
| DbIter.DbIter.SeekToLast | persistence/leveldb/db/db_iter.cc:299-304 | the last index of the list |
| DbIter.DbIter.Seek | persistence/leveldb/db/db_iter.cc:274-286 | the first list element with a user key at or after the target |
| DbIter.DbIter.Next | persistence/leveldb/db/db_iter.cc:146-171 | one index on, whatever the direction was |
| DbIter.DbIter.Prev | persistence/leveldb/db/db_iter.cc:205-230 | one index back, whatever the direction was; from the first index it becomes invalid |
| DbIter.DbIter.FindNextUserEntry | persistence/leveldb/db/db_iter.cc:173-203 | the scan stops at the next live entry and at no hidden, deleted or invisible one |
| DbIter.DbIter.FindPrevUserEntry | persistence/leveldb/db/db_iter.cc:232-272 | the backward scan ends with the newest visible value of the previous live key saved |
| DbIter.DbIter.CurrentKey | persistence/leveldb/db/db_iter.cc:66-69 | the key is that of the list element the iterator stands at, in both directions |
| DbIter.DbIter.CurrentValue | persistence/leveldb/db/db_iter.cc:70-73 | so is the value |
| Versions.FindFile | persistence/leveldb/db/version_set.cc:77-96 | binary search finds the first file of a disjoint level whose largest key is at or after the key |
| Versions.SomeFileOverlapsRange | persistence/leveldb/db/version_set.cc:112-147 | true exactly if some file meets the user-key range, by scan in level 0 and by one search in the other levels |
| Versions.OverlapsMeans | persistence/leveldb/db/version_set.cc:98-109 | a file meets a range exactly if some user key is in both |
| Versions.GetOverlappingInputs | persistence/leveldb/db/version_set.cc:522-563 | level 0: exactly the least set of files that has every file meeting the requested range and every file meeting the set's own hull (equally, all files meeting the least closed range), with the restarting loop shown to terminate; other levels: all files meeting the requested range |
| Versions.LeastRangeSelects | persistence/leveldb/db/version_set.cc:544-559 | the least range that no overlapping file sticks out of selects the least closed set of files: a subset of every set closed under overlap with its hull |
| Versions.GetFromLevel0 | persistence/leveldb/db/version_set.cc:348-363 | the newest visible entry of all level-0 files, by trying candidates newest first |
| Versions.GetFromSortedLevel | persistence/leveldb/db/version_set.cc:365-378 | the newest visible entry of a sorted level, by looking at one file only |
| Versions.Get | persistence/leveldb/db/version_set.cc:323-420 | the answer comes from the first level that has a visible entry, or no level has one |
| Versions.FirstAnswerIsNewestOfAll | persistence/leveldb/db/version_set.cc:342-418 | stopping at the first level that answers is right: its answer is the newest visible entry of the whole version |
| Builder.Builder.Apply | persistence/leveldb/db/version_set.cc:656-699 | exactly how an edit changes the sets of deleted numbers and added files |
| Builder.MaybeAddFile | persistence/leveldb/db/version_set.cc:750-763 | the file is appended unless deleted; its overlap assertion cannot fail |
| Builder.SaveLevel | persistence/leveldb/db/version_set.cc:702-731 | merging base and added files gives, sorted, exactly the base and added files that are not deleted |
| Builder.Builder.SaveTo | persistence/leveldb/db/version_set.cc:702-748 | the same for every level |
| Builder.AppliedUnique | persistence/leveldb/db/version_set.cc:702-748 | an edit and a base determine the resulting version |
| VersionSets.VersionSet.LogAndApply | persistence/leveldb/db/version_set.cc:811-894 | the new current version is the old one with the edit applied, the edit (after a snapshot record in a new log) describes it, and no overlap assertion fails |
| VersionSets.Recover | persistence/leveldb/db/version_set.cc:896-1009 | replaying a list of edits through one builder on an empty base gives the version that was current after the last one, and its log number (Manifest.Recover does so from the bytes) |
| VersionSets.LogGrows | persistence/leveldb/db/version_set.cc:811-894 | a log that describes the versions so far describes them after the next record |
| Picker.GetRange | persistence/leveldb/db/version_set.cc:1176-1196 | the least internal-key range that covers the files |
| Picker.SetupOtherInputs | persistence/leveldb/db/version_set.cc:1297-1362 | the inputs are the picked files, or, exactly if that adds files, needs as many files of level+1 and stays below 50 MB, all files of the level that meet their hull with level+1 (in level 0 the least closed set); inputs1, grandparents and bounds are those that belong to them |
| Picker.SetUpDetermines | persistence/leveldb/db/version_set.cc:1297-1362 | these rules determine the whole compaction: two compactions set up from the same picked files are equal |
| Picker.TotalFileSizeAdds | persistence/leveldb/db/version_set.cc:49-55 | the sum of sizes counts every file as often as it is listed |
| Picker.PickBySize | persistence/leveldb/db/version_set.cc:1251-1270 | the file set up is the first behind the compact pointer, or the first of the level |
| Picker.PickFile | persistence/leveldb/db/version_set.cc:1281-1294 | the compaction is set up from exactly this file, in level 0 from the least closed set of files for its range |
| Picker.PickDetermines | persistence/leveldb/db/version_set.cc:1281-1294 | and so the chosen file determines it |
| Picker.CompactRange | persistence/leveldb/db/version_set.cc:1364-1397 | nothing exactly if no file meets the range; otherwise set up from all files that do in level 0, and elsewhere from those up to the first with which they reach 2 MB |
| Compactions.DropRulesPreserveReads | persistence/leveldb/db/db_impl.cc:906-939 | reading the kept stream at any sequence number from the oldest snapshot on gives what reading the input gives, except that a deletion may become "nothing found", and then no deeper level has the key |
| Compactions.KeptIfNotDropped | persistence/leveldb/db/db_impl.cc:906-939 | an entry is written exactly if neither drop rule applies to it |
| Compactions.OlderIsDropped | persistence/leveldb/db/db_impl.cc:923-925 | once an entry every snapshot sees has passed, everything older of its key is dropped |
| Compactions.InputRunsReady | persistence/leveldb/db/version_set.cc:1210-1241 | the children of the input iterator are sorted and share no internal key |
| CompactionWork.CompactionCursor.IsBaseLevelForKey | persistence/leveldb/db/version_set.cc:1434-1453 | with keys asked in ascending order the moving pointers answer what a full scan of the deeper levels answers |
| CompactionWork.CompactionCursor.ShouldDrop | persistence/leveldb/db/db_impl.cc:906-939 | the decision of the loop is the two drop rules |
| CompactionWork.CompactionCursor.ShouldStopBefore | persistence/leveldb/db/version_set.cc:1455-1475 | the answer, and the grandparents and bytes counted, are what the keys so far determine: stops exactly before a key that has passed more than the limit since the last stop |
| CompactionWork.CompactionState.Add | persistence/leveldb/db/db_impl.cc:952-965 | the open table grows by this entry and is closed exactly if it has reached its size |
| CompactionWork.CompactionState.FinishOutput | persistence/leveldb/db/db_impl.cc:782-831 | closing the open table makes it the next output, with its bounds, size and number |
| CompactionWork.HandleEntry | persistence/leveldb/db/db_impl.cc:884-975 | one round of the loop: perhaps a cut before the key, then the entry is dropped or added, and perhaps a cut behind it |
| CompactionWork.DoCompactionWork | persistence/leveldb/db/db_impl.cc:855-1014 | the outputs are exactly the tables of the kept entries of the merged inputs, cut where a key stops and where a table reaches 2 MB, and nowhere else; which keys stop is told of file bounds alone (StopsAreRight) |
| CompactionWork.StopsAreRight | persistence/leveldb/db/version_set.cc:1455-1475 | a key stops exactly if the grandparents that end between the last stop, or the first key, and it have more than 20 MB together: the count starts anew at each stop |
| CompactionWork.RightStopsUnique | persistence/leveldb/db/version_set.cc:1455-1475 | which determines the keys that stop |
| CompactionWork.CutsAreRight | persistence/leveldb/db/db_impl.cc:884-975 | every table but the last ends because it has reached 2 MB or because a key stops, and no table goes on over such a place |
| CompactionWork.CutIsKept | persistence/leveldb/db/db_impl.cc:884-975 | wherever the cuts fall, closed and open tables together hold the kept entries in order |
| CompactionWork.FewGrandparents | persistence/leveldb/db/version_set.cc:1455-1475 | with few enough grandparent bytes no output is ended early |
| Install.OutsideTheHull | persistence/leveldb/db/version_set.cc:1297-1340 | a file of level+1 that is no input lies before all inputs or after all inputs |
| Install.EditInstalls | persistence/leveldb/db/db_impl.cc:834-853 | the edit of a compaction means: inputs gone, outputs in level+1, nothing else changed |
| Install.LevelsStayDisjoint | persistence/leveldb/db/db_impl.cc:834-853 | whatever was picked and wherever outputs were cut, levels >= 1 stay sorted and disjoint |
| Install.InstallVersionExact | persistence/leveldb/db/db_impl.cc:834-853 | after an installation shallower files are newer than deeper ones if and only if the files left behind above the outputs are newer than the outputs |
| Install.BoundaryExact | persistence/leveldb/db/version_set.cc:1297-1340 | the check of file bounds holds if and only if every file left behind in the two levels is newer, key by key, than the inputs |
| Install.OlderLeftContinues | persistence/leveldb/db/version_set.cc:1297-1340 | whatever is left behind with something older than an input, for one key, is in a file of the input's own level that starts with the input's last user key |
| Install.MoveExact | persistence/leveldb/db/db_impl.cc:686-704 | a trivial move keeps the version invariant if and only if no file left behind continues the moved one (see Store.MoveKeepsExactly and ReadExact.MoveReadsExact for the store and the readers) |
| Store.NewestStoredIsLatest | persistence/leveldb/db/db_impl.cc:1077-1122 | the newest stored entry of a key at or below a sequence number from the floor on answers what the plain history answers |
| Store.NothingStoredIsNothing | persistence/leveldb/db/db_impl.cc:1077-1122 | if nothing is stored for a key, the history has no value for it either |
| Store.AppendKeeps | persistence/leveldb/db/memtable.cc:82-106 | inserting an update into the memtable keeps the store invariant |
| Store.PublishKeeps | persistence/leveldb/db/db_impl.cc:1213-1213 | moving the last sequence number keeps it |
| Store.SwitchKeeps | persistence/leveldb/db/db_impl.cc:1323-1343 | switching memtables keeps it |
| Store.DumpKeeps | persistence/leveldb/db/db_impl.cc:457-534 | dumping the memtable to the level chosen keeps it |
| Store.SnapshotKeeps | persistence/leveldb/db/db_impl.cc:1143-1151 | taking and releasing snapshots keeps it |
| Store.CompactKeeps | persistence/leveldb/db/db_impl.cc:855-1014 | a whole compaction that leaves nothing harmful behind keeps it: every update that a reader may still need is stored, or is a deletion with nothing left to hide |
| Store.CompactBreaks | persistence/leveldb/db/db_impl.cc:855-1014 | a compaction that leaves something harmful behind loses the invariant: something older is in front of a kept entry, or a needed deletion is gone while what it deletes is still stored |
| Store.CompactExact | persistence/leveldb/db/db_impl.cc:855-1014 | a merging compaction keeps the invariant if and only if, for every file left behind that continues an input, all of the input's entries for that key are dropped (in the level of inputs0) and every dropped deletion among them is covered by a newer stored entry at or below the floor: a check on the state before |
| Store.UncoveredIsNeeded | persistence/leveldb/db/db_impl.cc:906-939 | a stored update is needed by some reader if nothing newer of its key is stored at or below the floor |
| Store.DroppedMeans | persistence/leveldb/db/db_impl.cc:906-939 | the two drop rules, told of the inputs instead of the stream |
| Store.DroppedDeletionHidesNothing | persistence/leveldb/db/db_impl.cc:926-936 | when a deletion that nothing newer covers is dropped by a compaction that leaves nothing harmful behind, nothing older of its key is left anywhere in the store |
| Store.NeededSurvives | persistence/leveldb/db/db_impl.cc:906-939 | an update that some live or future reader needs survives such a compaction or becomes obsolete |
| Store.MoveKeepsExactly | persistence/leveldb/db/db_impl.cc:686-704 | a trivial move keeps the invariant if and only if no file stays behind that continues the moved one |
| Store.MemTableLevelIsOK | persistence/leveldb/db/version_set.cc:493-519 | no file in the chosen level or above it meets the dumped table |
| Store.StepKeeps | persistence/leveldb/db/db_impl.cc:655-738 | every step keeps the invariant; compactions and moves if they leave nothing harmful behind |
| Store.StepExact | persistence/leveldb/db/db_impl.cc:655-738 | and only then: a step from a state with the invariant keeps it if and only if its action is harmless, for every kind of step |
| Store.RunKeepsInvariant | persistence/leveldb/db/db_impl.cc:655-738 | so it holds in every state of every run of harmless actions |
| Store.RunExact | persistence/leveldb/db/db_impl.cc:655-738 | over whole runs: the invariant holds in all states if and only if every compaction and every move is harmless |
| Store.HistoryGrows | persistence/leveldb/db/db_impl.cc:1162-1233 | over a run the history only grows |
| Store.SnapshotReadsAreStable | persistence/leveldb/db/db_impl.cc:1077-1151 | over any such run, reading at a snapshot that stays live always gives what the history gave when it was taken |
| ReadExact.ReadGivesNewest | persistence/leveldb/db/db_impl.cc:1077-1122 | where the invariant holds, what Get finds first (memtables, then level by level) is what the plain history says, at every sequence number from the floor on |
| ReadExact.InstallReadsExact | persistence/leveldb/db/db_impl.cc:834-853 | after any installation every reader, at a live snapshot or the latest sequence number, gets the newest write if and only if each reader who will get another entry gets the same answer from it; who that is, and which entry, is read off the state before |
| ReadExact.CompactReadsExact | persistence/leveldb/db/db_impl.cc:855-1014 | the same for merging compactions: exactly the readers are exposed whose entry is an input, followed by a file left behind in the level of inputs0, or dropped as a deletion and followed by one in level+1 |
| ReadExact.MoveReadsExact | persistence/leveldb/db/db_impl.cc:686-704 | the same for trivial moves |
| ReadExact.ExposedRead | persistence/leveldb/db/db_impl.cc:1077-1122 | an exposed reader gets the first entry of the next file left behind |
| ReadExact.OneRead | persistence/leveldb/db/db_impl.cc:1077-1122 | every other reader gets what the history says |
| ReadExact.SnapshotGetIsStable | persistence/leveldb/db/db_impl.cc:1077-1151 | over any run of harmless actions Get at a snapshot that stays live returns what it returned at first |
| SnapshotFree.SnapshotFreeRun | persistence/leveldb/db/db_impl.cc:906-939 | in runs without snapshots the invariant holds with no condition on the picks |
| SnapshotFree.SnapshotFreeReads | persistence/leveldb/db/db_impl.cc:1077-1122 | and reads of the latest state give the newest write in every reachable state |
| SnapshotFree.CompactKeepsUserDisjoint | persistence/leveldb/db/db_impl.cc:906-939 | without snapshots a compaction leaves no two files of a level that share a user key |
| Counterexamples.MoveHidesNewest | persistence/leveldb/db/db_impl.cc:686-704 | a concrete run of the code's picks and cuts: two values of a key, the newer one of two megabytes, are split into two files of level 2; once the snapshot is gone, moving the first file down makes a read return the overwritten value |
| Counterexamples.DropRevivesDeleted | persistence/leveldb/db/version_set.cc:1297-1340 | another one: a compaction of level 0 takes as input a file of level 1 that holds a deletion, drops the deletion, and the file left behind in level 1 brings the deleted value back |
| Counterexamples.BothByTheCode | persistence/leveldb/db/version_set.cc:1297-1362 | PickFile and DoCompactionWork, run on the state of the first example, pick and write exactly the inputs and tables it uses |
| Counterexamples.DropByTheCode | persistence/leveldb/db/version_set.cc:1297-1362 | so they do for both compactions of the second example |
| DbImpl.PickLevelForMemTableOutput | persistence/leveldb/db/version_set.cc:493-519 | exactly the level the rules give: level 0 if it is met there, otherwise the deepest one (at most 2) that can be reached past levels without overlap and without too many grandparent bytes |
| DbImpl.DB.InsertUpdate | persistence/leveldb/db/write_batch.cc:112-125 | one AppendUpdate step of the state machine |
| DbImpl.DB.WriteGroup | persistence/leveldb/db/db_impl.cc:1181-1213 | a leader appends all updates of its group to the history and then makes them visible |
| DbImpl.DB.SwitchMemTable | persistence/leveldb/db/db_impl.cc:1286-1347 | a switch step, or nothing while the old memtable waits |
| DbImpl.DB.CompactMemTable | persistence/leveldb/db/db_impl.cc:503-534 | a dump step; no table for an empty memtable |
| DbImpl.DB.WriteLevel0Table | persistence/leveldb/db/db_impl.cc:457-501 | the table holds the whole memtable and lands in the level chosen |
| DbImpl.DB.BackgroundCompaction | persistence/leveldb/db/db_impl.cc:655-738 | a move or a compaction step for the picked inputs; the invariant holds afterwards if and only if the pick leaves nothing harmful behind, and every read is right if and only if no reader will notice |
| DbImpl.DB.MergeFiles | persistence/leveldb/db/db_impl.cc:855-1014 | the compaction step on the object, which stays valid if and only if nothing harmful is left behind |
| DbImpl.DB.MoveFile | persistence/leveldb/db/db_impl.cc:686-704 | the move step on the object, which stays valid if and only if no file left behind continues the moved one |
| DbImpl.DB.InstallCompactionResults | persistence/leveldb/db/db_impl.cc:834-853 | the current version becomes the old one with exactly the compaction's edit applied |
| DbImpl.DB.GetSnapshot | persistence/leveldb/db/db_impl.cc:1143-1146 | the snapshot is the last sequence number and is live |
| DbImpl.DB.ReleaseSnapshot | persistence/leveldb/db/db_impl.cc:1148-1151 | only that snapshot goes |
| DbImpl.DB.Get | persistence/leveldb/db/db_impl.cc:1077-1122 | Get at a live snapshot, or at the latest sequence number, returns the newest entry of the first place that has one, and, while the invariant holds, what the plain history of writes says |
| DbReads.StoreRunsReady | persistence/leveldb/db/db_impl.cc:1035-1064 | the children of the internal iterator are sorted, share no internal key and hold exactly the store |
| DbReads.NewIterator | persistence/leveldb/db/db_impl.cc:1124-1135 | the iterator walks exactly the keys and values that the history has at its sequence number, in increasing order |
| GroupCommit.BuildBatchGroup | persistence/leveldb/db/db_impl.cc:1237-1282 | the group is the longest front of the queue that the sync rule allows and that stays within 1 MB, or within 128 KB more than a leader of at most 128 KB, with its batches in order |
| GroupCommit.CommitStepKeeps | persistence/leveldb/db/db_impl.cc:1162-1233 | every step of every writer keeps: what is visible is the batches of the finished writers in queue order; the log holds each batch once, in order, at its sequence number |
| GroupCommit.CommitRunKeeps | persistence/leveldb/db/db_impl.cc:1162-1233 | so in every state of every interleaving |
| GroupCommit.FinishedInOrder | persistence/leveldb/db/db_impl.cc:1217-1224 | between two moments of a run, exactly the batches of the writers finished in between become visible, in queue order |
| GroupCommit.ReadersSeeWholeBatches | persistence/leveldb/db/db_impl.cc:1213-1213 | a read of the latest state, even while a group is being inserted, sees all batches of the finished writers and nothing else |
| GroupCommit.LogPrefixIsGroups | persistence/leveldb/db/db_impl.cc:1192-1192 | any prefix of the log holds the batches of the first writers: a crash never tears a group |
| GroupCommit.SyncedWriterIsDurable | persistence/leveldb/db/db_impl.cc:1192-1195 | the batch of a finished writer that asked for sync is in a synced record |
| GroupCommit.LeadKeepsQueue | persistence/leveldb/db/db_impl.cc:1258-1260 | a sync writer is only carried by a leader that syncs |
| GroupCommit.WriteQueue.Enqueue | persistence/leveldb/db/db_impl.cc:1169-1169 | an arriving writer queues at the back |
| GroupCommit.WriteQueue.BuildGroup | persistence/leveldb/db/db_impl.cc:1182-1183 | the front writer takes its group |
| GroupCommit.WriteQueue.AddGroupRecord | persistence/leveldb/db/db_impl.cc:1192-1195 | one log record for the group, synced if the leader asks |
| GroupCommit.WriteQueue.InsertNext | persistence/leveldb/db/write_batch.cc:128-134 | the next update of the group, at the next sequence number |
| GroupCommit.WriteQueue.FinishGroup | persistence/leveldb/db/db_impl.cc:1213-1224 | the group becomes visible at once and its writers, no others, leave the queue |
| Caches.Cache.GetDataIt | persistence/dbaccess.h:503-523 | read-through copies: no view in the whole chain changes, the entry found is what the view says, and in each cache at most one copy is added and counted |
| Caches.Cache.GetData | persistence/dbaccess.h:392-402 | the value of the view, for a chain of any depth |
| Caches.Cache.HasData | persistence/dbaccess.h:421-427 | true exactly if the view has the key |
| Caches.Cache.SetData | persistence/dbaccess.h:404-419 | the view gets the value (an empty one removes the key), views below are unchanged, the log keeps what the key had; the counter makes one lookup and one write, and when it stays exact |
| Caches.Cache.EraseData | persistence/dbaccess.h:429-441 | the view loses the key, and the log keeps the value if there was one; the counter makes one lookup and one tombstone, and stays exact if and only if the new sum fits in 32 bits |
| Caches.Cache.Flush | persistence/dbaccess.h:448-470 | the base (or the database) now shows what this cache showed; this view and those further down are unchanged; the base's counter makes one write for each entry, in key order, and stays exact if all of them fit |
| Caches.Cache.UndoData | persistence/dbaccess.h:472-477 | the view gets back what the log kept; when the counter stays exact |
| Caches.Cache.UndoDataList | persistence/dbaccess.h:479-483 | the list is undone from its end, and the counter makes one write for each entry |
| Caches.ChangeExact | persistence/dbaccess.h:549-572 | a single change keeps the 32-bit counter equal to the sum of the serialized sizes if and only if the bytes it handles at once fit |
| Caches.SizeExactOverRuns | persistence/dbaccess.h:549-572 | over every run of copies, writes, tombstones and clearing: the counter is exact at all times if and only if every change fits |
| Caches.FlushFits | persistence/dbaccess.h:448-470 | the writes of a flush fit if what both caches hold fits together |
| Caches.OverwriteLosesSize | persistence/dbaccess.h:568-574 | an input on which the counter is wrong although the sums before and after fit: it reads 0 for 2^32 - 1 bytes after ten bytes are written over ten |
| Caches.BaseWriteShowsThrough | persistence/dbaccess.h:503-523 | a write to the base shows through a child if and only if the child holds no entry for the key, or holds that value |
| Caches.SetShows | persistence/dbaccess.h:526-534 | setting an entry of an overlay is setting it in the view |
| Caches.FlushShows | persistence/dbaccess.h:448-470 | flushing one overlay into the next does not change what is shown |
| Caches.UpdateSizeExact | persistence/dbaccess.h:568-574 | the 32-bit counter is right after an update if and only if the old sum and the new value fit in 32 bits together |
| Caches.AddSizes | persistence/dbaccess.h:549-554 | the counter is right after a new entry if and only if the new sum fits in 32 bits |
| Caches.Cache.SetDataToSelf | persistence/dbaccess.h:526-534 | when the counter stays exact, for both cases |
| Caches.TotalReplace | persistence/dbaccess.h:568-574 | how replacing a value changes the exact sum of serialized sizes |
| SimpleCaches.SimpleCache.GetDataPtr | persistence/dbaccess.h:732-752 | read-through for the single value: no view in the chain changes |
| SimpleCaches.SimpleCache.SetData | persistence/dbaccess.h:671-679 | the view is the new value and the log keeps the old one |
| SimpleCaches.SimpleCache.EraseData | persistence/dbaccess.h:686-693 | the view is empty and the log keeps the value if there was one |
| SimpleCaches.SimpleCache.Flush | persistence/dbaccess.h:699-711 | the value moves one level down and every view stays |
| SimpleCaches.SimpleCache.UndoDataList | persistence/dbaccess.h:720-724 | undoing a list gives the value logged first |
| SimpleCaches.ValueStepIsUndone | persistence/dbaccess.h:713-718 | one more logged SetData or EraseData on a single value makes no difference to what undoing gives |
| Undo.StepIsUndone | persistence/dbaccess.h:581-595 | one more logged operation on any prefix, table or single value, makes no difference to what undoing gives |
| Undo.TransactionIsUndone | persistence/blockundo.cpp:108-128 | undoing the log of a transaction gives back the views it started from |
| Undo.BlockIsUndone | persistence/blockundo.cpp:108-128 | undoing all transactions of a block, the last one first, gives back exactly the views from before the block |
| Undo.UndoTransaction | persistence/blockundo.cpp:114-124 | one transaction, its prefixes in any order; false exactly if a prefix has no cache |
| Undo.Execute | persistence/blockundo.cpp:108-128 | on registered tables and single values with any views the executor computes the undone views, or returns false for an unknown prefix |
| Undo.UndoBlock | persistence/blockundo.cpp:108-128 | on any registered caches, tables and single values, that show what a block led to, Execute succeeds and gives back what they showed before it |
| Undo.TransactionLogsKeys | persistence/dbaccess.h:581-595 | the logs of tables, unlike those of single values, name a key in every entry, and belong to registered prefixes |
| Undo.SetRegistered | persistence/dbaccess.h:404-419 | SetData on a registered table is one logged step; no other prefix notices |
| Undo.EraseRegistered | persistence/dbaccess.h:429-441 | so is EraseData |
| Undo.SetSingle | persistence/dbaccess.h:671-679 | so is SetData on a registered single value |
| Undo.EraseSingle | persistence/dbaccess.h:686-693 | so is its EraseData |
| CacheIter.LayerIterator.First | persistence/dbiterator.h:189-193 | everything of the overlay view remains to be visited |
| CacheIter.LayerIterator.Seek | persistence/dbiterator.h:195-201 | exactly the live keys at or after the target remain |
| CacheIter.LayerIterator.SeekUpper | persistence/dbiterator.h:203-209 | exactly the live keys after the target remain |
| CacheIter.LayerIterator.Next | persistence/dbiterator.h:217-220 | the current key, and nothing else, is taken off what remains |
| CacheIter.LayerIterator.ProcessData | persistence/dbiterator.h:247-263 | tombstones are skipped without losing a live key, and the loop terminates |
| CacheIter.LayerIterator.ProcessGetData | persistence/dbiterator.h:265-290 | the lesser of the two current keys, with the cache winning a tie |
| CacheIter.DbIterator.SeekUpper | persistence/dbiterator.h:78-88 | the first record after the key |
| CacheIter.Create | persistence/dbiterator.h:175-184 | the iterator over a chain of any depth is to visit exactly its view |
| CacheIter.Enumerate | persistence/dbiterator.h:166-291 | First and Next until invalid list the view: every live entry once, in increasing key order, with the top-most value |
| CacheIter.EnumeratePrefix | persistence/dbiterator.h:431-467 | the prefix iterator lists exactly the live keys that match, for any matcher whose keys are an interval |
| CacheIter.StringPrefixIsInterval | persistence/dbiterator.h:421-423 | byte strings that start with a prefix are an interval of the bytewise order that starts at the prefix |
| CacheIter.MatchIsInterval | persistence/dbiterator.h:344-429 | for every shape of key (single, pair, tuple, with or without tail keys) and every prefix, the keys that CommonPrefixMatcher matches are the interval from the key MakeKeyByPrefix makes |
| CacheIter.MatchPrefixMeans | persistence/dbiterator.h:344-429 | the recursive MatchPrefix overloads say just this |
| CacheIter.MakeKeyByPrefix | persistence/dbiterator.h:347-381 | component by component: those of the prefix, then empty ones |
| CacheIter.EnumerateMatching | persistence/dbiterator.h:431-467 | CDBPrefixIterator with CommonPrefixMatcher lists exactly the live keys whose components before the last one of the prefix are equal to it and whose next one is equal to that, or, for tail keys, begins with its bytes; the empty prefix lists all |
| Log.Writer.AddRecord | persistence/leveldb/db/log_writer.cc:27-73 | the bytes, in numbers: on an empty file a record of at most 32761 bytes becomes checksum, length, type 1 and the data; at any position: zeros if less than 7 bytes are left in the block of 32768, then type 1, or type 2 filling the block, types 3 filling one block each, and type 4 |
| Log.EncodedIsRecord | persistence/leveldb/db/log_writer.cc:27-73 | the recursive encoding that the reader is proved against has exactly these bytes |
| Log.Writer.EmitPhysicalRecord | persistence/leveldb/db/log_writer.cc:75-100 | header and payload are appended and fit in the block |
| Log.Reader.FillBuffer | persistence/leveldb/db/log_reader.cc:183-193 | the buffer is filled up to the next header, trailers skipped, or the file ends |
| Log.Reader.ReadPhysicalRecord | persistence/leveldb/db/log_reader.cc:181-263 | for every file, damaged or not: type and payload, where reading goes on and whether it complains; wrong checksums and lengths take the rest of the block with them, an unfinished write at the end does not count as damage |
| Log.Reader.ReadRecord | persistence/leveldb/db/log_reader.cc:59-164 | for every file: the record, where reading goes on and how often it complains, put together from what is in the file by the five kinds of fragments |
| Log.ScanIsThere | persistence/leveldb/db/log_reader.cc:59-164 | whatever the damage: a record that is returned is the payload of fragments that lie one behind the other in the file, each with a right checksum, of types 1 or 2, 3, .., 3, 4 |
| Log.PieceIsRead | persistence/leveldb/db/log_reader.cc:181-263 | where the file holds a piece that was written, the piece is found; a torn one is the end of the file, without a complaint |
| Log.ScanIntact | persistence/leveldb/db/log_reader.cc:59-164 | in any prefix of a written file the next record is found exactly if all its fragments are there; otherwise the end, without a complaint |
| Log.ReadAll | persistence/leveldb/db/log_reader.cc:59-164 | for every file, what ReadRecord returns one after the other; of any byte prefix of the writer's output exactly the records that end inside it, and no corruption is reported |
| Log.RoundTrip | persistence/leveldb/db/log_writer.cc:27-73 | writing any records and reading the file returns them all |
| Log.HeaderBytes | persistence/leveldb/db/log_reader.cc:208-213 | what the bytes of a header say |
| Log.WholeFileIsComplete | persistence/leveldb/db/log_reader.cc:59-164 | every record ends inside the whole file |
| Coding.EncodeVarint32IsVarint | persistence/leveldb/util/coding.cc:47-73 | the five unrolled cases are the plain base-128 encoding |
| Coding.VarintBytes | persistence/leveldb/util/coding.cc:47-73 | byte i holds bits 7i to 7i + 6, the high bit is set in all bytes but the last, and there are no more bytes than it takes |
| Coding.VarintRoundTrip | persistence/leveldb/util/coding.cc:112-129 | decoding inverts encoding, whatever follows |
| Coding.GetVarint32 | persistence/leveldb/util/coding.cc:112-141 | the loop in 32-bit arithmetic computes the decoded value modulo 2^32 |
| Coding.GetVarint64 | persistence/leveldb/util/coding.cc:143-170 | the same for 64 bits |
| Coding.GetLengthPrefixedSlice | persistence/leveldb/util/coding.cc:182-192 | for every input: the string of the length in front and the rest, or nothing if the input is too short; what was written is read back exactly |
| Coding.Fixed32RoundTrip | persistence/leveldb/util/coding.cc:9-18 | fixed 32-bit integers are read back |
| Coding.Fixed32Bytes | persistence/leveldb/util/coding.cc:9-18 | the lowest byte comes first |
| WriteBatches.WriteBatch.Put | persistence/leveldb/db/write_batch.cc:98-103 | the batch holds one more update: byte 1, the key and the value with their lengths are added, and bytes 8 to 11 are the new count |
| WriteBatches.WriteBatch.Delete | persistence/leveldb/db/write_batch.cc:105-109 | the batch holds one more deletion: byte 0 and the key with its length are added, and the count grows |
| WriteBatches.WriteBatch.Append | persistence/leveldb/db/write_batch.cc:141-145 | the updates of one batch follow those of the other, the count adds up and the header stays |
| WriteBatches.WriteBatch.Iterate | persistence/leveldb/db/write_batch.cc:42-80 | for all bytes: the handler gets the updates up to the first that cannot be read, and the result is good exactly if all could be read and the count is right; of a batch that was built it gets exactly the updates that were put in |
| WriteBatches.WriteBatch.InsertInto | persistence/leveldb/db/write_batch.cc:128-134 | update i gets the batch's sequence number plus i, also when a later one cannot be read |
| WriteBatches.OpsOfRecords | persistence/leveldb/db/write_batch.cc:42-80 | the records of a batch are read as the updates that were put in |
| EditCodec.EncodeTo | persistence/leveldb/db/version_edit.cc:41-86 | the bytes, written out: tags 1, 2, 9, 3, 4 with the string or number that is set, then 5, 6 (in set order) and 7 with their parts in order |
| EditCodec.DecodeFrom | persistence/leveldb/db/version_edit.cc:109-210 | for all bytes: the edit that their fields add up to, or an error exactly if a tag is unknown, a part is cut off or a level is not below 7 |
| EditCodec.FieldsOfEncoding | persistence/leveldb/db/version_edit.cc:109-210 | the encoding of any fields is read as these fields |
| EditCodec.DecodeLiteral | persistence/leveldb/db/version_edit.cc:109-210 | the eight kinds of fields, byte by byte: reading tag 1, 2, 9, 3, 4, 5, 6 or 7 and its parts gives the edit with just that field |
| EditCodec.RoundTrip | persistence/leveldb/db/version_edit.cc:109-210 | DecodeFrom into a fresh edit inverts EncodeTo |
| Manifest.Recover | persistence/leveldb/db/version_set.cc:896-1009 | from any prefix of the MANIFEST's bytes: the version after the last complete record, file by file, with the log number, next file number and last sequence number recorded last; it fails exactly if one of these is in no complete record |
| Manifest.RoundTrip | persistence/leveldb/db/version_set.cc:811-1009 | writing the records of any edits, tearing the file anywhere and recovering gives the version after the last complete record, and for the whole file the last one |
| Manifest.FromTo | persistence/leveldb/db/version_set.cc:1054-1082 | a version edit comes back from its encoded form, given the table files and readable key bounds |
| Block.BlockBuilder.Add | persistence/leveldb/table/block_builder.cc:73-107 | one more item, sharing the longest common prefix with the last key, or nothing at a restart, which comes after every `interval` items; the bytes added are the three lengths, the rest of the key and the value |
| Block.BlockBuilder.Finish | persistence/leveldb/table/block_builder.cc:63-71 | a finished block: the entries, the offsets of the restart items, four bytes each, and their number |
| Block.BlockIsParsed | persistence/leveldb/table/block.cc:23-38 | the parts of a finished block are found from its end |
| Block.DecodeEntry | persistence/leveldb/table/block.cc:53-74 | the three lengths and the key and value bytes of an entry, on the fast path too |
| Block.BlockIter.ParseNextKey | persistence/leveldb/table/block.cc:226-253 | the iterator stands at the next item with its whole key, or is not valid after the last one |
| Block.BlockIter.AtItem | persistence/leveldb/table/block.cc:128-136 | when valid, key and value are those of the item it stands at |
| Block.BlockIter.Next | persistence/leveldb/table/block.cc:139-142 | one item on |
| Block.BlockIter.Prev | persistence/leveldb/table/block.cc:144-163 | one item back, through a restart point; from the first item it becomes invalid |
| Block.BlockIter.Seek | persistence/leveldb/table/block.cc:165-203 | the first item whose key is not before the target, by binary search on the restart points and a scan |
| Block.BlockIter.SearchRestarts | persistence/leveldb/table/block.cc:166-189 | all items before the restart point found are before the target |
| Block.BlockIter.SeekToFirst | persistence/leveldb/table/block.cc:205-208 | the first item |
| Block.BlockIter.SeekToLast | persistence/leveldb/table/block.cc:210-215 | the last item |
| Bloom.CreateFilter | persistence/leveldb/util/bloom.cc:35-61 | exactly the probed bits of the keys are set |
| Bloom.ProbeIs | persistence/leveldb/util/bloom.cc:35-61 | probe j is the hash plus j times the hash rotated right by 17 bits, in 32-bit arithmetic |
| Bloom.FilterBits | persistence/leveldb/util/bloom.cc:36-44 | the least multiple of 8 that is at least 64 and at least n times the bits per key |
| Bloom.KeyMayMatch | persistence/leveldb/util/bloom.cc:63-87 | true exactly if all probes of the key are set (or the filter is of an unknown kind) |
| Bloom.AddedKeyMatches | persistence/leveldb/util/bloom.cc:63-87 | a key of the filter always matches |
| Bloom.FilterBlockBuilder.StartBlock | persistence/leveldb/table/filter_block.cc:22-28 | the filters of all earlier ranges of 2048 bytes are made, of exactly the keys added there |
| Bloom.FilterBlockBuilder.Finish | persistence/leveldb/table/filter_block.cc:36-50 | for every 2048 bytes of offsets the filter of exactly the keys added there, or none for no keys; so every key added for a block may match at that block's offset |
| Bloom.BlockMayMatch | persistence/leveldb/table/filter_block.cc:95-109 | the reader asks the filter of the block's 2 KB range |
| Tables.FindSeparator | persistence/leveldb/db/dbformat.cc:68-85 | the last key itself, or its user key cut and raised where that is shorter and below the next block, with the largest sequence number; it separates the two blocks |
| Tables.FindSuccessor | persistence/leveldb/db/dbformat.cc:87-99 | the last key itself, or its user key cut behind the first byte below 255 and raised, where that is shorter |
| Tables.TableBuilder.Add | persistence/leveldb/table/table_builder.cc:92-121 | the table under construction holds one more entry; its block is written, with a trailer of 5 bytes, exactly when it has reached the block size; the filter gets the user key |
| Tables.TableBuilder.Flush | persistence/leveldb/table/table_builder.cc:123-137 | the open block is written with its trailer and its index entry left pending |
| Tables.TableBuilder.Finish | persistence/leveldb/table/table_builder.cc:199-254 | a table of exactly the added entries, its blocks and their offsets as written, with a separating index, and filters of exactly the keys of each range |
| Tables.InternalGet | persistence/leveldb/table/table.cc:216-245 | looking a key up through index, filter and one block finds what a lookup in the plain run of all entries finds |
| Tables.NothingLater | persistence/leveldb/table/table.cc:216-245 | when the block the index names has nothing at or after the key, no later entry has its user key |
| TwoLevel.TwoLevelIterator.SeekToFirst | persistence/leveldb/table/two_level_iterator.cc:98-103 | the first entry of all blocks, over empty ones |
| TwoLevel.TwoLevelIterator.SeekToLast | persistence/leveldb/table/two_level_iterator.cc:105-110 | the last entry of all blocks |
| TwoLevel.TwoLevelIterator.Seek | persistence/leveldb/table/two_level_iterator.cc:91-96 | the first entry at or after the target |
| TwoLevel.TwoLevelIterator.Next | persistence/leveldb/table/two_level_iterator.cc:112-116 | one entry on, over empty blocks |
| TwoLevel.TwoLevelIterator.Prev | persistence/leveldb/table/two_level_iterator.cc:118-122 | one entry back, over empty blocks; from the first entry it becomes invalid |
| TwoLevel.TwoLevelIterator.SkipEmptyDataBlocksForward | persistence/leveldb/table/two_level_iterator.cc:125-136 | the position is kept or moved to the next entry behind the empty blocks |
| TwoLevel.TwoLevelIterator.SkipEmptyDataBlocksBackward | persistence/leveldb/table/two_level_iterator.cc:138-149 | the same backwards |
| TwoLevel.TableDivides | persistence/leveldb/table/table_builder.cc:100-106 | the index of a finished table divides its blocks, as Seek needs |
| LruCaches.HandleTable.Lookup | persistence/leveldb/util/cache.cc:58-60 | the hash table is a map: lookup |
| LruCaches.HandleTable.Insert | persistence/leveldb/util/cache.cc:62-76 | insert, returning what was there; there are never more entries than buckets |
| LruCaches.HandleTable.Remove | persistence/leveldb/util/cache.cc:78-86 | remove |
| LruCaches.HandleTable.Resize | persistence/leveldb/util/cache.cc:107-131 | growing to the least sufficient power of two moves every entry and changes no content |
| LruCaches.LRUCache.Lookup | persistence/leveldb/util/cache.cc:209-218 | the entry becomes the newest one and one more handle is out; all entries keep key, value and charge |
| LruCaches.LRUCache.Release | persistence/leveldb/util/cache.cc:220-223 | one handle less is out; the entry is freed exactly if it was the last one and the entry had left the cache, and all others keep key, value and charge |
| LruCaches.LRUCache.Insert | persistence/leveldb/util/cache.cc:225-256 | an entry of the same key goes, the new one is the newest, and then the oldest go until the cache is no longer too full or empty, no more than needed; exactly those of them are freed that no caller holds, in this order, and all others keep key, value and charge |
| LruCaches.LRUCache.Evict | persistence/leveldb/util/cache.cc:248-253 | oldest first, terminating, and no entry more than needed; freed are exactly those that no caller holds |
| LruCaches.LRUCache.Erase | persistence/leveldb/util/cache.cc:258-265 | the key leaves table and list, and its entry is freed exactly if no caller holds it |
| LruCaches.DropKeeps | persistence/leveldb/util/cache.cc:186-194 | dropping a resident entry keeps: table and list hold the same entries, references are one for the cache plus one for each handle, usage is the sum of charges, and every handle given out is either unfreed or its deleter has run exactly once |
| LruCaches.ReleaseKeeps | persistence/leveldb/util/cache.cc:220-223 | so does releasing a handle |
| LruCaches.InsertKeeps | persistence/leveldb/util/cache.cc:225-256 | so does an insertion |
| LruCaches.UnrefMeans | persistence/leveldb/util/cache.cc:186-194 | dropping a reference frees the entry exactly if it was the last: the cache's when no caller holds it, or a caller's when it has left the cache |
| LruCaches.HeldIsThere | persistence/leveldb/util/cache.cc:186-194 | an entry with a handle out is not freed |
| SkipLists.OwnLinkUnseen | persistence/leveldb/db/skiplist.h:364-364 | after the first store of a round every level is what it was: the new node's own link is seen by nobody |
| SkipLists.LinkOneMore | persistence/leveldb/db/skiplist.h:365-365 | after the second store every level is sorted and a sublist of the one below, with the new node at one more level |
| SkipLists.AddUnlinked | persistence/leveldb/db/skiplist.h:360-360 | a node that no level links changes no level and no visible key |
| SkipLists.SkipList.LinkLevel | persistence/leveldb/db/skiplist.h:361-366 | both stores of a round leave a sound list |
| SkipLists.SkipList.Insert | persistence/leveldb/db/skiplist.h:334-367 | the visible keys are the old ones and the new one, every level is sound, and the new node, of the height asked for, is linked at exactly that many levels; all others as before |
| SkipLists.SkipList.FindGreaterOrEqual | persistence/leveldb/db/skiplist.h:259-278 | at any moment of an insertion: the first visible node at or after the key, and the nodes before it at every level; terminates |
| SkipLists.SkipList.FindLessThan | persistence/leveldb/db/skiplist.h:282-299 | the last visible node before the key, or the head |
| SkipLists.SkipList.FindLast | persistence/leveldb/db/skiplist.h:302-319 | the last visible node, or the head |
| SkipLists.SkipList.Contains | persistence/leveldb/db/skiplist.h:370-377 | true exactly if the key is visible |
| Cdps.CdpStore.NewCDP | persistence/cdpdb.cpp:21-25 | the table gains the CDP, and totals and all indexes stay exact |
| Cdps.CdpStore.EraseCDP | persistence/cdpdb.cpp:27-31 | the table loses the CDP, and totals and all indexes stay exact |
| Cdps.CdpStore.UpdateCDP | persistence/cdpdb.cpp:34-37 | the CDP is replaced, and totals and all indexes stay exact, also when its index keys do not change |
| Cdps.CdpStore.SaveCdpIndexData | persistence/cdpdb.cpp:73-89 | what the three tables get |
| Cdps.CdpStore.EraseCdpIndexData | persistence/cdpdb.cpp:91-106 | what the three tables lose |
| Cdps.OneEntryEach | persistence/cdpdb.cpp:73-107 | the ratio index holds a CDP exactly if the primary table does, and as many entries |
| Cdps.OneHeightEntryEach | persistence/cdpdb.cpp:73-89 | so does the height index |
| Cdps.OneUserEntryEach | persistence/cdpdb.cpp:21-25 | the table of owners and pairs names every CDP exactly once |
| Cdps.AddMatches | persistence/cdpdb.cpp:73-89 | adding a CDP keeps the totals of its pair equal to the sum over its CDPs, modulo 2^64 |
| Cdps.SubMatches | persistence/cdpdb.cpp:91-106 | so does taking one out |
| Cdps.CdpStore.GetCdpListByCollateralRatio | persistence/cdpdb.cpp:108-123 | exactly the CDPs of the pair with a ratio at or below the bound, ordered by ratio, then height, then id |

## Left out

- Store.SnapshotReadsAreStable: for runs of harmless actions, which `Store.RunExact` shows to be those that keep the invariant. After a compaction that loses the invariant while no reader notices, the reads of that state are described (`ReadExact.InstallReadsExact`), those after further steps are not.
- Store.RunKeepsInvariant: for the same runs.
- DbReads.NewIterator: only while the invariant holds; it would be enough that everything needed is still stored.
- VersionSets.Recover: the log number of edits made by `DbImpl` is not advanced; `Manifest` is about the records of any version set.
- Counterexamples.DropRevivesDeleted: sizes of tables are those of a block size so small that every entry ends a block; seek statistics and scores, which start a compaction, are not part of the run.
- Caches.Cache.GetData: an operation on a chain whose base is written by somebody else while a child holds data is outside the claim; `Caches.BaseWriteShowsThrough` says when such a write shows.
- Log.Reader.ReadRecord: reading starts at offset 0, the file itself can be read, and the sizes given to the corruption reporter are not modelled, only how often it is called; a type byte 5 or 6 is taken for an end of file or a bad record, as in the code.
- WriteBatches.WriteBatch.InsertInto: for batches that have their 12 header bytes; the code reads the sequence number before it looks at the size.
- Block.BlockIter.ParseNextKey: only for blocks that a builder finished; the error path for corrupt entries cannot be reached there.
- Block.DecodeEntry: the two lengths are added without 32-bit wrap-around, which makes a difference for corrupt entries only.
- LruCaches.LRUCache.Insert: the recency list and the hash chains are sequences; the links of the list nodes are not modelled, nor are the sixteen shards.
- SkipLists.SkipList.Insert: the list is sound after every store; a reader whose own walk is interleaved with the stores is not followed step by step, and the arena and memory ordering are left out.
- Cdps.CdpStore.NewCDP: the tables are plain maps (the views of the caches), keys are taken to be non-empty, and totals are exact modulo 2^64.
- CacheIter.Create: iterators walk the contents the caches had when the iterator was made, the database's records of one prefix come as a map, and the byte order of database keys is taken to agree with `operator<`. `CacheIter.EnumerateMatching` takes components of keys to be tail keys or single ranks whose empty value is the least.
- GroupCommit.CommitRunKeeps: batches are well formed and the log does not fail; `MakeRoomForWrite` appears as a memtable switch that may happen before a leader starts, and its waiting and slow-down are not modelled.
- In group commit a writer without a batch that another leader takes along is finished without a memtable switch of its own, as in the code.
- The constructor of the CDP cache that takes a base copies the base's caches instead of layering over them (cdpdb.cpp:13-19); caches of `Cdp` are separate from that.
- `VersionEdit::Clear` keeps old compact pointers, so decoding into a used edit keeps them; decoding is modelled into a fresh edit only.
- The memtable dump in the middle of a compaction (db_impl.cc:886-895): dumps are separate steps between whole compactions.
- Replaying the write-ahead log into memtables when a database is opened: `GroupCommit.LogPrefixIsGroups` and `Log.ReadAll` are the parts of it that are proved.
- The compact pointers, compaction scores and seek statistics that decide when and where a compaction starts; the picks themselves are modelled for any level and file.
- I/O errors, background errors, obsolete files, file locks, repair and destruction of a database, compression.
- The value of checksums and hashes, random heights, serialized sizes and table sizes: any function of the right type.
- The flattened key buffer and the offset array inside a filter block: the filters are a sequence.
- The typed wrappers around the caches (accounts, assets, contracts, orders, delegates, receipts and so on), price feeds, block headers and block files.
- Operation logs that also keep the new value, and writes that reach a logged cache through a child's flush, which are not logged.
