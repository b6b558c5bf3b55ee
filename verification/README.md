# A model of the LevelDB 1.12 storage engine

This project models the core of LevelDB 1.12 in Dafny and proves what the engine
is for: that committed writes survive any crash, that every read at a live
sequence number answers from the committed history, and that each on-disk format
is read back exactly as it was written, whole or cut off anywhere.

The layers, from the top:

* **The contract** (`KeyValueSpec`). A plain map, made from the actions of a run
  alone: a group of writes updates it when it is published, or when recovery finds
  it in a log. `GetLatest`: in every state of every run, Get at LastSequence
  answers from that map. `SnapshotIsMap` and `IteratorIsMap`: a snapshot or an
  iterator keeps answering from the map of its moment. `HistoryIsCommitted`: the
  history below is what the actions handed to the log, no more and no less.
* **The database as a state machine** (`Database*`, `RecoverLog`, `Storage`,
  `ManifestHistory`). Steps are group writes (log, memtable, publication),
  memtable switches, flushes, compactions, trivial moves, manifest appends,
  version installation, deletion of obsolete files, iterators and snapshots,
  crashes at any point, failed and successful recoveries. The abstract state is
  the set of all entries ever committed. The main theorems, over every run, are
  `RunIsDurable`, `RunReads`, `GetInRun`, `RecoveredReads`, `SnapshotReads` and
  `IteratorIsStable`.
* **The code that takes the steps** (`Engine`, `CompactionRun`, `ObsoleteFiles`):
  writes, flushes, version installation, background compaction from the picked
  file to the new version, recovery, and the deletion of obsolete files, each
  proved to be steps of the state machine that are possible whenever they are due.
* **Versions and compaction** (`Files`, `Versions`, `Inputs`, `Levels`,
  `Outputs`, `Compaction`, `CompactionReads`, `CutKeys`, `TrivialMoves`).
  `CompactionPreservesReads` is the centre; `GetOverlappingInputs` returns the
  least closed set; the loop's outputs are fully determined (`WellCutUnique`).
* **Concurrency**: the group commit queue (`GroupCommit`) and the skip list with
  one writer and lock-free readers, load by load and store by store (`SkipList`,
  `SkipListSteps`).
* **Formats**: log (`LogFormat`, `LogReader`, `LogRoundTrip`, and `LogSoundness`
  for damaged files), batches and the write-ahead log (`WriteBatches`,
  `WriteAheadLog`), blocks (`Blocks`, `BlockBuilder`, `BlockIter`,
  `BlockCursor`), filters (`Bloom`, `FilterBlock`), tables (`Table*`), version
  edits and the manifest (`VersionEdits`, `Manifest`), numbers (`Coding`) and
  checksums (`Crc32c`, `Crc32cVectors`).
* **From bytes to the state machine**: `EntryBytes` (a table file answers as the
  model's table does; a log file replays the model's entries), `LogBytes` and
  `ManifestBytes` (the same for every log and manifest of every run).
* **Iterators** (`Cursors`, `Merging`, `TwoLevel`, `DbIter`): each is a cursor on
  a simple sequence under any interleaving of moves.
* **The LRU cache** (`LruList`, `HandleTable`, `Cache`).

User keys are integers in the state machine and the iterators: the ranks of the
byte strings in the comparator's order (`Comparators.RankPreservesOrder`,
`EntryBytes.NamesExist`). Byte-level modules work on byte sequences.

## Assumptions

* Runs of the database contain only compactions that cut their outputs between
  user keys. The source does not ensure this; see the first defect below.
* A memtable flush is never nested inside a running compaction.
* An append or a file write that returned survives a crash of the process. A log
  or manifest cut anywhere, as by an append that did not return, is covered by
  the theorems on byte prefixes.
* Skip-list loads and stores are single atomic steps in one total order.
* The state machine meets no I/O errors; the group commit model does.
* Internal keys are distinct, and the user comparator is bytewise where index
  keys are shortened.
* Sizes stay within the widths of the formats; the conditions are the predicates
  `Small`, `Fits`, `SizesOk` and `WellFormed`.

## Defects of the source

Three properties one would expect do not hold. Each has an input on which it
fails and the exact condition under which it holds.

* **A compaction may cut its outputs inside a user key**, so that two files of
  one level share it: the loop looks at sizes and grandparents only
  (`CutKeys.CutInsideKey`). It cannot happen, whatever the file sizes, if and
  only if behind every entry newer than the oldest snapshot the next older
  version of its key is a deletion marker that is dropped
  (`CutKeys.CutsBetweenKeysIff`). In particular it cannot when no input entry is
  newer than the oldest snapshot.
* **A trivial move may hide the newest entry of a key**: on files that share a
  user key the selection takes the newer one alone and moves it below the older
  one (`TrivialMoves.PicksCutFile`, `CutFileMoves`). A move keeps all reads if
  and only if the next file of the level does not begin with the last user key of
  the moved one (`TrivialMoves.TrivialMoveIff`).
* **DBIter::Next straight after a backward move may show the current key again**
  (`DbIter.NextAfterPrevGetsStuck`). It moves to the next visible key if and only
  if the entry just before those of the current key is visible at the iterator's
  sequence or there is none (`DbIter.TurnNext`, `DbIter.DbIterator.Next`).

## Model

| member | source | states |
|---|---|---|
| `Entries.ReadIsNewest` | leveldb-1.12.0/db/dbformat.cc:60-82 | a read of a set of entries answers from the newest entry of the key at or below the sequence number, and a deletion marker reads as absent |
| `Entries.NewestExists` | leveldb-1.12.0/db/version_set.cc:353-468 | whenever some entry is visible there is a newest visible one, so a read is always defined |
| `Entries.ReadEqual` | leveldb-1.12.0/db/version_set.cc:353-468 | two stores that agree on the visible entries of a key read alike |
| `Versions.FindFile` | leveldb-1.12.0/db/version_set.cc:105-128 | the binary search returns the first file whose largest key is not before the target: all files to its left end before it, none from it on does |
| `Versions.TableGetNewest` | leveldb-1.12.0/db/version_set.cc:326-346 | a table lookup finds the newest visible entry of the file, and reports nothing only if no entry of the file is visible |
| `Versions.GetLevelZero` | leveldb-1.12.0/db/version_set.cc:353-468 | trying the overlapping level-zero files newest number first finds the newest visible entry of the whole level |
| `Versions.GetSortedLevel` | leveldb-1.12.0/db/version_set.cc:353-468 | one binary search and one table lookup find the newest visible entry of a sorted level |
| `Versions.Get` | leveldb-1.12.0/db/version_set.cc:353-468 | for every version, key and sequence the search answers from the shallowest level that has a visible entry; where shallower files are newer this is the read of the union of all files |
| `Versions.Search` | leveldb-1.12.0/db/version_set.cc:353-468 | the level-by-level search finds the newest entry of the first level with a visible one, whatever the contents of the levels below |
| `Versions.FirstHitIsRight` | leveldb-1.12.0/db/version_set.cc:353-468 | if shallower files are newer, the entry of the first level that answers is the newest of the whole version |
| `Inputs.SomeFileOverlapsRange` | leveldb-1.12.0/db/version_set.cc:150-192 | true exactly if some file of the level overlaps the user-key range, by scan or by binary search |
| `Inputs.PickLevelForMemTableOutput` | leveldb-1.12.0/db/version_set.cc:513-542 | the level is zero if a file of level zero overlaps the table, and otherwise as deep as it may be: it stops at level two, or only because a file of the next level overlaps, or because the files of the level after that overlap the table by more than 20971520 bytes |
| `Inputs.GetOverlappingInputs` | leveldb-1.12.0/db/version_set.cc:546-597 | the restarting scan ends (fewer files stick out each time) and returns exactly the files that overlap the least range that contains the given one and that no level-zero file straddles |
| `Inputs.GetRange` | leveldb-1.12.0/db/version_set.cc:1357-1383 | the returned range contains every file, and both its ends are met by some file |
| `Inputs.SetupOtherInputs` | leveldb-1.12.0/db/version_set.cc:1502-1572 | in a version with disjoint levels the chosen files of both levels share no user key with a file left behind; inputs that meet nothing in the next level stay alone; more files of the level are taken exactly when there are more, they meet no more files of the next level, and all stay below 52428800 bytes; the grandparents are the files of the level after that overlap the whole compaction |
| `Inputs.PickInputs` | leveldb-1.12.0/db/version_set.cc:1438-1500 | for every picked file the inputs are good in the sense of SetupOtherInputs; a file above level zero that meets nothing in the next level is compacted alone, also when its neighbours share a user key with it |
| `Inputs.LeftBehindOutside` | leveldb-1.12.0/db/version_set.cc:1502-1572 | every file of the next level that is left behind lies wholly to one side of all input files |
| `Inputs.CoveredUnique` | leveldb-1.12.0/db/version_set.cc:546-597 | there is only one set of files that GetOverlappingInputs may return for a range |
| `Inputs.ExpandInputs` | leveldb-1.12.0/db/version_set.cc:1520-1551 | the inputs grow exactly when the range of both levels takes in more files of the level, these meet as many files of the next one as before, and with those stay below 52428800 bytes |
| `Outputs.ProgressIndex` | leveldb-1.12.0/db/version_set.cc:1679-1705 | for a sorted input the grandparent cursor always stands at the first grandparent that does not end before the last key |
| `Outputs.StopsIff` | leveldb-1.12.0/db/version_set.cc:1679-1705 | a key stops an output if and only if the grandparents passed since the last stop, or since the first key, hold more than 20971520 bytes together |
| `Outputs.StopStep` | leveldb-1.12.0/db/db_impl.cc:1035-1043 | closing an output where the overlap grew too large keeps: every output is within the overlap limit, none goes on over a stop, and each cut has its reason |
| `Outputs.AddStep` | leveldb-1.12.0/db/db_impl.cc:1100-1124 | adding an entry and closing a full file keeps the same, and no output goes on after it is full |
| `Outputs.WellCutUnique` | leveldb-1.12.0/db/db_impl.cc:1014-1128 | survivors, file sizes and grandparents leave exactly one way to cut the outputs |
| `Compaction.SurvivorsPreserveReads` | leveldb-1.12.0/db/db_impl.cc:1056-1128 | dropping hidden entries and obsolete deletion markers changes no read at any sequence at or above the oldest snapshot |
| `Compaction.DropAtIsSurvivors` | leveldb-1.12.0/db/db_impl.cc:1056-1092 | comparing each entry with its predecessor only decides exactly whether it is hidden by any newer entry or is an obsolete marker |
| `Compaction.SurvivorSeqIsSurvivors` | leveldb-1.12.0/db/db_impl.cc:1014-1128 | what the loop writes is the sorted sequence of exactly the surviving entries |
| `Compaction.SurvivorIff` | leveldb-1.12.0/db/db_impl.cc:1056-1092 | an entry survives if and only if it is the newest one at some sequence at or above the oldest snapshot and is no obsolete marker |
| `Compaction.WrittenIff` | leveldb-1.12.0/db/db_impl.cc:1056-1128 | an input entry is written if and only if some reader from the snapshot on may need it and it is not a deletion marker at or below the snapshot whose key lies in no file from level + 2 on |
| `Compaction.Compaction.constructor` | leveldb-1.12.0/db/version_set.cc:1611-1620 | a new compaction has passed no grandparent and no file of any level, so its cursors are right for every first key |
| `Compaction.Compaction.IsBaseLevelForKey` | leveldb-1.12.0/db/version_set.cc:1653-1677 | asked with non-decreasing keys, the monotone level cursors answer as a scan of all deeper files would |
| `Compaction.Compaction.ShouldDrop` | leveldb-1.12.0/db/db_impl.cc:1056-1092 | an entry is dropped exactly if its predecessor of the same key is at or below the snapshot, or it is a deletion marker at or below it with nothing deeper |
| `Compaction.Compaction.ShouldStopBefore` | leveldb-1.12.0/db/version_set.cc:1679-1705 | advances past exactly the grandparents that end before the key, counts their bytes once a key has been seen, and stops exactly when the count exceeds the limit |
| `Compaction.CompactEntry` | leveldb-1.12.0/db/db_impl.cc:1014-1128 | one entry: the survivors so far, the cuts so far and the grandparent progress stay exact |
| `Compaction.DoCompactionWork` | leveldb-1.12.0/db/db_impl.cc:986-1128 | the outputs, one after the other, are exactly the survivors; no output is empty, goes on after it is full, goes on over a stop or passes more grandparent bytes than allowed; and each one ends for one of these reasons |
| `CompactionReads.OutputFilesDisjoint` | leveldb-1.12.0/db/db_impl.cc:907-963 | the files recorded for the outputs share no user key exactly if no user key ends one output and begins the next |
| `CompactionReads.ObsoleteHidesNothing` | leveldb-1.12.0/db/version_set.cc:1653-1677 | in a version whose shallower files are newer, entries outside the inputs of the key of a dropped marker are all newer than it |
| `CompactionReads.CompactionPreservesReads` | leveldb-1.12.0/db/db_impl.cc:986-1128 | for every user key and every sequence at or above the oldest snapshot, the version with the inputs replaced by the outputs reads as before, whatever the memtables hold |
| `CutKeys.OneEachIsGuard` | leveldb-1.12.0/db/db_impl.cc:1056-1092 | one version of each key survives if and only if behind every entry newer than the oldest snapshot the next older version of its key is a droppable marker |
| `CutKeys.CutsBetweenKeysIff` | leveldb-1.12.0/db/db_impl.cc:1035-1124 | for every sorted input and grandparents: whatever the file sizes, outputs are cut between user keys, if and only if the input keeps one version of each key (a condition on the input alone) |
| `CutKeys.CutInsideKey` | leveldb-1.12.0/db/db_impl.cc:1116-1124 | source defect: with a live snapshot between two versions of a key and a first entry that fills a file, the loop necessarily puts the two versions into two files |
| `TrivialMoves.SiblingNewer` | leveldb-1.12.0/db/version_set.cc:797-811 | within a sorted level the entries of a user key stand newest first, across files too |
| `TrivialMoves.MoveKeepsShape` | leveldb-1.12.0/db/db_impl.cc:796-804 | every move of a file that meets nothing in the next level keeps the levels sorted and level zero ordered |
| `TrivialMoves.MoveHides` | leveldb-1.12.0/db/version_set.cc:1632-1639 | if the right neighbour begins with the user key that the moved file ends with, the search after the move stops at an older entry than the newest one |
| `TrivialMoves.TrivialMoveIff` | leveldb-1.12.0/db/version_set.cc:1632-1639 | for every version and file: the version after a trivial move satisfies what lookups rely on, and every search finds the newest entry, if and only if the next file of the level does not begin with the last user key of the moved one |
| `TrivialMoves.PicksCutFile` | leveldb-1.12.0/db/version_set.cc:1438-1572 | source defect: on two files that share a user key the selection takes the newer one alone and finds the move trivial |
| `TrivialMoves.CutFileMoves` | leveldb-1.12.0/db/db_impl.cc:796-804 | source defect: that move is one the theorem speaks of, and reads after it are wrong |
| `Levels.GoodIsWf` | leveldb-1.12.0/db/version_set.cc:797-811 | the invariant of installed versions gives everything that lookups and input selection rely on |
| `Levels.ReplaceKeepsGood` | leveldb-1.12.0/db/version_set.cc:757-833 | replacing files by files that fit keeps levels above zero disjoint in user keys, level zero ordered by number, shallower files newer and file numbers unique |
| `Levels.FlushFits` | leveldb-1.12.0/db/version_set.cc:513-542 | a table newer than everything fits at the level that PickLevelForMemTableOutput chooses |
| `Levels.CompactionFits` | leveldb-1.12.0/db/version_set.cc:1502-1572 | outputs made of the entries of good inputs fit at the next level |
| `Levels.TrivialMoveFits` | leveldb-1.12.0/db/version_set.cc:1632-1639 | in a version with disjoint levels a trivial move fits at the next level |
| `Files.OrderedUnique` | leveldb-1.12.0/db/version_set.cc:631-655 | files in the order of the set of added files are determined by their membership |
| `Files.Builder.Apply` | leveldb-1.12.0/db/version_set.cc:707-755 | one edit: deletions first, then additions, each of which cancels a recorded deletion of its number |
| `Files.MergeFilesSaved` | leveldb-1.12.0/db/version_set.cc:757-793 | merging base and added files is ordered and holds exactly the files of both that are not deleted |
| `Files.Builder.SaveTo` | leveldb-1.12.0/db/version_set.cc:757-833 | each level of the new version is ordered and holds exactly the base and added files that are not deleted |
| `Files.InstallEdit` | leveldb-1.12.0/db/version_set.cc:899-904 | one edit through one builder gives the version without the deleted and with the added files |
| `Files.ChainMembers` | leveldb-1.12.0/db/version_set.cc:707-833 | after any history of edits that adds each (level, number) at most once, a file is there exactly if it was ever there or added and is not recorded as deleted |
| `Files.ReplayAll` | leveldb-1.12.0/db/version_set.cc:1030-1118 | all edits through one builder give exactly the files ever added and not deleted at the end, in order |
| `Files.ReplayedIsInstalled` | leveldb-1.12.0/db/version_set.cc:1030-1118 | replaying a whole history with one builder gives the very file sequences that installing one version per edit arrives at |
| `Storage.FilesAtIsReplayed` | leveldb-1.12.0/db/version_set.cc:1056-1118 | the files that a manifest describes, edit by edit, are those that one builder rebuilds |
| `Storage.ReplayedIsPersisted` | leveldb-1.12.0/db/version_set.cc:1056-1118 | replaying the edits of a manifest gives each level of the version it describes, file by file in order |
| `Storage.PersistsAppend` | leveldb-1.12.0/db/version_set.cc:879-987 | appending the record of an edit keeps the manifest in step with the version it is installed in |
| `Database.ReadsAreHistory` | leveldb-1.12.0/db/db_impl.cc:1237-1294 | in every state that satisfies the invariant, memtables and files read as the committed history at every published sequence still of interest, never showing part of a group |
| `Database.PersistedIsHistory` | leveldb-1.12.0/db/db_impl.cc:298-404 | tables of the persisted version and logs from the persisted log number on are the committed history up to dropped entries, and read as it does |
| `KeyValueSpec.HistoryIsCommitted` | leveldb-1.12.0/db/db_impl.cc:1332-1404 | in every state of every run the history is the union of the groups that the logging actions so far handed over, whatever crashed in between |
| `KeyValueSpec.GroupIsLogged` | leveldb-1.12.0/db/db_impl.cc:1360-1369 | each logging action of a run appends its group to the current log and changes no other log |
| `KeyValueSpec.PublicationAdvances` | leveldb-1.12.0/db/db_impl.cc:1378-1386 | LastSequence grows by the size of the group logged last at its publication, and by nothing else while the database runs |
| `KeyValueSpec.LastSeparates` | leveldb-1.12.0/db/db_impl.cc:1378-1386 | in every running state LastSequence is at least every published sequence number and below every one still being written |
| `KeyValueSpec.RunKeepsSpec` | leveldb-1.12.0/db/db_impl.cc:1332-1404 | every run simulates a plain map and a group in progress that the actions alone determine, over crashes and recoveries |
| `KeyValueSpec.ReadUpdated` | leveldb-1.12.0/db/db_impl.cc:1360-1385 | reading a history after a group of newer entries is looking up the map after its updates, in order |
| `KeyValueSpec.HistoryIsMap` | leveldb-1.12.0/db/db_impl.cc:1237-1294 | the history read at LastSequence is that map |
| `KeyValueSpec.GetLatest` | leveldb-1.12.0/db/db_impl.cc:1237-1294 | refinement: in every state of every run, Get at LastSequence through memtables and files returns what a plain map holds after the published groups, whatever was flushed, compacted, moved, deleted or recovered |
| `KeyValueSpec.SnapshotIsMap` | leveldb-1.12.0/db/db_impl.cc:1309-1320 | GetSnapshot adds exactly one sequence number; everything published is at or below it, everything still being written above; and reads at it give the map of that moment for as long as it is held |
| `KeyValueSpec.IteratorIsMap` | leveldb-1.12.0/db/db_impl.cc:1194-1230 | an iterator opened at LastSequence shows the map of the moment of opening for as long as it is open, whatever newer entries reach its memtables |
| `DatabaseWrites.LogGroupKeepsInv` | leveldb-1.12.0/db/db_impl.cc:1360-1385 | appending a group to the log keeps the invariant (what the step does to log, history and LastSequence: KeyValueSpec.GroupIsLogged, HistoryIsCommitted, PublicationAdvances) |
| `DatabaseWrites.ApplyGroupKeepsInv` | leveldb-1.12.0/db/db_impl.cc:1360-1385 | inserting the group in the memtable keeps the invariant, with readers still at the old last sequence |
| `DatabaseWrites.PublishGroupKeepsInv` | leveldb-1.12.0/db/db_impl.cc:1378-1386 | advancing LastSequence publishes the whole group at once and keeps the invariant |
| `DatabaseWrites.SwitchMemtableKeepsInv` | leveldb-1.12.0/db/db_impl.cc:1509-1536 | a new log and an empty memtable in place of a full one keep the invariant |
| `DatabaseWrites.SnapshotsKeepInv` | leveldb-1.12.0/db/db_impl.cc:1309-1320 | taking and releasing snapshots keep the invariant (which sequence number is taken: KeyValueSpec.SnapshotIsMap) |
| `DatabaseWrites.OpenIteratorKeepsInv` | leveldb-1.12.0/db/db_impl.cc:1194-1230 | an iterator that references memtables and version keeps the invariant |
| `DatabaseVersions.BuildFlushKeepsInv` | leveldb-1.12.0/db/db_impl.cc:511-594 | a flushed table and its edit are fit for the manifest: the entries move from the logs to the tables and none is lost |
| `DatabaseVersions.CompactionVersion` | leveldb-1.12.0/db/db_impl.cc:965-1005 | the version that a compaction installs keeps the level invariant, every read at live sequences, and holds all entries but the dropped ones |
| `DatabaseVersions.BuildCompactionKeepsInv` | leveldb-1.12.0/db/db_impl.cc:986-1128 | a finished compaction and its edit are fit for the manifest |
| `DatabaseVersions.BuildMoveKeepsInv` | leveldb-1.12.0/db/db_impl.cc:796-804 | a trivial move and its edit are fit for the manifest |
| `DatabaseInstall.AppendRecordKeepsInv` | leveldb-1.12.0/db/version_set.cc:920-960 | after the record reached the manifest, recovery finds the new version with the remaining logs, and still the committed history |
| `DatabaseInstall.InstallVersionKeepsInv` | leveldb-1.12.0/db/version_set.cc:962-975 | making the version current lets go of the flushed memtable and its logs and keeps the invariant |
| `DatabaseInstall.DeleteLogKeepsInv` | leveldb-1.12.0/db/db_impl.cc:243-296 | deleting a log below the log number loses nothing that recovery or a reader needs |
| `DatabaseInstall.DeleteTableKeepsInv` | leveldb-1.12.0/db/db_impl.cc:243-296 | deleting a table outside all live versions and pending outputs loses nothing |
| `DatabaseInstall.DeleteManifestKeepsInv` | leveldb-1.12.0/db/db_impl.cc:243-296 | deleting an older manifest loses nothing |
| `ObsoleteFiles.AddLiveFiles` | leveldb-1.12.0/db/version_set.cc:1309-1323 | the loops over versions and levels collect exactly the numbers of pending outputs and of files in some referenced version |
| `ObsoleteFiles.DeleteObsoleteFiles` | leveldb-1.12.0/db/db_impl.cc:243-296 | from a directory listing in any order: every log below the log number, every older manifest and every table that is not live is deleted, nothing else is, and the invariant survives |
| `DatabaseRecovery.CrashKeepsInv` | leveldb-1.12.0/db/db_impl.cc:298-404 | the process may stop between any two steps |
| `DatabaseRecovery.FailedOpenKeepsInv` | leveldb-1.12.0/db/db_impl.cc:1648-1686 | an attempt to open that does not reach CURRENT leaves only unreferenced files |
| `DatabaseRecovery.OpenKeepsInv` | leveldb-1.12.0/db/db_impl.cc:1648-1686 | replayed logs as level-zero tables, a new log, a new manifest and CURRENT restore the invariant of a running database |
| `DatabaseRecovery.RecoveredReads` | leveldb-1.12.0/db/db_impl.cc:298-404 | after every recovery each key reads at LastSequence as the whole committed history does, LastSequence covers every committed entry, and nothing but dropped entries is missing |
| `DatabaseRecovery.NextKeepsInv` | leveldb-1.12.0/db/db_impl.cc:757-856 | each of the 21 kinds of step keeps the invariant |
| `DatabaseRecovery.RunKeepsInv` | leveldb-1.12.0/db/db_impl.cc:1648-1686 | the invariant holds in every state of every run, with crashes at any point |
| `DatabaseRecovery.RunIsDurable` | leveldb-1.12.0/db/db_impl.cc:243-296 | in every state of every run, what recovery would rebuild is the committed history (exactly the logged groups, KeyValueSpec.HistoryIsCommitted) up to dropped entries, reads as it does at every sequence still of interest, and every table it needs is on disk |
| `DatabaseRecovery.RunReads` | leveldb-1.12.0/db/db_impl.cc:1237-1294 | in every state of every run a read at LastSequence or a live snapshot answers from the committed history, and the tables of every open iterator are on disk |
| `DatabaseReads.Get` | leveldb-1.12.0/db/db_impl.cc:1237-1294 | memtable, immutable memtable and files in this order, stopping at the first hit, give the read of their union |
| `DatabaseReads.GetInRun` | leveldb-1.12.0/db/db_impl.cc:1237-1294 | every Get of every run, at LastSequence or a live snapshot, returns what the committed history says; KeyValueSpec.GetLatest and SnapshotIsMap say it without the history |
| `DatabaseReads.SnapshotIsStable` | leveldb-1.12.0/db/db_impl.cc:1309-1320 | while the database keeps running, the history as of a published sequence never changes |
| `DatabaseReads.SnapshotReads` | leveldb-1.12.0/db/db_impl.cc:1309-1320 | a read at a snapshot that is live in two states of a run finds the same in both, whatever was written, flushed, compacted or deleted between |
| `DatabaseReads.IteratorIsStable` | leveldb-1.12.0/db/db_impl.cc:1194-1230 | an open iterator goes on reading the history of its sequence number, whatever reaches the memtables it shares and whatever compactions drop, and its tables stay on disk |
| `RecoverLog.InsertInto` | leveldb-1.12.0/db/write_batch.cc:145-169 | replaying a batch adds exactly its entries and keeps the memtable sorted |
| `RecoverLog.WriteLevel0Table` | leveldb-1.12.0/db/db_impl.cc:511-557 | a non-empty memtable becomes one table with a fresh number; an empty one only uses up the number |
| `RecoverLog.RecoverLogFile` | leveldb-1.12.0/db/db_impl.cc:406-509 | replaying a log, with flushes at any memory threshold, yields tables that hold exactly its entries in order of age, and the largest sequence number |
| `RecoverLog.RecoverLogs` | leveldb-1.12.0/db/db_impl.cc:341-400 | replaying all logs from the persisted log number on gives exactly their entries, file numbers beyond all that were used, and the last sequence |
| `Engine.WriteIsPossible` | leveldb-1.12.0/db/db_impl.cc:1332-1404 | in every running state any batch with the next sequence numbers can be logged, applied and published |
| `Engine.LogAndApply` | leveldb-1.12.0/db/version_set.cc:879-987 | from every state with a finished table job, manifest append and installation are possible, keep the invariant and make exactly the new version current |
| `Engine.BuildFlushOf` | leveldb-1.12.0/db/db_impl.cc:511-594 | writing out the immutable memtable and choosing its level takes a flush step of the state machine from every state that allows one |
| `Engine.SnapshotOf` | leveldb-1.12.0/db/version_set.cc:1180-1215 | the loops over all levels write each file of the version exactly once |
| `Engine.OpenDatabase` | leveldb-1.12.0/db/db_impl.cc:298-404 | opening after any crash, from a listing of the logs, reaches a running state: replay, new tables, new manifest and CURRENT together are a recovery step |
| `CompactionRun.MergeTwoIs` | leveldb-1.12.0/db/version_set.cc:1397-1436 | merging two sorted inputs without a common key is sorted and holds exactly the entries of both |
| `CompactionRun.FilesApart` | leveldb-1.12.0/db/version_set.cc:797-811 | two files of a good version share no internal key |
| `CompactionRun.MergeFiles` | leveldb-1.12.0/db/version_set.cc:1397-1436 | all input files together, merged, are the sorted sequence of exactly their entries |
| `CompactionRun.ChooseInputs` | leveldb-1.12.0/db/version_set.cc:1438-1572 | for every file of every good version the selection gives inputs that a compaction may take, and their merged entries |
| `CompactionRun.Compact` | leveldb-1.12.0/db/db_impl.cc:757-856 | for every picked file: selection, trivial move or merge, loop and files are steps of the state machine that keep the invariant; it gives up only if the outputs were cut inside a user key |
| `ManifestHistory.FreshAppend` | leveldb-1.12.0/db/version_set.cc:879-987 | an edit whose files are new or move down a level never adds a number twice to a level, and keeps files above every level they were added to |
| `ManifestHistory.SnapshotFresh` | leveldb-1.12.0/db/version_set.cc:1180-1215 | a new manifest starts with every file of the version once |
| `ManifestHistory.NextKeepsFresh` | leveldb-1.12.0/db/version_set.cc:879-987 | every step keeps: no level of the current manifest ever gets the same file number twice |
| `ManifestHistory.RunKeepsFresh` | leveldb-1.12.0/db/version_set.cc:879-987 | so it is in every state of every run, which is what replaying with one builder relies on |
| `Manifest.ReadsEdits` | leveldb-1.12.0/db/version_set.cc:1056-1098 | from any byte prefix of a manifest exactly the edits that lie wholly inside it are decoded |
| `Manifest.ReadManifest` | leveldb-1.12.0/db/version_set.cc:1056-1098 | reads edits up to the first malformed one or one of another comparator, and the last value of each number |
| `Manifest.Recover` | leveldb-1.12.0/db/version_set.cc:989-1127 | recovery from the bytes of a manifest succeeds exactly if it holds a next-file number, a log number and a last sequence, and then returns those of the last edits and the replayed version |
| `Manifest.RecoveredIsInstalled` | leveldb-1.12.0/db/version_set.cc:1030-1118 | the recovered version is the one that installing the edits one at a time had arrived at |
| `ManifestBytes.RecoverInRun` | leveldb-1.12.0/db/version_set.cc:989-1127 | in any state of any run, recovery from the bytes of the current manifest gives the persisted version level by level, its log number, next file number and last sequence |
| `VersionEdits.FieldsRoundTrip` | leveldb-1.12.0/db/version_edit.cc:45-254 | any list of tagged fields is parsed back field by field |
| `VersionEdits.EditRoundTrip` | leveldb-1.12.0/db/version_edit.cc:45-254 | every edit is decoded exactly as it was encoded |
| `VersionEdits.EncodeTo` | leveldb-1.12.0/db/version_edit.cc:45-98 | the loops append exactly the bytes that EditRoundTrip speaks of |
| `VersionEdits.DecodeFrom` | leveldb-1.12.0/db/version_edit.cc:128-254 | for every byte string, sound or not, the loop returns the edit or fails as the field parser does |
| `GroupCommit.GroupSync` | leveldb-1.12.0/db/db_impl.cc:1426-1434 | a group led by a write without sync contains none with sync |
| `GroupCommit.GroupIsLargest` | leveldb-1.12.0/db/db_impl.cc:1420-1457 | the walk down the queue ends at the largest group that sync rule and byte limit allow |
| `GroupCommit.LargestGroupUnique` | leveldb-1.12.0/db/db_impl.cc:1420-1457 | a queue has only one such group |
| `GroupCommit.BuildBatchGroup` | leveldb-1.12.0/db/db_impl.cc:1408-1460 | the group is the largest one allowed: its bytes stay within first + 131072 or 1048576, no member asks for sync unless the first does, and the next writer would break one of the two; its batch holds the operations of its writers in order |
| `GroupCommit.SerialGroup` | leveldb-1.12.0/db/db_impl.cc:1387-1401 | a group that completes together is its members completing one by one in queue order |
| `GroupCommit.SerialAscends` | leveldb-1.12.0/db/db_impl.cc:1360-1365 | the sequence numbers given out ascend and are never given out twice |
| `GroupCommit.StepKeepsInv` | leveldb-1.12.0/db/db_impl.cc:1332-1404 | every step of any writer keeps: memtable, log and last sequence are those of carrying out the finished writes one by one |
| `GroupCommit.RunKeepsInv` | leveldb-1.12.0/db/db_impl.cc:1332-1404 | so it is after every interleaving of writers |
| `GroupCommit.RunKeepsOrder` | leveldb-1.12.0/db/db_impl.cc:1332-1404 | finished and waiting writers together are the arrivals in order: none is lost, repeated or overtaken |
| `GroupCommit.ReadersSeeWholeWrites` | leveldb-1.12.0/db/db_impl.cc:1332-1404 | at every moment of every interleaving a reader at LastSequence sees whole finished writes only, as if done one by one in order of arrival; a sync write is never completed by a group without sync |
| `GroupCommit.CommittedIsApplied` | leveldb-1.12.0/db/db_impl.cc:1360-1386 | a write that came back well sits in the memtable as one block of fresh consecutive sequence numbers |
| `GroupCommit.HealthyRunCommits` | leveldb-1.12.0/db/db_impl.cc:1332-1404 | where no log write fails and nobody is turned away, every write comes back well |
| `GroupCommit.SyncIsEarned` | leveldb-1.12.0/db/db_impl.cc:1360-1371 | the log has as many records as appends reached it, and a group counts as logged or synced exactly if its own append or sync has happened since it was built |
| `GroupCommit.DurableIsEarned` | leveldb-1.12.0/db/db_impl.cc:1360-1401 | writers come back as durable exactly if a sync came between the building of their group and its end |
| `WriteBatches.RepFields` | leveldb-1.12.0/db/write_batch.cc:107-125 | sequence number and count are read back from the twelve-byte header |
| `WriteBatches.IterateRep` | leveldb-1.12.0/db/write_batch.cc:51-105 | a batch iterates over exactly the operations put into it, in order |
| `WriteBatches.WriteBatch.SetSequence` | leveldb-1.12.0/db/write_batch.cc:122-125 | overwrites the sequence number and nothing else |
| `WriteBatches.WriteBatch.Add` | leveldb-1.12.0/db/write_batch.cc:127-141 | appends one operation and counts it |
| `WriteBatches.WriteBatch.Append` | leveldb-1.12.0/db/write_batch.cc:178-184 | the operations of both batches one after the other, under the first one's sequence number |
| `WriteBatches.WriteBatch.InsertInto` | leveldb-1.12.0/db/write_batch.cc:163-169 | operations reach the memtable in order with consecutive sequence numbers from the header's on |
| `WriteBatches.InsertBytes` | leveldb-1.12.0/db/write_batch.cc:51-105 | on every byte string the loop handles the well-formed operations before the first bad one and reports the status |
| `WriteAheadLog.ReplayLog` | leveldb-1.12.0/db/db_impl.cc:436-500 | the loop over a log file applies every record of twelve bytes or more and tracks the largest last sequence |
| `WriteAheadLog.ReplaysLongestPrefix` | leveldb-1.12.0/db/db_impl.cc:406-509 | cut the log of any batches at any byte: exactly the batches wholly inside are applied again, with their sequence numbers |
| `EntryBytes.NamesExist` | leveldb-1.12.0/util/comparator.cc:33-36 | any finite set of user keys can be numbered by rank, so the integer keys of the state machine stand for byte strings |
| `EntryBytes.KeyBytesOrder` | leveldb-1.12.0/db/dbformat.cc:14-82 | the byte comparator orders encoded internal keys exactly as the model orders internal keys |
| `EntryBytes.AnswersLookup` | leveldb-1.12.0/db/version_set.cc:326-346 | what a table file answers is what the model's lookup in its entries answers |
| `EntryBytes.FileGet` | leveldb-1.12.0/table/table.cc:262-296 | a table file built from the entries of a model file, opened and searched, gives the model's answer for every key and sequence |
| `EntryBytes.LogFileReplays` | leveldb-1.12.0/db/db_impl.cc:406-509 | any byte prefix of the file of a log replays exactly the entries of the groups wholly inside it, and their largest sequence |
| `LogBytes.LogFileInRun` | leveldb-1.12.0/db/db_impl.cc:406-509 | the same for every log on disk in every state of every run |
| `LogFormat.Progress` | leveldb-1.12.0/db/log_writer.cc:33-92 | an empty first fragment is followed by one that takes data, so the writing loop ends |
| `LogFormat.Writer.AddRecord` | leveldb-1.12.0/db/log_writer.cc:33-92 | appends the fragments of the record, with block trailers where no header fits |
| `LogFormat.Writer.AddFragment` | leveldb-1.12.0/db/log_writer.cc:42-90 | one turn of the loop takes as much as the block has room for |
| `LogFormat.Writer.EmitPhysicalRecord` | leveldb-1.12.0/db/log_writer.cc:94-123 | writes checksum, length, type and payload and advances the block offset by as much |
| `LogFormat.FragmentFills` | leveldb-1.12.0/db/log_writer.cc:33-92 | a fragment never crosses a block, takes all of the data or fills its block to the end, and fewer than seven bytes of trailer are ever left |
| `LogReader.Reader.ReadPhysicalRecord` | leveldb-1.12.0/db/log_reader.cc:213-308 | on every file the buffer loop returns the record that the specification takes at this point, or the end or bad-record code |
| `LogReader.Reader.ReadRecord` | leveldb-1.12.0/db/log_reader.cc:63-192 | on every file the reassembly loop returns the record that the specification gives |
| `LogRoundTrip.ChecksumsAgree` | leveldb-1.12.0/db/log_writer.cc:104-110 | the writer's incremental checksum is the reader's one-shot checksum |
| `LogRoundTrip.ReadsRecord` | leveldb-1.12.0/db/log_reader.cc:63-192 | a record wholly in the file is returned whole, however many blocks it spans; one that is not is never returned, not even in part |
| `LogRoundTrip.ReadsLongestPrefix` | leveldb-1.12.0/db/log_reader.cc:63-192 | for every list of records and every byte prefix of the file, the reader returns exactly the longest prefix of records wholly contained in it |
| `LogRoundTrip.SomePrefixIsWhole` | leveldb-1.12.0/db/log_writer.cc:33-92 | for every cut there is such a prefix |
| `LogRoundTrip.ReadsEverything` | leveldb-1.12.0/db/log_reader.cc:63-192 | an intact file gives back every record |
| `LogSoundness.PhysicalSound` | leveldb-1.12.0/db/log_reader.cc:213-308 | a physical record that is returned lies in the file under a matching checksum, behind the point read so far |
| `LogSoundness.RecordSound` | leveldb-1.12.0/db/log_reader.cc:63-192 | a returned record is the fragments of one first-to-last run in the file, in order, each under a matching checksum |
| `LogSoundness.FileSound` | leveldb-1.12.0/db/log_reader.cc:63-308 | from any bytes whatever, with checksums on, the reader returns only such records |
| `SkipList.PathIsUnique` | leveldb-1.12.0/db/skiplist.h:295-323 | the links of a level determine what a walk visits |
| `SkipList.FindGreaterOrEqual` | leveldb-1.12.0/db/skiplist.h:295-323 | the first node of the list not before the key, and on every level the last node before it |
| `SkipList.FindLessThan` | leveldb-1.12.0/db/skiplist.h:326-353 | the last node before the key |
| `SkipList.FindLast` | leveldb-1.12.0/db/skiplist.h:355-380 | the last node of the list, the head if it is empty |
| `SkipListSteps.PublishLevel` | leveldb-1.12.0/db/skiplist.h:395-432 | the publishing store puts the node in its place in one level and changes nothing else |
| `SkipListSteps.LoadFinishes` | leveldb-1.12.0/db/skiplist.h:295-323 | at the moment of its last load a search names exactly the neighbours of its target in the list |
| `SkipListSteps.NeverStuck` | leveldb-1.12.0/db/skiplist.h:395-432 | no started insertion and no started search ever meets a dangling link |
| `SkipListSteps.StepKeepsInv` | leveldb-1.12.0/db/skiplist.h:395-432 | every single load or store keeps all levels sorted and contained in the one below, and every reader in order |
| `SkipListSteps.RunKeepsInv` | leveldb-1.12.0/db/skiplist.h:395-432 | so it is after every interleaving of one writer with any number of readers |
| `SkipListSteps.SearchesNeverMiss` | leveldb-1.12.0/db/skiplist.h:295-323 | a search overtaken by any number of insertions never misses a key that was there when it began, and reports only nodes of the list |
| `SkipListSteps.KeysAreInserted` | leveldb-1.12.0/db/skiplist.h:395-432 | at every moment of every interleaving the list holds exactly the keys whose insertion has published level zero |
| `SkipListSteps.StartSees` | leveldb-1.12.0/db/skiplist.h:295-323 | the keys a search must not miss are exactly those published before it began |
| `SkipListSteps.SearchFindsKey` | leveldb-1.12.0/db/skiplist.h:295-323 | a search for a key published before it began ends at the node of that key, whatever is inserted meanwhile |
| `SkipListSteps.LinkLevel` | leveldb-1.12.0/db/skiplist.h:422-431 | the two stores for one level insert the node there |
| `SkipListSteps.Insert` | leveldb-1.12.0/db/skiplist.h:395-432 | an insertion leaves a valid list whose keys are the old ones and the new one |
| `Crc32c.BitsXor` | leveldb-1.12.0/util/crc32c.cc:201-254 | dividing out bits is linear |
| `Crc32c.Step1IsByte` | leveldb-1.12.0/util/crc32c.cc:205-210 | one table lookup divides out one byte of the polynomial |
| `Crc32c.Step4IsWord` | leveldb-1.12.0/util/crc32c.cc:211-221 | four table lookups divide out a whole word |
| `Crc32c.Step4IsFourBytes` | leveldb-1.12.0/util/crc32c.cc:211-221 | a word step is four byte steps |
| `Crc32c.Extend` | leveldb-1.12.0/util/crc32c.cc:201-254 | for every buffer, start address and initial value the aligned, word-sliced loops give the byte-at-a-time CRC32C of section 12.1 of RFC 3720 |
| `Crc32c.ExtendedConcat` | leveldb-1.12.0/util/crc32c.cc:201-254 | extending over a concatenation is extending twice |
| `Crc32c.UnmaskMask` | leveldb-1.12.0/util/crc32c.h:34-46 | unmasking undoes masking |
| `Crc32cVectors.CheckValue` | leveldb-1.12.0/util/crc32c.cc:201-254 | the checksum of 32 incrementing bytes is 0x46dd794e, as appendix B.4 of RFC 3720 publishes |
| `Crc32cVectors.MaskedCheckValue` | leveldb-1.12.0/util/crc32c.h:34-38 | its masked form is 0x951f7892 |
| `Coding.Fixed32RoundTrip` | leveldb-1.12.0/util/coding.cc:11-24 | fixed 32-bit numbers are read back, whatever follows |
| `Coding.Fixed64RoundTrip` | leveldb-1.12.0/util/coding.cc:26-44 | fixed 64-bit numbers are read back, whatever follows |
| `Coding.Fixed32LowFirst` | leveldb-1.12.0/util/coding.cc:11-24 | the four bytes are the number to base 256, low byte first |
| `Coding.VarintDigits` | leveldb-1.12.0/util/coding.cc:106-117 | the bytes are the digits to base 128, low ones first and as few as there can be; all but the last have the high bit |
| `Coding.VarintRoundTrip` | leveldb-1.12.0/util/coding.cc:106-174 | a varint that fits its length limit is read back with the rest of the input |
| `Coding.EncodeVarint32` | leveldb-1.12.0/util/coding.cc:61-97 | the unrolled encoder writes the same bytes as the general form for all five lengths |
| `Coding.EncodeVarint64` | leveldb-1.12.0/util/coding.cc:106-117 | the encoding loop writes seven bits a byte, low bits first |
| `Coding.DecodeVarint` | leveldb-1.12.0/util/coding.cc:153-174 | for every input the decoding loop gives the number and the rest, or fails on a varint that is too long or cut off |
| `Coding.LengthPrefixedRoundTrip` | leveldb-1.12.0/util/coding.cc:129-261 | length-prefixed strings are read back with the rest of the input |
| `BlockBuilder.EstimateIsSize` | leveldb-1.12.0/table/block_builder.cc:58-63 | the size estimate is the exact size of the finished block |
| `BlockBuilder.Builder.CurrentSizeEstimate` | leveldb-1.12.0/table/block_builder.cc:58-63 | computes that estimate |
| `BlockBuilder.Builder.constructor` | leveldb-1.12.0/table/block_builder.cc:40-46 | an empty block with its first restart point |
| `BlockBuilder.Builder.Reset` | leveldb-1.12.0/table/block_builder.cc:48-56 | back to an empty block |
| `BlockBuilder.Builder.Add` | leveldb-1.12.0/table/block_builder.cc:80-124 | appends the entry with exactly the prefix it shares with its predecessor left out, none at a restart point |
| `BlockBuilder.Builder.Finish` | leveldb-1.12.0/table/block_builder.cc:66-78 | data, restart offsets and their number, for every block small enough for 32-bit offsets |
| `BlockIter.DecodeEncoded` | leveldb-1.12.0/table/block.cc:69-98 | an entry is decoded as it was encoded, through the one-byte form or the long form |
| `BlockIter.OpensBuilt` | leveldb-1.12.0/table/block.cc:20-50 | the restart array of a finished block is found from its end |
| `BlockIter.ParseBuilt` | leveldb-1.12.0/table/block.cc:295-328 | one parse moves on by exactly one entry and rebuilds its whole key |
| `BlockCursor.Iter.ParseNextKey` | leveldb-1.12.0/table/block.cc:295-328 | on any block, corrupt or not, the parse does what the specification says and stays inside the data |
| `BlockCursor.Iter.FindRestart` | leveldb-1.12.0/table/block.cc:219-256 | the binary search brackets the target between the last restart point before it and the next |
| `BlockCursor.Iter.Seek` | leveldb-1.12.0/table/block.cc:219-267 | Seek is linear search: the first entry not before the target, or past the end |
| `BlockCursor.Iter.SeekToFirst` | leveldb-1.12.0/table/block.cc:269-273 | the first entry |
| `BlockCursor.Iter.SeekToLast` | leveldb-1.12.0/table/block.cc:275-283 | the last entry |
| `BlockCursor.Iter.Next` | leveldb-1.12.0/table/block.cc:186-190 | exactly one entry on |
| `BlockCursor.Iter.Prev` | leveldb-1.12.0/table/block.cc:192-217 | exactly one entry back, across restart points; before the first entry the iterator is not valid |
| `Comparators.BytewiseOrder` | leveldb-1.12.0/util/comparator.cc:33-36 | the bytewise order is a strict total order |
| `Comparators.SeparatorSeparates` | leveldb-1.12.0/util/comparator.cc:38-65 | the separator is no longer than the start, not before it, and before the limit |
| `Comparators.FindShortestSeparator` | leveldb-1.12.0/util/comparator.cc:38-65 | the in-place edit computes that separator |
| `Comparators.SeparatorShortest` | leveldb-1.12.0/util/comparator.cc:38-65 | where the first differing bytes leave room for one between them, the separator is one byte longer than what the keys share, and no key from start up to limit is shorter; elsewhere it is the start |
| `Comparators.SuccessorFollows` | leveldb-1.12.0/util/comparator.cc:67-82 | the short successor is no longer than the key and not before it |
| `Comparators.FindShortSuccessor` | leveldb-1.12.0/util/comparator.cc:67-82 | the loop computes that successor |
| `Comparators.SuccessorShortest` | leveldb-1.12.0/util/comparator.cc:67-82 | no key at or after the given one is shorter than the successor |
| `Comparators.InternalOrder` | leveldb-1.12.0/db/dbformat.cc:60-82 | internal keys are strictly totally ordered |
| `Comparators.InternalSeparatorSeparates` | leveldb-1.12.0/db/dbformat.cc:84-103 | separators of internal keys are internal keys between start and limit |
| `Comparators.InternalSeparatorShort` | leveldb-1.12.0/db/dbformat.cc:84-103 | an internal separator is the shortened user key under the largest tag whenever the user key got shorter, and otherwise the start |
| `Comparators.InternalSuccessorFollows` | leveldb-1.12.0/db/dbformat.cc:105-120 | successors of internal keys are internal keys not before them |
| `Comparators.InternalSuccessorShort` | leveldb-1.12.0/db/dbformat.cc:105-120 | an internal successor is the shortened user key under the largest tag whenever the user key got shorter, and otherwise the key |
| `Comparators.RankPreservesOrder` | leveldb-1.12.0/util/comparator.cc:33-36 | numbering keys by rank keeps order and identity, for any total order |
| `Bloom.FilterMatches` | leveldb-1.12.0/util/bloom.cc:44-106 | no false negatives: every key of the filter matches, for every hash function and number of bits per key |
| `Bloom.FilterIs` | leveldb-1.12.0/util/bloom.cc:44-75 | the filter holds exactly the probed bits, for every hash function |
| `Bloom.ProbeCountIs` | leveldb-1.12.0/util/bloom.cc:26-37 | the number of probes is the whole part of 0.69 times the bits per key, but for the bounds 1 and 30 |
| `Bloom.MayMatchIs` | leveldb-1.12.0/util/bloom.cc:77-106 | a key matches if and only if all its probed bits are set; filters that are too short match nothing, and reserved ones everything |
| `Bloom.EmptyMatchesNothing` | leveldb-1.12.0/util/bloom.cc:44-106 | the filter of no keys matches no key |
| `Bloom.CreateFilter` | leveldb-1.12.0/util/bloom.cc:44-75 | a bit of the appended filter is set if and only if some key probes it, position ((hash + j * delta) mod 2^32) mod bits for some j below k; its length and k are given by the formulas of the source |
| `Bloom.SetKey` | leveldb-1.12.0/util/bloom.cc:62-74 | sets the probe bits of one key in place and clears none |
| `Bloom.KeyMayMatch` | leveldb-1.12.0/util/bloom.cc:77-106 | true exactly if all probe bits are set, the filter is reserved, or never for one that is too short |
| `FilterBlock.BloomIsSound` | leveldb-1.12.0/util/bloom.cc:44-106 | the bloom policy has no false negatives |
| `FilterBlock.UserKeyIsSound` | leveldb-1.12.0/db/dbformat.cc:127-144 | stripping tags from internal keys keeps a policy without false negatives |
| `FilterBlock.ContentsMatch` | leveldb-1.12.0/table/filter_block.cc:100-135 | a key in the filter of a block's range may match at that block, and anything may match beyond the last filter |
| `FilterBlock.ContentsAnswer` | leveldb-1.12.0/table/filter_block.cc:116-135 | for every offset and key the reader answers as the policy does on the filter of the keys filed under the offset's range, on an empty filter if there are none, and yes beyond the last filter |
| `FilterBlock.Builder.StartBlock` | leveldb-1.12.0/table/filter_block.cc:24-34 | generates filters up to the range of the new offset |
| `FilterBlock.Builder.AddKey` | leveldb-1.12.0/table/filter_block.cc:36-44 | the key is filed under the current block offset |
| `FilterBlock.Builder.GenerateFilter` | leveldb-1.12.0/table/filter_block.cc:70-98 | the pending keys become the next filter |
| `FilterBlock.Builder.Finish` | leveldb-1.12.0/table/filter_block.cc:46-68 | the filters are exactly those of the keys between range boundaries, and every key added under an offset is in the filter that the reader consults for that offset |
| `FilterBlock.SplitKeys` | leveldb-1.12.0/table/filter_block.cc:80-88 | the keys are cut out of the flat buffer again |
| `TableLookup.IndexKeySeparates` | leveldb-1.12.0/table/table_builder.cc:97-120 | index keys are not before the last key of their block and before the first key of the next |
| `TableLookup.IndexKeyShort` | leveldb-1.12.0/table/table_builder.cc:97-120 | where the user keys leave room an index key is one byte longer than what the neighbouring keys share, and the last one a byte longer than its run of 255s |
| `TableLookup.SeparatorGap` | leveldb-1.12.0/db/dbformat.cc:84-103 | a key between the last key of a block and its shortened index key shares no user key with a later block |
| `TableLookup.LookupAnswers` | leveldb-1.12.0/table/table.cc:262-296 | index seek, filter check and block seek report the first entry not before the key whenever it has the key's user key, and otherwise nothing with that user key |
| `TableFormat.HandleRoundTrip` | leveldb-1.12.0/table/format.cc:17-38 | block handles are read back |
| `TableFormat.ReadsRawBlock` | leveldb-1.12.0/table/format.cc:85-140 | a block is read back, with its checksum verified, from wherever it was written |
| `TableFormat.ReadsOnlyMatching` | leveldb-1.12.0/table/format.cc:85-140 | with checksums on, whatever the file, what comes out are the bytes behind the handle, and they match the checksum stored after them |
| `TableFormat.FooterRoundTrip` | leveldb-1.12.0/table/format.cc:40-83 | the footer has its fixed size and is read back |
| `Tables.TableParts` | leveldb-1.12.0/table/table_builder.cc:225-288 | data, filter, metaindex, index and footer lie where the handles say |
| `TableBuilder.AddFirstKeeps` | leveldb-1.12.0/table/table_builder.cc:97-132 | the first key of a block completes the pending index entry of the block before |
| `TableBuilder.Builder.Add` | leveldb-1.12.0/table/table_builder.cc:97-132 | the entry goes to the block in progress, which ends exactly when it reaches the block size |
| `TableBuilder.Builder.Flush` | leveldb-1.12.0/table/table_builder.cc:134-153 | writes out the block in progress and leaves its index entry pending |
| `TableBuilder.Builder.WriteRawBlock` | leveldb-1.12.0/table/table_builder.cc:197-218 | appends contents, type and checksum and returns the handle that leads back to them |
| `TableBuilder.Builder.Finish` | leveldb-1.12.0/table/table_builder.cc:225-288 | the file is the table of all entries added, with the filters of its blocks, and every key is filed in the filter under the offset of its block |
| `TableReader.ReadMeta` | leveldb-1.12.0/table/table.cc:100-155 | the filter is found under the policy's name; every failure only means that none is used |
| `TableReader.Open` | leveldb-1.12.0/table/table.cc:41-98 | a finished table opens; any other file fails or gives a usable reader |
| `TableReader.FilterIsRight` | leveldb-1.12.0/table/table.cc:275-281 | a filter that rejects the key means the block has nothing with its user key |
| `TableReader.InternalGet` | leveldb-1.12.0/table/table.cc:262-296 | on the bytes of a finished table the lookup answers as LookupAnswers promises |
| `TableRoundTrip.BlocksFlat` | leveldb-1.12.0/table/table_builder.cc:97-132 | the blocks of a table hold the added entries in order |
| `TableRoundTrip.BlocksFilled` | leveldb-1.12.0/table/table_builder.cc:97-132 | every finished block reached the block size with its last entry and not before, and the one in progress has not reached it |
| `TableRoundTrip.Build` | leveldb-1.12.0/table/table_builder.cc:97-288 | adding any internal keys and finishing gives the table whose blocks are cut by the block size |
| `TableRoundTrip.BuildOpenGet` | leveldb-1.12.0/table/table.cc:41-296 | for every sorted list of entries and every key: build, open and get answer as the list does |
| `Merging.MergeExists` | leveldb-1.12.0/table/merger.cc:185-226 | sorted children without equal keys have a merged list |
| `Merging.SmallestIs` | leveldb-1.12.0/table/merger.cc:185-205 | with every child at its first entry from m on, the smallest is entry m of the merged list |
| `Merging.LargestIs` | leveldb-1.12.0/table/merger.cc:207-226 | with every child at its last entry before m, the largest is entry m - 1 |
| `Merging.MergingIterator.FindSmallest` | leveldb-1.12.0/table/merger.cc:185-205 | a valid child with the least key, or none if no child is valid |
| `Merging.MergingIterator.FindLargest` | leveldb-1.12.0/table/merger.cc:207-226 | a valid child with the greatest key, or none |
| `Merging.MergingIterator.SeekToFirst` | leveldb-1.12.0/table/merger.cc:41-49 | the iterator is a cursor on the merged list at its first entry |
| `Merging.MergingIterator.SeekToLast` | leveldb-1.12.0/table/merger.cc:51-59 | at its last entry |
| `Merging.MergingIterator.Seek` | leveldb-1.12.0/table/merger.cc:61-69 | at the first entry not before the key |
| `Merging.MergingIterator.Next` | leveldb-1.12.0/table/merger.cc:71-100 | one entry on, also straight after moving back |
| `Merging.MergingIterator.Prev` | leveldb-1.12.0/table/merger.cc:102-136 | one entry back, also straight after moving forward |
| `TwoLevel.SeekHeads` | leveldb-1.12.0/table/two_level_iterator.cc:99-106 | seeking index and block heads for the first entry of the concatenation not before the key |
| `TwoLevel.TwoLevelIterator.Current` | leveldb-1.12.0/table/two_level_iterator.cc:39-48 | at position p the iterator shows entry p of the concatenation of all blocks |
| `TwoLevel.TwoLevelIterator.SkipEmptyDataBlocksForward` | leveldb-1.12.0/table/two_level_iterator.cc:141-158 | any run of empty blocks is skipped without losing the position aimed at |
| `TwoLevel.TwoLevelIterator.SkipEmptyDataBlocksBackward` | leveldb-1.12.0/table/two_level_iterator.cc:160-175 | the same on the way back |
| `TwoLevel.TwoLevelIterator.Seek` | leveldb-1.12.0/table/two_level_iterator.cc:99-106 | the first entry of the concatenation not before the key |
| `TwoLevel.TwoLevelIterator.SeekToFirst` | leveldb-1.12.0/table/two_level_iterator.cc:108-115 | the first entry of all |
| `TwoLevel.TwoLevelIterator.SeekToLast` | leveldb-1.12.0/table/two_level_iterator.cc:117-124 | the last entry of all |
| `TwoLevel.TwoLevelIterator.Next` | leveldb-1.12.0/table/two_level_iterator.cc:126-131 | exactly one entry on, over empty blocks and reopened ones |
| `TwoLevel.TwoLevelIterator.Prev` | leveldb-1.12.0/table/two_level_iterator.cc:133-139 | exactly one entry back; before the first the iterator is not valid |
| `DbIter.ShownIsRead` | leveldb-1.12.0/db/db_iter.cc:185-222 | every entry the iterator may show is what a read of its key at the iterator's sequence returns |
| `DbIter.ReadIsShown` | leveldb-1.12.0/db/db_iter.cc:185-222 | every key that reads as present has an entry to show |
| `DbIter.DbIterator.FindNextUserEntry` | leveldb-1.12.0/db/db_iter.cc:185-222 | lands on the next key of the visible map |
| `DbIter.DbIterator.FindPrevUserEntry` | leveldb-1.12.0/db/db_iter.cc:256-309 | lands on the greatest visible key up to the inner position, with its newest visible value |
| `DbIter.DbIterator.SeekToFirst` | leveldb-1.12.0/db/db_iter.cc:329-342 | the first visible key |
| `DbIter.DbIterator.Seek` | leveldb-1.12.0/db/db_iter.cc:311-327 | the first visible key not before the target |
| `DbIter.DbIterator.SeekToLast` | leveldb-1.12.0/db/db_iter.cc:344-350 | the last visible key |
| `DbIter.DbIterator.Prev` | leveldb-1.12.0/db/db_iter.cc:224-254 | the greatest visible key before the current one, from either direction |
| `DbIter.DbIterator.Next` | leveldb-1.12.0/db/db_iter.cc:153-183 | moving forward, the next visible key; straight after a backward move so if and only if the entry before those of the current key is visible or there is none, otherwise the current key again |
| `DbIter.TurnNext` | leveldb-1.12.0/db/db_iter.cc:157-182 | source defect: after a backward move Next skips by the key under the inner iterator, which is right exactly under that condition |
| `DbIter.NextAfterPrevGetsStuck` | leveldb-1.12.0/db/db_iter.cc:157-182 | source defect: two entries on which Next straight after SeekToLast finds the last key again instead of the end |
| `DbIter.WalkForward` | leveldb-1.12.0/db/db_iter.cc:153-222 | SeekToFirst and Next to the end list the visible map in order |
| `DbIter.WalkBack` | leveldb-1.12.0/db/db_iter.cc:224-309 | SeekToLast and Prev to the end list it in reverse |
| `LruList.RemoveKeeps` | leveldb-1.12.0/util/cache.cc:249-254 | unlinking an entry leaves the ring of the others in order |
| `LruList.AppendKeeps` | leveldb-1.12.0/util/cache.cc:256-263 | linking before the head makes the entry the newest of the ring |
| `HandleTable.HandleTable.FindPointer` | leveldb-1.12.0/util/cache.cc:134-144 | the slot that holds the handle of the key, or the trailing slot of its bucket |
| `HandleTable.HandleTable.Lookup` | leveldb-1.12.0/util/cache.cc:85-88 | the one handle of the key, or none exactly if the table has none |
| `HandleTable.HandleTable.Insert` | leveldb-1.12.0/util/cache.cc:90-107 | replaces the handle of the same key, if any, and returns it; all others stay |
| `HandleTable.HandleTable.Remove` | leveldb-1.12.0/util/cache.cc:109-121 | takes out exactly the handle of the key |
| `HandleTable.HandleTable.Resize` | leveldb-1.12.0/util/cache.cc:146-174 | the least doubling of four with at least as many buckets as handles, and the same map |
| `HandleTable.MoveAll` | leveldb-1.12.0/util/cache.cc:146-174 | rehashing moves every chain handle by handle and loses none |
| `Cache.LRUCache.constructor` | leveldb-1.12.0/util/cache.cc:218-224 | an empty cache |
| `Cache.LRUCache.Unref` | leveldb-1.12.0/util/cache.cc:237-247 | dropping the last reference, and no other, deletes the entry and returns its charge |
| `Cache.LRUCache.Lookup` | leveldb-1.12.0/util/cache.cc:267-278 | finds the entry cached under the key, makes it the newest and hands out a handle; otherwise changes nothing |
| `Cache.LRUCache.Release` | leveldb-1.12.0/util/cache.cc:280-284 | gives a handle back; the entry is deleted exactly if it is neither cached nor held any more |
| `Cache.LRUCache.Evict` | leveldb-1.12.0/util/cache.cc:311-318 | evicts oldest entries first, each only while usage is over capacity, until usage is within it or none is left, and never harms a held entry |
| `Cache.LRUCache.Insert` | leveldb-1.12.0/util/cache.cc:286-321 | the new entry replaces the one of its key and is the newest; victims are the oldest others, taken only while over capacity; afterwards usage is within capacity or the list is empty |
| `Cache.LRUCache.Erase` | leveldb-1.12.0/util/cache.cc:323-332 | the entry of the key leaves the cache and lives on exactly as long as it is held |

## Left out

- Flush inside a running compaction: the level choice of the flush looks at the version before the compaction installs.
- Compaction scoring, compaction pointers, seek statistics and manual CompactRange: they decide which file is picked, and every pick is covered.
- The previous log number: read back from the manifest, but the state machine has no logs of the old scheme.
- I/O errors of tables, logs and manifests in the state machine, and background error handling.
- Compaction.DoCompactionWork: requires an oldest snapshot below the largest sequence number and well-formed internal keys; entries with corrupt keys, which the source passes through, are not modelled.
- DatabaseVersions.BuildCompactionKeepsInv: assumes that the outputs were cut between user keys, because the source breaks the level invariant otherwise (see CutKeys and TrivialMoves for the exact conditions).
- Crc32c.Extend: the lookup tables are defined from the polynomial; the 1024 constants of the source are not compared with them.
- Bloom.CreateFilter: the hash function is a parameter, since the contract holds for each; bits per key times 0.69 is exact instead of rounded to a double.
- CompactionRun.Compact: which file is picked is a parameter, and it gives up where the outputs were cut inside a user key (see the first defect).
- Engine.WriteIsPossible: the queue of writers in front of it is modelled in GroupCommit.
- TableRoundTrip.BuildOpenGet: that blocks, index, filter and metaindex stay within 32-bit offsets and the file within 64 bits is a condition on the table that entries and options determine; the source does not check it either.
- Files.InstallEdit and Files.ReplayAll: each (level, file number) is added at most once; ManifestHistory proves this of every run.
- Manifest.Recover: reads an intact manifest whose edits add each (level, file number) at most once; file number counters do not wrap at 64 bits.
- Snappy compression: blocks are stored uncompressed.
- Block cache use in Table::BlockReader, table cache, ShardedLRUCache and NewId.
- Cache.LRUCache.Insert: handles are entries of a map with link maps instead of raw pointers; freeing memory is the list of deleted handles.
- SkipListSteps.Insert: nodes live in an arena sequence; random heights are parameters; memory ordering weaker than a total order of steps is not modelled, except that a reader may see an old maximum height.
- Memtable entry encoding (memtable.cc), the arena, and the linked list of snapshots (snapshot.h), which the state machine has as a multiset.
- Log reading from a non-zero initial offset, and the reports of dropped bytes.
- DecodeEntry on corrupt lengths whose sum wraps at 32 bits.
- Iterator status and corrupted keys in DBIter.
- ApproximateOffsetOf, GetApproximateSizes and properties.
- Repair, DestroyDB, environment, port, loggers, C bindings, benchmarks.
- The other programs in the repository (nginx and its push-stream module): most of what they do leans on libraries that are not part of this model, and the rest would add only easy members.
