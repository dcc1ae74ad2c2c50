# LevelDB, modelled and proved in Dafny

This project models the storage engine under `Example/Pods/leveldb-library` (LevelDB) and
proves what the engine promises, with the exact condition where the promise does not hold
without one. In every run whose moves and compactions are safe, every reader is told what
the history of writes says; with crashes in between, what the part of the history says that
survives in tables and logs. All moves and compactions of a run are safe if none of its
compactions starts while a snapshot is held.

## What is modelled

* **The LSM store.** `Keys`, `Versions` (lookup), `Picking` (overlap queries and the
  choice of inputs), `Compactions` (the compaction loop), `CompactionTheorems`, `Boundary`
  (exactly when a move or compaction keeps lookups exact and answers unchanged),
  `HeldLookups` (the same for the snapshots that readers hold), `Store` (the state machine
  and its runs), `Reopening` (runs with crashes), `BoundaryRuns` (three runs that go wrong)
  and `StoreScans` (iterating over the whole store).
* **The manifest.** `VersionEdits`, `Builders`, `Manifest` and `VersionSets`: edits as
  bytes, the cumulative builder, LogAndApply, and reopening.
* **The write path.** `WriteBatches`, `GroupCommit` (the writer queue, one critical section
  at a time, and the switch to a new log), `Background` (the one background item),
  `Recovery` (replaying log files, whatever they hold), `CrashRecovery` (what comes back
  when a crash cuts each log somewhere) and `RecoveredStores` (the store that is opened
  again from those logs).
* **The log.** `LogFormat`, `LogIO` (writer and reader), `LogTheorems` (round trip and
  truncation), `LogDamage` (damaged files), `Crc32c` over `Registers`, `LogChecksums`
  (which damage is sure to be caught) and `LogReports` (which is sure to be reported).
* **Iterators.** `Merging`, `TwoLevel`, `DbIteration`, `Blocks`: each class keeps a plain
  index into a sorted sequence, and every method is proved to move that index.
* **Tables.** `BlockFormat`, `Bytewise` (comparator and separators), `Blooms`,
  `FilterBlocks`, `Tables` (builder and InternalGet), `StoredBlocks` (internal keys and
  data blocks as bytes), `TableScans`.
* **In-memory structures.** `SkipLists` and `Chains` (insertion as single stores, with
  readers in between), `HandleTables`, `Rings` and `LruCaches` (hash table, ring and
  reference counts), `Snapshots`.

Objects that the engine updates in place are classes; what only computes is a function.
Each class method is proved against a specification function or an abstract position, and
the theorems are lemmas about those.

## How the parts meet

`Store.Get` and `Store.EveryRunAnswersTheHistory` say that every safe run answers the
history, and `StoreScans.EveryRunScansTheHistory` that iterators show it. A step is safe
exactly when it keeps the invariant (`Store.NextKeepsInv`), and which steps are safe can be
told from the version and the chosen inputs before the step is made. All steps but moves
and compactions are. A trivial move is safe if and only if no file left at its level
continues the moved file's last user key. A compaction is safe if and only if

* nothing passes: where a file left at the compacted level continues an input's last user
  key, the newest input entry of that key is a deletion that is dropped; and
* nothing resurfaces: no dropped deletion at the end of an input, at either level, was the
  answer at the smallest snapshot with a value next to it in the file that continues it.

The first half alone decides whether lookups stay exact (`Boundary.CompactionIsExactIff`),
the second whether every reader is told the same (`Boundary.CompactionKeepsMeaningIff`).
A clear boundary at both levels is enough for both, and
`Store.SnapshotFreeRunsCutCleanly` shows that runs whose compactions start with no live
snapshot have it. In general the code does not check it: a compaction under a live snapshot
can put two versions of one user key in two files of a level, and a later choice of inputs
can take one and leave the other. `BoundaryRuns.StaleReadRun` and
`BoundaryRuns.ResurfacingRun` are runs of the store, from an empty one, that end with a
deleted value being read: one by a trivial move, one by a compaction with no live snapshot.
Their steps also keep to what the code asks of moves, inputs and output sizes.

`Reopening` lets the store crash and be opened again from what is left of its logs, any
number of times. That needs an invariant of its own, that the tables alone mean what the
flushed part of the history means, and a step keeps it if and only if it is safe without
counting on the memtables (`Reopening.NextLasts`). `BoundaryRuns.HiddenDropRun` shows the
difference. `RecoveredStores.CrashReopens` ties such a crash to the bytes of the log files.

`CrashRecovery` joins the log format, the batch encoding and the writer queue. Every
memtable has a log of its own, and a switch closes the old log without syncing it. After a
crash that keeps some first part of each log, recovery gives back exactly the whole records
(`CrashRecovers`). Their entries are those of an earlier moment if and only if no inserted
update overtakes a missing one and nothing comes back that was lost to an I/O error
(`CrashRecoversAnEarlierStore`); `OvertakingExample` is the smallest crash after which they
are not. The last sequence number has a condition more, since the manifest may have stored
the number of an update that the crash loses (`CrashRecoversTheNumber`,
`StoredNumberExample`). Acknowledged sync writes survive in any case
(`SyncedWritesSurvive`), unless a failed append has left a part of a record in front of
them (`TornRecordExample`): the writer goes on behind it, and the reader may not get there.

`LogDamage.DamageReadsSubsequence` assumes that damage is caught;
`LogChecksums.SmallDamageReadsSubsequence` needs no such assumption when each physical
record is damaged by at most four bytes in a row, from the algebra of CRC-32C. Nor does
such damage pass in silence: unless it makes a header look like preallocated space, a
paranoid recovery stops at it (`LogReports.RefusesHarmedLog`), and a reader that reports
nothing has lost nothing but the end of the log (`LogReports.SilenceLosesOnlyTheEnd`).
`Tables.TableAnswersAsEntries` shows that a table read through index and filter answers as
the sorted entries that `Versions` looks up, `StoredBlocks.SeekInBytes` that its blocks can
be read from their bytes, and `TableScans.TableIsSeparated` that iterating over it meets
what `TwoLevel` asks for.

## Modelling choices

* The engine sees user keys only through the comparator, a strict total order on byte
  strings. A user key is its position in that order, a real; `Bytewise.PositionIsOrder`
  gives the embedding for the shipped comparator. Modules that work on bytes take the
  position as a function, `Rank`, or use `Bytewise` itself. File metadata appears twice
  for that reason: with its entries (`Versions.FileMeta`) and as stored
  (`VersionEdits.Meta`).
* Internal keys are distinct, as sequence numbers make them. Sequence numbers are below
  2^56; compaction requires the smallest snapshot to be below the greatest number, since
  rule (A) uses that number as its mark for a new user key.
* Hashes, the checksum of the log theorems, and the filter policy are function parameters.
  The handle table takes the remainder by its length where the code masks with the length
  minus one; `HandleTables.MaskIsRemainder` shows that this is the same for its lengths.
* Choices that depend on random numbers or on sizes in bytes (node heights, compressed
  sizes, where a data block is closed, which level is due for compaction) are left open: the
  theorems hold for every choice. How many bytes the entries of an output take is a function
  parameter of `Compactions`, which says where outputs are closed for any such function; the
  theorems about `Store` hold for every cut.
* A log record is a sequence number and its updates in `GroupCommit`, and bytes in
  `WriteBatches`, `Recovery` and `CrashRecovery`. `GroupCommit.WriteQueue.mem` is the
  contents of all memtables, the current one's last; flushing one does not take it out.
* A crash of `Reopening` keeps any part of the memtables, which is more than logs allow;
  `RecoveredStores` says which part it is.
* `VersionSets.VersionSet.unlogged` records which compaction pointers were set by a pick
  since the manifest last logged that level.

## Differences between code and comments

* `VersionEdit::Clear` does not clear the compaction pointers, so an edit that is decoded
  into twice keeps the old ones (`VersionEdits.KeptPointers`).
* `DBImpl::Recover` overwrites the status in its loop over the logs, so a paranoid recovery
  fails only if the last log is damaged, although `Options::paranoid_checks` promises to
  stop at any error (`Recovery.RecoverLogs`).
* BackgroundCompaction takes the slot of its manual compaction for held when it ends, but
  the requester empties it when an error is recorded meanwhile
  (`Background.CancelledInMidRun`).
* A pick sets its level's compaction pointer at once, so that a failed compaction is not
  tried again on the same keys; reopening the store before the pick's edit is logged loses
  the pointer all the same (`VersionSets.Reopen`).
* `VersionSet::Recover` calls `MarkFileNumberUsed` for the log numbers and then sets the
  next file number from the manifest, so on success the marks have no effect; the recovered
  number is still above every file and log (`VersionSets.Reopen`).
* `log_reader.h` numbers its end-of-file and bad-record outcomes after the stored types, so
  a stored record of type 5 or 6 with a right checksum is taken for those outcomes; the
  model follows the code (`LogFormat.PieceOf`).
* In `merger.cc` the branch for a child that stands at the current key after Seek cannot be
  taken when keys are distinct.

## Model

Source paths are relative to the root of the repository.

| member | source | states |
|---|---|---|
| `Keys.SeekIndex` | Example/Pods/leveldb-library/include/leveldb/iterator.h:40-43 | the least position at or after the target: everything before it is before the target, nothing from it on is |
| `Keys.FindsIsFunctional` | Example/Pods/leveldb-library/db/dbformat.cc:50-66 | with distinct internal keys the newest visible entry of a user key is unique, so an answer can be compared with it |
| `Keys.PointLookupFinds` | Example/Pods/leveldb-library/db/memtable.cc:108-143 | seeking the lookup key and comparing only the user key finds exactly the newest entry at or below the snapshot, or tells that there is none |
| `Versions.FindFile` | Example/Pods/leveldb-library/db/version_set.cc:77-96 | binary search: every file before the result ends before the target, every file from it on does not |
| `Versions.SortNewestFirst` | Example/Pods/leveldb-library/db/version_set.cc:274-276 | the same files, by strictly falling number |
| `Versions.Level0Candidates` | Example/Pods/leveldb-library/db/version_set.cc:346-363 | exactly the level-0 files whose range holds the key, newest first |
| `Versions.Get` | Example/Pods/leveldb-library/db/version_set.cc:323-420 | the answer is the first hit: the newest level-0 file that answers, or else the first level whose one binary-searched file answers |
| `Versions.LevelAnswer` | Example/Pods/leveldb-library/db/version_set.cc:364-381 | in a sorted level the binary-searched file alone gives the newest visible entry of the whole level |
| `Versions.FirstHitIsNewest` | Example/Pods/leveldb-library/db/version_set.cc:323-420 | under the age order, stopping at the first hit returns the newest visible entry among all entries of all levels |
| `Store.Get` | Example/Pods/leveldb-library/db/db_impl.cc:1077-1122 | for every state that satisfies the invariant and every snapshot a reader may hold, the value returned is that of the last write to the key in the history |
| `Picking.SomeFileOverlapsRange` | Example/Pods/leveldb-library/db/version_set.cc:112-147 | true if and only if some file meets the range, unbounded ends included, by a scan or one binary search |
| `Picking.GetOverlappingInputs` | Example/Pods/leveldb-library/db/version_set.cc:522-563 | terminates; the result is exactly the files meeting the least range that contains [begin, end] and, at level 0, is closed under overlap |
| `Picking.PickLevelForMemTableOutput` | Example/Pods/leveldb-library/db/version_set.cc:493-519 | the chosen level and every level it skips hold no file in the table's user-key range, and the level is at most 2 |
| `Picking.GetRange` | Example/Pods/leveldb-library/db/version_set.cc:1176-1195 | the least and greatest internal key of the inputs, each attained by an input |
| `Picking.TryToExpand` | Example/Pods/leveldb-library/db/version_set.cc:1308-1340 | the inputs of the level become all files around what was picked and its next-level inputs if and only if that is more files, the byte limit holds, and no more next-level files meet them; else they stay what was picked |
| `Picking.GrowthMeetsNoMore` | Example/Pods/leveldb-library/db/version_set.cc:1320-1323 | the wider range selects as many next-level files if and only if every next-level file that meets it is an input already |
| `Picking.HullEnds` | Example/Pods/leveldb-library/db/version_set.cc:1176-1195 | the hull of files has the least and the greatest user key of their ranges as its ends |
| `Picking.NarrowerSelectsFewer` | Example/Pods/leveldb-library/db/version_set.cc:1316-1323 | comparing only the sizes of the two next-level selections is enough: a wider range with as many files selects the same files |
| `Picking.SetupOtherInputs` | Example/Pods/leveldb-library/db/version_set.cc:1297-1347 | the next-level inputs are exactly the files that meet what was picked; the inputs of the level grow exactly when they may; the grandparents are those around all inputs, and the greatest key is that of the inputs then chosen |
| `Picking.Grandparents` | Example/Pods/leveldb-library/db/version_set.cc:1342-1347 | the files two levels down that meet the range of all inputs, none if there is no such level |
| `Picking.CompactRange` | Example/Pods/leveldb-library/db/version_set.cc:1364-1397 | None if and only if nothing overlaps; else set up from the shortest prefix of the files in the range that reaches the target file size (or all of them), at level 0 from the least closed set of files that holds the range |
| `Picking.FirstBytes` | Example/Pods/leveldb-library/db/version_set.cc:1374-1389 | the shortest prefix of the inputs that reaches the target file size, or all of them |
| `Picking.PickCompaction` | Example/Pods/leveldb-library/db/version_set.cc:1243-1295 | from any starting file the compaction is set up from that file, at level 0 from the least closed set of files around it |
| `Picking.PickStart` | Example/Pods/leveldb-library/db/version_set.cc:1257-1269 | the first file of the level that ends after the compaction pointer, or the first of all if none does |
| `Picking.CleanCutIffClearBoundary` | Example/Pods/leveldb-library/db/version_set.cc:1243-1295 | what the inputs leave behind is newer than what they take if and only if no left-behind file of their level continues an input's last user key |
| `Picking.UserDisjointClears` | Example/Pods/leveldb-library/db/version_set.cc:1243-1295 | if levels 1 and up are disjoint in user keys, every choice of inputs cuts cleanly |
| `Compactions.Compaction.IsBaseLevelForKey` | Example/Pods/leveldb-library/db/version_set.cc:1434-1453 | with cursors that only move forward, the answer is right for every run of nondecreasing user keys: no file below the output level has the key in its range |
| `Compactions.Compaction.ShouldStopBefore` | Example/Pods/leveldb-library/db/version_set.cc:1455-1475 | the cursor passes exactly the grandparents that end before the key; a new output is asked for if and only if the overlap collected since the last one exceeds the limit |
| `Compactions.Compaction.AskStop` | Example/Pods/leveldb-library/db/version_set.cc:1455-1475 | asked about every key of the merged input in turn, the answer is whether the bytes of the grandparents passed since the output began exceed the limit |
| `Compactions.GrandparentsAscend` | Example/Pods/leveldb-library/db/version_set.cc:1344-1347 | grandparents end in order, as the cursor needs them to |
| `Compactions.Compaction.ShouldDrop` | Example/Pods/leveldb-library/db/db_impl.cc:906-940 | with one remembered sequence number the loop drops exactly the entries that are hidden by the entry before or are obsolete tombstones |
| `Compactions.Compaction.ProcessEntry` | Example/Pods/leveldb-library/db/db_impl.cc:897-975 | one turn of the loop cuts as the list of outputs says: it closes the open output before a key that passes too many bytes, writes the entry if it is not dropped, and closes an output that is big enough |
| `Compactions.Compaction.DoCompactionWork` | Example/Pods/leveldb-library/db/db_impl.cc:855-1014 | the outputs are the survivors of the merged input cut as the limits say: together exactly the survivors in order, each within the grandparent limit, each closed as soon as it is full |
| `Compactions.OutputsAreCutWell` | Example/Pods/leveldb-library/db/db_impl.cc:897-975 | for any way that entries add up to bytes: between the first and the last key of an output lie at most MaxGrandParentOverlapBytes of grandparents, no output goes on after it reaches the file size, and none but the last ends unless it is full or the next key would pass too many bytes |
| `Compactions.PassedBetween` | Example/Pods/leveldb-library/db/version_set.cc:1455-1475 | the grandparents passed between two keys are those that end at or after the first and before the second |
| `CompactionTheorems.SurvivorsStaySorted` | Example/Pods/leveldb-library/db/db_impl.cc:884-976 | the survivors are strictly ordered by internal key |
| `CompactionTheorems.LaterEntriesAreHidden` | Example/Pods/leveldb-library/db/db_impl.cc:923-925 | rule (A) hides every later entry of a user key once one visible to all readers was seen |
| `CompactionTheorems.DroppedAnswerStaysAbsent` | Example/Pods/leveldb-library/db/db_impl.cc:926-937 | if the answer itself is dropped it is a deletion, and afterwards nothing older of that key shows through |
| `CompactionTheorems.SurvivorsKeepMeaning` | Example/Pods/leveldb-library/db/db_impl.cc:906-940 | dropping entries changes no reader's value, for every user key and every snapshot from the smallest on |
| `CompactionTheorems.TombstonesAreOldest` | Example/Pods/leveldb-library/db/version_set.cc:1434-1453 | an obsolete tombstone has nothing older of its key outside the inputs, so dropping it uncovers nothing |
| `CompactionTheorems.CompactionKeepsMeaning` | Example/Pods/leveldb-library/db/db_impl.cc:834-1014 | replacing the inputs by the outputs gives every reader at or above the smallest snapshot the same value or absence for every user key, given a clean cut and the age order |
| `CompactionTheorems.InstallKeepsAgeIff` | Example/Pods/leveldb-library/db/db_impl.cc:834-853 | after any install, entries in a smaller level are newer than entries of the same key in a larger one if and only if every file left at the compacted level is newer than every output |
| `CompactionTheorems.InstallKeepsAge` | Example/Pods/leveldb-library/db/db_impl.cc:834-853 | a clean cut is enough for that |
| `CompactionTheorems.UntouchedIsNewer` | Example/Pods/leveldb-library/db/version_set.cc:1434-1453 | what is outside the inputs is newer than an obsolete deletion of its key, except in a file that goes on where an input at its level ends |
| `CompactionTheorems.BesideIsNewer` | Example/Pods/leveldb-library/db/version_set.cc:1243-1295 | a file left at an input's level is newer than the input if and only if it does not go on with the input's last user key |
| `CompactionTheorems.InstallKeepsShape` | Example/Pods/leveldb-library/db/version_set.cc:701-763 | after the install every level is sorted and pairwise disjoint in internal keys, and in user keys too if the outputs split no user key |
| `CompactionTheorems.NextLevelApart` | Example/Pods/leveldb-library/db/version_set.cc:750-763 | any two different files of the new next level lie apart, so the assertion in MaybeAddFile holds |
| `CompactionTheorems.OutputsInOrder` | Example/Pods/leveldb-library/db/db_impl.cc:898-904 | the outputs of one compaction are disjoint in order, in user keys too when one entry per user key survives |
| `CompactionTheorems.NoSnapshotLeavesOnePerUser` | Example/Pods/leveldb-library/db/db_impl.cc:868-872 | with no live snapshot at most one entry per user key survives |
| `CompactionTheorems.MovedFileIsDrawn` | Example/Pods/leveldb-library/db/version_set.cc:1417-1424 | a trivial move carries down exactly the entries of its one file |
| `Store.NextKeepsInv` | Example/Pods/leveldb-library/db/db_impl.cc:655-714 | every step (write, memtable switch, flush, trivial move, compaction, taking or releasing a snapshot) keeps shape, age order and meaning if and only if it is safe: a moved file is continued by none left at its level, nothing newer passes below a file left behind, and no dropped deletion uncovers a value in one |
| `Store.RunKeepsInv` | Example/Pods/leveldb-library/db/db_impl.cc:655-714 | the invariant holds in every state of every safe run from an empty store |
| `Store.FlushKeepsInv` | Example/Pods/leveldb-library/db/db_impl.cc:457-534 | a flush to the level PickLevelForMemTableOutput allows keeps the invariant |
| `Store.TrivialMoveKeepsInv` | Example/Pods/leveldb-library/db/db_impl.cc:686-703 | a trivial move keeps the invariant if and only if no file left at the level continues the moved file's last user key |
| `Store.CompactKeepsInv` | Example/Pods/leveldb-library/db/db_impl.cc:704-713 | a compaction at the smallest live snapshot keeps the invariant if and only if nothing passes and nothing resurfaces |
| `Store.CleanIsSafe` | Example/Pods/leveldb-library/db/version_set.cc:1243-1295 | a clear boundary at both levels makes a step safe |
| `Store.SnapshotKeepsInv` | Example/Pods/leveldb-library/db/db_impl.cc:1143-1146 | a new snapshot sees what the present sees |
| `Store.ReleaseKeepsInv` | Example/Pods/leveldb-library/db/snapshot.h:52-57 | releasing any snapshot keeps the list in order and the invariant |
| `Store.NoSnapshotSplitsNothing` | Example/Pods/leveldb-library/db/db_impl.cc:868-872 | a compaction that starts with no live snapshot writes outputs disjoint in user keys |
| `Store.NextKeepsUserKeysWhole` | Example/Pods/leveldb-library/db/version_set.cc:754-759 | levels 1 and up stay disjoint in user keys as long as no compaction splits one |
| `Store.SnapshotFreeRunsCutCleanly` | Example/Pods/leveldb-library/db/db_impl.cc:655-714 | in every run whose compactions start with no live snapshot every cut is clean, so the run is safe |
| `Store.LookedIsNewest` | Example/Pods/leveldb-library/db/db_impl.cc:1077-1122 | memtable, immutable memtable, then levels from the top: the first that knows the key has the newest visible entry of all |
| `Store.EveryRunAnswersTheHistory` | Example/Pods/leveldb-library/db/db_impl.cc:1077-1122 | in every state of every safe run, for every live snapshot and the present, both the newest visible entry of the store and what the lookup finds mean what the last write in the history means |
| `Boundary.AgeMakesLookupsExact` | Example/Pods/leveldb-library/db/version_set.cc:323-420 | the age order makes every early-stopping lookup exact |
| `Boundary.LeftoverAnswersTooEarly` | Example/Pods/leveldb-library/db/version_set.cc:323-420 | if an older entry of a key stays above a newer one that moved down, some lookup returns the wrong entry |
| `Boundary.TrivialMoveIsExactIffClear` | Example/Pods/leveldb-library/db/db_impl.cc:686-703 | after a trivial move lookups are exact if and only if no file left at the level continues the moved file's last user key |
| `Boundary.MoveKeepsAgeIff` | Example/Pods/leveldb-library/db/db_impl.cc:686-703 | a trivial move keeps the age order under the same condition |
| `Boundary.CompactionKeepsAgeIff` | Example/Pods/leveldb-library/db/version_set.cc:1297-1362 | a compaction keeps the age order if and only if nothing passes: wherever a file left at the compacted level goes on with an input's last user key, the newest input entry of that key is an obsolete deletion |
| `Boundary.CompactionIsExactIff` | Example/Pods/leveldb-library/db/version_set.cc:1297-1362 | lookups at all snapshots are exact after a compaction under exactly that condition |
| `HeldLookups.CompactionIsExactForHeldIff` | Example/Pods/leveldb-library/db/version_set.cc:1297-1362 | at the snapshots readers still hold, lookups are exact after a compaction if and only if no entry that such a reader is told passes below a file that goes on with its user key, unless it is a deletion that is dropped |
| `HeldLookups.MoveIsExactForHeldIff` | Example/Pods/leveldb-library/db/db_impl.cc:686-703 | the same for a trivial move: if and only if the moved file is not continued in a user key of which it holds what such a reader is told |
| `HeldLookups.NewestWasTold` | Example/Pods/leveldb-library/db/db_impl.cc:906-940 | the newest entry that a reader sees after a compaction, if the compaction wrote it, was the newest before |
| `Boundary.SurvivorsKeepMeaningIff` | Example/Pods/leveldb-library/db/db_impl.cc:906-940 | for any other entries around the input, dropping changes some reader's answer if and only if an obsolete deletion is the answer at the smallest snapshot and a value is the next older entry outside the input |
| `Boundary.CompactionKeepsMeaningIff` | Example/Pods/leveldb-library/db/db_impl.cc:834-1014 | a compaction keeps what every reader at or above the smallest snapshot is told if and only if nothing resurfaces: no such deletion is in an input whose last user key goes on, with that value, in a file left at the input's level, be it the compacted level or the next |
| `BoundaryRuns.StaleReadRun` | Example/Pods/leveldb-library/db/db_impl.cc:655-714 | a run of eleven steps of the code (no compaction of a lone file that would be moved, no output closed before it is full) after whose last, a trivial move, the lookup in the present gives a value that the history has deleted |
| `BoundaryRuns.ResurfacingRun` | Example/Pods/leveldb-library/db/db_impl.cc:655-714 | a run of fifteen steps of the code whose last is a compaction with no live snapshot: it drops the deletion in a next-level input, and the value in the file left at that level is back for good |
| `StoreScans.SourcesMerge` | Example/Pods/leveldb-library/db/version_set.cc:225-242 | in every valid store the memtables, the files of level 0 and the other levels are sorted runs that share no key |
| `StoreScans.MergeHoldsAll` | Example/Pods/leveldb-library/db/db_impl.cc:1035-1052 | their merge holds exactly the entries of the store |
| `StoreScans.NewIterator` | Example/Pods/leveldb-library/db/db_impl.cc:1124-1133 | a new iterator goes over a list whose view at its snapshot is the map of the last writes |
| `StoreScans.EveryRunScansTheHistory` | Example/Pods/leveldb-library/db/db_impl.cc:1124-1133 | in every state of every safe run, iterating over all sources at a live snapshot or at the present shows exactly the keys and values of the last writes |
| `StoreScans.LaterWritesDoNotShow` | Example/Pods/leveldb-library/db/db_iter.cc:173-203 | sources that have grown by entries above the snapshot give the very same view, so a position in it means the same before and after |
| `StoreScans.WriteKeepsView` | Example/Pods/leveldb-library/db/db_impl.cc:1124-1133 | a write to the store leaves the view of every iterator that was made before as it is |
| `Merging.MergeExists` | Example/Pods/leveldb-library/table/merger.cc:186-195 | any list of sorted runs with no shared key has a sorted merge |
| `Merging.SortedIsUnique` | Example/Pods/leveldb-library/table/merger.cc:186-195 | that merge is unique |
| `Merging.MergingIterator.SeekToFirst` | Example/Pods/leveldb-library/table/merger.cc:35-41 | position 0 of the merge |
| `Merging.MergingIterator.SeekToLast` | Example/Pods/leveldb-library/table/merger.cc:43-49 | the last position of the merge |
| `Merging.MergingIterator.Seek` | Example/Pods/leveldb-library/table/merger.cc:51-57 | the first position of the merge at or after the target |
| `Merging.MergingIterator.Next` | Example/Pods/leveldb-library/table/merger.cc:59-83 | one position on, from either direction and for any number of children |
| `Merging.MergingIterator.Prev` | Example/Pods/leveldb-library/table/merger.cc:85-112 | one position back, from either direction; before the first it becomes invalid |
| `Merging.MergingIterator.TurnForward` | Example/Pods/leveldb-library/table/merger.cc:62-80 | turning forward puts every child at its first entry from the current key on |
| `Merging.MergingIterator.TurnBack` | Example/Pods/leveldb-library/table/merger.cc:88-110 | turning back puts every child at its last entry up to the current key |
| `Merging.MergingIterator.FindSmallest` | Example/Pods/leveldb-library/table/merger.cc:155-168 | if every child is at its first entry from position k on, the current child is at position k of the merge |
| `Merging.MergingIterator.FindLargest` | Example/Pods/leveldb-library/table/merger.cc:170-183 | if every child is at its last entry up to position k, the current child is at position k of the merge |
| `TwoLevel.TwoLevelIterator.InitDataBlock` | Example/Pods/leveldb-library/table/two_level_iterator.cc:156-170 | the open data block is the one the index stands at, or none at its end; the same handle is not opened again |
| `TwoLevel.TwoLevelIterator.SkipEmptyDataBlocksForward` | Example/Pods/leveldb-library/table/two_level_iterator.cc:125-136 | terminates; passing empty blocks leaves the position in the concatenation as it was |
| `TwoLevel.TwoLevelIterator.SkipEmptyDataBlocksBackward` | Example/Pods/leveldb-library/table/two_level_iterator.cc:138-149 | terminates; the end of a block stands for the last entry of the nearest earlier block that has one |
| `TwoLevel.TwoLevelIterator.SeekToFirst` | Example/Pods/leveldb-library/table/two_level_iterator.cc:98-103 | position 0 of the concatenation of all blocks, empty ones included |
| `TwoLevel.TwoLevelIterator.SeekToLast` | Example/Pods/leveldb-library/table/two_level_iterator.cc:105-110 | the last position of the concatenation |
| `TwoLevel.TwoLevelIterator.Next` | Example/Pods/leveldb-library/table/two_level_iterator.cc:112-116 | one position on |
| `TwoLevel.TwoLevelIterator.Prev` | Example/Pods/leveldb-library/table/two_level_iterator.cc:118-123 | one position back, or invalid before the first entry |
| `TwoLevel.TwoLevelIterator.Seek` | Example/Pods/leveldb-library/table/two_level_iterator.cc:91-96 | the first entry of the concatenation at or after the target, found through the separators |
| `DbIteration.ViewIsTheMap` | Example/Pods/leveldb-library/db/db_iter.cc:34-38 | the view is strictly ordered by user key and holds exactly the newest visible entry of every key whose newest visible entry is a value |
| `DbIteration.ViewAgreesWithLookup` | Example/Pods/leveldb-library/db/db_iter.cc:34-38 | a key and value are in the view if and only if a point lookup at the snapshot returns that value |
| `DbIteration.DBIter.ShowsTheView` | Example/Pods/leveldb-library/db/db_iter.cc:65-73 | the iterator is valid if and only if its index is in the view, and then shows that element's key and value |
| `DbIteration.DBIter.Seek` | Example/Pods/leveldb-library/db/db_iter.cc:274-286 | the first element of the view at or after the target |
| `DbIteration.DBIter.SeekToFirst` | Example/Pods/leveldb-library/db/db_iter.cc:288-297 | the first element of the view |
| `DbIteration.DBIter.SeekToLast` | Example/Pods/leveldb-library/db/db_iter.cc:299-304 | the last element of the view, or invalid if the view is empty |
| `DbIteration.DBIter.Next` | Example/Pods/leveldb-library/db/db_iter.cc:146-171 | index + 1, from either direction |
| `DbIteration.DBIter.Prev` | Example/Pods/leveldb-library/db/db_iter.cc:205-230 | index - 1, from either direction, or invalid before the first element |
| `DbIteration.DBIter.FindNextUserEntry` | Example/Pods/leveldb-library/db/db_iter.cc:173-203 | stops at the first entry that is shown, skipping hidden keys, or at the end if none is |
| `DbIteration.DBIter.FindPrevUserEntry` | Example/Pods/leveldb-library/db/db_iter.cc:232-272 | scanning back, saves the last entry that is shown and stops one user key before it |
| `DbIteration.DBIter.LeaveCurrentKey` | Example/Pods/leveldb-library/db/db_iter.cc:149-168 | the key to skip is saved and a reverse scan is turned without passing an entry that is shown |
| `DbIteration.DBIter.ScanBackToPreviousKey` | Example/Pods/leveldb-library/db/db_iter.cc:208-227 | leaves all entries of the current user key, or finds that there is none before it |
| `Builders.Builder.Apply` | Example/Pods/leveldb-library/db/version_set.cc:656-699 | every level takes the edit's deletions, then its additions, which cancel a deletion of the same number |
| `Builders.Builder.SaveTo` | Example/Pods/leveldb-library/db/version_set.cc:702-748 | each level is the ordered merge of base and added files without the deleted ones |
| `Builders.SaveLevel` | Example/Pods/leveldb-library/db/version_set.cc:702-763 | the merge loop with upper_bound keeps exactly the files that are not deleted, in BySmallestKey order |
| `Builders.FileLessIsOrder` | Example/Pods/leveldb-library/db/version_set.cc:597-609 | BySmallestKey, with file numbers to break ties, is a strict total order |
| `Manifest.EditOnBuilder` | Example/Pods/leveldb-library/db/version_set.cc:656-699 | a builder after an edit keeps a file if and only if it kept it before and the edit does not delete it, or the edit adds it |
| `Manifest.OrderedIsUnique` | Example/Pods/leveldb-library/db/version_set.cc:702-748 | an ordered file list is determined by its files |
| `Manifest.StepTracks` | Example/Pods/leveldb-library/db/version_set.cc:811-894 | one more LogAndApply keeps the version equal to what one cumulative builder would save |
| `Manifest.OneBuilderIsTheChain` | Example/Pods/leveldb-library/db/version_set.cc:896-1009 | one builder over all edits saves the same ordered list as the chain of single LogAndApply steps, if no number is added twice at the level |
| `Manifest.ReusedNumberComesBack` | Example/Pods/leveldb-library/db/version_set.cc:656-699 | the condition is needed: for every two files with one number and different keys, add, delete, add again differs between the two |
| `VersionSets.SnapshotTracks` | Example/Pods/leveldb-library/db/version_set.cc:1054-1082 | a builder that read only the snapshot record holds the whole file set |
| `VersionSets.VersionSet.NewFileNumber` | Example/Pods/leveldb-library/db/version_set.h:190-191 | the number is fresh: no current file has it |
| `VersionSets.VersionSet.ReuseFileNumber` | Example/Pods/leveldb-library/db/version_set.h:193-200 | gives back exactly the last number handed out, and the set stays valid if no file or logged edit has it |
| `VersionSets.VersionSet.SetLastSequence` | Example/Pods/leveldb-library/db/version_set.h:211-215 | the last sequence number only grows |
| `VersionSets.VersionSet.SetPointer` | Example/Pods/leveldb-library/db/version_set.cc:1357-1361 | a pick sets the level's pointer at once and notes it in the compaction's edit; the set stays valid with one pointer more that the manifest does not say |
| `VersionSets.VersionSet.WriteSnapshot` | Example/Pods/leveldb-library/db/version_set.cc:1054-1082 | the manifest starts with one record that encodes comparator name, compaction pointers and all files; no pick is unlogged then |
| `VersionSets.VersionSet.LogEdit` | Example/Pods/leveldb-library/db/version_set.cc:834-866 | the manifest gets its snapshot record if it is new, then the edit, and one builder over its records holds the new version; picks for the edit's levels are logged, the others stay unlogged |
| `VersionSets.VersionSet.BuildVersion` | Example/Pods/leveldb-library/db/version_set.cc:826-831 | each level is the old one without the deleted files and with the added ones, in order |
| `VersionSets.VersionSet.LogAndApply` | Example/Pods/leveldb-library/db/version_set.cc:811-894 | from every valid state, also after picks that were never logged: the current version is the old one edited, counters and pointers are filled in, and the manifest still recovers to this state but for the unlogged pointers |
| `VersionSets.VersionSet.MarkFileNumberUsed` | Example/Pods/leveldb-library/db/version_set.cc:1011-1015 | the next file number is above the given one, and is not lowered |
| `VersionSets.VersionSet.ReplayRecord` | Example/Pods/leveldb-library/db/version_set.cc:938-973 | a record is taken in if and only if it decodes and names the same comparator |
| `VersionSets.VersionSet.Recover` | Example/Pods/leveldb-library/db/version_set.cc:896-1009 | succeeds if and only if every record can be read, no comparator differs and the three required counters were seen; the result is what the edits say, and the manifest is still to be opened |
| `VersionSets.Reopen` | Example/Pods/leveldb-library/db/version_set.cc:896-1009 | reopening from the manifest gives a valid version set again with the same file lists and log numbers, the logged last sequence, and a next file number above every file and log; its compaction pointers are the logged ones, which are the old ones if and only if every unlogged pick was of the logged key |
| `VersionEdits.EditRoundTrip` | Example/Pods/leveldb-library/db/version_edit.cc:41-210 | DecodeFrom(EncodeTo(edit)) is the edit, for every edit whose parts fit their fields |
| `VersionEdits.DecodedLevels` | Example/Pods/leveldb-library/db/version_edit.cc:98-107 | whatever the bytes, a decoded edit names only levels that exist |
| `VersionEdits.InsertKeepsOrder` | Example/Pods/leveldb-library/db/version_edit.h:87-101 | the deleted files of an edit are kept in order, by level and then by number, without repetition |
| `VersionEdits.KeptPointers` | Example/Pods/leveldb-library/db/version_edit.cc:26-39 | Clear leaves the compaction pointers, so decoding into a used edit puts the old ones in front of the new |
| `VersionEdits.VersionEdit.EncodeTo` | Example/Pods/leveldb-library/db/version_edit.cc:41-86 | appends exactly the encoding of the fields |
| `VersionEdits.VersionEdit.DecodeFrom` | Example/Pods/leveldb-library/db/version_edit.cc:109-210 | accepts exactly what the field grammar accepts and sets exactly its fields |
| `VersionEdits.VersionEdit.Clear` | Example/Pods/leveldb-library/db/version_edit.cc:26-39 | every field but the compaction pointers is empty |
| `Coding.UnrolledIsVarint` | Example/Pods/leveldb-library/util/coding.cc:47-73 | the unrolled EncodeVarint32 is the seven-bit encoding |
| `Coding.EncodeVarint64` | Example/Pods/leveldb-library/util/coding.cc:81-90 | the loop writes the seven-bit encoding |
| `Coding.Varint32RoundTrip` | Example/Pods/leveldb-library/util/coding.cc:112-141 | reading a 32-bit varint gives the value back and leaves what follows |
| `Coding.Varint64RoundTrip` | Example/Pods/leveldb-library/util/coding.cc:143-170 | reading a 64-bit varint gives the value back and leaves what follows |
| `Coding.GetVarint64Ptr` | Example/Pods/leveldb-library/util/coding.cc:143-158 | the loop decodes what the recursive grammar decodes, malformed input included |
| `Coding.LengthPrefixedRoundTrip` | Example/Pods/leveldb-library/util/coding.cc:182-192 | a length-prefixed string is read back and what follows is left |
| `Coding.FixedRoundTrip` | Example/Pods/leveldb-library/util/coding.cc:9-45 | little-endian fixed-width numbers are read back |
| `Coding.FixedIsLittleEndian` | Example/Pods/leveldb-library/util/coding.cc:9-33 | byte i of a fixed-width number is the number divided by 256^i, modulo 256 |
| `WriteBatches.ReplayRoundTrip` | Example/Pods/leveldb-library/db/write_batch.cc:42-134 | replaying a batch inserts its updates in order, with consecutive sequence numbers from the header's |
| `WriteBatches.OpsRoundTrip` | Example/Pods/leveldb-library/db/write_batch.cc:42-80 | Iterate over encoded updates calls back exactly those updates and reaches the end |
| `WriteBatches.WriteBatch.Put` | Example/Pods/leveldb-library/db/write_batch.cc:98-103 | one update more at the end; header count and representation agree |
| `WriteBatches.WriteBatch.Delete` | Example/Pods/leveldb-library/db/write_batch.cc:105-109 | one deletion more at the end; header count and representation agree |
| `WriteBatches.WriteBatch.Append` | Example/Pods/leveldb-library/db/write_batch.cc:141-145 | the updates of both batches in order, under the first one's sequence number |
| `WriteBatches.WriteBatch.SetSequence` | Example/Pods/leveldb-library/db/write_batch.cc:94-96 | only the sequence number changes |
| `WriteBatches.Iterate` | Example/Pods/leveldb-library/db/write_batch.cc:42-80 | the loop hands on exactly the updates before the first malformed one, numbered in order |
| `WriteBatches.InsertInto` | Example/Pods/leveldb-library/db/write_batch.cc:112-134 | OK if and only if the record is long enough, well formed and its count is right; what was inserted before an error stays |
| `GroupCommit.BuildBatchGroup` | Example/Pods/leveldb-library/db/db_impl.cc:1237-1282 | the group is a prefix of the queue whose members may join under the size and sync rules, and its batch is theirs in order |
| `GroupCommit.GroupSyncsWithLeader` | Example/Pods/leveldb-library/db/db_impl.cc:1258-1261 | no sync writer is ever in the group of a leader that does not sync |
| `GroupCommit.GroupStaysSmall` | Example/Pods/leveldb-library/db/db_impl.cc:1243-1251 | a group of more than one batch takes at most 1 MB, and one that begins with a small write at most 128 KB more than that write |
| `GroupCommit.WriteQueue.Enqueue` | Example/Pods/leveldb-library/db/db_impl.cc:1168-1172 | a writer goes to the end of the queue, at any time the mutex is free |
| `GroupCommit.WriteQueue.Refuse` | Example/Pods/leveldb-library/db/db_impl.cc:1286-1332 | a writer that finds a background error, or cannot get a new log, leaves without a number or a log record |
| `GroupCommit.WriteQueue.SwitchLog` | Example/Pods/leveldb-library/db/db_impl.cc:1333-1343 | a new log is opened with the new memtable; the old one is closed as it is, synced or not |
| `GroupCommit.WriteQueue.FinishNull` | Example/Pods/leveldb-library/db/db_impl.cc:1178-1181 | a NULL batch at the head leaves without a record |
| `GroupCommit.WriteQueue.BeginGroup` | Example/Pods/leveldb-library/db/db_impl.cc:1179-1191 | the head of the queue becomes leader of its group |
| `GroupCommit.WriteQueue.AppendRecord` | Example/Pods/leveldb-library/db/db_impl.cc:1191-1194 | one record with the next free number; after an append that fails all of it, a part of it or nothing is in the log, and no background error is recorded, so later groups follow it in the same log |
| `GroupCommit.WriteQueue.BackgroundError` | Example/Pods/leveldb-library/db/db_impl.cc:606-612 | the background thread may close the store to writes at any time the mutex is free |
| `GroupCommit.WriteQueue.SyncLog` | Example/Pods/leveldb-library/db/db_impl.cc:1194-1199 | the group's record is on disk before any of the group is acknowledged as synced |
| `GroupCommit.WriteQueue.InsertNext` | Example/Pods/leveldb-library/db/db_impl.cc:1200-1202 | inserts one entry at a time, in order, above the published sequence number |
| `GroupCommit.WriteQueue.Publish` | Example/Pods/leveldb-library/db/db_impl.cc:1203-1232 | the whole group leaves the queue at once, its numbers are used up even on error, and a failed sync, but not a failed append, closes the store to writes |
| `GroupCommit.AllCommitted` | Example/Pods/leveldb-library/db/db_impl.cc:1162-1233 | for every interleaving in which appends and insertions succeed, the memtables hold the batches of all writers who were not refused, in arrival order, numbered consecutively without a gap |
| `GroupCommit.NumbersAscend` | Example/Pods/leveldb-library/db/db_impl.cc:1162-1233 | for every interleaving, errors and log switches included, no sequence number is used twice in memory or in the logs, and all are within the published range |
| `GroupCommit.ReplayIsMemory` | Example/Pods/leveldb-library/db/db_impl.cc:1192-1202 | for every past, replaying all logs recreates exactly the inserted entries if and only if no update of a group lost to an I/O error is in a log |
| `GroupCommit.FailedSync` | Example/Pods/leveldb-library/db/db_impl.cc:1194-1213 | a run of the queue in which a sync fails after the append; the store is closed to writes |
| `GroupCommit.FailedSyncDiffers` | Example/Pods/leveldb-library/db/db_impl.cc:1194-1213 | after it the updates are in the log and in no memtable, so replay and memory differ |
| `GroupCommit.ReadersSeeWholeGroups` | Example/Pods/leveldb-library/db/db_impl.cc:1200-1213 | in every state, a reader at the published number sees every finished group whole and nothing of the one being written |
| `Recovery.RecoverLogFile` | Example/Pods/leveldb-library/db/db_impl.cc:362-455 | fails if and only if paranoid checks are on and the reader reported something or a record is malformed; otherwise it inserts what every readable record says and returns the greatest sequence number seen |
| `Recovery.RecoverLogs` | Example/Pods/leveldb-library/db/db_impl.cc:341-357 | whatever the files hold: all readable records of all logs are inserted, oldest log first; it fails if and only if paranoid checks are on and the last log is damaged |
| `Recovery.OneMoreFile` | Example/Pods/leveldb-library/db/db_impl.cc:341-357 | counting on from the greatest number of the logs before is as good as reading all logs as one |
| `Recovery.RecoversLog` | Example/Pods/leveldb-library/db/db_impl.cc:409-432 | from records as the writers left them, recovery inserts exactly the logged updates under their numbers |
| `CrashRecovery.CrashRecovers` | Example/Pods/leveldb-library/db/db_impl.cc:341-357 | whatever number of bytes of each log a crash keeps, whatever I/O errors came before and whatever last sequence number the manifest stores: recovery meets no damage and gives back exactly the updates of the records that are whole, under their numbers |
| `CrashRecovery.SurvivingWithin` | Example/Pods/leveldb-library/db/db_impl.cc:352-356 | the last sequence number after recovery is at or above the stored one and every recovered one, so no number is given twice, and above neither the stored one nor the last one used |
| `CrashRecovery.OvertakenIsBehindALoss` | Example/Pods/leveldb-library/db/db_impl.cc:1333-1343 | where no group was lost, an update logged after a missing one survives if and only if some log behind one that lost an update still yields one |
| `CrashRecovery.CrashRecoversAnEarlierStore` | Example/Pods/leveldb-library/db/db_impl.cc:341-357 | for every past, I/O errors included, and logs cut anywhere, the recovered memtables are those of an earlier moment if and only if no inserted update survives that was logged after a missing one, and no update comes back that was lost to an error |
| `CrashRecovery.CrashRecoversUnlessOvertaken` | Example/Pods/leveldb-library/db/db_impl.cc:341-357 | where no group was lost the logs alone tell: if and only if no log behind one that lost an update still yields an update |
| `CrashRecovery.CrashRecoversTheNumber` | Example/Pods/leveldb-library/db/db_impl.cc:352-356 | the last sequence number is that moment's too if and only if, moreover, no such log yields even an empty record and the manifest stores no number above that of the last surviving update |
| `CrashRecovery.WholeClosedLogsSuffice` | Example/Pods/leveldb-library/db/db_impl.cc:341-357 | if the closed logs are whole, every cut of the open one gives back the entries of an earlier store, and its last sequence number if and only if the manifest stores no number above that of the last surviving update |
| `CrashRecovery.OvertakingExample` | Example/Pods/leveldb-library/db/db_impl.cc:1333-1343 | a failing input: an unsynced write, a switch, a synced write; if the crash loses the first log, the second write comes back without the first, which no moment of the store was |
| `CrashRecovery.StoredNumberExample` | Example/Pods/leveldb-library/db/version_set.cc:823-824 | a failing input: an unsynced write whose number an edit has stored in the manifest; if the crash loses the write, the empty store comes back under the number of the full one |
| `CrashRecovery.TornRecordExample` | Example/Pods/leveldb-library/db/log_writer.cc:75-100 | a failing input: an append that leaves only the front of its record; a smaller write synced behind it is not read although all its bytes are there, so an acknowledged sync write is lost |
| `CrashRecovery.TornRecordEnds` | Example/Pods/leveldb-library/db/log_reader.cc:193-219 | in a file of less than a block, a record that lacks more bytes than follow it ends the reading without a report |
| `CrashRecovery.SyncedWritesSurvive` | Example/Pods/leveldb-library/db/db_impl.cc:1194-1199 | if of each log at least the bytes up to its last synced record are left, every acknowledged sync write is among what is recovered, whatever is lost of other logs and whatever I/O errors came before, as long as no append has left a part of a record |
| `Reopening.NextLasts` | Example/Pods/leveldb-library/db/db_impl.cc:655-714 | a step keeps the store fit for losing its memtables (the tables alone mean what the flushed history means) if and only if it is safe for good: as safe as for the running store, with the memtables' entries left out of the condition |
| `Reopening.ReopenLasts` | Example/Pods/leveldb-library/db/db_impl.cc:341-357 | whatever part of the memtables a crash leaves in their logs: with that part as newest tables of level 0, no snapshots and any last sequence number at or above what is there, the store answers the history that survives and can crash again |
| `Reopening.AllVisible` | Example/Pods/leveldb-library/db/db_impl.cc:352-356 | the number may be below the one before the crash: at or above everything there is, all snapshots read the same |
| `Reopening.EveryCrashRunAnswersTheHistory` | Example/Pods/leveldb-library/db/db_impl.cc:1077-1122 | in every state of every run with any number of crashes whose steps are safe for good, lookups at live snapshots and at the present mean what the last write of the surviving history means |
| `Reopening.SnapshotFreeCrashRuns` | Example/Pods/leveldb-library/db/db_impl.cc:655-714 | if every compaction starts with no live snapshot, crashes in between or not, every step is safe for good |
| `BoundaryRuns.HiddenDropRun` | Example/Pods/leveldb-library/db/db_impl.cc:926-937 | a run of sixteen steps of the code whose last, a compaction, is safe while the memtables live; after a crash that loses the newest write a value is read that was deleted before it |
| `RecoveredStores.WriteTells` | Example/Pods/leveldb-library/db/db_impl.cc:1191-1213 | a write of the store is a group that commits: history, writer queue and numbers stay in step |
| `RecoveredStores.CrashReopens` | Example/Pods/leveldb-library/db/db_impl.cc:341-357 | log files cut anywhere, a store that agrees with the past of the writer queue and the store that is opened again: its history is what was there at the last opening and exactly the updates recovered from the files, it answers that history, and this is a front of the old history if and only if no inserted update is overtaken |
| `Background.Scheduler.MaybeScheduleCompaction` | Example/Pods/leveldb-library/db/db_impl.cc:614-630 | an item is scheduled if and only if one was or there is pending work with no error and no shutdown; never a second one |
| `Background.Scheduler.constructor` | Example/Pods/leveldb-library/db/db_impl.cc:1465-1468 | after Open, work that is already due is scheduled |
| `Background.Scheduler.SwitchMemTable` | Example/Pods/leveldb-library/db/db_impl.cc:1333-1343 | an immutable memtable is never left without a scheduled item |
| `Background.Scheduler.RequestManual` | Example/Pods/leveldb-library/db/db_impl.cc:576-579 | a manual compaction is never left without a scheduled item |
| `Background.Scheduler.CancelManual` | Example/Pods/leveldb-library/db/db_impl.cc:584-587 | the slot is given back on error or shutdown, also while its compaction runs |
| `Background.Scheduler.ChargeSeek` | Example/Pods/leveldb-library/db/db_impl.cc:1115-1117 | a seek-triggered compaction is scheduled at once |
| `Background.Scheduler.Begin` | Example/Pods/leveldb-library/db/db_impl.cc:636-661 | the item runs, and does no work on shutdown or error; a flush goes before a manual compaction |
| `Background.Scheduler.FinishFlush` | Example/Pods/leveldb-library/db/db_impl.cc:503-534 | the immutable memtable goes away if and only if the flush commits; an error is recorded |
| `Background.Scheduler.FinishCompaction` | Example/Pods/leveldb-library/db/db_impl.cc:683-722 | a failed compaction records the error and leaves its work due |
| `Background.Scheduler.End` | Example/Pods/leveldb-library/db/db_impl.cc:645-735 | when the item ends, another is scheduled in the same critical section if and only if there is work, no error and no shutdown; the slot that the end of a manual compaction uses is still held if and only if nobody cancelled since the item began |
| `Background.CancelledInMidRun` | Example/Pods/leveldb-library/db/db_impl.cc:578-587 | a run in which it is not: an error is recorded while a manual compaction runs, its requester gives up, and the compaction ends with the slot empty |
| `SkipLists.SkipList.Load` | Example/Pods/leveldb-library/db/skiplist.h:256-270 | one load and comparison of a search, valid in every intermediate state of an insertion; a level-0 load that does not advance has the answer |
| `SkipLists.SkipList.FindGreaterOrEqual` | Example/Pods/leveldb-library/db/skiplist.h:262-281 | from any height, in any intermediate state: the least level-0 key at or after the target, and the predecessor at every level |
| `SkipLists.SkipList.FindLessThan` | Example/Pods/leveldb-library/db/skiplist.h:285-301 | the greatest key before the target, or the head |
| `SkipLists.SkipList.FindLast` | Example/Pods/leveldb-library/db/skiplist.h:305-322 | the last node, or the head of an empty list |
| `SkipLists.SkipList.Prev` | Example/Pods/leveldb-library/db/skiplist.h:214-222 | the node just before, or none at the first |
| `SkipLists.SkipList.ReaderSurvives` | Example/Pods/leveldb-library/db/skiplist.h:262-281 | a search in progress stays at its place through any number of stores of a writer |
| `SkipLists.SkipList.FindAmongStores` | Example/Pods/leveldb-library/db/skiplist.h:262-281 | a search from any height, with any stores of a writer between any two of its loads, ends and finds the least key at or after the target that is published at its last load; no key that was published before it started is skipped; before each load the writer took all the steps given for it |
| `SkipLists.SkipList.WriterStep` | Example/Pods/leveldb-library/db/skiplist.h:337-370 | one store: a new insertion begins unless the key is there, or the node gets its own link, or it enters one more level; every node that was published stays, with its key |
| `SkipLists.SkipList.AbsentUnlessFound` | Example/Pods/leveldb-library/db/skiplist.h:337-344 | a search that finds another key or none shows that the key is in no level: the check for duplicates is right |
| `SkipLists.SkipList.PrepareLink` | Example/Pods/leveldb-library/db/skiplist.h:363-367 | setting the new node's own link changes no list a reader can reach |
| `SkipLists.SkipList.Publish` | Example/Pods/leveldb-library/db/skiplist.h:364-369 | the store into the predecessor puts the node in one more level; each level stays a sorted sublist of the one below |
| `SkipLists.SkipList.Insert` | Example/Pods/leveldb-library/db/skiplist.h:337-370 | the whole insertion adds exactly the key, in its place, and every intermediate state is a valid list |
| `Chains.StoreSplices` | Example/Pods/leveldb-library/db/skiplist.h:364-369 | one store into the predecessor splices a prepared node into a chain at that place and nowhere else |
| `Chains.StoreUnlinks` | Example/Pods/leveldb-library/util/cache.cc:78-86 | one store into the predecessor takes exactly that node out of a chain |
| `HandleTables.HandleTable.FindPointer` | Example/Pods/leveldb-library/util/cache.cc:98-105 | the slot of the first matching handle of its bucket, or the last slot |
| `HandleTables.HandleTable.Lookup` | Example/Pods/leveldb-library/util/cache.cc:58-60 | a handle with the key and hash, or none exists anywhere in the table |
| `HandleTables.HandleTable.Insert` | Example/Pods/leveldb-library/util/cache.cc:62-76 | the handle is in the table, replacing exactly the one with the same key if there was one; the table is never shorter than the number of handles, and grows only when it would be |
| `HandleTables.HandleTable.Remove` | Example/Pods/leveldb-library/util/cache.cc:78-86 | exactly the matching handle is gone, and none matches any more |
| `HandleTables.HandleTable.Resize` | Example/Pods/leveldb-library/util/cache.cc:107-131 | the table gets the least length, four or more and a power of two, that is at least the number of handles, and no handle is lost |
| `HandleTables.MaskIsRemainder` | Example/Pods/leveldb-library/util/cache.cc:98-117 | for every power of two n, the bits that a hash has in common with n - 1 are its remainder by n |
| `HandleTables.MovesOne` | Example/Pods/leveldb-library/util/cache.cc:113-124 | moving the first handle of an old bucket to the front of its new one keeps both halves well formed |
| `Rings.RingUnlinks` | Example/Pods/leveldb-library/util/cache.cc:196-199 | two stores take a node out of the doubly linked ring, whatever its place |
| `Rings.RingAppends` | Example/Pods/leveldb-library/util/cache.cc:201-207 | four stores put a node in the newest place of the ring |
| `Snapshots.SnapshotList.Oldest` | Example/Pods/leveldb-library/db/snapshot.h:38 | the oldest snapshot has the least number of all live ones, whatever was released in between |
| `Snapshots.SnapshotList.New` | Example/Pods/leveldb-library/db/snapshot.h:41-50 | a node no live snapshot has, at the newest place of the ring |
| `Snapshots.SnapshotList.Delete` | Example/Pods/leveldb-library/db/snapshot.h:52-57 | exactly that snapshot leaves, wherever it is; the others keep their order |
| `Snapshots.SnapshotList.IsEmpty` | Example/Pods/leveldb-library/db/snapshot.h:37 | true if and only if no snapshot is live |
| `LruCaches.LruCache.Unref` | Example/Pods/leveldb-library/util/cache.cc:186-194 | the deleter runs, once, exactly when the last reference goes; usage falls by the charge then |
| `LruCaches.LruCache.Lookup` | Example/Pods/leveldb-library/util/cache.cc:209-218 | a hit becomes the newest entry with one more handle out; a miss changes nothing |
| `LruCaches.LruCache.Release` | Example/Pods/leveldb-library/util/cache.cc:220-223 | one handle less; the entry is deleted if and only if it was the last and the entry is not cached |
| `LruCaches.LruCache.Insert` | Example/Pods/leveldb-library/util/cache.cc:225-256 | the new entry counts its charge, is the newest and replaces one of the same key; then the oldest entries go, each only while what is cached or held is charged more than the capacity, until it fits or the list is empty; usage falls by the charges of the entries that are deleted |
| `LruCaches.LruCache.Erase` | Example/Pods/leveldb-library/util/cache.cc:258-265 | exactly the entries with the key leave table and list, handles that are out stay good, usage falls by what is deleted |
| `LruCaches.LruCache.Evict` | Example/Pods/leveldb-library/util/cache.cc:247-253 | the entries that go are the oldest ones, and none goes once the rest fits |
| `LruCaches.KeptIsLive` | Example/Pods/leveldb-library/util/cache.cc:186-194 | the usage is the charge of the entries that are cached or held by callers |
| `LogIO.Writer.AddRecord` | Example/Pods/leveldb-library/db/log_writer.cc:27-73 | terminates for every record and block offset, also when exactly seven bytes remain, and appends exactly the fragments the format asks for |
| `LogIO.Writer.EmitPhysicalRecord` | Example/Pods/leveldb-library/db/log_writer.cc:75-100 | header with checksum, length and type, then the payload |
| `LogIO.Reader.ReadPhysicalRecord` | Example/Pods/leveldb-library/db/log_reader.cc:181-263 | outcome, new position and number of reports of one physical record, for every input |
| `LogIO.Reader.ReadRecord` | Example/Pods/leveldb-library/db/log_reader.cc:59-164 | record, new position and number of reports, for every input, fragments in any order included |
| `LogTheorems.ReadsPiece` | Example/Pods/leveldb-library/db/log_reader.cc:181-263 | a whole physical record is read back wherever it starts in a block |
| `LogTheorems.ReadsFragments` | Example/Pods/leveldb-library/db/log_reader.cc:59-164 | a record is put together again from its fragments, from any fragment on |
| `LogTheorems.RoundTrip` | Example/Pods/leveldb-library/db/log_writer.cc:27-100 | writing any list of byte strings and reading the file gives back that list, and reports nothing |
| `LogTheorems.TruncationReadsPrefix` | Example/Pods/leveldb-library/db/log_reader.cc:193-225 | cut at any byte, the file reads as the records that are wholly there, and no corruption is reported |
| `LogDamage.DamageReadsSubsequence` | Example/Pods/leveldb-library/db/log_reader.cc:59-263 | however the file was damaged, if the checksum catches it, the records read are a subsequence of those written: none is spliced or invented |
| `LogDamage.DamagedPiece` | Example/Pods/leveldb-library/db/log_reader.cc:181-263 | from caught damage the reader takes the end of the file, drops the rest of the block, or takes the very record that was written |
| `LogDamage.SkipBlock` | Example/Pods/leveldb-library/db/log_reader.cc:235-248 | dropping a block passes over whole fragments only, so reading goes on where the writer started the next block |
| `LogDamage.UntouchedIsCaught` | Example/Pods/leveldb-library/db/log_writer.cc:27-100 | the hypothesis is met by every file the writer wrote |
| `LogChecksums.WriterSum` | Example/Pods/leveldb-library/db/log_writer.cc:85-88 | extending the precomputed checksum of the type byte gives the checksum of type byte and payload |
| `LogChecksums.ReaderCheck` | Example/Pods/leveldb-library/db/log_reader.cc:235-239 | the reader's comparison of unmasked and computed checksum holds if and only if the stored bytes are the writer's |
| `LogChecksums.SmallDamageIsCaught` | Example/Pods/leveldb-library/db/log_reader.cc:235-248 | a physical record damaged in up to four adjacent bytes of type and payload, or only in its stored checksum, or cut short, is refused or is what was written |
| `LogChecksums.SmallDamageReadsSubsequence` | Example/Pods/leveldb-library/db/log_reader.cc:59-263 | a whole file with any number of physical records damaged like that, cut anywhere, reads as a subsequence of the records written, with no assumption about the checksum left |
| `LogReports.RefusalIsReported` | Example/Pods/leveldb-library/db/log_reader.cc:181-263 | for every file and position: a header whose record is all there under a wrong checksum, or that asks for more than a full block has left, is reported and the rest of the block dropped, unless it is the blank header of preallocated space |
| `LogReports.BlankIsSilent` | Example/Pods/leveldb-library/db/log_reader.cc:227-233 | a blank header drops the rest of its block without a report |
| `LogReports.RefusedFileReports` | Example/Pods/leveldb-library/db/log_reader.cc:59-164 | reading a file whose first physical records are as written and whose next is refused reports something, wherever it stands and whatever follows |
| `LogReports.HarmedIsRefused` | Example/Pods/leveldb-library/db/log_reader.cc:235-248 | a physical record damaged in at most four bytes in a row, or in its stored checksum, is refused unless it reads as it was written or looks blank |
| `LogReports.HarmedMeetsRefused` | Example/Pods/leveldb-library/db/log_reader.cc:235-248 | so a written log with one such record meets a refused one |
| `LogReports.WrongChecksumHarms` | Example/Pods/leveldb-library/db/log_reader.cc:235-248 | a log whose first record has any wrong stored checksum is such a log |
| `LogReports.RefusesHarmedLog` | Example/Pods/leveldb-library/db/db_impl.cc:362-380 | a paranoid recovery of such a log fails |
| `LogReports.SilenceLosesOnlyTheEnd` | Example/Pods/leveldb-library/db/log_reader.cc:59-263 | however a log was damaged, if the checksum catches it, no header looks blank and nothing is reported, the records read are a prefix of those written |
| `LogReports.StrayIsReported` | Example/Pods/leveldb-library/db/log_reader.cc:113-158 | a middle or last fragment with no record begun, or a fragment of an unknown type, is reported |
| `LogReports.UnfinishedIsReported` | Example/Pods/leveldb-library/db/log_reader.cc:83-119 | a record that is begun and not ended before another begins is reported |
| `LogReports.BrokenOffIsReported` | Example/Pods/leveldb-library/db/log_reader.cc:143-149 | so is one that is broken off by a dropped block, even a blank one |
| `Crc32c.Extend` | Example/Pods/leveldb-library/util/crc32c.cc:286-329 | for every buffer, length and alignment the sliced loops compute the bit-by-bit remainder of CRC-32C (section 12.1 of RFC 3720) |
| `Crc32c.OctetIsGood` | Example/Pods/leveldb-library/util/crc32c.cc:16-80 | eight steps of the division are linear over xor, injective, and only shift when the low byte is zero |
| `Crc32c.TableStep` | Example/Pods/leveldb-library/util/crc32c.cc:291-294 | one table lookup on the low byte is eight steps of the division |
| `Crc32c.TablesAreFourSteps` | Example/Pods/leveldb-library/util/crc32c.cc:295-302 | four table lookups on a word are four byte steps |
| `Crc32c.FourAtOnce` | Example/Pods/leveldb-library/util/crc32c.cc:295-302 | taking in a little-endian word is taking in its four bytes one after the other |
| `Crc32c.TakeHead` | Example/Pods/leveldb-library/util/crc32c.cc:304-313 | stops at the first aligned address if the buffer reaches it |
| `Crc32c.ValueContinues` | Example/Pods/leveldb-library/util/crc32c.h:14-22 | Extend(Value(A), B) == Value(A + B) |
| `Crc32c.ExtendedComplements` | Example/Pods/leveldb-library/util/crc32c.cc:289-328 | the register starts as the checksum xor 0xffffffff, and the checksum is the register xor 0xffffffff |
| `Crc32c.ZeroInFrontTells` | Example/Pods/leveldb-library/util/crc32c.cc:286-329 | a zero byte in front of the data changes what they extend a checksum to, if and only if that checksum is none of two values |
| `Crc32c.LeadingZeroCounts` | Example/Pods/leveldb-library/util/crc32c.cc:286-329 | a zero byte in front of any string changes its checksum |
| `Crc32c.ValueOfZeros` | Example/Pods/leveldb-library/util/crc32c_test.cc:14-18 | the checksum of 32 zeros is 0x8a9136aa (section B.4 of RFC 3720) |
| `Crc32c.ValueOfAscending` | Example/Pods/leveldb-library/util/crc32c_test.cc:23-26 | the checksum of 32 bytes counting up is 0x46dd794e (section B.4 of RFC 3720) |
| `Crc32c.BurstChangesChecksum` | Example/Pods/leveldb-library/util/crc32c.cc:286-329 | two strings that differ only within four adjacent bytes have different checksums |
| `Crc32c.UnmaskUndoesMask` | Example/Pods/leveldb-library/util/crc32c.h:31-40 | Unmask(Mask(crc)) == crc |
| `Crc32c.MaskUndoesUnmask` | Example/Pods/leveldb-library/util/crc32c.h:31-40 | Mask(Unmask(masked)) == masked |
| `Crc32c.MaskHides` | Example/Pods/leveldb-library/util/crc32c_test.cc:59-65 | the stored form, and that of the stored form, differ from the checksum except for two of all values |
| `Crc32c.Row01` | Example/Pods/leveldb-library/util/crc32c.cc:16-280 | entry 0x01 of all four tables as the file lists them |
| `Crc32c.Row02` | Example/Pods/leveldb-library/util/crc32c.cc:16-280 | entry 0x02 of all four tables |
| `Crc32c.Row04` | Example/Pods/leveldb-library/util/crc32c.cc:16-280 | entry 0x04 of all four tables |
| `Crc32c.Row08` | Example/Pods/leveldb-library/util/crc32c.cc:16-280 | entry 0x08 of all four tables |
| `Crc32c.Row10` | Example/Pods/leveldb-library/util/crc32c.cc:16-280 | entry 0x10 of all four tables |
| `Crc32c.Row20` | Example/Pods/leveldb-library/util/crc32c.cc:16-280 | entry 0x20 of all four tables |
| `Crc32c.Row40` | Example/Pods/leveldb-library/util/crc32c.cc:16-280 | entry 0x40 of all four tables |
| `Crc32c.Row80` | Example/Pods/leveldb-library/util/crc32c.cc:16-280 | entry 0x80 of all four tables; by linearity these rows fix all entries |
| `BlockFormat.BlockBuilder.Add` | Example/Pods/leveldb-library/table/block_builder.cc:73-107 | buffer, restart array and counter are those of the longer list of entries |
| `BlockFormat.BlockBuilder.Finish` | Example/Pods/leveldb-library/table/block_builder.cc:63-71 | the block is the entries, the restart offsets and their number |
| `BlockFormat.DataAt` | Example/Pods/leveldb-library/table/block_builder.cc:73-107 | entry i of the block starts at its offset and ends where the next one starts |
| `BlockFormat.SharesWhatItCan` | Example/Pods/leveldb-library/table/block_builder.cc:73-107 | an entry whose number is a multiple of the interval shares nothing with the one before; any other shares the longest common front of the two keys |
| `BlockFormat.MarksAreMultiples` | Example/Pods/leveldb-library/table/block_builder.cc:73-90 | the recorded restart points are entry 0 and exactly the multiples of the interval |
| `Blocks.EntryDecodes` | Example/Pods/leveldb-library/table/block.cc:53-74 | DecodeEntry undoes the entry encoding, by the fast path or the slow one |
| `Blocks.ReadsRestart` | Example/Pods/leveldb-library/table/block.cc:99-102 | the restart array can be read back |
| `Blocks.BlockHasLayout` | Example/Pods/leveldb-library/table/block_builder.cc:63-107 | every block a builder wrote, for any interval of at least 1, has the layout the iterator needs |
| `Blocks.BlockIter.constructor` | Example/Pods/leveldb-library/table/block.cc:23-38 | opening a finished block finds its restart array; the iterator is at no entry yet |
| `Blocks.BlockIter.ParseNextKey` | Example/Pods/leveldb-library/table/block.cc:226-253 | the cursor is at the next entry with its key rebuilt and its value in place, or at the end |
| `Blocks.BlockIter.Next` | Example/Pods/leveldb-library/table/block.cc:139-142 | one entry on: the entries come in the order they were added |
| `Blocks.BlockIter.Prev` | Example/Pods/leveldb-library/table/block.cc:144-163 | one entry back, so Prev undoes Next; before the first entry it becomes invalid |
| `Blocks.BlockIter.SeekToFirst` | Example/Pods/leveldb-library/table/block.cc:205-208 | the first added entry |
| `Blocks.BlockIter.SeekToLast` | Example/Pods/leveldb-library/table/block.cc:210-215 | the last added entry |
| `Blocks.BlockIter.Seek` | Example/Pods/leveldb-library/table/block.cc:165-203 | the first entry at or after the target, for every strict comparator, despite the binary search over restart points |
| `Blocks.BlockIter.RestartBefore` | Example/Pods/leveldb-library/table/block.cc:166-191 | the last restart point whose key is before the target, or the first one |
| `Bytewise.PositionIsOrder` | Example/Pods/leveldb-library/util/comparator.cc:25-27 | the bytewise comparison is the order of positions in the reals, and 0 only for equal strings |
| `Bytewise.FindShortestSeparator` | Example/Pods/leveldb-library/util/comparator.cc:29-51 | the result is in [start, limit); it changes if and only if the first difference leaves room, and then no string of that range is shorter |
| `Bytewise.FindShortSuccessor` | Example/Pods/leveldb-library/util/comparator.cc:53-65 | the result is at or after the key and no string at or after the key is shorter; only runs of 0xff stay as they are |
| `Bytewise.FindInternalSeparator` | Example/Pods/leveldb-library/db/dbformat.cc:68-85 | between the two internal keys, with the shortest user key there is; it is the first key itself unless a strictly shorter user key is found, which then gets the greatest sequence number |
| `Bytewise.FindInternalSuccessor` | Example/Pods/leveldb-library/db/dbformat.cc:87-99 | at or after the internal key, with the shortest such user key; the key itself unless a strictly shorter one is found |
| `Blooms.SetAtHasAt` | Example/Pods/leveldb-library/util/bloom.cc:56-57 | setting a bit sets that bit and no other |
| `Blooms.CreateFilter` | Example/Pods/leveldb-library/util/bloom.cc:35-61 | appends exactly the filter of the keys: the bit array and the number of probes |
| `Blooms.KeyMayMatch` | Example/Pods/leveldb-library/util/bloom.cc:63-87 | false for short filters, true for reserved encodings, else whether every probed bit is set |
| `Blooms.MatchesWhatIsProbed` | Example/Pods/leveldb-library/util/bloom.cc:35-87 | for any hash function, a key matches if and only if each bit it probes is probed by an added key |
| `Blooms.ProbedLooks` | Example/Pods/leveldb-library/util/bloom.cc:49-59 | probe j of a key looks at bit (h + j * delta) mod 2^32 mod the number of bits, where delta is the hash rotated right by 17 bits |
| `Blooms.RotateSwaps` | Example/Pods/leveldb-library/util/bloom.cc:54-54 | rotating makes the upper 15 bits the lower ones |
| `Blooms.MatchesSharedProbes` | Example/Pods/leveldb-library/util/bloom.cc:35-87 | a filter matches a key if and only if each probe of the key is at the bit of some probe of some added key |
| `Blooms.MatchesSetProbes` | Example/Pods/leveldb-library/util/bloom.cc:63-87 | any filter, made with any number of probes, matches a key if and only if the bits of that many probes of the key are set |
| `Blooms.AddedKeysMatch` | Example/Pods/leveldb-library/util/bloom.cc:35-87 | no false negatives |
| `Blooms.BloomAdmits` | Example/Pods/leveldb-library/util/bloom.cc:17-88 | the Bloom filter is a policy the table reader can rely on |
| `FilterBlocks.FilterBlockBuilder.AddKey` | Example/Pods/leveldb-library/table/filter_block.cc:30-34 | one more pending key, kept flattened |
| `FilterBlocks.FilterBlockBuilder.GenerateFilter` | Example/Pods/leveldb-library/table/filter_block.cc:52-76 | the pending keys become the next filter; no keys give an empty one |
| `FilterBlocks.FilterBlockBuilder.StartBlock` | Example/Pods/leveldb-library/table/filter_block.cc:22-28 | filters up to the block's stretch of the file exist: the first new one from the pending keys, the rest empty |
| `FilterBlocks.FilterBlockBuilder.Finish` | Example/Pods/leveldb-library/table/filter_block.cc:36-50 | the block holds all filters, their offsets, where those start, and the base |
| `FilterBlocks.ReadsFilter` | Example/Pods/leveldb-library/table/filter_block.cc:78-109 | reading a written block tests a key against exactly the filter of the stretch its data block starts in, and anything beyond matches |
| `Tables.TableBuilder.Add` | Example/Pods/leveldb-library/table/table_builder.cc:92-121 | the entry goes to the end; the deferred index entry of a finished block separates it from this key; the block is written if and only if it is full |
| `Tables.TableBuilder.Flush` | Example/Pods/leveldb-library/table/table_builder.cc:123-137 | the data block, unless it is empty, goes into the file at the offset where the file ended, which grows by its size and five bytes; its keys are covered by the filter of that offset |
| `Tables.TableBuilder.Finish` | Example/Pods/leveldb-library/table/table_builder.cc:199-211 | the table holds exactly the added entries: every block is filed, indexed between its last key and the next one (the last one by lines 230-236), and matched by its filter |
| `Tables.AppendIndexes` | Example/Pods/leveldb-library/table/table_builder.cc:100-107 | a separator chosen only when the next key is known still separates all later keys |
| `Tables.FiltersKeepCover` | Example/Pods/leveldb-library/table/filter_block.cc:22-28 | starting a filter loses no key: each is matched by its block's filter or still pending for it |
| `Tables.GapHasNoKey` | Example/Pods/leveldb-library/table/table.cc:226-255 | if the key falls behind its block's last entry, the next entry is of another user key |
| `TableScans.TableIsSeparated` | Example/Pods/leveldb-library/table/table.cc:220-224 | the index and blocks of a finished table meet every condition of the two-level iterator, and the concatenation it iterates over is exactly the added entries |
| `TableScans.Divides` | Example/Pods/leveldb-library/table/table_builder.cc:100-107 | a separator is before an entry if and only if the entry comes after its block |
| `Tables.InternalGet` | Example/Pods/leveldb-library/table/table.cc:226-255 | through separators and filter, the first entry at or after the key is handed on whenever it is of the user key looked up, and nothing else but that entry ever is; the one block that the index leads to is read, unless the filter refuses the key or there is none |
| `StoredBlocks.KeyRoundTrip` | Example/Pods/leveldb-library/db/dbformat.h:176-185 | ParseInternalKey gives back the key that AppendInternalKey wrote |
| `StoredBlocks.RankIsOrder` | Example/Pods/leveldb-library/db/dbformat.cc:50-66 | encoded internal keys are ordered by the reals as the comparator orders the keys: user key up, then number and kind down |
| `StoredBlocks.FilesGoByKey` | Example/Pods/leveldb-library/db/version_set.cc:597-609 | the builder orders files by their smallest internal keys, user key first and newest first for one user key, and only files with equivalent ones by number |
| `StoredBlocks.SeekInBytes` | Example/Pods/leveldb-library/table/table.cc:241-246 | the bytes of any data block, read through a block iterator, give the key and value of the very entry that InternalGet hands on |
| `Tables.TableAnswersAsEntries` | Example/Pods/leveldb-library/table/table.cc:226-255 | with SaveValue's check, the table answers as a point lookup in its sorted entries does |

## Left out

* File system, threads, clocks and the strengths of memory orderings: every store and every
  critical section is one atomic step.
* The flush that may run inside a compaction (`Example/Pods/leveldb-library/db/db_impl.cc:886-895`)
  is scheduled in `Background`, but in `Store` a compaction is one step from input selection
  to install.
* I/O errors and shutdown in the middle of a compaction or of LogAndApply: an aborted
  compaction installs nothing, so it is no step of `Store`, and leaves its pick unlogged in
  `VersionSets`; a failed manifest write is not modelled.
* Which logs recovery looks at: those at or above the manifest's log number. A log below it
  is that of a flushed memtable, whose entries are in a synced table; in `CrashRecovery` and
  `RecoveredStores` such a log counts as one that is whole.
* Deleting obsolete files, and reference counts on versions and memtables.
* repair.cc, which puts every table at level 0, and C bindings, benchmarks and tools.
* Compaction scores and the seek budget: floating-point heuristics that only choose where
  to start. `Picking.PickCompaction` covers every starting file.
* Snappy and the block cache in front of the table reader; the cache itself is modelled.
* Corrupted blocks, tables and internal keys. The log reader, the edit decoder, the batch
  iterator and the filter reader are modelled on malformed input.
* Reading a log from an offset other than 0, which no caller in the repository asks for.
* The binary layout of footer, metaindex and block handles: in `Tables` a data block is
  filed under its offset as a list of entries, which `StoredBlocks` reads from bytes.
* Tables built without a filter policy: the builder always has one; the lookup covers both.
* The literal tables of the checksum: the model computes them from the polynomial, and the
  lemmas `Row01` to `Row80` state the listed entries that determine the others.
* The single-child case of NewMergingIterator, which returns the child itself.
* Everything outside LevelDB: the Objective-C headers, the application's interface code and
  its scripts.

- CrashRecovery.CrashRecovers: the sequence numbers fit in 64 bits and the updates fit the fields of a batch, as they do in every log a writer can fill; and no log holds a part of a record but at its end, where it is a record that was cut. `GroupCommit.WriteQueue.torn` tells the others; what is read of them depends on their bytes, as `CrashRecovery.TornRecordExample` shows, and `LogDamage` and `LogChecksums` say what never happens.
- CrashRecovery.CrashRecoversTheNumber: where a group was lost to an I/O error, its numbers are used up without an entry, and the last sequence number is only bounded, by `CrashRecovery.SurvivingWithin`.
- RecoveredStores.CrashReopens: that the flushed entries are among those that come back or were there at opening is a hypothesis, since recovery does not read the logs of flushed memtables.
- Background.Scheduler.End: the write through the empty slot is not modelled, only that the slot is empty.
- BoundaryRuns.StaleReadRun: user keys are positions, so that the user key 1.0 is two megabytes long is not expressed; file sizes are.
- Recovery.RecoverLogFile: the inserted entries keep the numbers of the record, which the code cuts to 56 bits when it packs them; the two agree for every number a writer gives out.
- Recovery.RecoverLogs: what was inserted when a paranoid recovery meets damage is left open, since opening then fails or, if only an earlier log was damaged, depends on where that log stopped.
- SkipLists.SkipList.FindAmongStores: the writer's stores are given as a list for each load, so after finitely many loads it pauses and the search ends; a search that is overtaken for ever is not described.
- GroupCommit.WriteQueue.InsertNext: sequence numbers are unbounded there; the limit of 56 bits is kept by `Store`.
- SkipLists.SkipList.Insert: keys are real numbers, which any comparator's order embeds in, and the two arrays of nodes and links are sequences.
- LruCaches.LruCache.Insert: entries are numbered in the order of their creation and are never reused, so freeing memory is the deleter's list.
- CompactionTheorems.CompactionKeepsMeaning: requires a clean cut, which the code does not check; `Boundary.CompactionKeepsMeaningIff` has the exact condition instead.
- Manifest.OneBuilderIsTheChain: requires that no number is added twice at a level; `Manifest.ReusedNumberComesBack` shows that it must.
- Blocks.BlockIter.Seek: requires a block smaller than 2^32 bytes, beyond which its offsets do not fit.
- Tables.TableBuilder.Finish: metaindex block, footer and the bytes of the handles are not written; the filter block is readable if its filters take less than 2^32 bytes, beyond which its offsets do not fit.
