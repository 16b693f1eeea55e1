# A verified model of LevelDB 1.15, an external merge sort and a heap file

Dafny 4.11. `dafny verify dfyconfig.toml` checks everything.

## What is modelled

The repository holds a complete LevelDB 1.15 (`a2/leveldb-1.15.0`), an external merge sort (`a2`) and a
paged heap file (`a1`).

**The database as a whole.** `Versions`, `Overlaps`, `Steps`, `Compactions` and `Manifest` model the tables
of a version, how a lookup walks them, how flushes, moves and compactions choose and replace them, and how
the manifest records that, and `Interleaving` what becomes of a compaction when memtables are flushed while
it runs. `DbState`, `WriteSteps`, `TableSteps`, `Recovery` and `Crashes` model the state in
memory and on disk, one lemma per step, with one inductive invariant; `DbImpl` is the open database as an
object whose methods are those steps. `WriteBatches` and `TornLogs` are the bytes of the write-ahead log.
`Database.Execute` draws them together: whatever list of commands is run, with crashes anywhere between steps
and the newest log cut off after any byte, the answers of reads and iterators are those of a plain map with
saved copies, and at every command the tables change as the code changes them: the trace of the run says which
moves, compactions and flushes happen. `TableFiles` is a state machine of its own for which table files may be
deleted when, `VersionEdits` the bytes of manifest records, and `ManifestBytes` recovery from a manifest file
and numbered table files.

The simple specification everything refers to is in `DbFormat`: a set of entries (user key, sequence
number, type, value), and a read at snapshot `s` is the newest entry of the key with a number at most `s`.

**Iterators.** `Merger`, `TwoLevel` and `DbIter` are the bidirectional iterators with their direction
switches; each is proved to act as one position in one sorted list under every program of calls.
`Snapshots` puts `DbIter` over `Merger` over the memtables and tables.

**Structures and formats.** `SkipLists` is the memtable's list store by store, with readers interleaved
load by load, and `MemTables` the memtable made of it and of encoded entries. `LogFormat`/`LogReader` are the
write-ahead log, `Fragments` says how records lie in its blocks, `IntactRecords` what its reader makes of arbitrary
bytes and damaged records, and `TornTails` what it reports of a cut. `Blocks` is the prefix-compressed block,
`Tables` the table with shortened index keys, `Filters` the Bloom filter and the filter block, and
`TableFormat`/`TableWriter` the table as a file: a lookup through its bytes is a linear search. `LruCache` is
one shard of the block cache and `LruOrder` what its order means in terms of the calls made; `Coding` is integers
and bits.

**Concurrency.** `WriteQueue` is `DBImpl::Write` as a state machine over many threads: one step per stretch
of code under the mutex, plus the log append and each single memtable insertion of the leader. `GroupCommit`
shows that its runs do to the database what one write after another does.

**The repository's own code.** `ExternalSort` is `msort.cc` with `mk_runs` and `RunIterator`; `Pages`, `Sheets`
and `HeapFiles` are the slotted page, the record codec, what a heap file stands for, and the heap file with its
one-page write-back cache.

## Where the code does less than it promises

* Input selection of a compaction compares file ranges and may split one user key between a chosen and an
  unchosen file of the same level. `Boundaries.SplitByCompaction` makes such a version with the compaction loop
  itself, `Boundaries.SplitKeyGoesStale` then lets the selection and the move run on it, and a read returns the
  overwritten value. `Boundaries.DeletedKeyReturns` does the same at the next level: a tombstone is dropped and
  a deleted key can be read again. `Compactions.CompactionHarmlessIff` and `Steps.TrivialMoveSafeIff` say exactly
  when a compaction or a move does no harm, `SplitKeys.KeepsInvIffNoneMovesPast` and
  `Steps.NothingOlderIffNoSplit` reduce that to neighbouring files, and `SplitKeys.SameGetsIff` and
  `SplitKeys.SameGetsAfterMoveIff` say exactly when `Get` notices. `Database.Execute` performs all those that do
  no harm, and no others: the condition for each is part of `Database.Begun` and `Database.Ended`.
* A manual compaction may take files with a gap between them. A memtable flushed meanwhile can go into the gap,
  to the level the outputs go to; then the level's files overlap and a search misses keys that are there:
  `Boundaries.GapLosesWrite`. `Interleaving.InstalledInvIff` is the exact condition,
  `Interleaving.ClearIffNoneStraddles` states it by the gaps, and
  `TableSteps.PickedIsClear` says that compactions picked by size always meet it.
* The external sort loses its whole input, without an error, when not even one record fits in memory:
  `ExternalSort.MSort` gives the exact condition.
* A stored log record type of 5 or 6 is taken for the reader's own end-of-file and bad-record marks instead of
  being reported as an unknown type: `LogReader.TypeFiveHidesTheRest` and `LogReader.TypeSixIsNotReported` are
  two such files, `LogReader.RecordsAgreeIff` says exactly when no record is lost by it, and
  `LogReader.ReportsAgreeIff` when no report is.
* The reader of the manifest reports a record that was cut off, and recovery takes any report for a failure. So
  a crash while the record of a new version is being written can leave a database that does not open:
  `ManifestBytes.OpenAfterCrash` gives the exact condition, and `TornTails.CutReportsIff` the reason.
* `get_record` does not look at the slot's flag: `Sheets.DeletedIsStillRead`. `Sheets.GetIsRightIff` says exactly
  when a get is right, and `Sheets.GetIsLastWritten` what it returns in any case.
* `VersionEdit::Clear` leaves the compaction pointers, so decoding into an edit already used adds to them:
  `VersionEdits.RoundTripIff` gives the exact condition. The code decodes into new edits only.
* A flushed table stops being pending before it is installed. `TableFiles.DeletingHarmlessIff` says exactly when a
  deletion by another thread would be harmless; only the single background thread makes it so.

## Model

| member | source | states |
|---|---|---|
| Database.Execute | a2/leveldb-1.15.0/db/db_impl.cc:655-1235 | Every list of writes, reads, iterator walks, snapshot calls, memtable switches, flushes, moves, log file deletions, compactions that begin at one command and end at a later one, and crashes, also between logging and publishing a batch and with the newest log cut after any byte, answers exactly as a plain map with saved copies does, and at every one of its commands the tables change as they should: which files a compaction takes, when it moves one, starts, installs its outputs or does not, and where a flush puts its table |
| Database.DoCommand | a2/leveldb-1.15.0/db/db_impl.cc:655-738 | One command of such a run: the database still stands for the map, the answer is the map's, and the version, the logs, the snapshots and the compaction under way become what the command makes of them |
| Database.DoWriteThenCrash | a2/leveldb-1.15.0/db/db_impl.cc:1191-1213 | A crash after a batch went to the log but before it was published: after reopening, the batch is there, whole, exactly when its record lies before the cut |
| Database.CrashAndOpen | a2/leveldb-1.15.0/db/db_impl.cc:362-455 | Whatever is left of the newest log's bytes, reopening shows the map after exactly the recent writes whose records are whole |
| Database.AllReached | a2/leveldb-1.15.0/db/db_impl.cc:1191-1199 | A crash that cuts nothing off the log loses no write |
| Database.LeftShows | a2/leveldb-1.15.0/db/db_impl.cc:1181-1213 | Without the batches lost from the newest log, the history shows the map after the writes that are left |
| Database.DoIterate | a2/leveldb-1.15.0/db/db_impl.cc:1124-1134 | An iterator at the latest state or at a snapshot, under any program of calls, observes what a walk over that map observes |
| Database.DoBegin | a2/leveldb-1.15.0/db/db_impl.cc:655-700 | Nothing happens while a compaction is under way or with no file to take; otherwise, for exactly the inputs that the pointer or the key range determines, a trivial move happens exactly when it keeps the order of the levels, and any other compaction starts, at the oldest sequence number that is still read and with outputs that hold exactly the entries no later visible write hides and no tombstone that hides nothing below, exactly when it does no harm; what the database stands for stays |
| Database.DoEnd | a2/leveldb-1.15.0/db/db_impl.cc:980-1005 | With a compaction under way the new version is the old one with its outputs in place of its inputs if and only if the inputs were picked by size or the outputs are clear of the tables flushed meanwhile; otherwise the version stays; what the database stands for stays too |
| Database.DoFlush | a2/leveldb-1.15.0/db/db_impl.cc:503-534 | The version gains the memtable's table at the level picked for it, the memtable is gone, and from then on only the newest log is needed |
| Database.DoDelete | a2/leveldb-1.15.0/db/db_impl.cc:218-265 | Exactly the log files still needed are left, and nothing else changes |
| Overlaps.IsTrivialMove | a2/leveldb-1.15.0/db/version_set.cc:1431-1438 | The move branch is taken exactly for one input file, nothing to merge with and little overlap two levels down |
| DbFormat.LookupKeySplits | a2/leveldb-1.15.0/db/dbformat.cc:121-138 | A lookup key lies before exactly the entries of its user key that the snapshot can see (and all larger user keys) |
| DbFormat.ReadIgnoresInvisible | a2/leveldb-1.15.0/db/db_impl.cc:1083-1104 | A read at a snapshot's sequence number is not changed by newer entries in memtables and tables |
| Versions.FindFile | a2/leveldb-1.15.0/db/version_set.cc:91-110 | Binary search returns the first file whose largest key is at or after the target |
| Versions.SearchIsFirst | a2/leveldb-1.15.0/db/version_set.cc:91-110 | The search ends there in every level that is ordered and without overlaps |
| Versions.SearchSortedLevel | a2/leveldb-1.15.0/db/version_set.cc:378-396 | In a sorted level the one file searched holds the newest visible entry of the level, or the level has none |
| Versions.SearchLevelZero | a2/leveldb-1.15.0/db/version_set.cc:362-378 | Searching covering level-0 files from newest to oldest finds the newest visible entry of the level |
| Versions.Get | a2/leveldb-1.15.0/db/version_set.cc:337-434 | The search equals the level-by-level definition, and under the recency order it equals the newest visible entry of all files together |
| Versions.SearchIsRead | a2/leveldb-1.15.0/db/version_set.cc:347-434 | Stopping at the shallowest level with a visible entry loses nothing when newer entries are never deeper |
| Versions.InvSeqUnique | a2/leveldb-1.15.0/db/version_set.cc:337-434 | The version invariant leaves no sequence number twice under one user key |
| Overlaps.OverlapInLevel | a2/leveldb-1.15.0/db/version_set.cc:126-157 | The answer is true if and only if some file of the level meets the range, by scan or by binary search |
| Overlaps.PickLevelForMemTableOutput | a2/leveldb-1.15.0/db/version_set.cc:507-533 | The chosen level and all above it meet no file of the range; the search stops early exactly for an overlap one level down or too many bytes two levels down, and passes no level below which there are too many |
| Overlaps.RestartWidens | a2/leveldb-1.15.0/db/version_set.cc:559-573 | Each restart at level 0 leaves strictly fewer file ends outside the range |
| Overlaps.GetOverlappingInputs | a2/leveldb-1.15.0/db/version_set.cc:536-577 | Terminates; away from level 0 returns exactly the files meeting the range, at level 0 the least set that contains those and is closed under overlap; in both cases in the order of the level |
| Overlaps.GetRange | a2/leveldb-1.15.0/db/version_set.cc:1190-1210 | A smallest key of some input that no input's smallest key precedes, and a largest key of some input that precedes no input's largest key, in internal key order |
| Overlaps.SetupOtherInputs | a2/leveldb-1.15.0/db/version_set.cc:1311-1352 | The next level's inputs are exactly its files in the range of what was picked; the level's own inputs stay as picked unless something lies below, taking all files that go with both is more, stays below the size limit and meets no more files below: then they are those files |
| Overlaps.PickCompaction | a2/leveldb-1.15.0/db/version_set.cc:1264-1308 | What is picked is the first file after the compaction pointer, wrapping around, and at level 0 with it exactly all files it overlaps, directly or through others; the inputs are what is set up from that |
| Overlaps.CompactRange | a2/leveldb-1.15.0/db/version_set.cc:1376-1410 | Below level 0 what is picked is the shortest beginning of the files meeting the range, in the order of the level, whose sizes reach the limit, or all of them; at level 0 it is the least set that covers the range and is closed under overlap. The inputs are exactly that, or what setting up expands it to; nothing exactly when no file meets the range |
| Overlaps.TryMore | a2/leveldb-1.15.0/db/version_set.cc:1325-1350 | The inputs of the level grow exactly when the files that go with everything taken are more, with those below stay under the size limit, and bring in no more files below |
| Overlaps.SameBelow | a2/leveldb-1.15.0/db/version_set.cc:1329-1333 | As many files of the next level as before are the same files as before |
| Overlaps.SolidGrows | a2/leveldb-1.15.0/db/version_set.cc:1311-1352 | Files that meet the range of inputs without a gap leave no gap to them |
| Overlaps.SolidLeast | a2/leveldb-1.15.0/db/version_set.cc:536-577 | Nor does the least set closed under overlap that level 0 takes |
| Steps.FlushKeepsInv | a2/leveldb-1.15.0/db/db_impl.cc:457-501 | Adding a new table at the level picked for it keeps levels disjoint and newer entries shallower |
| Steps.UnchosenStandsClear | a2/leveldb-1.15.0/db/version_set.cc:1311-1352 | A file of the next level left out of a compaction is disjoint from everything the compaction writes |
| Steps.ReplaceKeepsInv | a2/leveldb-1.15.0/db/db_impl.cc:834-852 | Replacing the inputs of a compaction by sorted outputs within their range keeps the version invariant if and only if the files left at the level hold nothing older of a key that moved down |
| Steps.NothingOlderIffNoSplit | a2/leveldb-1.15.0/db/version_set.cc:1311-1352 | No older entry of an input's user key stays behind if and only if no unchosen neighbour starts with the user key a chosen file ends with |
| Steps.LevelZeroLeavesNothing | a2/leveldb-1.15.0/db/version_set.cc:1290-1302 | At level 0 the selection always satisfies the boundary condition |
| Steps.TrivialMoveSafeIff | a2/leveldb-1.15.0/db/db_impl.cc:683-693 | A move keeps the version invariant if and only if the level's next file does not start with the user key the moved file ends with |
| Steps.MoveKeepsContents | a2/leveldb-1.15.0/db/db_impl.cc:683-693 | A move changes the contents of no version |
| Boundaries.SplitByCompaction | a2/leveldb-1.15.0/db/db_impl.cc:855-976 | With a snapshot between two writes of one key, the compaction of level 0 keeps both entries and, at 2 MB a file, cuts its output between them |
| Boundaries.SplitKeyGoesStale | a2/leveldb-1.15.0/db/version_set.cc:1257-1308 | From that version the selection takes the first file alone, finds the move trivial and moves it; a read then returns the overwritten value |
| Boundaries.DeletedKeyReturns | a2/leveldb-1.15.0/db/db_impl.cc:924-937 | A tombstone that ends an input file of the next level is dropped as the last of its key while the value starts the neighbouring file: a deleted key can be read again, wherever outputs are cut |
| Boundaries.GapLosesWrite | a2/leveldb-1.15.0/db/db_impl.cc:884-895 | A manual compaction of two files with a gap between them, a memtable with a key in the gap flushed meanwhile to the level of the outputs, and a search of that level that misses the key |
| Compactions.Compaction.constructor | a2/leveldb-1.15.0/db/version_set.cc:1413-1423 | The level pointers start before every key |
| Compactions.Compaction.IsBaseLevelForKey | a2/leveldb-1.15.0/db/version_set.cc:1448-1467 | On nondecreasing keys the moving pointers give the answer of a full scan of all deeper levels |
| Compactions.ShouldDrop | a2/leveldb-1.15.0/db/db_impl.cc:903-939 | The running current key and last sequence decide exactly the two drop rules; what they leave is stated without them by OutputsAreWhatStays |
| Compactions.DoCompactionWork | a2/leveldb-1.15.0/db/db_impl.cc:894-976 | An entry is in the output files if and only if it was in the input, no later write of its key is visible to the oldest reader, and it is not a tombstone visible to that reader below which no deeper level has the key; the files hold these entries in order, and a file ends after an entry exactly when the file was big enough then, or the next entry was one to stop before, or none stays after it |
| Compactions.SurvivorsAre | a2/leveldb-1.15.0/db/db_impl.cc:918-939 | An entry survives if and only if neither drop rule applies to it |
| Compactions.OutputsAreWhatStays | a2/leveldb-1.15.0/db/db_impl.cc:903-939 | Output files hold the entries that survive the loop if and only if they hold those entries of the input that are the newest visible of their key or newer than the oldest reader, but no tombstone whose key no deeper level has |
| Compactions.StaysIffRead | a2/leveldb-1.15.0/db/db_impl.cc:903-939 | In terms of readers: an entry of the input stays if and only if some reader from the oldest on finds it as the newest of its key in the input, unless it is a tombstone that the oldest reader sees and no deeper level has its key |
| Compactions.CompactionKeepsInv | a2/leveldb-1.15.0/db/db_impl.cc:855-1012 | Installing the outputs keeps levels disjoint and newer entries shallower if and only if the files left at the level hold nothing older of a surviving key |
| Compactions.LevelZeroKeepsInv | a2/leveldb-1.15.0/db/version_set.cc:1290-1302 | From level 0 that condition always holds |
| Compactions.TombstoneMissed | a2/leveldb-1.15.0/db/db_impl.cc:924-937 | A tombstone dropped from above a value that stays behind brings that value back |
| Compactions.CompactionKeepsReadsIff | a2/leveldb-1.15.0/db/db_impl.cc:903-939 | The tables read the same at every snapshot from the smallest live one on if and only if no dropped tombstone was all that hid a value in a file left at the two levels |
| Compactions.CompactionHarmlessIff | a2/leveldb-1.15.0/db/db_impl.cc:855-1012 | A compaction keeps the version invariant and all live reads if and only if both conditions hold |
| Compactions.CompactionKeepsReads | a2/leveldb-1.15.0/db/db_impl.cc:855-976 | Where no value returns, every user key reads the same before and after at every snapshot at or above the smallest live one, whatever the memtables hold on top |
| SplitKeys.KeepsInvIffNoneMovesPast | a2/leveldb-1.15.0/db/version_set.cc:1311-1352 | Below level 0 a compaction keeps the version invariant if and only if no entry survives of a user key with which a chosen file ends and an unchosen one after it starts |
| SplitKeys.SameGetsIff | a2/leveldb-1.15.0/db/version_set.cc:337-434 | Whether or not the invariant holds afterwards, Get returns what it returned before at every snapshot from the smallest live one on if and only if, for every input entry that one of them reads, the next older entry left at the level answers alike, or where there is none and the entry is a dropped tombstone, the one left one level down |
| SplitKeys.SameGetsAfterMoveIff | a2/leveldb-1.15.0/db/db_impl.cc:683-693 | After a trivial move Get returns what it returned before at every snapshot if and only if every entry of the file is answered alike by the next older one left at its level |
| Manifest.Builder.Apply | a2/leveldb-1.15.0/db/version_set.cc:670-713 | Deleted and added sets after an edit, exactly, including that a re-added number is no longer deleted |
| Manifest.Builder.SaveTo | a2/leveldb-1.15.0/db/version_set.cc:716-762 | Every level is sorted and holds exactly base and added files that are not deleted |
| Manifest.MergeLevel | a2/leveldb-1.15.0/db/version_set.cc:722-745 | The merge of base and added files is sorted and complete |
| Manifest.RecoverVersion | a2/leveldb-1.15.0/db/version_set.cc:952-1019 | One builder over all edits gives, list for list, the version reached by applying the edits one at a time, when no edit re-adds a number |
| Manifest.ApplyEdit | a2/leveldb-1.15.0/db/version_set.cc:848-853 | The version built from the current one and an edit is the edited version |
| Versions.SameFilesSameList | a2/leveldb-1.15.0/db/version_set.cc:611-623 | The order of files in a level is determined by the set of files |
| ManifestBytes.BareReplays | a2/leveldb-1.15.0/db/version_set.cc:952-1019 | The file lists of a version follow from the edits without any table's contents |
| ManifestBytes.DecodeOneIs | a2/leveldb-1.15.0/db/version_edit.cc:41-210 | A manifest record gives back the edit it was written from, and only the ends of its tables |
| ManifestBytes.RecoverManifest | a2/leveldb-1.15.0/db/version_set.cc:910-1023 | A manifest file cut off after any byte is recovered if and only if the cut leaves nothing of a record that is not whole, because any report of the reader is fatal; then the version, taken from the bytes and the numbered table files, is that of the whole records, table for table, with their log, file and sequence numbers |
| ManifestBytes.OpenFiles | a2/leveldb-1.15.0/db/db_impl.cc:274-357 | Opening the bytes of a manifest, numbered tables and logs gives, under that condition, a valid database for the same history |
| ManifestBytes.OpenAfterCrash | a2/leveldb-1.15.0/db/version_set.cc:825-908 | When the process dies while the record of a new version is being written, the database opens if and only if the record is all there or nothing of it is but the filler before it, and then it is valid for the same history, with the new version or the old one |
| ManifestBytes.EditIsApply | a2/leveldb-1.15.0/db/version_set.cc:848-853 | What an edit does to a version, at whatever levels, the table files see as numbers going and tables coming |
| VersionEdits.VersionEdit.EncodeTo | a2/leveldb-1.15.0/db/version_edit.cc:41-86 | The bytes are the fields of the edit, in the order written, each behind its tag |
| VersionEdits.VersionEdit.DecodeFrom | a2/leveldb-1.15.0/db/version_edit.cc:109-210 | Fields are stored as they are found up to the first fault, which is named; an edit used before keeps its compaction pointers |
| VersionEdits.ItemsRoundTrip | a2/leveldb-1.15.0/db/version_edit.cc:41-210 | A list of fields comes back with no fault |
| VersionEdits.EditRoundTrip | a2/leveldb-1.15.0/db/version_edit.cc:41-210 | An edit decoded into another gives its own fields, and its compaction pointers behind those that were there |
| VersionEdits.RoundTripIff | a2/leveldb-1.15.0/db/version_edit.cc:26-39 | Decoding gives back the encoded edit if and only if the receiving edit held no compaction pointers, which Clear leaves |
| DbState.ValidIsRecoverable | a2/leveldb-1.15.0/db/db_impl.cc:274-357 | From any valid state, the manifest's tables plus the logs at or above its log number hold exactly the entries of memtables and current version, within the recorded bounds |
| DbState.SettledReads | a2/leveldb-1.15.0/db/db_impl.cc:1083-1104 | Tables and memory together read like the whole history of writes at every snapshot from the horizon on |
| DbState.SettledFewer | a2/leveldb-1.15.0/db/db_impl.cc:362-455 | The same holds when only part of what was in memory survives, for the history with only that part |
| DbState.SettledMore | a2/leveldb-1.15.0/db/db_impl.cc:1191-1213 | The same holds when newer writes come into memory |
| DbState.SettledMoved | a2/leveldb-1.15.0/db/db_impl.cc:503-534 | The same holds when the older part of memory moves into tables |
| Crashes.TornRecoverable | a2/leveldb-1.15.0/db/db_impl.cc:274-357 | A disk whose newest log lost its last batches is recoverable, for the history without those batches and nothing else missing |
| WriteSteps.Insert | a2/leveldb-1.15.0/db/memtable.cc:82-106 | The memtable stays sorted and gains exactly the entry |
| MemTables.EntryRoundTrip | a2/leveldb-1.15.0/db/memtable.cc:82-138 | The bytes of an entry give back its user key, its tag and its value |
| MemTables.KeyReadIs | a2/leveldb-1.15.0/db/memtable.cc:28-34 | The comparator, which decodes the entries it is given, sees their internal keys |
| MemTables.MemTable.Add | a2/leveldb-1.15.0/db/memtable.cc:82-106 | With its bytes in the arena and their place in the skip list, the memtable is the sorted list with the entry inserted |
| MemTables.MemTable.Get | a2/leveldb-1.15.0/db/memtable.cc:108-138 | Seeking in the skip list and reading the bytes found there answers as the search of the sorted list does: a value, deleted, or nothing known |
| MemTables.MemTable.InsertRecord | a2/leveldb-1.15.0/db/write_batch.cc:111-134 | Inserting the bytes of a log record makes the memtable the sorted list with the whole batch inserted |
| MemTables.LeastIsSeek | a2/leveldb-1.15.0/db/skiplist.h:259-278 | The least rank at or after that of a lookup key belongs to the entry at which a linear search ends |
| WriteSteps.LogWriteValid | a2/leveldb-1.15.0/db/db_impl.cc:1181-1192 | From the moment a batch is in the log it is part of the history though still invisible |
| WriteSteps.PublishValid | a2/leveldb-1.15.0/db/db_impl.cc:1200-1213 | Inserting the logged batch and advancing the last sequence keeps the state valid |
| WriteSteps.SwitchValid | a2/leveldb-1.15.0/db/db_impl.cc:1323-1343 | Switching to a new log and memtable keeps the state valid and recoverable |
| WriteSteps.DeleteObsoleteValid | a2/leveldb-1.15.0/db/db_impl.cc:218-272 | Deleting logs below the log number loses nothing recovery needs |
| TableFiles.StepKeepsInv | a2/leveldb-1.15.0/db/db_impl.cc:218-272 | No step of flushes, moves, compactions, readers, installation, deletion or a crash loses a table that a version in use, a running compaction or the manifest needs |
| TableFiles.NothingMissing | a2/leveldb-1.15.0/db/db_impl.cc:218-272 | In every run, at every moment, the tables of the current version and of every version still held are on disk, whole |
| TableFiles.NothingLostInCrash | a2/leveldb-1.15.0/db/version_set.cc:855-908 | Whenever the process dies, the manifest means the current version or the one just recorded, and all its tables are on disk |
| TableFiles.ExactlyNeededLeft | a2/leveldb-1.15.0/db/db_impl.cc:224-262 | In every run, right after a deletion the tables on disk are those of versions in use, all of them, and besides at most the outputs of the compaction under way; without one, exactly those |
| TableFiles.DeletingHarmlessIff | a2/leveldb-1.15.0/db/db_impl.cc:463-480 | A deletion by another thread, at any moment of any run, is harmless if and only if no flushed table has stopped being pending without being installed; otherwise that table is missing once it is installed |
| TableSteps.FlushValid | a2/leveldb-1.15.0/db/db_impl.cc:503-534 | Installing the flushed memtable, with the new log number, keeps the state valid |
| TableSteps.ManifestExtends | a2/leveldb-1.15.0/db/version_set.cc:825-908 | Appending an edit to the manifest describes the new version and keeps every recorded bound |
| TableSteps.MoveValid | a2/leveldb-1.15.0/db/db_impl.cc:683-693 | Such a move through the manifest keeps the state valid |
| TableSteps.RunningThroughFlush | a2/leveldb-1.15.0/db/db_impl.cc:884-895 | A flush while a compaction is under way does not disturb it |
| TableSteps.FinishValid | a2/leveldb-1.15.0/db/db_impl.cc:834-852 | Installing the outputs of a compaction keeps the state valid, however many memtables were flushed meanwhile, when they are clear of the flushed tables |
| TableSteps.PickedIsClear | a2/leveldb-1.15.0/db/version_set.cc:1264-1308 | For inputs picked by size they always are |
| Interleaving.SolidIsClear | a2/leveldb-1.15.0/db/version_set.cc:507-533 | A table flushed while a compaction of inputs without a gap runs lies to one side of all its outputs |
| Interleaving.InstalledInv | a2/leveldb-1.15.0/db/db_impl.cc:834-852 | Installing a compaction on a version that has grown by flushes keeps the version invariant under the same condition as at once, if the outputs are clear of the flushed tables |
| Interleaving.InstalledInvIff | a2/leveldb-1.15.0/db/db_impl.cc:834-852 | It keeps the version invariant if and only if both hold |
| Interleaving.ClearIffNoneStraddles | a2/leveldb-1.15.0/db/version_set.cc:1376-1410 | The outputs are clear of the flushed tables if and only if no flushed table lies in a gap of the inputs that one output reaches across |
| Interleaving.InstalledReads | a2/leveldb-1.15.0/db/db_impl.cc:855-1012 | And it changes what no live snapshot reads |
| Recovery.RecoverLogFile | a2/leveldb-1.15.0/db/db_impl.cc:362-455 | Replaying the batches of a log puts exactly its entries into new level-0 tables, later tables newer, and tracks the greatest sequence number |
| Recovery.RecoverLogs | a2/leveldb-1.15.0/db/db_impl.cc:304-357 | All needed logs are replayed in order, their numbers are marked used, and the recovered last sequence bounds every entry |
| Recovery.RecoveredInv | a2/leveldb-1.15.0/db/db_impl.cc:362-455 | The version with the recovered tables satisfies the version invariant |
| Recovery.SnapshotReplays | a2/leveldb-1.15.0/db/version_set.cc:1068-1096 | A manifest holding only the snapshot edit replays to the version it was taken of |
| Recovery.OpenedValid | a2/leveldb-1.15.0/db/db_impl.cc:274-357 | Whatever recoverable disk is opened, the opened database is valid for the same history |
| Recovery.NewDbRecoverable | a2/leveldb-1.15.0/db/db_impl.cc:177-207 | A newly created database recovers to the empty history |
| DbImpl.AssignSequence | a2/leveldb-1.15.0/db/write_batch.cc:112-127 | Operations of a batch get consecutive sequence numbers in order |
| DbImpl.Lookup | a2/leveldb-1.15.0/db/db_impl.cc:1077-1122 | Memtable, then immutable memtable, then tables: the newest visible entry of all three together |
| DbImpl.StartCompaction | a2/leveldb-1.15.0/db/db_impl.cc:855-976 | Merging, dropping and cutting the inputs of a harmless selection gives a compaction under way: the survivors of the merged inputs, cut where outputs end, with file numbers of its own |
| DbImpl.FinishCompaction | a2/leveldb-1.15.0/db/db_impl.cc:834-852 | Installing its outputs later makes the version it has become the one with the outputs in place of the inputs, and keeps the database valid for the same history |
| DbImpl.MoveFile | a2/leveldb-1.15.0/db/db_impl.cc:683-693 | The version has the file one level down and is otherwise the same; the database stays valid when the level keeps nothing older of its keys |
| DbImpl.DBImpl.Open | a2/leveldb-1.15.0/db/db_impl.cc:274-357 | Opening what a crash left gives a valid database with the same history and no snapshots |
| DbImpl.DBImpl.CrashSafe | a2/leveldb-1.15.0/db/db_impl.cc:274-357 | Between any two steps the disk alone suffices to open the database again |
| DbImpl.DBImpl.LogBatch | a2/leveldb-1.15.0/db/db_impl.cc:1162-1192 | The group's updates get the next sequence numbers and go to the newest log |
| DbImpl.DBImpl.PublishBatch | a2/leveldb-1.15.0/db/db_impl.cc:1200-1213 | The logged batch becomes visible as a whole |
| DbImpl.DBImpl.MakeRoom | a2/leveldb-1.15.0/db/db_impl.cc:1323-1343 | The switch of memtable and log, as a step of the open database |
| DbImpl.DBImpl.CompactMemTable | a2/leveldb-1.15.0/db/db_impl.cc:503-534 | The flush, as a step of the open database: the immutable memtable is a table at the level picked for it, nothing else changes for readers |
| DbImpl.DBImpl.DeleteObsoleteFiles | a2/leveldb-1.15.0/db/db_impl.cc:218-272 | Removal of old logs, as a step of the open database |
| DbImpl.DBImpl.BeginCompaction | a2/leveldb-1.15.0/db/db_impl.cc:655-700 | A compaction under way, beside the open database |
| DbImpl.DBImpl.EndCompaction | a2/leveldb-1.15.0/db/db_impl.cc:980-1005 | Its end: the outputs replace the inputs, the horizon rises to the snapshot that was smallest when it began, and nothing in memory changes |
| DbImpl.DBImpl.TrivialMove | a2/leveldb-1.15.0/db/db_impl.cc:683-693 | Such a move, as a step of the open database: exactly that file goes one level down |
| DbImpl.DBImpl.Get | a2/leveldb-1.15.0/db/db_impl.cc:1077-1122 | At the latest sequence and at every live snapshot the answer is the newest entry of the whole history |
| Merger.MergingIterator.Seek | a2/leveldb-1.15.0/table/merger.cc:51-57 | The position is that of a cursor seeking in the sorted union of the children |
| Merger.MergingIterator.SeekToFirst | a2/leveldb-1.15.0/table/merger.cc:35-41 | The first entry of the union |
| Merger.MergingIterator.SeekToLast | a2/leveldb-1.15.0/table/merger.cc:43-49 | The last entry of the union |
| Merger.MergingIterator.Next | a2/leveldb-1.15.0/table/merger.cc:59-83 | One step forward in the union, also right after moving backward |
| Merger.MergingIterator.Prev | a2/leveldb-1.15.0/table/merger.cc:85-112 | One step backward in the union, also right after moving forward |
| Merger.RunProgram | a2/leveldb-1.15.0/table/merger.cc:35-183 | Every program of calls observes what a cursor on the sorted union observes |
| TwoLevel.TwoLevelIterator.SkipEmptyDataBlocksForward | a2/leveldb-1.15.0/table/two_level_iterator.cc:125-136 | Empty blocks are passed without moving the position in the concatenation |
| TwoLevel.TwoLevelIterator.SkipEmptyDataBlocksBackward | a2/leveldb-1.15.0/table/two_level_iterator.cc:138-149 | Going back over empty blocks ends at the last entry before the position |
| TwoLevel.TwoLevelIterator.InitDataBlock | a2/leveldb-1.15.0/table/two_level_iterator.cc:156-171 | The data iterator is over the indexed block, or absent past the last one |
| TwoLevel.TwoLevelIterator.Seek | a2/leveldb-1.15.0/table/two_level_iterator.cc:91-96 | Seeking through index keys is seeking in the concatenation of all blocks |
| TwoLevel.RunProgram | a2/leveldb-1.15.0/table/two_level_iterator.cc:91-171 | Every program of calls observes what a cursor on the concatenation observes, empty blocks or not |
| DbIter.ViewIsRead | a2/leveldb-1.15.0/db/db_iter.cc:173-203 | The entries shown are exactly those that reads at the sequence return |
| DbIter.DBIter.FindNextUserEntry | a2/leveldb-1.15.0/db/db_iter.cc:173-203 | A forward scan stops at the next shown entry, passing only hidden ones |
| DbIter.DBIter.FindPrevUserEntry | a2/leveldb-1.15.0/db/db_iter.cc:232-272 | A backward scan ends with the previous shown entry saved and the internal iterator before its user key |
| DbIter.DBIter.Next | a2/leveldb-1.15.0/db/db_iter.cc:146-171 | One step forward in the view, in either direction of travel |
| DbIter.DBIter.Prev | a2/leveldb-1.15.0/db/db_iter.cc:205-230 | One step backward in the view, in either direction of travel |
| DbIter.DBIter.Seek | a2/leveldb-1.15.0/db/db_iter.cc:274-286 | The first user key of the view at or after the target |
| DbIter.DBIter.SeekToFirst | a2/leveldb-1.15.0/db/db_iter.cc:288-297 | The first user key of the view |
| DbIter.DBIter.SeekToLast | a2/leveldb-1.15.0/db/db_iter.cc:299-304 | The last user key of the view |
| DbIter.RunProgram | a2/leveldb-1.15.0/db/db_iter.cc:146-304 | Over a merging iterator, every program of calls, through any number of direction changes, observes what a cursor on the snapshot's user map observes |
| Snapshots.ListsMergeable | a2/leveldb-1.15.0/db/db_impl.cc:1035-1064 | The memtables, each level-0 table and each deeper level as one run have no entry in common and can be merged |
| Snapshots.MergedIsAll | a2/leveldb-1.15.0/db/db_impl.cc:1035-1064 | The merged lists hold exactly what the memtables and the tables hold |
| Snapshots.OneListing | a2/leveldb-1.15.0/db/db_iter.cc:173-203 | Two walks that show each key of a map once, in order, with its value, are alike |
| Snapshots.Walk | a2/leveldb-1.15.0/db/db_impl.cc:1124-1134 | DBIter over the merging iterator over memtables and tables, at any sequence number that reads as a map, observes what a walk over that map observes |
| LogFormat.UnmaskMask | a2/leveldb-1.15.0/util/crc32c.h:31-40 | Unmask undoes Mask on every 32-bit value |
| LogFormat.MaskUnmask | a2/leveldb-1.15.0/util/crc32c.h:31-40 | Mask undoes Unmask on every 32-bit value |
| LogFormat.Writer.EmitPhysicalRecord | a2/leveldb-1.15.0/db/log_writer.cc:75-103 | Header and payload are appended and the block offset follows |
| LogFormat.Writer.AddRecord | a2/leveldb-1.15.0/db/log_writer.cc:27-73 | The loop appends exactly the fragmentation that the file length determines |
| Fragments.RecordLies | a2/leveldb-1.15.0/db/log_writer.cc:27-103 | What is appended is the record in fragments that each lie whole within one block and follow one another; only a full block makes the record go on in the next; fewer than seven bytes left in a block are zero; and the types say which fragment is first, last, both or neither |
| LogReader.Reader.ReadPhysicalRecord | a2/leveldb-1.15.0/db/log_reader.cc:179-256 | The buffered reading loop equals the definition on file offsets, reports included |
| LogReader.Reader.Read | a2/leveldb-1.15.0/db/log_reader.cc:59-162 | The reassembly loop equals the definition, reports included |
| IntactRecords.ReturnedIffStands | a2/leveldb-1.15.0/db/log_reader.cc:179-256 | With checksums on, a header and payload that are whole within the block, and not filler, are returned if and only if their check bytes are those the writer would have written; otherwise there is a bad mark and one report, and the rest of the block is dropped |
| IntactRecords.UncheckedIsReturned | a2/leveldb-1.15.0/db/log_reader.cc:228-239 | With checksums off they are returned whatever their check bytes |
| IntactRecords.ZerosAreSkipped | a2/leveldb-1.15.0/db/log_reader.cc:217-226 | A header of type and length zero ends the block without a report |
| IntactRecords.ReturnedStands | a2/leveldb-1.15.0/db/log_reader.cc:179-256 | With checksums on, every physical record returned lies in the file as the writer would have written it |
| IntactRecords.RecordsStand | a2/leveldb-1.15.0/db/log_reader.cc:59-162 | Every record that a reader with checksums on returns from an arbitrary file is put together from fragments that lie in the file as the writer would have written them |
| IntactRecords.DamageIsReported | a2/leveldb-1.15.0/db/log_reader.cc:228-239 | A file of one record with its payload changed to one of another checksum gives no record and one report; with checksums off it gives the changed payload and no report |
| IntactRecords.ReportsAre | a2/leveldb-1.15.0/db/log_reader.cc:59-162 | The number of reports for an arbitrary file is the number of damaged, misplaced or unfinished pieces in the physical stream |
| LogReader.ReadAllIsRuns | a2/leveldb-1.15.0/db/log_reader.cc:59-162 | On arbitrary bytes the records returned are exactly the Full records and the unbroken First Middle* Last runs of the physical stream, in order: for the code, whose stream ends at a stored type 5, and for a reader that keeps stored types apart, whose stream covers the whole file |
| LogReader.RecordsAgreeIff | a2/leveldb-1.15.0/db/log_reader.h:73-85 | The code returns the same records as a reader that keeps stored types apart from its own marks if and only if no unbroken run follows the first intact record of type 5 |
| LogReader.ReportsAgreeIff | a2/leveldb-1.15.0/db/log_reader.cc:134-159 | The code reports as often as such a reader if and only if, before the first intact record of type 5, every one of type 6 comes inside an unfinished record, and that one of type 5, if there is one, does too and nothing behind it is to be reported; it never reports more |
| LogReader.SameWithoutMarks | a2/leveldb-1.15.0/db/log_reader.cc:116-159 | Records and reports are the same whenever no intact record carries type 5 or 6 |
| LogReader.TypeFiveHidesTheRest | a2/leveldb-1.15.0/db/log_reader.cc:134-139 | A stored type 5 is taken for the end of the file: whatever follows is lost without a report |
| LogReader.TypeSixIsNotReported | a2/leveldb-1.15.0/db/log_reader.cc:141-148 | A stored type 6 is taken for a record already reported: it is dropped without a report |
| LogReader.RecordRoundTrip | a2/leveldb-1.15.0/db/log_reader.cc:59-162 | Reading where a record was written returns it whole, at whatever block offset it was cut |
| LogReader.LogRoundTrip | a2/leveldb-1.15.0/db/log_writer.cc:27-73 | Every list of records comes back unchanged with no corruption reported |
| LogReader.CutLog | a2/leveldb-1.15.0/db/log_reader.cc:179-256 | A log cut after any byte returns exactly the records that were written completely |
| TornTails.CutReportsIff | a2/leveldb-1.15.0/db/log_reader.cc:179-256 | Reading a log that was cut after any byte reports nothing if and only if the cut leaves nothing of the record that is not whole, or exactly the filler before it |
| LogReader.ReplayLog | a2/leveldb-1.15.0/db/db_impl.cc:404-412 | Reading until failure collects the records and the number of reports of the definition |
| LogReader.WriteCutRead | a2/leveldb-1.15.0/db/log_writer.cc:27-103 | Writer and reader together: what survives a cut is the list of complete records |
| WriteBatches.WriteBatch.Put | a2/leveldb-1.15.0/db/write_batch.cc:98-103 | The bytes are those of the batch with one more put |
| WriteBatches.WriteBatch.Delete | a2/leveldb-1.15.0/db/write_batch.cc:105-109 | The bytes are those of the batch with one more deletion |
| WriteBatches.Iterate | a2/leveldb-1.15.0/db/write_batch.cc:42-80 | The loop hands over exactly the operations before the first fault, and names the fault |
| WriteBatches.BatchRoundTrip | a2/leveldb-1.15.0/db/write_batch.cc:42-109 | A batch comes back whole: its operations in order, its sequence number, and no fault |
| TornLogs.EntriesRoundTrip | a2/leveldb-1.15.0/db/write_batch.cc:111-134 | Inserting a decoded batch gives back its entries with consecutive numbers |
| TornLogs.LogRoundTrips | a2/leveldb-1.15.0/db/db_impl.cc:404-420 | Decoding the records of a log gives back its batches |
| TornLogs.CutAndRead | a2/leveldb-1.15.0/db/db_impl.cc:404-420 | A log of batches of which only some bytes reached the disk is read back as exactly the batches whose records are whole |
| TornLogs.SameWhole | a2/leveldb-1.15.0/db/log_writer.cc:27-73 | Which records survive a cut depends on their lengths alone |
| WriteQueue.BuildBatchGroup | a2/leveldb-1.15.0/db/db_impl.cc:1237-1282 | The group is the longest run of writers that fits the size limits and has no sync writer behind a non-sync leader, and its updates are theirs in order |
| WriteQueue.GroupUnique | a2/leveldb-1.15.0/db/db_impl.cc:1237-1282 | The queue alone determines the group |
| WriteQueue.GroupGrows | a2/leveldb-1.15.0/db/db_impl.cc:1237-1282 | Writers that arrive later can only lengthen the group |
| WriteQueue.GroupLimits | a2/leveldb-1.15.0/db/db_impl.cc:1237-1282 | The bytes of a group's batches stay within a megabyte, or within 128 KB more than the leader's own when that is small, unless only the leader has any; no sync writer rides with a non-sync leader; and a writer is left out only because it wants a sync the leader does not, or because the bytes would be too many |
| WriteQueue.ReleaseGroup | a2/leveldb-1.15.0/db/db_impl.cc:1216-1230 | The pop loop removes exactly the group and releases each member once |
| WriteQueue.StepKeepsQueue | a2/leveldb-1.15.0/db/db_impl.cc:1162-1235 | Every step keeps the queue equal to the unfinished calls in arrival order, and every sleeper either signalled or not due |
| WriteQueue.StepKeepsData | a2/leveldb-1.15.0/db/db_impl.cc:1162-1235 | Every step keeps groups, sequence numbers, log, memtable, statuses and snapshots consistent |
| WriteQueue.FailedSyncIsFinal | a2/leveldb-1.15.0/db/db_impl.cc:1204-1213 | In every run, after a group was logged whose sync failed, no later group is logged or succeeds |
| WriteQueue.ErrorIff | a2/leveldb-1.15.0/db/db_impl.cc:1288-1296 | In every run the background error is set if and only if some group was logged whose sync failed |
| WriteQueue.LastRecord | a2/leveldb-1.15.0/db/db_impl.cc:1204-1213 | A record whose sync fails is the last one the log gets, and nothing enters the memtable after it |
| WriteQueue.ConsecutiveNumbers | a2/leveldb-1.15.0/db/db_impl.cc:1181-1213 | In every run without failures the finished calls are the first ones that arrived and their operations carry consecutive numbers in that order |
| WriteQueue.SyncIsDurable | a2/leveldb-1.15.0/db/db_impl.cc:1191-1199 | In every run a call that asked for sync and was told success has its record in the log behind a sync |
| WriteQueue.SnapshotSeesWholeGroups | a2/leveldb-1.15.0/db/db_impl.cc:1200-1213 | A snapshot taken at any moment sees exactly the groups published before it, however the run goes on |
| WriteQueue.NoLostWakeup | a2/leveldb-1.15.0/db/db_impl.cc:1168-1175 | In every run, while a call waits some step is possible, and the head of an idle queue has been signalled |
| WriteQueue.ReturnsOnce | a2/leveldb-1.15.0/db/db_impl.cc:1216-1235 | A call that has returned keeps its outcome for good |
| GroupCommit.RunIsWrites | a2/leveldb-1.15.0/db/db_impl.cc:1162-1235 | In every run of the queue in which no write fails after being logged, whenever no group is in hand, log, memtable and last sequence number are those of a valid database that has done one write after another, one for each group, and that shows the map after them |
| GroupCommit.ArrivalOrder | a2/leveldb-1.15.0/db/db_impl.cc:1237-1282 | When no call has failed, that map is the one after the batches of all finished calls in order of arrival |
| SkipLists.StepKeepsInv | a2/leveldb-1.15.0/db/skiplist.h:334-367 | After every single store each level is a sorted sublist of the one below, all links on it are initialised, and the search positions of all readers stay sound |
| SkipLists.RunKeepsLinked | a2/leveldb-1.15.0/db/skiplist.h:334-367 | In every run a node whose insertion is complete is on every level up to its height, and one under way on those linked so far |
| SkipLists.SearchIsExact | a2/leveldb-1.15.0/db/skiplist.h:259-278 | However loads and stores interleave, a search returns the least key at or after the target in the list as it was at its last load |
| SkipLists.KeysOldOrNew | a2/leveldb-1.15.0/db/skiplist.h:334-367 | Each step leaves the key set as it was or adds the whole new key |
| SkipLists.RunGoesOn | a2/leveldb-1.15.0/db/skiplist.h:334-367 | Whatever step is enabled after a run can extend the run |
| SkipLists.StorePublishes | a2/leveldb-1.15.0/db/skiplist.h:361-366 | Storing the predecessor's link, after the node's own, splices the node into the level |
| SkipLists.SkipList.FindGreaterOrEqual | a2/leveldb-1.15.0/db/skiplist.h:259-278 | The least key at or after the target, and the last node before it on every level |
| SkipLists.SkipList.FindLessThan | a2/leveldb-1.15.0/db/skiplist.h:281-299 | The last node before the key |
| SkipLists.SkipList.FindLast | a2/leveldb-1.15.0/db/skiplist.h:302-319 | The last node, or the head of an empty list |
| SkipLists.SkipList.Insert | a2/leveldb-1.15.0/db/skiplist.h:334-367 | The key set gains exactly the key |
| SkipLists.SkipList.Contains | a2/leveldb-1.15.0/db/skiplist.h:370-377 | Membership in the key set |
| SkipLists.SkipList.Preceding | a2/leveldb-1.15.0/db/skiplist.h:211-219 | The neighbour before a node, found by searching from the head |
| Coding.VarintRoundTrip | a2/leveldb-1.15.0/util/coding.cc:47-132 | Reading a varint where it was written gives the value and the position after it |
| Coding.Fixed32RoundTrip | a2/leveldb-1.15.0/util/coding.h:58-71 | Four little-endian bytes give back the word |
| Blocks.EntryDecodes | a2/leveldb-1.15.0/table/block.cc:53-74 | An encoded entry decodes to its lengths, with the key rest and the value where they should be, by either path |
| Blocks.BlockBuilder.Add | a2/leveldb-1.15.0/table/block_builder.cc:73-105 | The block gains the entry; every interval-th entry is a restart point and shares nothing, and every other one shares the longest prefix it can with the key before it |
| Blocks.BlockBuilder.Finish | a2/leveldb-1.15.0/table/block_builder.cc:63-71 | The finished bytes are a block of the entries added, with its restart array |
| Blocks.Iter.ParseNextKey | a2/leveldb-1.15.0/table/block.cc:226-253 | The next entry's key is rebuilt from its predecessor, and the restart index is the nearest one |
| Blocks.Iter.Seek | a2/leveldb-1.15.0/table/block.cc:165-203 | Binary search over restarts and a linear scan end at the first key not before the target |
| Blocks.Iter.Prev | a2/leveldb-1.15.0/table/block.cc:144-163 | One step back, through a restart point |
| Blocks.Iter.SeekToLast | a2/leveldb-1.15.0/table/block.cc:210-215 | The last entry |
| Blocks.RunProgram | a2/leveldb-1.15.0/table/block.cc:139-253 | For every increasing list and restart interval, a built block iterated by any program shows what a position in the list shows |
| Filters.CreateFilter | a2/leveldb-1.15.0/util/bloom.cc:35-61 | The nested loops append the Bloom filter of the keys |
| Filters.KeyMayMatch | a2/leveldb-1.15.0/util/bloom.cc:63-90 | A filter matches a key if and only if it has at least two bytes and either its probe count is a reserved one or every probe of the key hits a set bit |
| Filters.BloomHasNoFalseNegatives | a2/leveldb-1.15.0/util/bloom.cc:35-90 | A Bloom filter matches every key it was made from |
| Filters.BloomIs | a2/leveldb-1.15.0/util/bloom.cc:35-61 | A Bloom filter has the bits its keys are worth, at least 64, in whole bytes, and exactly the bits of the keys' probes are set |
| Filters.BloomMatchesIff | a2/leveldb-1.15.0/util/bloom.cc:35-90 | So it matches a key if and only if each of the key's probes is a probe of some key it was made from, and denies every other key |
| Filters.BloomPolicy | a2/leveldb-1.15.0/util/bloom.cc:22-90 | The Bloom policy, as the filter block uses it, has no false negatives |
| Filters.FilterBlockBuilder.StartBlock | a2/leveldb-1.15.0/table/filter_block.cc:22-28 | Every key stays filed under the 2 KB range of its block |
| Filters.FilterBlockBuilder.GenerateFilter | a2/leveldb-1.15.0/table/filter_block.cc:52-76 | The pending keys become the next range's filter |
| Filters.FilterBlockBuilder.Finish | a2/leveldb-1.15.0/table/filter_block.cc:36-50 | The finished bytes hold every range's filter where the reader looks for it |
| Filters.BlockKeyMayMatch | a2/leveldb-1.15.0/table/filter_block.cc:95-109 | The reader consults exactly the filter of the block's range, and passes every range it has no filter for |
| Filters.NoKeyDenied | a2/leveldb-1.15.0/table/filter_block.cc:22-109 | No key is denied at the offset of the block it was added for |
| Tables.FindShortestSeparator | a2/leveldb-1.15.0/util/comparator.cc:29-51 | The result is what start and limit share and the next byte value, whenever that is short of the limit's byte, and the start itself otherwise; it is the start or lies strictly between start and limit, and is no longer |
| Tables.FindShortSuccessor | a2/leveldb-1.15.0/util/comparator.cc:53-66 | The result ends with the first byte that can grow, one larger, or is the key itself when all are 255; it is the key or a later one, and is no longer |
| Tables.InternalSeparator | a2/leveldb-1.15.0/db/dbformat.cc:68-85 | The shortened internal key separates the blocks, and no key in the gap it opens has the next block's user key |
| Tables.InternalSuccessor | a2/leveldb-1.15.0/db/dbformat.cc:87-99 | The shortened last index key is not before the last key |
| Tables.TableBuilder.Add | a2/leveldb-1.15.0/table/table_builder.cc:92-121 | The open index key of the block before is closed by a separator, and the item joins the current block |
| Tables.TableBuilder.Flush | a2/leveldb-1.15.0/table/table_builder.cc:123-137 | The current block is written and its keys stay filed under its offset |
| Tables.TableBuilder.Finish | a2/leveldb-1.15.0/table/table_builder.cc:199-254 | The finished table is fully indexed and its filter block covers every block |
| Tables.BuildTable | a2/leveldb-1.15.0/table/table_builder.cc:92-254 | Any increasing list, cut into blocks anywhere, gives an indexed table of exactly that list |
| Tables.InternalGet | a2/leveldb-1.15.0/table/table.cc:216-245 | An item of the sought user key is delivered exactly when a linear search of the whole table for the first item at or after the key finds it, filter or not |
| TableFormat.BlockRoundTrip | a2/leveldb-1.15.0/table/format.cc:67-145 | A block read back through its handle is the block written, whether or not the checksum is verified |
| TableFormat.FooterRoundTrip | a2/leveldb-1.15.0/table/format.cc:32-62 | The footer gives back the two handles in it |
| TableFormat.SeekHandle | a2/leveldb-1.15.0/table/table.cc:219-226 | Seeking in the bytes of the index block gives the handle of the first block whose index key is at or after the key |
| TableFormat.InternalGet | a2/leveldb-1.15.0/table/table.cc:216-245 | A lookup through the bytes of index block, filter block and data block delivers an item of the sought user key exactly when a linear search of the table finds it |
| TableFormat.Open | a2/leveldb-1.15.0/table/table.cc:35-128 | Footer, metaindex and handles lead to the index block and, when there is one of the policy's name, to the filter block |
| TableFormat.OpenAndGet | a2/leveldb-1.15.0/table/table.cc:35-245 | Opening the bytes of a table and looking up a key delivers what a linear search would |
| TableWriter.FileBuilder.Add | a2/leveldb-1.15.0/table/table_builder.cc:92-121 | The item joins the block, which goes to the file behind a handle exactly when it has reached the block size; nothing written before is lost |
| TableWriter.WriteTable | a2/leveldb-1.15.0/table/table_builder.cc:92-254 | Any increasing list of items becomes a file that is a table of exactly these items, in blocks of which all but the last have reached the block size, with a filter of exactly their user keys that can be found under its name; without a filter there always is a file, and with one unless it is too big for its own offsets |
| TableWriter.FilterIsMeta | a2/leveldb-1.15.0/table/table_builder.cc:211-232 | A reader that looks for the name in the metaindex block is led to the filter |
| TableWriter.HandsOverFirst | a2/leveldb-1.15.0/table/table.cc:216-245 | What a lookup delivers is the first item of the list at or after the key, if it has the key's user key |
| LruCache.HandleTable.FindPointer | a2/leveldb-1.15.0/util/cache.cc:98-105 | The scan of one chain finds the table's entry for the key, or there is none |
| LruCache.HandleTable.Insert | a2/leveldb-1.15.0/util/cache.cc:62-76 | The table gains the entry in place of the one with its key, through any resize |
| LruCache.HandleTable.Remove | a2/leveldb-1.15.0/util/cache.cc:78-86 | Exactly the entry of the key goes |
| LruCache.HandleTable.Resize | a2/leveldb-1.15.0/util/cache.cc:107-131 | The entries stay the same and each is in the bucket of its hash |
| LruCache.LRUCache.Unref | a2/leveldb-1.15.0/util/cache.cc:186-194 | The deleter runs exactly when the entry is in neither the list nor a caller's hands, and the charge goes with it |
| LruCache.LRUCache.Lookup | a2/leveldb-1.15.0/util/cache.cc:209-218 | A hit returns the entry of the key and hands out one reference; the entry goes from its place to the newest end of the list and the others keep their order; a miss leaves the list as it is |
| LruCache.LRUCache.Release | a2/leveldb-1.15.0/util/cache.cc:220-223 | One handle less; the entry is deleted exactly when nothing holds it any more |
| LruCache.LRUCache.Insert | a2/leveldb-1.15.0/util/cache.cc:225-256 | The new entry replaces the one with its key and becomes the newest, the oldest are evicted while the charge is too high, and the deleters of those nobody holds run in that order |
| LruCache.LRUCache.Erase | a2/leveldb-1.15.0/util/cache.cc:258-265 | The key's entry leaves table and list and nothing else does; its deleter runs if nobody holds it |
| LruCache.DoCommand | a2/leveldb-1.15.0/util/cache.cc:209-265 | One call has exactly the effect it has on an age-ordered list with handles |
| LruCache.Execute | a2/leveldb-1.15.0/util/cache.cc:209-265 | Any list of inserts, lookups, releases and erasures finds what the age-ordered list holds, and after each call exactly the deleters have run that the list calls for, in order |
| LruOrder.RunIsCalls | a2/leveldb-1.15.0/util/cache.cc:209-265 | In every run each call does to the list what it should, said without the functions above: a hit takes its entry to the newest end; an insertion drops the entry of its key, adds the new one and then lets the shortest row of oldest entries go with which the charge fits; a release and an erasure run the deleter exactly when nobody holds the entry |
| LruOrder.RunAnswers | a2/leveldb-1.15.0/util/cache.cc:209-265 | Each call of a run answers with the value of the entry that it hits, and its deleter calls are those of the entries deleted by it, in order |
| LruOrder.OlderIsLessRecent | a2/leveldb-1.15.0/util/cache.cc:209-256 | In every run the list is sorted by last use, a use being the insertion that made the entry or a lookup that found it |
| LruOrder.EvictedIsLeastRecent | a2/leveldb-1.15.0/util/cache.cc:225-256 | In every run an entry that an insertion evicts was used less recently than every entry that stays |
| ExternalSort.RunIterator.Next | a2/library.cc:130-155 | The slot returned holds the next record of the run, and earlier records stay valid until the next call |
| ExternalSort.FindSmallest | a2/msort.cc:26-36 | The first of the smallest current records |
| ExternalSort.KWayMerge | a2/msort.cc:19-43 | The output is sorted and is exactly the union of the runs |
| ExternalSort.MkRuns | a2/library.cc:51-65 | Memory-sized segments are sorted and together are the input |
| ExternalSort.NextLength | a2/msort.cc:151-164 | The run lengths add up to the records that remain |
| ExternalSort.MergePass | a2/msort.cc:140-177 | One pass turns n-sorted segments into nk-sorted segments of the same records |
| ExternalSort.MSort | a2/msort.cc:120-177 | The sort stops with an error exactly when a merge is needed with less than k + 1 records of memory; otherwise the output is a sorted permutation of the input exactly when one record fits in memory or there is nothing to sort |
| Pages.RecordRoundTrip | a1/record.cpp:19-55 | A record read back is the record written, each attribute cut to ten bytes |
| Pages.LayoutFits | a1/page.cpp:27-31 | At least one record fits and the slots end where the bitmap begins |
| Pages.Page.FreeSlots | a1/page.cpp:36-60 | The bit loop counts the free slots |
| Pages.Page.Add | a1/page.cpp:68-110 | The record goes into the first free slot, or the page is full |
| Pages.NewPageBlank | a1/page.cpp:11-19 | A new page has blank records in slots that are all free |
| Pages.WriteUpdatesLeaf | a1/page.cpp:115-125 | Writing a slot puts the record over what the slot held and marks it used, and changes no other slot |
| Pages.ClearUpdatesLeaf | a1/page.cpp:147-155 | Deleting marks the slot free and changes no record, not even the one deleted |
| Pages.Page.NextFilledSlot | a1/page.cpp:160-177 | The next slot in use after a slot, or none |
| HeapFiles.Heapfile.Create | a1/heapfile.cpp:25-40 | A new file has no pages |
| HeapFiles.Heapfile.Open | a1/heapfile.cpp:42-59 | Following the directory chain of a closed file gives back the same pages |
| HeapFiles.Heapfile.Close | a1/heapfile.cpp:61-95 | After closing, the file alone holds every page and directory |
| HeapFiles.Heapfile.GetPage | a1/heapfile.cpp:160-190 | The cache holds the page as last written, after writing back a dirty one |
| HeapFiles.Heapfile.AllocPage | a1/heapfile.cpp:194-229 | The next page id, and an empty page behind all existing blocks |
| HeapFiles.Heapfile.AppendEntry | a1/heapfile.cpp:272-303 | The page gets the first id not taken; a directory is added exactly when all are full |
| HeapFiles.Heapfile.CommitPage | a1/heapfile.cpp:263-269 | The directory's free count is that of the page as it is now |
| HeapFiles.VacantPageId | a1/heapfile.cpp:320-335 | The first page with a free slot, or -1 exactly when every page is full |
| HeapFiles.FindFreePage | a1/directory.cpp:39-47 | The first entry with free space, or -1 when there is none |
| HeapFiles.NextPageId | a1/heapfile.cpp:272-303 | The first free place in the directories belongs to the first page id not taken |
| HeapFiles.VacantIsFreePage | a1/heapfile.cpp:320-335 | The first page with room by the counts in the directories is the first by the flags in the pages |
| HeapFiles.Heapfile.PutRecord | a1/heapfile.cpp:97-119 | The record goes into the first free slot of the first page with one, or into a new page if all are full |
| HeapFiles.Heapfile.GetRecord | a1/heapfile.cpp:121-126 | The slot's record is returned, in use or not |
| HeapFiles.Heapfile.UpdateRecord | a1/heapfile.cpp:128-133 | Exactly one slot changes: it holds the record and is in use |
| HeapFiles.Heapfile.DeleteRecord | a1/heapfile.cpp:135-142 | Exactly one slot changes: it is no longer in use |
| HeapFiles.Execute | a1/heapfile.cpp:42-142 | Any run of puts, gets, updates and deletes, with closing and reopening anywhere, gives exactly the answers of the pages the commands make |
| Sheets.CommandOnMap | a1/heapfile.cpp:97-142 | A put adds one record under an id that was not in use, an update within the pages sets the record whether or not its id was in use, a delete removes exactly one id |
| Sheets.GetIsRightIff | a1/heapfile.cpp:121-126 | Reading within the pages gives the map's answer if and only if the slot is in use |
| Sheets.DeletedIsStillRead | a1/page.cpp:130-142 | A deleted record is gone from the map and is still what a get returns |
| Sheets.GetIsLastWritten | a1/heapfile.cpp:97-142 | After any run, reading a slot returns what was last written there |

## Left out

- User keys in the database modules are integers, their rank under the comparator; only `Tables` and `Blocks` look at key bytes.
- Compactions picked by seek statistics. A compaction's reading and writing is one step when it begins, and its output files are numbered then.
- Database.Execute: a compaction or move that would break the order of the levels or change what a live snapshot reads is not performed, and one of a key range whose outputs would overlap a flushed table is abandoned, because the answers would no longer be the map's (`Compactions.CompactionHarmlessIff`, `Interleaving.InstalledInvIff`, `Boundaries`). In a run only the newest log loses bytes in a crash; a manifest cut off while a version is being installed is `ManifestBytes.OpenAfterCrash`, for every valid state. After a crash the trace says of the tables that no compaction is under way. An empty batch is logged under number zero.
- WriteSteps.DeleteObsoleteValid: in this state only log files are deleted, because tables travel inside the edits; which table files may be deleted is the state machine of `TableFiles`.
- DbImpl.DBImpl.DeleteObsoleteFiles: likewise covers log files.
- WriteSteps.Insert: the memtable is a sorted list of entries here; `MemTables` proves that the skip list of encoded entries is that list.
- MemTables.MemTable.Add: an internal key must be shorter than 4 GB, eight bytes of it being the tag; the skip list knows entries by the rank of their internal keys, and the arena is a map from ranks to bytes.
- GroupCommit.RunIsWrites: a log append or sync that fails, after which the queue stops accepting writes, is outside this correspondence; `WriteQueue.FailedSyncIsFinal` and `WriteQueue.LastRecord` say what happens then.
- Manifest.RecoverVersion: edits are given as values; `ManifestBytes.RecoverManifest` starts from the bytes of the manifest.
- ManifestBytes.RecoverManifest: the file is one that was written by the database and cut off; numbers and sizes fit in 64 bits; compaction pointers are not recovered. Reading all records first and applying the edits afterwards gives the same result as the code's single loop.
- Recovery.RecoverLogFile: batches are given as values; `TornLogs` proves how they come back from the bytes of a log that was written by the database. Logs corrupted otherwise are read as `LogReader.ReadAllIsRuns` says, and what the database then holds is left out.
- TableFiles.StepKeepsInv: a compaction's outputs are arbitrary tables, and levels play no part; `ManifestBytes.EditIsApply` relates edits of versions to its steps.
- Compactions.DoCompactionWork: the overlap with grandparents that stops an output, and the size of a file being built, are functions of the position in the input.
- DbImpl.DBImpl.LogBatch: sequence numbers must not run out; the code does not check for that either.
- Compaction pointers, previous log numbers and comparator names play no part in the database state.
- Keys and values are bytes under any naming that can be undone for the keys and values used, each below 4 GB.
- I/O errors other than a failed log append or sync, repair.cc, file names, locking, options, statistics and logging.
- Memory barriers: each atomic load and store of the skip list is one step; arena allocation is a fresh index.
- SkipLists.SkipList.Insert: the random height is a parameter.
- Reading a log from an initial offset other than zero, and how many bytes each reported corruption covers.
- Blocks.BlockBuilder.Add: the block must stay below 4 GB, because offsets are 32 bits; corrupt blocks are not modelled.
- The CRC and the hash functions are parameters; Snappy is left out, so blocks are stored as they are.
- TableWriter.WriteTable: items, with what they take in index and restarts, must stay below 4 GB, and so must the filter's offsets, which the code does not check; no file is returned when the filter block has 4 GB or more.
- TableFormat.Open: the file is a table that was written whole; a damaged one is refused or read as its bytes say, and that is left out, as is the block cache in between.
- Tables.TableBuilder.Flush: the size of the written block is a parameter; `TableWriter` passes the real one.
- LruCache.HandleTable.FindPointer: masking with a power of two is written as a remainder; the sharding over sixteen caches is left out.
- WriteQueue.BuildBatchGroup: sizes of batches are given, as the length of their encoding.
- Integer overflow of `int` products in the sort, temporary file handling and attribute comparison: the comparator is a total preorder, and qsort is any function that sorts.
- Directory pages of the heap file are blocks of their own kind rather than bytes; a record may not have more attributes than a slot holds, because it would be written over its neighbours.
- HeapFiles.Execute: a record id outside the directories, which stops the original program, is skipped.
- RecordIterator of the heap file, whose `has_next` is never set before it is read, jsoncpp, environments, benchmarks, bindings and scripts.
