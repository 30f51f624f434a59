# FLChat storage and wire codecs: a verified model

The FLChat app stores data through leveldb and talks to its back end through nanopb, both of them
shipped as source under `FLChat/Pods`. This project models the hard parts of these two libraries in
Dafny and proves what they promise.

**The storage engine.** `Engine` is the engine of `db_impl.cc` as a state machine: a step is a
region between two releases of the mutex, or one file operation made while it is released. The state
is what the code has (memtables by identity, logs, tables, the manifest, file numbers, pending
outputs, a flush and a compaction in progress, snapshots, readers) and there is a closed form of it,
nothing but files, for the time between a crash and the next open. `History` is what it refines: the
list of acknowledged writes, operation i having sequence i + 1. `Levels` is a version with its seven
levels and the search through them, `LevelEdits` what flushes, moves and compactions do to it. A
step may do all that the code allows; a step is *clean* unless it is one of those that do harm (see
below): a move or an installation after which the levels are out of order, one that makes a deleted
value resurface, and a log append that is lost. Each of these conditions is proved exact, those on
compactions and moves also in terms of reads; `LevelReads` shows that the order of the levels is
exactly what the search needs. `EngineProof` and `EngineLevels` show that every clean step keeps one
invariant, `EngineRuns` that every clean run does; `EngineTheorems` concludes that reads and
iterators are linear, whatever happens between the moments at which they look, and never see part of
a write group, that recovery rebuilds exactly the acknowledged writes, and that no needed file is
deleted. `EngineRealTime` adds when things happen: a read shows the moment at which it was opened or its
snapshot taken, what was written is what is read, and files that nobody needs are removed.
`EngineProgress` shows that nothing gets stuck. `EngineFailures` has the runs in which an unclean step
loses data. `Recovery` (the loops of
`Recover` and `RecoverLogFile`), `Picking` (the level of a flushed table and the inputs of a
compaction), `BaseLevels` (the base-level scan), `Compaction` (the merge loop), `WriteQueue` (group
commit), `BackgroundWork` (scheduling), `Snapshots` and `FileNumbers` are imperative code proved
against the notions the engine uses.

**Reading.** `DbIter` is the bidirectional iterator, proved to be a cursor on the visible map.
`SkipLists`, `DbFormat`, `MemTables` and `WriteBatches` are the memtable and what goes into it.
`LogFormat`, `LogWriter`, `LogReader` and `LogTheorems` are the log, byte by byte, `LogAppends` a log that
is cut and written on, `LogDamage` one that is damaged, `LogReports` the account of every byte that is not
returned, `LogFiles` what it means to the engine. `VersionEdits` is the record of the manifest;
`DecodeErrors` says which batches and edits are refused. `Coding` has the little-endian and varint codecs of `util/coding.cc`.

**The wire codec.** `PbVarint`, `PbFields`, `PbMessage`, `PbEncode`, `PbDecode`, `PbRoundTrip` and
`PbCodec` model nanopb: varints, the cyclic field iterator with its required-field bitmap, messages and
what they are encoded to, the imperative encoder with its sizing pass, the imperative decoder with its
substreams, and the round trip. `PbStreams` says what any well-formed stream decodes to, `PbZero` what is
left out and what that costs, `PbRefusals` what is refused, `PbEvolution` what readers and writers with
different descriptors make of each other. The encoding follows the Protocol Buffers Encoding specification,
sections "Base 128 Varints", "Signed Integers" and "Length-Delimited Records".

Specification functions and the lemmas about them are separate from the imperative code; each method is
proved equal to its function, on malformed input too.

## What the proofs found

- A compaction may cut its output between two entries of one user key, when a snapshot keeps both. Once
  the snapshot is gone nothing ties the two files together: a later move or compaction may take the first
  one down alone, so that the older entry is found first, or drop a deletion whose older value stays
  (`EngineFailures.SplitKeyComesBack`, `EngineFailures.DeletedKeyComesBack`). Exactly when an entry is no
  longer found: `EngineLevels.MoveFindsAllIff`, `EngineLevels.InstallFindsAllIff`. Exactly when a deleted
  value comes back: `EngineRuns.InstallTablesIff`, `EngineTheorems.DropsInReadsIff`; a put that is left
  behind under a put, or under a deletion that a newer write hides, does no harm.
- A compaction of several files may leave a gap between them. A memtable flushed while it runs can be put
  into that gap on the output level, and the outputs are then installed around it: the bisection finds the
  wrong file (`EngineFailures.FlushedKeyIsLost`). Without a gap this cannot happen
  (`EngineLevels.NoGapFits`).
- With `reuse_logs`, a log that ends inside a fragment is continued where its bytes end. What is appended
  within the block of the torn fragment is not found again, what starts in a later block is
  (`LogAppends.TornAppend`, `LogAppends.NothingLostIff`); an acknowledged write can be gone after the next
  crash (`EngineFailures.RecordAfterTearIsGone`). A tear between two fragments does no harm.
- An intact log record of type 5 is taken for the end of the file, since `kEof` has that number
  (`LogAppends.TypeFiveEndsLog`); other unknown types are passed over (`LogAppends.UnknownTypeIsPassed`)
  and reported, but for type 6, the number of `kBadRecord`: such a fragment is dropped without a report, and
  nothing else is (`LogReports.LogBalances`).
- A group whose append or sync fails uses up its sequences all the same: LastSequence is set in any case, so
  that the log has a gap there (`WriteQueue.Queue.FinishGroup`, `WriteQueue.GroupDone`). After a failed sync
  its record may be in the log though all its writers were told of an error.
- A compaction drops a deletion that is at its base level and relies on older entries of the key being
  dropped right after it. An entry that does not parse makes the loop forget the key, and a value behind
  it becomes visible again. `Compaction.CompactionKeepsViews` gives the exact condition for all inputs,
  `Compaction.WhereExposed` the two ways in which it can happen.
- `TEST_CompactRange` lets its owner withdraw `manual_compaction_` after a background error or at
  shutdown. If that happens while the manual compaction runs, `BackgroundCompaction` goes on to use a NULL
  pointer. `BackgroundWork.WithdrawnIff` says exactly when the request is gone by then, and
  `BackgroundWork.Scheduler.ManualWithdrawn` reaches such a state.
- A writer with a NULL batch that is taken into another writer's group finishes without the memtable
  switch it asked for (`WriteQueue.Queue.NullBatchTaken`); only a NULL batch at the front forces one
  (`WriteQueue.Queue.Turn`).
- `VersionEdit::Clear` keeps the compaction pointers, so `DecodeFrom` is exact only for a target without
  any: `VersionEdits.RestoredExactly`.
- `pb_decode_varint32` is meant to accept sign-extended negative numbers; it accepts a little more, and
  `PbVarint.DecodeVarint32Accepts` says exactly what.
- A proto3 field that holds zero is not written, and comes back as the default of its descriptor, which
  need not be zero: `PbRoundTrip.RestoredExactly`. With zero defaults nothing is lost
  (`PbZero.ZeroDefaultsRoundTrip`).
- `pb_field_iter_find` reports tag 0 as found in an empty descriptor, whose terminator has that tag
  (`PbFields.FieldIter.Find`); decoding then fails, where other descriptors skip the field
  (`PbRefusals.TagZero`).

## Model

Sources are relative to the root of the repository.

| member | source | states |
|---|---|---|
| EngineTheorems.EveryReadIsLinear | FLChat/Pods/leveldb-library/db/db_impl.cc:1109-1154 | After every clean run from a new database (write groups, memtable switches, flushes at any level, compactions, moves, snapshots, file deletion, crashes, failed and successful recoveries, reuse of torn logs, in any order) Get by any open reader, which searches its version level by level and stops at the first hit, returns the last acknowledged write at or below its snapshot; which snapshot that is, see EngineRealTime.ReadsItsMoment |
| EngineTheorems.GetIsLinear | FLChat/Pods/leveldb-library/db/db_impl.cc:1121-1142 | The objects a reader holds, mem, imm and the levels of its version, searched in that order with the first hit deciding, answer as the history of acknowledged writes does |
| EngineTheorems.EverySlowGetIsLinear | FLChat/Pods/leveldb-library/db/db_impl.cc:1131-1145 | Get searches without the mutex. At three moments of a clean run, in which anything but a crash happens in between, it looks into mem, into imm and into its version: the answer is the last acknowledged write at or below the snapshot, the same at all three moments |
| EngineTheorems.SlowGetIsLinear | FLChat/Pods/leveldb-library/db/db_impl.cc:1131-1145 | The same for any three states that hold the reader and between which started writes are only added to |
| EngineRealTime.ReadsItsMoment | FLChat/Pods/leveldb-library/db/db_impl.cc:1109-1170 | After every clean run: a Get or iterator opened in a state without a snapshot finds the value of every key as of all writes acknowledged in that state, one opened from the i-th live snapshot the value at the sequence of that very snapshot; it still does so after any further clean steps without a crash that do not end it, its place in the list of readers followed through the ends of others. The visible list of an iterator holds exactly these values |
| EngineRealTime.SlowReadOfItsMoment | FLChat/Pods/leveldb-library/db/db_impl.cc:1109-1154 | The same for a Get that looks into mem, imm and its version at three later moments |
| EngineRealTime.SnapshotIsItsMoment | FLChat/Pods/leveldb-library/db/db_impl.cc:1175-1183 | GetSnapshot captures the present: after every clean run that reaches a state, takes a snapshot there and goes on in any way without a crash and without releasing it, other snapshots being taken and released, a read opened from it, and kept open as long as one likes, finds the values as of all writes acknowledged when it was taken |
| EngineRealTime.SnapshotStaysReadable | FLChat/Pods/leveldb-library/db/db_impl.cc:1175-1183 | Until it is released such a snapshot has a place in the list, from which a read can be opened |
| EngineRealTime.HistoryIsWhatWasWritten | FLChat/Pods/leveldb-library/db/db_impl.cc:1194-1265 | The history that all reads are compared with is, after every clean run from a new database, the concatenation of just those groups of operations that the steps of the run were asked to write and that were committed, or found complete in the log by a crash |
| EngineTheorems.RunGrows | FLChat/Pods/leveldb-library/db/db_impl.cc:1194-1265 | While the database stays open no step takes back a write that was acknowledged or started |
| EngineTheorems.SearchInTurn | FLChat/Pods/leveldb-library/db/db_impl.cc:1134-1141 | Searching a newest part, a middle part and the tables in turn equals looking up the history, provided the parts cover the snapshot |
| EngineTheorems.FirstHitWins | FLChat/Pods/leveldb-library/db/db_impl.cc:1134-1141 | A hit in the newer set (a deletion included) is the view of both sets together; a miss leaves it to the older set |
| EngineTheorems.GetLatestIsLinear | FLChat/Pods/leveldb-library/db/db_impl.cc:1115-1119 | In every state of a clean run a Get without snapshot returns the last acknowledged write |
| EngineTheorems.LevelsAnswer | FLChat/Pods/leveldb-library/db/version_set.cc:332-429 | For a reader of a clean run the search through the levels finds the newest entry of all its tables |
| EngineTheorems.IteratorIsLinear | FLChat/Pods/leveldb-library/db/db_impl.cc:1067-1096 | Merge what a reader holds in any sorted list, which may have gained entries above the snapshot: the visible list that DBIter is a cursor on holds (k, v) if and only if the history has v for k at the snapshot |
| EngineTheorems.EveryIteratorIsLinear | FLChat/Pods/leveldb-library/db/db_impl.cc:1156-1170 | The same for every reader after every clean run; at which snapshot it reads, see EngineRealTime.ReadsItsMoment |
| EngineTheorems.EveryListStays | FLChat/Pods/leveldb-library/db/db_impl.cc:1067-1096 | While an iterator is open and the memtable under it grows, its visible list stays the same sequence |
| EngineTheorems.SnapshotsBetweenGroups | FLChat/Pods/leveldb-library/db/db_impl.cc:1215-1245 | After every clean run from a new database the history is the concatenation of the groups committed or found complete after a crash, and every listed snapshot and every reader stands between two groups |
| EngineRuns.RunByGroups | FLChat/Pods/leveldb-library/db/db_impl.cc:1215-1245 | The same from any state that has the property |
| EngineTheorems.CrashRecovery | FLChat/Pods/leveldb-library/db/db_impl.cc:274-363 | A crash at any state, leaving a record complete, torn or absent, then any number of recoveries that fail, then an Open, which may go on with a torn log: the new state holds exactly the acknowledged writes plus the group in flight if its record was complete, LastSequence continues, and Get answers accordingly |
| EngineTheorems.GroupIsDurableIff | FLChat/Pods/leveldb-library/db/db_impl.cc:1222-1226 | After a group was logged, also behind a torn record, the logs hold every write in memory if and only if the record is not lost to the reader, or had no operations |
| EngineTheorems.LostGroupIsNotRecovered | FLChat/Pods/leveldb-library/db/db_impl.cc:455-473 | If a group with operations is lost, recovery yields exactly what was written before it |
| EngineTheorems.MemoryIsBacked | FLChat/Pods/leveldb-library/db/db_impl.cc:549-557 | What mem and imm hold can be replayed from the logs from LogNumber on |
| EngineTheorems.DeleteObsoleteFilesIsSafe | FLChat/Pods/leveldb-library/db/db_impl.cc:218-272 | DeleteObsoleteFiles removes no table of a live version or of a running compaction, no pending output, changes no file it keeps, and leaves mem and imm backed by logs; what it does remove, see EngineRealTime.OnlyNeededFilesStay |
| EngineRealTime.OnlyNeededFilesStay | FLChat/Pods/leveldb-library/db/db_impl.cc:218-272 | After DeleteObsoleteFiles exactly those tables are left that some version in use holds (the current one, a reader, the running compaction) or that are being written, and exactly the logs from LogNumber on, all unchanged |
| EngineRealTime.OnlyTheVersionStays | FLChat/Pods/leveldb-library/db/db_impl.cc:218-272 | After every clean run, with no reader, flush or compaction under way, the tables left are exactly those of the current version, whatever flushes and compactions, finished or failed, came before |
| EngineRealTime.InputsAreRemoved | FLChat/Pods/leveldb-library/db/db_impl.cc:866-885 | An input of an installed compaction is gone after any later deletion of files at which no version in use holds it, with any clean steps in between, crashes and recoveries included |
| EngineRealTime.FlushedLogsAreRemoved | FLChat/Pods/leveldb-library/db/db_impl.cc:549-561 | After a flush is installed the next deletion of files removes every log older than the one in use |
| EngineRealTime.RunKeepsPending | FLChat/Pods/leveldb-library/db/db_impl.cc:771-811 | In every run the pending numbers are only those of tables that a flush or a compaction is writing |
| EngineRealTime.ErrorStopsBackground | FLChat/Pods/leveldb-library/db/db_impl.cc:645-684 | After a background error no step changes the version, the tables or the log in use until the database is closed |
| EngineRealTime.FailedCompactionIsAnError | FLChat/Pods/leveldb-library/db/db_impl.cc:771-786 | A compaction that fails sets the background error, gives up its outputs and changes nothing else |
| EngineProgress.ErrorNeedsFailure | FLChat/Pods/leveldb-library/db/db_impl.cc:637-643 | In every run, from a closed database or an open one without an error, there is no background error unless a compaction failed |
| EngineProgress.GroupCompletes | FLChat/Pods/leveldb-library/db/db_impl.cc:1215-1245 | From every state that runs keep, a group in flight can be logged, applied and acknowledged by clean steps, which add exactly its operations to the history |
| EngineProgress.FlushCompletes | FLChat/Pods/leveldb-library/db/db_impl.cc:533-561 | From every such state without a background error the immutable memtable can be flushed, at whatever stage its flush is |
| EngineProgress.RoomCanBeMade | FLChat/Pods/leveldb-library/db/db_impl.cc:1316-1389 | So from every such state the memtable can be switched after clean steps: MakeRoomForWrite is never stuck |
| EngineTheorems.NewFileNumberIsFresh | FLChat/Pods/leveldb-library/db/version_set.h:190-191 | In every state of a run the next file number is used by no log, no pending output, no live table and no flush |
| EngineRuns.RunKeepsInv | FLChat/Pods/leveldb-library/db/db_impl.cc:1194-1265 | The invariant of the whole engine, levels included, holds after every clean run |
| EngineRuns.NewDBInv | FLChat/Pods/leveldb-library/db/db_impl.cc:176-203 | A new database satisfies it |
| EngineProof.LogGroupKeepsInv | FLChat/Pods/leveldb-library/db/db_impl.cc:1222-1231 | Appending the group record, mutex released: the current log then holds exactly the writes since the last switch, the group included |
| EngineProof.ApplyOneKeepsInv | FLChat/Pods/leveldb-library/db/db_impl.cc:1232-1234 | Each single insertion of InsertInto keeps the invariant while readers hold the same memtable |
| EngineProof.CommitGroupKeepsInv | FLChat/Pods/leveldb-library/db/db_impl.cc:1243-1245 | Setting LastSequence after all insertions keeps the invariant |
| EngineProof.SwitchMemtableKeepsInv | FLChat/Pods/leveldb-library/db/db_impl.cc:1354-1375 | The switch to a new log and memtable: imm is then exactly what the older logs replay to |
| EngineProof.SwitchReplay | FLChat/Pods/leveldb-library/db/db_impl.cc:1357-1370 | After the switch, replaying the logs below the new one yields what the older logs and the last current log held |
| EngineProof.FlushBuildKeepsInv | FLChat/Pods/leveldb-library/db/db_impl.cc:493-504 | Building the level-0 table without the mutex disturbs no version, reader or compaction |
| EngineProof.FlushUnpendKeepsInv | FLChat/Pods/leveldb-library/db/db_impl.cc:511-511 | Giving up the pending number before the edit is installed keeps the invariant |
| EngineProof.FlushInstallKeepsInv | FLChat/Pods/leveldb-library/db/db_impl.cc:549-561 | Installing the edit at whatever level was picked and dropping imm, also in the middle of a compaction: tables and logs together still hold every write |
| EngineProof.TablesOkFlush | FLChat/Pods/leveldb-library/db/db_impl.cc:549-561 | Adding a table with the next writes moves the frontier of what the tables stand for |
| EngineProof.TablesOkRestrict | FLChat/Pods/leveldb-library/db/db_impl.cc:1222-1226 | If a crash forgets the group in flight, the tables still answer for the acknowledged writes |
| EngineProof.FlushedIsLater | FLChat/Pods/leveldb-library/db/db_impl.cc:917-927 | A table flushed inside DoCompactionWork is newer, entry by entry, than all inputs of the compaction |
| EngineProof.CompactBeginKeepsInv | FLChat/Pods/leveldb-library/db/db_impl.cc:888-908 | Any inputs that the code may choose can be compacted; what their choice breaks, if anything, shows when the results are installed |
| EngineProof.CompactOpenKeepsInv | FLChat/Pods/leveldb-library/db/db_impl.cc:788-811 | Each compaction output has a fresh number, entered in pending_outputs_ |
| EngineProof.TablesOkCompactIff | FLChat/Pods/leveldb-library/db/db_impl.cc:938-972 | Replacing the inputs by the kept entries leaves the tables, next to what is not flushed, right for every view at or above the smallest snapshot if and only if the compaction keeps those views |
| EngineProof.CompactInstallKeepsInv | FLChat/Pods/leveldb-library/db/db_impl.cc:866-885 | Installing the results keeps the invariant, for readers of old versions too, if and only if the compaction keeps the views of the database |
| EngineProof.CompactEndKeepsInv | FLChat/Pods/leveldb-library/db/db_impl.cc:771-786 | CleanupCompaction, after success or failure, keeps the invariant |
| EngineProof.DeleteObsoleteFilesKeepsInv | FLChat/Pods/leveldb-library/db/db_impl.cc:218-272 | Deleting files keeps the invariant: tables still answer every reader and the logs still hold what is in memory |
| EngineProof.ReleaseSnapshotKeepsInv | FLChat/Pods/leveldb-library/db/db_impl.cc:1180-1183 | Releasing any snapshot keeps the list ordered and above the floor of past compactions |
| EngineProof.NewReaderOk | FLChat/Pods/leveldb-library/db/db_impl.cc:1121-1126 | The tables, imm and mem referenced at one moment together hold every write up to the snapshot |
| EngineProof.CrashKeepsInv | FLChat/Pods/leveldb-library/db/db_impl.cc:1222-1226 | Whatever the engine was doing, the files left by a crash, with the record being appended complete or cut, satisfy the invariant of a closed database |
| EngineProof.FailedRecoveryKeepsInv | FLChat/Pods/leveldb-library/db/db_impl.cc:1498-1514 | A recovery that dies leaves just the unreferenced tables and the empty log it made, if any: manifest, other logs and live tables are as before |
| EngineProof.ReplayAll | FLChat/Pods/leveldb-library/db/db_impl.cc:317-356 | Replaying every log from LogNumber on gives exactly the writes the tables lack |
| EngineProof.OpenSequence | FLChat/Pods/leveldb-library/db/db_impl.cc:358-360 | The larger of the manifest sequence and the largest record sequence is the length of the history |
| EngineProof.OpenKeepsInv | FLChat/Pods/leveldb-library/db/db_impl.cc:1498-1523 | Opening, with the last log reused, torn or not, or replaced, reaches a state that satisfies the invariant |
| EngineRuns.InstallTablesIff | FLChat/Pods/leveldb-library/db/db_impl.cc:960-967 | After the results of a compaction of any inputs are installed, tables and memory are right from its smallest snapshot on if and only if nothing resurfaces: no deletion that decides its key at that snapshot goes in while the newest entry it hides is a value with which a file begins that was left behind |
| EngineLevels.DropsAreCleanIff | FLChat/Pods/leveldb-library/db/db_impl.cc:960-967 | The compaction keeps every view of tables and memory from its smallest snapshot on if and only if nothing resurfaces |
| EngineTheorems.DropsInReadsIff | FLChat/Pods/leveldb-library/db/db_impl.cc:960-967 | The same in reads: once the results are installed, tables and memory show the history for every key at every snapshot from the smallest on if and only if nothing resurfaces |
| EngineLevels.CompactInstallLevelsIff | FLChat/Pods/leveldb-library/db/db_impl.cc:866-885 | In every state of the engine the levels stay right if and only if nothing is out of order |
| EngineLevels.InstallIsCleanIff | FLChat/Pods/leveldb-library/db/db_impl.cc:866-885 | Installing the results keeps the levels right if and only if no key that the inputs split ends up below its older entries, and every table flushed meanwhile to the output level is apart from the outputs |
| EngineLevels.InstallFindsAllIff | FLChat/Pods/leveldb-library/db/version_set.cc:332-429 | In reads: after the installation the first hit of the level search is the newest entry, for every key and every sequence, if and only if nothing is out of order |
| EngineLevels.MoveIsCleanIff | FLChat/Pods/leveldb-library/db/db_impl.cc:717-727 | Moving a file down keeps the levels right if and only if no file left on its level starts with the key at which it ends |
| EngineLevels.MoveFindsAllIff | FLChat/Pods/leveldb-library/db/version_set.cc:332-429 | In reads: after a move the first hit is the newest entry, for every key and every sequence, if and only if the move is clean |
| EngineLevels.UnsplitInstallIsClean | FLChat/Pods/leveldb-library/db/db_impl.cc:866-885 | While no two files of a level share a user key, the results of a compaction whose upper inputs leave no gap can be installed without harm |
| EngineLevels.OneFileHasNoGap | FLChat/Pods/leveldb-library/db/version_set.cc:1256-1286 | A compaction of one file of the upper level leaves no gap |
| EngineLevels.NoGapFits | FLChat/Pods/leveldb-library/db/version_set.cc:502-528 | A table flushed while a compaction without a gap runs is apart from all its outputs |
| EngineLevels.FlushInstallKeepsLevels | FLChat/Pods/leveldb-library/db/db_impl.cc:516-525 | A flushed table, newer than all others, keeps the levels of the current version right, also while a compaction of an older version runs |
| EngineLevels.OpenKeepsLevels | FLChat/Pods/leveldb-library/db/db_impl.cc:425-450 | Tables written by recovery come to level 0 with numbers in the order of their writes |
| EngineFailures.SplitKeyComesBack | FLChat/Pods/leveldb-library/db/db_impl.cc:717-727 | A run from a new database, clean up to its last step: a snapshot between two writes of a key, a compaction whose outputs split the key, release of the snapshot, a move of the first output. Get then returns the older write, whatever the newer one was |
| EngineFailures.DeletedKeyComesBack | FLChat/Pods/leveldb-library/db/db_impl.cc:960-967 | The same with a compaction of the first output alone, the newer write being a deletion: the deletion is dropped and the deleted value is back |
| EngineFailures.FlushedKeyIsLost | FLChat/Pods/leveldb-library/db/db_impl.cc:917-927 | A run, clean up to its last step: a manual compaction of level 1 whose inputs leave a gap, a write flushed into the gap at level 2 meanwhile, and the installation of the output around it. Get then finds nothing |
| EngineFailures.RecordAfterTearIsGone | FLChat/Pods/leveldb-library/db/db_impl.cc:455-463 | A run: a crash inside a fragment, an Open that reuses the log, an acknowledged write whose record is lost, a crash, an Open. Get then finds nothing |
| Levels.VersionGetIsView | FLChat/Pods/leveldb-library/db/version_set.cc:332-429 | Level 0 newest first, then one file of each lower level, the first hit deciding: the newest entry of all tables, if the levels are right |
| Levels.VersionFindIs | FLChat/Pods/leveldb-library/db/version_set.cc:332-429 | The search finds the newest entry itself, not only its value |
| Levels.GetInLevelIs | FLChat/Pods/leveldb-library/db/version_set.cc:375-387 | On a sorted level the file at which the bisection stops answers for the whole level |
| Levels.GetInLevel0Is | FLChat/Pods/leveldb-library/db/version_set.cc:355-374 | The files of level 0 that span the key, searched from the highest number down, answer for the whole level |
| Levels.FindFileSplits | FLChat/Pods/leveldb-library/db/version_set.cc:86-105 | The bisection finds the first file that does not end before the key |
| LevelReads.LevelsOkIff | FLChat/Pods/leveldb-library/db/version_set.cc:332-429 | The order of the levels is exactly what reading needs: the search finds the newest entry for every key and sequence if and only if level 0 is in the order of file numbers, the other levels are sorted without overlap, and each level is newer than those below it |
| LevelReads.FoundMeansInOrder | FLChat/Pods/leveldb-library/db/version_set.cc:86-105 | If every entry is found, the files of a level do not overlap: at the first overlap the bisection stops one file too early |
| LevelReads.FoundMeansStacked | FLChat/Pods/leveldb-library/db/version_set.cc:345-427 | If every entry is found, each level is newer than those below it |
| LevelReads.FoundMeansByNumber | FLChat/Pods/leveldb-library/db/version_set.cc:355-374 | If every entry is found, a higher number on level 0 means newer |
| LevelReads.CompactionFindsAllIff | FLChat/Pods/leveldb-library/db/db_impl.cc:866-885 | After a compaction or a move every entry is found if and only if no split key ends up below its older entries and the results fit between the files that stay |
| LevelEdits.InsertAllInOrder | FLChat/Pods/leveldb-library/db/version_set.cc:711-780 | Merging added files into a sorted level keeps it sorted and disjoint if and only if each is apart from the files there |
| LevelEdits.FlushKeepsLevels | FLChat/Pods/leveldb-library/db/db_impl.cc:516-525 | A newer table goes to any level such that nothing there or above meets it, and the levels stay right |
| LevelEdits.CompactionKeepsLevels | FLChat/Pods/leveldb-library/db/db_impl.cc:866-885 | Results of a compaction, cut anywhere, keep the levels right if and only if none of their entries is newer than one of the same key left on the upper level, and they fit between the files that stay on the lower one |
| LevelEdits.MoveKeepsLevels | FLChat/Pods/leveldb-library/db/db_impl.cc:717-724 | The same for a moved file |
| LevelEdits.OldFilesFit | FLChat/Pods/leveldb-library/db/version_set.cc:1345-1352 | Files of the lower level that were not chosen are apart from every output |
| LevelEdits.KeepsViewsIff | FLChat/Pods/leveldb-library/db/db_impl.cc:960-967 | For the inputs the code chooses and the keys that IsBaseLevelForKey accepts, the merge loop keeps every view if and only if no value left behind beside an input loses the deletion that hides it |
| Picking.BisectFiles | FLChat/Pods/leveldb-library/db/version_set.cc:86-105 | The loop of FindFile computes the bisection |
| Picking.SomeFileOverlapsRange | FLChat/Pods/leveldb-library/db/version_set.cc:121-152 | True exactly if a file meets the range, by scan or by bisection, with bounds given or not |
| Picking.GetOverlappingInputs | FLChat/Pods/leveldb-library/db/version_set.cc:531-572 | Exactly the files that meet the range, in order; on level 0, after restarts, the least range around it that covers whatever it meets |
| Picking.VersionSet.PickLevelForMemTableOutput | FLChat/Pods/leveldb-library/db/version_set.cc:502-528 | The deepest level, 2 at most, reached by steps without overlap and with few bytes below; level 0 if anything there overlaps |
| Picking.VersionSet.PickedPlaceOk | FLChat/Pods/leveldb-library/db/version_set.cc:502-528 | At that level and above nothing meets the table |
| Picking.VersionSet.SetupOtherInputs | FLChat/Pods/leveldb-library/db/version_set.cc:1345-1411 | The inputs are a choice the engine may rely on (all files of the lower level that meet the upper ones, on level 0 all that overlap); the upper inputs are those chosen, or all files around the inputs on both levels exactly if these are more, stay below the byte limit and take in no more of the next level; compact_pointer_ becomes the largest key |
| Picking.VersionSet.Expand | FLChat/Pods/leveldb-library/db/version_set.cc:1356-1386 | More upper inputs are taken if and only if there are more around the range of both levels, the sizes stay below 25 files and the next level gives the same number of files; then they are exactly these, with the same lower ones |
| Picking.VersionSet.PickCompaction | FLChat/Pods/leveldb-library/db/version_set.cc:1291-1343 | Takes the first file after compact_pointer_, or the first of all, or the file of a seek compaction, below level 0 that file alone, and sets up the rest; no compaction exactly if neither is due |
| Picking.VersionSet.CompactRange | FLChat/Pods/leveldb-library/db/version_set.cc:1413-1446 | None exactly if nothing meets the range; on level 0 the least closed set of files that meets it, below it the files that meet it in order, cut where their sizes first reach the limit for one file |
| Picking.VersionSet.SingleFileCanMove | FLChat/Pods/leveldb-library/db/version_set.cc:1466-1474 | What IsTrivialMove tests makes the move a step of the engine |
| Compaction.CompactionKeepsViews | FLChat/Pods/leveldb-library/db/db_impl.cc:938-972 | For any sorted inputs, anything outside them and any keys taken to be at their base level, every view at or above the smallest snapshot is unchanged if and only if no deletion that decides its key there is dropped while a value then decides among what is left |
| Compaction.DeletionUndone | FLChat/Pods/leveldb-library/db/db_impl.cc:940-944 | In every such case the deleted key shows that value |
| Compaction.WhereExposed | FLChat/Pods/leveldb-library/db/db_impl.cc:938-972 | Such a value is older than the deletion, and lies outside the inputs or right behind an unreadable entry |
| Compaction.UnreadableEntryUndoesDeletion | FLChat/Pods/leveldb-library/db/db_impl.cc:940-970 | A concrete input of that kind: deletion, entry of unknown type, value |
| Compaction.DoCompactionWork | FLChat/Pods/leveldb-library/db/db_impl.cc:908-1015 | The merge loop writes, over all output files in order, exactly the entries that survive rule (A) and the base-level rule, records the first and last key of each file, and ends a file exactly before a key that ShouldStopBefore stops at and after an entry that makes it full |
| Compaction.KeptIsExactly | FLChat/Pods/leveldb-library/db/db_impl.cc:938-972 | Of a sorted readable input the merge loop keeps exactly the entries that some view from the smallest snapshot on shows, less the old deletions of keys at their base level: nothing that could go stays |
| Compaction.Decide | FLChat/Pods/leveldb-library/db/db_impl.cc:938-972 | One turn: dropped if the previous entry of the key is already visible to the oldest snapshot, or as an obsolete deletion; unreadable entries reset the state |
| Compaction.OlderIsHidden | FLChat/Pods/leveldb-library/db/db_impl.cc:955-968 | After an obsolete deletion every older readable entry of the key is dropped too, unless an unreadable one stands before it |
| BaseLevels.Compaction.IsBaseLevelForKey | FLChat/Pods/leveldb-library/db/version_set.cc:1484-1503 | For keys asked in ascending order the scan with pointers that never go back answers exactly whether no file below the output level spans the key |
| BaseLevels.LevelsInKeyOrder | FLChat/Pods/leveldb-library/db/version_set.cc:711-780 | The levels of every version in use are in the order that the scan needs |
| DbIter.DBIter.Next | FLChat/Pods/leveldb-library/db/db_iter.cc:146-203 | Moves to the next element of the visible list, or off its end, also right after moving backwards |
| DbIter.DBIter.Prev | FLChat/Pods/leveldb-library/db/db_iter.cc:205-272 | Moves to the previous element of the visible list, or off its front, also right after moving forwards |
| DbIter.DBIter.Seek | FLChat/Pods/leveldb-library/db/db_iter.cc:274-286 | Moves to the first visible key at or after the target |
| DbIter.DBIter.SeekToFirst | FLChat/Pods/leveldb-library/db/db_iter.cc:288-297 | Moves to the first visible key |
| DbIter.DBIter.SeekToLast | FLChat/Pods/leveldb-library/db/db_iter.cc:299-304 | Moves to the last visible key |
| DbIter.DBIter.FindNextUserEntry | FLChat/Pods/leveldb-library/db/db_iter.cc:173-203 | Stops at the next visible entry and passes over nothing visible but the key to be skipped |
| DbIter.DBIter.FindPrevUserEntry | FLChat/Pods/leveldb-library/db/db_iter.cc:232-272 | Stops with the newest live value of the previous visible key saved, having passed over nothing else that is visible |
| DbIter.DBIter.Run | FLChat/Pods/leveldb-library/db/db_iter.cc:146-304 | Any legal run of the five operations shows exactly what a cursor on the visible list shows |
| DbIter.DBIter.ShowsListElement | FLChat/Pods/leveldb-library/db/db_iter.cc:65-73 | Valid, key and value are those of the list element at the cursor, in both directions |
| DbIter.VisibleListIsTheView | FLChat/Pods/leveldb-library/db/db_iter.cc:173-203 | The visible list is strictly ascending and holds (k, v) exactly when the newest readable entry of k at or below the snapshot is the value v |
| Snapshots.SnapshotList.New | FLChat/Pods/leveldb-library/db/snapshot.h:42-51 | Links a snapshot in at the newest end; the ring stays well linked, the numbers are the old ones plus the new one, and not decreasing if they were not |
| Snapshots.SnapshotList.Delete | FLChat/Pods/leveldb-library/db/snapshot.h:53-58 | Unlinks exactly the given snapshot |
| Snapshots.SnapshotList.Oldest | FLChat/Pods/leveldb-library/db/snapshot.h:39-39 | With non-decreasing numbers the oldest is the least |
| Snapshots.SnapshotList.SmallestSnapshot | FLChat/Pods/leveldb-library/db/db_impl.cc:901-905 | smallest_snapshot is LastSequence without snapshots and else the oldest number, and no live snapshot is below it |
| WriteQueue.Queue.BuildBatchGroup | FLChat/Pods/leveldb-library/db/db_impl.cc:1267-1314 | The group is the longest front of the queue that may be taken: operations in queue order, no sync writer behind a non-sync leader, several batches within max_size, tmp_batch_ used exactly when needed; the next writer is refused for one of the two reasons |
| WriteQueue.Queue.BeginGroup | FLChat/Pods/leveldb-library/db/db_impl.cc:1213-1214 | The leader fixes its group, and whoever is left out was refused for a reason |
| WriteQueue.Queue.Enqueue | FLChat/Pods/leveldb-library/db/db_impl.cc:1200-1204 | A writer may join the queue at any time, also while a group is in flight, without changing that group |
| WriteQueue.Queue.FinishGroup | FLChat/Pods/leveldb-library/db/db_impl.cc:1215-1257 | If the record could be appended, and synced where the leader asks for it, the log gets one record with the next sequences and exactly the operations of the group, they are applied, and all its writers are told so; if not, nothing is applied, all of them are told of the error, and the sequences are used up nevertheless; a failed sync sets bg_error_. Exactly the group leaves the queue and tmp_batch_ is empty |
| WriteQueue.Queue.DequeueThrough | FLChat/Pods/leveldb-library/db/db_impl.cc:1248-1257 | The dequeue loop finishes exactly the writers up to the last one of the group |
| WriteQueue.Queue.FinishLeader | FLChat/Pods/leveldb-library/db/db_impl.cc:1210-1213 | A writer that gets no room leaves alone with the error; the log and the memtable are as before |
| WriteQueue.Queue.FinishNullLeader | FLChat/Pods/leveldb-library/db/db_impl.cc:1210-1213 | A NULL batch at the front forces a switch and finishes by itself |
| WriteQueue.Queue.Turn | FLChat/Pods/leveldb-library/db/db_impl.cc:1206-1257 | A turn of the front writer finishes at least one writer; it forces a memtable switch if and only if there is room and its own batch is NULL, whatever else is in the group it finishes; without room, as after a background error, it alone is refused |
| WriteQueue.Queue.NullBatchTaken | FLChat/Pods/leveldb-library/db/db_impl.cc:1290-1312 | A queue whose leader takes the NULL batch behind it into its group: both are finished and no switch was forced |
| WriteQueue.GroupDone | FLChat/Pods/leveldb-library/db/db_impl.cc:1215-1257 | Through groups that go well and groups that fail: what is applied, and what the good records of the log hold, are exactly the operations of the writers that were told that all went well, in queue order; only a group whose sync failed may be in the log besides; sequences ascend without overlap, and without a gap unless a group failed |
| WriteQueue.SyncedIsStable | FLChat/Pods/leveldb-library/db/db_impl.cc:1223-1229 | Every sync write that was acknowledged is in the synced part of the log, with all acknowledged writes before it |
| BackgroundWork.Scheduler.MaybeScheduleCompaction | FLChat/Pods/leveldb-library/db/db_impl.cc:645-661 | Schedules a job exactly if none is scheduled and there is work, no error and no shutdown |
| BackgroundWork.Scheduler.WaitForRoom | FLChat/Pods/leveldb-library/db/db_impl.cc:1345-1353 | Whoever waits for imm or for level 0 does so with a job scheduled, so it will be signalled |
| BackgroundWork.Scheduler.SwitchMemtable | FLChat/Pods/leveldb-library/db/db_impl.cc:1370-1375 | Setting imm leaves a job scheduled |
| BackgroundWork.Scheduler.RequestManual | FLChat/Pods/leveldb-library/db/db_impl.cc:605-614 | A request or the wait for another one leaves exactly one job scheduled |
| BackgroundWork.Scheduler.CancelManual | FLChat/Pods/leveldb-library/db/db_impl.cc:615-618 | After an error or at shutdown the owner withdraws its own request only |
| BackgroundWork.Scheduler.BeginJob | FLChat/Pods/leveldb-library/db/db_impl.cc:667-719 | A job flushes imm first, else compacts if there is something to do, else ends; shutdown and errors end it |
| BackgroundWork.Scheduler.PrioritizeFlush | FLChat/Pods/leveldb-library/db/db_impl.cc:917-927 | Between two entries a compaction flushes imm exactly if it is there |
| BackgroundWork.Scheduler.EndFlush | FLChat/Pods/leveldb-library/db/db_impl.cc:549-564 | A flush clears imm and has_imm_ together or records the error; waiters are signalled |
| BackgroundWork.Scheduler.EndCompaction | FLChat/Pods/leveldb-library/db/db_impl.cc:747-768 | The end of a compaction, whose manual request, if any, must still be there: clears it, reschedules if needed and signals all waiters |
| BackgroundWork.Scheduler.EndJob | FLChat/Pods/leveldb-library/db/db_impl.cc:678-683 | Every job that ends leaves another one scheduled if there is work, and nobody waiting unsignalled |
| BackgroundWork.Scheduler.ManualWithdrawn | FLChat/Pods/leveldb-library/db/db_impl.cc:756-768 | A reachable state in which a manual compaction is running and manual_compaction_ is NULL: a sync error let the owner withdraw |
| BackgroundWork.WithdrawnIff | FLChat/Pods/leveldb-library/db/db_impl.cc:605-618 | Over any events while a manual compaction runs, its request is NULL at the end if and only if the owner withdraws after an error or the start of a shutdown; without these it is still there |
| BackgroundWork.Scheduler.Meanwhile | FLChat/Pods/leveldb-library/db/db_impl.cc:605-618 | What any thread does meanwhile keeps the scheduler valid and changes the request as in that account |
| FileNumbers.VersionSet.NewFileNumber | FLChat/Pods/leveldb-library/db/version_set.h:190-191 | Returns a number that is not in use, whatever was given back before |
| FileNumbers.VersionSet.ReuseFileNumber | FLChat/Pods/leveldb-library/db/version_set.h:193-200 | Gives the number back exactly if it is still the newest, and nothing else becomes available |
| FileNumbers.VersionSet.MarkFileNumberUsed | FLChat/Pods/leveldb-library/db/version_set.cc:1058-1062 | Afterwards no number up to the given one is handed out again |
| FileNumbers.VersionSet.FailedLogCreation | FLChat/Pods/leveldb-library/db/db_impl.cc:1357-1364 | When the new log cannot be created the counters end where they were |
| Recovery.RecoverLogFile | FLChat/Pods/leveldb-library/db/db_impl.cc:407-485 | Every record of the log ends in a table or in the memtable kept for reuse, max_sequence is the largest last sequence; the log is reused if and only if reuse is asked for, it is the last log and it never filled a memtable; the manifest is to be saved if and only if it is not reused and holds records; tables end exactly where the memtable was full or the log ended |
| Recovery.ReplayRecords | FLChat/Pods/leveldb-library/db/db_impl.cc:407-450 | The loop over the records: what is not yet in a table is in the memtable, tables hold the records in order under ascending numbers |
| Recovery.ReplayLogs | FLChat/Pods/leveldb-library/db/db_impl.cc:343-356 | The loop over the sorted logs recovers exactly their entries and moves the file counter past every log |
| Recovery.Recover | FLChat/Pods/leveldb-library/db/db_impl.cc:308-360 | What recovery computes from any set of logs, torn ones included, is what the Open step of the engine demands; the last log is reused if and only if reuse is asked for and it never filled a memtable; the manifest is saved if and only if it and the log are not to be reused or some other log holds records |
| LogWriter.Writer.AddRecord | FLChat/Pods/leveldb-library/db/log_writer.cc:36-82 | Appends exactly the layout of the record at the current position: trailers, fragment types and sizes, an empty record included |
| LogWriter.Writer.EmitPhysicalRecord | FLChat/Pods/leveldb-library/db/log_writer.cc:84-109 | Appends header (checksum, length, type) and payload, and keeps block_offset_ equal to the position in the block |
| LogWriter.WriteAll | FLChat/Pods/leveldb-library/db/log_writer.cc:22-82 | Closing and reopening the writer at the current length after any of the records does not change the file |
| LogFormat.LayoutLength | FLChat/Pods/leveldb-library/db/log_writer.cc:36-82 | The position after a record is determined by the position before it and the payload length |
| LogReader.Reader.ReadPhysicalRecord | FLChat/Pods/leveldb-library/db/log_reader.cc:199-281 | The block-buffered reader gives the physical record at its position: header and length checks, zero type, checksum, initial offset, refill, end of file |
| LogReader.Reader.ReadRecord | FLChat/Pods/leveldb-library/db/log_reader.cc:60-182 | The loop gives the next logical record from the current position with the reports made on the way and LastRecordOffset; at the end of the file it keeps saying so |
| LogReader.Reader.SkipToInitialBlock | FLChat/Pods/leveldb-library/db/log_reader.cc:36-58 | Moves to the start of the block to begin in |
| LogReader.ReadLog | FLChat/Pods/leveldb-library/db/log_reader.cc:60-182 | Reading to the end gives the specified list of records with their offsets, and the reports |
| LogTheorems.LogSeek | FLChat/Pods/leveldb-library/db/log_reader.h:41-42 | For any records, any cut of the file and any initial offset, the reader returns exactly the records wholly in the file whose first header is at or after the offset, each with the offset of that header, and no part of any other |
| LogTheorems.ReadFrom | FLChat/Pods/leveldb-library/db/log_reader.cc:60-182 | The same from the start of any record, and without any report when nothing starts before the offset |
| LogTheorems.Seek | FLChat/Pods/leveldb-library/db/log_reader.cc:75-93 | Starting in the middle of a record that spans a block start, resynchronisation drops exactly that record |
| LogTheorems.TornLog | FLChat/Pods/leveldb-library/db/log_reader.cc:199-226 | Read from the start, a file cut at any byte yields the longest prefix of the records that is wholly in it, and no corruption report |
| LogTheorems.WriteCutRead | FLChat/Pods/leveldb-library/db/log_writer.cc:22-82 | The writer, reopened anywhere, then a cut anywhere, then the reader from any offset: the same result for the imperative code |
| LogAppends.TornAppend | FLChat/Pods/leveldb-library/db/log_reader.cc:60-182 | Any records, a cut at any byte, any records appended there, and perhaps a second cut: the reader returns the whole records before the cut and, of those after it, all if the cut went through no fragment, else exactly those that start in a later block, given that the torn fragment fails its checksum |
| LogAppends.NothingLostIff | FLChat/Pods/leveldb-library/db/log_writer.cc:27-34 | Nothing appended is lost if and only if no fragment is torn, or nothing was appended, or no header fits into the rest of the block |
| LogAppends.CutLog | FLChat/Pods/leveldb-library/db/log_reader.cc:199-281 | Reading a cut log with anything behind the cut gives its whole records and goes on at the cut, or at the next block if a fragment is torn |
| LogAppends.TypeFiveEndsLog | FLChat/Pods/leveldb-library/db/log_reader.h:79-90 | A file with an intact record of type 5 after any records: none of what follows is returned |
| LogAppends.UnknownTypeIsPassed | FLChat/Pods/leveldb-library/db/log_reader.cc:169-178 | An intact record of any other type that no writer uses is passed over: the records before and behind it are all returned |
| LogDamage.DamageIsReported | FLChat/Pods/leveldb-library/db/log_reader.cc:199-272 | A fragment with a wrong length or checksum behind any whole records: the records before it are returned, exactly the rest of its block is reported, and reading goes on behind it |
| LogDamage.OnlyStoredRecords | FLChat/Pods/leveldb-library/db/log_reader.cc:57-272 | With checksums on, whatever the file holds: every record that is returned is in it, as a full fragment or as a first, middle ones and a last one in order, each with its right checksum |
| LogDamage.FragmentIsStored | FLChat/Pods/leveldb-library/db/log_reader.cc:199-272 | Every fragment that is not damaged lies in the file at or behind the place where reading began, with its checksum |
| LogDamage.BehindTheEnd | FLChat/Pods/leveldb-library/db/log_reader.cc:188-197 | Of a file that ends before the initial offset nothing is returned or reported, whatever it holds |
| LogReports.LogBalances | FLChat/Pods/leveldb-library/db/log_reader.cc:57-182 | Of every file read from its start: the payloads of intact fragments and the bytes that go with damaged ones are, in sum, the records returned, the bytes reported, the record left unfinished at the end, and the payloads of type 6. So nothing is dropped silently if and only if there are none of these |
| LogReports.TypeSixIsSilent | FLChat/Pods/leveldb-library/db/log_reader.h:79-90 | An intact fragment of type 6, the number of kBadRecord, is such a payload |
| LogFiles.CutFileHas | FLChat/Pods/leveldb-library/db/db_impl.cc:395-420 | The records the engine finds in a cut file are the longest prefix of the batches that is wholly in it |
| LogFiles.AppendedFile | FLChat/Pods/leveldb-library/db/db_impl.cc:455-463 | Appending the bytes of a batch behind a cut is what Append of the engine says: lost exactly if a fragment is torn and the record starts in its block |
| LogFiles.BatchIsRecord | FLChat/Pods/leveldb-library/db/db_impl.cc:415-425 | The bytes of a batch are read as the engine record of its sequence and operations |
| SkipLists.SkipList.Insert | FLChat/Pods/leveldb-library/db/skiplist.h:336-370 | The key is in the list at its place and nothing else changes; after every single store on the way the structure is as a reader needs it |
| SkipLists.SkipList.FindGreaterOrEqual | FLChat/Pods/leveldb-library/db/skiplist.h:261-281 | Run with any max height, fresh or stale: returns the first node at or after the key, and the last node before it on every level |
| SkipLists.SkipList.FindLessThan | FLChat/Pods/leveldb-library/db/skiplist.h:283-302 | Returns the last node before the key, or the head |
| SkipLists.SkipList.FindLast | FLChat/Pods/leveldb-library/db/skiplist.h:304-322 | Returns the last node, or the head |
| SkipLists.SkipList.Contains | FLChat/Pods/leveldb-library/db/skiplist.h:372-380 | True exactly if an equal key is in the list |
| SkipLists.SkipList.ContentsAscend | FLChat/Pods/leveldb-library/db/skiplist.h:261-281 | The keys on level 0 are strictly ascending |
| SkipLists.LinkKeepsOk | FLChat/Pods/leveldb-library/db/skiplist.h:364-369 | The store that publishes a node on one level keeps every level sorted and a sublist of the level below |
| SkipLists.PrivateStoreKeepsOk | FLChat/Pods/leveldb-library/db/skiplist.h:366-367 | The store into the new node before it is published changes nothing a reader can see |
| SkipLists.StoreHeightKeepsOk | FLChat/Pods/leveldb-library/db/skiplist.h:347-361 | Raising max_height_ before any node of that height is linked is harmless |
| SkipLists.SearchIsLinear | FLChat/Pods/leveldb-library/db/skiplist.h:261-281 | A search interleaved with the stores of any number of Inserts never leaves the arena and finds the first node at or after the key as of its last load |
| SkipLists.SkipList.SearchMeanwhile | FLChat/Pods/leveldb-library/db/skiplist.h:261-281 | The same for a search that ran at any times in the history of stores of a list, up to its present state |
| SkipLists.Iterator.Next | FLChat/Pods/leveldb-library/db/skiplist.h:207-211 | Moves to the next node of level 0 |
| SkipLists.Iterator.Prev | FLChat/Pods/leveldb-library/db/skiplist.h:213-222 | Moves to the previous node of level 0, or to nothing |
| SkipLists.Iterator.Seek | FLChat/Pods/leveldb-library/db/skiplist.h:225-227 | Moves to the first key at or after the target |
| SkipLists.Iterator.SeekToFirst | FLChat/Pods/leveldb-library/db/skiplist.h:229-232 | Moves to the first node |
| SkipLists.Iterator.SeekToLast | FLChat/Pods/leveldb-library/db/skiplist.h:234-240 | Moves to the last node, or to nothing |
| DbFormat.ParseRoundTrip | FLChat/Pods/leveldb-library/db/dbformat.h:176-186 | Parsing an internal key gives back user key, sequence and type |
| DbFormat.ParseAcceptsOnlyBuilt | FLChat/Pods/leveldb-library/db/dbformat.h:176-186 | A key is rejected exactly if it is shorter than 8 bytes or of unknown type; what is accepted is the encoding of what is returned |
| DbFormat.CompareOrders | FLChat/Pods/leveldb-library/db/dbformat.cc:50-66 | Internal keys are ordered by user key up, then sequence down, then type down |
| DbFormat.CompareIsComparator | FLChat/Pods/leveldb-library/db/dbformat.cc:50-66 | Over any user comparator this is again a total order |
| DbFormat.SeekKeySplitsVersions | FLChat/Pods/leveldb-library/db/dbformat.cc:121-138 | The lookup key stands before exactly the versions of its user key at or below the snapshot |
| DbFormat.SeparatorSeparates | FLChat/Pods/leveldb-library/db/dbformat.cc:68-85 | The internal separator built from a user separator lies in [start, limit) and is no longer than start |
| MemTables.MemTable.Add | FLChat/Pods/leveldb-library/db/memtable.cc:82-106 | Stores exactly one more item, encoded as length-prefixed internal key and value |
| MemTables.MemTable.Get | FLChat/Pods/leveldb-library/db/memtable.cc:108-143 | Returns the newest item of the key at or below the snapshot: its value, a deletion, or nothing |
| MemTables.SeekFindsNewest | FLChat/Pods/leveldb-library/db/memtable.cc:108-143 | The entry at which Seek stops is the newest visible one if it has the user key; otherwise none is visible |
| MemTables.LookupIsUnique | FLChat/Pods/leveldb-library/db/memtable.cc:108-143 | A lookup has one answer |
| MemTables.OrderOfItems | FLChat/Pods/leveldb-library/db/memtable.cc:33-41 | Encoded entries compare as their user keys, sequences and types do |
| MemTables.ItemParts | FLChat/Pods/leveldb-library/db/memtable.cc:82-106 | Key and value can be taken out of an entry again |
| WriteBatches.WriteBatch.Put | FLChat/Pods/leveldb-library/db/write_batch.cc:98-103 | Appends one put and counts it; the sequence field is unchanged |
| WriteBatches.WriteBatch.Delete | FLChat/Pods/leveldb-library/db/write_batch.cc:105-109 | Appends one deletion and counts it |
| WriteBatches.WriteBatch.Append | FLChat/Pods/leveldb-library/db/write_batch.cc:141-145 | Appends the operations of the other batch, which may be the same one, and adds the counts |
| WriteBatches.WriteBatch.SetSequence | FLChat/Pods/leveldb-library/db/write_batch.cc:94-96 | Patches the sequence in place and leaves operations and count alone |
| WriteBatches.Iterate | FLChat/Pods/leveldb-library/db/write_batch.cc:42-80 | Makes exactly the calls of the operations it can read, in order, and reports the first malformed one or a wrong count, on every byte string |
| WriteBatches.IterateRoundTrip | FLChat/Pods/leveldb-library/db/write_batch.cc:42-80 | Whatever history of Put, Delete and Append built a batch, Iterate replays it in order and reports success |
| DecodeErrors.CutBatchIsRefused | FLChat/Pods/leveldb-library/db/write_batch.cc:42-80 | A batch that is cut anywhere is refused, after calls for exactly the operations that are whole |
| DecodeErrors.CountDecides | FLChat/Pods/leveldb-library/db/write_batch.cc:75-79 | A batch of readable operations is accepted if and only if its count is their number |
| DecodeErrors.UnknownTagIsRefused | FLChat/Pods/leveldb-library/db/write_batch.cc:70-73 | A tag that is neither a put nor a deletion ends the iteration with an error, after the calls before it |
| Coding.TakeVarint64RoundTrip | FLChat/Pods/leveldb-library/util/coding.cc:143-160 | Decoding a varint gives back every 64-bit value and leaves what follows it; bits beyond the word are lost |
| WriteBatches.MemTableInserter.Handle | FLChat/Pods/leveldb-library/db/write_batch.cc:111-126 | Each call adds the operation at the current sequence and moves on by one |
| WriteBatches.InsertInto | FLChat/Pods/leveldb-library/db/write_batch.cc:128-134 | Operation i of a batch with sequence S is stored at S + i, and nothing else is |
| WriteBatches.BatchLookup | FLChat/Pods/leveldb-library/db/write_batch.cc:111-134 | After the batch a snapshot sees exactly the operations at or below it, the last one per key, over what was there before |
| VersionEdits.EditRoundTrip | FLChat/Pods/leveldb-library/db/version_edit.cc:109-210 | Decoding an encoded edit succeeds and restores every field, compaction pointer, deleted file and new file, after the compaction pointers the target had |
| VersionEdits.RestoredExactly | FLChat/Pods/leveldb-library/db/version_edit.cc:26-39 | The edit comes back exactly if and only if the target had no compaction pointers, because Clear keeps them |
| VersionEdits.VersionEdit.EncodeTo | FLChat/Pods/leveldb-library/db/version_edit.cc:41-86 | Appends the encodings of the records of the edit in the order of the code |
| VersionEdits.VersionEdit.DecodeFrom | FLChat/Pods/leveldb-library/db/version_edit.cc:109-210 | Decodes every input, malformed ones and over-long varints included, to the specified fields and status |
| VersionEdits.VersionEdit.Clear | FLChat/Pods/leveldb-library/db/version_edit.cc:26-39 | Resets everything but the compaction pointers |
| VersionEdits.VersionEdit.DeleteFile | FLChat/Pods/leveldb-library/db/version_edit.h:75-77 | Inserts the pair into the ordered set |
| VersionEdits.DecodeApplies | FLChat/Pods/leveldb-library/db/version_edit.cc:119-199 | Decoding a list of records applies them one after the other |
| DecodeErrors.CutEditIsRefused | FLChat/Pods/leveldb-library/db/version_edit.cc:85-199 | An edit cut inside any of its records is refused, with exactly the records before it applied |
| DecodeErrors.UnknownRecordIsRefused | FLChat/Pods/leveldb-library/db/version_edit.cc:194-197 | A tag that no record has is refused |
| DecodeErrors.BadLevelIsRefused | FLChat/Pods/leveldb-library/db/version_edit.cc:98-108 | A level of 7 or more is refused, with the message of the record it is in |
| PbVarint.EncodeVarintLoop | FLChat/Pods/nanopb/pb_encode.c:574-594 | The loop writes the base-128 varint of any 64-bit value, in at most 10 bytes |
| PbVarint.DecodeVarintInverts | FLChat/Pods/nanopb/pb_decode.c:250-271 | The 64-bit decoder inverts it for every uint64 |
| PbVarint.DecodeVarint32Accepts | FLChat/Pods/nanopb/pb_decode.c:182-242 | Of the encodings of 64-bit values the 32-bit decoder accepts exactly those below 2^32 and those that look like a sign extension, and returns the low 32 bits |
| PbVarint.DecodeVarint32Inverts | FLChat/Pods/nanopb/pb_decode.c:182-242 | It inverts the encoder below 2^32 |
| PbVarint.NegativesAreAccepted | FLChat/Pods/nanopb/pb_decode.c:199-223 | Every sign-extended negative int32 is accepted |
| PbVarint.SvarintRoundTrip | FLChat/Pods/nanopb/pb_decode.c:1240-1252 | Zigzag encoding and decoding is the identity on all of int64 |
| PbFields.FieldIter.Next | FLChat/Pods/nanopb/pb_common.c:20-76 | Advances cyclically; data offset and required index equal sums made from scratch, union members included |
| PbFields.FieldIter.Find | FLChat/Pods/nanopb/pb_common.c:78-95 | From any position: a tag is found if and only if a field other than the extension placeholder has it; otherwise the position is unchanged |
| PbFields.AllRequiredSeen | FLChat/Pods/nanopb/pb_decode.c:1012-1045 | The bitmap test holds exactly if every one of the first 64 required fields was seen |
| PbFields.MarkSeen | FLChat/Pods/nanopb/pb_decode.c:988-992 | Sets exactly the bit of the field |
| PbFields.LowBits | FLChat/Pods/nanopb/pb_decode.c:1026-1042 | A word equals 2^n - 1 if and only if exactly its first n bits are set |
| PbEncode.OStream.Write | FLChat/Pods/nanopb/pb_encode.c:101-119 | Either all bytes are counted and written, or the limit would be passed; a sizing stream only counts |
| PbEncode.EncodeMessage | FLChat/Pods/nanopb/pb_encode.c:494-516 | Writes or counts exactly the specified encoding of the message, on a sizing and on a writing stream alike |
| PbEncode.EncodeField | FLChat/Pods/nanopb/pb_encode.c:307-392 | One field: required, optional, proto3 singular, repeated, oneof; what it leaves out, see PbZero.WritesNothingIff |
| PbEncode.EncodePacked | FLChat/Pods/nanopb/pb_encode.c:135-180 | The size computed for a packed array is the number of bytes then written |
| PbEncode.EncodeUnpacked | FLChat/Pods/nanopb/pb_encode.c:181-209 | The items of an unpacked array, each with its tag |
| PbEncode.EncodeSubmessage | FLChat/Pods/nanopb/pb_encode.c:682-730 | The second pass writes exactly what the first one counted: "submsg size changed" is unreachable at every depth |
| PbEncode.EncodeToBuffer | FLChat/Pods/nanopb/pb_encode.c:533-542 | A buffer of the computed size is filled exactly |
| PbDecode.IStream.DecodeVarint | FLChat/Pods/nanopb/pb_decode.c:250-271 | The loop equals the specified decoder on every byte string |
| PbDecode.IStream.DecodeVarint32 | FLChat/Pods/nanopb/pb_decode.c:182-248 | The loop with its fast path and sign-extension test equals the specified decoder on every byte string |
| PbDecode.DecodeTag | FLChat/Pods/nanopb/pb_decode.c:293-314 | Tag and wire type, end of message, or failure |
| PbDecode.SkipFieldBytes | FLChat/Pods/nanopb/pb_decode.c:316-326 | Skips exactly one field of any wire type, or fails |
| PbDecode.MakeSubstream | FLChat/Pods/nanopb/pb_decode.c:367-380 | The substream is exactly the announced bytes |
| PbDecode.CloseSubstream | FLChat/Pods/nanopb/pb_decode.c:382-397 | The parent continues after the substream, however little of it was read |
| PbDecode.DecodeInt | FLChat/Pods/nanopb/pb_decode.c:1289-1389 | Varint, unsigned, zigzag and fixed values with their range checks |
| PbDecode.DecodeData | FLChat/Pods/nanopb/pb_decode.c:1391-1461 | Bytes, strings and fixed-length bytes with their size checks |
| PbDecode.DecodePackedField | FLChat/Pods/nanopb/pb_decode.c:412-437 | A packed array: items until the substream is empty or the array is full |
| PbDecode.DecodeField | FLChat/Pods/nanopb/pb_decode.c:401-475 | One field of any kind into the struct, the has-flag, the count or the oneof choice |
| PbDecode.DecodeValue | FLChat/Pods/nanopb/pb_decode.c:1463-1485 | The decoder of the type; a submessage is decoded on top of what is there unless the field is repeated |
| PbDecode.DecodeNoinit | FLChat/Pods/nanopb/pb_decode.c:901-1049 | The loop over tags equals the specified decoder on every byte string: unknown fields skipped, last value wins, required fields checked; what that comes to for well-formed streams, see PbStreams.StreamDecodes |
| PbDecode.Decode | FLChat/Pods/nanopb/pb_decode.c:1051-1063 | The same from the default values; with PbStreams.RequiredIff, a message without a required field is refused |
| PbRoundTrip.MessageRoundTrip | FLChat/Pods/nanopb/pb_decode.c:901-1049 | For every descriptor tree in scope and every message in range, decoding the encoding succeeds and gives the message, with defaults for what was not written |
| PbRoundTrip.RestoredExactly | FLChat/Pods/nanopb/pb_encode.c:215-305 | The message comes back exactly if and only if, at every level, absent fields and zero proto3 values hold their defaults |
| PbZero.WritesNothingIff | FLChat/Pods/nanopb/pb_encode.c:215-305 | A field writes nothing if and only if it is an optional field without its flag, an empty array, a oneof member not chosen, or a single proto3 value that is 0 or empty, a submessage being empty when it would write nothing itself |
| PbZero.ZeroDefaultsRoundTrip | FLChat/Pods/nanopb/pb_decode.c:901-1049 | Under a descriptor whose defaults are zero or empty at every depth, decoding the encoding of any message in range gives back that very message, provided its absent optional fields hold their defaults |
| PbRoundTrip.UnknownFieldsChangeNothing | FLChat/Pods/nanopb/pb_decode.c:951-960 | Well-formed unknown fields inserted anywhere between the records of the message, and of its submessages at every depth, whose lengths grow with them, change nothing |
| PbRoundTrip.NoisyRoundTrip | FLChat/Pods/nanopb/pb_decode.c:901-1049 | A stream of the records of a message with such unknown fields decodes to the message, whatever its length |
| PbRoundTrip.EverythingSeen | FLChat/Pods/nanopb/pb_decode.c:988-1045 | Encoding writes every required field, so the check of the decoder passes |
| PbRoundTrip.RecDecodes | FLChat/Pods/nanopb/pb_decode.c:936-1010 | One encoded record takes the decoder on by its effect on the struct |
| PbStreams.StreamDecodes | FLChat/Pods/nanopb/pb_decode.c:901-1049 | Any well-formed stream (records in any order and number, submessages as streams of their own, unknown fields among them) on top of any struct: decoding succeeds if and only if no array overflows and, at every depth, each of the first 64 required fields has a record; the result is then what the records make of the struct, the last value winning, arrays growing, submessages merged, oneof members replacing each other |
| PbStreams.RequiredIff | FLChat/Pods/nanopb/pb_decode.c:1012-1045 | If no array overflows, decoding from the defaults succeeds if and only if no required field is missing at any depth |
| PbRefusals.CutStream | FLChat/Pods/nanopb/pb_decode.c:914-958 | A well-formed stream cut after any number of bytes: refused if the cut goes through a record, else decoded as the records before the cut |
| PbRefusals.ZeroEndsMessage | FLChat/Pods/nanopb/pb_decode.c:305-309 | A zero byte in the place of a tag ends the message, whatever follows |
| PbRefusals.TagZero | FLChat/Pods/nanopb/pb_common.c:78-95 | A field with tag 0 is refused by an empty descriptor, which finds its own terminator, and skipped under any other |
| PbRefusals.UvarintIff | FLChat/Pods/nanopb/pb_decode.c:1326-1348 | An unsigned value is taken if and only if it fits the field |
| PbRefusals.SvarintIff | FLChat/Pods/nanopb/pb_decode.c:1350-1372 | A zigzag value is taken if and only if it fits the field |
| PbRefusals.VarintIff | FLChat/Pods/nanopb/pb_decode.c:1289-1324 | A signed value is taken if and only if the field has a value with the same low 32 bits, or 64 for an eight-byte field, and is that value |
| PbRefusals.DataIff | FLChat/Pods/nanopb/pb_decode.c:1391-1508 | Bytes are taken if and only if they fit with their length field, a string with its terminator; a fixed-length field takes exactly its length, and zeros for nothing |
| PbEvolution.ReaderSkips | FLChat/Pods/nanopb/pb_decode.c:929-960 | What was written under one descriptor is decoded under another one, whose fields are alike or missing at any depth, exactly as if only the records had been written that the reader knows |
| PbEvolution.ReaderLacks | FLChat/Pods/nanopb/pb_decode.c:951-960 | A reader whose descriptor lacks any of the fields of the writer gets the encoded message without these fields |
| PbEvolution.UnknownRecord | FLChat/Pods/nanopb/pb_decode.c:316-326 | Every record of every kind of field is a well-formed unknown field to a reader that does not know its tag: its wire type tells how to skip it |
| PbCodec.EncodeThenDecode | FLChat/Pods/nanopb/pb_encode.c:494-516 | The imperative encoder into a buffer of the computed size, then the imperative decoder: the message again, exactly if and only if nothing in it is masked; with zero or empty defaults that is every message |

## Left out

- EngineTheorems.EveryReadIsLinear: holds of clean runs, whose exact conditions are proved, because runs with other steps can lose writes (`EngineFailures`). File operations succeed, except that a compaction may fail and a crash may come at any time; failing log appends, failing flushes and the paranoid-checks policy are not steps of the engine. Sequence numbers are unbounded in the engine, below 2^56 in `DbFormat`, `MemTables` and `WriteBatches`.
- EngineTheorems.CrashRecovery: what reached the log is taken to be on disk, as after a crash of the process; loss of unsynced file contents by the operating system is not modelled.
- Engine.Disk: the manifest is replaced in one step. A crash before the new version is recorded is covered, as a crash before the step; one that cuts the record of a version edit in the manifest file, and the reuse of a manifest that ends in such a record, are not.
- Engine.CanCompactBegin: allows any files of a level below level 0 as upper inputs, of which the code takes some; sizes decide only in `Picking`. Scores, seek statistics and the order of compactions are parameters.
- LogAppends.TornAppend: one cut and one writer after it, then a last cut; a log torn several times is covered in the engine, record by record. That the torn fragment fails its checksum is a hypothesis.
- PbDecode.IStream.DecodeVarint32: the 8-bit position counter of the C code, which more than 36 groups could wrap, is unbounded here.
- InternalKeys.UserKey: in the engine, the iterator and the compaction a user key is its place in the order of the user comparator (a real number); `DbFormat` and `MemTables` have keys as bytes with an arbitrary comparator.
- WriteQueue.Queue.FinishGroup: the insertion into the memtable succeeds, as it does for batches that the library has built; bytes that a failed append leaves in the log file are not modelled, nor what the engine does after such a failure.
- LogFormat.Checksum: CRC32C is an uninterpreted function that yields four bytes.
- LogReader.ReadLog: reports are the byte counts given to the reporter, without their texts; the sequential file does not fail.
- SkipLists.SkipList.Insert: the height drawn at random is a parameter; stores are atomic steps and a search may see any stale or fresh max height, but weaker orders of memory operations than the barriers allow are not modelled.
- SkipLists.SearchIsLinear: covers the search of FindGreaterOrEqual; FindLessThan and FindLast are proved between the stores of an Insert, with any max height.
- DbFormat.SeparatorSeparates: the user comparator's own shortening is a parameter with the property its interface demands.
- WriteBatches.InsertInto: sequences are new to the memtable and fit into 56 bits, as the engine guarantees.
- VersionEdits.EditRoundTrip: levels below kNumLevels, non-empty internal keys and 64-bit numbers, as the code requires.
- PbRoundTrip.MessageRoundTrip: descriptors without callbacks, pointers, extensions and fixed counts, with unique nonzero tags; strings end before their size, counts are within their arrays, and the encoding is shorter than 2^32 bytes, which its length prefixes need.
- PbEncode.EncodeMessage: values are in range; the error returns for a byte array longer than its storage or a count above the array size are excluded by that. Arithmetic on size_t does not wrap around.
- PbDecode.DecodeNoinit: states the struct only when decoding succeeds; error texts, the extension fields and the release of allocated memory after a failure are outside. Sizes are those of the build setting PB_FIELD_32BIT.
- PbMessage.Slot: the layout of structs is modelled as far as the offsets that the iterator computes; the bytes of union members that are not chosen have no value.
- Table files and the merging iterator: immutable sorted sequences.
- The rest of version_set.cc, builder.cc, table_cache.cc, filename.cc, repair.cc, c.cc, dumpfile.cc, port and util beyond the codecs: bindings, file names, caches, printing and operating-system work.
- GetProperty, GetApproximateSizes, statistics and logging: they do not change what is stored or read.
- pb_encode_delimited, pb_encode_nullterminated and their decoders: one length or one zero around the functions that are modelled.
- The Swift sources of the app, and the other pods: user interface and calls of services that are not in the repository.
