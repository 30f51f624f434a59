/**
 Runs in which a step that is not clean does harm: a key split over two files of a level, a table
 flushed between the inputs of a compaction, and a record that cannot be read again.
 */
module EngineFailures {
  import opened InternalKeys
  import opened Coding
  import opened Options
  import opened History
  import opened Levels
  import opened LevelEdits
  import opened Engine
  import opened EngineRuns
  import opened EngineTheorems
  import Compaction

  // One put or delete, from the leader's start to its end.
  function PutSteps(op: WriteOp): seq<Step> {
    [Write(StartGroup([op]))] + [Write(LogGroup(false))] + [Write(ApplyOne)] + [Write(CommitGroup)]
  }

  predicate Idle(s: State) {
    s.m.group.None? && s.m.imm.None? && s.m.mem < |s.m.tables| && s.bg.flush.None? && !s.bg.error && s.bg.logNumber in s.disk.logs
  }

  function AfterPut(s: State, op: WriteOp): State
    requires Idle(s)
  {
    var n := s.m.lastSequence + 1;
    s.(disk := s.disk.(logs := s.disk.logs[s.bg.logNumber := Append(s.disk.logs[s.bg.logNumber], Record(n, [op]), false)]),
       m := s.m.(history := s.m.history + [op], lastSequence := n,
                 tables := s.m.tables[s.m.mem := s.m.tables[s.m.mem] + {OpEntry(op, n)}]))
  }

  lemma PutLeads(s: State, op: WriteOp)
    requires Idle(s)
    ensures Leads(Up(s), PutSteps(op), Up(AfterPut(s, op)))
  {
    var s1 := DoStartGroup(s, [op]);
    var s2 := DoLogGroup(s1, false);
    var s3 := DoApplyOne(s2);
    One(Up(s), Write(StartGroup([op])));
    Last(Up(s), [Write(StartGroup([op]))], Up(s1), Write(LogGroup(false)));
    Last(Up(s), [Write(StartGroup([op]))] + [Write(LogGroup(false))], Up(s2), Write(ApplyOne));
    Last(Up(s), [Write(StartGroup([op]))] + [Write(LogGroup(false))] + [Write(ApplyOne)], Up(s3), Write(CommitGroup));
    assert DoCommitGroup(s3) == AfterPut(s, op);
  }

  // A switch of memtables and the flush of the old one.
  function FlushSteps(level: nat, f: FileMeta): seq<Step> {
    [Write(SwitchMemtable)] + [MemCompaction(FlushBegin)] + [MemCompaction(FlushBuild)] + [MemCompaction(FlushUnpend)] +
    [MemCompaction(FlushInstall(level, f))]
  }

  predicate CanFlush(s: State, level: nat, f: FileMeta) {
    Idle(s) && s.bg.nextFile !in s.disk.logs && s.bg.nextFile + 1 !in s.bg.pending && f.number == s.bg.nextFile + 1 &&
    f.smallest in s.m.tables[s.m.mem] && f.largest in s.m.tables[s.m.mem] &&
    (forall e :: e in s.m.tables[s.m.mem] ==> AtOrBefore(f.smallest, e) && AtOrBefore(e, f.largest)) &&
    level < |s.disk.levels| && PlaceOk(s.disk.levels, level, f)
  }

  function AfterFlush(s: State, level: nat, f: FileMeta): State
    requires CanFlush(s, level, f)
  {
    var d, m, n := s.disk, s.m, s.bg.nextFile;
    State(Disk(d.logs[n := LogFile([], false)], d.files[n + 1 := m.tables[m.mem]], Added(d.levels, level, f), n, m.lastSequence, n + 2),
          m.(tables := m.tables + [{}], mem := |m.tables|, imm := None, flushed := |m.history|, switched := |m.history|),
          s.bg.(logNumber := n, nextFile := n + 2), s.snapshots, s.floor, s.readers)
  }

  lemma FlushLeads(s: State, level: nat, f: FileMeta)
    requires CanFlush(s, level, f)
    ensures Leads(Up(s), FlushSteps(level, f), Up(AfterFlush(s, level, f)))
  {
    var s1 := DoSwitchMemtable(s);
    var s2 := DoFlushBegin(s1);
    var s3 := DoFlushBuild(s2);
    var s4 := DoFlushUnpend(s3);
    var a := [Write(SwitchMemtable)];
    One(Up(s), Write(SwitchMemtable));
    Last(Up(s), a, Up(s1), MemCompaction(FlushBegin));
    Last(Up(s), a + [MemCompaction(FlushBegin)], Up(s2), MemCompaction(FlushBuild));
    Last(Up(s), a + [MemCompaction(FlushBegin)] + [MemCompaction(FlushBuild)], Up(s3), MemCompaction(FlushUnpend));
    assert s4.bg.pending == s.bg.pending;
    assert s4.m.tables[s4.m.imm.value] == s.m.tables[s.m.mem];
    assert CanFlushInstall(s4, level, f);
    Last(Up(s), a + [MemCompaction(FlushBegin)] + [MemCompaction(FlushBuild)] + [MemCompaction(FlushUnpend)], Up(s4),
         MemCompaction(FlushInstall(level, f)));
    assert DoFlushInstall(s4, level, f) == AfterFlush(s, level, f);
  }

  // ---------------------------------------------------------------- opening a new database

  const EmptyVersion: Version := [[], [], [], [], [], [], []]

  const FirstRecovery: Recovery := Recovery(0, map[], [], false, true, 0, 2)

  const Fresh: State := State(
    Disk(map[2 := LogFile([], false)], map[], EmptyVersion, 2, 0, 3),
    Memory([], 0, None, [{}], 0, None, 0, 0), Background(2, 3, {}, None, None, false), [], 0, [])

  lemma FreshLeads()
    ensures Leads(NewDB, [Open(FirstRecovery)], Up(Fresh))
  {
    assert NewDB.disk.levels == EmptyVersion;
    assert Replay(map[], 0, 1) == {} && TableEntries(map[], {}) == {};
    assert FirstRecovery.tables.Keys == {};
    assert OpenEnabled(NewDB.disk, FirstRecovery);
    One(NewDB, Open(FirstRecovery));
    assert EmptyVersion[0 := InsertAll(EmptyVersion[0], [])] == EmptyVersion;
    assert OpenState(NewDB.disk, [], 0, 0, 0, 0, FirstRecovery) == Fresh;
  }

  // ---------------------------------------------------------------- a key split over two files

  const K: UserKey := 1.0
  const OldPut: WriteOp := WriteOp(K, true, [1])
  const OldEntry: Entry := Entry(K, 1, Put, [1])
  const OldFile: FileMeta := FileMeta(6, OldEntry, OldEntry)

  function NewFile(op: WriteOp): FileMeta { FileMeta(5, OpEntry(op, 2), OpEntry(op, 2)) }

  function BothFile(op: WriteOp): FileMeta { FileMeta(4, OpEntry(op, 2), OldEntry) }

  function BothEntries(op: WriteOp): set<Entry> { {OldEntry, OpEntry(op, 2)} }

  // Both writes of the key in one table of level 2; a snapshot between them.
  function Flushed(op: WriteOp): State {
    State(Disk(map[2 := LogFile([Record(1, [OldPut]), Record(2, [op])], false), 3 := LogFile([], false)], map[4 := BothEntries(op)],
               [[], [], [BothFile(op)], [], [], [], []], 3, 2, 5),
          Memory([OldPut, op], 2, None, [BothEntries(op), {}], 1, None, 2, 2), Background(3, 5, {}, None, None, false), [1], 0, [])
  }

  function UntilFlushed(op: WriteOp): seq<Step> {
    [Open(FirstRecovery)] + PutSteps(OldPut) + [Read(TakeSnapshot)] + PutSteps(op) + FlushSteps(2, BothFile(op))
  }

  lemma TwoPuts(op: WriteOp)
    requires op.key == K
    ensures var s := AfterPut(DoTakeSnapshot(AfterPut(Fresh, OldPut)), op);
            CanFlush(s, 2, BothFile(op)) && AfterFlush(s, 2, BothFile(op)) == Flushed(op)
  {
    var s1 := AfterPut(Fresh, OldPut);
    assert {} + {OldEntry} == {OldEntry} && OpEntry(OldPut, 1) == OldEntry;
    assert s1.m.tables == [{OldEntry}] && s1.m.history == [OldPut];
    var s := AfterPut(DoTakeSnapshot(s1), op);
    assert {OldEntry} + {OpEntry(op, 2)} == BothEntries(op);
    assert s.m.tables == [BothEntries(op)] && s.m.history == [OldPut, op];
    assert s.disk.logs[2] == LogFile([Record(1, [OldPut]), Record(2, [op])], false);
    assert s.bg.pending == {} && s.snapshots == [1];
    var t := AfterFlush(s, 2, BothFile(op));
    assert Insert([], BothFile(op)) == [BothFile(op)];
    assert t.disk.levels == Flushed(op).disk.levels;
    assert t.disk.logs == Flushed(op).disk.logs;
    assert t.m.tables == Flushed(op).m.tables;
  }

  lemma FlushedLeads(op: WriteOp)
    requires op.key == K
    ensures Leads(NewDB, UntilFlushed(op), Up(Flushed(op)))
  {
    FreshLeads();
    PutLeads(Fresh, OldPut);
    var s1 := AfterPut(Fresh, OldPut);
    Then(NewDB, [Open(FirstRecovery)], Up(Fresh), PutSteps(OldPut), Up(s1));
    var s2 := DoTakeSnapshot(s1);
    Last(NewDB, [Open(FirstRecovery)] + PutSteps(OldPut), Up(s1), Read(TakeSnapshot));
    PutLeads(s2, op);
    var s3 := AfterPut(s2, op);
    Then(NewDB, [Open(FirstRecovery)] + PutSteps(OldPut) + [Read(TakeSnapshot)], Up(s2), PutSteps(op), Up(s3));
    TwoPuts(op);
    FlushLeads(s3, 2, BothFile(op));
    Then(NewDB, [Open(FirstRecovery)] + PutSteps(OldPut) + [Read(TakeSnapshot)] + PutSteps(op), Up(s3),
         FlushSteps(2, BothFile(op)), Up(AfterFlush(s3, 2, BothFile(op))));
  }

  // A compaction to level 3 that cuts its output between the two entries; then the snapshot goes.
  function SplitSteps(op: WriteOp): seq<Step> {
    [Compact(CompactBegin(2, {4}, K, K, [OpEntry(op, 2), OldEntry]))] + [Compact(CompactOpen)] + [Compact(CompactOpen)] +
    [Compact(CompactFinish(5, {OpEntry(op, 2)}))] + [Compact(CompactFinish(6, {OldEntry}))] +
    [Compact(CompactInstall([NewFile(op), OldFile]))] + [Compact(CompactCleanup)] + [Read(ReleaseSnapshot(0))]
  }

  function Split(op: WriteOp): State {
    State(Disk(map[2 := LogFile([Record(1, [OldPut]), Record(2, [op])], false), 3 := LogFile([], false)],
               map[4 := BothEntries(op), 5 := {OpEntry(op, 2)}, 6 := {OldEntry}],
               [[], [], [], [NewFile(op), OldFile], [], [], []], 3, 2, 7),
          Memory([OldPut, op], 2, None, [BothEntries(op), {}], 1, None, 2, 2), Background(3, 7, {}, None, None, false), [], 1, [])
  }

  function Merging(op: WriteOp, outputs: set<nat>): CompactionState {
    CompactionState(1, 2, Flushed(op).disk.levels, {4}, K, K, [OpEntry(op, 2), OldEntry], {K}, outputs, false)
  }

  lemma BeginSplit(op: WriteOp)
    requires op.key == K
    ensures var c := CompactBegin(2, {4}, K, K, [OpEntry(op, 2), OldEntry]);
            CompactEnabled(Flushed(op), c) && CleanCompact(Flushed(op), c) &&
            ApplyCompact(Flushed(op), c) == Flushed(op).(bg := Flushed(op).bg.(compaction := Some(Merging(op, {}))))
  {
    var s, merged := Flushed(op), [OpEntry(op, 2), OldEntry];
    assert NumbersOf(s.disk.levels[2]) == {4};
    assert Elements(merged) == BothEntries(op);
    OneTable(s.disk.files, 4);
    assert BaseKeys(s.disk.levels, 2, merged) == {K} by { assert OldEntry in merged && AtBaseLevel(s.disk.levels, 2, K); }
  }

  lemma OneTable(files: Files, n: nat)
    requires n in files
    ensures TableEntries(files, {n}) == files[n]
  {
  }

  // The state while the outputs are built.
  function Built(op: WriteOp): State {
    var s := Flushed(op);
    s.(disk := s.disk.(files := map[4 := BothEntries(op), 5 := {OpEntry(op, 2)}, 6 := {OldEntry}]),
       bg := Background(3, 7, {5, 6}, None, Some(Merging(op, {5, 6})), false))
  }

  lemma BuiltLeads(op: WriteOp)
    requires op.key == K
    ensures Leads(Up(Flushed(op)), [Compact(CompactBegin(2, {4}, K, K, [OpEntry(op, 2), OldEntry]))] + [Compact(CompactOpen)] + [Compact(CompactOpen)] +
                  [Compact(CompactFinish(5, {OpEntry(op, 2)}))] + [Compact(CompactFinish(6, {OldEntry}))], Up(Built(op)))
  {
    BeginSplit(op);
    var s := Flushed(op);
    var begin := [Compact(CompactBegin(2, {4}, K, K, [OpEntry(op, 2), OldEntry]))];
    var s1 := s.(bg := s.bg.(compaction := Some(Merging(op, {}))));
    One(Up(s), begin[0]);
    var s2 := DoCompactOpen(s1);
    Last(Up(s), begin, Up(s1), Compact(CompactOpen));
    var s3 := DoCompactOpen(s2);
    Last(Up(s), begin + [Compact(CompactOpen)], Up(s2), Compact(CompactOpen));
    var s4 := DoCompactFinish(s3, 5, {OpEntry(op, 2)});
    Last(Up(s), begin + [Compact(CompactOpen)] + [Compact(CompactOpen)], Up(s3), Compact(CompactFinish(5, {OpEntry(op, 2)})));
    Last(Up(s), begin + [Compact(CompactOpen)] + [Compact(CompactOpen)] + [Compact(CompactFinish(5, {OpEntry(op, 2)}))], Up(s4),
         Compact(CompactFinish(6, {OldEntry})));
    assert {5} + {6} == {5, 6} && {} + {5} == {5};
    assert DoCompactFinish(s4, 6, {OldEntry}) == Built(op);
  }

  lemma KeptBoth(op: WriteOp)
    requires op.key == K
    ensures Compaction.Kept([OpEntry(op, 2), OldEntry], 2, 1, {K}) == [OpEntry(op, 2), OldEntry]
  {
    assert Compaction.Kept([OpEntry(op, 2), OldEntry], 1, 1, {K}) == [OpEntry(op, 2)];
  }

  lemma SplitVersion(op: WriteOp)
    requires op.key == K
    ensures Compacted(Built(op).disk.levels, 2, {4}, [NewFile(op), OldFile]) == Split(op).disk.levels
  {
    var v, outs := Built(op).disk.levels, [NewFile(op), OldFile];
    assert Remove(v[2], {4}) == [] && Remove(v[3], {4}) == [];
    assert InsertAll([], [NewFile(op)]) == [NewFile(op)];
    assert outs[..1] == [NewFile(op)];
    assert Insert([NewFile(op)], OldFile) == outs;
    assert InsertAll([], outs) == outs;
  }

  lemma CanInstallSplit(op: WriteOp)
    requires op.key == K
    ensures CompactEnabled(Built(op), CompactInstall([NewFile(op), OldFile]))
  {
    var s, outs := Built(op), [NewFile(op), OldFile];
    KeptBoth(op);
    assert NumbersOf(outs) == {5, 6} by { assert outs[0] in outs && outs[1] in outs; }
    OneTable(s.disk.files, 5);
    OneTable(s.disk.files, 6);
    TablesUnion(s.disk.files, {5}, {6});
    assert {5} + {6} == {5, 6};
    assert Elements([OpEntry(op, 2), OldEntry]) == {OpEntry(op, 2)} + {OldEntry};
  }

  lemma InstallSplit(op: WriteOp)
    requires op.key == K
    ensures var c := CompactInstall([NewFile(op), OldFile]); CompactEnabled(Built(op), c) && CleanCompact(Built(op), c)
  {
    CanInstallSplit(op);
    assert forall l: nat, f, g :: !SplitAt(Built(op).disk.levels, {4}, l, f, g);
  }

  lemma SplitLeads(op: WriteOp)
    requires op.key == K
    ensures Leads(NewDB, UntilFlushed(op) + SplitSteps(op), Up(Split(op)))
  {
    var s := Flushed(op);
    BuiltLeads(op);
    InstallSplit(op);
    SplitVersion(op);
    var built := [Compact(CompactBegin(2, {4}, K, K, [OpEntry(op, 2), OldEntry]))] + [Compact(CompactOpen)] + [Compact(CompactOpen)] +
                 [Compact(CompactFinish(5, {OpEntry(op, 2)}))] + [Compact(CompactFinish(6, {OldEntry}))];
    var install := Compact(CompactInstall([NewFile(op), OldFile]));
    var s1 := DoCompactInstall(Built(op), [NewFile(op), OldFile]);
    Last(Up(s), built, Up(Built(op)), install);
    var s2 := DoCompactEnd(s1, false);
    Last(Up(s), built + [install], Up(s1), Compact(CompactCleanup));
    Last(Up(s), built + [install] + [Compact(CompactCleanup)], Up(s2), Read(ReleaseSnapshot(0)));
    assert DoReleaseSnapshot(s2, 0) == Split(op);
    FlushedLeads(op);
    Then(NewDB, UntilFlushed(op), Up(s), SplitSteps(op), Up(Split(op)));
  }

  // A level that starts with the older entry answers with it.
  lemma OldEntryFound(files: Files, v: Version)
    requires |v| == kNumLevels && v[0] == v[1] == v[2] == [] && v[3] == [OldFile] && 6 in files && files[6] == {OldEntry}
    ensures VersionGet(files, v, K, 2) == Some([1])
  {
    assert IsNewest({OldEntry}, K, 2, OldEntry);
    ViewIs({OldEntry}, K, 2, OldEntry);
    assert Candidate(OldEntry, K, 2) && LookupIn({OldEntry}, K, 2) == Hit(OldEntry);
    assert v[1..][1..][1..][0] == v[3] && v[1..][1..][0] == v[2] && v[1..][0] == v[1];
    assert FindFile(v[3], K, 2, 0, 1) == 0;
    assert GetInLevel(files, v[3], K, 2) == Hit(OldEntry);
    assert GetBelow(files, v[1..][1..][1..], K, 2) == Hit(OldEntry);
    assert GetBelow(files, v[1..][1..], K, 2) == Hit(OldEntry);
  }

  function Moved(op: WriteOp): Version { [[], [], [], [OldFile], [NewFile(op)], [], []] }

  lemma MoveVersion(op: WriteOp)
    requires op.key == K
    ensures CanMove(Split(op).disk.levels, 3, NewFile(op)) && Compacted(Split(op).disk.levels, 3, {5}, [NewFile(op)]) == Moved(op)
  {
    var v := Split(op).disk.levels;
    assert NewFile(op) in v[3] && 5 in NumbersOf(v[3]);
    assert Remove([OldFile], {5}) == [OldFile];
    assert v[3][1..] == [OldFile];
    assert Remove(v[3], {5}) == [OldFile] && Remove(v[4], {5}) == [];
    assert InsertAll([], [NewFile(op)]) == [NewFile(op)];
  }

  lemma NothingInMemory(s: State, k: UserKey)
    requires s.m.mem < |s.m.tables| && s.m.tables[s.m.mem] == {} && s.m.imm.None? && s.disk.levels != []
    ensures GetLatest(s, k) == VersionGet(s.disk.files, s.disk.levels, k, s.m.lastSequence)
  {
    NoCandidate({}, k, s.m.lastSequence);
  }

  lemma SplitAnswers(op: WriteOp)
    requires op.key == K
    ensures Split(op).m.mem < |Split(op).m.tables| && GetLatest(Split(op), K) == OpValue(op)
  {
    SplitLeads(op);
    NewDBInv();
    RunKeepsInv(NewDB, UntilFlushed(op) + SplitSteps(op));
    GetLatestIsLinear(Split(op), K);
  }

  lemma MoveIsNotClean(op: WriteOp)
    requires op.key == K
    ensures var move := Compact(TrivialMove(3, NewFile(op))); Enabled(Up(Split(op)), move) && !Clean(Up(Split(op)), move)
  {
    MoveVersion(op);
    var v := Split(op).disk.levels;
    assert v[3][0] == NewFile(op) && v[3][1] == OldFile;
    assert SplitAt(v, {5}, 3, NewFile(op), OldFile);
  }

  // The newer entry is in a table of its own, which the next move takes below the older one: whatever was
  // written last, and acknowledged, the database answers with what it replaced.
  lemma SplitKeyComesBack(op: WriteOp)
    requires op.key == K
    ensures Leads(NewDB, UntilFlushed(op) + SplitSteps(op), Up(Split(op)))
    ensures var move := Compact(TrivialMove(3, NewFile(op)));
            Enabled(Up(Split(op)), move) && !Clean(Up(Split(op)), move) &&
            Split(op).m.mem < |Split(op).m.tables| && GetLatest(Split(op), K) == OpValue(op) &&
            GetLatest(Next(Up(Split(op)), move).st, K) == Some([1])
  {
    SplitLeads(op);
    SplitAnswers(op);
    MoveIsNotClean(op);
    MoveVersion(op);
    OldEntryFound(Split(op).disk.files, Moved(op));
    NothingInMemory(DoTrivialMove(Split(op), 3, NewFile(op)), K);
  }

  const Erase: WriteOp := WriteOp(K, false, [])

  // Compacting the table of a deletion alone drops the deletion: the key is at its base level.
  const BeginErasing: Step := Compact(CompactBegin(3, {5}, K, K, [OpEntry(Erase, 2)]))
  const InstallErasing: Step := Compact(CompactInstall([]))

  function Erasing(): State {
    var s := Split(Erase);
    var c := CompactionState(2, 3, s.disk.levels, {5}, K, K, [OpEntry(Erase, 2)], {K}, {}, false);
    s.(bg := s.bg.(compaction := Some(c)))
  }

  lemma BeginErase()
    ensures var c := CompactBegin(3, {5}, K, K, [OpEntry(Erase, 2)]);
            CompactEnabled(Split(Erase), c) && CleanCompact(Split(Erase), c) && ApplyCompact(Split(Erase), c) == Erasing()
  {
    var s, merged := Split(Erase), [OpEntry(Erase, 2)];
    var v := s.disk.levels;
    assert v[3][0] == NewFile(Erase) && v[3][1] == OldFile && 5 in NumbersOf(v[3]);
    OneTable(s.disk.files, 5);
    assert Elements(merged) == {OpEntry(Erase, 2)};
    assert BaseKeys(v, 3, merged) == {K} by { assert merged[0] in merged && AtBaseLevel(v, 3, K); }
  }

  lemma EraseResurfaces()
    ensures !NothingResurfaces(Erasing())
  {
    var s, merged := Split(Erase), [OpEntry(Erase, 2)];
    var v := s.disk.levels;
    assert v[3][0] == NewFile(Erase) && v[3][1] == OldFile;
    OnlyOldOutside();
    var others := Outside(s.disk.files, v, {5}, InMemory(s.m));
    assert merged[0] in merged && BaseKeys(v, 3, merged) == {K} by { assert AtBaseLevel(v, 3, K); }
    assert IsNewest(others, K, 2, OldEntry) && IsNewest(Elements(merged) + others, K, 2, merged[0]);
    assert LeftBehind(v, 3, {5}, merged, 3, NewFile(Erase), OldFile);
    assert Resurfaces(v, 3, {5}, merged, others, 2, merged[0], 3, NewFile(Erase), OldFile);
  }

  lemma OnlyOldOutside()
    ensures Outside(Split(Erase).disk.files, Split(Erase).disk.levels, {5}, InMemory(Split(Erase).m)) == {OldEntry}
  {
    var files, v := Split(Erase).disk.files, Split(Erase).disk.levels;
    assert v[3] in v && v[3][0] == NewFile(Erase) && v[3][1] == OldFile;
    assert Numbers(v) == {5, 6} by {
      forall n | n in Numbers(v) ensures n in {5, 6} {
        var gs, g :| gs in v && g in gs && g.number == n;
      }
    }
    assert Numbers(v) - {5} == {6};
    OneTable(files, 6);
  }

  lemma EraseVersion()
    ensures Compacted(Erasing().disk.levels, 3, {5}, []) == [[], [], [], [OldFile], [], [], []]
  {
    var v := Erasing().disk.levels;
    assert Remove([OldFile], {5}) == [OldFile];
    assert v[3][1..] == [OldFile];
    assert Remove(v[3], {5}) == [OldFile] && Remove(v[4], {5}) == [];
  }

  lemma CanInstallErase()
    ensures CompactEnabled(Erasing(), CompactInstall([]))
  {
    assert Compaction.Kept([OpEntry(Erase, 2)], 1, 2, {K}) == [];
    assert NumbersOf([]) == {} && TableEntries(Erasing().disk.files, {}) == {};
  }

  lemma InstallErase()
    ensures CompactEnabled(Erasing(), CompactInstall([])) && !CleanCompact(Erasing(), CompactInstall([]))
  {
    CanInstallErase();
    EraseResurfaces();
  }

  function Erased(): State { DoCompactInstall(Erasing(), []) }

  lemma ErasingLeads()
    ensures Leads(NewDB, UntilFlushed(Erase) + SplitSteps(Erase) + [BeginErasing], Up(Erasing()))
  {
    SplitLeads(Erase);
    BeginErase();
    Last(NewDB, UntilFlushed(Erase) + SplitSteps(Erase), Up(Split(Erase)), BeginErasing);
  }

  // The deletion is gone from the live tables and the value it hid stays.
  lemma DeletedKeyComesBack()
    ensures Leads(NewDB, UntilFlushed(Erase) + SplitSteps(Erase) + [BeginErasing], Up(Erasing()))
    ensures Enabled(Up(Erasing()), InstallErasing) && !Clean(Up(Erasing()), InstallErasing) && Next(Up(Erasing()), InstallErasing) == Up(Erased())
    ensures Erasing().m.mem < |Erasing().m.tables| && Erasing().disk.levels != [] && GetLatest(Erasing(), K) == None
    ensures Erased().m == Erasing().m && Erased().disk.levels == [[], [], [], [OldFile], [], [], []] && GetLatest(Erased(), K) == Some([1])
  {
    ErasingLeads();
    InstallErase();
    SplitAnswers(Erase);
    NothingInMemory(Split(Erase), K);
    NothingInMemory(Erasing(), K);
    EraseVersion();
    OldEntryFound(Erased().disk.files, Erased().disk.levels);
    NothingInMemory(Erased(), K);
  }

  // ---------------------------------------------------------------- a table flushed between the inputs

  // One write, and the table it fills.
  function TableSteps(s: State, op: WriteOp, level: nat): seq<Step> {
    PutSteps(op) + FlushSteps(level, TableOf(s, op))
  }

  function TableOf(s: State, op: WriteOp): FileMeta {
    var e := OpEntry(op, s.m.lastSequence + 1);
    FileMeta(s.bg.nextFile + 1, e, e)
  }

  // Nothing in memory, and the next numbers are free.
  predicate Ready(s: State) {
    Idle(s) && s.m.tables[s.m.mem] == {} && (forall n :: n in s.disk.logs ==> n < s.bg.nextFile) &&
    (forall n :: n in s.bg.pending ==> n < s.bg.nextFile)
  }

  function AfterTable(s: State, op: WriteOp, level: nat): State
    requires Ready(s) && level < |s.disk.levels| && PlaceOk(s.disk.levels, level, TableOf(s, op))
  {
    assert AfterPut(s, op).m.tables[s.m.mem] == {OpEntry(op, s.m.lastSequence + 1)};
    AfterFlush(AfterPut(s, op), level, TableOf(s, op))
  }

  lemma TableLeads(s: State, op: WriteOp, level: nat)
    requires Ready(s) && level < |s.disk.levels| && PlaceOk(s.disk.levels, level, TableOf(s, op))
    ensures Leads(Up(s), TableSteps(s, op, level), Up(AfterTable(s, op, level)))
    ensures var t, e, n := AfterTable(s, op, level), OpEntry(op, s.m.lastSequence + 1), s.bg.nextFile;
            Ready(t) && t.disk.files == s.disk.files[n + 1 := {e}] && t.disk.levels == Added(s.disk.levels, level, TableOf(s, op)) &&
            t.bg == s.bg.(logNumber := n, nextFile := n + 2) && t.m.lastSequence == s.m.lastSequence + 1 && t.m.history == s.m.history + [op] &&
            t.snapshots == s.snapshots
  {
    PutLeads(s, op);
    assert AfterPut(s, op).m.tables[s.m.mem] == {OpEntry(op, s.m.lastSequence + 1)};
    FlushLeads(AfterPut(s, op), level, TableOf(s, op));
    Then(Up(s), PutSteps(op), Up(AfterPut(s, op)), FlushSteps(level, TableOf(s, op)), Up(AfterTable(s, op, level)));
  }

  const A: UserKey := 1.0
  const B: UserKey := 2.0
  const C: UserKey := 3.0

  function PutOf(k: UserKey): WriteOp { WriteOp(k, true, [1]) }
  function FileOf(n: nat, k: UserKey, seqno: nat): FileMeta { FileMeta(n, Entry(k, seqno, Put, [1]), Entry(k, seqno, Put, [1])) }

  function GapOp(n: nat): WriteOp { PutOf(if n <= 1 then A else C) }
  function GapLevel(n: nat): nat { if n % 2 == 0 then 2 else 1 }

  // Two keys, each in a table on level 2 and, written again, in another that stays above it on level 1.
  function Gap(n: nat): State
    requires n <= 4
  {
    if n == 0 then Fresh
    else
      var s := Gap(n - 1);
      if Ready(s) && GapLevel(n - 1) < |s.disk.levels| && PlaceOk(s.disk.levels, GapLevel(n - 1), TableOf(s, GapOp(n - 1)))
      then AfterTable(s, GapOp(n - 1), GapLevel(n - 1)) else s
  }

  function UntilGap(n: nat): seq<Step>
    requires n <= 4
  {
    if n == 0 then [Open(FirstRecovery)] else UntilGap(n - 1) + TableSteps(Gap(n - 1), GapOp(n - 1), GapLevel(n - 1))
  }

  const A1: FileMeta := FileOf(4, A, 1)
  const A2: FileMeta := FileOf(6, A, 2)
  const C3: FileMeta := FileOf(8, C, 3)
  const C4: FileMeta := FileOf(10, C, 4)

  function GapVersion(n: nat): Version {
    [[], if n < 2 then [] else if n < 4 then [A2] else [A2, C4], if n < 1 then [] else if n < 3 then [A1] else [A1, C3], [], [], [], []]
  }

  function GapFiles(n: nat): Files {
    map f | f in {4, 6, 8, 10} && f <= 2 + 2 * n :: {Entry(if f <= 6 then A else C, f / 2 - 1, Put, [1])}
  }

  ghost predicate GapState(s: State, n: nat) {
    Ready(s) && s.disk.levels == GapVersion(n) && s.disk.files == GapFiles(n) && s.m.lastSequence == n == |s.m.history| && s.snapshots == [] &&
    s.bg == Background(2 * n + if n == 0 then 2 else 1, 2 * n + 3, {}, None, None, false)
  }

  lemma GapGrows(n: nat)
    requires 0 < n <= 4
    ensures GapFiles(n) == GapFiles(n - 1)[2 * n + 2 := {Entry(if n <= 2 then A else C, n, Put, [1])}]
    ensures Added(GapVersion(n - 1), GapLevel(n - 1), FileOf(2 * n + 2, if n <= 2 then A else C, n)) == GapVersion(n)
  {
    var v, level, f := GapVersion(n - 1), GapLevel(n - 1), FileOf(2 * n + 2, if n <= 2 then A else C, n);
    assert Insert([], f) == [f];
    if n >= 3 {
      var g := if n == 3 then A1 else A2;
      assert [g][1..] == [];
      assert Insert([g], f) == [g] + [f] == [g, f];
    }
    assert GapVersion(n)[level] == Insert(v[level], f);
  }

  lemma GapPlace(n: nat, f: FileMeta)
    requires 0 < n <= 4 && f == FileOf(2 * n + 2, if n <= 2 then A else C, n)
    ensures PlaceOk(GapVersion(n - 1), GapLevel(n - 1), f)
  {
  }

  lemma GapStarts()
    ensures GapState(Fresh, 0) && Leads(NewDB, [Open(FirstRecovery)], Up(Fresh))
  {
    FreshLeads();
    assert GapFiles(0) == map[];
  }

  lemma {:induction false} GapLeads(n: nat)
    requires n <= 4
    ensures GapState(Gap(n), n) && Leads(NewDB, UntilGap(n), Up(Gap(n)))
  {
    if n == 0 {
      GapStarts();
    } else {
      GapLeads(n - 1);
      GapStep(n);
      var s := Gap(n - 1);
      TableLeads(s, GapOp(n - 1), GapLevel(n - 1));
      Then(NewDB, UntilGap(n - 1), Up(s), TableSteps(s, GapOp(n - 1), GapLevel(n - 1)), Up(Gap(n)));
    }
  }

  lemma GapStep(n: nat)
    requires 0 < n <= 4 && GapState(Gap(n - 1), n - 1)
    ensures var s := Gap(n - 1);
            PlaceOk(s.disk.levels, GapLevel(n - 1), TableOf(s, GapOp(n - 1))) && GapState(Gap(n), n)
  {
    GapStateStep(Gap(n - 1), n);
  }

  lemma GapStateStep(s: State, n: nat)
    requires 0 < n <= 4 && GapState(s, n - 1)
    ensures PlaceOk(s.disk.levels, GapLevel(n - 1), TableOf(s, GapOp(n - 1)))
    ensures GapState(AfterTable(s, GapOp(n - 1), GapLevel(n - 1)), n)
  {
    assert TableOf(s, GapOp(n - 1)) == FileOf(2 * n + 2, if n <= 2 then A else C, n);
    GapPlace(n, TableOf(s, GapOp(n - 1)));
    TableLeads(s, GapOp(n - 1), GapLevel(n - 1));
    GapGrows(n);
  }

  // A manual compaction of level 1 over all of it.
  const GapMerged: seq<Entry> := [Entry(A, 2, Put, [1]), Entry(A, 1, Put, [1]), Entry(C, 4, Put, [1]), Entry(C, 3, Put, [1])]

  function GapCompaction(outputs: set<nat>): CompactionState {
    CompactionState(4, 1, GapVersion(4), {4, 6, 8, 10}, A, C, GapMerged, {A, C}, outputs, false)
  }

  lemma GapChosen()
    ensures var v := GapVersion(4); Chosen(v, 1, {4, 6, 8, 10}, A, C) && forall l, f, g :: !SplitAt(v, {4, 6, 8, 10}, l, f, g)
  {
    var v := GapVersion(4);
    assert v[1][0] == A2 && v[1][1] == C4 && v[2][0] == A1 && v[2][1] == C3;
    assert NumbersOf(v[1]) == {6, 10} && NumbersOf(v[2]) == {4, 8};
  }

  lemma GapBase()
    ensures BaseKeys(GapVersion(4), 1, GapMerged) == {A, C}
  {
    var v := GapVersion(4);
    assert GapMerged[0] in GapMerged && GapMerged[2] in GapMerged && AtBaseLevel(v, 1, A) && AtBaseLevel(v, 1, C);
  }

  lemma BeginGap(s: State)
    requires GapState(s, 4)
    ensures var c := CompactBegin(1, {4, 6, 8, 10}, A, C, GapMerged);
            CompactEnabled(s, c) && CleanCompact(s, c) && ApplyCompact(s, c) == s.(bg := s.bg.(compaction := Some(GapCompaction({}))))
  {
    GapInputs(s.disk.files);
    GapChosen();
    GapBase();
  }

  lemma FourTables(files: Files, a: nat, b: nat, c: nat, d: nat)
    requires {a, b, c, d} <= files.Keys
    ensures TableEntries(files, {a, b, c, d}) == files[a] + files[b] + files[c] + files[d]
  {
  }

  lemma GapContents()
    ensures {4, 6, 8, 10} <= GapFiles(4).Keys
    ensures GapFiles(4)[4] == {GapMerged[1]} && GapFiles(4)[6] == {GapMerged[0]} && GapFiles(4)[8] == {GapMerged[3]} && GapFiles(4)[10] == {GapMerged[2]}
  {
  }

  lemma GapInputs(files: Files)
    requires files == GapFiles(4)
    ensures Elements(GapMerged) == TableEntries(files, {4, 6, 8, 10}) && Sorted(GapMerged)
  {
    GapContents();
    FourTables(files, 4, 6, 8, 10);
    assert Elements(GapMerged) == {GapMerged[1]} + {GapMerged[0]} + {GapMerged[3]} + {GapMerged[2]};
  }

  const B5: FileMeta := FileOf(13, B, 5)
  const Merged11: FileMeta := FileMeta(11, GapMerged[0], GapMerged[2])

  function BuildSteps(s: State): seq<Step> {
    [Compact(CompactBegin(1, {4, 6, 8, 10}, A, C, GapMerged))] + [Compact(CompactOpen)]
  }

  // The state when the first output has its number.
  function Opened(s: State): State {
    s.(bg := s.bg.(compaction := Some(GapCompaction({11})), pending := {11}, nextFile := 12))
  }

  lemma OpenedLeads(s: State)
    requires GapState(s, 4)
    ensures Leads(Up(s), BuildSteps(s), Up(Opened(s)))
  {
    BeginGap(s);
    var s1 := s.(bg := s.bg.(compaction := Some(GapCompaction({}))));
    One(Up(s), Compact(CompactBegin(1, {4, 6, 8, 10}, A, C, GapMerged)));
    Last(Up(s), [Compact(CompactBegin(1, {4, 6, 8, 10}, A, C, GapMerged))], Up(s1), Compact(CompactOpen));
    assert {} + {11} == {11};
    assert DoCompactOpen(s1) == Opened(s);
  }

  lemma OpenedIsReady(s: State)
    requires GapState(s, 4)
    ensures Ready(Opened(s)) && TableOf(Opened(s), PutOf(B)) == B5 && PlaceOk(Opened(s).disk.levels, 2, B5) && Opened(s).disk.levels == GapVersion(4)
  {
  }

  // Meanwhile a key between those two is written and flushed, to level 2 where nothing meets it; then
  // the output is finished.
  function GapFinished(s: State): State
    requires GapState(s, 4)
  {
    OpenedIsReady(s);
    DoCompactFinish(AfterTable(Opened(s), PutOf(B), 2), 11, {GapMerged[0], GapMerged[2]})
  }

  function GapSteps(s: State): seq<Step> {
    BuildSteps(s) + TableSteps(Opened(s), PutOf(B), 2) + [Compact(CompactFinish(11, {GapMerged[0], GapMerged[2]}))]
  }

  lemma GapFinishedLeads(s: State)
    requires GapState(s, 4)
    ensures Leads(Up(s), GapSteps(s), Up(GapFinished(s)))
  {
    OpenedLeads(s);
    OpenedIsReady(s);
    TableLeads(Opened(s), PutOf(B), 2);
    var t := AfterTable(Opened(s), PutOf(B), 2);
    Then(Up(s), BuildSteps(s), Up(Opened(s)), TableSteps(Opened(s), PutOf(B), 2), Up(t));
    Last(Up(s), BuildSteps(s) + TableSteps(Opened(s), PutOf(B), 2), Up(t), Compact(CompactFinish(11, {GapMerged[0], GapMerged[2]})));
  }

  lemma GapFinishedIs(s: State)
    requires GapState(s, 4)
    ensures var t := GapFinished(s);
            t.disk.levels == [[], [A2, C4], [A1, B5, C3], [], [], [], []] && t.bg.compaction == Some(GapCompaction({11})) && t.bg.flush.None? &&
            t.disk.files == GapFiles(4)[13 := {B5.smallest}][11 := {GapMerged[0], GapMerged[2]}] &&
            t.m.lastSequence == 5 == |t.m.history| && t.m.history[4] == PutOf(B) && Idle(t) && t.m.tables[t.m.mem] == {}
  {
    OpenedIsReady(s);
    TableLeads(Opened(s), PutOf(B), 2);
    GapFlushed();
  }

  lemma GapFlushed()
    ensures Added(GapVersion(4), 2, B5) == [[], [A2, C4], [A1, B5, C3], [], [], [], []]
  {
    assert [A1, C3][1..] == [C3];
    assert Insert([C3], B5) == [B5, C3];
    assert Insert([A1, C3], B5) == [A1] + [B5, C3] == [A1, B5, C3];
    var v := GapVersion(4);
    assert v[2 := [A1, B5, C3]] == [[], [A2, C4], [A1, B5, C3], [], [], [], []];
  }

  lemma GapKept()
    ensures Compaction.Kept(GapMerged, 4, 4, {A, C}) == [GapMerged[0], GapMerged[2]]
  {
    assert Compaction.Kept(GapMerged, 1, 4, {A, C}) == [GapMerged[0]];
    assert Compaction.Kept(GapMerged, 2, 4, {A, C}) == [GapMerged[0]];
    assert Compaction.Kept(GapMerged, 3, 4, {A, C}) == [GapMerged[0], GapMerged[2]];
  }

  lemma InstallGap(s: State)
    requires GapState(s, 4)
    ensures var c := CompactInstall([Merged11]); CompactEnabled(GapFinished(s), c) && !CleanCompact(GapFinished(s), c)
  {
    var t, outs := GapFinished(s), [Merged11];
    GapFinishedIs(s);
    GapKept();
    assert outs[0] in outs && NumbersOf(outs) == {11};
    OneTable(t.disk.files, 11);
    assert Elements([GapMerged[0], GapMerged[2]]) == {GapMerged[0], GapMerged[2]} by {
      assert [GapMerged[0], GapMerged[2]][0] == GapMerged[0] && [GapMerged[0], GapMerged[2]][1] == GapMerged[2];
    }
    assert FileOk(t.disk.files, Merged11);
    assert CanCompactInstall(t, outs);
    assert t.disk.levels[2][1] == B5 && B5 !in GapVersion(4)[2] && !Apart(B5, Merged11);
  }

  lemma GapInstalled()
    ensures Compacted([[], [A2, C4], [A1, B5, C3], [], [], [], []], 1, {4, 6, 8, 10}, [Merged11]) == [[], [], [Merged11, B5], [], [], [], []]
  {
    var v: Version := [[], [A2, C4], [A1, B5, C3], [], [], [], []];
    var n := {4, 6, 8, 10};
    assert [A2, C4][1..] == [C4] && Remove([C4], n) == [];
    assert Remove(v[1], n) == [];
    assert Remove([C3], n) == [] && [B5, C3][1..] == [C3] && Remove([B5, C3], n) == [B5] && [A1, B5, C3][1..] == [B5, C3];
    assert Remove(v[2], n) == [B5];
    assert InsertAll([B5], [Merged11]) == [Merged11, B5];
  }

  // The bisection of level 2 stops at the output, which spans the key without holding it.
  lemma WrongFileSearched(files: Files, v: Version)
    requires v == [[], [], [Merged11, B5], [], [], [], []] && 11 in files && files[11] == {GapMerged[0], GapMerged[2]}
    ensures VersionGet(files, v, B, 5) == None
  {
    NoCandidate(files[11], B, 5);
    assert v[1..][1..][0] == v[2] && v[1..][0] == v[1];
    assert FindFile(v[2], B, 5, 0, 1) == 0;
    assert GetInLevel(files, v[2], B, 5) == Miss;
    NothingBelow(files, v[1..][1..][1..], B, 5);
    assert GetBelow(files, v[1..][1..], B, 5) == Miss;
  }

  lemma {:induction false} NothingBelow(files: Files, v: Version, k: UserKey, snapshot: nat)
    requires forall l :: 0 <= l < |v| ==> v[l] == []
    ensures GetBelow(files, v, k, snapshot) == Miss
    decreases |v|
  {
    if v != [] { NothingBelow(files, v[1..], k, snapshot); }
  }

  lemma GapAnswers(steps: seq<Step>, s: State)
    requires Leads(NewDB, steps, Up(s)) && s.m.lastSequence == 5 == |s.m.history| && s.m.history[4] == PutOf(B)
    ensures s.m.mem < |s.m.tables| && (s.m.imm.Some? ==> s.m.imm.value < |s.m.tables|) && s.disk.levels != [] && GetLatest(s, B) == Some([1])
  {
    NewDBInv();
    RunKeepsInv(NewDB, steps);
    GetLatestIsLinear(s, B);
  }

  lemma GapLoses(s: State)
    requires GapState(s, 4)
    ensures var t, install := GapFinished(s), Compact(CompactInstall([Merged11]));
            Idle(t) && t.disk.levels != [] && Enabled(Up(t), install) && !Clean(Up(t), install) &&
            Idle(Next(Up(t), install).st) && Next(Up(t), install).st.disk.levels != [] && GetLatest(Next(Up(t), install).st, B) == None
  {
    GapFinishedIs(s);
    InstallGap(s);
    GapInstalled();
    var t := DoCompactInstall(GapFinished(s), [Merged11]);
    WrongFileSearched(t.disk.files, t.disk.levels);
    NothingInMemory(t, B);
  }

  // A manual compaction of level 1 whose inputs leave a gap, and a flush into the gap meanwhile: every
  // step but the last is clean, and after it the acknowledged write is not found.
  lemma FlushedKeyIsLost() returns (steps: seq<Step>, s: State)
    ensures Leads(NewDB, steps, Up(s)) && |s.m.history| == 5 && s.m.history[4] == PutOf(B)
    ensures Idle(s) && s.disk.levels != [] && GetLatest(s, B) == Some([1])
    ensures var install := Compact(CompactInstall([Merged11]));
            Enabled(Up(s), install) && !Clean(Up(s), install) &&
            Idle(Next(Up(s), install).st) && Next(Up(s), install).st.disk.levels != [] && GetLatest(Next(Up(s), install).st, B) == None
  {
    GapLeads(4);
    var g := Gap(4);
    GapFinishedLeads(g);
    steps, s := UntilGap(4) + GapSteps(g), GapFinished(g);
    Then(NewDB, UntilGap(4), Up(g), GapSteps(g), Up(s));
    GapFinishedIs(g);
    GapAnswers(steps, s);
    GapLoses(g);
  }

  // ---------------------------------------------------------------- a record after a torn one

  const Torn: map<nat, LogFile> := map[2 := LogFile([], true)]
  const Reopened: Recovery := Recovery(2, map[], [], true, false, 0, 3)
  const OpenedLast: Recovery := Recovery(2, map[], [], false, true, 0, 3)

  // A crash in the middle of a fragment, and an open that goes on with the same log.
  function UntilReopened(): seq<Step> {
    [Open(FirstRecovery)] + [Write(StartGroup([PutOf(B)]))] + [Crash(true)] + [Open(Reopened)]
  }

  function InTornLog(): State { Fresh.(disk := Fresh.disk.(logs := Torn)) }

  lemma TornDiskOpens(r: Recovery)
    requires r == Reopened || r == OpenedLast
    ensures OpenEnabled(InTornLog().disk, r)
  {
    assert 2 in Torn && Torn != map[];
    assert Replay(Torn, 2, 2) == {} && Replay(Torn, 2, 3) == {} && TableEntries(map[], {}) == {};
    assert NumbersOf([]) == {} && r.tables.Keys == {};
  }

  lemma ReopenedLeads()
    ensures Leads(NewDB, UntilReopened(), Up(InTornLog()))
  {
    FreshLeads();
    var s1 := DoStartGroup(Fresh, [PutOf(B)]);
    Last(NewDB, [Open(FirstRecovery)], Up(Fresh), Write(StartGroup([PutOf(B)])));
    var down := DoCrash(s1, true);
    Last(NewDB, [Open(FirstRecovery)] + [Write(StartGroup([PutOf(B)]))], Up(s1), Crash(true));
    assert Fresh.disk.logs[2 := Fresh.disk.logs[2].(torn := true)] == Torn;
    assert down == Down(InTornLog().disk, [], 0, 0, 2, 0);
    TornDiskOpens(Reopened);
    Last(NewDB, [Open(FirstRecovery)] + [Write(StartGroup([PutOf(B)]))] + [Crash(true)], down, Open(Reopened));
    assert LogEntries(LogOf(Torn, 2)) == {} && map[] + map[] == Fresh.disk.files;
    assert OpenState(InTornLog().disk, [], 0, 0, 2, 0, Reopened) == InTornLog();
  }

  // A put whose record falls into the block of the torn fragment, acknowledged; then a crash.
  function LosingSteps(): seq<Step> {
    [Write(StartGroup([PutOf(A)]))] + [Write(LogGroup(true))] + [Write(ApplyOne)] + [Write(CommitGroup)] + [Crash(false)] + [Open(OpenedLast)]
  }

  function Acknowledged(): State {
    var s := InTornLog();
    s.(m := s.m.(history := [PutOf(A)], lastSequence := 1, tables := [{Entry(A, 1, Put, [1])}]))
  }

  function AfterLoss(): State {
    OpenState(InTornLog().disk, [PutOf(A)], 0, 0, 2, 0, OpenedLast)
  }

  lemma CrashAndOpen()
    ensures Legal(Up(Acknowledged()), [Crash(false)] + [Open(OpenedLast)])
    ensures Run(Up(Acknowledged()), [Crash(false)] + [Open(OpenedLast)]) == Up(AfterLoss())
  {
    var steps, down := [Crash(false)] + [Open(OpenedLast)], DoCrash(Acknowledged(), false);
    TornDiskOpens(OpenedLast);
    assert steps[1..] == [Open(OpenedLast)] && steps[1..][1..] == [];
    assert down == Down(InTornLog().disk, [PutOf(A)], 0, 0, 2, 0);
    FirstStep(down, steps[1..], []);
    FirstStep(Up(Acknowledged()), steps, steps[1..]);
  }

  lemma LosingRun()
    ensures Legal(Up(InTornLog()), LosingSteps()) && Run(Up(InTornLog()), LosingSteps()) == Up(AfterLoss())
  {
    var s, steps := InTornLog(), LosingSteps();
    var s1 := DoStartGroup(s, [PutOf(A)]);
    var s2 := DoLogGroup(s1, true);
    assert s2.disk.logs == Torn;
    var s3 := DoApplyOne(s2);
    var s4 := DoCommitGroup(s3);
    assert {} + {Entry(A, 1, Put, [1])} == {Entry(A, 1, Put, [1])} && s4 == Acknowledged();
    CrashAndOpen();
    assert steps[4..] == [Crash(false)] + [Open(OpenedLast)];
    FirstStep(Up(s3), steps[3..], steps[4..]);
    FirstStep(Up(s2), steps[2..], steps[3..]);
    FirstStep(Up(s1), steps[1..], steps[2..]);
    FirstStep(Up(s), steps, steps[1..]);
  }

  lemma FirstStep(sys: System, steps: seq<Step>, rest: seq<Step>)
    requires steps != [] && steps[1..] == rest && Enabled(sys, steps[0]) && Legal(Next(sys, steps[0]), rest)
    ensures Legal(sys, steps) && Run(sys, steps) == Run(Next(sys, steps[0]), rest)
  {
  }

  // With reuse_logs, an acknowledged write is gone after the next crash.
  lemma RecordAfterTearIsGone()
    ensures Leads(NewDB, UntilReopened(), Up(InTornLog()))
    ensures Legal(Up(InTornLog()), LosingSteps()) && Run(Up(InTornLog()), LosingSteps()) == Up(AfterLoss())
    ensures AfterLoss().m.history == [PutOf(A)] && Idle(AfterLoss()) && AfterLoss().disk.levels != [] && GetLatest(AfterLoss(), A) == None
  {
    ReopenedLeads();
    LosingRun();
    NothingRecovered();
  }

  lemma NothingRecovered()
    ensures Idle(AfterLoss()) && AfterLoss().disk.levels != [] && GetLatest(AfterLoss(), A) == None
  {
    var t := AfterLoss();
    assert t.disk.levels == EmptyVersion by { assert InsertAll([], []) == []; }
    NothingBelow(t.disk.files, t.disk.levels[1..], A, 0);
    NothingInMemory(t, A);
  }
}
