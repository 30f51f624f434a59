/**
 Runs of the engine: what every clean run keeps, and the groups of writes it is made of.
 */
module EngineRuns {
  import opened InternalKeys
  import opened Coding
  import opened Options
  import opened History
  import opened Levels
  import opened LevelEdits
  import opened Engine
  import opened EngineProof
  import opened EngineLevels

  ghost predicate Inv(sys: System) {
    match sys
    case Up(s) => UpInv(s) && LevelInv(s)
    case Down(d, h, flushed, switched, logNumber, floor) =>
      DownInv(d, h, flushed, switched, logNumber, floor) && DiskLevelsOk(d)
  }

  // ---------------------------------------------------------------- steps

  lemma WriteStepKeepsInv(s: State, w: WriteStep)
    requires UpInv(s) && WriteEnabled(s, w) && (w.LogGroup? && w.lost ==> s.m.group.value.ops == [])
    ensures UpInv(ApplyWrite(s, w))
  {
    match w
    case StartGroup(ops) => StartGroupKeepsInv(s, ops);
    case LogGroup(lost) => if lost { EmptyGroupKeepsInv(s); } else { LogGroupKeepsInv(s); }
    case ApplyOne => ApplyOneKeepsInv(s);
    case CommitGroup => CommitGroupKeepsInv(s);
    case SwitchMemtable => SwitchMemtableKeepsInv(s);
  }

  lemma FlushStepKeepsInv(s: State, f: FlushStep)
    requires UpInv(s) && FlushEnabled(s, f)
    ensures UpInv(ApplyFlush(s, f))
  {
    match f
    case FlushBegin => FlushBeginKeepsInv(s);
    case FlushBuild => FlushBuildKeepsInv(s);
    case FlushUnpend => FlushUnpendKeepsInv(s);
    case FlushInstall(level, f) => FlushInstallKeepsInv(s, level, f);
  }

  // After a compaction the tables answer as before, from its smallest_snapshot on, exactly if no value
  // resurfaces; that the levels stay right is the other half of what makes its installation clean.
  lemma InstallTablesIff(s: State, outs: Level)
    requires UpInv(s) && LevelInv(s) && CanCompactInstall(s, outs)
    ensures UpInv(DoCompactInstall(s, outs)) <==> NothingResurfaces(s)
  {
    OutputsAreOk(s, outs);
    InstallIsCleanIff(s, outs);
    CompactInstallKeepsInv(s, outs);
    DropsAreCleanIff(s);
  }

  lemma CompactStepKeepsInv(s: State, c: CompactStep)
    requires UpInv(s) && LevelInv(s) && CompactEnabled(s, c) && CleanCompact(s, c)
    ensures UpInv(ApplyCompact(s, c))
  {
    match c
    case CompactBegin(level, inputs, lo, hi, merged) => CompactBeginKeepsInv(s, level, inputs, lo, hi, merged);
    case CompactOpen => CompactOpenKeepsInv(s);
    case CompactFinish(number, content) => CompactFinishKeepsInv(s, number, content);
    case CompactInstall(outs) => InstallTablesIff(s, outs);
    case CompactCleanup => CompactEndKeepsInv(s, false);
    case CompactFail => CompactEndKeepsInv(s, true);
    case TrivialMove(level, f) =>
      MoveIsCleanIff(s, level, f);
      TrivialMoveKeepsInv(s, level, f);
    case DeleteObsoleteFiles => DeleteObsoleteFilesKeepsInv(s);
  }

  lemma ReadStepKeepsInv(s: State, u: ReadStep)
    requires UpInv(s) && ReadEnabled(s, u)
    ensures UpInv(ApplyRead(s, u))
  {
    match u
    case TakeSnapshot => TakeSnapshotKeepsInv(s);
    case ReleaseSnapshot(i) => ReleaseSnapshotKeepsInv(s, i);
    case BeginRead(from) => BeginReadKeepsInv(s, if from.Some? then s.snapshots[from.value] else s.m.lastSequence);
    case EndRead(i) => EndReadKeepsInv(s, i);
  }

  lemma StepKeepsInv(sys: System, step: Step)
    requires Inv(sys) && Enabled(sys, step) && Clean(sys, step)
    ensures Inv(Next(sys, step))
  {
    match step
    case Write(w) => WriteStepKeepsInv(sys.st, w); WriteKeepsLevels(sys.st, w);
    case MemCompaction(f) => FlushStepKeepsInv(sys.st, f); FlushKeepsLevelInv(sys.st, f);
    case Compact(c) => CompactStepKeepsInv(sys.st, c); CompactKeepsLevels(sys.st, c);
    case Read(u) => ReadStepKeepsInv(sys.st, u); ReadKeepsLevels(sys.st, u);
    case Crash(torn) => CrashKeepsInv(sys.st, torn); CrashKeepsLevels(sys.st, torn);
    case FailedRecovery(_, _) => FailedRecoveryKeepsInv(sys, step); FailedRecoveryKeepsLevels(sys, step);
    case Open(r) =>
      OpenKeepsInv(sys.disk, sys.history, sys.flushed, sys.switched, sys.logNumber, sys.floor, r);
      OpenKeepsLevels(sys.disk, sys.history, sys.flushed, sys.switched, sys.logNumber, sys.floor, r);
  }

  // ---------------------------------------------------------------- runs

  // A fresh database as NewDB leaves it: a manifest and nothing else.
  const NewDB: System := Down(Disk(map[], map[], seq(kNumLevels, i => []), 0, 0, 2), [], 0, 0, 0, 0)

  ghost predicate Legal(sys: System, steps: seq<Step>)
    decreases |steps|
  {
    steps == [] || (Enabled(sys, steps[0]) && Legal(Next(sys, steps[0]), steps[1..]))
  }

  ghost function Run(sys: System, steps: seq<Step>): System
    requires Legal(sys, steps)
    decreases |steps|
  {
    if steps == [] then sys else Run(Next(sys, steps[0]), steps[1..])
  }

  ghost predicate CleanRun(sys: System, steps: seq<Step>)
    requires Legal(sys, steps)
    decreases |steps|
  {
    steps == [] || (Clean(sys, steps[0]) && CleanRun(Next(sys, steps[0]), steps[1..]))
  }

  // The steps lead from one state to the other, and are clean.
  ghost predicate Leads(sys: System, steps: seq<Step>, end: System) {
    Legal(sys, steps) && CleanRun(sys, steps) && Run(sys, steps) == end
  }

  lemma One(sys: System, step: Step)
    requires Enabled(sys, step) && Clean(sys, step)
    ensures Leads(sys, [step], Next(sys, step))
  {
    assert [step][1..] == [];
  }

  lemma {:induction false} Then(sys: System, a: seq<Step>, mid: System, b: seq<Step>, end: System)
    requires Leads(sys, a, mid) && Leads(mid, b, end)
    ensures Leads(sys, a + b, end)
    decreases |a|
  {
    if a == [] {
      assert a + b == b;
    } else {
      Then(Next(sys, a[0]), a[1..], mid, b, end);
      assert (a + b)[0] == a[0] && (a + b)[1..] == a[1..] + b;
    }
  }

  lemma Last(sys: System, a: seq<Step>, mid: System, step: Step)
    requires Leads(sys, a, mid) && Enabled(mid, step) && Clean(mid, step)
    ensures Leads(sys, a + [step], Next(mid, step))
  {
    One(mid, step);
    Then(sys, a, mid, [step], Next(mid, step));
  }

  lemma {:induction false} RunKeepsInv(sys: System, steps: seq<Step>)
    requires Inv(sys) && Legal(sys, steps) && CleanRun(sys, steps)
    ensures Inv(Run(sys, steps))
    decreases |steps|
  {
    if steps != [] {
      StepKeepsInv(sys, steps[0]);
      RunKeepsInv(Next(sys, steps[0]), steps[1..]);
    }
  }

  lemma NewDBInv()
    ensures Inv(NewDB)
  {
    assert EntriesOf([], 0, 0) == {};
    assert NewDB.disk.Tables() == {} && TableEntries(map[], {}) == {};
    assert Replay(map[], 0, 0) == {} && LogEntries(LogFile([], false)) == {};
    Fold(NewDB.disk.files, NewDB.disk.levels);
  }

  // ---------------------------------------------------------------- groups

  // The group of writes that a step makes part of the history: committed, or found complete in the log
  // after a crash.
  function GroupOf(sys: System, step: Step): seq<seq<WriteOp>> {
    if !sys.Up? || sys.st.m.group.None? then []
    else if step == Write(CommitGroup) || (step.Crash? && sys.st.m.group.value.logged) then [sys.st.m.group.value.ops]
    else []
  }

  ghost function Groups(sys: System, steps: seq<Step>): seq<seq<WriteOp>>
    requires Legal(sys, steps)
    decreases |steps|
  {
    if steps == [] then [] else GroupOf(sys, steps[0]) + Groups(Next(sys, steps[0]), steps[1..])
  }

  function Concat(groups: seq<seq<WriteOp>>): History {
    if groups == [] then [] else Concat(groups[..|groups| - 1]) + groups[|groups| - 1]
  }

  function HistoryOf(sys: System): History {
    if sys.Up? then sys.st.m.history else sys.history
  }

  // A sequence number between two groups.
  ghost predicate Boundary(groups: seq<seq<WriteOp>>, n: nat) {
    exists i :: 0 <= i <= |groups| && n == |Concat(groups[..i])|
  }

  // The sequence numbers that anybody may read at.
  function SnapshotsOf(sys: System): set<nat> {
    if sys.Up? then (set n | n in sys.st.snapshots) + (set r | r in sys.st.readers :: r.snapshot) else {}
  }

  // The history is made of whole groups, and nobody reads inside one.
  ghost predicate ByGroups(sys: System, groups: seq<seq<WriteOp>>) {
    HistoryOf(sys) == Concat(groups) && forall n :: n in SnapshotsOf(sys) ==> Boundary(groups, n)
  }

  lemma BoundaryStays(groups: seq<seq<WriteOp>>, more: seq<seq<WriteOp>>, n: nat)
    requires Boundary(groups, n)
    ensures Boundary(groups + more, n)
  {
    var i :| 0 <= i <= |groups| && n == |Concat(groups[..i])|;
    assert (groups + more)[..i] == groups[..i];
  }

  lemma EndIsBoundary(groups: seq<seq<WriteOp>>)
    ensures Boundary(groups, |Concat(groups)|)
  {
    assert groups[..|groups|] == groups;
  }

  lemma ConcatOneMore(groups: seq<seq<WriteOp>>, g: seq<WriteOp>)
    ensures Concat(groups + [g]) == Concat(groups) + g
  {
    assert (groups + [g])[..|groups|] == groups;
  }

  // The history grows by whole groups only: when the leader sets LastSequence, or when a crash finds the
  // record of the group complete in the log.
  lemma HistoryGrowsByGroups(sys: System, step: Step)
    requires Enabled(sys, step)
    ensures HistoryOf(Next(sys, step)) == if GroupOf(sys, step) == [] then HistoryOf(sys) else HistoryOf(sys) + GroupOf(sys, step)[0]
  {
  }

  // New snapshots and readers start at LastSequence.
  lemma NewSnapshots(sys: System, step: Step)
    requires Enabled(sys, step)
    ensures SnapshotsOf(Next(sys, step)) <= SnapshotsOf(sys) + if sys.Up? then {sys.st.m.lastSequence} else {}
  {
    match step
    case Read(u) => NewSnapshotsRead(sys.st, u);
    case _ =>
  }

  lemma NewSnapshotsRead(s: State, u: ReadStep)
    requires ReadEnabled(s, u)
    ensures SnapshotsOf(Up(ApplyRead(s, u))) <= SnapshotsOf(Up(s)) + {s.m.lastSequence}
  {
    var t := ApplyRead(s, u);
    match u
    case TakeSnapshot => assert forall n :: n in t.snapshots ==> n in s.snapshots || n == s.m.lastSequence;
    case ReleaseSnapshot(i) => assert forall n :: n in t.snapshots ==> n in s.snapshots;
    case BeginRead(from) =>
      assert forall r :: r in t.readers ==> r in s.readers || r.snapshot == s.m.lastSequence || r.snapshot in s.snapshots;
    case EndRead(i) => assert forall r :: r in t.readers ==> r in s.readers;
  }

  lemma StepByGroups(sys: System, step: Step, groups: seq<seq<WriteOp>>)
    requires Enabled(sys, step) && ByGroups(sys, groups) && (sys.Up? ==> sys.st.m.lastSequence == |sys.st.m.history|)
    ensures ByGroups(Next(sys, step), groups + GroupOf(sys, step))
  {
    var more := GroupOf(sys, step);
    HistoryGrowsByGroups(sys, step);
    NewSnapshots(sys, step);
    if more == [] { assert groups + more == groups; } else { ConcatOneMore(groups, more[0]); assert more == [more[0]]; }
    EndIsBoundary(groups);
    forall n | n in SnapshotsOf(Next(sys, step)) ensures Boundary(groups + more, n) { BoundaryStays(groups, more, n); }
  }

  lemma SequenceIsLength(sys: System)
    requires Inv(sys)
    ensures sys.Up? ==> sys.st.m.lastSequence == |sys.st.m.history|
  {
  }

  lemma CleanStepByGroups(sys: System, step: Step, groups: seq<seq<WriteOp>>)
    requires Inv(sys) && Enabled(sys, step) && Clean(sys, step) && ByGroups(sys, groups)
    ensures Inv(Next(sys, step)) && ByGroups(Next(sys, step), groups + GroupOf(sys, step))
  {
    SequenceIsLength(sys);
    StepByGroups(sys, step, groups);
    StepKeepsInv(sys, step);
  }

  // Over every clean run the history is the concatenation of the groups committed or found complete
  // after a crash, and every snapshot, listed or held by a reader, lies between two of them.
  lemma {:induction false} RunByGroups(sys: System, steps: seq<Step>, groups: seq<seq<WriteOp>>)
    requires Inv(sys) && Legal(sys, steps) && CleanRun(sys, steps) && ByGroups(sys, groups)
    ensures ByGroups(Run(sys, steps), groups + Groups(sys, steps))
    decreases |steps|
  {
    if steps == [] {
      assert groups + [] == groups;
    } else {
      CleanStepByGroups(sys, steps[0], groups);
      RunByGroups(Next(sys, steps[0]), steps[1..], groups + GroupOf(sys, steps[0]));
      ConcatAssociates(groups, GroupOf(sys, steps[0]), Groups(Next(sys, steps[0]), steps[1..]));
    }
  }
}
