/**
 When things happen: a read sees the database as of the moment it was opened or its snapshot was taken,
 every group of writes that was started is in what is read later, and files that nobody needs any more
 are removed.
 */
module EngineRealTime {
  import opened InternalKeys
  import opened Options
  import opened History
  import opened Levels
  import opened LevelEdits
  import opened Engine
  import opened EngineProof
  import opened EngineLevels
  import opened EngineRuns
  import opened EngineTheorems
  import DbIter

  // ---------------------------------------------------------------- places

  // Where the element at p of a list is after the one at i has been taken out.
  function PlaceWithout(p: nat, i: nat): Option<nat> {
    if i == p then None else Some(if i < p then p - 1 else p)
  }

  // The place of a snapshot in the list of live ones, until it is released.
  function SnapshotAfter(p: nat, step: Step): Option<nat> {
    if step.Read? && step.u.ReleaseSnapshot? then PlaceWithout(p, step.u.index) else Some(p)
  }

  function SnapshotPlace(p: nat, steps: seq<Step>): Option<nat>
    decreases |steps|
  {
    if steps == [] then Some(p)
    else
      var q := SnapshotAfter(p, steps[0]);
      if q.None? then None else SnapshotPlace(q.value, steps[1..])
  }

  lemma SnapshotStaysOneStep(s: State, step: Step, p: nat, q: nat)
    requires Enabled(Up(s), step) && !step.Crash? && p < |s.snapshots| && SnapshotAfter(p, step) == Some(q)
    ensures var t := Next(Up(s), step); t.Up? && q < |t.st.snapshots| && t.st.snapshots[q] == s.snapshots[p]
  {
  }

  lemma {:induction false} SnapshotStays(s: State, steps: seq<Step>, p: nat)
    requires Legal(Up(s), steps) && NoCrash(steps) && p < |s.snapshots| && SnapshotPlace(p, steps).Some?
    ensures var q, t := SnapshotPlace(p, steps).value, Run(Up(s), steps);
            t.Up? && q < |t.st.snapshots| && t.st.snapshots[q] == s.snapshots[p]
    decreases |steps|
  {
    if steps != [] {
      var q := SnapshotAfter(p, steps[0]).value;
      SnapshotStaysOneStep(s, steps[0], p, q);
      SnapshotStays(Next(Up(s), steps[0]).st, steps[1..], q);
    }
  }

  // The place of a reader, until it ends.
  function ReaderAfter(p: nat, step: Step): Option<nat> {
    if step.Read? && step.u.EndRead? then PlaceWithout(p, step.u.index) else Some(p)
  }

  function ReaderPlace(p: nat, steps: seq<Step>): Option<nat>
    decreases |steps|
  {
    if steps == [] then Some(p)
    else
      var q := ReaderAfter(p, steps[0]);
      if q.None? then None else ReaderPlace(q.value, steps[1..])
  }

  lemma ReaderStaysOneStep(s: State, step: Step, p: nat, q: nat)
    requires Enabled(Up(s), step) && !step.Crash? && p < |s.readers| && ReaderAfter(p, step) == Some(q)
    ensures var t := Next(Up(s), step); t.Up? && q < |t.st.readers| && t.st.readers[q] == s.readers[p]
  {
  }

  lemma {:induction false} ReaderStays(s: State, steps: seq<Step>, p: nat)
    requires Legal(Up(s), steps) && NoCrash(steps) && p < |s.readers| && ReaderPlace(p, steps).Some?
    ensures var q, t := ReaderPlace(p, steps).value, Run(Up(s), steps);
            t.Up? && q < |t.st.readers| && t.st.readers[q] == s.readers[p]
    decreases |steps|
  {
    if steps != [] {
      var q := ReaderAfter(p, steps[0]).value;
      ReaderStaysOneStep(s, steps[0], p, q);
      ReaderStays(Next(Up(s), steps[0]).st, steps[1..], q);
    }
  }

  // ---------------------------------------------------------------- reads

  // The moment a read is opened for: now, or that of a live snapshot.
  function ReadAt(a: State, from: Option<nat>): nat
    requires from.Some? ==> from.value < |a.snapshots|
  {
    if from.None? then |a.m.history| else a.snapshots[from.value]
  }

  // What a Get or an iterator of the reader r finds in a state that holds it.
  ghost predicate Finds(s: State, r: Reader, k: UserKey, value: Option<Value>) {
    r.mem < |s.m.tables| && (r.imm.Some? ==> r.imm.value < |s.m.tables|) && r.levels != [] && Get(s, r, k) == value &&
    forall es, v :: ListOf(s, r, es) ==> ((k, v) in DbIter.VisibleList(es, r.snapshot) <==> value == Some(v))
  }

  lemma HeldReaderFinds(s: State, r: Reader, k: UserKey)
    requires Inv(Up(s)) && r in s.readers
    ensures Finds(s, r, k, ValueAt(s.m.history, k, r.snapshot))
  {
    HoldsReader(s, r);
    GetIsLinear(s.m, s, r, k);
    forall es, v | ListOf(s, r, es) ensures (k, v) in DbIter.VisibleList(es, r.snapshot) <==> ValueAt(s.m.history, k, r.snapshot) == Some(v) {
      IteratorIsLinear(s.m, s, r, es, k, v);
    }
  }

  // A read without a snapshot shows the database as it was when the read was opened, one with a snapshot
  // as it was at that snapshot, and so it does through all later steps.
  lemma ReadsItsMoment(steps: seq<Step>, a: State, from: Option<nat>, more: seq<Step>, b: State, c: State, p: nat, k: UserKey)
    requires Leads(NewDB, steps, Up(a)) && ReadEnabled(a, BeginRead(from)) && Next(Up(a), Read(BeginRead(from))) == Up(b)
    requires NoCrash(more) && Leads(Up(b), more, Up(c)) && ReaderPlace(|a.readers|, more) == Some(p)
    ensures ReadAt(a, from) <= |a.m.history|
    ensures p < |c.readers| && Finds(c, c.readers[p], k, ValueAt(a.m.history, k, ReadAt(a, from)))
  {
    NewDBInv();
    RunKeepsInv(NewDB, steps);
    StepKeepsInv(Up(a), Read(BeginRead(from)));
    RunKeepsInv(Up(b), more);
    RunGrows(b, more);
    ReaderStays(b, more, |a.readers|);
    OpenedAt(a, from);
    HeldReaderFinds(c, c.readers[p], k);
    ValueLater(a.m.history, c.m.history, k, ReadAt(a, from));
  }

  lemma OpenedAt(a: State, from: Option<nat>)
    requires UpInv(a) && ReadEnabled(a, BeginRead(from))
    ensures var b := ApplyRead(a, BeginRead(from));
            |b.readers| == |a.readers| + 1 && b.readers[|a.readers|].snapshot == ReadAt(a, from) <= |a.m.history| && b.m == a.m
  {
  }

  // The same for a Get whose three lookups happen at three later moments.
  lemma SlowReadOfItsMoment(steps: seq<Step>, a: State, from: Option<nat>, b: State, s1: seq<Step>, c1: State, s2: seq<Step>, c2: State,
                            s3: seq<Step>, c3: State, k: UserKey)
    requires Leads(NewDB, steps, Up(a)) && ReadEnabled(a, BeginRead(from)) && Next(Up(a), Read(BeginRead(from))) == Up(b)
    requires |b.readers| > |a.readers| && NoCrash(s1)
    requires Moments(Up(b), s1, c1, s2, c2, s3, c3)
    requires var r := b.readers[|a.readers|]; r in c1.readers && r in c2.readers && r in c3.readers
    ensures var r := b.readers[|a.readers|];
            r.mem < |c1.m.tables| && (r.imm.Some? ==> r.imm.value < |c2.m.tables|) && r.levels != [] && ReadAt(a, from) <= |a.m.history| &&
            SlowGet(c1, c2, c3, r, k) == ValueAt(a.m.history, k, ReadAt(a, from))
  {
    NewDBInv();
    RunKeepsInv(NewDB, steps);
    StepKeepsInv(Up(a), Read(BeginRead(from)));
    RunKeepsInv(Up(b), s1);
    RunKeepsInv(Up(c1), s2);
    RunKeepsInv(Up(c2), s3);
    RunGrows(b, s1);
    RunGrows(c1, s2);
    RunGrows(c2, s3);
    OpenedAt(a, from);
    var r := b.readers[|a.readers|];
    HoldsReader(c1, r);
    HoldsReader(c2, r);
    HoldsReader(c3, r);
    SlowGetIsLinear(c1, c2, c3, r, k);
    ValueLater(a.m.history, c1.m.history, k, ReadAt(a, from));
  }

  // GetSnapshot captures the present: whatever happens afterwards, short of a crash or the release of the
  // snapshot, a read opened from it shows the database as it was when the snapshot was taken.
  lemma SnapshotIsItsMoment(steps: seq<Step>, a: State, b: State, more: seq<Step>, c: State, q: nat, d: State, rest: seq<Step>, e: State,
                            p: nat, k: UserKey)
    requires Leads(NewDB, steps, Up(a)) && Next(Up(a), Read(TakeSnapshot)) == Up(b)
    requires NoCrash(more) && Leads(Up(b), more, Up(c)) && SnapshotPlace(|a.snapshots|, more) == Some(q)
    requires ReadEnabled(c, BeginRead(Some(q))) && Next(Up(c), Read(BeginRead(Some(q)))) == Up(d)
    requires NoCrash(rest) && Leads(Up(d), rest, Up(e)) && ReaderPlace(|c.readers|, rest) == Some(p)
    ensures p < |e.readers| && Finds(e, e.readers[p], k, ValueAt(a.m.history, k, |a.m.history|))
  {
    UntilSnapshot(steps, a, b, more, c);
    SnapshotStays(b, more, |a.snapshots|);
    ReadsItsMoment(steps + [Read(TakeSnapshot)] + more, c, Some(q), rest, d, e, p, k);
    ValueLater(a.m.history, c.m.history, k, |a.m.history|);
  }

  lemma UntilSnapshot(steps: seq<Step>, a: State, b: State, more: seq<Step>, c: State)
    requires Leads(NewDB, steps, Up(a)) && Next(Up(a), Read(TakeSnapshot)) == Up(b) && NoCrash(more) && Leads(Up(b), more, Up(c))
    ensures Leads(NewDB, steps + [Read(TakeSnapshot)] + more, Up(c)) && a.m.history <= c.m.history
    ensures |b.snapshots| == |a.snapshots| + 1 && b.snapshots[|a.snapshots|] == |a.m.history|
  {
    NewDBInv();
    RunKeepsInv(NewDB, steps);
    RunGrows(b, more);
    Last(NewDB, steps, Up(a), Read(TakeSnapshot));
    Then(NewDB, steps + [Read(TakeSnapshot)], Up(b), more, Up(c));
  }

  // A snapshot that is not released stays readable: its place is one of the list.
  lemma SnapshotStaysReadable(a: State, b: State, more: seq<Step>, c: State, q: nat)
    requires Next(Up(a), Read(TakeSnapshot)) == Up(b) && NoCrash(more) && Legal(Up(b), more) && Run(Up(b), more) == Up(c)
    requires SnapshotPlace(|a.snapshots|, more) == Some(q)
    ensures ReadEnabled(c, BeginRead(Some(q)))
  {
    SnapshotStays(b, more, |a.snapshots|);
  }

  // ---------------------------------------------------------------- writes

  // A group on its way: its operations, and whether its record is in the log.
  type Underway = Option<(seq<WriteOp>, bool)>

  function UnderwayAfter(now: Underway, step: Step): Underway {
    match step
    case Write(w) =>
      (match w
       case StartGroup(ops) => Some((ops, false))
       case LogGroup(_) => if now.Some? then Some((now.value.0, true)) else None
       case CommitGroup => None
       case _ => now)
    case Crash(_) => None
    case _ => now
  }

  // The groups that count as written: those committed, and those a crash found complete in the log.
  function Written(now: Underway, steps: seq<Step>): seq<seq<WriteOp>>
    decreases |steps|
  {
    if steps == [] then []
    else
      (if now.Some? && (steps[0] == Write(CommitGroup) || (steps[0].Crash? && now.value.1)) then [now.value.0] else []) +
      Written(UnderwayAfter(now, steps[0]), steps[1..])
  }

  ghost predicate Matches(sys: System, now: Underway) {
    now == if sys.Up? && sys.st.m.group.Some? then Some((sys.st.m.group.value.ops, sys.st.m.group.value.logged)) else None
  }

  lemma UnderwayMatches(sys: System, step: Step, now: Underway)
    requires Enabled(sys, step) && Matches(sys, now)
    ensures Matches(Next(sys, step), UnderwayAfter(now, step))
    ensures GroupOf(sys, step) == if now.Some? && (step == Write(CommitGroup) || (step.Crash? && now.value.1)) then [now.value.0] else []
  {
  }

  lemma {:induction false} GroupsAreWritten(sys: System, steps: seq<Step>, now: Underway)
    requires Legal(sys, steps) && Matches(sys, now)
    ensures Groups(sys, steps) == Written(now, steps)
    decreases |steps|
  {
    if steps != [] {
      UnderwayMatches(sys, steps[0], now);
      GroupsAreWritten(Next(sys, steps[0]), steps[1..], UnderwayAfter(now, steps[0]));
    }
  }

  // The history, and with it every answer, is what was asked to be written and nothing else.
  lemma HistoryIsWhatWasWritten(steps: seq<Step>)
    requires Legal(NewDB, steps) && CleanRun(NewDB, steps)
    ensures HistoryOf(Run(NewDB, steps)) == Concat(Written(None, steps))
  {
    SnapshotsBetweenGroups(steps);
    GroupsAreWritten(NewDB, steps, None);
  }

  // ---------------------------------------------------------------- files that are not needed any more

  // Some version in use holds the table.
  ghost predicate InUse(s: State, n: nat) {
    n in Numbers(s.disk.levels) || (exists i :: 0 <= i < |s.readers| && n in Numbers(s.readers[i].levels)) ||
    (s.bg.compaction.Some? && n in Numbers(s.bg.compaction.value.levels))
  }

  // What is left of tables and logs: the tables of versions in use, those being written, and the logs
  // from LogNumber on.
  lemma OnlyNeededFilesStay(s: State)
    requires CompactEnabled(s, DeleteObsoleteFiles)
    ensures var d := ApplyCompact(s, DeleteObsoleteFiles).disk;
            (forall n :: n in d.files <==> n in s.disk.files && (InUse(s, n) || n in s.bg.pending)) &&
            (forall n :: n in d.logs <==> n in s.disk.logs && s.disk.manifestLog <= n) &&
            (forall n :: n in d.files ==> d.files[n] == s.disk.files[n]) && (forall n :: n in d.logs ==> d.logs[n] == s.disk.logs[n])
  {
    forall n ensures n in LiveFiles(s.disk.Tables(), s.readers, s.bg.compaction) <==> InUse(s, n) {
      if r :| r in s.readers && n in r.Tables() {
        var i :| 0 <= i < |s.readers| && s.readers[i] == r;
        assert n in Numbers(s.readers[i].levels);
      }
      if i :| 0 <= i < |s.readers| && n in Numbers(s.readers[i].levels) { assert s.readers[i] in s.readers && n in s.readers[i].Tables(); }
    }
  }

  // Pending numbers are those of tables being written by a flush or a compaction.
  ghost predicate PendingOk(sys: System) {
    sys.Up? ==>
      var bg := sys.st.bg;
      forall n :: n in bg.pending ==>
        (bg.compaction.Some? && n in bg.compaction.value.outputs) || (bg.flush.Some? && !bg.flush.value.Applying? && n == bg.flush.value.number)
  }

  lemma {:induction false} RunKeepsPending(sys: System, steps: seq<Step>)
    requires Legal(sys, steps) && PendingOk(sys)
    ensures PendingOk(Run(sys, steps))
    decreases |steps|
  {
    if steps != [] {
      StepKeepsPending(sys, steps[0]);
      RunKeepsPending(Next(sys, steps[0]), steps[1..]);
    }
  }

  lemma StepKeepsPending(sys: System, step: Step)
    requires Enabled(sys, step) && PendingOk(sys)
    ensures PendingOk(Next(sys, step))
  {
  }

  lemma NothingPending(s: State)
    requires PendingOk(Up(s)) && s.bg.flush.None? && s.bg.compaction.None?
    ensures s.bg.pending == {}
  {
  }

  lemma VersionIsThere(s: State)
    requires UpInv(s)
    ensures Numbers(s.disk.levels) <= s.disk.files.Keys
  {
  }

  // With no reader and no compaction going on, exactly the tables of the current version are left.
  lemma OnlyTheVersionStays(steps: seq<Step>, s: State)
    requires Leads(NewDB, steps, Up(s)) && CompactEnabled(s, DeleteObsoleteFiles) && s.readers == [] && s.bg.compaction.None?
    ensures ApplyCompact(s, DeleteObsoleteFiles).disk.files.Keys == Numbers(s.disk.levels)
    ensures forall n :: n in ApplyCompact(s, DeleteObsoleteFiles).disk.logs ==> s.disk.manifestLog <= n
  {
    NewDBInv();
    RunKeepsInv(NewDB, steps);
    RunKeepsPending(NewDB, steps);
    NothingPending(s);
    VersionIsThere(s);
    VersionAlone(s);
  }

  lemma VersionAlone(s: State)
    requires s.readers == [] && s.bg.compaction.None? && s.bg.pending == {} && Numbers(s.disk.levels) <= s.disk.files.Keys
    ensures DoDeleteObsoleteFiles(s).disk.files.Keys == Numbers(s.disk.levels)
    ensures forall n :: n in DoDeleteObsoleteFiles(s).disk.logs ==> s.disk.manifestLog <= n
  {
    assert LiveFiles(s.disk.Tables(), [], None) + {} == Numbers(s.disk.levels);
  }

  // A number that no version gets from now on: it has been handed out, and nobody is writing the table.
  ghost predicate Dead(sys: System, n: nat) {
    match sys
    case Up(s) =>
      n !in Numbers(s.disk.levels) && n < s.disk.manifestNext <= s.bg.nextFile && n !in s.bg.pending &&
      (s.bg.flush.Some? ==> s.bg.flush.value.number != n) &&
      (s.bg.compaction.Some? && !s.bg.compaction.value.installed ==> n !in s.bg.compaction.value.outputs)
    case Down(d, _, _, _, _, _) => n !in Numbers(d.levels) && n < d.manifestNext
  }

  lemma NoNewNumbers(v: Version, level: nat, inputs: set<nat>, outs: Level)
    requires level + 1 < |v|
    ensures Numbers(Compacted(v, level, inputs, outs)) <= Numbers(v) + NumbersOf(outs)
  {
    var w := Compacted(v, level, inputs, outs);
    CompactedElements(v, level, inputs, outs);
    forall n | n in Numbers(w) ensures n in Numbers(v) + NumbersOf(outs) {
      var fs, f :| fs in w && f in fs && f.number == n;
      var l :| 0 <= l < |w| && w[l] == fs;
      if f !in outs { assert v[l] in v && f in v[l]; }
    }
  }

  lemma FlushLeavesDead(s: State, f: FlushStep, n: nat)
    requires FlushEnabled(s, f) && Dead(Up(s), n)
    ensures Dead(Up(ApplyFlush(s, f)), n)
  {
    if f.FlushInstall? && s.m.tables[s.m.imm.value] != {} { NumbersAdded(s.disk.levels, f.level, f.f); }
  }

  lemma CompactLeavesDead(s: State, c: CompactStep, n: nat)
    requires CompactEnabled(s, c) && Dead(Up(s), n)
    ensures Dead(Up(ApplyCompact(s, c)), n)
  {
    match c
    case CompactInstall(outs) => NoNewNumbers(s.disk.levels, s.bg.compaction.value.level, s.bg.compaction.value.inputs, outs);
    case TrivialMove(level, f) =>
      NoNewNumbers(s.disk.levels, level, {f.number}, [f]);
      assert s.disk.levels[level] in s.disk.levels && f.number in Numbers(s.disk.levels);
    case _ =>
  }

  lemma OpenLeavesDead(sys: System, r: Recovery, n: nat)
    requires Enabled(sys, Open(r)) && Dead(sys, n)
    ensures Dead(Next(sys, Open(r)), n)
  {
    NumbersRecovered(sys.disk.levels, r.metas);
  }

  lemma StepLeavesDead(sys: System, step: Step, n: nat)
    requires Enabled(sys, step) && Dead(sys, n)
    ensures Dead(Next(sys, step), n)
  {
    match step
    case MemCompaction(f) => FlushLeavesDead(sys.st, f, n);
    case Compact(c) => CompactLeavesDead(sys.st, c, n);
    case Open(r) => OpenLeavesDead(sys, r, n);
    case _ =>
  }

  lemma {:induction false} RunLeavesDead(sys: System, steps: seq<Step>, n: nat)
    requires Legal(sys, steps) && Dead(sys, n)
    ensures Dead(Run(sys, steps), n)
    decreases |steps|
  {
    if steps != [] {
      StepLeavesDead(sys, steps[0], n);
      RunLeavesDead(Next(sys, steps[0]), steps[1..], n);
    }
  }

  // The inputs of a compaction are dead once its results are installed.
  lemma InputsAreDead(s: State, outs: Level, n: nat)
    requires UpInv(s) && LevelInv(s) && PendingOk(Up(s)) && CompactEnabled(s, CompactInstall(outs)) && n in s.bg.compaction.value.inputs
    ensures Dead(Up(ApplyCompact(s, CompactInstall(outs))), n)
  {
    InputIsLive(s, n);
    OutputsAreOk(s, outs);
    InputsLeave(s, outs);
  }

  lemma InputIsLive(s: State, n: nat)
    requires UpInv(s) && PendingOk(Up(s)) && Compacting(s) && n in s.bg.compaction.value.inputs
    ensures n in s.disk.Tables() && n < s.bg.nextFile && n !in s.bg.compaction.value.outputs && n !in s.bg.pending
  {
    assert n in LiveFiles(s.disk.Tables(), s.readers, s.bg.compaction);
  }

  lemma InputsLeave(s: State, outs: Level)
    requires CompactEnabled(s, CompactInstall(outs)) && DiskLevelsOk(s.disk) && CompactionLevelsOk(s.disk, s.bg.compaction)
    requires OutputsOk(s.disk.files, s.bg.compaction.value.inputs, outs)
    ensures Numbers(DoCompactInstall(s, outs).disk.levels) == Numbers(s.disk.levels) - s.bg.compaction.value.inputs + s.bg.compaction.value.outputs
  {
    InstallIsCleanIff(s, outs);
  }

  // An input of a compaction whose results are installed is removed by any later deletion of files, crashes
  // and recoveries in between included, that finds it in no version in use.
  lemma InputsAreRemoved(steps: seq<Step>, a: State, outs: Level, b: State, more: seq<Step>, c: State, n: nat)
    requires Leads(NewDB, steps, Up(a)) && Enabled(Up(a), Compact(CompactInstall(outs))) && n in a.bg.compaction.value.inputs
    requires Next(Up(a), Compact(CompactInstall(outs))) == Up(b) && Legal(Up(b), more) && Run(Up(b), more) == Up(c)
    requires CompactEnabled(c, DeleteObsoleteFiles)
    requires (forall i :: 0 <= i < |c.readers| ==> n !in Numbers(c.readers[i].levels)) &&
             (c.bg.compaction.Some? ==> n !in Numbers(c.bg.compaction.value.levels))
    ensures n !in ApplyCompact(c, DeleteObsoleteFiles).disk.files
  {
    NewDBInv();
    RunKeepsInv(NewDB, steps);
    RunKeepsPending(NewDB, steps);
    InputsAreDead(a, outs, n);
    RunLeavesDead(Up(b), more, n);
    OnlyNeededFilesStay(c);
  }

  // A log is not needed after a flush of what it holds: the manifest names the one in use by then.
  lemma FlushedLogsAreRemoved(s: State, level: nat, f: FileMeta, t: State, n: nat)
    requires FlushEnabled(s, FlushInstall(level, f)) && n < s.bg.logNumber && t == ApplyFlush(s, FlushInstall(level, f))
    requires CompactEnabled(t, DeleteObsoleteFiles)
    ensures n !in ApplyCompact(t, DeleteObsoleteFiles).disk.logs
  {
    OnlyNeededFilesStay(t);
  }

  // ---------------------------------------------------------------- errors

  // After a background error no background work changes anything any more: versions and tables stay as
  // they are until the database is closed.
  lemma {:induction false} ErrorStopsBackground(s: State, steps: seq<Step>)
    requires s.bg.error && s.bg.compaction.None? && s.bg.flush.None? && Legal(Up(s), steps) && NoCrash(steps)
    ensures var t := Run(Up(s), steps);
            t.Up? && t.st.bg.error && t.st.disk.levels == s.disk.levels && t.st.disk.files == s.disk.files &&
            t.st.disk.manifestLog == s.disk.manifestLog && t.st.bg.logNumber == s.bg.logNumber
    decreases |steps|
  {
    if steps != [] {
      ErrorStops(s, steps[0]);
      ErrorStopsBackground(Next(Up(s), steps[0]).st, steps[1..]);
    }
  }

  lemma ErrorStops(s: State, step: Step)
    requires s.bg.error && s.bg.compaction.None? && s.bg.flush.None? && Enabled(Up(s), step) && !step.Crash?
    ensures var t := Next(Up(s), step);
            t.Up? && t.st.bg == s.bg && t.st.disk.levels == s.disk.levels && t.st.disk.files == s.disk.files &&
            t.st.disk.manifestLog == s.disk.manifestLog
  {
  }

  // A compaction that fails leads to this.
  lemma FailedCompactionIsAnError(s: State)
    requires UpInv(s) && CompactEnabled(s, CompactFail)
    ensures var t := ApplyCompact(s, CompactFail);
            t.bg.error && t.bg.compaction.None? && t.bg.flush.None? && t.disk == s.disk && t.m == s.m && t.bg.pending !! s.bg.compaction.value.outputs
  {
  }
}
