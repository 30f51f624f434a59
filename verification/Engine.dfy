/**
 The storage engine of db_impl.cc as a state machine.  One step is one region between two
 releases of the mutex, or one file operation made while the mutex is released; the system is
 either up, with an in-memory state, or down, with nothing but its files.
 */
module Engine {
  import opened InternalKeys
  import opened Options
  import opened History
  import opened Levels
  import opened LevelEdits
  import Compaction

  // ---------------------------------------------------------------- files

  // One log record: a write batch with the sequence of its first operation.
  datatype Record = Record(first: nat, ops: seq<WriteOp>)

  // The readable records of a log file; torn when it ends inside a fragment of a partial record.
  datatype LogFile = LogFile(records: seq<Record>, torn: bool)

  function RecordEntry(r: Record, i: nat): Entry
    requires i < |r.ops|
  {
    OpEntry(r.ops[i], r.first + i)
  }

  function RecordEntries(r: Record): set<Entry> {
    set i | 0 <= i < |r.ops| :: RecordEntry(r, i)
  }

  function LogEntries(l: LogFile): set<Entry> {
    set r, e | r in l.records && e in RecordEntries(r) :: e
  }

  // A log that has not been created reads as an empty one.
  function LogOf(logs: map<nat, LogFile>, n: nat): LogFile {
    if n in logs then logs[n] else LogFile([], false)
  }

  // A record appended in the block of a torn fragment is lost to the reader, which drops the rest of
  // that block; one that starts in a later block is found again.
  function Append(l: LogFile, r: Record, lost: bool): LogFile {
    if lost then l else LogFile(l.records + [r], false)
  }

  // What replaying the logs numbered from lo up to (not including) hi yields.
  function Replay(logs: map<nat, LogFile>, lo: nat, hi: nat): set<Entry> {
    set n, e | n in logs && lo <= n < hi && e in LogEntries(logs[n]) :: e
  }

  // The database directory.  The manifest holds the live tables, LogNumber, LastSequence and the
  // next file number as of the last LogAndApply, which replaces them in one step.
  datatype Disk = Disk(
    logs: map<nat, LogFile>,
    files: Files,
    levels: Version,
    manifestLog: nat,
    manifestSequence: nat,
    manifestNext: nat)
  {
    function Tables(): set<nat> { Numbers(levels) }
  }

  // ---------------------------------------------------------------- memory

  // A write group between the moment its leader releases the mutex and takes it again.
  datatype Group = Group(ops: seq<WriteOp>, logged: bool, applied: nat)

  // A Get or an iterator: the snapshot and the objects it holds references to.
  // The last two fields only say which writes those objects stand for.
  datatype Reader = Reader(snapshot: nat, mem: nat, imm: Option<nat>, levels: Version, lo: nat, hi: nat)
  {
    function Tables(): set<nat> { Numbers(levels) }
  }

  datatype Flush = Building(number: nat) | Built(number: nat) | Applying(number: nat)

  // The inputs, chosen from the version current at the time; the keys at their base level in it.
  datatype CompactionState = CompactionState(
    smallestSnapshot: nat, level: nat, levels: Version, inputs: set<nat>, lo: UserKey, hi: UserKey,
    merged: seq<Entry>, base: set<UserKey>, outputs: set<nat>, installed: bool)

  // The write path: memtables, by identity, and the group being written.
  datatype Memory = Memory(
    history: History,              // the acknowledged writes
    lastSequence: nat,
    group: Option<Group>,
    tables: seq<set<Entry>>,
    mem: nat,
    imm: Option<nat>,
    flushed: nat,                  // writes up to here are in the tables,
    switched: nat)                 // writes after this one are in mem

  // File numbers and the background thread.
  datatype Background = Background(
    logNumber: nat,                // logfile_number_
    nextFile: nat,
    pending: set<nat>,             // pending_outputs_
    flush: Option<Flush>,
    compaction: Option<CompactionState>,
    error: bool)

  datatype State = State(
    disk: Disk,
    m: Memory,
    bg: Background,
    snapshots: seq<nat>,
    floor: nat,                    // largest smallest_snapshot of an installed compaction
    readers: seq<Reader>)

  datatype System =
    | Up(st: State)
    | Down(disk: Disk, history: History, flushed: nat, switched: nat, logNumber: nat, floor: nat)

  // ---------------------------------------------------------------- steps

  datatype WriteStep = StartGroup(ops: seq<WriteOp>) | LogGroup(lost: bool) | ApplyOne | CommitGroup | SwitchMemtable

  datatype FlushStep = FlushBegin | FlushBuild | FlushUnpend | FlushInstall(level: nat, f: FileMeta)

  datatype CompactStep =
    | CompactBegin(level: nat, inputs: set<nat>, lo: UserKey, hi: UserKey, merged: seq<Entry>)
    | CompactOpen
    | CompactFinish(number: nat, content: set<Entry>)
    | CompactInstall(outs: Level)
    | CompactCleanup
    | CompactFail
    | TrivialMove(level: nat, f: FileMeta)
    | DeleteObsoleteFiles

  datatype ReadStep = TakeSnapshot | ReleaseSnapshot(index: nat) | BeginRead(from: Option<nat>) | EndRead(index: nat)

  datatype Step =
    | Write(w: WriteStep) | MemCompaction(f: FlushStep) | Compact(c: CompactStep) | Read(u: ReadStep)
    | Crash(torn: bool)
    | FailedRecovery(orphans: Files, newLog: Option<nat>)
    | Open(r: Recovery)

  // What recovery did: the last log, the level-0 tables written and their metadata, whether the last
  // log stays in use, whether the manifest was rewritten, and the sequence and next file number reached.
  datatype Recovery = Recovery(last: nat, tables: Files, metas: Level, reuse: bool, save: bool, lastSequence: nat, next: nat)

  // What is on disk and readable: the acknowledged writes and a group whose record is complete.
  function Durable(m: Memory): History {
    if m.group.Some? && m.group.value.logged then m.history + m.group.value.ops else m.history
  }

  function Extended(m: Memory): History {
    if m.group.Some? then m.history + m.group.value.ops else m.history
  }

  function Applied(m: Memory): nat {
    if m.group.Some? then m.group.value.applied else 0
  }

  // AddLiveFiles: tables of the current version and of every version still referenced.
  function LiveFiles(tables: set<nat>, readers: seq<Reader>, compaction: Option<CompactionState>): set<nat> {
    tables + ReaderFiles(readers) + if compaction.Some? then Numbers(compaction.value.levels) else {}
  }

  function ReaderFiles(readers: seq<Reader>): set<nat> {
    set r, n | r in readers && n in r.Tables() :: n
  }

  // DoCompactionWork's smallest_snapshot.
  function Smallest(s: State): nat {
    if s.snapshots == [] then s.m.lastSequence else s.snapshots[0]
  }

  ghost predicate IsLast(logs: map<nat, LogFile>, n: nat) {
    (if logs == map[] then n == 0 else n in logs) && forall m :: m in logs ==> m <= n
  }

  // The sequence of the last operation of a record, as RecoverLogFile computes it.
  function RecordLast(r: Record): int {
    r.first + |r.ops| - 1
  }

  ghost predicate InLogs(logs: map<nat, LogFile>, lo: nat, n: nat, r: Record) {
    n in logs && lo <= n && r in logs[n].records
  }

  // LastSequence after recovery: the largest of the manifest's and the records'.
  ghost predicate RecoveredTo(d: Disk, m: nat) {
    d.manifestSequence <= m && (forall n, r :: InLogs(d.logs, d.manifestLog, n, r) ==> RecordLast(r) <= m) &&
    (m == d.manifestSequence || exists n, r :: InLogs(d.logs, d.manifestLog, n, r) && RecordLast(r) == m)
  }

  // An entry of a record at a place in the logs.
  ghost predicate ReplayedAt(logs: map<nat, LogFile>, lo: nat, n: nat, i: int, e: Entry) {
    n in logs && lo <= n && 0 <= i < |logs[n].records| && e in RecordEntries(logs[n].records[i])
  }

  ghost predicate ReplayedBefore(logs: map<nat, LogFile>, lo: nat, a: Entry, b: Entry) {
    exists n, i, m, j :: ReplayedAt(logs, lo, n, i, a) && ReplayedAt(logs, lo, m, j, b) && (n < m || (n == m && i < j))
  }

  // Tables written during recovery hold the records in the order of replay.
  ghost predicate TablesInOrder(d: Disk, tables: Files) {
    forall x, y, a, b :: x in tables && y in tables && x < y && a in tables[x] && b in tables[y] ==>
      ReplayedBefore(d.logs, d.manifestLog, a, b)
  }

  // Write: the leader takes its group and the last sequence, and releases the mutex.
  function DoStartGroup(s: State, ops: seq<WriteOp>): State {
    s.(m := s.m.(group := Some(Group(ops, false, 0))))
  }

  // AddRecord.
  function DoLogGroup(s: State, lost: bool): State
    requires s.m.group.Some? && s.bg.logNumber in s.disk.logs
  {
    var r := Record(s.m.lastSequence + 1, s.m.group.value.ops);
    s.(disk := s.disk.(logs := s.disk.logs[s.bg.logNumber := Append(s.disk.logs[s.bg.logNumber], r, lost)]),
       m := s.m.(group := Some(s.m.group.value.(logged := true))))
  }

  // One insertion of InsertInto.
  function DoApplyOne(s: State): State
    requires s.m.group.Some? && s.m.group.value.applied < |s.m.group.value.ops| && s.m.mem < |s.m.tables|
  {
    var m, g := s.m, s.m.group.value;
    var e := OpEntry(g.ops[g.applied], m.lastSequence + 1 + g.applied);
    s.(m := m.(tables := m.tables[m.mem := m.tables[m.mem] + {e}], group := Some(g.(applied := g.applied + 1))))
  }

  // SetLastSequence: the whole group becomes visible at once.
  function DoCommitGroup(s: State): State
    requires s.m.group.Some?
  {
    var m := s.m;
    s.(m := m.(history := m.history + m.group.value.ops, lastSequence := m.lastSequence + |m.group.value.ops|, group := None))
  }

  // The last branch of MakeRoomForWrite.
  function DoSwitchMemtable(s: State): State {
    var d, m, bg := s.disk, s.m, s.bg;
    State(d.(logs := d.logs[bg.nextFile := LogFile([], false)]),
          m.(tables := m.tables + [{}], imm := Some(m.mem), mem := |m.tables|, switched := |m.history|),
          bg.(logNumber := bg.nextFile, nextFile := bg.nextFile + 1), s.snapshots, s.floor, s.readers)
  }

  // WriteLevel0Table takes a number, builds the table without the mutex, and gives up the number
  // before CompactMemTable installs the edit.
  function DoFlushBegin(s: State): State {
    var bg := s.bg;
    s.(bg := bg.(flush := Some(Building(bg.nextFile)), pending := bg.pending + {bg.nextFile}, nextFile := bg.nextFile + 1))
  }

  function DoFlushBuild(s: State): State
    requires s.bg.flush.Some? && s.m.imm.Some? && s.m.imm.value < |s.m.tables|
  {
    var n := s.bg.flush.value.number;
    s.(disk := s.disk.(files := s.disk.files[n := s.m.tables[s.m.imm.value]]), bg := s.bg.(flush := Some(Built(n))))
  }

  function DoFlushUnpend(s: State): State
    requires s.bg.flush.Some?
  {
    var n := s.bg.flush.value.number;
    s.(bg := s.bg.(pending := s.bg.pending - {n}, flush := Some(Applying(n))))
  }

  // The version after a flush; a table without entries is not added.
  function FlushedVersion(s: State, v: Version, level: nat, f: FileMeta): Version
    requires s.m.imm.Some? && s.m.imm.value < |s.m.tables| && (s.m.tables[s.m.imm.value] != {} ==> level < |v|)
  {
    if s.m.tables[s.m.imm.value] == {} then v else Added(v, level, f)
  }

  // What WriteLevel0Table puts into the edit: the file it built, at a level with no overlap above.
  ghost predicate CanFlushInstall(s: State, level: nat, f: FileMeta) {
    s.bg.flush.Some? && s.bg.flush.value.Applying? && s.m.imm.Some? && s.m.imm.value < |s.m.tables| &&
    (s.m.tables[s.m.imm.value] != {} ==>
       f.number == s.bg.flush.value.number && FileOk(s.disk.files, f) && level < |s.disk.levels| && PlaceOk(s.disk.levels, level, f))
  }

  function DoFlushInstall(s: State, level: nat, f: FileMeta): State
    requires s.bg.flush.Some? && s.m.imm.Some? && s.m.imm.value < |s.m.tables|
    requires s.m.tables[s.m.imm.value] != {} ==> level < |s.disk.levels|
  {
    var d := Disk(s.disk.logs, s.disk.files, FlushedVersion(s, s.disk.levels, level, f), s.bg.logNumber, s.m.lastSequence, s.bg.nextFile);
    State(d, s.m.(imm := None, flushed := s.m.switched), s.bg.(flush := None), s.snapshots, s.floor, s.readers)
  }

  ghost function DoCompactBegin(s: State, level: nat, inputs: set<nat>, lo: UserKey, hi: UserKey, merged: seq<Entry>): State {
    var c := CompactionState(Smallest(s), level, s.disk.levels, inputs, lo, hi, merged, BaseKeys(s.disk.levels, level, merged), {}, false);
    s.(bg := s.bg.(compaction := Some(c)))
  }

  function DoCompactOpen(s: State): State
    requires s.bg.compaction.Some?
  {
    var bg, c := s.bg, s.bg.compaction.value;
    s.(bg := bg.(compaction := Some(c.(outputs := c.outputs + {bg.nextFile})), pending := bg.pending + {bg.nextFile},
                 nextFile := bg.nextFile + 1))
  }

  function DoCompactFinish(s: State, number: nat, content: set<Entry>): State {
    s.(disk := s.disk.(files := s.disk.files[number := content]))
  }

  // InstallCompactionResults.
  function DoCompactInstall(s: State, outs: Level): State
    requires s.bg.compaction.Some? && s.bg.compaction.value.level + 1 < |s.disk.levels|
  {
    var c := s.bg.compaction.value;
    var d := s.disk.(levels := Compacted(s.disk.levels, c.level, c.inputs, outs), manifestSequence := s.m.lastSequence,
                     manifestNext := s.bg.nextFile);
    State(d, s.m, s.bg.(compaction := Some(c.(installed := true))), s.snapshots, c.smallestSnapshot, s.readers)
  }

  // The branch of BackgroundCompaction that moves a file to the next level.
  function DoTrivialMove(s: State, level: nat, f: FileMeta): State
    requires level + 1 < |s.disk.levels|
  {
    s.(disk := s.disk.(levels := Compacted(s.disk.levels, level, {f.number}, [f]), manifestSequence := s.m.lastSequence,
                       manifestNext := s.bg.nextFile))
  }

  // CleanupCompaction, after success or failure.
  function DoCompactEnd(s: State, failed: bool): State
    requires s.bg.compaction.Some?
  {
    s.(bg := s.bg.(pending := s.bg.pending - s.bg.compaction.value.outputs, compaction := None, error := s.bg.error || failed))
  }

  function DoDeleteObsoleteFiles(s: State): State {
    var d := s.disk;
    var live := LiveFiles(d.Tables(), s.readers, s.bg.compaction) + s.bg.pending;
    s.(disk := d.(files := map n | n in d.files && n in live :: d.files[n],
                  logs := map n | n in d.logs && n >= d.manifestLog :: d.logs[n]))
  }

  function DoTakeSnapshot(s: State): State {
    s.(snapshots := s.snapshots + [s.m.lastSequence])
  }

  function DoReleaseSnapshot(s: State, i: nat): State
    requires i < |s.snapshots|
  {
    s.(snapshots := s.snapshots[..i] + s.snapshots[i + 1..])
  }

  function NewReader(s: State, snapshot: nat): Reader {
    Reader(snapshot, s.m.mem, s.m.imm, s.disk.levels, s.m.flushed, s.m.switched)
  }

  function DoBeginRead(s: State, snapshot: nat): State {
    s.(readers := s.readers + [NewReader(s, snapshot)])
  }

  function DoEndRead(s: State, i: nat): State
    requires i < |s.readers|
  {
    s.(readers := s.readers[..i] + s.readers[i + 1..])
  }

  // Any choice of inputs that the code can make, and the merged entries of their files.
  ghost predicate CanCompactBegin(s: State, level: nat, inputs: set<nat>, lo: UserKey, hi: UserKey, merged: seq<Entry>) {
    s.bg.compaction.None? && s.bg.flush.None? && !s.bg.error && Chosen(s.disk.levels, level, inputs, lo, hi) &&
    Sorted(merged) && Elements(merged) == TableEntries(s.disk.files, inputs)
  }

  // The background thread is inside DoCompactionWork, and not in a flush made from there.
  ghost predicate Compacting(s: State) {
    s.bg.compaction.Some? && s.bg.flush.None? && !s.bg.compaction.value.installed
  }

  // The outputs are built, cut anywhere, and hold the entries that the merge loop kept.
  ghost predicate CanCompactInstall(s: State, outs: Level) {
    Compacting(s) &&
    var c := s.bg.compaction.value;
    c.level + 1 < |s.disk.levels| && NumbersOf(outs) == c.outputs <= s.disk.files.Keys && InOrder(outs) &&
    (forall o :: o in outs ==> FileOk(s.disk.files, o)) &&
    TableEntries(s.disk.files, c.outputs) == Elements(Compaction.Kept(c.merged, |c.merged|, c.smallestSnapshot, c.base))
  }

  ghost predicate CanTrivialMove(s: State, level: nat, f: FileMeta) {
    s.bg.compaction.None? && s.bg.flush.None? && !s.bg.error && CanMove(s.disk.levels, level, f)
  }

  predicate WriteEnabled(s: State, w: WriteStep) {
    match w
    case StartGroup(ops) => s.m.group.None?
    case LogGroup(lost) =>
      s.m.group.Some? && !s.m.group.value.logged && s.bg.logNumber in s.disk.logs && (lost ==> s.disk.logs[s.bg.logNumber].torn)
    case ApplyOne =>
      s.m.group.Some? && s.m.group.value.logged && s.m.group.value.applied < |s.m.group.value.ops| && s.m.mem < |s.m.tables|
    case CommitGroup => s.m.group.Some? && s.m.group.value.logged && s.m.group.value.applied == |s.m.group.value.ops|
    case SwitchMemtable => s.m.group.None? && s.m.imm.None? && !s.bg.error
  }

  function ApplyWrite(s: State, w: WriteStep): State
    requires WriteEnabled(s, w)
  {
    match w
    case StartGroup(ops) => DoStartGroup(s, ops)
    case LogGroup(lost) => DoLogGroup(s, lost)
    case ApplyOne => DoApplyOne(s)
    case CommitGroup => DoCommitGroup(s)
    case SwitchMemtable => DoSwitchMemtable(s)
  }

  ghost predicate FlushEnabled(s: State, f: FlushStep) {
    match f
    case FlushBegin => s.m.imm.Some? && s.bg.flush.None? && !s.bg.error
    case FlushBuild => s.bg.flush.Some? && s.bg.flush.value.Building? && s.m.imm.Some? && s.m.imm.value < |s.m.tables|
    case FlushUnpend => s.bg.flush.Some? && s.bg.flush.value.Built?
    case FlushInstall(level, f) => CanFlushInstall(s, level, f)
  }

  ghost function ApplyFlush(s: State, f: FlushStep): State
    requires FlushEnabled(s, f)
  {
    match f
    case FlushBegin => DoFlushBegin(s)
    case FlushBuild => DoFlushBuild(s)
    case FlushUnpend => DoFlushUnpend(s)
    case FlushInstall(level, f) => DoFlushInstall(s, level, f)
  }

  ghost predicate CompactEnabled(s: State, c: CompactStep) {
    match c
    case CompactBegin(level, inputs, lo, hi, merged) => CanCompactBegin(s, level, inputs, lo, hi, merged)
    case CompactOpen => Compacting(s)
    case CompactFinish(number, content) => Compacting(s) && number in s.bg.compaction.value.outputs
    case CompactInstall(outs) => CanCompactInstall(s, outs)
    case CompactCleanup => s.bg.compaction.Some? && s.bg.flush.None? && s.bg.compaction.value.installed
    case CompactFail => Compacting(s)
    case TrivialMove(level, f) => CanTrivialMove(s, level, f)
    case DeleteObsoleteFiles => s.bg.flush.None? && !s.bg.error
  }

  ghost function ApplyCompact(s: State, c: CompactStep): State
    requires CompactEnabled(s, c)
  {
    match c
    case CompactBegin(level, inputs, lo, hi, merged) => DoCompactBegin(s, level, inputs, lo, hi, merged)
    case CompactOpen => DoCompactOpen(s)
    case CompactFinish(number, content) => DoCompactFinish(s, number, content)
    case CompactInstall(outs) => DoCompactInstall(s, outs)
    case CompactCleanup => DoCompactEnd(s, false)
    case CompactFail => DoCompactEnd(s, true)
    case TrivialMove(level, f) => DoTrivialMove(s, level, f)
    case DeleteObsoleteFiles => DoDeleteObsoleteFiles(s)
  }

  predicate ReadEnabled(s: State, u: ReadStep) {
    match u
    case TakeSnapshot => true
    case ReleaseSnapshot(i) => i < |s.snapshots|
    case BeginRead(from) => from.Some? ==> from.value < |s.snapshots|
    case EndRead(i) => i < |s.readers|
  }

  function ApplyRead(s: State, u: ReadStep): State
    requires ReadEnabled(s, u)
  {
    match u
    case TakeSnapshot => DoTakeSnapshot(s)
    case ReleaseSnapshot(i) => DoReleaseSnapshot(s, i)
    case BeginRead(from) => DoBeginRead(s, if from.Some? then s.snapshots[from.value] else s.m.lastSequence)
    case EndRead(i) => DoEndRead(s, i)
  }

  // Recovery reads every log numbered at or above LogNumber, in order.  Full memtables become
  // level-0 tables; with reuse the last log stays in use and its entries stay in memory.
  ghost predicate OpenEnabled(d: Disk, r: Recovery) {
    IsLast(d.logs, r.last) && d.manifestNext <= r.next && d.levels != [] &&
    (forall n :: n in d.logs ==> n < r.next) && (forall n :: n in r.tables ==> d.manifestNext <= n < r.next) &&
    (forall n :: n in r.tables ==> r.tables[n] != {}) && TablesInOrder(d, r.tables) &&
    NumbersOf(r.metas) == r.tables.Keys && Distinct(r.metas) && (forall f :: f in r.metas ==> FileOk(r.tables, f)) &&
    (r.tables != map[] ==> r.save) && (r.reuse ==> r.last in d.logs && r.last >= d.manifestLog) &&
    TableEntries(r.tables, r.tables.Keys) == Replay(d.logs, d.manifestLog, if r.reuse then r.last else r.last + 1) &&
    RecoveredTo(d, r.lastSequence)
  }

  function OpenState(d: Disk, h: History, flushed: nat, switched: nat, logNumber: nat, floor: nat, r: Recovery): State
    requires d.levels != []
  {
    var files := d.files + r.tables;
    // The number under which the log continues; a new one is taken after all others.
    var number := if r.reuse then r.last else r.next;
    var next := if r.reuse then r.next else r.next + 1;
    var logs := if r.reuse then d.logs else d.logs[r.next := LogFile([], false)];
    var mem := if r.reuse then LogEntries(LogOf(d.logs, r.last)) else {};
    // Writes up to here are in the tables: all of them, unless the log that holds some is reused.
    var start := if r.reuse && r.last == logNumber then switched else |h|;
    var d' := if r.save then Disk(logs, files, d.levels[0 := InsertAll(d.levels[0], r.metas)], number, r.lastSequence, next)
              else d.(logs := logs, files := files);
    State(d', Memory(h, r.lastSequence, None, [mem], 0, None, start, start), Background(number, next, {}, None, None, false), [], floor, [])
  }

  // What a crash leaves: the files, with the record being appended cut short if torn.
  function DoCrash(s: State, torn: bool): System {
    var logs := if torn && s.bg.logNumber in s.disk.logs
                then s.disk.logs[s.bg.logNumber := s.disk.logs[s.bg.logNumber].(torn := true)] else s.disk.logs;
    Down(s.disk.(logs := logs), Durable(s.m), s.m.flushed, s.m.switched, s.bg.logNumber, s.floor)
  }

  function DoFailedRecovery(d: Disk, orphans: Files, newLog: Option<nat>): Disk {
    var logs := if newLog.Some? then d.logs[newLog.value := LogFile([], false)] else d.logs;
    d.(files := d.files + orphans, logs := logs)
  }

  ghost predicate Enabled(sys: System, step: Step) {
    match step
    case Crash(torn) => sys.Up? && (torn ==> sys.st.m.group.Some? && !sys.st.m.group.value.logged)
    case FailedRecovery(orphans, newLog) =>
      sys.Down? && orphans.Keys !! sys.disk.Tables() &&
      (newLog.Some? ==> 0 < newLog.value && forall n :: n in sys.disk.logs ==> n < newLog.value)
    case Open(r) => sys.Down? && OpenEnabled(sys.disk, r)
    case Write(w) => sys.Up? && WriteEnabled(sys.st, w)
    case MemCompaction(f) => sys.Up? && FlushEnabled(sys.st, f)
    case Compact(c) => sys.Up? && CompactEnabled(sys.st, c)
    case Read(u) => sys.Up? && ReadEnabled(sys.st, u)
  }

  ghost function Next(sys: System, step: Step): System
    requires Enabled(sys, step)
  {
    match step
    case Crash(torn) => DoCrash(sys.st, torn)
    case FailedRecovery(orphans, newLog) => sys.(disk := DoFailedRecovery(sys.disk, orphans, newLog))
    case Open(r) => Up(OpenState(sys.disk, sys.history, sys.flushed, sys.switched, sys.logNumber, sys.floor, r))
    case Write(w) => Up(ApplyWrite(sys.st, w))
    case MemCompaction(f) => Up(ApplyFlush(sys.st, f))
    case Compact(c) => Up(ApplyCompact(sys.st, c))
    case Read(u) => Up(ApplyRead(sys.st, u))
  }

  // ---------------------------------------------------------------- clean steps

  // What has not been flushed.
  function InMemory(m: Memory): set<Entry> {
    (if m.mem < |m.tables| then m.tables[m.mem] else {}) +
    if m.imm.Some? && m.imm.value < |m.tables| then m.tables[m.imm.value] else {}
  }

  // No split key ends up below its older entries; new files on the output level, flushed while the
  // compaction ran, lie beside its outputs; and no deletion is gone that hides a value left outside.
  ghost predicate CleanInstall(s: State, outs: Level)
    requires CanCompactInstall(s, outs)
  {
    NothingOutOfOrder(s, outs) && NothingResurfaces(s)
  }

  ghost predicate NothingOutOfOrder(s: State, outs: Level)
    requires CanCompactInstall(s, outs)
  {
    var c, v := s.bg.compaction.value, s.disk.levels;
    NoneMisplaced(s.disk.files, v, c.inputs, c.level, outs) &&
    forall g, o :: g in v[c.level + 1] && (c.level + 1 < |c.levels| ==> g !in c.levels[c.level + 1]) && o in outs ==> Apart(g, o)
  }

  ghost predicate NothingResurfaces(s: State)
    requires s.bg.compaction.Some?
  {
    var c := s.bg.compaction.value;
    NoneResurfaces(c.levels, c.level, c.inputs, c.merged, Outside(s.disk.files, s.disk.levels, c.inputs, InMemory(s.m)), c.smallestSnapshot)
  }

  ghost predicate CleanCompact(s: State, c: CompactStep)
    requires CompactEnabled(s, c)
  {
    match c
    case CompactInstall(outs) => CleanInstall(s, outs)
    case TrivialMove(level, f) => forall g :: !SplitAt(s.disk.levels, {f.number}, level, f, g)
    case _ => true
  }

  // The steps that do no harm: what the code allows but for a compaction or move that splits a key and
  // puts its parts in the wrong order, outputs around a table flushed meanwhile, a deletion dropped over
  // a value that stays, and a record lost in the block of a torn fragment.
  ghost predicate Clean(sys: System, step: Step)
    requires Enabled(sys, step)
  {
    match step
    case Write(LogGroup(lost)) => lost ==> sys.st.m.group.value.ops == []
    case Compact(c) => CleanCompact(sys.st, c)
    case _ => true
  }
}
