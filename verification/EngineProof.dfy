/**
 The invariant of the engine and its preservation by every step.
 */
module EngineProof {
  import opened InternalKeys
  import opened Options
  import opened History
  import opened Levels
  import opened LevelEdits
  import opened Engine
  import Compaction

  // ---------------------------------------------------------------- the invariant

  // With the writes after the first flushed ones a set of table entries answers as the history does.
  ghost predicate Answers(t: set<Entry>, h: History, flushed: nat, k: UserKey, s: nat)
    requires flushed <= |h|
  {
    View(t + EntriesOf(h, flushed, |h|), k, s) == View(EntriesOf(h, 0, |h|), k, s)
  }

  // Table entries among the first flushed writes that answer every view at or above floor.
  ghost predicate TablesOk(t: set<Entry>, h: History, flushed: nat, floor: nat) {
    flushed <= |h| && t <= EntriesOf(h, 0, flushed) && forall k, s :: s >= floor ==> Answers(t, h, flushed, k, s)
  }

  ghost predicate VersionInv(d: Disk, h: History, flushed: nat, floor: nat) {
    d.Tables() <= d.files.Keys && (forall n :: n in d.Tables() ==> n < d.manifestNext) &&
    TablesOk(TableEntries(d.files, d.Tables()), h, flushed, floor)
  }

  // The logs from LogNumber on hold exactly what the tables lack.
  ghost predicate LogInv(d: Disk, h: History, flushed: nat, switched: nat, logNumber: nat) {
    flushed <= switched <= |h| && d.manifestLog <= logNumber &&
    LogEntries(LogOf(d.logs, logNumber)) == EntriesOf(h, switched, |h|) &&
    Replay(d.logs, d.manifestLog, logNumber) == EntriesOf(h, flushed, switched) &&
    (forall n :: n in d.logs && n > logNumber ==> LogEntries(d.logs[n]) == {}) &&
    RecordsWithin(d.logs, |h|)
  }

  // No record claims a sequence beyond the history, not even an empty one.
  ghost predicate RecordsWithin(logs: map<nat, LogFile>, last: nat) {
    forall n, r :: InLogs(logs, 0, n, r) ==> RecordLast(r) <= last
  }

  ghost predicate MemInv(m: Memory) {
    var x := Extended(m);
    m.lastSequence == |m.history| && m.flushed <= m.switched <= |m.history| &&
    (m.group.Some? ==> m.group.value.applied <= |m.group.value.ops| && (m.group.value.applied > 0 ==> m.group.value.logged)) &&
    m.mem < |m.tables| && m.tables[m.mem] == EntriesOf(x, m.switched, |m.history| + Applied(m)) &&
    (if m.imm.None? then m.flushed == m.switched
     else m.imm.value < |m.tables| && m.imm.value != m.mem && m.tables[m.imm.value] == EntriesOf(x, m.flushed, m.switched))
  }

  ghost predicate LogNumbers(logs: set<nat>, logNumber: nat, next: nat) {
    (forall n :: n in logs ==> n <= logNumber) && logNumber < next
  }

  ghost predicate Below(numbers: set<nat>, next: nat) {
    forall n :: n in numbers ==> n < next
  }

  // The flush in progress: its number is no live table, and once built it holds imm.
  ghost predicate FlushInv(files: Files, live: set<nat>, flush: Option<Flush>, m: Memory, next: nat) {
    flush.Some? ==>
      var n := flush.value.number;
      n < next && n !in live && m.imm.Some? && m.imm.value < |m.tables| &&
      (!flush.value.Building? ==> n in files && files[n] == m.tables[m.imm.value])
  }

  ghost predicate SnapshotInv(snapshots: seq<nat>, floor: nat, last: nat) {
    floor <= last &&
    (forall i, j :: 0 <= i < j < |snapshots| ==> snapshots[i] <= snapshots[j]) &&
    (forall i :: 0 <= i < |snapshots| ==> floor <= snapshots[i] <= last)
  }

  // The writes that are in no table.
  ghost function Unflushed(m: Memory): set<Entry>
    requires m.flushed <= |Extended(m)|
  {
    EntriesOf(Extended(m), m.flushed, |Extended(m)|)
  }

  // A compaction in progress: its inputs are live, and what was flushed since it began is newer.
  ghost predicate CompactionInv(d: Disk, live: set<nat>, bg: Background) {
    bg.compaction.Some? ==>
      var c := bg.compaction.value;
      c.outputs <= bg.pending && (bg.flush.Some? ==> bg.flush.value.number !in c.outputs) &&
      (!c.installed ==>
         c.outputs !! live && c.inputs <= d.Tables() && Sorted(c.merged) && Elements(c.merged) == TableEntries(d.files, c.inputs) &&
         c.base == BaseKeys(c.levels, c.level, c.merged) && NewerThan(TableEntries(d.files, d.Tables() - Numbers(c.levels)), c.merged))
  }

  ghost predicate NewerThan(newer: set<Entry>, merged: seq<Entry>) {
    forall e, m :: e in newer && m in merged ==> m.seqno < e.seqno
  }

  // No live snapshot is below the one a running compaction keeps views for.
  ghost predicate SmallestInv(compaction: Option<CompactionState>, snapshots: seq<nat>, floor: nat, last: nat) {
    compaction.Some? && !compaction.value.installed ==>
      floor <= compaction.value.smallestSnapshot <= last &&
      forall i :: 0 <= i < |snapshots| ==> compaction.value.smallestSnapshot <= snapshots[i]
  }

  // The memtables a reader holds: all writes after hi up to its snapshot in one, (lo, hi] in the other.
  ghost predicate ReaderMemOk(m: Memory, r: Reader) {
    var x := Extended(m);
    r.snapshot <= |m.history| && r.lo <= r.hi <= |m.history| && r.mem < |m.tables| &&
    m.tables[r.mem] <= EntriesOf(x, r.hi, |x|) &&
    (r.hi <= r.snapshot ==> EntriesOf(x, r.hi, r.snapshot) <= m.tables[r.mem]) &&
    (if r.imm.None? then r.lo == r.hi
     else r.imm.value < |m.tables| && r.imm.value != m.mem && m.tables[r.imm.value] == EntriesOf(x, r.lo, r.hi))
  }

  // The tables it holds answer its snapshot, together with the writes after the first lo.
  ghost predicate ReaderTablesOk(files: Files, x: History, r: Reader) {
    var t := TableEntries(files, r.Tables());
    r.lo <= |x| && t <= EntriesOf(x, 0, r.lo) && forall k :: Answers(t, x, r.lo, k, r.snapshot)
  }

  ghost predicate ReadersMemOk(m: Memory, readers: seq<Reader>) {
    forall i :: 0 <= i < |readers| ==> ReaderMemOk(m, readers[i])
  }

  ghost predicate ReadersTablesOk(files: Files, x: History, readers: seq<Reader>) {
    forall i :: 0 <= i < |readers| ==> ReaderTablesOk(files, x, readers[i])
  }

  ghost predicate UpInv(s: State) {
    var d, m, bg := s.disk, s.m, s.bg;
    var live := LiveFiles(d.Tables(), s.readers, bg.compaction);
    MemInv(m) &&
    VersionInv(d, Extended(m), m.flushed, s.floor) && m.flushed <= d.manifestSequence <= |m.history| &&
    LogInv(d, Durable(m), m.flushed, m.switched, bg.logNumber) && bg.logNumber in d.logs &&
    LogNumbers(d.logs.Keys, bg.logNumber, bg.nextFile) && d.manifestNext <= bg.nextFile &&
    Below(bg.pending, bg.nextFile) && Below(live, bg.nextFile) && live <= d.files.Keys &&
    FlushInv(d.files, live, bg.flush, m, bg.nextFile) &&
    CompactionInv(d, live, bg) && SmallestInv(bg.compaction, s.snapshots, s.floor, |m.history|) &&
    SnapshotInv(s.snapshots, s.floor, |m.history|) &&
    ReadersMemOk(m, s.readers) && ReadersTablesOk(d.files, Extended(m), s.readers)
  }

  ghost predicate DownInv(d: Disk, h: History, flushed: nat, switched: nat, logNumber: nat, floor: nat) {
    VersionInv(d, h, flushed, floor) && flushed <= d.manifestSequence <= |h| && floor <= |h| &&
    LogInv(d, h, flushed, switched, logNumber) && KnownLog(d, logNumber)
  }

  // The log that was in use exists, unless the database has never been opened.
  ghost predicate KnownLog(d: Disk, logNumber: nat) {
    logNumber in d.logs || logNumber == 0
  }

  // ---------------------------------------------------------------- facts about files

  lemma AppendEntries(l: LogFile, r: Record)
    ensures LogEntries(Append(l, r, false)) == LogEntries(l) + RecordEntries(r)
  {
    assert Append(l, r, false).records == l.records + [r];
    assert forall q :: q in l.records + [r] <==> q in l.records || q == r;
  }

  lemma RecordIsHistory(h: History, ops: seq<WriteOp>)
    ensures RecordEntries(Record(|h| + 1, ops)) == EntriesOf(h + ops, |h|, |h + ops|)
  {
    var r := Record(|h| + 1, ops);
    assert forall i :: 0 <= i < |ops| ==> RecordEntry(r, i) == EntryAt(h + ops, |h| + i);
    InEntries(h + ops, |h|, |h + ops|);
    forall e | e in EntriesOf(h + ops, |h|, |h + ops|) ensures e in RecordEntries(r) {
      assert e == RecordEntry(r, e.seqno - 1 - |h|);
    }
  }

  lemma LogInvExtend(d: Disk, h: History, ops: seq<WriteOp>, flushed: nat, switched: nat, n: nat)
    requires LogInv(d, h, flushed, switched, n) && n in d.logs
    ensures var d' := d.(logs := d.logs[n := Append(d.logs[n], Record(|h| + 1, ops), false)]);
            LogInv(d', h + ops, flushed, switched, n)
  {
    var d' := d.(logs := d.logs[n := Append(d.logs[n], Record(|h| + 1, ops), false)]);
    LogGrows(d.logs[n], h, ops, switched);
    EntriesPrefix(h, ops, flushed, switched);
    OneLogChanged(d.logs, n, Append(d.logs[n], Record(|h| + 1, ops), false), d.manifestLog);
    RecordsWithinMore(d.logs, n, |h|, ops);
  }

  lemma OneLogChanged(logs: map<nat, LogFile>, n: nat, l: LogFile, lo: nat)
    ensures Replay(logs[n := l], lo, n) == Replay(logs, lo, n) && LogOf(logs[n := l], n) == l
  {
    SameReplay(logs, logs[n := l], lo, n);
  }

  lemma LogGrows(l: LogFile, h: History, ops: seq<WriteOp>, switched: nat)
    requires switched <= |h| && LogEntries(l) == EntriesOf(h, switched, |h|)
    ensures LogEntries(Append(l, Record(|h| + 1, ops), false)) == EntriesOf(h + ops, switched, |h + ops|)
  {
    AppendEntries(l, Record(|h| + 1, ops));
    RecordIsHistory(h, ops);
    EntriesPrefix(h, ops, switched, |h|);
    EntriesSplit(h + ops, switched, |h|, |h + ops|);
  }

  lemma RecordsWithinMore(logs: map<nat, LogFile>, n: nat, last: nat, ops: seq<WriteOp>)
    requires RecordsWithin(logs, last) && n in logs
    ensures RecordsWithin(logs[n := Append(logs[n], Record(last + 1, ops), false)], last + |ops|)
  {
    var logs' := logs[n := Append(logs[n], Record(last + 1, ops), false)];
    forall m, r | InLogs(logs', 0, m, r) ensures RecordLast(r) <= last + |ops| {
      assert r == Record(last + 1, ops) || InLogs(logs, 0, m, r);
    }
  }

  lemma FewerRecords(a: map<nat, LogFile>, b: map<nat, LogFile>, last: nat)
    requires RecordsWithin(a, last)
    requires forall n :: n in b ==> b[n].records == [] || (n in a && b[n].records == a[n].records)
    ensures RecordsWithin(b, last)
  {
    forall n, r | InLogs(b, 0, n, r) ensures RecordLast(r) <= last {
      assert InLogs(a, 0, n, r);
    }
  }

  lemma SameReplay(a: map<nat, LogFile>, b: map<nat, LogFile>, lo: nat, hi: nat)
    requires forall n :: lo <= n < hi ==> (n in a <==> n in b) && (n in a ==> LogEntries(a[n]) == LogEntries(b[n]))
    ensures Replay(a, lo, hi) == Replay(b, lo, hi)
  {
  }

  // More writes do not matter to what the tables answer ...
  lemma AnswersExtend(t: set<Entry>, h: History, g: History, flushed: nat, k: UserKey, s: nat)
    requires flushed <= |h| && t <= EntriesOf(h, 0, flushed) && Answers(t, h, flushed, k, s)
    ensures Answers(t, h + g, flushed, k, s)
  {
    var newer := EntriesOf(h + g, |h|, |h + g|);
    Parts(t, h, g, flushed);
    assert t + EntriesOf(h + g, flushed, |h + g|) == (t + EntriesOf(h, flushed, |h|)) + newer;
    ViewWithNewer(t + EntriesOf(h, flushed, |h|), EntriesOf(h, 0, |h|), newer, k, s);
  }

  lemma Parts(t: set<Entry>, h: History, g: History, flushed: nat)
    requires flushed <= |h| && t <= EntriesOf(h, 0, flushed)
    ensures var newer := EntriesOf(h + g, |h|, |h + g|);
            EntriesOf(h + g, flushed, |h + g|) == EntriesOf(h, flushed, |h|) + newer &&
            EntriesOf(h + g, 0, |h + g|) == EntriesOf(h, 0, |h|) + newer && UniqueTags(EntriesOf(h, 0, |h|) + newer) &&
            t + EntriesOf(h, flushed, |h|) <= EntriesOf(h, 0, |h|) && UniqueTags((t + EntriesOf(h, flushed, |h|)) + newer) &&
            (forall e :: e in EntriesOf(h, 0, |h|) ==> e.seqno <= |h|) && forall e :: e in newer ==> e.seqno > |h|
  {
    var newer := EntriesOf(h + g, |h|, |h + g|);
    EntriesSplit(h + g, flushed, |h|, |h + g|);
    EntriesSplit(h + g, 0, |h|, |h + g|);
    EntriesPrefix(h, g, flushed, |h|);
    EntriesPrefix(h, g, 0, |h|);
    EntriesSplit(h, 0, flushed, |h|);
    HistoryEntriesUnique(h + g, EntriesOf(h, 0, |h|) + newer);
    SubsetUnique(EntriesOf(h, 0, |h|) + newer, (t + EntriesOf(h, flushed, |h|)) + newer);
    InEntries(h, 0, |h|);
    InEntries(h + g, |h|, |h + g|);
  }

  lemma TablesOkExtend(t: set<Entry>, h: History, g: History, flushed: nat, floor: nat)
    requires TablesOk(t, h, flushed, floor)
    ensures TablesOk(t, h + g, flushed, floor)
  {
    EntriesPrefix(h, g, 0, flushed);
    forall k, s | s >= floor ensures Answers(t, h + g, flushed, k, s) {
      AnswersExtend(t, h, g, flushed, k, s);
    }
  }

  // ... and if the last ones are forgotten, the others are still answered.
  lemma TablesOkRestrict(t: set<Entry>, h: History, g: History, flushed: nat, floor: nat)
    requires TablesOk(t, h + g, flushed, floor) && flushed <= |h| && floor <= |h|
    ensures TablesOk(t, h, flushed, floor)
  {
    EntriesPrefix(h, g, 0, flushed);
    forall k, s: nat | s >= floor ensures Answers(t, h, flushed, k, s) {
      AnswersRestrict(t, h, g, flushed, k, if s < |h| then s else |h|);
      if s > |h| {
        Parts(t, h, g, flushed);
        ViewAtEnd(t + EntriesOf(h, flushed, |h|), k, |h|, s);
        ViewAtEnd(EntriesOf(h, 0, |h|), k, |h|, s);
      }
    }
  }

  lemma AnswersRestrict(t: set<Entry>, h: History, g: History, flushed: nat, k: UserKey, s: nat)
    requires flushed <= |h| && t <= EntriesOf(h, 0, flushed) && s <= |h| && flushed <= |h + g| && Answers(t, h + g, flushed, k, s)
    ensures Answers(t, h, flushed, k, s)
  {
    var newer := EntriesOf(h + g, |h|, |h + g|);
    Parts(t, h, g, flushed);
    assert t + EntriesOf(h + g, flushed, |h + g|) == (t + EntriesOf(h, flushed, |h|)) + newer;
    ViewWithoutNewer(t + EntriesOf(h, flushed, |h|), newer, k, s);
    ViewWithoutNewer(EntriesOf(h, 0, |h|), newer, k, s);
  }

  // Snapshots beyond all entries show the same.
  lemma ViewAtEnd(es: set<Entry>, k: UserKey, n: nat, s: nat)
    requires UniqueTags(es) && n <= s && forall e :: e in es ==> e.seqno <= n
    ensures View(es, k, n) == View(es, k, s)
  {
    if e :| IsNewest(es, k, s, e) {
      ViewIs(es, k, s, e);
      ViewIs(es, k, n, e);
    } else if e :| IsNewest(es, k, n, e) {
      assert IsNewest(es, k, s, e);
    }
  }

  // ---------------------------------------------------------------- write groups

  // Readers do not notice that the history grows and their memtable with it.
  lemma ReadersMemExtend(m: Memory, m': Memory, g: History, readers: seq<Reader>)
    requires MemInv(m) && ReadersMemOk(m, readers)
    requires Extended(m') == Extended(m) + g && |m.history| <= |m'.history|
    requires m'.mem == m.mem && |m'.tables| == |m.tables|
    requires forall i :: 0 <= i < |m.tables| && i != m.mem ==> m'.tables[i] == m.tables[i]
    requires m.tables[m.mem] <= m'.tables[m.mem] <= m.tables[m.mem] + EntriesOf(Extended(m'), |m.history|, |Extended(m')|)
    ensures ReadersMemOk(m', readers)
  {
    var x, y := Extended(m), Extended(m');
    forall i | 0 <= i < |readers| ensures ReaderMemOk(m', readers[i]) {
      var r := readers[i];
      EntriesPrefix(x, g, r.lo, r.hi);
      EntriesPrefix(x, g, r.hi, |x|);
      EntriesSplit(y, r.hi, |x|, |y|);
      EntriesSplit(y, r.hi, |m.history|, |y|);
      if r.hi <= r.snapshot { EntriesPrefix(x, g, r.hi, r.snapshot); }
    }
  }

  // Nor that a group is acknowledged or imm dropped: they keep the objects they hold.
  lemma ReadersMemSame(m: Memory, m': Memory, readers: seq<Reader>)
    requires ReadersMemOk(m, readers)
    requires Extended(m') == Extended(m) && |m.history| <= |m'.history| && m'.tables == m.tables && m'.mem == m.mem
    ensures ReadersMemOk(m', readers)
  {
    forall i | 0 <= i < |readers| ensures ReaderMemOk(m', readers[i]) {
      assert ReaderMemOk(m, readers[i]);
    }
  }

  lemma ReadersTablesExtend(files: Files, x: History, g: History, readers: seq<Reader>)
    requires ReadersTablesOk(files, x, readers)
    ensures ReadersTablesOk(files, x + g, readers)
  {
    forall i | 0 <= i < |readers| ensures ReaderTablesOk(files, x + g, readers[i]) {
      var r := readers[i];
      EntriesPrefix(x, g, 0, r.lo);
      forall k ensures Answers(TableEntries(files, r.Tables()), x + g, r.lo, k, r.snapshot) {
        AnswersExtend(TableEntries(files, r.Tables()), x, g, r.lo, k, r.snapshot);
      }
    }
  }

  // The tables split into inputs and others.
  lemma InputsAndOthers(files: Files, v: Version, inputs: set<nat>, unflushed: set<Entry>)
    requires inputs <= Numbers(v)
    ensures TableEntries(files, inputs) + Outside(files, v, inputs, unflushed) == TableEntries(files, Numbers(v)) + unflushed
  {
    TablesUnion(files, inputs, Numbers(v) - inputs);
    assert inputs + (Numbers(v) - inputs) == Numbers(v);
  }

  // Starting a group only names writes that are still to come.
  lemma StartGroupMem(m: Memory, ops: seq<WriteOp>)
    requires MemInv(m) && m.group.None?
    ensures MemInv(m.(group := Some(Group(ops, false, 0))))
  {
    EntriesPrefix(m.history, ops, m.switched, |m.history|);
    EntriesPrefix(m.history, ops, m.flushed, m.switched);
  }

  lemma StartGroupKeepsInv(s: State, ops: seq<WriteOp>)
    requires UpInv(s) && s.m.group.None?
    ensures UpInv(DoStartGroup(s, ops))
  {
    var t := DoStartGroup(s, ops);
    StartGroupMem(s.m, ops);
    TablesOkExtend(TableEntries(s.disk.files, s.disk.Tables()), s.m.history, ops, s.m.flushed, s.floor);
    ReadersMemExtend(s.m, t.m, ops, s.readers);
    ReadersTablesExtend(s.disk.files, s.m.history, ops, s.readers);
  }

  lemma LogGroupMem(m: Memory, readers: seq<Reader>)
    requires MemInv(m) && ReadersMemOk(m, readers) && m.group.Some? && !m.group.value.logged
    ensures var m' := m.(group := Some(m.group.value.(logged := true)));
            MemInv(m') && ReadersMemOk(m', readers) && Extended(m') == Extended(m) && Durable(m') == Extended(m)
  {
    ReadersMemSame(m, m.(group := Some(m.group.value.(logged := true))), readers);
  }

  lemma LogGroupKeepsInv(s: State)
    requires UpInv(s) && s.m.group.Some? && !s.m.group.value.logged
    ensures UpInv(DoLogGroup(s, false))
  {
    LogGroupMem(s.m, s.readers);
    LogGroupLogs(s);
    OtherLogs(s.disk, DoLogGroup(s, false).disk.logs, Extended(s.m), s.m.flushed, s.floor,
              LiveFiles(s.disk.Tables(), s.readers, s.bg.compaction), s.bg);
  }

  lemma LogGroupLogs(s: State)
    requires s.m.group.Some? && s.m.lastSequence == |s.m.history| && s.bg.logNumber in s.disk.logs
    requires LogInv(s.disk, s.m.history, s.m.flushed, s.m.switched, s.bg.logNumber) && LogNumbers(s.disk.logs.Keys, s.bg.logNumber, s.bg.nextFile)
    ensures var d := DoLogGroup(s, false).disk;
            LogInv(d, Extended(s.m), s.m.flushed, s.m.switched, s.bg.logNumber) && s.bg.logNumber in d.logs &&
            LogNumbers(d.logs.Keys, s.bg.logNumber, s.bg.nextFile)
  {
    LogInvExtend(s.disk, s.m.history, s.m.group.value.ops, s.m.flushed, s.m.switched, s.bg.logNumber);
    assert DoLogGroup(s, false).disk.logs.Keys == s.disk.logs.Keys;
  }

  // What is said about tables does not depend on the logs.
  lemma OtherLogs(d: Disk, logs: map<nat, LogFile>, h: History, flushed: nat, floor: nat, live: set<nat>, bg: Background)
    requires VersionInv(d, h, flushed, floor) && CompactionInv(d, live, bg)
    ensures var d' := d.(logs := logs);
            d'.Tables() == d.Tables() && VersionInv(d', h, flushed, floor) && CompactionInv(d', live, bg)
  {
  }

  // The record of a group without operations may be lost.
  lemma EmptyGroupKeepsInv(s: State)
    requires UpInv(s) && s.m.group.Some? && !s.m.group.value.logged && s.m.group.value.ops == []
    ensures UpInv(DoLogGroup(s, true))
  {
    LogGroupMem(s.m, s.readers);
    assert s.m.history + [] == s.m.history;
    assert DoLogGroup(s, true).disk == s.disk by { assert DoLogGroup(s, true).disk.logs == s.disk.logs; }
  }

  // The entry inserted next is the next one of the history.
  lemma ApplyOneMemtable(s: State)
    requires MemInv(s.m) && s.m.group.Some? && s.m.group.value.logged && Applied(s.m) < |s.m.group.value.ops|
    ensures var m', x, n := DoApplyOne(s).m, Extended(s.m), |s.m.history| + Applied(s.m);
            m'.tables[s.m.mem] == EntriesOf(x, s.m.switched, n + 1) && s.m.tables[s.m.mem] <= m'.tables[s.m.mem] &&
            m'.tables[s.m.mem] <= s.m.tables[s.m.mem] + EntriesOf(x, |s.m.history|, |x|)
  {
    var x, n := Extended(s.m), |s.m.history| + Applied(s.m);
    var e := OpEntry(s.m.group.value.ops[Applied(s.m)], n + 1);
    assert e == EntryAt(x, n);
    EntriesSplit(x, s.m.switched, n, n + 1);
    assert EntriesOf(x, n, n + 1) == {e} by { assert EntriesOf(x, n, n) == {}; }
    EntriesSplit(x, |s.m.history|, n, |x|);
    EntriesSplit(x, n, n + 1, |x|);
  }

  lemma ApplyOneMem(s: State)
    requires MemInv(s.m) && ReadersMemOk(s.m, s.readers)
    requires s.m.group.Some? && s.m.group.value.logged && Applied(s.m) < |s.m.group.value.ops|
    ensures var m' := DoApplyOne(s).m;
            MemInv(m') && ReadersMemOk(m', s.readers) && Extended(m') == Extended(s.m) && Durable(m') == Durable(s.m)
  {
    ApplyOneMemtable(s);
    assert Extended(s.m) == Extended(s.m) + [];
    ReadersMemExtend(s.m, DoApplyOne(s).m, [], s.readers);
  }

  lemma ApplyOneKeepsInv(s: State)
    requires UpInv(s) && s.m.group.Some? && s.m.group.value.logged && Applied(s.m) < |s.m.group.value.ops|
    ensures UpInv(DoApplyOne(s))
  {
    ApplyOneMem(s);
  }

  lemma CommitGroupMem(s: State)
    requires MemInv(s.m) && ReadersMemOk(s.m, s.readers)
    requires s.m.group.Some? && s.m.group.value.logged && Applied(s.m) == |s.m.group.value.ops|
    ensures var m' := DoCommitGroup(s).m;
            MemInv(m') && ReadersMemOk(m', s.readers) && Extended(m') == Extended(s.m) && Durable(m') == Durable(s.m)
  {
    ReadersMemSame(s.m, DoCommitGroup(s).m, s.readers);
  }

  lemma CommitGroupKeepsInv(s: State)
    requires UpInv(s) && s.m.group.Some? && s.m.group.value.logged && Applied(s.m) == |s.m.group.value.ops|
    ensures UpInv(DoCommitGroup(s))
  {
    CommitGroupMem(s);
  }

  // ---------------------------------------------------------------- memtable switch and flush

  lemma SwitchMemtableMem(s: State)
    requires MemInv(s.m) && ReadersMemOk(s.m, s.readers) && s.m.group.None? && s.m.imm.None?
    ensures MemInv(DoSwitchMemtable(s).m) && ReadersMemOk(DoSwitchMemtable(s).m, s.readers)
  {
    var m' := DoSwitchMemtable(s).m;
    forall i | 0 <= i < |s.readers| ensures ReaderMemOk(m', s.readers[i]) {
      assert ReaderMemOk(s.m, s.readers[i]);
    }
  }

  lemma SwitchMemtableKeepsInv(s: State)
    requires UpInv(s) && s.m.group.None? && s.m.imm.None?
    ensures UpInv(DoSwitchMemtable(s))
  {
    SwitchMemtableMem(s);
    SwitchMemtableLogs(s.disk, s.m.history, s.m.flushed, s.m.switched, s.bg.logNumber, s.bg.nextFile);
  }

  lemma SwitchMemtableLogs(d: Disk, h: History, flushed: nat, switched: nat, logNumber: nat, n: nat)
    requires LogInv(d, h, flushed, switched, logNumber) && logNumber in d.logs && LogNumbers(d.logs.Keys, logNumber, n)
    ensures var d' := d.(logs := d.logs[n := LogFile([], false)]);
            LogInv(d', h, flushed, |h|, n) && LogNumbers(d'.logs.Keys, n, n + 1)
  {
    var logs := d.logs[n := LogFile([], false)];
    assert LogEntries(LogFile([], false)) == {};
    SwitchReplay(d, logNumber, n);
    EntriesSplit(h, flushed, switched, |h|);
    assert logs.Keys == d.logs.Keys + {n};
    FewerRecords(d.logs, logs, |h|);
  }

  lemma SwitchReplay(d: Disk, logNumber: nat, n: nat)
    requires logNumber in d.logs && d.manifestLog <= logNumber < n && forall i :: i in d.logs ==> i <= logNumber
    ensures Replay(d.logs[n := LogFile([], false)], d.manifestLog, n) ==
            Replay(d.logs, d.manifestLog, logNumber) + LogEntries(d.logs[logNumber])
  {
    var logs := d.logs[n := LogFile([], false)];
    assert forall m :: m in d.logs ==> m in logs && logs[m] == d.logs[m];
    forall e | e in Replay(d.logs, d.manifestLog, logNumber) + LogEntries(d.logs[logNumber])
      ensures e in Replay(logs, d.manifestLog, n)
    {
      if e in LogEntries(d.logs[logNumber]) { assert logs[logNumber] == d.logs[logNumber]; }
    }
  }

  lemma FlushBeginKeepsInv(s: State)
    requires UpInv(s) && s.m.imm.Some? && s.bg.flush.None?
    ensures UpInv(DoFlushBegin(s))
  {
  }

  // Writing a file that no version refers to.
  lemma OtherFileWritten(s: State, n: nat, content: set<Entry>)
    requires UpInv(s)
    requires n !in LiveFiles(s.disk.Tables(), s.readers, s.bg.compaction)
    ensures var files := s.disk.files[n := content];
            TableEntries(files, s.disk.Tables()) == TableEntries(s.disk.files, s.disk.Tables()) &&
            ReadersTablesOk(files, Extended(s.m), s.readers) &&
            CompactionInv(s.disk.(files := files), LiveFiles(s.disk.Tables(), s.readers, s.bg.compaction), s.bg)
  {
    LiveFilesKept(s, s.disk.files[n := content]);
  }

  lemma FlushBuildKeepsInv(s: State)
    requires UpInv(s) && s.bg.flush.Some? && s.bg.flush.value.Building?
    ensures UpInv(DoFlushBuild(s))
  {
    OtherFileWritten(s, s.bg.flush.value.number, s.m.tables[s.m.imm.value]);
  }

  lemma FlushUnpendKeepsInv(s: State)
    requires UpInv(s) && s.bg.flush.Some? && s.bg.flush.value.Built?
    ensures UpInv(DoFlushUnpend(s))
  {
  }

  // Adding a table with the next writes moves the frontier of what the tables stand for.
  lemma TablesOkFlush(t: set<Entry>, x: History, flushed: nat, switched: nat, floor: nat)
    requires TablesOk(t, x, flushed, floor) && flushed <= switched <= |x|
    ensures TablesOk(t + EntriesOf(x, flushed, switched), x, switched, floor)
  {
    EntriesSplit(x, 0, flushed, switched);
    EntriesSplit(x, flushed, switched, |x|);
    assert (t + EntriesOf(x, flushed, switched)) + EntriesOf(x, switched, |x|) == t + EntriesOf(x, flushed, |x|);
    forall k, s | s >= floor ensures Answers(t + EntriesOf(x, flushed, switched), x, switched, k, s) {
      assert Answers(t, x, flushed, k, s);
    }
  }

  // The tables after the flush, in terms of those before.
  lemma FlushInstallTables(s: State, level: nat, f: FileMeta)
    requires UpInv(s) && CanFlushInstall(s, level, f)
    ensures var t, n, imm := DoFlushInstall(s, level, f), s.bg.flush.value.number, s.m.tables[s.m.imm.value];
            t.disk.Tables() == s.disk.Tables() + (if imm == {} then {} else {n}) &&
            TableEntries(s.disk.files, if imm == {} then {} else {n}) == imm == EntriesOf(Extended(s.m), s.m.flushed, s.m.switched)
  {
    var n, imm := s.bg.flush.value.number, s.m.tables[s.m.imm.value];
    if imm == {} {
      assert s.disk.Tables() + {} == s.disk.Tables();
    } else {
      NumbersAdded(s.disk.levels, level, f);
      assert TableEntries(s.disk.files, {n}) == s.disk.files[n];
    }
  }

  lemma FlushInstallCompaction(s: State, level: nat, f: FileMeta)
    requires UpInv(s) && CanFlushInstall(s, level, f)
    ensures var t := DoFlushInstall(s, level, f);
            CompactionInv(t.disk, LiveFiles(t.disk.Tables(), t.readers, t.bg.compaction), t.bg)
  {
    FlushInstallTables(s, level, f);
    if s.bg.compaction.Some? && !s.bg.compaction.value.installed {
      var t, c := DoFlushInstall(s, level, f), s.bg.compaction.value;
      var added := t.disk.Tables() - s.disk.Tables();
      assert s.bg.flush.value.number !in s.disk.Tables() && s.bg.flush.value.number !in Numbers(c.levels);
      assert added == if s.m.tables[s.m.imm.value] == {} then {} else {s.bg.flush.value.number};
      assert t.disk.Tables() - Numbers(c.levels) == s.disk.Tables() - Numbers(c.levels) + added;
      TablesUnion(s.disk.files, s.disk.Tables() - Numbers(c.levels), added);
      FlushedIsLater(s.disk.files, s.disk.Tables(), c.inputs, c.merged, Extended(s.m), s.m.flushed, s.m.switched);
    }
  }

  // A table flushed during a compaction is newer than its inputs.
  lemma FlushedIsLater(files: Files, tables: set<nat>, inputs: set<nat>, merged: seq<Entry>, x: History, flushed: nat, switched: nat)
    requires flushed <= switched <= |x| && TableEntries(files, tables) <= EntriesOf(x, 0, flushed)
    requires inputs <= tables && Elements(merged) == TableEntries(files, inputs)
    ensures NewerThan(EntriesOf(x, flushed, switched), merged)
  {
    InEntries(x, 0, flushed);
    InEntries(x, flushed, switched);
    forall m | m in merged ensures m in EntriesOf(x, 0, flushed) { assert m in Elements(merged) && m in TableEntries(files, tables); }
  }

  lemma FlushInstallDisk(s: State, level: nat, f: FileMeta)
    requires UpInv(s) && CanFlushInstall(s, level, f)
    ensures var t := DoFlushInstall(s, level, f); VersionInv(t.disk, Extended(s.m), s.m.switched, s.floor)
  {
    FlushInstallTables(s, level, f);
    var n, imm := s.bg.flush.value.number, s.m.tables[s.m.imm.value];
    FlushedTablesOk(s.disk.files, s.disk.Tables(), if imm == {} then {} else {n}, imm, Extended(s.m), s.m.flushed, s.m.switched, s.floor);
  }

  lemma FlushedTablesOk(files: Files, tables: set<nat>, added: set<nat>, imm: set<Entry>, x: History, flushed: nat, switched: nat, floor: nat)
    requires TablesOk(TableEntries(files, tables), x, flushed, floor) && flushed <= switched <= |x|
    requires TableEntries(files, added) == imm == EntriesOf(x, flushed, switched)
    ensures TablesOk(TableEntries(files, tables + added), x, switched, floor)
  {
    TablesUnion(files, tables, added);
    TablesOkFlush(TableEntries(files, tables), x, flushed, switched, floor);
  }

  lemma FlushInstallLogs(d: Disk, d': Disk, h: History, flushed: nat, switched: nat, logNumber: nat)
    requires LogInv(d, h, flushed, switched, logNumber) && d'.logs == d.logs && d'.manifestLog == logNumber
    ensures LogInv(d', h, switched, switched, logNumber)
  {
    assert Replay(d.logs, logNumber, logNumber) == {};
    assert EntriesOf(h, switched, switched) == {};
  }

  lemma FlushInstallMem(s: State, level: nat, f: FileMeta)
    requires MemInv(s.m) && ReadersMemOk(s.m, s.readers) && CanFlushInstall(s, level, f)
    ensures var t := DoFlushInstall(s, level, f);
            Extended(t.m) == Extended(s.m) && Durable(t.m) == Durable(s.m) && MemInv(t.m) && ReadersMemOk(t.m, s.readers)
  {
    ReadersMemSame(s.m, DoFlushInstall(s, level, f).m, s.readers);
  }

  lemma FlushInstallLive(s: State, level: nat, f: FileMeta)
    requires UpInv(s) && CanFlushInstall(s, level, f)
    ensures var t := DoFlushInstall(s, level, f);
            var live := LiveFiles(t.disk.Tables(), t.readers, t.bg.compaction);
            Below(live, t.bg.nextFile) && live <= t.disk.files.Keys
  {
    FlushInstallTables(s, level, f);
    var n := s.bg.flush.value.number;
    assert LiveFiles(DoFlushInstall(s, level, f).disk.Tables(), s.readers, s.bg.compaction) <=
           LiveFiles(s.disk.Tables(), s.readers, s.bg.compaction) + {n};
  }

  lemma FlushInstallKeepsInv(s: State, level: nat, f: FileMeta)
    requires UpInv(s) && CanFlushInstall(s, level, f)
    ensures UpInv(DoFlushInstall(s, level, f))
  {
    FlushInstallDisk(s, level, f);
    FlushInstallLogs(s.disk, DoFlushInstall(s, level, f).disk, Durable(s.m), s.m.flushed, s.m.switched, s.bg.logNumber);
    FlushInstallMem(s, level, f);
    FlushInstallCompaction(s, level, f);
    FlushInstallLive(s, level, f);
  }

  // ---------------------------------------------------------------- compaction

  lemma ChosenTables(v: Version, level: nat, inputs: set<nat>, lo: UserKey, hi: UserKey)
    requires Chosen(v, level, inputs, lo, hi)
    ensures inputs <= Numbers(v)
  {
    forall n | n in inputs ensures n in Numbers(v) {
      if n in NumbersOf(v[level]) { assert v[level] in v; } else { assert v[level + 1] in v; }
    }
  }

  lemma CompactBeginKeepsInv(s: State, level: nat, inputs: set<nat>, lo: UserKey, hi: UserKey, merged: seq<Entry>)
    requires UpInv(s) && CanCompactBegin(s, level, inputs, lo, hi, merged)
    ensures UpInv(DoCompactBegin(s, level, inputs, lo, hi, merged))
  {
    var t := DoCompactBegin(s, level, inputs, lo, hi, merged);
    ChosenTables(s.disk.levels, level, inputs, lo, hi);
    assert LiveFiles(t.disk.Tables(), t.readers, t.bg.compaction) == LiveFiles(s.disk.Tables(), s.readers, s.bg.compaction);
  }

  lemma CompactOpenKeepsInv(s: State)
    requires UpInv(s) && Compacting(s)
    ensures UpInv(DoCompactOpen(s))
  {
    var t := DoCompactOpen(s);
    assert LiveFiles(t.disk.Tables(), t.readers, t.bg.compaction) == LiveFiles(s.disk.Tables(), s.readers, s.bg.compaction);
  }

  lemma CompactFinishKeepsInv(s: State, number: nat, content: set<Entry>)
    requires UpInv(s) && Compacting(s) && number in s.bg.compaction.value.outputs
    ensures UpInv(DoCompactFinish(s, number, content))
  {
    OtherFileWritten(s, number, content);
  }

  // What a compaction leaves answers every view from the smallest snapshot on.
  lemma TablesOkCompact(merged: seq<Entry>, others: set<Entry>, x: History, flushed: nat, floor: nat, smallest: nat, base: set<UserKey>)
    requires TablesOk(Elements(merged) + others, x, flushed, floor) && floor <= smallest
    requires Compaction.KeepsViews(merged, others + EntriesOf(x, flushed, |x|), smallest, base)
    ensures TablesOk(Elements(Compaction.Kept(merged, |merged|, smallest, base)) + others, x, flushed, smallest)
  {
    var kept, unflushed := Compaction.Kept(merged, |merged|, smallest, base), EntriesOf(x, flushed, |x|);
    Compaction.KeptElements(merged, |merged|, smallest, base);
    assert Elements(kept) + others + unflushed == Elements(kept) + (others + unflushed);
    assert Elements(merged) + others + unflushed == Elements(merged) + (others + unflushed);
    forall k, s: nat | s >= smallest ensures Answers(Elements(kept) + others, x, flushed, k, s) {
      assert Answers(Elements(merged) + others, x, flushed, k, s);
    }
  }

  lemma ReplaceTables(files: Files, tables: set<nat>, inputs: set<nat>, outputs: set<nat>)
    requires inputs <= tables
    ensures TableEntries(files, tables) == TableEntries(files, inputs) + TableEntries(files, tables - inputs)
    ensures TableEntries(files, tables - inputs + outputs) == TableEntries(files, outputs) + TableEntries(files, tables - inputs)
  {
    TablesUnion(files, inputs, tables - inputs);
    assert inputs + (tables - inputs) == tables;
    TablesUnion(files, outputs, tables - inputs);
    assert tables - inputs + outputs == outputs + (tables - inputs);
  }

  // The tables after the results of a compaction are installed are right exactly if it keeps the views.
  lemma TablesOkCompactIff(merged: seq<Entry>, others: set<Entry>, x: History, flushed: nat, floor: nat, smallest: nat, base: set<UserKey>)
    requires TablesOk(Elements(merged) + others, x, flushed, floor) && floor <= smallest
    ensures Compaction.KeepsViews(merged, others + EntriesOf(x, flushed, |x|), smallest, base) <==>
            TablesOk(Elements(Compaction.Kept(merged, |merged|, smallest, base)) + others, x, flushed, smallest)
  {
    var kept, unflushed := Compaction.Kept(merged, |merged|, smallest, base), EntriesOf(x, flushed, |x|);
    if Compaction.KeepsViews(merged, others + unflushed, smallest, base) {
      TablesOkCompact(merged, others, x, flushed, floor, smallest, base);
    }
    if TablesOk(Elements(kept) + others, x, flushed, smallest) {
      assert Elements(kept) + others + unflushed == Elements(kept) + (others + unflushed);
      assert Elements(merged) + others + unflushed == Elements(merged) + (others + unflushed);
      forall k, s: nat | s >= smallest
        ensures View(Elements(kept) + (others + unflushed), k, s) == View(Elements(merged) + (others + unflushed), k, s)
      {
        assert Answers(Elements(merged) + others, x, flushed, k, s) && Answers(Elements(kept) + others, x, flushed, k, s);
      }
    }
  }

  // The compaction in progress keeps the views of the database from its smallest snapshot on.
  ghost predicate KeepsDatabase(s: State)
    requires s.bg.compaction.Some? && s.m.flushed <= |Extended(s.m)|
  {
    var c := s.bg.compaction.value;
    Compaction.KeepsViews(c.merged, Outside(s.disk.files, s.disk.levels, c.inputs, Unflushed(s.m)), c.smallestSnapshot, c.base)
  }

  lemma CompactInstallTables(s: State)
    requires UpInv(s) && Compacting(s)
    requires var c := s.bg.compaction.value;
             TableEntries(s.disk.files, c.outputs) == Elements(Compaction.Kept(c.merged, |c.merged|, c.smallestSnapshot, c.base))
    ensures var c := s.bg.compaction.value;
            KeepsDatabase(s) <==>
            TablesOk(TableEntries(s.disk.files, s.disk.Tables() - c.inputs + c.outputs), Extended(s.m), s.m.flushed, c.smallestSnapshot)
  {
    var c := s.bg.compaction.value;
    ReplaceTables(s.disk.files, s.disk.Tables(), c.inputs, c.outputs);
    TablesOkCompactIff(c.merged, TableEntries(s.disk.files, s.disk.Tables() - c.inputs), Extended(s.m), s.m.flushed,
                       s.floor, c.smallestSnapshot, c.base);
  }

  // Installing the results keeps the invariant exactly if it keeps those views.
  lemma CompactInstallKeepsInv(s: State, outs: Level)
    requires UpInv(s) && CanCompactInstall(s, outs)
    requires DoCompactInstall(s, outs).disk.Tables() == s.disk.Tables() - s.bg.compaction.value.inputs + s.bg.compaction.value.outputs
    ensures UpInv(DoCompactInstall(s, outs)) <==> KeepsDatabase(s)
  {
    var t, c := DoCompactInstall(s, outs), s.bg.compaction.value;
    CompactInstallTables(s);
    CompactInstallLive(s, outs);
    assert VersionInv(t.disk, Extended(s.m), s.m.flushed, c.smallestSnapshot) <==> KeepsDatabase(s);
  }

  lemma CompactInstallLive(s: State, outs: Level)
    requires UpInv(s) && CanCompactInstall(s, outs)
    requires DoCompactInstall(s, outs).disk.Tables() == s.disk.Tables() - s.bg.compaction.value.inputs + s.bg.compaction.value.outputs
    ensures var t := DoCompactInstall(s, outs);
            var live := LiveFiles(t.disk.Tables(), t.readers, t.bg.compaction);
            t.disk.Tables() <= live <= t.disk.files.Keys && Below(live, t.bg.nextFile) && CompactionInv(t.disk, live, t.bg)
  {
    assert LiveFiles(DoCompactInstall(s, outs).disk.Tables(), s.readers, DoCompactInstall(s, outs).bg.compaction) <=
           LiveFiles(s.disk.Tables(), s.readers, s.bg.compaction) + s.bg.compaction.value.outputs;
  }

  // A move changes no table and no set of tables.
  lemma TrivialMoveKeepsInv(s: State, level: nat, f: FileMeta)
    requires UpInv(s) && CanTrivialMove(s, level, f) && DoTrivialMove(s, level, f).disk.Tables() == s.disk.Tables()
    ensures UpInv(DoTrivialMove(s, level, f))
  {
  }

  lemma CompactEndKeepsInv(s: State, failed: bool)
    requires UpInv(s) && s.bg.compaction.Some? && s.bg.flush.None?
    ensures UpInv(DoCompactEnd(s, failed))
  {
  }

  // ---------------------------------------------------------------- garbage collection

  // Fewer files, but all that are live.
  lemma LiveFilesKept(s: State, files: Files)
    requires UpInv(s)
    requires var live := LiveFiles(s.disk.Tables(), s.readers, s.bg.compaction);
             live <= files.Keys && forall n :: n in live ==> files[n] == s.disk.files[n]
    ensures TableEntries(files, s.disk.Tables()) == TableEntries(s.disk.files, s.disk.Tables()) &&
            ReadersTablesOk(files, Extended(s.m), s.readers) &&
            CompactionInv(s.disk.(files := files), LiveFiles(s.disk.Tables(), s.readers, s.bg.compaction), s.bg)
  {
    var live := LiveFiles(s.disk.Tables(), s.readers, s.bg.compaction);
    SameTables(s.disk.files, files, s.disk.Tables());
    forall i | 0 <= i < |s.readers| ensures ReaderTablesOk(files, Extended(s.m), s.readers[i]) {
      assert s.readers[i].Tables() <= live;
      SameTables(s.disk.files, files, s.readers[i].Tables());
    }
    if s.bg.compaction.Some? && !s.bg.compaction.value.installed {
      SameTables(s.disk.files, files, s.bg.compaction.value.inputs);
      SameTables(s.disk.files, files, s.disk.Tables() - s.bg.compaction.value.inputs);
    }
  }

  lemma NeededLogsKept(d: Disk, h: History, flushed: nat, switched: nat, logNumber: nat, logs: map<nat, LogFile>)
    requires LogInv(d, h, flushed, switched, logNumber)
    requires logs == map n | n in d.logs && n >= d.manifestLog :: d.logs[n]
    ensures LogInv(d.(logs := logs), h, flushed, switched, logNumber)
  {
    SameReplay(d.logs, logs, d.manifestLog, logNumber);
    FewerRecords(d.logs, logs, |h|);
  }

  lemma DeleteObsoleteFilesKeepsInv(s: State)
    requires UpInv(s) && s.bg.flush.None?
    ensures UpInv(DoDeleteObsoleteFiles(s))
  {
    var t := DoDeleteObsoleteFiles(s);
    LiveFilesKept(s, t.disk.files);
    NeededLogsKept(s.disk, Durable(s.m), s.m.flushed, s.m.switched, s.bg.logNumber, t.disk.logs);
  }

  // ---------------------------------------------------------------- snapshots and readers

  lemma TakeSnapshotKeepsInv(s: State)
    requires UpInv(s)
    ensures UpInv(DoTakeSnapshot(s))
  {
  }

  lemma ReleaseSnapshotKeepsInv(s: State, i: nat)
    requires UpInv(s) && i < |s.snapshots|
    ensures UpInv(DoReleaseSnapshot(s, i))
  {
  }

  lemma ReaderFilesSnoc(readers: seq<Reader>, r: Reader)
    ensures ReaderFiles(readers + [r]) == ReaderFiles(readers) + r.Tables()
  {
    assert forall q :: q in readers + [r] <==> q in readers || q == r;
  }

  lemma ReaderFilesRemove(readers: seq<Reader>, k: nat)
    requires k < |readers|
    ensures ReaderFiles(readers[..k] + readers[k + 1..]) <= ReaderFiles(readers)
  {
    assert forall q :: q in readers[..k] + readers[k + 1..] ==> q in readers;
  }

  // A reader takes the tables, imm and mem of the moment, which together hold its snapshot.
  lemma NewReaderOk(s: State, snapshot: nat)
    requires MemInv(s.m) && TablesOk(TableEntries(s.disk.files, s.disk.Tables()), Extended(s.m), s.m.flushed, s.floor)
    requires s.floor <= snapshot <= |s.m.history|
    ensures ReaderMemOk(s.m, NewReader(s, snapshot)) && ReaderTablesOk(s.disk.files, Extended(s.m), NewReader(s, snapshot))
  {
    var x, n := Extended(s.m), |s.m.history| + Applied(s.m);
    assert s.m.tables[s.m.mem] <= EntriesOf(x, s.m.switched, |x|) by {
      EntriesSplit(x, s.m.switched, n, |x|);
    }
    if s.m.switched <= snapshot {
      assert EntriesOf(x, s.m.switched, snapshot) <= s.m.tables[s.m.mem] by {
        EntriesSplit(x, s.m.switched, snapshot, n);
      }
    }
  }

  lemma BeginReadKeepsInv(s: State, snapshot: nat)
    requires UpInv(s) && s.floor <= snapshot <= |s.m.history|
    ensures UpInv(DoBeginRead(s, snapshot))
  {
    var t := DoBeginRead(s, snapshot);
    NewReaderOk(s, snapshot);
    ReaderFilesSnoc(s.readers, NewReader(s, snapshot));
    assert LiveFiles(t.disk.Tables(), t.readers, t.bg.compaction) == LiveFiles(s.disk.Tables(), s.readers, s.bg.compaction);
  }

  lemma OtherReadersOk(m: Memory, files: Files, x: History, readers: seq<Reader>, k: nat)
    requires k < |readers| && ReadersMemOk(m, readers) && ReadersTablesOk(files, x, readers)
    ensures var rest := readers[..k] + readers[k + 1..]; ReadersMemOk(m, rest) && ReadersTablesOk(files, x, rest)
  {
    var rest := readers[..k] + readers[k + 1..];
    forall i | 0 <= i < |rest| ensures ReaderMemOk(m, rest[i]) && ReaderTablesOk(files, x, rest[i]) {
      assert rest[i] == if i < k then readers[i] else readers[i + 1];
    }
  }

  lemma EndReadKeepsInv(s: State, i: nat)
    requires UpInv(s) && i < |s.readers|
    ensures UpInv(DoEndRead(s, i))
  {
    var t := DoEndRead(s, i);
    ReaderFilesRemove(s.readers, i);
    OtherReadersOk(s.m, s.disk.files, Extended(s.m), s.readers, i);
    assert LiveFiles(t.disk.Tables(), t.readers, t.bg.compaction) <= LiveFiles(s.disk.Tables(), s.readers, s.bg.compaction);
  }

  // ---------------------------------------------------------------- crash and recovery

  lemma CrashKeepsInv(s: State, torn: bool)
    requires UpInv(s) && (torn ==> s.m.group.Some? && !s.m.group.value.logged)
    ensures var t := DoCrash(s, torn); DownInv(t.disk, t.history, t.flushed, t.switched, t.logNumber, t.floor)
  {
    var t := DoCrash(s, torn);
    SameReplay(s.disk.logs, t.disk.logs, s.disk.manifestLog, s.bg.logNumber);
    FewerRecords(s.disk.logs, t.disk.logs, |Durable(s.m)|);
    if s.m.group.Some? && !s.m.group.value.logged {
      TablesOkRestrict(TableEntries(s.disk.files, s.disk.Tables()), s.m.history, s.m.group.value.ops, s.m.flushed, s.floor);
    }
  }

  // A recovery that dies leaves unreferenced tables and perhaps an empty log behind, nothing else.
  lemma FailedRecoveryKeepsInv(sys: System, step: Step)
    requires sys.Down? && DownInv(sys.disk, sys.history, sys.flushed, sys.switched, sys.logNumber, sys.floor)
    requires step.FailedRecovery? && Enabled(sys, step)
    ensures var t := Next(sys, step); DownInv(t.disk, t.history, t.flushed, t.switched, t.logNumber, t.floor)
    ensures var d, e := sys.disk, Next(sys, step).disk;
            e == d.(files := e.files, logs := e.logs) && Next(sys, step).history == sys.history &&
            (forall n :: n in e.files <==> n in d.files || n in step.orphans) &&
            (forall n :: n in e.files ==> e.files[n] == if n in step.orphans then step.orphans[n] else d.files[n]) &&
            (forall n :: n in e.logs <==> n in d.logs || Some(n) == step.newLog) &&
            forall n :: n in e.logs ==> e.logs[n] == if Some(n) == step.newLog then LogFile([], false) else d.logs[n]
  {
    var t := Next(sys, step);
    SameTables(sys.disk.files, t.disk.files, sys.disk.Tables());
    assert LogEntries(LogFile([], false)) == {};
    SameReplay(sys.disk.logs, t.disk.logs, sys.disk.manifestLog, sys.logNumber);
    FewerRecords(sys.disk.logs, t.disk.logs, |sys.history|);
  }

  // Replaying every log from LogNumber on gives exactly the writes the tables lack.
  lemma ReplayAll(d: Disk, h: History, flushed: nat, switched: nat, logNumber: nat, hi: nat)
    requires LogInv(d, h, flushed, switched, logNumber) && logNumber < hi
    ensures Replay(d.logs, d.manifestLog, hi) == EntriesOf(h, flushed, |h|)
  {
    EntriesSplit(h, flushed, switched, |h|);
    forall e | e in EntriesOf(h, flushed, |h|) ensures e in Replay(d.logs, d.manifestLog, hi) {
      if e in LogEntries(LogOf(d.logs, logNumber)) { assert d.manifestLog <= logNumber < hi; }
    }
    forall e | e in Replay(d.logs, d.manifestLog, hi) ensures e in EntriesOf(h, flushed, |h|) {
      var n :| n in d.logs && d.manifestLog <= n < hi && e in LogEntries(d.logs[n]);
      assert n < logNumber ==> e in Replay(d.logs, d.manifestLog, logNumber);
    }
  }

  lemma OpenSequence(d: Disk, h: History, flushed: nat, switched: nat, logNumber: nat, m: nat)
    requires LogInv(d, h, flushed, switched, logNumber) && flushed <= d.manifestSequence <= |h| && RecoveredTo(d, m)
    ensures m == |h|
  {
    if m != d.manifestSequence {
      var n, r :| InLogs(d.logs, d.manifestLog, n, r) && RecordLast(r) == m;
      assert InLogs(d.logs, 0, n, r);
    }
    if flushed < |h| {
      ReplayAll(d, h, flushed, switched, logNumber, logNumber + 1);
      InEntries(h, flushed, |h|);
      var e := EntryAt(h, |h| - 1);
      assert e in EntriesOf(h, flushed, |h|);
      var n :| n in d.logs && d.manifestLog <= n < logNumber + 1 && e in LogEntries(d.logs[n]);
      var r :| r in d.logs[n].records && e in RecordEntries(r);
      assert InLogs(d.logs, d.manifestLog, n, r);
    }
  }

  lemma NoEntriesNoWrites(h: History, lo: nat, hi: nat)
    requires lo <= hi <= |h| && EntriesOf(h, lo, hi) == {}
    ensures lo == hi
  {
  }

  // The writes that recovery leaves in the memtable start here.
  function OpenStart(h: History, switched: nat, logNumber: nat, r: Recovery): nat {
    if r.reuse && r.last == logNumber then switched else |h|
  }

  // Which writes come from tables after recovery, and which stay in the memtable.
  lemma OpenSplit(d: Disk, h: History, flushed: nat, switched: nat, logNumber: nat, r: Recovery)
    requires LogInv(d, h, flushed, switched, logNumber) && KnownLog(d, logNumber) && OpenEnabled(d, r)
    ensures var start := OpenStart(h, switched, logNumber, r);
            TableEntries(r.tables, r.tables.Keys) == EntriesOf(h, flushed, start) &&
            (r.reuse ==> LogEntries(LogOf(d.logs, r.last)) == EntriesOf(h, start, |h|)) &&
            (r.tables == map[] ==> start == flushed)
  {
    assert logNumber <= r.last;
    if !r.reuse {
      ReplayAll(d, h, flushed, switched, logNumber, r.last + 1);
    } else if logNumber < r.last {
      ReplayAll(d, h, flushed, switched, logNumber, r.last);
      assert EntriesOf(h, |h|, |h|) == {};
    }
    if r.tables == map[] {
      assert TableEntries(r.tables, r.tables.Keys) == {};
      NoEntriesNoWrites(h, flushed, OpenStart(h, switched, logNumber, r));
    }
  }

  lemma OpenTables(d: Disk, h: History, flushed: nat, start: nat, floor: nat, r: Recovery)
    requires VersionInv(d, h, flushed, floor) && flushed <= start <= |h| && r.tables.Keys !! d.Tables()
    requires TableEntries(r.tables, r.tables.Keys) == EntriesOf(h, flushed, start)
    ensures TablesOk(TableEntries(d.files + r.tables, d.Tables() + r.tables.Keys), h, start, floor)
  {
    var files := d.files + r.tables;
    TablesUnion(files, d.Tables(), r.tables.Keys);
    SameTables(d.files, files, d.Tables());
    SameTables(r.tables, files, r.tables.Keys);
    TablesOkFlush(TableEntries(d.files, d.Tables()), h, flushed, start, floor);
  }

  // Without a new manifest nothing was written, and the logs before the one in use have nothing to add.
  lemma OpenOldLogs(d: Disk, r: Recovery)
    requires OpenEnabled(d, r) && !r.save
    ensures var logs := if r.reuse then d.logs else d.logs[r.next := LogFile([], false)];
            Replay(logs, d.manifestLog, if r.reuse then r.last else r.next) == {}
  {
    assert TableEntries(r.tables, r.tables.Keys) == {};
    if !r.reuse {
      SameReplay(d.logs[r.next := LogFile([], false)], d.logs, d.manifestLog, r.next);
      assert Replay(d.logs, d.manifestLog, r.next) == Replay(d.logs, d.manifestLog, r.last + 1);
    }
  }

  lemma OpenLogs(d: Disk, h: History, flushed: nat, switched: nat, logNumber: nat, floor: nat, r: Recovery)
    requires LogInv(d, h, flushed, switched, logNumber) && KnownLog(d, logNumber) && OpenEnabled(d, r)
    ensures var s := OpenState(d, h, flushed, switched, logNumber, floor, r);
            LogInv(s.disk, h, s.m.switched, s.m.switched, s.bg.logNumber) &&
            s.bg.logNumber in s.disk.logs &&
            LogNumbers(s.disk.logs.Keys, s.bg.logNumber, s.bg.nextFile)
  {
    var s := OpenState(d, h, flushed, switched, logNumber, floor, r);
    OpenSplit(d, h, flushed, switched, logNumber, r);
    assert EntriesOf(h, s.m.switched, s.m.switched) == {};
    OpenLogFiles(d, r, |h|);
    if r.save {
      assert Replay(s.disk.logs, s.bg.logNumber, s.bg.logNumber) == {};
    } else {
      OpenOldLogs(d, r);
    }
  }

  // The log in use is the last one, reused or new and empty.
  lemma OpenLogFiles(d: Disk, r: Recovery, last: nat)
    requires OpenEnabled(d, r) && RecordsWithin(d.logs, last)
    ensures var logs := if r.reuse then d.logs else d.logs[r.next := LogFile([], false)];
            RecordsWithin(logs, last) && LogNumbers(logs.Keys, if r.reuse then r.last else r.next, if r.reuse then r.next else r.next + 1) &&
            (!r.reuse ==> LogEntries(LogOf(logs, r.next)) == {})
  {
    assert LogEntries(LogFile([], false)) == {};
    FewerRecords(d.logs, if r.reuse then d.logs else d.logs[r.next := LogFile([], false)], last);
  }

  lemma OpenMem(d: Disk, h: History, flushed: nat, switched: nat, logNumber: nat, floor: nat, r: Recovery)
    requires switched <= |h| && r.lastSequence == |h|
    requires d.levels != [] && (r.reuse ==> LogEntries(LogOf(d.logs, r.last)) == EntriesOf(h, OpenStart(h, switched, logNumber, r), |h|))
    ensures MemInv(OpenState(d, h, flushed, switched, logNumber, floor, r).m)
  {
    assert EntriesOf(h, |h|, |h|) == {};
  }

  lemma OpenNumbers(d: Disk, h: History, flushed: nat, switched: nat, logNumber: nat, floor: nat, r: Recovery)
    requires OpenEnabled(d, r) && VersionInv(d, h, flushed, floor)
    ensures var s := OpenState(d, h, flushed, switched, logNumber, floor, r);
            s.disk.Tables() == d.Tables() + r.tables.Keys && s.disk.Tables() <= s.disk.files.Keys &&
            forall n :: n in s.disk.Tables() ==> n < s.bg.nextFile && (r.save || n < d.manifestNext)
  {
    NumbersRecovered(d.levels, r.metas);
    if r.tables == map[] { assert d.Tables() + r.tables.Keys == d.Tables(); }
  }

  lemma OpenVersion(d: Disk, h: History, flushed: nat, switched: nat, logNumber: nat, floor: nat, r: Recovery)
    requires LogInv(d, h, flushed, switched, logNumber) && KnownLog(d, logNumber) && VersionInv(d, h, flushed, floor) && OpenEnabled(d, r)
    ensures var s := OpenState(d, h, flushed, switched, logNumber, floor, r);
            VersionInv(s.disk, h, s.m.flushed, floor) && Below(s.disk.Tables(), s.bg.nextFile) && s.disk.Tables() <= s.disk.files.Keys
  {
    var s := OpenState(d, h, flushed, switched, logNumber, floor, r);
    OpenSplit(d, h, flushed, switched, logNumber, r);
    OpenTables(d, h, flushed, s.m.switched, floor, r);
    OpenNumbers(d, h, flushed, switched, logNumber, floor, r);
  }

  lemma OpenKeepsInv(d: Disk, h: History, flushed: nat, switched: nat, logNumber: nat, floor: nat, r: Recovery)
    requires DownInv(d, h, flushed, switched, logNumber, floor) && OpenEnabled(d, r)
    ensures UpInv(OpenState(d, h, flushed, switched, logNumber, floor, r))
  {
    var s := OpenState(d, h, flushed, switched, logNumber, floor, r);
    OpenSequence(d, h, flushed, switched, logNumber, r.lastSequence);
    OpenSplit(d, h, flushed, switched, logNumber, r);
    OpenMem(d, h, flushed, switched, logNumber, floor, r);
    OpenVersion(d, h, flushed, switched, logNumber, floor, r);
    OpenLogs(d, h, flushed, switched, logNumber, floor, r);
    NoReaders(s.disk.Tables());
  }

  lemma NoReaders(tables: set<nat>)
    ensures LiveFiles(tables, [], None) == tables
  {
  }
}
