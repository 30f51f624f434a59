/**
 The levels of the current version and of every version still in use are right, and stay right in
 every clean step; each condition of a clean step is exact.
 */
module EngineLevels {
  import opened InternalKeys
  import opened Options
  import opened History
  import opened Levels
  import opened LevelEdits
  import opened LevelReads
  import opened Engine
  import opened EngineProof
  import Compaction

  ghost predicate HasRecord(logs: map<nat, LogFile>, n: nat, i: int) {
    n in logs && 0 <= i < |logs[n].records|
  }

  // Records follow each other, within a log and from one log to the next.
  ghost predicate RecordsInOrder(logs: map<nat, LogFile>) {
    forall n, i, m, j :: HasRecord(logs, n, i) && HasRecord(logs, m, j) && (n < m || (n == m && i < j)) ==>
      RecordLast(logs[n].records[i]) < logs[m].records[j].first
  }

  ghost predicate DiskLevelsOk(d: Disk) {
    LevelsOk(d.files, d.levels) && Unique(d.levels) && RecordsInOrder(d.logs)
  }

  // The version that a compaction started from, and what was flushed into the current one since.
  ghost predicate InputVersionOk(files: Files, v: Version, c: CompactionState) {
    LevelsOk(files, c.levels) && Unique(c.levels) && Chosen(c.levels, c.level, c.inputs, c.lo, c.hi) && Grown(c.levels, v)
  }

  // Every file of the older version is in the newer one, and the others have higher numbers and a place
  // of their own.
  ghost predicate Grown(v: Version, w: Version) {
    |v| == |w| && (forall l, f :: 0 <= l < |v| && f in v[l] ==> f in w[l]) &&
    (forall l, f :: 0 <= l < |v| && f in w[l] ==> f in v[l] || After(f, v)) &&
    forall l, f :: 0 <= l < |v| && f in w[l] ==> f in v[l] || InPlace(v, l, f)
  }

  ghost predicate InPlace(v: Version, level: nat, f: FileMeta) {
    level == 0 || forall l, g :: 0 <= l <= level && l < |v| && g in v[l] ==> !Overlaps(g, f.smallest.key, f.largest.key)
  }

  ghost predicate After(f: FileMeta, v: Version) {
    forall n :: n in Numbers(v) ==> n < f.number
  }

  ghost predicate FlushIsNewest(levels: Version, flush: Option<Flush>, compaction: Option<CompactionState>) {
    flush.Some? ==>
      (levels != [] ==> forall f :: f in levels[0] ==> f.number < flush.value.number) &&
      (compaction.Some? ==> forall n :: n in Numbers(compaction.value.levels) ==> n < flush.value.number)
  }

  ghost predicate ReadersLevelsOk(files: Files, readers: seq<Reader>) {
    forall i :: 0 <= i < |readers| ==> LevelsOk(files, readers[i].levels)
  }

  ghost predicate CompactionLevelsOk(d: Disk, compaction: Option<CompactionState>) {
    compaction.Some? && !compaction.value.installed ==> InputVersionOk(d.files, d.levels, compaction.value)
  }

  ghost predicate LevelInv(s: State) {
    DiskLevelsOk(s.disk) && ReadersLevelsOk(s.disk.files, s.readers) && FlushIsNewest(s.disk.levels, s.bg.flush, s.bg.compaction) &&
    CompactionLevelsOk(s.disk, s.bg.compaction)
  }

  // ---------------------------------------------------------------- frames

  lemma SameContents(a: Files, b: Files, v: Version)
    requires LevelsOk(a, v) && Numbers(v) <= a.Keys && Numbers(v) <= b.Keys && forall n :: n in Numbers(v) ==> a[n] == b[n]
    ensures LevelsOk(b, v)
  {
    Unfold(a, v);
    forall l, f | 0 <= l < |v| && f in v[l] ensures Content(a, f) == Content(b, f) && (FileOk(a, f) ==> FileOk(b, f)) {
      assert v[l] in v && f.number in Numbers(v);
    }
    forall l | 0 < l < |v| ensures LevelOk(b, v[l]) { assert LevelOk(a, v[l]); }
    forall l, m, f, g | 0 <= l < m < |v| && f in v[l] && g in v[m] ensures Newer(b, f, g) { assert Newer(a, f, g); }
    forall f, g | f in v[0] && g in v[0] && f.number > g.number ensures Newer(b, f, g) { assert Newer(a, f, g); }
    Fold(b, v);
  }

  // Files that no version in use refers to may come, change and go.
  lemma OtherFiles(s: State, files: Files)
    requires LevelInv(s) && LiveFiles(s.disk.Tables(), s.readers, s.bg.compaction) <= s.disk.files.Keys
    requires var live := LiveFiles(s.disk.Tables(), s.readers, s.bg.compaction);
             live <= files.Keys && forall n :: n in live ==> files[n] == s.disk.files[n]
    ensures LevelsOk(files, s.disk.levels) && ReadersLevelsOk(files, s.readers) && CompactionLevelsOk(s.disk.(files := files), s.bg.compaction)
  {
    var live := LiveFiles(s.disk.Tables(), s.readers, s.bg.compaction);
    SameContents(s.disk.files, files, s.disk.levels);
    forall i | 0 <= i < |s.readers| ensures LevelsOk(files, s.readers[i].levels) {
      assert s.readers[i] in s.readers && s.readers[i].Tables() <= live;
      SameContents(s.disk.files, files, s.readers[i].levels);
    }
    if s.bg.compaction.Some? && !s.bg.compaction.value.installed {
      assert Numbers(s.bg.compaction.value.levels) <= live;
      SameContents(s.disk.files, files, s.bg.compaction.value.levels);
    }
  }

  lemma FewerRecordsInOrder(a: map<nat, LogFile>, b: map<nat, LogFile>)
    requires RecordsInOrder(a) && forall n :: n in b ==> b[n].records == [] || (n in a && b[n].records == a[n].records)
    ensures RecordsInOrder(b)
  {
    assert forall n, i :: HasRecord(b, n, i) ==> HasRecord(a, n, i);
  }

  // ---------------------------------------------------------------- write steps

  lemma LogGroupRecords(d: Disk, h: History, ops: seq<WriteOp>, logNumber: nat, next: nat)
    requires RecordsInOrder(d.logs) && RecordsWithin(d.logs, |h|) && logNumber in d.logs && LogNumbers(d.logs.Keys, logNumber, next)
    ensures RecordsInOrder(d.logs[logNumber := Append(d.logs[logNumber], Record(|h| + 1, ops), false)])
  {
    var r := Record(|h| + 1, ops);
    var logs := d.logs[logNumber := Append(d.logs[logNumber], r, false)];
    forall n: nat, i, m: nat, j | HasRecord(logs, n, i) && HasRecord(logs, m, j) && (n < m || (n == m && i < j))
      ensures RecordLast(logs[n].records[i]) < logs[m].records[j].first
    {
      assert m <= logNumber && n <= logNumber;
      assert HasRecord(d.logs, n, i) && logs[n].records[i] == d.logs[n].records[i];
      assert InLogs(d.logs, 0, n, d.logs[n].records[i]);
      if !HasRecord(d.logs, m, j) { assert logs[m].records[j] == r; }
    }
  }

  lemma LogGroupKeepsLevels(s: State, lost: bool)
    requires LevelInv(s) && WriteEnabled(s, LogGroup(lost)) && s.m.lastSequence == |s.m.history|
    requires RecordsWithin(s.disk.logs, |s.m.history|) && LogNumbers(s.disk.logs.Keys, s.bg.logNumber, s.bg.nextFile)
    ensures LevelInv(DoLogGroup(s, lost))
  {
    if lost {
      assert DoLogGroup(s, lost).disk.logs == s.disk.logs;
    } else {
      LogGroupRecords(s.disk, s.m.history, s.m.group.value.ops, s.bg.logNumber, s.bg.nextFile);
    }
  }

  lemma WriteKeepsLevels(s: State, w: WriteStep)
    requires UpInv(s) && LevelInv(s) && WriteEnabled(s, w)
    ensures LevelInv(ApplyWrite(s, w))
  {
    match w
    case LogGroup(lost) => LogGroupKeepsLevels(s, lost);
    case SwitchMemtable => FewerRecordsInOrder(s.disk.logs, DoSwitchMemtable(s).disk.logs);
    case _ =>
  }

  // ---------------------------------------------------------------- flush steps

  lemma FlushBeginKeepsLevels(s: State)
    requires UpInv(s) && LevelInv(s) && s.m.imm.Some? && s.bg.flush.None?
    ensures LevelInv(DoFlushBegin(s))
  {
    Unfold(s.disk.files, s.disk.levels);
    forall f | f in s.disk.levels[0] ensures f.number < s.bg.nextFile {
      assert s.disk.levels[0] in s.disk.levels && f.number in s.disk.Tables();
    }
  }

  lemma FlushBuildKeepsLevels(s: State)
    requires UpInv(s) && LevelInv(s) && s.bg.flush.Some? && s.bg.flush.value.Building?
    ensures LevelInv(DoFlushBuild(s))
  {
    OtherFileKeepsLevels(s, s.bg.flush.value.number, s.m.tables[s.m.imm.value]);
  }

  // What is flushed is newer than every table.
  lemma FlushedIsNewer(s: State, level: nat, f: FileMeta)
    requires UpInv(s) && CanFlushInstall(s, level, f) && s.m.tables[s.m.imm.value] != {}
    ensures forall l, g :: 0 <= l < |s.disk.levels| && g in s.disk.levels[l] ==> Newer(s.disk.files, f, g)
  {
    var x := Extended(s.m);
    InEntries(x, 0, s.m.flushed);
    InEntries(x, s.m.flushed, s.m.switched);
    assert Content(s.disk.files, f) == EntriesOf(x, s.m.flushed, s.m.switched);
    forall l, g | 0 <= l < |s.disk.levels| && g in s.disk.levels[l] ensures Newer(s.disk.files, f, g) {
      assert s.disk.levels[l] in s.disk.levels && g.number in s.disk.Tables();
      assert Content(s.disk.files, g) <= TableEntries(s.disk.files, s.disk.Tables());
    }
  }

  lemma UniqueAdded(v: Version, level: nat, f: FileMeta)
    requires Unique(v) && level < |v| && f.number !in Numbers(v)
    ensures Unique(Added(v, level, f))
  {
    InsertElements(v[level], f);
    var w := Added(v, level, f);
    forall l, g | 0 <= l < |w| && g in w[l] ensures (l == level && g == f) || (g in v[l] && g.number != f.number) {
      if g in v[l] { assert v[l] in v && g.number in Numbers(v); }
    }
  }

  lemma GrownAdded(v: Version, w: Version, level: nat, f: FileMeta)
    requires Grown(v, w) && level < |w| && After(f, v) && PlaceOk(w, level, f)
    ensures Grown(v, Added(w, level, f))
  {
    InsertElements(w[level], f);
  }

  lemma FlushInstallKeepsLevels(s: State, level: nat, f: FileMeta)
    requires UpInv(s) && LevelInv(s) && CanFlushInstall(s, level, f)
    ensures LevelInv(DoFlushInstall(s, level, f))
  {
    if s.m.tables[s.m.imm.value] != {} {
      FlushedIsNewer(s, level, f);
      Unfold(s.disk.files, s.disk.levels);
      FlushKeepsLevels(s.disk.files, s.disk.levels, level, f);
      UniqueAdded(s.disk.levels, level, f);
      if s.bg.compaction.Some? && !s.bg.compaction.value.installed {
        GrownAdded(s.bg.compaction.value.levels, s.disk.levels, level, f);
      }
    }
  }

  lemma FlushKeepsLevelInv(s: State, f: FlushStep)
    requires UpInv(s) && LevelInv(s) && FlushEnabled(s, f)
    ensures LevelInv(ApplyFlush(s, f))
  {
    match f
    case FlushBegin => FlushBeginKeepsLevels(s);
    case FlushBuild => FlushBuildKeepsLevels(s);
    case FlushUnpend =>
    case FlushInstall(level, f) => FlushInstallKeepsLevels(s, level, f);
  }

  // ---------------------------------------------------------------- compaction steps

  // The inputs are still where they were chosen.
  lemma InputsInPlace(files: Files, v: Version, c: CompactionState)
    requires LevelsOk(files, v) && Unique(v) && InputVersionOk(files, v, c)
    ensures InputsOk(files, v, c.level, c.inputs)
  {
    ChosenIsOk(files, c.levels, c.level, c.inputs, c.lo, c.hi);
    StillInputs(files, v, c.levels, c.level, c.inputs);
    Unfold(files, v);
  }

  // What was a choice of inputs stays one while tables are flushed.
  lemma StillInputs(files: Files, v: Version, old': Version, level: nat, inputs: set<nat>)
    requires Grown(old', v) && InputsOk(files, old', level, inputs) && |v| > 0
    requires forall f, g :: f in v[0] && g in v[0] && f.number > g.number ==> Newer(files, f, g)
    ensures InputsOk(files, v, level, inputs)
  {
    InputsStay(old', v, level, inputs);
    if level == 0 { ZeroInPlace(files, v, old', inputs); }
  }

  lemma ZeroInPlace(files: Files, v: Version, old': Version, inputs: set<nat>)
    requires Grown(old', v) && InputsOk(files, old', 0, inputs) && inputs <= Numbers(old') && |v| > 0
    requires forall f, g :: f in v[0] && g in v[0] && f.number > g.number ==> Newer(files, f, g)
    requires forall f :: f in v[0] && f.number in inputs ==> f in old'[0]
    ensures forall f, g :: f in v[0] && g in v[0] && f.number in inputs && g.number !in inputs ==> Newer(files, g, f)
  {
    forall f, g | f in v[0] && g in v[0] && f.number in inputs && g.number !in inputs ensures Newer(files, g, f) {
      if g !in old'[0] { assert After(g, old') && f.number < g.number; }
    }
  }

  lemma InputsStay(v: Version, w: Version, level: nat, inputs: set<nat>)
    requires Grown(v, w) && level + 1 < |v| && inputs <= NumbersOf(v[level]) + NumbersOf(v[level + 1])
    requires forall l, f :: 0 <= l < |v| && f in v[l] && f.number in inputs ==> l == level || l == level + 1
    ensures inputs <= Numbers(v)
    ensures forall l, f :: 0 <= l < |w| && f in w[l] && f.number in inputs ==> f in v[l] && (l == level || l == level + 1)
    ensures forall n :: n in inputs ==> n in NumbersOf(w[level]) || n in NumbersOf(w[level + 1])
  {
    forall n | n in inputs ensures n in Numbers(v) && (n in NumbersOf(w[level]) || n in NumbersOf(w[level + 1])) {
      if n in NumbersOf(v[level]) {
        var f :| f in v[level] && f.number == n;
        assert v[level] in v && f in w[level];
      } else {
        var f :| f in v[level + 1] && f.number == n;
        assert v[level + 1] in v && f in w[level + 1];
      }
    }
    forall l, f | 0 <= l < |w| && f in w[l] && f.number in inputs ensures f in v[l] {
      assert !After(f, v);
    }
  }

  lemma CompactBeginKeepsLevels(s: State, level: nat, inputs: set<nat>, lo: UserKey, hi: UserKey, merged: seq<Entry>)
    requires LevelInv(s) && CanCompactBegin(s, level, inputs, lo, hi, merged)
    ensures LevelInv(DoCompactBegin(s, level, inputs, lo, hi, merged))
  {
  }

  lemma CompactFinishKeepsLevels(s: State, number: nat, content: set<Entry>)
    requires UpInv(s) && LevelInv(s) && Compacting(s) && number in s.bg.compaction.value.outputs
    ensures LevelInv(DoCompactFinish(s, number, content))
  {
    assert number !in LiveFiles(s.disk.Tables(), s.readers, s.bg.compaction);
    OtherFileKeepsLevels(s, number, content);
  }

  lemma OtherFileKeepsLevels(s: State, n: nat, content: set<Entry>)
    requires LevelInv(s) && n !in LiveFiles(s.disk.Tables(), s.readers, s.bg.compaction)
    requires LiveFiles(s.disk.Tables(), s.readers, s.bg.compaction) <= s.disk.files.Keys
    ensures LevelInv(s.(disk := s.disk.(files := s.disk.files[n := content])))
  {
    OtherFiles(s, s.disk.files[n := content]);
  }

  // Only tables flushed since the compaction began can fail to fit.
  lemma FitsIfNewFit(files: Files, v: Version, c: CompactionState, outs: Level)
    requires LevelsOk(files, v) && Unique(v) && InputVersionOk(files, v, c) && OutputsOk(files, c.inputs, outs)
    ensures c.level + 1 < |v| == |c.levels|
    ensures Fits(v, c.inputs, c.level, outs) <==>
            forall g, o :: g in v[c.level + 1] && g !in c.levels[c.level + 1] && o in outs ==> Apart(g, o)
  {
    var l := c.level + 1;
    Unfold(files, c.levels);
    ChosenIsOk(files, c.levels, c.level, c.inputs, c.lo, c.hi);
    InputsStay(c.levels, v, c.level, c.inputs);
    forall g, o | g in v[l] && g in c.levels[l] && g.number !in c.inputs && o in outs ensures Apart(g, o) {
      forall f | f in c.levels[c.level] && f.number in c.inputs ensures FileOk(files, f) {
        if c.level > 0 { assert LevelOk(files, c.levels[c.level]); }
      }
      assert LevelOk(files, c.levels[l]);
      OldFilesFit(files, c.levels, c.level, c.inputs, c.lo, c.hi, outs, g, o);
    }
  }

  // Every key between the bounds is within an input file of the upper level.
  ghost predicate NoGap(c: CompactionState)
    requires c.level < |c.levels|
  {
    forall k :: c.lo <= k <= c.hi ==> InInput(c, k)
  }

  ghost predicate InInput(c: CompactionState, k: UserKey)
    requires c.level < |c.levels|
  {
    exists f :: f in c.levels[c.level] && f.number in c.inputs && Spans(f, k)
  }

  // A compaction of one file of the upper level has none.
  lemma OneFileHasNoGap(c: CompactionState, f: FileMeta)
    requires c.level < |c.levels| && f in c.levels[c.level] && f.number in c.inputs && c.lo == f.smallest.key && c.hi == f.largest.key
    ensures NoGap(c)
  {
    forall k | c.lo <= k <= c.hi ensures InInput(c, k) { assert Spans(f, k); }
  }

  // The keys of an input lie within the bounds, or in a file of the lower level that reaches into them.
  lemma InputReaches(files: Files, c: CompactionState, e: Entry) returns (i: FileMeta)
    requires LevelsOk(files, c.levels) && Chosen(c.levels, c.level, c.inputs, c.lo, c.hi) && e in TableEntries(files, c.inputs)
    ensures (i in c.levels[c.level] || i in c.levels[c.level + 1]) && Spans(i, e.key) && Overlaps(i, c.lo, c.hi)
  {
    Unfold(files, c.levels);
    var n :| n in c.inputs && n in files && e in files[n];
    if n in NumbersOf(c.levels[c.level]) {
      i :| i in c.levels[c.level] && i.number == n;
      SpansOwn(files, c.levels, c.level, i, e);
    } else {
      i :| i in c.levels[c.level + 1] && i.number == n;
      SpansOwn(files, c.levels, c.level + 1, i, e);
    }
  }

  // Without a gap, a table flushed meanwhile cannot lie among the outputs.
  lemma NoGapFits(files: Files, v: Version, c: CompactionState, outs: Level, g: FileMeta, o: FileMeta)
    requires InputVersionOk(files, v, c) && NoGap(c) && OutputsOk(files, c.inputs, outs) && c.level + 1 < |v|
    requires g in v[c.level + 1] && g !in c.levels[c.level + 1] && RangeOk(g) && o in outs
    ensures Apart(g, o)
  {
    OutputEntry(files, outs, o);
    assert FileOk(files, o) && InPlace(c.levels, c.level + 1, g);
    var i := InputReaches(files, c, o.smallest);
    var j := InputReaches(files, c, o.largest);
    assert !Overlaps(i, g.smallest.key, g.largest.key) && !Overlaps(j, g.smallest.key, g.largest.key);
    OutsideBounds(c, g);
  }

  lemma MeetsInput(c: CompactionState, g: FileMeta) returns (f: FileMeta)
    requires c.level < |c.levels| && NoGap(c) && RangeOk(g) && c.lo <= c.hi && c.lo <= g.largest.key && g.smallest.key <= c.hi
    ensures f in c.levels[c.level] && Overlaps(f, g.smallest.key, g.largest.key)
  {
    var k := if g.smallest.key < c.lo then c.lo else g.smallest.key;
    assert InInput(c, k);
    f :| f in c.levels[c.level] && f.number in c.inputs && Spans(f, k);
  }

  lemma OutsideBounds(c: CompactionState, g: FileMeta)
    requires c.level < |c.levels| && NoGap(c) && RangeOk(g)
    requires forall f :: f in c.levels[c.level] ==> !Overlaps(f, g.smallest.key, g.largest.key)
    ensures c.lo <= c.hi ==> g.largest.key < c.lo || c.hi < g.smallest.key
  {
    if c.lo <= c.hi && c.lo <= g.largest.key && g.smallest.key <= c.hi {
      var f := MeetsInput(c, g);
    }
  }

  lemma OutputsAreOk(s: State, outs: Level)
    requires UpInv(s) && CanCompactInstall(s, outs)
    ensures OutputsOk(s.disk.files, s.bg.compaction.value.inputs, outs)
  {
    var c := s.bg.compaction.value;
    Compaction.KeptElements(c.merged, |c.merged|, c.smallestSnapshot, c.base);
    forall e | e in TableEntries(s.disk.files, c.outputs) ensures e in TableEntries(s.disk.files, c.inputs) {
      assert e in Elements(c.merged);
    }
  }

  lemma InstallIff(files: Files, v: Version, c: CompactionState, outs: Level)
    requires LevelsOk(files, v) && Unique(v) && InputVersionOk(files, v, c) && OutputsOk(files, c.inputs, outs)
    ensures c.level + 1 < |v| == |c.levels|
    ensures LevelsOk(files, Compacted(v, c.level, c.inputs, outs)) <==>
            NoneMisplaced(files, v, c.inputs, c.level, outs) &&
            forall g, o :: g in v[c.level + 1] && g !in c.levels[c.level + 1] && o in outs ==> Apart(g, o)
    ensures Numbers(Compacted(v, c.level, c.inputs, outs)) == Numbers(v) - c.inputs + NumbersOf(outs)
  {
    InputsInPlace(files, v, c);
    FitsIfNewFit(files, v, c, outs);
    CompactionKeepsLevels(files, v, c.level, c.inputs, outs);
    NumbersCompacted(v, c.level, c.inputs, outs);
  }

  // Installing the results of a compaction keeps the levels right exactly if nothing is out of order.
  lemma InstallIsCleanIff(s: State, outs: Level)
    requires s.bg.compaction.Some? && DiskLevelsOk(s.disk) && CompactionLevelsOk(s.disk, s.bg.compaction) && CanCompactInstall(s, outs)
    requires OutputsOk(s.disk.files, s.bg.compaction.value.inputs, outs)
    ensures s.bg.compaction.value.level + 1 < |s.disk.levels|
    ensures LevelsOk(s.disk.files, DoCompactInstall(s, outs).disk.levels) <==> NothingOutOfOrder(s, outs)
    ensures DoCompactInstall(s, outs).disk.Tables() == s.disk.Tables() - s.bg.compaction.value.inputs + s.bg.compaction.value.outputs
  {
    InstallIff(s.disk.files, s.disk.levels, s.bg.compaction.value, outs);
  }

  lemma CompactInstallKeepsLevels(s: State, outs: Level)
    requires UpInv(s) && LevelInv(s) && CanCompactInstall(s, outs) && NothingOutOfOrder(s, outs)
    ensures LevelInv(DoCompactInstall(s, outs))
  {
    var c, v := s.bg.compaction.value, s.disk.levels;
    OutputsAreOk(s, outs);
    InstallIsCleanIff(s, outs);
    InputsInPlace(s.disk.files, v, c);
    forall l, f: FileMeta | 0 <= l < |v| && f in v[l] ensures f.number !in NumbersOf(outs) {
      assert v[l] in v && f.number in s.disk.Tables();
    }
    UniqueCompacted(s.disk.files, v, c.level, c.inputs, outs);
  }

  // In every state of the engine the levels stay right exactly if nothing is out of order.
  lemma CompactInstallLevelsIff(s: State, outs: Level)
    requires UpInv(s) && LevelInv(s) && CanCompactInstall(s, outs)
    ensures LevelInv(DoCompactInstall(s, outs)) <==> NothingOutOfOrder(s, outs)
  {
    if NothingOutOfOrder(s, outs) {
      CompactInstallKeepsLevels(s, outs);
    } else {
      OutputsAreOk(s, outs);
      InstallIsCleanIff(s, outs);
    }
  }

  // A move keeps the levels right exactly if it is a clean step.
  lemma MoveIsCleanIff(s: State, level: nat, f: FileMeta)
    requires LevelInv(s) && CanTrivialMove(s, level, f)
    ensures LevelsOk(s.disk.files, DoTrivialMove(s, level, f).disk.levels) <==> forall g :: !SplitAt(s.disk.levels, {f.number}, level, f, g)
    ensures DoTrivialMove(s, level, f).disk.Tables() == s.disk.Tables() && Unique(DoTrivialMove(s, level, f).disk.levels)
  {
    MoveIff(s.disk.files, s.disk.levels, level, f);
  }

  lemma MoveIff(files: Files, v: Version, level: nat, f: FileMeta)
    requires LevelsOk(files, v) && Unique(v) && CanMove(v, level, f)
    ensures var w := Compacted(v, level, {f.number}, [f]);
            (LevelsOk(files, w) <==> forall g :: !SplitAt(v, {f.number}, level, f, g)) && Numbers(w) == Numbers(v) && Unique(w)
  {
    MoveKeepsLevels(files, v, level, f);
    MoveIsOk(files, v, level, f);
    MoveUnique(files, v, level, f);
  }

  lemma MoveUnique(files: Files, v: Version, level: nat, f: FileMeta)
    requires Unique(v) && level + 1 < |v| && f in v[level] && FileOk(files, f)
    requires forall l, g :: 0 <= l < |v| && g in v[l] && g.number in {f.number} ==> l == level || l == level + 1
    ensures var w := Compacted(v, level, {f.number}, [f]); Numbers(w) == Numbers(v) && Unique(w)
  {
    NumbersCompacted(v, level, {f.number}, [f]);
    assert v[level] in v && f.number in Numbers(v);
    OwnNumber(v, f);
    UniqueCompacted(files, v, level, {f.number}, [f]);
  }

  // The tables hold entries of the history.
  lemma TableTags(files: Files, numbers: set<nat>, x: History, flushed: nat)
    requires flushed <= |x| && TableEntries(files, numbers) <= EntriesOf(x, 0, flushed)
    ensures UniqueTags(TableEntries(files, numbers)) && Readable(TableEntries(files, numbers))
  {
    EntriesSplit(x, 0, flushed, |x|);
    HistoryEntriesUnique(x, TableEntries(files, numbers));
    HistoryReadable(x, TableEntries(files, numbers));
  }

  // In terms of reads: after a move the search through the levels finds the newest entry for every key and
  // every sequence exactly if the step is clean ...
  lemma MoveFindsAllIff(s: State, level: nat, f: FileMeta)
    requires UpInv(s) && LevelInv(s) && CanTrivialMove(s, level, f)
    ensures DoTrivialMove(s, level, f).disk.levels != []
    ensures FindsAll(s.disk.files, DoTrivialMove(s, level, f).disk.levels) <==> CleanCompact(s, TrivialMove(level, f))
  {
    TableTags(s.disk.files, s.disk.Tables(), Extended(s.m), s.m.flushed);
    MoveFindsIff(s.disk.files, s.disk.levels, level, f);
  }

  lemma MoveFindsIff(files: Files, v: Version, level: nat, f: FileMeta)
    requires LevelsOk(files, v) && Unique(v) && CanMove(v, level, f)
    requires UniqueTags(TableEntries(files, Numbers(v))) && Readable(TableEntries(files, Numbers(v)))
    ensures var w := Compacted(v, level, {f.number}, [f]); w != [] && (FindsAll(files, w) <==> forall g :: !SplitAt(v, {f.number}, level, f, g))
  {
    MoveIsOk(files, v, level, f);
    MoveMisplaces(files, v, level, f);
    OwnNumber(v, f);
    CompactionFindsAllIff(files, v, level, {f.number}, [f]);
  }

  lemma OwnNumber(v: Version, f: FileMeta)
    ensures OwnNumbers(v, {f.number}, [f]) && NumbersOf([f]) == {f.number}
  {
  }

  // ... and so it is after the results of a compaction are installed.
  lemma InstallFindsAllIff(s: State, outs: Level)
    requires UpInv(s) && LevelInv(s) && CanCompactInstall(s, outs)
    ensures DoCompactInstall(s, outs).disk.levels != []
    ensures FindsAll(s.disk.files, DoCompactInstall(s, outs).disk.levels) <==> NothingOutOfOrder(s, outs)
  {
    InstallIsOk(s, outs);
    InstallFinds(s, outs);
  }

  lemma InstallIsOk(s: State, outs: Level)
    requires UpInv(s) && CanCompactInstall(s, outs)
    ensures OutputsOk(s.disk.files, s.bg.compaction.value.inputs, outs) && NumbersOf(outs) !! Numbers(s.disk.levels)
    ensures UniqueTags(TableEntries(s.disk.files, s.disk.Tables())) && Readable(TableEntries(s.disk.files, s.disk.Tables()))
  {
    OutputsAreOk(s, outs);
    TableTags(s.disk.files, s.disk.Tables(), Extended(s.m), s.m.flushed);
  }

  lemma InstallFinds(s: State, outs: Level)
    requires CanCompactInstall(s, outs) && DiskLevelsOk(s.disk) && CompactionLevelsOk(s.disk, s.bg.compaction)
    requires OutputsOk(s.disk.files, s.bg.compaction.value.inputs, outs) && NumbersOf(outs) !! Numbers(s.disk.levels)
    requires UniqueTags(TableEntries(s.disk.files, s.disk.Tables())) && Readable(TableEntries(s.disk.files, s.disk.Tables()))
    ensures DoCompactInstall(s, outs).disk.levels != []
    ensures FindsAll(s.disk.files, DoCompactInstall(s, outs).disk.levels) <==> NothingOutOfOrder(s, outs)
  {
    InstallFindsIff(s.disk.files, s.disk.levels, s.bg.compaction.value, outs);
  }

  lemma InstallFindsIff(files: Files, v: Version, c: CompactionState, outs: Level)
    requires LevelsOk(files, v) && Unique(v) && InputVersionOk(files, v, c) && OutputsOk(files, c.inputs, outs) && NumbersOf(outs) !! Numbers(v)
    requires UniqueTags(TableEntries(files, Numbers(v))) && Readable(TableEntries(files, Numbers(v)))
    ensures c.level + 1 < |v| == |c.levels|
    ensures FindsAll(files, Compacted(v, c.level, c.inputs, outs)) <==>
            NoneMisplaced(files, v, c.inputs, c.level, outs) &&
            forall g, o :: g in v[c.level + 1] && g !in c.levels[c.level + 1] && o in outs ==> Apart(g, o)
  {
    InputsInPlace(files, v, c);
    FitsIfNewFit(files, v, c, outs);
    CompactionFindsAllIff(files, v, c.level, c.inputs, outs);
  }

  lemma MemoryHolds(m: Memory)
    requires MemInv(m)
    ensures InMemory(m) == EntriesOf(Extended(m), m.flushed, |m.history| + Applied(m))
  {
    EntriesSplit(Extended(m), m.flushed, m.switched, |m.history| + Applied(m));
    if m.imm.None? { assert EntriesOf(Extended(m), m.flushed, m.switched) == {}; }
  }

  // Writes beyond smallest_snapshot decide nothing at it.
  lemma SameBelow(v: Version, level: nat, inputs: set<nat>, merged: seq<Entry>, a: set<Entry>, b: set<Entry>, smallest: nat)
    requires forall e :: e in a && e.seqno <= smallest <==> e in b && e.seqno <= smallest
    ensures NoneResurfaces(v, level, inputs, merged, a, smallest) ==> NoneResurfaces(v, level, inputs, merged, b, smallest)
  {
    forall d, l, f, g | Resurfaces(v, level, inputs, merged, b, smallest, d, l, f, g)
      ensures Resurfaces(v, level, inputs, merged, a, smallest, d, l, f, g)
    {
    }
  }

  lemma MemoryCounts(s: State, c: CompactionState)
    requires MemInv(s.m) && c.smallestSnapshot <= |s.m.history|
    ensures var files, v := s.disk.files, s.disk.levels;
            NoneResurfaces(c.levels, c.level, c.inputs, c.merged, Outside(files, v, c.inputs, InMemory(s.m)), c.smallestSnapshot) <==>
            NoneResurfaces(c.levels, c.level, c.inputs, c.merged, Outside(files, v, c.inputs, Unflushed(s.m)), c.smallestSnapshot)
  {
    var a, b := Outside(s.disk.files, s.disk.levels, c.inputs, InMemory(s.m)), Outside(s.disk.files, s.disk.levels, c.inputs, Unflushed(s.m));
    MemoryBelow(s.m, c.smallestSnapshot);
    SameBelow(c.levels, c.level, c.inputs, c.merged, a, b, c.smallestSnapshot);
    SameBelow(c.levels, c.level, c.inputs, c.merged, b, a, c.smallestSnapshot);
  }

  // What is written but not inserted is beyond LastSequence.
  lemma MemoryBelow(m: Memory, smallest: nat)
    requires MemInv(m) && smallest <= |m.history|
    ensures InMemory(m) <= Unflushed(m)
    ensures forall e :: e in InMemory(m) && e.seqno <= smallest <==> e in Unflushed(m) && e.seqno <= smallest
  {
    var x, n := Extended(m), |m.history| + Applied(m);
    MemoryHolds(m);
    EntriesSplit(x, m.flushed, n, |x|);
    InEntries(x, n, |x|);
  }

  lemma MergeIsOk(files: Files, v: Version, inputs: set<nat>, merged: seq<Entry>, x: History, flushed: nat)
    requires flushed <= |x| && TableEntries(files, Numbers(v)) <= EntriesOf(x, 0, flushed) && inputs <= Numbers(v)
    requires Sorted(merged) && Elements(merged) == TableEntries(files, inputs)
    ensures MergeOk(files, inputs, merged, Outside(files, v, inputs, EntriesOf(x, flushed, |x|)))
    ensures NewerThan(EntriesOf(x, flushed, |x|), merged)
  {
    var unflushed := EntriesOf(x, flushed, |x|);
    InputsAndOthers(files, v, inputs, unflushed);
    TablesAndRest(TableEntries(files, Numbers(v)), x, flushed);
    forall e, m | e in unflushed && m in merged ensures m.seqno < e.seqno {
      assert m in Elements(merged) && m in TableEntries(files, Numbers(v));
    }
  }

  lemma TablesAndRest(t: set<Entry>, x: History, flushed: nat)
    requires flushed <= |x| && t <= EntriesOf(x, 0, flushed)
    ensures UniqueTags(t + EntriesOf(x, flushed, |x|)) && Readable(t + EntriesOf(x, flushed, |x|))
    ensures forall m, e :: m in t && e in EntriesOf(x, flushed, |x|) ==> m.seqno < e.seqno
  {
    EntriesSplit(x, 0, flushed, |x|);
    HistoryEntriesUnique(x, t + EntriesOf(x, flushed, |x|));
    HistoryReadable(x, t + EntriesOf(x, flushed, |x|));
    SequencesSplit(x, flushed);
  }

  lemma HistoryReadable(x: History, es: set<Entry>)
    requires es <= EntriesOf(x, 0, |x|)
    ensures Readable(es)
  {
    InEntries(x, 0, |x|);
  }

  lemma SequencesSplit(x: History, mid: nat)
    requires mid <= |x|
    ensures (forall e :: e in EntriesOf(x, 0, mid) ==> e.seqno <= mid) && forall e :: e in EntriesOf(x, mid, |x|) ==> mid < e.seqno
  {
    InEntries(x, 0, mid);
    InEntries(x, mid, |x|);
  }

  // Outside the inputs are the files left when they were chosen, and what has been written since.
  lemma OutsideGrown(files: Files, v: Version, w: Version, inputs: set<nat>, unflushed: set<Entry>)
    requires Grown(v, w) && inputs <= Numbers(v)
    ensures Outside(files, v, inputs, TableEntries(files, Numbers(w) - Numbers(v)) + unflushed) == Outside(files, w, inputs, unflushed)
  {
    forall n | n in Numbers(v) ensures n in Numbers(w) {
      var l, f := PlaceOf(v, n);
      HasNumber(w, l, f);
    }
    assert Numbers(w) - inputs == (Numbers(v) - inputs) + (Numbers(w) - Numbers(v));
    TablesUnion(files, Numbers(v) - inputs, Numbers(w) - Numbers(v));
  }

  lemma KeepsIff(files: Files, v: Version, c: CompactionState, x: History, flushed: nat)
    requires InputVersionOk(files, v, c) && c.base == BaseKeys(c.levels, c.level, c.merged)
    requires flushed <= |x| && MergeOk(files, c.inputs, c.merged, Outside(files, v, c.inputs, EntriesOf(x, flushed, |x|)))
    requires NewerThan(TableEntries(files, Numbers(v) - Numbers(c.levels)), c.merged) && NewerThan(EntriesOf(x, flushed, |x|), c.merged)
    ensures var others := Outside(files, v, c.inputs, EntriesOf(x, flushed, |x|));
            Compaction.KeepsViews(c.merged, others, c.smallestSnapshot, c.base) <==>
            NoneResurfaces(c.levels, c.level, c.inputs, c.merged, others, c.smallestSnapshot)
  {
    var since := TableEntries(files, Numbers(v) - Numbers(c.levels)) + EntriesOf(x, flushed, |x|);
    ChosenTables(c.levels, c.level, c.inputs, c.lo, c.hi);
    OutsideGrown(files, c.levels, v, c.inputs, EntriesOf(x, flushed, |x|));
    KeepsViewsIff(files, c.levels, c.level, c.inputs, c.lo, c.hi, c.merged, since, c.smallestSnapshot);
  }

  // A compaction keeps what the database answers, from its smallest_snapshot on, exactly if it drops no
  // deletion of a value that was left behind.
  lemma DropsAreCleanIff(s: State)
    requires UpInv(s) && LevelInv(s) && Compacting(s)
    ensures KeepsDatabase(s) <==> NothingResurfaces(s)
  {
    var c := s.bg.compaction.value;
    MergeIsOk(s.disk.files, s.disk.levels, c.inputs, c.merged, Extended(s.m), s.m.flushed);
    KeepsIff(s.disk.files, s.disk.levels, c, Extended(s.m), s.m.flushed);
    MemoryCounts(s, c);
  }

  lemma DeleteKeepsLevels(s: State)
    requires UpInv(s) && LevelInv(s) && s.bg.flush.None?
    ensures LevelInv(DoDeleteObsoleteFiles(s))
  {
    var t := DoDeleteObsoleteFiles(s);
    OtherFiles(s, t.disk.files);
    FewerRecordsInOrder(s.disk.logs, t.disk.logs);
  }

  // ---------------------------------------------------------------- when steps are clean

  // No two files of a level share a key.
  ghost predicate Unsplit(v: Version) {
    forall l, f, g :: 0 < l < |v| && f in v[l] && g in v[l] && f != g ==> f.largest.key != g.smallest.key
  }

  // As long as no key is split, any move is clean ...
  lemma UnsplitMoveIsClean(s: State, level: nat, f: FileMeta)
    requires CanTrivialMove(s, level, f) && Unsplit(s.disk.levels)
    ensures CleanCompact(s, TrivialMove(level, f))
  {
  }

  // ... and so are the results of a compaction whose upper inputs leave no gap.
  lemma UnsplitInstallIsClean(s: State, outs: Level)
    requires s.bg.compaction.Some? && DiskLevelsOk(s.disk) && CompactionLevelsOk(s.disk, s.bg.compaction) && CanCompactInstall(s, outs)
    requires OutputsOk(s.disk.files, s.bg.compaction.value.inputs, outs)
    requires Unsplit(s.disk.levels) && NoGap(s.bg.compaction.value)
    ensures CleanCompact(s, CompactInstall(outs))
  {
    var c := s.bg.compaction.value;
    NewFilesApart(s.disk.files, s.disk.levels, c, outs);
    UnsplitMisplacesNothing(s.disk.files, s.disk.levels, c.inputs, c.level, outs);
    UnsplitLeavesNothing(c.levels, s.disk.levels, c, Outside(s.disk.files, s.disk.levels, c.inputs, InMemory(s.m)));
  }

  lemma UnsplitLeavesNothing(v: Version, w: Version, c: CompactionState, others: set<Entry>)
    requires Grown(v, w) && Unsplit(w)
    ensures NoneResurfaces(v, c.level, c.inputs, c.merged, others, c.smallestSnapshot)
  {
    forall l: nat, f, g ensures !SplitAt(v, c.inputs, l, f, g) {
      assert l < |v| && f in v[l] && g in v[l] ==> f in w[l] && g in w[l];
    }
  }

  lemma UnsplitMisplacesNothing(files: Files, v: Version, inputs: set<nat>, level: nat, outs: Level)
    requires Unsplit(v)
    ensures NoneMisplaced(files, v, inputs, level, outs)
  {
  }

  lemma NewFilesApart(files: Files, v: Version, c: CompactionState, outs: Level)
    requires LevelsOk(files, v) && InputVersionOk(files, v, c) && NoGap(c) && OutputsOk(files, c.inputs, outs) && c.level + 1 < |v|
    ensures forall g, o :: g in v[c.level + 1] && g !in c.levels[c.level + 1] && o in outs ==> Apart(g, o)
  {
    Unfold(files, v);
    forall g, o | g in v[c.level + 1] && g !in c.levels[c.level + 1] && o in outs ensures Apart(g, o) {
      assert LevelOk(files, v[c.level + 1]) && FileOk(files, g);
      NoGapFits(files, v, c, outs, g, o);
    }
  }

  lemma CompactKeepsLevels(s: State, c: CompactStep)
    requires UpInv(s) && LevelInv(s) && CompactEnabled(s, c) && CleanCompact(s, c)
    ensures LevelInv(ApplyCompact(s, c))
  {
    match c
    case CompactBegin(level, inputs, lo, hi, merged) => CompactBeginKeepsLevels(s, level, inputs, lo, hi, merged);
    case CompactOpen =>
    case CompactFinish(number, content) => CompactFinishKeepsLevels(s, number, content);
    case CompactInstall(outs) => CompactInstallKeepsLevels(s, outs);
    case CompactCleanup =>
    case CompactFail =>
    case TrivialMove(level, f) => MoveIsCleanIff(s, level, f);
    case DeleteObsoleteFiles => DeleteKeepsLevels(s);
  }

  // ---------------------------------------------------------------- readers, crash and recovery

  lemma ReadKeepsLevels(s: State, u: ReadStep)
    requires LevelInv(s) && ReadEnabled(s, u)
    ensures LevelInv(ApplyRead(s, u))
  {
  }

  lemma CrashKeepsLevels(s: State, torn: bool)
    requires LevelInv(s)
    ensures DiskLevelsOk(DoCrash(s, torn).disk)
  {
    FewerRecordsInOrder(s.disk.logs, DoCrash(s, torn).disk.logs);
  }

  lemma FailedRecoveryKeepsLevels(sys: System, step: Step)
    requires sys.Down? && DownInv(sys.disk, sys.history, sys.flushed, sys.switched, sys.logNumber, sys.floor) && DiskLevelsOk(sys.disk)
    requires step.FailedRecovery? && Enabled(sys, step)
    ensures DiskLevelsOk(Next(sys, step).disk)
  {
    var t := Next(sys, step);
    SameContents(sys.disk.files, t.disk.files, sys.disk.levels);
    FewerRecordsInOrder(sys.disk.logs, t.disk.logs);
  }

  // What is replayed later has larger sequences.
  lemma ReplayOrderIsAge(logs: map<nat, LogFile>, lo: nat, a: Entry, b: Entry)
    requires RecordsInOrder(logs) && ReplayedBefore(logs, lo, a, b)
    ensures a.seqno < b.seqno
  {
    var n: nat, i, m: nat, j :| ReplayedAt(logs, lo, n, i, a) && ReplayedAt(logs, lo, m, j, b) && (n < m || (n == m && i < j));
    assert HasRecord(logs, n, i) && HasRecord(logs, m, j);
  }

  lemma OpenKeepsLevels(d: Disk, h: History, flushed: nat, switched: nat, logNumber: nat, floor: nat, r: Recovery)
    requires DownInv(d, h, flushed, switched, logNumber, floor) && DiskLevelsOk(d) && OpenEnabled(d, r)
    ensures LevelInv(OpenState(d, h, flushed, switched, logNumber, floor, r))
  {
    var s := OpenState(d, h, flushed, switched, logNumber, floor, r);
    FewerRecordsInOrder(d.logs, s.disk.logs);
    SameContents(d.files, s.disk.files, d.levels);
    if r.save {
      RecoveredAreNewer(d, h, flushed, switched, logNumber, floor, r);
      RecoveredInOrder(d, r);
      RecoveredUnique(d.levels, r.metas);
      RecoveredKeepLevels(s.disk.files, d.levels, r.metas);
    }
  }

  lemma RecoveredAreNewer(d: Disk, h: History, flushed: nat, switched: nat, logNumber: nat, floor: nat, r: Recovery)
    requires DownInv(d, h, flushed, switched, logNumber, floor) && OpenEnabled(d, r)
    ensures var files := d.files + r.tables;
            (forall f :: f in r.metas ==> FileOk(files, f) && After(f, d.levels)) &&
            forall l, f, g :: 0 <= l < |d.levels| && f in r.metas && g in d.levels[l] ==> Newer(files, f, g)
  {
    var files, start := d.files + r.tables, OpenStart(h, switched, logNumber, r);
    OpenSplit(d, h, flushed, switched, logNumber, r);
    forall f | f in r.metas ensures FileOk(files, f) { assert FileOk(r.tables, f); }
    forall l, f, g | 0 <= l < |d.levels| && f in r.metas && g in d.levels[l] ensures Newer(files, f, g) {
      assert d.levels[l] in d.levels && g.number in d.Tables() && g.number !in r.tables;
      assert Content(files, g) <= TableEntries(d.files, d.Tables());
      assert f.number in r.tables && Content(files, f) <= TableEntries(r.tables, r.tables.Keys);
      LaterIsNewer(h, flushed, start, files, f, g);
    }
  }

  lemma LaterIsNewer(h: History, mid: nat, hi: nat, files: Files, f: FileMeta, g: FileMeta)
    requires mid <= hi <= |h| && Content(files, f) <= EntriesOf(h, mid, hi) && Content(files, g) <= EntriesOf(h, 0, mid)
    ensures Newer(files, f, g)
  {
    InEntries(h, 0, mid);
    InEntries(h, mid, hi);
  }

  lemma RecoveredInOrder(d: Disk, r: Recovery)
    requires RecordsInOrder(d.logs) && OpenEnabled(d, r)
    ensures forall f, g :: f in r.metas && g in r.metas && f.number > g.number ==> Newer(d.files + r.tables, f, g)
  {
    var files := d.files + r.tables;
    forall f, g | f in r.metas && g in r.metas && f.number > g.number ensures Newer(files, f, g) {
      assert f.number in r.tables && g.number in r.tables;
      forall a, b | a in Content(files, f) && b in Content(files, g) && a.key == b.key ensures a.seqno > b.seqno {
        ReplayOrderIsAge(d.logs, d.manifestLog, b, a);
      }
    }
  }

  lemma RecoveredKeepLevels(files: Files, v: Version, metas: Level)
    requires LevelsOk(files, v) && Distinct(metas) && forall f :: f in metas ==> FileOk(files, f) && After(f, v)
    requires forall l, f, g :: 0 <= l < |v| && f in metas && g in v[l] ==> Newer(files, f, g)
    requires forall f, g :: f in metas && g in metas && f.number > g.number ==> Newer(files, f, g)
    ensures LevelsOk(files, v[0 := InsertAll(v[0], metas)])
  {
    Unfold(files, v);
    InsertAllElements(v[0], metas);
    forall f, g | f in metas && g in v[0] ensures g.number < f.number { assert After(f, v) && v[0] in v && g.number in Numbers(v); }
    InsertAllDistinct(v[0], metas);
    Fold(files, v[0 := InsertAll(v[0], metas)]);
  }

  lemma RecoveredUnique(v: Version, metas: Level)
    requires v != [] && Unique(v) && Distinct(metas) && forall f :: f in metas ==> After(f, v)
    ensures Unique(v[0 := InsertAll(v[0], metas)])
  {
    var w := v[0 := InsertAll(v[0], metas)];
    InsertAllElements(v[0], metas);
    forall l, f | 0 <= l < |w| && f in w[l] ensures (l == 0 && f in metas) || (f in v[l] && forall g :: g in metas ==> g.number != f.number) {
      if f in v[l] { assert v[l] in v && f.number in Numbers(v); }
    }
    forall f, g | f in metas && g in metas && f.number == g.number ensures f == g {
      var i :| 0 <= i < |metas| && metas[i] == f;
      var j :| 0 <= j < |metas| && metas[j] == g;
      assert !(i < j) && !(j < i);
    }
  }
}
