/**
 What the engine promises its users, over every run: linearizable reads, recovery of exactly the
 acknowledged writes after a crash, and safe deletion of files.
 */
module EngineTheorems {
  import opened InternalKeys
  import opened Options
  import opened History
  import opened Levels
  import opened LevelEdits
  import opened Engine
  import opened EngineProof
  import opened EngineLevels
  import opened EngineRuns
  import Compaction
  import DbIter

  // ---------------------------------------------------------------- reads

  // DBImpl::Get with the objects it took references to: mem, then imm, then the version level by level;
  // the first hit wins.
  ghost function Get(s: State, r: Reader, k: UserKey): Option<Value>
    requires r.mem < |s.m.tables| && (r.imm.Some? ==> r.imm.value < |s.m.tables|) && r.levels != []
  {
    match LookupIn(s.m.tables[r.mem], k, r.snapshot)
    case Hit(e) => ValueOf(e)
    case Miss =>
      match (if r.imm.Some? then LookupIn(s.m.tables[r.imm.value], k, r.snapshot) else Miss)
      case Hit(e) => ValueOf(e)
      case Miss => VersionGet(s.disk.files, r.levels, k, r.snapshot)
  }

  // A hit in the newer set decides; a miss leaves it to the older one.
  lemma FirstHitWins(older: set<Entry>, newer: set<Entry>, k: UserKey, snapshot: nat)
    requires UniqueTags(older + newer)
    requires forall o, n :: o in older && n in newer ==> o.seqno < n.seqno
    ensures View(older + newer, k, snapshot) ==
            match LookupIn(newer, k, snapshot) case Hit(e) => ValueOf(e) case Miss => View(older, k, snapshot)
  {
    LookupUnion(older, newer, k, snapshot);
    LookupIsView(older + newer, k, snapshot);
    LookupIsView(older, k, snapshot);
  }

  // mem, imm and tables searched in turn answer as the history does.
  lemma SearchInTurn(x: History, r: Reader, top: set<Entry>, tables: set<Entry>, k: UserKey)
    requires r.lo <= r.hi <= |x| && r.snapshot <= |x| && top <= EntriesOf(x, r.hi, |x|)
    requires r.hi <= r.snapshot ==> EntriesOf(x, r.hi, r.snapshot) <= top
    requires tables <= EntriesOf(x, 0, r.lo) && Answers(tables, x, r.lo, k, r.snapshot)
    ensures (match LookupIn(top, k, r.snapshot)
             case Hit(e) => ValueOf(e)
             case Miss =>
               match LookupIn(EntriesOf(x, r.lo, r.hi), k, r.snapshot)
               case Hit(e) => ValueOf(e)
               case Miss => View(tables, k, r.snapshot)) == ValueAt(x, k, r.snapshot)
  {
    var middle := EntriesOf(x, r.lo, r.hi);
    ReaderSets(x, r, top);
    SubsetUnique(EntriesOf(x, 0, r.lo) + middle + top, tables + middle + top);
    SubsetUnique(tables + middle + top, tables + middle);
    FirstHitWins(tables + middle, top, k, r.snapshot);
    FirstHitWins(tables, middle, k, r.snapshot);
    MergedView(x, r, top, tables, k);
    assert tables + (middle + top) == tables + middle + top;
  }

  // The search through the levels of a reader's version finds the newest entry of all its tables.
  lemma LevelsAnswer(files: Files, x: History, r: Reader, k: UserKey)
    requires ReaderTablesOk(files, x, r) && LevelsOk(files, r.levels)
    ensures VersionGet(files, r.levels, k, r.snapshot) == View(TableEntries(files, r.Tables()), k, r.snapshot)
  {
    EntriesSplit(x, 0, r.lo, |x|);
    HistoryEntriesUnique(x, TableEntries(files, r.Tables()));
    InEntries(x, 0, r.lo);
    VersionGetIsView(files, r.levels, k, r.snapshot);
  }

  // A reader sees the last write at or below its snapshot, whatever has happened to the database
  // since it took its references.
  lemma GetIsLinear(m: Memory, s: State, r: Reader, k: UserKey)
    requires s.m == m && ReaderMemOk(m, r) && ReaderTablesOk(s.disk.files, Extended(m), r) && LevelsOk(s.disk.files, r.levels)
    ensures Get(s, r, k) == ValueAt(m.history, k, r.snapshot)
  {
    var x := Extended(m);
    LevelsAnswer(s.disk.files, x, r, k);
    SearchInTurn(x, r, m.tables[r.mem], TableEntries(s.disk.files, r.Tables()), k);
    if m.group.Some? { ValueAtPrefix(m.history, m.group.value.ops, k, r.snapshot); }
    if r.imm.None? { assert EntriesOf(x, r.lo, r.hi) == {}; }
  }

  // The three parts a reader holds are ordered by sequence and together cover its snapshot.
  lemma ReaderSets(x: History, r: Reader, top: set<Entry>)
    requires r.lo <= r.hi <= |x| && r.snapshot <= |x| && top <= EntriesOf(x, r.hi, |x|)
    requires r.hi <= r.snapshot ==> EntriesOf(x, r.hi, r.snapshot) <= top
    ensures var base, middle := EntriesOf(x, 0, r.lo), EntriesOf(x, r.lo, r.hi);
            UniqueTags(base + middle) && UniqueTags(base + middle + top) &&
            (forall o, n :: o in base && n in middle ==> o.seqno < n.seqno) &&
            (forall o, n :: o in base + middle && n in top ==> o.seqno < n.seqno) &&
            EntriesOf(x, 0, r.snapshot) <= base + middle + top <= EntriesOf(x, 0, |x|)
  {
    var base, middle := EntriesOf(x, 0, r.lo), EntriesOf(x, r.lo, r.hi);
    EntriesSplit(x, 0, r.lo, r.hi);
    EntriesSplit(x, 0, r.hi, |x|);
    if r.hi <= r.snapshot { EntriesSplit(x, 0, r.hi, r.snapshot); } else { EntriesSplit(x, 0, r.snapshot, r.hi); }
    HistoryEntriesUnique(x, base + middle);
    HistoryEntriesUnique(x, base + middle + top);
    InEntries(x, 0, r.lo);
    InEntries(x, r.lo, r.hi);
    InEntries(x, r.hi, |x|);
  }

  // What the internal iterator of a reader merges.
  function Merged(s: State, r: Reader): set<Entry>
    requires r.mem < |s.m.tables| && (r.imm.Some? ==> r.imm.value < |s.m.tables|)
  {
    TableEntries(s.disk.files, r.Tables()) + ((if r.imm.Some? then s.m.tables[r.imm.value] else {}) + s.m.tables[r.mem])
  }

  // The parts a reader holds, merged, answer as the history does.
  lemma MergedView(x: History, r: Reader, top: set<Entry>, tables: set<Entry>, k: UserKey)
    requires r.lo <= r.hi <= |x| && r.snapshot <= |x| && top <= EntriesOf(x, r.hi, |x|)
    requires r.hi <= r.snapshot ==> EntriesOf(x, r.hi, r.snapshot) <= top
    requires tables <= EntriesOf(x, 0, r.lo) && Answers(tables, x, r.lo, k, r.snapshot)
    ensures View(tables + (EntriesOf(x, r.lo, r.hi) + top), k, r.snapshot) == ValueAt(x, k, r.snapshot)
  {
    var middle, all := EntriesOf(x, r.lo, r.hi), EntriesOf(x, 0, |x|);
    MissingAreLater(x, r, top);
    EntriesSplit(x, 0, r.lo, |x|);
    HistoryEntriesUnique(x, all);
    SubsetUnique(all, tables + EntriesOf(x, r.lo, |x|));
    PartView(tables + EntriesOf(x, r.lo, |x|), tables + (middle + top), k, r.snapshot);
    EntriesSplit(x, 0, r.snapshot, |x|);
    ViewIsValueAt(x, all, k, r.snapshot);
  }

  // Of the writes after the first lo, a reader lacks only some that its snapshot does not see.
  lemma MissingAreLater(x: History, r: Reader, top: set<Entry>)
    requires r.lo <= r.hi <= |x| && r.snapshot <= |x| && top <= EntriesOf(x, r.hi, |x|)
    requires r.hi <= r.snapshot ==> EntriesOf(x, r.hi, r.snapshot) <= top
    ensures EntriesOf(x, r.lo, r.hi) + top <= EntriesOf(x, r.lo, |x|)
    ensures forall e :: e in EntriesOf(x, r.lo, |x|) && e !in EntriesOf(x, r.lo, r.hi) + top ==> e.seqno > r.snapshot
  {
    EntriesSplit(x, r.lo, r.hi, |x|);
    InEntries(x, r.hi, |x|);
    if r.hi <= r.snapshot {
      EntriesSplit(x, r.hi, r.snapshot, |x|);
      InEntries(x, r.snapshot, |x|);
    }
  }

  lemma PartView(s: set<Entry>, t: set<Entry>, k: UserKey, snapshot: nat)
    requires UniqueTags(s) && t <= s && forall e :: e in s && e !in t ==> e.seqno > snapshot
    ensures View(t, k, snapshot) == View(s, k, snapshot)
  {
    SubsetUnique(s, t);
    SameNewestSameView(s, t, k, snapshot);
  }

  // The list of an iterator: what its reader holds, and perhaps writes that came into the memtable since.
  ghost predicate ListOf(s: State, r: Reader, es: seq<Entry>)
    requires r.mem < |s.m.tables| && (r.imm.Some? ==> r.imm.value < |s.m.tables|)
  {
    Sorted(es) && Merged(s, r) <= Elements(es) && forall e :: e in es && e !in Merged(s, r) ==> e.seqno > r.snapshot
  }

  // Iterating refines the history as Get does: the list that a DBIter is a cursor on holds exactly the
  // keys and values of the reader's snapshot.
  lemma IteratorIsLinear(m: Memory, s: State, r: Reader, es: seq<Entry>, k: UserKey, v: Value)
    requires s.m == m && ReaderMemOk(m, r) && ReaderTablesOk(s.disk.files, Extended(m), r) && ListOf(s, r, es)
    ensures (k, v) in DbIter.VisibleList(es, r.snapshot) <==> ValueAt(m.history, k, r.snapshot) == Some(v)
  {
    var x := Extended(m);
    if r.imm.None? { assert EntriesOf(x, r.lo, r.hi) == {}; }
    MergedView(x, r, m.tables[r.mem], TableEntries(s.disk.files, r.Tables()), k);
    if m.group.Some? { ValueAtPrefix(m.history, m.group.value.ops, k, r.snapshot); }
    SortedHasUniqueTags(es);
    PartView(Elements(es), Merged(s, r), k, r.snapshot);
    DbIter.VisibleListIsTheView(es, r.snapshot);
  }

  // Linear refinement: in every clean run, every read returns what the versioned map of the acknowledged
  // writes returns.
  lemma EveryReadIsLinear(steps: seq<Step>, i: nat, k: UserKey)
    requires Legal(NewDB, steps) && CleanRun(NewDB, steps) && Run(NewDB, steps).Up?
    requires i < |Run(NewDB, steps).st.readers|
    ensures var s := Run(NewDB, steps).st;
            var r := s.readers[i];
            r.snapshot <= |s.m.history| && r.mem < |s.m.tables| && (r.imm.Some? ==> r.imm.value < |s.m.tables|) && r.levels != [] &&
            Get(s, r, k) == ValueAt(s.m.history, k, r.snapshot)
  {
    NewDBInv();
    RunKeepsInv(NewDB, steps);
    var s := Run(NewDB, steps).st;
    assert ReaderMemOk(s.m, s.readers[i]) && ReaderTablesOk(s.disk.files, Extended(s.m), s.readers[i]);
    GetIsLinear(s.m, s, s.readers[i], k);
  }

  lemma EveryIteratorIsLinear(steps: seq<Step>, i: nat, es: seq<Entry>, k: UserKey, v: Value)
    requires Legal(NewDB, steps) && CleanRun(NewDB, steps) && Run(NewDB, steps).Up?
    requires i < |Run(NewDB, steps).st.readers|
    ensures var s := Run(NewDB, steps).st;
            var r := s.readers[i];
            r.mem < |s.m.tables| && (r.imm.Some? ==> r.imm.value < |s.m.tables|) &&
            (ListOf(s, r, es) ==>
               ((k, v) in DbIter.VisibleList(es, r.snapshot) <==> ValueAt(s.m.history, k, r.snapshot) == Some(v)))
  {
    NewDBInv();
    RunKeepsInv(NewDB, steps);
    var s := Run(NewDB, steps).st;
    assert ReaderMemOk(s.m, s.readers[i]) && ReaderTablesOk(s.disk.files, Extended(s.m), s.readers[i]);
    if ListOf(s, s.readers[i], es) { IteratorIsLinear(s.m, s, s.readers[i], es, k, v); }
  }

  // ---------------------------------------------------------------- reads that take time

  // While the database stays open, started writes are only added to.
  ghost predicate GrowsTo(a: Memory, b: Memory) {
    a.history <= b.history && Extended(a) <= Extended(b)
  }

  lemma StepGrows(s: State, step: Step)
    requires Enabled(Up(s), step) && !step.Crash?
    ensures Next(Up(s), step).Up? && GrowsTo(s.m, Next(Up(s), step).st.m)
  {
  }

  ghost predicate NoCrash(steps: seq<Step>) {
    forall i :: 0 <= i < |steps| ==> !steps[i].Crash?
  }

  lemma {:induction false} RunGrows(s: State, steps: seq<Step>)
    requires Legal(Up(s), steps) && NoCrash(steps)
    ensures Run(Up(s), steps).Up? && GrowsTo(s.m, Run(Up(s), steps).st.m)
    decreases |steps|
  {
    if steps != [] {
      StepGrows(s, steps[0]);
      RunGrows(Next(Up(s), steps[0]).st, steps[1..]);
    }
  }

  // A Get that looks into mem, then into imm and then into the version, each at its own time.
  ghost function SlowGet(a: State, b: State, c: State, r: Reader, k: UserKey): Option<Value>
    requires r.mem < |a.m.tables| && (r.imm.Some? ==> r.imm.value < |b.m.tables|) && r.levels != []
  {
    match LookupIn(a.m.tables[r.mem], k, r.snapshot)
    case Hit(e) => ValueOf(e)
    case Miss =>
      match (if r.imm.Some? then LookupIn(b.m.tables[r.imm.value], k, r.snapshot) else Miss)
      case Hit(e) => ValueOf(e)
      case Miss => VersionGet(c.disk.files, r.levels, k, r.snapshot)
  }

  // What a reader's memtable holds, in terms of the later history.
  lemma MemLater(m: Memory, r: Reader, y: History)
    requires ReaderMemOk(m, r) && Extended(m) <= y
    ensures r.lo <= r.hi <= |y| && r.snapshot <= |y| && m.tables[r.mem] <= EntriesOf(y, r.hi, |y|)
    ensures r.hi <= r.snapshot ==> EntriesOf(y, r.hi, r.snapshot) <= m.tables[r.mem]
    ensures r.imm.Some? ==> m.tables[r.imm.value] == EntriesOf(y, r.lo, r.hi)
    ensures r.imm.None? ==> EntriesOf(y, r.lo, r.hi) == {}
  {
    var x, g := Extended(m), y[|Extended(m)|..];
    assert y == x + g;
    EntriesPrefix(x, g, r.lo, r.hi);
    EntriesPrefix(x, g, r.hi, |x|);
    EntriesSplit(y, r.hi, |x|, |y|);
    if r.hi <= r.snapshot { EntriesPrefix(x, g, r.hi, r.snapshot); }
  }

  lemma ValueLater(h: History, y: History, k: UserKey, s: nat)
    requires h <= y && s <= |h|
    ensures ValueAt(y, k, s) == ValueAt(h, k, s)
  {
    assert y == h + y[|h|..];
    ValueAtPrefix(h, y[|h|..], k, s);
  }

  // It is as if the whole Get had happened at once.
  lemma SlowGetIsLinear(a: State, b: State, c: State, r: Reader, k: UserKey)
    requires ReaderMemOk(a.m, r) && ReaderMemOk(b.m, r) && ReaderTablesOk(c.disk.files, Extended(c.m), r) && LevelsOk(c.disk.files, r.levels)
    requires GrowsTo(a.m, b.m) && GrowsTo(b.m, c.m)
    ensures r.levels != [] && SlowGet(a, b, c, r, k) == ValueAt(a.m.history, k, r.snapshot) == ValueAt(c.m.history, k, r.snapshot)
  {
    var y := Extended(c.m);
    MemLater(a.m, r, y);
    MemLater(b.m, r, y);
    LevelsAnswer(c.disk.files, y, r, k);
    SearchInTurn(y, r, a.m.tables[r.mem], TableEntries(c.disk.files, r.Tables()), k);
    ValueLater(a.m.history, c.m.history, k, r.snapshot);
    ValueLater(c.m.history, y, k, r.snapshot);
  }

  // Three moments of a clean run during which the database stays open.
  ghost predicate Moments(sys: System, steps: seq<Step>, a: State, more: seq<Step>, b: State, rest: seq<Step>, c: State) {
    Leads(sys, steps, Up(a)) && NoCrash(more) && Leads(Up(a), more, Up(b)) && NoCrash(rest) && Leads(Up(b), rest, Up(c))
  }

  lemma MomentsKeepInv(steps: seq<Step>, a: State, more: seq<Step>, b: State, rest: seq<Step>, c: State)
    requires Moments(NewDB, steps, a, more, b, rest, c)
    ensures Inv(Up(a)) && Inv(Up(b)) && Inv(Up(c)) && GrowsTo(a.m, b.m) && GrowsTo(b.m, c.m)
  {
    NewDBInv();
    RunKeepsInv(NewDB, steps);
    RunKeepsInv(Up(a), more);
    RunKeepsInv(Up(b), rest);
    RunGrows(a, more);
    RunGrows(b, rest);
  }

  lemma HoldsReader(s: State, r: Reader)
    requires Inv(Up(s)) && r in s.readers
    ensures ReaderMemOk(s.m, r) && ReaderTablesOk(s.disk.files, Extended(s.m), r) && LevelsOk(s.disk.files, r.levels)
  {
    var i :| 0 <= i < |s.readers| && s.readers[i] == r;
  }

  // The mutex is not held while a Get searches: whatever is written, flushed, compacted and deleted
  // between its three lookups, it returns the last write at or below its snapshot.
  lemma EverySlowGetIsLinear(steps: seq<Step>, a: State, more: seq<Step>, b: State, rest: seq<Step>, c: State, r: Reader, k: UserKey)
    requires Moments(NewDB, steps, a, more, b, rest, c) && r in a.readers && r in b.readers && r in c.readers
    ensures r.mem < |a.m.tables| && (r.imm.Some? ==> r.imm.value < |b.m.tables|) && r.levels != [] && r.snapshot <= |a.m.history|
    ensures SlowGet(a, b, c, r, k) == ValueAt(a.m.history, k, r.snapshot) == ValueAt(c.m.history, k, r.snapshot)
  {
    MomentsKeepInv(steps, a, more, b, rest, c);
    HoldsReader(a, r);
    HoldsReader(b, r);
    HoldsReader(c, r);
    SlowGetIsLinear(a, b, c, r, k);
  }

  lemma {:induction false} SameAscendingList(p: seq<(UserKey, Value)>, q: seq<(UserKey, Value)>)
    requires forall i, j :: 0 <= i < j < |p| ==> p[i].0 < p[j].0
    requires forall i, j :: 0 <= i < j < |q| ==> q[i].0 < q[j].0
    requires forall e :: e in p <==> e in q
    ensures p == q
  {
    assert (q == [] || q[0] in p) && (p == [] || p[0] in q);
    if p != [] {
      assert p[0] == q[0];
      TailIn(p, q);
      TailIn(q, p);
      SameAscendingList(p[1..], q[1..]);
    }
  }

  lemma TailIn(p: seq<(UserKey, Value)>, q: seq<(UserKey, Value)>)
    requires p != [] && q != [] && p[0] == q[0] && (forall i, j :: 0 <= i < j < |p| ==> p[i].0 < p[j].0) && forall e :: e in p ==> e in q
    ensures forall e :: e in p[1..] ==> e in q[1..]
  {
    forall e | e in p[1..] ensures e in q[1..] {
      var i :| 0 <= i < |p[1..]| && p[1..][i] == e;
      assert p[i + 1] == e && e in p && p[0].0 < p[i + 1].0;
      var j :| 0 <= j < |q| && q[j] == e;
      assert q[1..][j - 1] == e;
    }
  }

  // Nor does the list under an iterator change, however the memtable below it grows.
  lemma EveryListStays(steps: seq<Step>, a: State, more: seq<Step>, b: State, r: Reader, es: seq<Entry>, fs: seq<Entry>)
    requires Moments(NewDB, steps, a, more, b, [], b) && r in a.readers && r in b.readers
    ensures r.mem < |a.m.tables| && r.mem < |b.m.tables| && (r.imm.Some? ==> r.imm.value < |a.m.tables| && r.imm.value < |b.m.tables|)
    ensures ListOf(a, r, es) && ListOf(b, r, fs) ==> DbIter.VisibleList(es, r.snapshot) == DbIter.VisibleList(fs, r.snapshot)
  {
    MomentsKeepInv(steps, a, more, b, [], b);
    HoldsReader(a, r);
    HoldsReader(b, r);
    if ListOf(a, r, es) && ListOf(b, r, fs) { ListStays(a, b, r, es, fs); }
  }

  lemma ListStays(a: State, b: State, r: Reader, es: seq<Entry>, fs: seq<Entry>)
    requires ReaderMemOk(a.m, r) && ReaderTablesOk(a.disk.files, Extended(a.m), r) && ListOf(a, r, es)
    requires ReaderMemOk(b.m, r) && ReaderTablesOk(b.disk.files, Extended(b.m), r) && ListOf(b, r, fs)
    requires a.m.history <= b.m.history
    ensures DbIter.VisibleList(es, r.snapshot) == DbIter.VisibleList(fs, r.snapshot)
  {
    var p, q := DbIter.VisibleList(es, r.snapshot), DbIter.VisibleList(fs, r.snapshot);
    forall e ensures e in p <==> e in q {
      IteratorIsLinear(a.m, a, r, es, e.0, e.1);
      IteratorIsLinear(b.m, b, r, fs, e.0, e.1);
      ValueLater(a.m.history, b.m.history, e.0, r.snapshot);
    }
    DbIter.VisibleListIsTheView(es, r.snapshot);
    DbIter.VisibleListIsTheView(fs, r.snapshot);
    SameAscendingList(p, q);
  }

  // ... and no reader ever sees part of a write group: the history is the concatenation of whole groups,
  // and every snapshot is the length of a prefix of them.
  lemma SnapshotsBetweenGroups(steps: seq<Step>)
    requires Legal(NewDB, steps) && CleanRun(NewDB, steps)
    ensures ByGroups(Run(NewDB, steps), Groups(NewDB, steps))
  {
    NewDBInv();
    assert ByGroups(NewDB, []);
    RunByGroups(NewDB, steps, []);
    assert [] + Groups(NewDB, steps) == Groups(NewDB, steps);
  }

  // ---------------------------------------------------------------- the results of a compaction

  // What tables and memory show once the results of the compaction in progress are installed.
  ghost function ViewAfter(s: State, k: UserKey, n: nat): Option<Value>
    requires s.bg.compaction.Some?
  {
    var c := s.bg.compaction.value;
    View(Elements(Compaction.Kept(c.merged, |c.merged|, c.smallestSnapshot, c.base)) +
         Outside(s.disk.files, s.disk.levels, c.inputs, InMemory(s.m)), k, n)
  }

  // They show the history at every snapshot from smallest_snapshot on exactly if nothing resurfaces.
  lemma DropsInReadsIff(s: State)
    requires UpInv(s) && LevelInv(s) && Compacting(s)
    ensures NothingResurfaces(s) <==>
            forall k, n: nat :: s.bg.compaction.value.smallestSnapshot <= n <= |s.m.history| ==> ViewAfter(s, k, n) == ValueAt(s.m.history, k, n)
  {
    var c := s.bg.compaction.value;
    DropsAreCleanIff(s);
    MergeIsOk(s.disk.files, s.disk.levels, c.inputs, c.merged, Extended(s.m), s.m.flushed);
    BeforeIsHistory(s, c);
    AfterIsHistoryIff(s, c);
  }

  lemma AfterIsHistoryIff(s: State, c: CompactionState)
    requires MemInv(s.m) && s.bg.compaction == Some(c) && c.smallestSnapshot <= |s.m.history|
    requires MergeOk(s.disk.files, c.inputs, c.merged, Outside(s.disk.files, s.disk.levels, c.inputs, Unflushed(s.m)))
    requires forall k, n: nat :: c.smallestSnapshot <= n <= |s.m.history| ==>
               View(Elements(c.merged) + Outside(s.disk.files, s.disk.levels, c.inputs, Unflushed(s.m)), k, n) == ValueAt(s.m.history, k, n)
    ensures KeepsDatabase(s) <==>
            forall k, n: nat :: c.smallestSnapshot <= n <= |s.m.history| ==> ViewAfter(s, k, n) == ValueAt(s.m.history, k, n)
  {
    ViewsIff(c.merged, Outside(s.disk.files, s.disk.levels, c.inputs, Unflushed(s.m)), c.smallestSnapshot, c.base, s.m.history);
    forall k, n: nat | c.smallestSnapshot <= n <= |s.m.history|
      ensures ViewAfter(s, k, n) == View(Elements(Compaction.Kept(c.merged, |c.merged|, c.smallestSnapshot, c.base)) +
                                         Outside(s.disk.files, s.disk.levels, c.inputs, Unflushed(s.m)), k, n)
    {
      AfterInMemory(s, c, k, n);
    }
  }

  lemma ViewsIff(merged: seq<Entry>, others: set<Entry>, smallest: nat, base: set<UserKey>, h: History)
    requires Sorted(merged) && UniqueTags(Elements(merged) + others) && smallest <= |h|
    requires forall k, n: nat :: smallest <= n <= |h| ==> View(Elements(merged) + others, k, n) == ValueAt(h, k, n)
    ensures Compaction.KeepsViews(merged, others, smallest, base) <==>
            forall k, n: nat :: smallest <= n <= |h| ==> View(Elements(Compaction.Kept(merged, |merged|, smallest, base)) + others, k, n) == ValueAt(h, k, n)
  {
    Compaction.CompactionKeepsViews(merged, others, smallest, base);
    if i, x :| Compaction.Exposed(merged, others, smallest, base, i, x) {
      Compaction.DeletionUndone(merged, others, smallest, base, i, x);
    }
  }

  // Writes that are not yet in the memtable do not count.
  lemma AfterInMemory(s: State, c: CompactionState, k: UserKey, n: nat)
    requires MemInv(s.m) && s.bg.compaction == Some(c) && n <= |s.m.history|
    requires MergeOk(s.disk.files, c.inputs, c.merged, Outside(s.disk.files, s.disk.levels, c.inputs, Unflushed(s.m)))
    ensures ViewAfter(s, k, n) == View(Elements(Compaction.Kept(c.merged, |c.merged|, c.smallestSnapshot, c.base)) +
                                       Outside(s.disk.files, s.disk.levels, c.inputs, Unflushed(s.m)), k, n)
  {
    var kept := Compaction.Kept(c.merged, |c.merged|, c.smallestSnapshot, c.base);
    Compaction.KeptElements(c.merged, |c.merged|, c.smallestSnapshot, c.base);
    MemoryBelow(s.m, n);
    MemoryIsEnough(Elements(c.merged), Elements(kept), TableEntries(s.disk.files, Numbers(s.disk.levels) - c.inputs), InMemory(s.m), Unflushed(s.m), k, n);
  }

  lemma MemoryIsEnough(merged: set<Entry>, kept: set<Entry>, t: set<Entry>, memory: set<Entry>, unflushed: set<Entry>, k: UserKey, n: nat)
    requires kept <= merged && UniqueTags(merged + (t + unflushed)) && memory <= unflushed
    requires forall e :: e in memory && e.seqno <= n <==> e in unflushed && e.seqno <= n
    ensures View(kept + (t + memory), k, n) == View(kept + (t + unflushed), k, n)
  {
    SubsetUnique(merged + (t + unflushed), kept + (t + unflushed));
    PartView(kept + (t + unflushed), kept + (t + memory), k, n);
  }

  lemma BeforeIsHistory(s: State, c: CompactionState)
    requires UpInv(s) && Compacting(s) && s.bg.compaction == Some(c)
    ensures forall k, n: nat :: c.smallestSnapshot <= n <= |s.m.history| ==>
              View(Elements(c.merged) + Outside(s.disk.files, s.disk.levels, c.inputs, Unflushed(s.m)), k, n) == ValueAt(s.m.history, k, n)
  {
    InputsAndOthers(s.disk.files, s.disk.levels, c.inputs, Unflushed(s.m));
    forall k, n: nat | c.smallestSnapshot <= n <= |s.m.history|
      ensures View(TableEntries(s.disk.files, s.disk.Tables()) + Unflushed(s.m), k, n) == ValueAt(s.m.history, k, n)
    {
      TablesAnswer(TableEntries(s.disk.files, s.disk.Tables()), Extended(s.m), s.m.flushed, s.floor, s.m.history, k, n);
    }
  }

  lemma TablesAnswer(t: set<Entry>, x: History, flushed: nat, floor: nat, h: History, k: UserKey, n: nat)
    requires TablesOk(t, x, flushed, floor) && floor <= n <= |h| && h <= x
    ensures View(t + EntriesOf(x, flushed, |x|), k, n) == ValueAt(h, k, n)
  {
    assert Answers(t, x, flushed, k, n);
    EntriesSplit(x, 0, n, |x|);
    ViewIsValueAt(x, EntriesOf(x, 0, |x|), k, n);
    ValueLater(h, x, k, n);
  }

  // ---------------------------------------------------------------- crash recovery

  // Whatever the engine was doing, and however many recoveries die on the way, the database that
  // opens again holds the acknowledged writes and the group in flight exactly if its record was
  // completely written; the sequence numbers continue where they ended.
  lemma CrashRecovery(s: State, torn: bool, failed: seq<Step>, r: Recovery, t: State, k: UserKey)
    requires UpInv(s) && LevelInv(s) && (torn ==> s.m.group.Some? && !s.m.group.value.logged)
    requires forall i :: 0 <= i < |failed| ==> failed[i].FailedRecovery?
    requires Legal(DoCrash(s, torn), failed) && Enabled(Run(DoCrash(s, torn), failed), Open(r))
    requires Next(Run(DoCrash(s, torn), failed), Open(r)) == Up(t)
    ensures UpInv(t) && LevelInv(t) && t.m.history == Durable(s.m) && t.m.lastSequence == |t.m.history| && t.m.imm.None?
    ensures t.m.mem < |t.m.tables| && t.disk.levels != [] && GetLatest(t, k) == ValueAt(Durable(s.m), k, |Durable(s.m)|)
  {
    CrashKeepsInv(s, torn);
    CrashKeepsLevels(s, torn);
    FailedRecoveries(DoCrash(s, torn), failed);
    Opens(Run(DoCrash(s, torn), failed), r, t, k);
  }

  lemma Opens(down: System, r: Recovery, t: State, k: UserKey)
    requires Inv(down) && down.Down? && Enabled(down, Open(r)) && Next(down, Open(r)) == Up(t)
    ensures UpInv(t) && LevelInv(t) && t.m.history == down.history && t.m.lastSequence == |t.m.history| && t.m.imm.None?
    ensures t.m.mem < |t.m.tables| && t.disk.levels != [] && GetLatest(t, k) == ValueAt(down.history, k, |down.history|)
  {
    OpenKeepsInv(down.disk, down.history, down.flushed, down.switched, down.logNumber, down.floor, r);
    OpenKeepsLevels(down.disk, down.history, down.flushed, down.switched, down.logNumber, down.floor, r);
    GetLatestIsLinear(t, k);
  }

  // After a torn record the log may go on in use, and the next one may be lost to the reader.  What the
  // log holds is what was written exactly if that does not happen to a group with operations ...
  lemma GroupIsDurableIff(s: State, lost: bool)
    requires UpInv(s) && WriteEnabled(s, LogGroup(lost))
    ensures var t := DoLogGroup(s, lost);
            LogInv(t.disk, Durable(t.m), t.m.flushed, t.m.switched, t.bg.logNumber) <==> (lost ==> s.m.group.value.ops == [])
  {
    var t, ops := DoLogGroup(s, lost), s.m.group.value.ops;
    if !lost {
      LogGroupKeepsInv(s);
    } else if ops == [] {
      EmptyGroupKeepsInv(s);
    } else {
      LostGroupBreaks(s.disk, s.m.history, ops, s.m.flushed, s.m.switched, s.bg.logNumber);
      assert t.disk == s.disk;
    }
  }

  lemma LostGroupBreaks(d: Disk, h: History, ops: seq<WriteOp>, flushed: nat, switched: nat, n: nat)
    requires LogInv(d, h, flushed, switched, n) && ops != []
    ensures !LogInv(d, h + ops, flushed, switched, n)
  {
    if switched <= |h| {
      InEntries(h, switched, |h|);
      InEntries(h + ops, switched, |h + ops|);
      assert EntryAt(h + ops, |h|) in EntriesOf(h + ops, switched, |h + ops|);
    }
  }

  lemma LostGroupChangesNoFile(s: State)
    requires WriteEnabled(s, LogGroup(true))
    ensures var down := DoCrash(DoLogGroup(s, true), false);
            down.disk == DoCrash(s, false).disk && down.history == s.m.history + s.m.group.value.ops
  {
    assert s.disk.logs[s.bg.logNumber := s.disk.logs[s.bg.logNumber]] == s.disk.logs;
  }

  // ... and a group that is lost, though acknowledged, is not recovered: the database opens with what
  // was written before it.
  lemma LostGroupIsNotRecovered(s: State, r: Recovery, k: UserKey)
    requires UpInv(s) && LevelInv(s) && WriteEnabled(s, LogGroup(true)) && s.m.group.value.ops != []
    requires Enabled(DoCrash(DoLogGroup(s, true), false), Open(r))
    ensures var t := Next(DoCrash(DoLogGroup(s, true), false), Open(r)).st;
            t.m.history == s.m.history + s.m.group.value.ops && t.m.lastSequence == |s.m.history| < |t.m.history| &&
            t.m.mem < |t.m.tables| && t.m.imm.None? && t.disk.levels != [] &&
            GetLatest(t, k) == ValueAt(s.m.history, k, |s.m.history|)
  {
    LostGroupChangesNoFile(s);
    assert Legal(DoCrash(s, false), []) && Run(DoCrash(s, false), []) == DoCrash(s, false);
    CrashRecovery(s, false, [], r, Next(DoCrash(s, false), Open(r)).st, k);
    SameDiskSameAnswer(DoCrash(s, false), DoCrash(DoLogGroup(s, true), false), r, k);
  }

  // What opening a database gives its readers depends on its files alone.
  lemma SameDiskSameAnswer(a: System, b: System, r: Recovery, k: UserKey)
    requires a.Down? && b.Down? && a.disk == b.disk && OpenEnabled(a.disk, r)
    ensures var s, t := Next(a, Open(r)).st, Next(b, Open(r)).st;
            s.m.lastSequence == t.m.lastSequence && s.m.mem == t.m.mem && s.m.tables == t.m.tables && s.m.imm == t.m.imm == None &&
            s.m.mem < |s.m.tables| && s.disk == t.disk && s.disk.levels != [] && GetLatest(s, k) == GetLatest(t, k)
  {
  }

  // Get without a snapshot.
  ghost function GetLatest(s: State, k: UserKey): Option<Value>
    requires s.m.mem < |s.m.tables| && (s.m.imm.Some? ==> s.m.imm.value < |s.m.tables|) && s.disk.levels != []
  {
    Get(s, NewReader(s, s.m.lastSequence), k)
  }

  lemma GetLatestIsLinear(s: State, k: UserKey)
    requires UpInv(s) && LevelInv(s)
    ensures GetLatest(s, k) == ValueAt(s.m.history, k, |s.m.history|)
  {
    NewReaderOk(s, s.m.lastSequence);
    GetIsLinear(s.m, s, NewReader(s, s.m.lastSequence), k);
  }

  lemma {:induction false} FailedRecoveries(sys: System, failed: seq<Step>)
    requires Inv(sys) && sys.Down? && Legal(sys, failed)
    requires forall i :: 0 <= i < |failed| ==> failed[i].FailedRecovery?
    ensures var t := Run(sys, failed);
            Inv(t) && t.Down? && t.history == sys.history && t.disk.levels == sys.disk.levels && t.disk.manifestLog == sys.disk.manifestLog
    decreases |failed|
  {
    if failed != [] {
      FailedRecoveryKeepsInv(sys, failed[0]);
      FailedRecoveryKeepsLevels(sys, failed[0]);
      FailedRecoveries(Next(sys, failed[0]), failed[1..]);
    }
  }

  // ---------------------------------------------------------------- files

  // What mem and imm hold can be rebuilt from the logs from LogNumber on.
  lemma MemoryIsBacked(d: Disk, m: Memory, logNumber: nat)
    requires MemInv(m) && LogInv(d, Durable(m), m.flushed, m.switched, logNumber)
    ensures m.tables[m.mem] <= LogEntries(LogOf(d.logs, logNumber))
    ensures m.imm.Some? ==> m.tables[m.imm.value] == Replay(d.logs, d.manifestLog, logNumber)
  {
    if m.group.Some? && !m.group.value.logged {
      EntriesPrefix(m.history, m.group.value.ops, m.switched, |m.history|);
      EntriesPrefix(m.history, m.group.value.ops, m.flushed, m.switched);
    } else {
      EntriesSplit(Durable(m), m.switched, |m.history| + Applied(m), |Durable(m)|);
    }
  }

  // DeleteObsoleteFiles keeps every table of a live version and every pending output, and the logs
  // from which mem and imm could be rebuilt.
  lemma DeleteObsoleteFilesIsSafe(s: State)
    requires UpInv(s) && s.bg.flush.None?
    ensures var d := DoDeleteObsoleteFiles(s).disk;
            LiveFiles(s.disk.Tables(), s.readers, s.bg.compaction) <= d.files.Keys &&
            (forall n :: n in s.bg.pending && n in s.disk.files ==> n in d.files) &&
            (forall n :: n in d.files ==> n in s.disk.files && d.files[n] == s.disk.files[n]) &&
            s.m.tables[s.m.mem] <= LogEntries(LogOf(d.logs, s.bg.logNumber)) &&
            (s.m.imm.Some? ==> s.m.tables[s.m.imm.value] == Replay(d.logs, d.manifestLog, s.bg.logNumber))
  {
    var d := DoDeleteObsoleteFiles(s).disk;
    MemoryIsBacked(s.disk, s.m, s.bg.logNumber);
    SameReplay(s.disk.logs, d.logs, s.disk.manifestLog, s.bg.logNumber);
  }

  // A number handed out next is not in use: by no log, no pending output and no live table.
  lemma NewFileNumberIsFresh(s: State)
    requires UpInv(s)
    ensures var n := s.bg.nextFile;
            n !in s.disk.logs && n !in s.bg.pending && n !in LiveFiles(s.disk.Tables(), s.readers, s.bg.compaction) &&
            (s.bg.flush.Some? ==> n != s.bg.flush.value.number)
  {
  }
}
