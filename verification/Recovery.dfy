/**
 DBImpl::Recover and RecoverLogFile (db_impl.cc): replaying the logs of a closed database.
 */
module Recovery {
  import opened InternalKeys
  import opened Options
  import opened Levels
  import opened LevelEdits
  import opened Engine

  // ---------------------------------------------------------------- what has been written

  // A level-0 table written during recovery: the records of a log from one position up to another.
  datatype Table = Table(meta: FileMeta, content: set<Entry>, log: nat, first: nat, end: nat)

  // The tables in the order of writing.
  datatype Tables = NoTables | Add(front: Tables, last: Table)

  ghost function Contents(ts: Tables): set<Entry> {
    if ts.NoTables? then {} else Contents(ts.front) + ts.last.content
  }

  function FilesOf(ts: Tables): Files {
    if ts.NoTables? then map[] else FilesOf(ts.front)[ts.last.meta.number := ts.last.content]
  }

  function MetasOf(ts: Tables): Level {
    if ts.NoTables? then [] else MetasOf(ts.front) + [ts.last.meta]
  }

  // The metadata describe the content.
  ghost predicate MetaOk(t: Table) {
    t.meta.smallest in t.content && t.meta.largest in t.content &&
    forall e :: e in t.content ==> AtOrBefore(t.meta.smallest, e) && AtOrBefore(e, t.meta.largest)
  }

  // New numbers in order, for records in order, up to record q of log n.
  ghost predicate WrittenOk(d: Disk, ts: Tables, from: nat, next: nat, n: nat, q: nat) {
    if ts.NoTables? then from <= next
    else
      var t := ts.last;
      t.meta.number < next && t.log in d.logs && d.manifestLog <= t.log && t.first <= t.end <= |d.logs[t.log].records| &&
      (t.log < n || (t.log == n && t.end <= q)) && t.content == EntriesSince(d.logs[t.log].records, t.first, t.end) && MetaOk(t) &&
      WrittenOk(d, ts.front, from, t.meta.number, t.log, t.first)
  }

  // full(n, j) stands for mem->ApproximateMemoryUsage() passing write_buffer_size after record j of log n.
  type Filling = (nat, nat) -> bool

  // The memtable after i records was begun at record q, behind a full one if not at the start.
  predicate Begun(full: Filling, n: nat, q: nat, i: nat) {
    q <= i && if q == i then q > 0 ==> full(n, q - 1) else !full(n, i - 1) && Begun(full, n, q, i - 1)
  }

  // A table ends where the memtable was full or the log ended, and not before.
  predicate CutAt(d: Disk, full: Filling, n: nat, first: nat, end: nat) {
    n in d.logs && first < end <= |d.logs[n].records| && Begun(full, n, first, end - 1) && (full(n, end - 1) || end == |d.logs[n].records|)
  }

  predicate TablesCut(d: Disk, full: Filling, ts: Tables) {
    ts.Add? ==> TablesCut(d, full, ts.front) && CutAt(d, full, ts.last.log, ts.last.first, ts.last.end)
  }

  predicate NeverFull(full: Filling, n: nat, l: LogFile) {
    forall j :: 0 <= j < |l.records| ==> !full(n, j)
  }

  lemma {:induction false} WrittenMore(d: Disk, ts: Tables, from: nat, next: nat, n: nat, q: nat, next': nat, n': nat, q': nat)
    requires WrittenOk(d, ts, from, next, n, q) && next <= next' && (n < n' || (n == n' && q <= q'))
    ensures WrittenOk(d, ts, from, next', n', q') && from <= next
  {
    if ts.Add? {
      var t := ts.last;
      WrittenMore(d, ts.front, from, t.meta.number, t.log, t.first, t.meta.number, t.log, t.first);
    }
  }

  // Everything in the tables was replayed before what begins at record q of log n.
  lemma {:induction false} WrittenComesFirst(d: Disk, ts: Tables, from: nat, next: nat, n: nat, q: nat, i: nat)
    requires WrittenOk(d, ts, from, next, n, q) && n in d.logs && d.manifestLog <= n && i <= |d.logs[n].records|
    ensures forall a, b :: a in Contents(ts) && b in EntriesSince(d.logs[n].records, q, i) ==> ReplayedBefore(d.logs, d.manifestLog, a, b)
  {
    if ts.Add? {
      var t := ts.last;
      WrittenMore(d, ts.front, from, t.meta.number, t.log, t.first, next, n, q);
      WrittenComesFirst(d, ts.front, from, next, n, q, i);
      forall a, b | a in t.content && b in EntriesSince(d.logs[n].records, q, i) ensures ReplayedBefore(d.logs, d.manifestLog, a, b) {
        var k := InSince(d.logs[t.log].records, t.first, t.end, a);
        var j := InSince(d.logs[n].records, q, i, b);
        assert ReplayedAt(d.logs, d.manifestLog, t.log, k, a) && ReplayedAt(d.logs, d.manifestLog, n, j, b);
      }
    }
  }

  lemma {:induction false} WrittenFiles(d: Disk, ts: Tables, from: nat, next: nat, n: nat, q: nat)
    requires WrittenOk(d, ts, from, next, n, q)
    ensures var files := FilesOf(ts);
            (forall n :: n in files ==> from <= n < next && files[n] != {}) && TableEntries(files, files.Keys) == Contents(ts) &&
            TablesInOrder(d, files)
  {
    if ts.Add? {
      var front, t := ts.front, ts.last;
      var before := FilesOf(front);
      WrittenFiles(d, front, from, t.meta.number, t.log, t.first);
      WrittenMore(d, front, from, t.meta.number, t.log, t.first, t.meta.number, t.log, t.first);
      WrittenComesFirst(d, front, from, t.meta.number, t.log, t.first, t.end);
      FileAdded(before, t.meta.number, t.content);
      forall x, a, b | x in before && a in before[x] && b in t.content ensures ReplayedBefore(d.logs, d.manifestLog, a, b) {
        assert a in TableEntries(before, before.Keys);
      }
    }
  }

  lemma FileAdded(files: Files, n: nat, content: set<Entry>)
    requires n !in files
    ensures TableEntries(files[n := content], files[n := content].Keys) == TableEntries(files, files.Keys) + content
  {
    var t := files[n := content];
    forall e ensures e in TableEntries(t, t.Keys) <==> e in TableEntries(files, files.Keys) || e in content {
      if e in content { assert n in t.Keys && e in t[n]; }
      if i :| i in files.Keys && e in files[i] { assert i in t.Keys && e in t[i]; }
    }
  }

  lemma {:induction false} WrittenMetas(d: Disk, ts: Tables, from: nat, next: nat, n: nat, q: nat)
    requires WrittenOk(d, ts, from, next, n, q)
    ensures var files, metas := FilesOf(ts), MetasOf(ts);
            NumbersOf(metas) == files.Keys && Distinct(metas) && forall f :: f in metas ==> FileOk(files, f)
  {
    if ts.Add? {
      var front, t := ts.front, ts.last;
      WrittenMetas(d, front, from, t.meta.number, t.log, t.first);
      WrittenFiles(d, front, from, t.meta.number, t.log, t.first);
      MetaAdded(FilesOf(front), MetasOf(front), t);
    }
  }

  lemma MetaAdded(files: Files, metas: Level, t: Table)
    requires NumbersOf(metas) == files.Keys && Distinct(metas) && (forall f :: f in metas ==> FileOk(files, f)) && MetaOk(t)
    requires forall n :: n in files ==> n < t.meta.number
    ensures var files', metas' := files[t.meta.number := t.content], metas + [t.meta];
            NumbersOf(metas') == files'.Keys && Distinct(metas') && forall f :: f in metas' ==> FileOk(files', f)
  {
    var files', metas' := files[t.meta.number := t.content], metas + [t.meta];
    forall f | f in metas ensures f.number < t.meta.number && FileOk(files', f) {
      assert f.number in NumbersOf(metas) && FileOk(files, f);
    }
    assert NumbersOf(metas') == NumbersOf(metas) + {t.meta.number};
    assert forall j :: 0 <= j < |metas| ==> metas[j] in metas;
  }

  // ---------------------------------------------------------------- records

  // The entries of the first n records, on top of others.
  ghost function RecordsEntries(before: set<Entry>, records: seq<Record>, n: nat): set<Entry>
    requires n <= |records|
  {
    if n == 0 then before else RecordsEntries(before, records, n - 1) + RecordEntries(records[n - 1])
  }

  // Those of the records from q on.
  ghost function EntriesSince(records: seq<Record>, q: nat, n: nat): set<Entry>
    requires n <= |records|
  {
    if n <= q then {} else EntriesSince(records, q, n - 1) + RecordEntries(records[n - 1])
  }

  lemma {:induction false} RecordsAreLog(before: set<Entry>, l: LogFile, n: nat)
    requires n <= |l.records|
    ensures RecordsEntries(before, l.records, n) == before + LogEntries(LogFile(l.records[..n], l.torn))
  {
    if n > 0 {
      RecordsAreLog(before, l, n - 1);
      assert l.records[..n] == l.records[..n - 1] + [l.records[n - 1]];
      assert forall r :: r in l.records[..n] <==> r in l.records[..n - 1] || r == l.records[n - 1];
    }
  }

  lemma AllRecords(before: set<Entry>, l: LogFile)
    ensures RecordsEntries(before, l.records, |l.records|) == before + LogEntries(l)
  {
    RecordsAreLog(before, l, |l.records|);
    assert l.records[..|l.records|] == l.records;
  }

  lemma {:induction false} InSince(records: seq<Record>, q: nat, n: nat, e: Entry) returns (i: nat)
    requires n <= |records| && e in EntriesSince(records, q, n)
    ensures q <= i < n && e in RecordEntries(records[i])
  {
    if e in RecordEntries(records[n - 1]) { i := n - 1; } else { i := InSince(records, q, n - 1, e); }
  }

  lemma {:induction false} RecordsSplit(before: set<Entry>, records: seq<Record>, q: nat, n: nat)
    requires q <= n <= |records|
    ensures RecordsEntries(before, records, n) == RecordsEntries(before, records, q) + EntriesSince(records, q, n)
  {
    if n > q { RecordsSplit(before, records, q, n - 1); }
  }

  lemma AllSince(l: LogFile)
    ensures EntriesSince(l.records, 0, |l.records|) == LogEntries(l)
  {
    RecordsSplit({}, l.records, 0, |l.records|);
    AllRecords({}, l);
    assert {} + LogEntries(l) == LogEntries(l);
    assert {} + EntriesSince(l.records, 0, |l.records|) == EntriesSince(l.records, 0, |l.records|);
  }

  // WriteBatchInternal::InsertInto a memtable.
  method InsertInto(r: Record, mem0: set<Entry>) returns (mem: set<Entry>)
    ensures mem == mem0 + RecordEntries(r)
  {
    mem := mem0;
    var i := 0;
    while i < |r.ops|
      invariant 0 <= i <= |r.ops|
      invariant mem == mem0 + set j | 0 <= j < i :: RecordEntry(r, j)
    {
      mem := mem + {RecordEntry(r, i)};
      i := i + 1;
    }
  }

  // The first and the last entry of a memtable, which BuildTable records.
  method FirstAndLast(mem: set<Entry>) returns (first: Entry, last: Entry)
    requires mem != {}
    ensures first in mem && last in mem && forall e :: e in mem ==> AtOrBefore(first, e) && AtOrBefore(e, last)
  {
    first :| first in mem;
    last := first;
    var left := mem - {first};
    while left != {}
      invariant left <= mem && first in mem && last in mem
      invariant forall e :: e in mem && e !in left ==> AtOrBefore(first, e) && AtOrBefore(e, last)
    {
      var e :| e in left;
      if Before(e, first) { first := e; }
      if Before(last, e) { last := e; }
      left := left - {e};
    }
  }

  // WriteLevel0Table during recovery, for the records of log n from q up to i; a table without entries is
  // not added.
  method WriteLevel0Table(ghost d: Disk, ghost full: Filling, n: nat, q: nat, i: nat, mem: set<Entry>, ts0: Tables, ghost from: nat,
                          next0: nat)
    returns (ts: Tables, next: nat)
    requires TablesCut(d, full, ts0) && CutAt(d, full, n, q, i)
    ensures TablesCut(d, full, ts)
    requires n in d.logs && d.manifestLog <= n && q <= i <= |d.logs[n].records| && mem == EntriesSince(d.logs[n].records, q, i)
    requires WrittenOk(d, ts0, from, next0, n, q)
    ensures WrittenOk(d, ts, from, next, n, i) && next == next0 + 1 && Contents(ts) == Contents(ts0) + mem
  {
    next, ts := next0 + 1, ts0;
    if mem != {} {
      var first, last := FirstAndLast(mem);
      ts := Add(ts0, Table(FileMeta(next0, first, last), mem, n, q, i));
    } else {
      WrittenMore(d, ts0, from, next0, n, q, next0 + 1, n, i);
    }
  }

  function Held(mem: Option<set<Entry>>): set<Entry> {
    if mem.Some? then mem.value else {}
  }

  // ---------------------------------------------------------------- one log

  // The largest sequence number in the first n records, and at least m.
  function MaxLast(records: seq<Record>, n: nat, m: nat): nat
    requires n <= |records|
  {
    if n == 0 then m else Larger(MaxLast(records, n - 1, m), records[n - 1])
  }

  function Larger(m: nat, r: Record): nat {
    if RecordLast(r) > m then RecordLast(r) else m
  }

  lemma {:induction false} MaxLastIs(records: seq<Record>, n: nat, m: nat)
    requires n <= |records|
    ensures m <= MaxLast(records, n, m) && forall j :: 0 <= j < n ==> RecordLast(records[j]) <= MaxLast(records, n, m)
    ensures MaxLast(records, n, m) == m || exists j :: 0 <= j < n && RecordLast(records[j]) == MaxLast(records, n, m)
  {
    if n > 0 { MaxLastIs(records, n - 1, m); }
  }

  lemma {:induction false} BegunIs(full: Filling, n: nat, q: nat, i: nat)
    requires Begun(full, n, q, i)
    ensures (q > 0 ==> full(n, q - 1)) && forall j :: q <= j < i ==> !full(n, j)
  {
    if q < i { BegunIs(full, n, q, i - 1); }
  }

  lemma BegunNext(full: Filling, n: nat, q: nat, i: nat)
    requires Begun(full, n, q, i)
    ensures Begun(full, n, if full(n, i) then i + 1 else q, i + 1)
  {
  }

  // A turn of the loop of RecoverLogFile: record i goes into the memtable, which was begun at record q and
  // becomes a table when it is full.
  method ReplayRecord(d: Disk, full: Filling, n: nat, q0: nat, i: nat, mem0: Option<set<Entry>>, ts0: Tables, ghost from: nat, next0: nat,
                      ghost before: set<Entry>)
    returns (mem: Option<set<Entry>>, ts: Tables, next: nat, q: nat)
    requires n in d.logs && d.manifestLog <= n && q0 <= i < |d.logs[n].records| && WrittenOk(d, ts0, from, next0, n, q0)
    requires Held(mem0) == EntriesSince(d.logs[n].records, q0, i) && Contents(ts0) == RecordsEntries(before, d.logs[n].records, q0)
    requires TablesCut(d, full, ts0) && Begun(full, n, q0, i)
    ensures WrittenOk(d, ts, from, next, n, q) && next0 <= next && (if full(n, i) then q == i + 1 && mem.None? else q == q0 && ts == ts0 && mem.Some?)
    ensures TablesCut(d, full, ts) && Begun(full, n, q, i + 1)
    ensures Held(mem) == EntriesSince(d.logs[n].records, q, i + 1) && Contents(ts) == RecordsEntries(before, d.logs[n].records, q)
  {
    var filled := InsertInto(d.logs[n].records[i], Held(mem0));
    assert filled == EntriesSince(d.logs[n].records, q0, i + 1);
    BegunNext(full, n, q0, i);
    if full(n, i) {
      RecordsSplit(before, d.logs[n].records, q0, i + 1);
      ts, next := WriteLevel0Table(d, full, n, q0, i + 1, filled, ts0, from, next0);
      mem, q := None, i + 1;
    } else {
      mem, ts, next, q := Some(filled), ts0, next0, q0;
    }
  }

  // The loop of RecoverLogFile; compacted stands for its count of compactions.
  method ReplayRecords(d: Disk, n: nat, full: Filling, ts0: Tables, ghost from: nat, next0: nat, maxSequence0: nat)
    returns (mem: Option<set<Entry>>, ts: Tables, next: nat, maxSequence: nat, compacted: bool, q: nat)
    requires n in d.logs && d.manifestLog <= n && WrittenOk(d, ts0, from, next0, n, 0) && TablesCut(d, full, ts0)
    ensures TablesCut(d, full, ts) && Begun(full, n, q, |d.logs[n].records|) && (mem.Some? <==> q < |d.logs[n].records|)
    ensures q <= |d.logs[n].records| && WrittenOk(d, ts, from, next, n, q) && next0 <= next
    ensures Contents(ts) == RecordsEntries(Contents(ts0), d.logs[n].records, q)
    ensures Held(mem) == EntriesSince(d.logs[n].records, q, |d.logs[n].records|)
    ensures (compacted <==> q > 0) && (!compacted ==> ts == ts0)
    ensures maxSequence == MaxLast(d.logs[n].records, |d.logs[n].records|, maxSequence0)
  {
    var records := d.logs[n].records;
    ghost var before := Contents(ts0);
    ts, next, maxSequence, mem, compacted, q := ts0, next0, maxSequence0, None, false, 0;
    var i := 0;
    while i < |records|
      invariant 0 <= q <= i <= |records| && next0 <= next
      invariant maxSequence == MaxLast(records, i, maxSequence0)
      invariant (compacted <==> q > 0) && (!compacted ==> ts == ts0)
      invariant TablesCut(d, full, ts) && Begun(full, n, q, i) && (mem.Some? <==> q < i)
      invariant Held(mem) == EntriesSince(records, q, i)
      invariant Contents(ts) == RecordsEntries(before, records, q)
      invariant WrittenOk(d, ts, from, next, n, q)
    {
      maxSequence := Larger(maxSequence, records[i]);
      compacted := compacted || full(n, i);
      mem, ts, next, q := ReplayRecord(d, full, n, q, i, mem, ts, from, next, before);
      i := i + 1;
    }
  }

  // Returns the memtable that stays in use when the log is reused, as it is exactly when it is the last log
  // and never filled a memtable.
  method RecoverLogFile(d: Disk, n: nat, full: Filling, reuse: bool, lastLog: bool, ts0: Tables, ghost from: nat, next0: nat, maxSequence0: nat)
    returns (kept: Option<set<Entry>>, ts: Tables, next: nat, maxSequence: nat, save: bool)
    requires n in d.logs && d.manifestLog <= n && WrittenOk(d, ts0, from, next0, n, 0) && TablesCut(d, full, ts0)
    ensures WrittenOk(d, ts, from, next, n, |d.logs[n].records|) && next0 <= next && TablesCut(d, full, ts)
    ensures kept.Some? <==> reuse && lastLog && NeverFull(full, n, d.logs[n])
    ensures (save <==> kept.None? && d.logs[n].records != []) && (ts != ts0 ==> save)
    ensures if kept.Some? then reuse && lastLog && ts == ts0 && kept.value == LogEntries(d.logs[n])
            else Contents(ts) == Contents(ts0) + LogEntries(d.logs[n])
    ensures maxSequence == MaxLast(d.logs[n].records, |d.logs[n].records|, maxSequence0)
  {
    var mem, compacted, q;
    mem, ts, next, maxSequence, compacted, q := ReplayRecords(d, n, full, ts0, from, next0, maxSequence0);
    kept, save := None, compacted;
    BegunIs(full, n, q, |d.logs[n].records|);
    AllRecords(Contents(ts0), d.logs[n]);
    RecordsSplit(Contents(ts0), d.logs[n].records, q, |d.logs[n].records|);
    if reuse && lastLog && !compacted {
      kept := Some(Held(mem));
      AllSince(d.logs[n]);
      WrittenMore(d, ts, from, next, n, q, next, n, |d.logs[n].records|);
    } else if mem.Some? {
      // Not reused, so it becomes a table as well.
      save := true;
      ts, next := WriteLevel0Table(d, full, n, q, |d.logs[n].records|, mem.value, ts, from, next);
    } else {
      WrittenMore(d, ts, from, next, n, q, next, n, |d.logs[n].records|);
    }
  }

  // ---------------------------------------------------------------- all logs

  predicate Ascending(s: seq<nat>, n: nat)
    requires n <= |s|
  {
    n <= 1 || (Ascending(s, n - 1) && s[n - 2] < s[n - 1])
  }

  lemma {:induction false} AscendingPairs(s: seq<nat>, n: nat)
    requires n <= |s| && Ascending(s, n)
    ensures forall i, j :: 0 <= i < j < n ==> s[i] < s[j]
  {
    if n > 1 { AscendingPairs(s, n - 1); }
  }

  // logs lists the logs to replay in the order Recover has sorted them into.
  ghost predicate LogsToReplay(d: Disk, logs: seq<nat>) {
    Ascending(logs, |logs|) &&
    (forall i :: 0 <= i < |logs| ==> logs[i] in d.logs && d.manifestLog <= logs[i]) &&
    (forall n :: n in d.logs && d.manifestLog <= n ==> n in logs)
  }

  lemma ReplayNext(d: Disk, logs: seq<nat>, i: nat)
    requires LogsToReplay(d, logs) && i < |logs|
    ensures Replay(d.logs, d.manifestLog, logs[i] + 1) == Replay(d.logs, d.manifestLog, logs[i]) + LogEntries(d.logs[logs[i]])
    ensures i + 1 < |logs| ==> Replay(d.logs, d.manifestLog, logs[i + 1]) == Replay(d.logs, d.manifestLog, logs[i] + 1)
    ensures i == 0 ==> Replay(d.logs, d.manifestLog, logs[0]) == {}
  {
    AscendingPairs(logs, |logs|);
    forall n | n in d.logs && d.manifestLog <= n ensures exists j :: 0 <= j < |logs| && logs[j] == n {
      assert n in logs;
    }
  }

  // What the logs before position i of the list say about the last sequence.
  ghost predicate SequenceSoFar(d: Disk, logs: seq<nat>, i: nat, m: nat)
    requires LogsToReplay(d, logs) && i <= |logs|
  {
    (forall n, q :: InLogs(d.logs, d.manifestLog, n, q) && (i < |logs| ==> n < logs[i]) ==> RecordLast(q) <= m) &&
    (m == 0 || exists n, q :: InLogs(d.logs, d.manifestLog, n, q) && RecordLast(q) == m)
  }

  lemma SequenceNext(d: Disk, logs: seq<nat>, i: nat, m0: nat, m: nat)
    requires LogsToReplay(d, logs) && i < |logs| && SequenceSoFar(d, logs, i, m0)
    requires m == MaxLast(d.logs[logs[i]].records, |d.logs[logs[i]].records|, m0)
    ensures SequenceSoFar(d, logs, i + 1, m)
  {
    AscendingPairs(logs, |logs|);
    MaxLastIs(d.logs[logs[i]].records, |d.logs[logs[i]].records|, m0);
    forall n, q | InLogs(d.logs, d.manifestLog, n, q) && (i + 1 < |logs| ==> n < logs[i + 1]) ensures RecordLast(q) <= m {
      assert n in logs;
      assert n < logs[i] || n == logs[i];
    }
    if m != m0 {
      var j :| 0 <= j < |d.logs[logs[i]].records| && RecordLast(d.logs[logs[i]].records[j]) == m;
      assert InLogs(d.logs, d.manifestLog, logs[i], d.logs[logs[i]].records[j]);
    }
  }

  // What the tables written before position i hold; the reused log is left out.
  ghost function TablesSoFar(d: Disk, logs: seq<nat>, i: nat, reused: bool): set<Entry>
    requires LogsToReplay(d, logs) && i <= |logs|
  {
    if i == 0 then {} else Replay(d.logs, d.manifestLog, if reused then logs[i - 1] else logs[i - 1] + 1)
  }

  lemma TablesNext(d: Disk, logs: seq<nat>, i: nat, written0: set<Entry>, written: set<Entry>, kept: Option<set<Entry>>)
    requires LogsToReplay(d, logs) && i < |logs| && written0 == TablesSoFar(d, logs, i, false)
    requires if kept.Some? then written == written0 else written == written0 + LogEntries(d.logs[logs[i]])
    ensures written == TablesSoFar(d, logs, i + 1, kept.Some?)
  {
    SoFarIsReplay(d, logs, i);
    if kept.None? { ReplayNext(d, logs, i); }
  }

  lemma SoFarIsReplay(d: Disk, logs: seq<nat>, i: nat)
    requires LogsToReplay(d, logs) && i < |logs|
    ensures TablesSoFar(d, logs, i, false) == Replay(d.logs, d.manifestLog, logs[i])
  {
    ReplayNext(d, logs, if i > 0 then i - 1 else 0);
  }

  function NextLog(logs: seq<nat>, i: nat): nat
    requires i <= |logs|
  {
    if i < |logs| then logs[i] else if logs == [] then 0 else logs[|logs| - 1] + 1
  }

  // One of the first n logs holds records.
  ghost predicate HasRecords(d: Disk, logs: seq<nat>, n: nat)
    requires LogsToReplay(d, logs) && n <= |logs|
  {
    n > 0 && (HasRecords(d, logs, n - 1) || d.logs[logs[n - 1]].records != [])
  }

  // The logs that become tables.
  function Replayed(logs: seq<nat>, i: nat, reused: bool): (n: nat)
    ensures n <= i
  {
    if reused && i > 0 then i - 1 else i
  }

  ghost predicate IsReused(d: Disk, logs: seq<nat>, full: Filling, reuseLogs: bool)
    requires LogsToReplay(d, logs)
  {
    reuseLogs && logs != [] && NeverFull(full, logs[|logs| - 1], d.logs[logs[|logs| - 1]])
  }

  // What the loop of Recover has done when i logs have been replayed.
  ghost predicate LogsDone(d: Disk, logs: seq<nat>, full: Filling, reuseLogs: bool, i: nat,
                           ts: Tables, next: nat, maxSequence: nat, reused: bool, wrote: bool)
    requires LogsToReplay(d, logs) && i <= |logs|
  {
    WrittenOk(d, ts, d.manifestNext, next, NextLog(logs, i), 0) && TablesCut(d, full, ts) &&
    Contents(ts) == TablesSoFar(d, logs, i, reused) && SequenceSoFar(d, logs, i, maxSequence) &&
    (reused <==> i == |logs| && IsReused(d, logs, full, reuseLogs)) &&
    (wrote <==> HasRecords(d, logs, Replayed(logs, i, reused))) && (ts.Add? ==> wrote) && Below(logs, 0, i, next)
  }

  // The logs from lo up to n are numbered below next.
  predicate Below(logs: seq<nat>, lo: nat, n: nat, next: nat)
    requires lo <= n <= |logs|
    decreases n - lo
  {
    lo == n || (logs[lo] < next && Below(logs, lo + 1, n, next))
  }

  lemma {:induction false} BelowNext(logs: seq<nat>, lo: nat, n: nat, next: nat, next': nat)
    requires lo <= n < |logs| && Below(logs, lo, n, next) && next <= next' && logs[n] < next'
    ensures Below(logs, lo, n + 1, next')
    decreases n - lo
  {
    if lo < n { BelowNext(logs, lo + 1, n, next, next'); }
  }

  lemma {:induction false} BelowAt(logs: seq<nat>, lo: nat, n: nat, next: nat)
    requires lo <= n <= |logs| && Below(logs, lo, n, next)
    ensures forall j :: lo <= j < n ==> logs[j] < next
    decreases n - lo
  {
    if lo < n { BelowAt(logs, lo + 1, n, next); }
  }

  // One turn of the loop of Recover: replay a log, then MarkFileNumberUsed.
  method ReplayLog(d: Disk, logs: seq<nat>, i: nat, full: Filling, reuseLogs: bool, ts0: Tables, next0: nat, maxSequence0: nat, wrote0: bool)
    returns (ts: Tables, next: nat, maxSequence: nat, reused: bool, wrote: bool)
    requires LogsToReplay(d, logs) && i < |logs| && LogsDone(d, logs, full, reuseLogs, i, ts0, next0, maxSequence0, false, wrote0)
    ensures LogsDone(d, logs, full, reuseLogs, i + 1, ts, next, maxSequence, reused, wrote)
  {
    var kept, now;
    var number := logs[i];
    kept, ts, next, maxSequence, now := RecoverLogFile(d, number, full, reuseLogs, i == |logs| - 1, ts0, d.manifestNext, next0, maxSequence0);
    reused, wrote := kept.Some?, wrote0 || now;
    LogReplayed(d, logs, i, full, reuseLogs, ts0, next0, maxSequence0, wrote0, kept, ts, next, maxSequence, now);
    if next <= number { next := number + 1; }
  }

  // What RecoverLogFile has done for log i makes the next turn right.
  lemma LogReplayed(d: Disk, logs: seq<nat>, i: nat, full: Filling, reuseLogs: bool, ts0: Tables, next0: nat, maxSequence0: nat, wrote0: bool,
                    kept: Option<set<Entry>>, ts: Tables, next: nat, maxSequence: nat, now: bool)
    requires LogsToReplay(d, logs) && i < |logs| && LogsDone(d, logs, full, reuseLogs, i, ts0, next0, maxSequence0, false, wrote0)
    requires next0 <= next && TablesCut(d, full, ts) && maxSequence == MaxLast(d.logs[logs[i]].records, |d.logs[logs[i]].records|, maxSequence0)
    requires WrittenOk(d, ts, d.manifestNext, next, logs[i], |d.logs[logs[i]].records|)
    requires kept.Some? <==> reuseLogs && i == |logs| - 1 && NeverFull(full, logs[i], d.logs[logs[i]])
    requires if kept.Some? then ts == ts0 else Contents(ts) == Contents(ts0) + LogEntries(d.logs[logs[i]])
    requires (now <==> kept.None? && d.logs[logs[i]].records != []) && (ts != ts0 ==> now)
    ensures LogsDone(d, logs, full, reuseLogs, i + 1, ts, if next <= logs[i] then logs[i] + 1 else next, maxSequence, kept.Some?, wrote0 || now)
  {
    SequenceNext(d, logs, i, maxSequence0, maxSequence);
    TablesNext(d, logs, i, Contents(ts0), Contents(ts), kept);
    NextNumber(d, logs, i, ts, next);
    BelowNext(logs, 0, i, next0, if next <= logs[i] then logs[i] + 1 else next);
  }

  lemma NextNumber(d: Disk, logs: seq<nat>, i: nat, ts: Tables, next: nat)
    requires LogsToReplay(d, logs) && i < |logs| && WrittenOk(d, ts, d.manifestNext, next, logs[i], |d.logs[logs[i]].records|)
    ensures WrittenOk(d, ts, d.manifestNext, if next <= logs[i] then logs[i] + 1 else next, NextLog(logs, i + 1), 0)
  {
    AscendingPairs(logs, |logs|);
    WrittenMore(d, ts, d.manifestNext, next, logs[i], |d.logs[logs[i]].records|,
                if next <= logs[i] then logs[i] + 1 else next, NextLog(logs, i + 1), 0);
  }

  method ReplayLogs(d: Disk, logs: seq<nat>, full: Filling, reuseLogs: bool)
    returns (ts: Tables, next: nat, maxSequence: nat, reused: bool, wrote: bool)
    requires LogsToReplay(d, logs)
    ensures LogsDone(d, logs, full, reuseLogs, |logs|, ts, next, maxSequence, reused, wrote)
  {
    ts, next, maxSequence, reused, wrote := NoTables, d.manifestNext, 0, false, false;
    NothingYet(d, logs);
    if logs == [] { return; }
    var i := 0;
    while i < |logs|
      invariant 0 <= i <= |logs| && (i < |logs| ==> !reused)
      invariant LogsDone(d, logs, full, reuseLogs, i, ts, next, maxSequence, reused, wrote)
    {
      ts, next, maxSequence, reused, wrote := ReplayLog(d, logs, i, full, reuseLogs, ts, next, maxSequence, wrote);
      i := i + 1;
    }
  }

  lemma NothingYet(d: Disk, logs: seq<nat>)
    requires LogsToReplay(d, logs)
    ensures SequenceSoFar(d, logs, 0, 0)
  {
    AscendingPairs(logs, |logs|);
    forall n, q | InLogs(d.logs, d.manifestLog, n, q) ensures logs != [] && logs[0] <= n {
      assert n in logs;
    }
  }

  // Recover, and the choice of the next log in DB::Open: what it hands to the new state is what
  // the Open step of the engine demands.  The manifest is saved unless it is reused as well.
  method Recover(d: Disk, logs: seq<nat>, full: Filling, reuseLogs: bool, reuseManifest: bool)
    returns (r: Engine.Recovery, ghost ts: Tables)
    requires LogsToReplay(d, logs) && d.levels != []
    requires forall n :: n in d.logs && n < d.manifestLog ==> n < d.manifestNext
    ensures OpenEnabled(d, r)
    ensures r.reuse <==> IsReused(d, logs, full, reuseLogs)
    ensures r.save <==> !(reuseLogs && reuseManifest) || HasRecords(d, logs, Replayed(logs, |logs|, r.reuse))
    ensures TablesCut(d, full, ts) && r.tables == FilesOf(ts) && r.metas == MetasOf(ts)
  {
    var written, next, maxSequence, reused, wrote := ReplayLogs(d, logs, full, reuseLogs);
    ts := written;
    var save := wrote || !(reuseLogs && reuseManifest);
    var last := LastLog(d.logs);
    var lastSequence := if d.manifestSequence < maxSequence then maxSequence else d.manifestSequence;
    r := Recovery(last, FilesOf(written), MetasOf(written), reused, save, lastSequence, next);
    TablesRecovered(d, ts, next, NextLog(logs, |logs|));
    BelowAt(logs, 0, |logs|, next);
    SequenceReached(d, logs, maxSequence);
    TablesReached(d, logs, reused, last, next);
    Opens(d, r);
  }

  // What the Open step demands of the tables.
  ghost predicate TablesFit(d: Disk, files: Files, metas: Level, next: nat) {
    d.manifestNext <= next && (forall n :: n in files ==> d.manifestNext <= n < next && files[n] != {}) && TablesInOrder(d, files) &&
    NumbersOf(metas) == files.Keys && Distinct(metas) && forall f :: f in metas ==> FileOk(files, f)
  }

  lemma TablesRecovered(d: Disk, ts: Tables, next: nat, n: nat)
    requires WrittenOk(d, ts, d.manifestNext, next, n, 0)
    ensures TablesFit(d, FilesOf(ts), MetasOf(ts), next) && d.manifestNext <= next
    ensures TableEntries(FilesOf(ts), FilesOf(ts).Keys) == Contents(ts) && (FilesOf(ts) != map[] ==> ts.Add?)
  {
    WrittenFiles(d, ts, d.manifestNext, next, n, 0);
    WrittenMetas(d, ts, d.manifestNext, next, n, 0);
    WrittenMore(d, ts, d.manifestNext, next, n, 0, next, n, 0);
  }

  lemma Opens(d: Disk, r: Engine.Recovery)
    requires IsLast(d.logs, r.last) && d.levels != [] && TablesFit(d, r.tables, r.metas, r.next) && (forall n :: n in d.logs ==> n < r.next)
    requires (r.tables != map[] ==> r.save) && (r.reuse ==> r.last in d.logs && d.manifestLog <= r.last) && RecoveredTo(d, r.lastSequence)
    requires TableEntries(r.tables, r.tables.Keys) == Replay(d.logs, d.manifestLog, if r.reuse then r.last else r.last + 1)
    ensures OpenEnabled(d, r)
  {
  }

  lemma TablesReached(d: Disk, logs: seq<nat>, reused: bool, last: nat, next: nat)
    requires LogsToReplay(d, logs) && IsLast(d.logs, last) && (reused ==> logs != [])
    requires forall n :: n in d.logs && n < d.manifestLog ==> n < d.manifestNext
    requires d.manifestNext <= next && forall j :: 0 <= j < |logs| ==> logs[j] < next
    ensures forall n :: n in d.logs ==> n < next
    ensures reused ==> last == logs[|logs| - 1] && last in d.logs && d.manifestLog <= last
    ensures TablesSoFar(d, logs, |logs|, reused) == Replay(d.logs, d.manifestLog, if reused then last else last + 1)
  {
    LastOfAll(d, logs, last, next);
  }

  lemma SequenceReached(d: Disk, logs: seq<nat>, m: nat)
    requires LogsToReplay(d, logs) && SequenceSoFar(d, logs, |logs|, m)
    ensures RecoveredTo(d, if d.manifestSequence < m then m else d.manifestSequence)
  {
  }

  method LastLog(logs: map<nat, LogFile>) returns (last: nat)
    ensures IsLast(logs, last)
  {
    var left := logs.Keys;
    last := 0;
    while left != {}
      invariant left <= logs.Keys && forall n :: n in logs && n !in left ==> n <= last
      invariant if left == logs.Keys then last == 0 else last in logs
    {
      var n :| n in left;
      last, left := if last < n || left == logs.Keys then n else last, left - {n};
    }
  }

  lemma LastOfAll(d: Disk, logs: seq<nat>, last: nat, next: nat)
    requires LogsToReplay(d, logs) && IsLast(d.logs, last)
    requires forall n :: n in d.logs && n < d.manifestLog ==> n < d.manifestNext
    requires d.manifestNext <= next && forall j :: 0 <= j < |logs| ==> logs[j] < next
    ensures forall n :: n in d.logs ==> n < next
    ensures if logs == [] then Replay(d.logs, d.manifestLog, last + 1) == {} else last == logs[|logs| - 1]
  {
    AscendingPairs(logs, |logs|);
    forall n | n in d.logs ensures n < next && (d.manifestLog <= n ==> logs != [] && n <= logs[|logs| - 1]) {
      if d.manifestLog <= n { assert n in logs; }
    }
  }
}
