/**
 Versions (version_set.cc): the tables of a database in levels, the search through them, and what
 makes that search right.
 */
module Levels {
  import opened InternalKeys
  import opened Options

  const kNumLevels := 7
  const kMaxMemCompactLevel := 2

  // FileMetaData: a table and its first and last entry, as the manifest records them.
  datatype FileMeta = FileMeta(number: nat, smallest: Entry, largest: Entry)

  type Level = seq<FileMeta>
  type Version = seq<Level>
  type Files = map<nat, set<Entry>>

  // ---------------------------------------------------------------- numbers and contents

  function NumbersOf(fs: Level): set<nat> {
    set f | f in fs :: f.number
  }

  function Numbers(v: Version): set<nat> {
    set fs, f | fs in v && f in fs :: f.number
  }

  function TableEntries(files: Files, numbers: set<nat>): set<Entry> {
    set n, e | n in numbers && n in files && e in files[n] :: e
  }

  function Content(files: Files, f: FileMeta): set<Entry> {
    if f.number in files then files[f.number] else {}
  }

  lemma TablesUnion(files: Files, a: set<nat>, b: set<nat>)
    ensures TableEntries(files, a + b) == TableEntries(files, a) + TableEntries(files, b)
  {
  }

  lemma SameTables(a: Files, b: Files, numbers: set<nat>)
    requires numbers <= a.Keys && numbers <= b.Keys && forall n :: n in numbers ==> a[n] == b[n]
    ensures TableEntries(a, numbers) == TableEntries(b, numbers)
  {
  }

  predicate AtOrBefore(a: Entry, b: Entry) { !Before(b, a) }

  // The metadata describe the file.
  ghost predicate FileOk(files: Files, f: FileMeta) {
    f.number in files && f.smallest in files[f.number] && f.largest in files[f.number] &&
    forall e :: e in files[f.number] ==> AtOrBefore(f.smallest, e) && AtOrBefore(e, f.largest)
  }

  // ---------------------------------------------------------------- the search

  // What a memtable, a table or several of them answer: an entry, which may be a deletion, or nothing.
  datatype Lookup = Hit(entry: Entry) | Miss

  ghost function LookupIn(es: set<Entry>, k: UserKey, snapshot: nat): Lookup {
    if e :| IsNewest(es, k, snapshot, e) then Hit(e) else Miss
  }

  function Or(a: Lookup, b: Lookup): Lookup {
    if a.Hit? then a else b
  }

  function ValueIn(a: Lookup): Option<Value> {
    if a.Hit? then ValueOf(a.entry) else None
  }

  // The entry comes before the key (k, snapshot) that is looked up.
  predicate BeforeKey(e: Entry, k: UserKey, snapshot: nat) {
    e.key < k || (e.key == k && e.seqno > snapshot)
  }

  // FindFile's bisection between left and right.
  function FindFile(fs: Level, k: UserKey, snapshot: nat, left: nat, right: nat): (i: nat)
    requires left <= right <= |fs|
    ensures left <= i <= right
    decreases right - left
  {
    if left == right then right
    else
      var mid := (left + right) / 2;
      if BeforeKey(fs[mid].largest, k, snapshot) then FindFile(fs, k, snapshot, mid + 1, right)
      else FindFile(fs, k, snapshot, left, mid)
  }

  // Below level 0 at most one file is searched.
  ghost function GetInLevel(files: Files, fs: Level, k: UserKey, snapshot: nat): Lookup {
    var i := FindFile(fs, k, snapshot, 0, |fs|);
    if i < |fs| && fs[i].smallest.key <= k then LookupIn(Content(files, fs[i]), k, snapshot) else Miss
  }

  predicate Spans(f: FileMeta, k: UserKey) { f.smallest.key <= k <= f.largest.key }

  // The files of level 0 that overlap the key, newest first.
  function NewestFirst(fs: Level, k: UserKey): Level {
    if fs == [] then []
    else if Spans(fs[0], k) then ByNumber(NewestFirst(fs[1..], k), fs[0])
    else NewestFirst(fs[1..], k)
  }

  function ByNumber(fs: Level, f: FileMeta): Level {
    if fs == [] || f.number >= fs[0].number then [f] + fs else [fs[0]] + ByNumber(fs[1..], f)
  }

  ghost function GetInFiles(files: Files, fs: Level, k: UserKey, snapshot: nat): Lookup {
    if fs == [] then Miss else Or(LookupIn(Content(files, fs[0]), k, snapshot), GetInFiles(files, fs[1..], k, snapshot))
  }

  ghost function GetBelow(files: Files, v: Version, k: UserKey, snapshot: nat): Lookup
    decreases |v|
  {
    if v == [] then Miss else Or(GetInLevel(files, v[0], k, snapshot), GetBelow(files, v[1..], k, snapshot))
  }

  // The first hit decides.
  ghost function VersionFind(files: Files, v: Version, k: UserKey, snapshot: nat): Lookup
    requires v != []
  {
    Or(GetInFiles(files, NewestFirst(v[0], k), k, snapshot), GetBelow(files, v[1..], k, snapshot))
  }

  // Version::Get.
  ghost function VersionGet(files: Files, v: Version, k: UserKey, snapshot: nat): Option<Value>
    requires v != []
  {
    ValueIn(VersionFind(files, v, k, snapshot))
  }

  // ---------------------------------------------------------------- what a version must be

  predicate InOrder(fs: Level) {
    forall i, j :: 0 <= i < j < |fs| ==> Before(fs[i].largest, fs[j].smallest)
  }

  // For every key the entries of f are newer than those of g.
  ghost predicate Newer(files: Files, f: FileMeta, g: FileMeta) {
    forall a, b :: a in Content(files, f) && b in Content(files, g) && a.key == b.key ==> a.seqno > b.seqno
  }

  // On level 0 any key may be in many files, of which a higher number means newer.
  ghost predicate Level0Ok(files: Files, fs: Level) {
    (forall f :: f in fs ==> FileOk(files, f)) && Distinct(fs) &&
    forall f, g :: f in fs && g in fs && f.number > g.number ==> Newer(files, f, g)
  }

  predicate Distinct(fs: Level) {
    forall i, j :: 0 <= i < j < |fs| ==> fs[i].number != fs[j].number
  }

  // The other levels: files in order, without overlap.
  ghost predicate LevelOk(files: Files, fs: Level) {
    InOrder(fs) && forall f :: f in fs ==> FileOk(files, f)
  }

  // Of each key, what a level holds is newer than what the levels below it hold.
  ghost predicate Over(files: Files, fs: Level, below: Version) {
    forall f, gs, g :: f in fs && gs in below && g in gs ==> Newer(files, f, g)
  }

  ghost predicate LowerOk(files: Files, v: Version)
    decreases |v|
  {
    v == [] || (LevelOk(files, v[0]) && Over(files, v[0], v[1..]) && LowerOk(files, v[1..]))
  }

  ghost predicate LevelsOk(files: Files, v: Version) {
    |v| == kNumLevels && Level0Ok(files, v[0]) && Over(files, v[0], v[1..]) && LowerOk(files, v[1..])
  }

  // The same, level by level.
  ghost predicate Stacked(files: Files, v: Version, lo: nat) {
    forall l, m, f, g :: lo <= l < m < |v| && f in v[l] && g in v[m] ==> Newer(files, f, g)
  }

  lemma {:induction false} UnfoldLower(files: Files, v: Version)
    requires LowerOk(files, v)
    ensures (forall l :: 0 <= l < |v| ==> LevelOk(files, v[l])) && Stacked(files, v, 0)
    decreases |v|
  {
    if v != [] {
      UnfoldLower(files, v[1..]);
      forall l | 0 <= l < |v| ensures LevelOk(files, v[l]) {
        if l > 0 { assert v[l] == v[1..][l - 1]; }
      }
      forall l, m, f, g | 0 <= l < m < |v| && f in v[l] && g in v[m] ensures Newer(files, f, g) {
        assert v[m] == v[1..][m - 1];
        if l > 0 { assert v[l] == v[1..][l - 1]; }
      }
    }
  }

  lemma {:induction false} FoldLower(files: Files, v: Version)
    requires (forall l :: 0 <= l < |v| ==> LevelOk(files, v[l])) && Stacked(files, v, 0)
    ensures LowerOk(files, v)
    decreases |v|
  {
    if v != [] {
      var below := v[1..];
      forall l | 0 <= l < |below| ensures LevelOk(files, below[l]) { assert below[l] == v[l + 1]; }
      forall l, m, f, g | 0 <= l < m < |below| && f in below[l] && g in below[m] ensures Newer(files, f, g) {
        assert below[l] == v[l + 1] && below[m] == v[m + 1];
      }
      FoldLower(files, below);
      forall f, gs, g | f in v[0] && gs in below && g in gs ensures Newer(files, f, g) {
        var m :| 0 <= m < |below| && below[m] == gs;
        assert g in v[m + 1];
      }
    }
  }

  lemma Unfold(files: Files, v: Version)
    requires LevelsOk(files, v)
    ensures |v| == kNumLevels && Level0Ok(files, v[0]) && Stacked(files, v, 0)
    ensures forall l :: 0 < l < |v| ==> LevelOk(files, v[l])
  {
    UnfoldLower(files, v[1..]);
    forall l | 0 < l < |v| ensures LevelOk(files, v[l]) { assert v[l] == v[1..][l - 1]; }
    forall l, m, f, g | 0 <= l < m < |v| && f in v[l] && g in v[m] ensures Newer(files, f, g) {
      assert v[m] == v[1..][m - 1];
      if l > 0 { assert v[l] == v[1..][l - 1]; }
    }
  }

  lemma Fold(files: Files, v: Version)
    requires |v| == kNumLevels && Level0Ok(files, v[0]) && Stacked(files, v, 0)
    requires forall l :: 0 < l < |v| ==> LevelOk(files, v[l])
    ensures LevelsOk(files, v)
  {
    var below := v[1..];
    forall l | 0 <= l < |below| ensures LevelOk(files, below[l]) { assert below[l] == v[l + 1]; }
    forall l, m, f, g | 0 <= l < m < |below| && f in below[l] && g in below[m] ensures Newer(files, f, g) {
      assert below[l] == v[l + 1] && below[m] == v[m + 1];
    }
    FoldLower(files, below);
    forall f, gs, g | f in v[0] && gs in below && g in gs ensures Newer(files, f, g) {
      var m :| 0 <= m < |below| && below[m] == gs;
      assert g in v[m + 1];
    }
  }

  // ---------------------------------------------------------------- the search is right

  lemma LookupIs(es: set<Entry>, k: UserKey, snapshot: nat, e: Entry)
    requires UniqueTags(es) && IsNewest(es, k, snapshot, e)
    ensures LookupIn(es, k, snapshot) == Hit(e)
  {
  }

  lemma SameNewestSameLookup(s: set<Entry>, t: set<Entry>, k: UserKey, snapshot: nat)
    requires UniqueTags(s) && UniqueTags(t)
    requires forall e :: IsNewest(s, k, snapshot, e) <==> IsNewest(t, k, snapshot, e)
    ensures LookupIn(s, k, snapshot) == LookupIn(t, k, snapshot)
  {
    if e :| IsNewest(s, k, snapshot, e) {
      LookupIs(s, k, snapshot, e);
      LookupIs(t, k, snapshot, e);
    }
  }

  // A hit in the newer set decides; a miss leaves it to the older one.
  lemma LookupUnion(older: set<Entry>, newer: set<Entry>, k: UserKey, snapshot: nat)
    requires UniqueTags(older + newer)
    requires forall o, n :: o in older && n in newer && o.key == k && n.key == k ==> o.seqno < n.seqno
    ensures LookupIn(older + newer, k, snapshot) == Or(LookupIn(newer, k, snapshot), LookupIn(older, k, snapshot))
  {
    if c :| c in newer && Candidate(c, k, snapshot) {
      var e := NewestExists(newer, k, snapshot, c);
      LookupIs(newer, k, snapshot, e);
      LookupIs(older + newer, k, snapshot, e);
    } else {
      NoCandidate(newer, k, snapshot);
      SameNewestSameLookup(older + newer, older, k, snapshot);
    }
  }

  lemma LookupIsView(es: set<Entry>, k: UserKey, snapshot: nat)
    requires UniqueTags(es)
    ensures ValueIn(LookupIn(es, k, snapshot)) == View(es, k, snapshot)
  {
    if e :| IsNewest(es, k, snapshot, e) {
      LookupIs(es, k, snapshot, e);
      ViewIs(es, k, snapshot, e);
    }
  }

  lemma SubsetUnique(s: set<Entry>, t: set<Entry>)
    requires UniqueTags(s) && t <= s
    ensures UniqueTags(t)
  {
  }

  // A part that has the newest candidate answers like the whole.
  lemma PartDecides(s: set<Entry>, t: set<Entry>, k: UserKey, snapshot: nat, e: Entry)
    requires UniqueTags(s) && t <= s && IsNewest(s, k, snapshot, e) && e in t
    ensures LookupIn(s, k, snapshot) == LookupIn(t, k, snapshot)
  {
    SubsetUnique(s, t);
    LookupIs(s, k, snapshot, e);
    LookupIs(t, k, snapshot, e);
  }

  lemma NoCandidate(s: set<Entry>, k: UserKey, snapshot: nat)
    requires forall c :: c in s ==> !Candidate(c, k, snapshot)
    ensures LookupIn(s, k, snapshot) == Miss
  {
  }

  // Whether the largest entry comes before a key can only change once along a level.
  predicate Turns(fs: Level, k: UserKey, snapshot: nat) {
    forall i, j :: 0 <= i < j < |fs| && BeforeKey(fs[j].largest, k, snapshot) ==> BeforeKey(fs[i].largest, k, snapshot)
  }

  lemma OrderTurns(files: Files, fs: Level, k: UserKey, snapshot: nat)
    requires LevelOk(files, fs)
    ensures Turns(fs, k, snapshot)
  {
    forall i, j | 0 <= i < j < |fs| && BeforeKey(fs[j].largest, k, snapshot) ensures BeforeKey(fs[i].largest, k, snapshot) {
      assert FileOk(files, fs[j]) && Before(fs[i].largest, fs[j].smallest);
    }
  }

  lemma {:induction false} FindFileSplits(fs: Level, k: UserKey, snapshot: nat, left: nat, right: nat)
    requires left <= right <= |fs| && Turns(fs, k, snapshot)
    requires forall j :: 0 <= j < left ==> BeforeKey(fs[j].largest, k, snapshot)
    requires forall j :: right <= j < |fs| ==> !BeforeKey(fs[j].largest, k, snapshot)
    ensures var i := FindFile(fs, k, snapshot, left, right);
            (forall j :: 0 <= j < i ==> BeforeKey(fs[j].largest, k, snapshot)) &&
            forall j :: i <= j < |fs| ==> !BeforeKey(fs[j].largest, k, snapshot)
    decreases right - left
  {
    if left < right {
      var mid := (left + right) / 2;
      if BeforeKey(fs[mid].largest, k, snapshot) {
        FindFileSplits(fs, k, snapshot, mid + 1, right);
      } else {
        FindFileSplits(fs, k, snapshot, left, mid);
      }
    }
  }

  ghost predicate Readable(es: set<Entry>) {
    forall e :: e in es ==> Parses(e)
  }

  lemma GetInLevelIs(files: Files, fs: Level, k: UserKey, snapshot: nat)
    requires LevelOk(files, fs)
    requires UniqueTags(TableEntries(files, NumbersOf(fs))) && Readable(TableEntries(files, NumbersOf(fs)))
    ensures GetInLevel(files, fs, k, snapshot) == LookupIn(TableEntries(files, NumbersOf(fs)), k, snapshot)
  {
    var all, i := TableEntries(files, NumbersOf(fs)), FindFile(fs, k, snapshot, 0, |fs|);
    OrderTurns(files, fs, k, snapshot);
    FindFileSplits(fs, k, snapshot, 0, |fs|);
    if c :| c in all && Candidate(c, k, snapshot) {
      var e := NewestExists(all, k, snapshot, c);
      NewestInFile(files, fs, k, snapshot, i, e);
      assert Content(files, fs[i]) <= all by { assert fs[i].number in NumbersOf(fs); }
      PartDecides(all, Content(files, fs[i]), k, snapshot, e);
    } else {
      NoCandidate(all, k, snapshot);
      if i < |fs| {
        assert fs[i].number in NumbersOf(fs);
        NoCandidate(Content(files, fs[i]), k, snapshot);
      }
    }
  }

  // The file that the bisection stops at has the newest candidate.
  lemma NewestInFile(files: Files, fs: Level, k: UserKey, snapshot: nat, i: nat, e: Entry)
    requires LevelOk(files, fs) && i <= |fs| && Readable(TableEntries(files, NumbersOf(fs)))
    requires forall j :: 0 <= j < i ==> BeforeKey(fs[j].largest, k, snapshot)
    requires i < |fs| ==> !BeforeKey(fs[i].largest, k, snapshot)
    requires IsNewest(TableEntries(files, NumbersOf(fs)), k, snapshot, e)
    ensures i < |fs| && fs[i].smallest.key <= k && e in Content(files, fs[i])
  {
    var f :| f in fs && e in Content(files, f);
    var j :| 0 <= j < |fs| && fs[j] == f;
    NotBeforeFile(files, fs, k, snapshot, j, e);
    assert i <= j;
    if i < j {
      LaterIsOlder(files, fs, k, snapshot, i, j, e);
      LargestIn(files, fs, i);
    }
  }

  lemma NotBeforeFile(files: Files, fs: Level, k: UserKey, snapshot: nat, j: nat, e: Entry)
    requires LevelOk(files, fs) && j < |fs| && e in Content(files, fs[j]) && Candidate(e, k, snapshot)
    ensures fs[j].smallest.key <= k && !BeforeKey(fs[j].largest, k, snapshot) && AtOrBefore(fs[j].smallest, e)
  {
    assert FileOk(files, fs[j]);
  }

  lemma LargestIn(files: Files, fs: Level, i: nat)
    requires LevelOk(files, fs) && i < |fs|
    ensures fs[i].largest in TableEntries(files, NumbersOf(fs))
  {
    assert FileOk(files, fs[i]) && fs[i].number in NumbersOf(fs);
  }

  // A key in a later file is in an earlier one that does not end before it only if its newer entries are.
  lemma LaterIsOlder(files: Files, fs: Level, k: UserKey, snapshot: nat, i: nat, j: nat, e: Entry)
    requires LevelOk(files, fs) && i < j < |fs| && e in Content(files, fs[j]) && Candidate(e, k, snapshot)
    requires !BeforeKey(fs[i].largest, k, snapshot)
    ensures fs[i].largest.key == k && e.seqno < fs[i].largest.seqno <= snapshot
  {
    NotBeforeFile(files, fs, k, snapshot, j, e);
    assert Before(fs[i].largest, fs[j].smallest);
  }

  // ---------------------------------------------------------------- level 0

  lemma {:induction false} ByNumberElements(fs: Level, f: FileMeta)
    ensures forall g :: g in ByNumber(fs, f) <==> g == f || g in fs
  {
    if fs != [] && f.number < fs[0].number {
      ByNumberElements(fs[1..], f);
      assert fs == [fs[0]] + fs[1..];
    }
  }

  predicate Descending(fs: Level) {
    forall i, j :: 0 <= i < j < |fs| ==> fs[i].number >= fs[j].number
  }

  lemma {:induction false} ByNumberDescends(fs: Level, f: FileMeta)
    requires Descending(fs)
    ensures Descending(ByNumber(fs, f))
  {
    if fs != [] && f.number < fs[0].number {
      ByNumberDescends(fs[1..], f);
      ByNumberElements(fs[1..], f);
      var rest := ByNumber(fs[1..], f);
      forall j | 0 <= j < |rest| ensures fs[0].number >= rest[j].number {
        assert rest[j] in rest;
      }
    }
  }

  lemma {:induction false} NewestFirstIs(fs: Level, k: UserKey)
    ensures Descending(NewestFirst(fs, k))
    ensures forall f :: f in NewestFirst(fs, k) <==> f in fs && Spans(f, k)
  {
    if fs != [] {
      NewestFirstIs(fs[1..], k);
      if Spans(fs[0], k) {
        ByNumberDescends(NewestFirst(fs[1..], k), fs[0]);
        ByNumberElements(NewestFirst(fs[1..], k), fs[0]);
      }
      assert fs == [fs[0]] + fs[1..];
    }
  }

  lemma HeadAndRest(files: Files, fs: Level)
    requires fs != []
    ensures TableEntries(files, NumbersOf(fs)) == TableEntries(files, NumbersOf(fs[1..])) + Content(files, fs[0])
    ensures forall g :: g in fs[1..] ==> g in fs
  {
    assert fs == [fs[0]] + fs[1..];
    assert NumbersOf(fs) == NumbersOf(fs[1..]) + {fs[0].number};
    TablesUnion(files, NumbersOf(fs[1..]), {fs[0].number});
  }

  lemma RestIsLevel0(files: Files, fs: Level)
    requires fs != [] && Descending(fs) && Level0Ok(files, fs)
    ensures Level0Ok(files, fs[1..]) && Descending(fs[1..])
    ensures forall g :: g in fs[1..] ==> fs[0].number > g.number && g in fs
  {
    forall g | g in fs[1..] ensures fs[0].number > g.number && g in fs {
      var j :| 0 <= j < |fs[1..]| && fs[1..][j] == g;
      assert fs[j + 1] == g && fs[0].number >= fs[j + 1].number && fs[0].number != fs[j + 1].number;
    }
    assert forall j :: 0 <= j < |fs[1..]| ==> fs[1..][j] == fs[j + 1];
  }

  lemma HeadIsNewest(files: Files, fs: Level, o: Entry, n: Entry)
    requires fs != [] && Descending(fs) && Level0Ok(files, fs)
    requires o in TableEntries(files, NumbersOf(fs[1..])) && n in Content(files, fs[0]) && o.key == n.key
    ensures o.seqno < n.seqno
  {
    RestIsLevel0(files, fs);
    var g :| g in fs[1..] && o in Content(files, g);
    assert Newer(files, fs[0], g);
  }

  lemma {:induction false} GetInFilesIs(files: Files, fs: Level, k: UserKey, snapshot: nat)
    requires Descending(fs) && Level0Ok(files, fs)
    requires UniqueTags(TableEntries(files, NumbersOf(fs)))
    ensures GetInFiles(files, fs, k, snapshot) == LookupIn(TableEntries(files, NumbersOf(fs)), k, snapshot)
  {
    if fs != [] {
      var first, rest := Content(files, fs[0]), TableEntries(files, NumbersOf(fs[1..]));
      HeadAndRest(files, fs);
      RestIsLevel0(files, fs);
      forall o, n | o in rest && n in first && o.key == k && n.key == k ensures o.seqno < n.seqno { HeadIsNewest(files, fs, o, n); }
      SubsetUnique(rest + first, rest);
      GetInFilesIs(files, fs[1..], k, snapshot);
      LookupUnion(rest, first, k, snapshot);
    }
  }

  lemma {:induction false} ByNumberDistinct(fs: Level, f: FileMeta)
    requires Distinct(fs) && forall g :: g in fs ==> g.number != f.number
    ensures Distinct(ByNumber(fs, f))
  {
    if fs != [] && f.number < fs[0].number {
      ByNumberDistinct(fs[1..], f);
      ByNumberElements(fs[1..], f);
      var rest := ByNumber(fs[1..], f);
      forall j | 0 <= j < |rest| ensures fs[0].number != rest[j].number {
        assert rest[j] in rest;
      }
    }
  }

  lemma {:induction false} NewestFirstDistinct(fs: Level, k: UserKey)
    requires Distinct(fs)
    ensures Distinct(NewestFirst(fs, k))
  {
    if fs != [] {
      NewestFirstDistinct(fs[1..], k);
      if Spans(fs[0], k) {
        NewestFirstIs(fs[1..], k);
        ByNumberDistinct(NewestFirst(fs[1..], k), fs[0]);
      }
    }
  }

  lemma PartAnswers(s: set<Entry>, t: set<Entry>, k: UserKey, snapshot: nat)
    requires UniqueTags(s) && t <= s
    requires forall c :: c in s && Candidate(c, k, snapshot) ==> c in t
    ensures LookupIn(s, k, snapshot) == LookupIn(t, k, snapshot)
  {
    if c :| c in s && Candidate(c, k, snapshot) {
      var e := NewestExists(s, k, snapshot, c);
      PartDecides(s, t, k, snapshot, e);
    } else {
      NoCandidate(t, k, snapshot);
    }
  }

  // The overlapping files hold every entry of the key.
  lemma SpanningPart(files: Files, fs: Level, k: UserKey)
    requires forall f :: f in fs ==> FileOk(files, f)
    ensures var all, part := TableEntries(files, NumbersOf(fs)), TableEntries(files, NumbersOf(NewestFirst(fs, k)));
            part <= all && forall c :: c in all && c.key == k ==> c in part
  {
    var list := NewestFirst(fs, k);
    NewestFirstIs(fs, k);
    forall c | c in TableEntries(files, NumbersOf(fs)) && c.key == k ensures c in TableEntries(files, NumbersOf(list)) {
      var f :| f in fs && c in Content(files, f);
      assert FileOk(files, f) && c in Content(files, f);
      assert Spans(f, k);
      assert f in list && f.number in NumbersOf(list);
    }
  }

  // Level 0 from newest to oldest answers like all its files together.
  lemma GetInLevel0Is(files: Files, fs: Level, k: UserKey, snapshot: nat)
    requires Level0Ok(files, fs)
    requires UniqueTags(TableEntries(files, NumbersOf(fs)))
    ensures GetInFiles(files, NewestFirst(fs, k), k, snapshot) == LookupIn(TableEntries(files, NumbersOf(fs)), k, snapshot)
  {
    var list := NewestFirst(fs, k);
    NewestFirstIs(fs, k);
    NewestFirstDistinct(fs, k);
    SpanningPart(files, fs, k);
    SubsetUnique(TableEntries(files, NumbersOf(fs)), TableEntries(files, NumbersOf(list)));
    GetInFilesIs(files, list, k, snapshot);
    PartAnswers(TableEntries(files, NumbersOf(fs)), TableEntries(files, NumbersOf(list)), k, snapshot);
  }

  // ---------------------------------------------------------------- all levels

  lemma LevelSplits(files: Files, v: Version, k: UserKey, snapshot: nat)
    requires v != [] && Over(files, v[0], v[1..]) && UniqueTags(TableEntries(files, Numbers(v)))
    ensures var upper, lower := TableEntries(files, NumbersOf(v[0])), TableEntries(files, Numbers(v[1..]));
            TableEntries(files, Numbers(v)) == lower + upper && UniqueTags(upper) && UniqueTags(lower) &&
            LookupIn(lower + upper, k, snapshot) == Or(LookupIn(upper, k, snapshot), LookupIn(lower, k, snapshot))
  {
    var upper, lower := TableEntries(files, NumbersOf(v[0])), TableEntries(files, Numbers(v[1..]));
    assert v == [v[0]] + v[1..];
    assert Numbers(v) == Numbers(v[1..]) + NumbersOf(v[0]);
    TablesUnion(files, Numbers(v[1..]), NumbersOf(v[0]));
    SubsetUnique(lower + upper, upper);
    SubsetUnique(lower + upper, lower);
    forall o, n | o in lower && n in upper && o.key == k && n.key == k ensures o.seqno < n.seqno {
      var f :| f in v[0] && n in Content(files, f);
      var gs, g :| gs in v[1..] && g in gs && o in Content(files, g);
      assert Newer(files, f, g);
    }
    LookupUnion(lower, upper, k, snapshot);
  }

  lemma ReadableParts(a: set<Entry>, b: set<Entry>)
    requires Readable(a + b)
    ensures Readable(a) && Readable(b)
  {
  }

  lemma {:induction false} GetBelowIs(files: Files, v: Version, k: UserKey, snapshot: nat)
    requires LowerOk(files, v)
    requires UniqueTags(TableEntries(files, Numbers(v))) && Readable(TableEntries(files, Numbers(v)))
    ensures GetBelow(files, v, k, snapshot) == LookupIn(TableEntries(files, Numbers(v)), k, snapshot)
    decreases |v|
  {
    if v == [] {
      assert Numbers(v) == {};
    } else {
      LevelSplits(files, v, k, snapshot);
      ReadableParts(TableEntries(files, Numbers(v[1..])), TableEntries(files, NumbersOf(v[0])));
      GetInLevelIs(files, v[0], k, snapshot);
      GetBelowIs(files, v[1..], k, snapshot);
    }
  }

  // Searching level by level finds the newest entry of all tables.
  lemma VersionFindIs(files: Files, v: Version, k: UserKey, snapshot: nat)
    requires LevelsOk(files, v)
    requires UniqueTags(TableEntries(files, Numbers(v))) && Readable(TableEntries(files, Numbers(v)))
    ensures VersionFind(files, v, k, snapshot) == LookupIn(TableEntries(files, Numbers(v)), k, snapshot)
  {
    LevelSplits(files, v, k, snapshot);
    ReadableParts(TableEntries(files, Numbers(v[1..])), TableEntries(files, NumbersOf(v[0])));
    GetInLevel0Is(files, v[0], k, snapshot);
    GetBelowIs(files, v[1..], k, snapshot);
  }

  lemma VersionGetIsView(files: Files, v: Version, k: UserKey, snapshot: nat)
    requires LevelsOk(files, v)
    requires UniqueTags(TableEntries(files, Numbers(v))) && Readable(TableEntries(files, Numbers(v)))
    ensures VersionGet(files, v, k, snapshot) == View(TableEntries(files, Numbers(v)), k, snapshot)
  {
    VersionFindIs(files, v, k, snapshot);
    LookupIsView(TableEntries(files, Numbers(v)), k, snapshot);
  }
}
