/**
 The order of the levels is exactly what reading needs: if the search through a version finds every
 entry that its tables hold, the levels are right.
 */
module LevelReads {
  import opened InternalKeys
  import opened Options
  import opened Levels
  import opened LevelEdits

  // The search finds the newest entry of all tables, for every key and sequence.
  ghost predicate FindsAll(files: Files, v: Version)
    requires v != []
  {
    forall k, s :: FindsNewest(files, v, k, s)
  }

  ghost predicate FindsNewest(files: Files, v: Version, k: UserKey, s: nat)
    requires v != []
  {
    VersionFind(files, v, k, s) == LookupIn(TableEntries(files, Numbers(v)), k, s)
  }

  // In the order of the builder.
  predicate BySmallest(fs: Level) {
    forall i, j :: 0 <= i < j < |fs| ==> !Before(fs[j].smallest, fs[i].smallest)
  }

  // No entry is in two tables.
  ghost predicate EntriesApart(files: Files, numbers: set<nat>) {
    forall m, n, e :: m in numbers && n in numbers && In(files, m, e) && In(files, n, e) ==> m == n
  }

  ghost predicate In(files: Files, n: nat, e: Entry) {
    n in files && e in files[n]
  }

  // What every edit makes sure of, in whatever order the entries of a key end up.
  ghost predicate MetaOk(files: Files, v: Version) {
    |v| == kNumLevels && Unique(v) && EntriesApart(files, Numbers(v)) && (forall l :: 0 <= l < |v| ==> Distinct(v[l])) &&
    (forall l, f :: 0 <= l < |v| && f in v[l] ==> FileOk(files, f)) && (forall l :: 0 < l < |v| ==> BySmallest(v[l])) &&
    UniqueTags(TableEntries(files, Numbers(v))) && Readable(TableEntries(files, Numbers(v)))
  }

  lemma HasNumber(v: Version, l: nat, f: FileMeta)
    requires l < |v| && f in v[l]
    ensures f.number in Numbers(v)
  {
    assert v[l] in v;
  }

  // The place of an entry.
  lemma OnePlace(files: Files, v: Version, l: nat, f: FileMeta, m: nat, g: FileMeta, e: Entry)
    requires MetaOk(files, v) && l < |v| && f in v[l] && m < |v| && g in v[m] && e in Content(files, f) && e in Content(files, g)
    ensures f == g && l == m
  {
    HasNumber(v, l, f);
    HasNumber(v, m, g);
    assert In(files, f.number, e) && In(files, g.number, e);
  }

  // Looked up at its own sequence, an entry is the newest one of its key.
  lemma IsFound(files: Files, v: Version, l: nat, f: FileMeta, e: Entry)
    requires MetaOk(files, v) && FindsNewest(files, v, e.key, e.seqno) && l < |v| && f in v[l] && e in Content(files, f)
    ensures VersionFind(files, v, e.key, e.seqno) == Hit(e)
  {
    HasNumber(v, l, f);
    assert e in TableEntries(files, Numbers(v));
    LookupIs(TableEntries(files, Numbers(v)), e.key, e.seqno, e);
  }

  // ---------------------------------------------------------------- where a hit comes from

  lemma InFileSearched(files: Files, fs: Level, k: UserKey, s: nat, e: Entry)
    requires GetInLevel(files, fs, k, s) == Hit(e)
    ensures var i := FindFile(fs, k, s, 0, |fs|); i < |fs| && e in Content(files, fs[i])
  {
  }

  lemma {:induction false} HitBelow(files: Files, v: Version, k: UserKey, s: nat, e: Entry) returns (m: nat)
    requires GetBelow(files, v, k, s) == Hit(e)
    ensures m < |v| && GetInLevel(files, v[m], k, s) == Hit(e)
    ensures forall l :: 0 <= l < m ==> GetInLevel(files, v[l], k, s) == Miss
    decreases |v|
  {
    if GetInLevel(files, v[0], k, s).Hit? {
      m := 0;
    } else {
      var r := HitBelow(files, v[1..], k, s, e);
      m := r + 1;
      forall l | 0 <= l < m ensures GetInLevel(files, v[l], k, s) == Miss {
        if l > 0 { assert v[l] == v[1..][l - 1]; }
      }
    }
  }

  lemma {:induction false} HitInFiles(files: Files, fs: Level, k: UserKey, s: nat, e: Entry) returns (i: nat)
    requires GetInFiles(files, fs, k, s) == Hit(e)
    ensures i < |fs| && e in Content(files, fs[i]) && forall j :: 0 <= j < i ==> LookupIn(Content(files, fs[j]), k, s) == Miss
  {
    if LookupIn(Content(files, fs[0]), k, s).Hit? {
      i := 0;
    } else {
      var r := HitInFiles(files, fs[1..], k, s, e);
      i := r + 1;
      forall j | 0 <= j < i ensures LookupIn(Content(files, fs[j]), k, s) == Miss {
        if j > 0 { assert fs[j] == fs[1..][j - 1]; }
      }
    }
  }

  lemma {:induction false} MissInFiles(files: Files, fs: Level, k: UserKey, s: nat, i: nat)
    requires GetInFiles(files, fs, k, s) == Miss && i < |fs|
    ensures LookupIn(Content(files, fs[i]), k, s) == Miss
  {
    if i > 0 { MissInFiles(files, fs[1..], k, s, i - 1); }
  }

  lemma CandidateHits(es: set<Entry>, k: UserKey, s: nat, c: Entry)
    requires c in es && Candidate(c, k, s)
    ensures LookupIn(es, k, s).Hit?
  {
    var e := NewestExists(es, k, s, c);
  }

  // The hit lies on level 0, or in the file that the bisection of a deeper level stops at; no level
  // above that one has a hit.
  lemma HitFrom(files: Files, v: Version, k: UserKey, s: nat, e: Entry) returns (m: nat)
    requires v != [] && VersionFind(files, v, k, s) == Hit(e)
    ensures m < |v|
    ensures m == 0 ==> GetInFiles(files, NewestFirst(v[0], k), k, s) == Hit(e)
    ensures m > 0 ==> GetInLevel(files, v[m], k, s) == Hit(e) && GetInFiles(files, NewestFirst(v[0], k), k, s) == Miss
    ensures forall l :: 0 < l < m ==> GetInLevel(files, v[l], k, s) == Miss
  {
    if GetInFiles(files, NewestFirst(v[0], k), k, s).Hit? {
      m := 0;
    } else {
      var r := HitBelow(files, v[1..], k, s, e);
      m := r + 1;
      forall l | 0 < l < m ensures GetInLevel(files, v[l], k, s) == Miss {
        assert v[l] == v[1..][l - 1];
      }
    }
  }

  // If an entry of a level is found, it is found there.
  lemma FoundAtHome(files: Files, v: Version, l: nat, f: FileMeta, e: Entry)
    requires MetaOk(files, v) && l < |v| && f in v[l] && e in Content(files, f) && VersionFind(files, v, e.key, e.seqno) == Hit(e)
    ensures l == 0 ==> GetInFiles(files, NewestFirst(v[0], e.key), e.key, e.seqno) == Hit(e)
    ensures l > 0 ==> GetInFiles(files, NewestFirst(v[0], e.key), e.key, e.seqno) == Miss
    ensures l > 0 ==> var i := FindFile(v[l], e.key, e.seqno, 0, |v[l]|); i < |v[l]| && v[l][i] == f
    ensures forall m :: 0 < m < l ==> GetInLevel(files, v[m], e.key, e.seqno) == Miss
  {
    var m := HitFrom(files, v, e.key, e.seqno, e);
    if m == 0 {
      NewestFirstIs(v[0], e.key);
      var i := HitInFiles(files, NewestFirst(v[0], e.key), e.key, e.seqno, e);
      OnePlace(files, v, l, f, 0, NewestFirst(v[0], e.key)[i], e);
    } else {
      InFileSearched(files, v[m], e.key, e.seqno, e);
      OnePlace(files, v, l, f, m, v[m][FindFile(v[m], e.key, e.seqno, 0, |v[m]|)], e);
    }
  }

  // ---------------------------------------------------------------- order within a level

  // The first file that starts before the one ahead of it ends.
  lemma {:induction false} FirstOverlap(fs: Level, n: nat) returns (j: nat)
    requires n <= |fs| && !InOrder(fs[..n]) && BySmallest(fs) && forall f :: f in fs ==> RangeOk(f)
    ensures 0 < j < n && !Before(fs[j - 1].largest, fs[j].smallest)
    ensures forall i :: 0 <= i < j - 1 ==> Before(fs[i].largest, fs[j].smallest)
  {
    if n > 0 && !InOrder(fs[..n - 1]) {
      j := FirstOverlap(fs, n - 1);
    } else {
      j := n - 1;
      PrefixOrder(fs, n - 1);
      forall i | 0 <= i < j - 1 ensures Before(fs[i].largest, fs[j].smallest) {
        assert Before(fs[i].largest, fs[j - 1].smallest) && !Before(fs[j].smallest, fs[j - 1].smallest);
      }
    }
  }

  lemma PrefixOrder(fs: Level, n: nat)
    requires n <= |fs| && InOrder(fs[..n])
    ensures forall i, k :: 0 <= i < k < n ==> Before(fs[i].largest, fs[k].smallest)
  {
    forall i, k | 0 <= i < k < n ensures Before(fs[i].largest, fs[k].smallest) {
      assert fs[..n][i] == fs[i] && fs[..n][k] == fs[k];
    }
  }

  // There the bisection stops one file too early.
  lemma StopsTooEarly(fs: Level, j: nat)
    requires 0 < j < |fs| && BySmallest(fs) && forall f :: f in fs ==> RangeOk(f)
    requires !Before(fs[j - 1].largest, fs[j].smallest) && forall i :: 0 <= i < j - 1 ==> Before(fs[i].largest, fs[j].smallest)
    ensures FindFile(fs, fs[j].smallest.key, fs[j].smallest.seqno, 0, |fs|) == j - 1
  {
    var k, s := fs[j].smallest.key, fs[j].smallest.seqno;
    forall t | j <= t < |fs| ensures !BeforeKey(fs[t].largest, k, s) {
      assert RangeOk(fs[t]);
      assert j < t ==> !Before(fs[t].smallest, fs[j].smallest);
    }
    assert forall t :: 0 <= t < |fs| ==> (BeforeKey(fs[t].largest, k, s) <==> t < j - 1);
    FindFileSplits(fs, k, s, 0, |fs|);
    assert !BeforeKey(fs[j - 1].largest, k, s) && (j > 1 ==> BeforeKey(fs[j - 2].largest, k, s));
  }

  lemma OverlapIsNotFound(files: Files, v: Version, l: nat, j: nat)
    requires MetaOk(files, v) && 0 < l < |v| && 0 < j < |v[l]|
    requires FindFile(v[l], v[l][j].smallest.key, v[l][j].smallest.seqno, 0, |v[l]|) == j - 1
    ensures !FindsNewest(files, v, v[l][j].smallest.key, v[l][j].smallest.seqno)
  {
    var f := v[l][j];
    assert Distinct(v[l]) && FileOk(files, f);
    if FindsNewest(files, v, f.smallest.key, f.smallest.seqno) {
      IsFound(files, v, l, f, f.smallest);
      FoundAtHome(files, v, l, f, f.smallest);
    }
  }

  lemma FoundMeansInOrder(files: Files, v: Version, l: nat)
    requires MetaOk(files, v) && FindsAll(files, v) && 0 < l < |v|
    ensures LevelOk(files, v[l])
  {
    forall f | f in v[l] ensures RangeOk(f) { assert FileOk(files, f); }
    if !InOrder(v[l]) {
      assert v[l][..|v[l]|] == v[l];
      var j := FirstOverlap(v[l], |v[l]|);
      StopsTooEarly(v[l], j);
      OverlapIsNotFound(files, v, l, j);
    }
  }

  // ---------------------------------------------------------------- age

  lemma Parsed(files: Files, v: Version, l: nat, f: FileMeta, e: Entry)
    requires MetaOk(files, v) && l < |v| && f in v[l] && e in Content(files, f)
    ensures e in TableEntries(files, NumbersOf(v[l])) && Parses(e) && TableEntries(files, NumbersOf(v[l])) <= TableEntries(files, Numbers(v))
  {
    HasNumber(v, l, f);
    assert f.number in NumbersOf(v[l]);
    forall n | n in NumbersOf(v[l]) ensures n in Numbers(v) {
      var g :| g in v[l] && g.number == n;
      HasNumber(v, l, g);
    }
    assert e in TableEntries(files, Numbers(v));
  }

  // A level that has some entry of the key to show has a hit.
  lemma LevelHits(files: Files, v: Version, l: nat, f: FileMeta, e: Entry, s: nat)
    requires MetaOk(files, v) && l < |v| && f in v[l] && e in Content(files, f) && e.seqno <= s && (l > 0 ==> LevelOk(files, v[l]))
    ensures l == 0 ==> GetInFiles(files, NewestFirst(v[0], e.key), e.key, s).Hit?
    ensures l > 0 ==> GetInLevel(files, v[l], e.key, s).Hit?
  {
    Parsed(files, v, l, f, e);
    if l == 0 {
      assert FileOk(files, f);
      Level0Hits(files, v[0], f, e, s);
    } else {
      LowerHits(files, v[l], TableEntries(files, Numbers(v)), e, s);
    }
  }

  lemma LowerHits(files: Files, fs: Level, all: set<Entry>, e: Entry, s: nat)
    requires LevelOk(files, fs) && UniqueTags(all) && Readable(all) && TableEntries(files, NumbersOf(fs)) <= all
    requires e in TableEntries(files, NumbersOf(fs)) && Candidate(e, e.key, s)
    ensures GetInLevel(files, fs, e.key, s).Hit?
  {
    SubsetUnique(all, TableEntries(files, NumbersOf(fs)));
    GetInLevelIs(files, fs, e.key, s);
    CandidateHits(TableEntries(files, NumbersOf(fs)), e.key, s, e);
  }

  lemma Level0Hits(files: Files, fs: Level, f: FileMeta, e: Entry, s: nat)
    requires f in fs && FileOk(files, f) && e in Content(files, f) && Candidate(e, e.key, s)
    ensures GetInFiles(files, NewestFirst(fs, e.key), e.key, s).Hit?
  {
    var list := NewestFirst(fs, e.key);
    NewestFirstIs(fs, e.key);
    assert Spans(f, e.key);
    var i :| 0 <= i < |list| && list[i] == f;
    CandidateHits(Content(files, f), e.key, s, e);
    if GetInFiles(files, list, e.key, s).Miss? { MissInFiles(files, list, e.key, s, i); }
  }

  lemma FoundMeansStacked(files: Files, v: Version, l: nat, m: nat, f: FileMeta, g: FileMeta)
    requires MetaOk(files, v) && FindsAll(files, v) && l < m < |v| && f in v[l] && g in v[m]
    ensures Newer(files, f, g)
  {
    forall a, b | a in Content(files, f) && b in Content(files, g) && a.key == b.key ensures a.seqno > b.seqno {
      if a.seqno <= b.seqno {
        if l > 0 { FoundMeansInOrder(files, v, l); }
        LevelHits(files, v, l, f, a, b.seqno);
        assert FindsNewest(files, v, b.key, b.seqno);
        IsFound(files, v, m, g, b);
        FoundAtHome(files, v, m, g, b);
      }
    }
  }

  // On level 0 a file that comes earlier in the search must not have the older entry.
  lemma FoundMeansByNumber(files: Files, v: Version, f: FileMeta, g: FileMeta)
    requires MetaOk(files, v) && FindsAll(files, v) && f in v[0] && g in v[0] && f.number > g.number
    ensures Newer(files, f, g)
  {
    forall a, b | a in Content(files, f) && b in Content(files, g) && a.key == b.key ensures a.seqno > b.seqno {
      assert FileOk(files, f) && AtOrBefore(f.smallest, a) && AtOrBefore(a, f.largest);
      if a.seqno <= b.seqno { OlderFirst(files, v, f, g, a, b); }
    }
  }

  lemma OlderFirst(files: Files, v: Version, f: FileMeta, g: FileMeta, a: Entry, b: Entry)
    requires MetaOk(files, v) && f in v[0] && g in v[0] && f.number > g.number
    requires a in Content(files, f) && b in Content(files, g) && a.key == b.key && a.seqno <= b.seqno && Spans(f, b.key)
    ensures !FindsNewest(files, v, b.key, b.seqno)
  {
    if FindsNewest(files, v, b.key, b.seqno) {
      IsFound(files, v, 0, g, b);
      FoundAtHome(files, v, 0, g, b);
      NewestFirstIs(v[0], b.key);
      var i := HitInFiles(files, NewestFirst(v[0], b.key), b.key, b.seqno, b);
      OnePlace(files, v, 0, g, 0, NewestFirst(v[0], b.key)[i], b);
      var j := SearchedBefore(files, v[0], f, b.key, i);
      Parsed(files, v, 0, f, a);
      CandidateHits(Content(files, f), b.key, b.seqno, a);
    }
  }

  lemma SearchedBefore(files: Files, fs: Level, f: FileMeta, k: UserKey, i: nat) returns (j: nat)
    requires f in fs && Spans(f, k) && i < |NewestFirst(fs, k)| && f.number > NewestFirst(fs, k)[i].number
    ensures j < i && NewestFirst(fs, k)[j] == f
  {
    var list := NewestFirst(fs, k);
    NewestFirstIs(fs, k);
    j :| 0 <= j < |list| && list[j] == f;
  }

  // The levels are right exactly if every entry is found.
  lemma LevelsOkIff(files: Files, v: Version)
    requires MetaOk(files, v)
    ensures LevelsOk(files, v) <==> FindsAll(files, v)
  {
    if LevelsOk(files, v) {
      forall k, s: nat ensures FindsNewest(files, v, k, s) { VersionFindIs(files, v, k, s); }
    }
    if FindsAll(files, v) {
      forall l | 0 < l < |v| ensures LevelOk(files, v[l]) { FoundMeansInOrder(files, v, l); }
      forall l, m, f, g | 0 <= l < m < |v| && f in v[l] && g in v[m] ensures Newer(files, f, g) {
        FoundMeansStacked(files, v, l, m, f, g);
      }
      forall f, g | f in v[0] && g in v[0] && f.number > g.number ensures Newer(files, f, g) { FoundMeansByNumber(files, v, f, g); }
      Fold(files, v);
    }
  }

  // ---------------------------------------------------------------- what edits make sure of

  lemma LevelMeta(files: Files, fs: Level)
    requires LevelOk(files, fs)
    ensures Distinct(fs) && BySmallest(fs)
  {
    forall i, j | 0 <= i < j < |fs| ensures fs[i].number != fs[j].number && !Before(fs[j].smallest, fs[i].smallest) {
      assert FileOk(files, fs[i]) && FileOk(files, fs[j]);
    }
  }

  lemma {:induction false} InsertBySmallest(fs: Level, f: FileMeta)
    requires BySmallest(fs)
    ensures BySmallest(Insert(fs, f))
  {
    if fs == [] {
    } else if BySmallestKey(f, fs[0]) {
      forall j | 0 <= j < |fs| ensures !Before(fs[j].smallest, f.smallest) { assert j > 0 ==> !Before(fs[j].smallest, fs[0].smallest); }
    } else {
      InsertBySmallest(fs[1..], f);
      InsertElements(fs[1..], f);
      var rest := Insert(fs[1..], f);
      forall j | 0 <= j < |rest| ensures !Before(rest[j].smallest, fs[0].smallest) {
        if rest[j] != f {
          assert rest[j] in fs[1..];
          var i :| 0 <= i < |fs[1..]| && fs[1..][i] == rest[j];
          assert fs[i + 1] == rest[j];
        }
      }
    }
  }

  lemma {:induction false} InsertAllBySmallest(fs: Level, added: Level)
    requires BySmallest(fs)
    ensures BySmallest(InsertAll(fs, added))
  {
    if added != [] {
      InsertAllBySmallest(fs, added[..|added| - 1]);
      InsertBySmallest(InsertAll(fs, added[..|added| - 1]), added[|added| - 1]);
    }
  }

  // Where levels are right no entry is in two tables.
  lemma LevelsApart(files: Files, v: Version)
    requires LevelsOk(files, v) && Unique(v)
    ensures EntriesApart(files, Numbers(v))
  {
    Unfold(files, v);
    forall m, n, e | m in Numbers(v) && n in Numbers(v) && In(files, m, e) && In(files, n, e) ensures m == n {
      var i, f := PlaceOf(v, m);
      var j, g := PlaceOf(v, n);
      TwoPlaces(files, v, i, f, j, g, e);
    }
  }

  lemma PlaceOf(v: Version, n: nat) returns (l: nat, f: FileMeta)
    requires n in Numbers(v)
    ensures l < |v| && f in v[l] && f.number == n
  {
    var fs: Level;
    fs, f :| fs in v && f in fs && f.number == n;
    l :| 0 <= l < |v| && v[l] == fs;
  }

  lemma TwoPlaces(files: Files, v: Version, i: nat, f: FileMeta, j: nat, g: FileMeta, e: Entry)
    requires |v| == kNumLevels && Level0Ok(files, v[0]) && Stacked(files, v, 0) && forall l :: 0 < l < |v| ==> LevelOk(files, v[l])
    requires i < |v| && f in v[i] && j < |v| && g in v[j] && e in Content(files, f) && e in Content(files, g)
    ensures f.number == g.number
  {
    assert i != j || (i == 0 && f.number != g.number) ==> Newer(files, f, g) || Newer(files, g, f);
    if i == j > 0 && f != g {
      assert LevelOk(files, v[i]) && FileOk(files, f) && FileOk(files, g);
      TwoFiles(v[i], f, g);
    }
  }

  lemma OutputsApart(files: Files, outs: Level)
    requires InOrder(outs) && forall o :: o in outs ==> FileOk(files, o)
    ensures EntriesApart(files, NumbersOf(outs)) && Distinct(outs)
  {
    assert LevelOk(files, outs);
    LevelMeta(files, outs);
    forall m, n, e | m in NumbersOf(outs) && n in NumbersOf(outs) && In(files, m, e) && In(files, n, e) ensures m == n {
      var f :| f in outs && f.number == m;
      var g :| g in outs && g.number == n;
      assert FileOk(files, f) && FileOk(files, g);
      if f != g { TwoFiles(outs, f, g); }
    }
  }

  // Outputs hold entries of the inputs only.
  lemma CompactedApart(files: Files, numbers: set<nat>, inputs: set<nat>, outs: Level)
    requires EntriesApart(files, numbers) && inputs <= numbers && OutputsOk(files, inputs, outs)
    ensures EntriesApart(files, numbers - inputs + NumbersOf(outs))
  {
    OutputsApart(files, outs);
    var all := numbers - inputs + NumbersOf(outs);
    forall m, n, e | m in all && n in all && In(files, m, e) && In(files, n, e) ensures m == n {
      if m in NumbersOf(outs) && n !in NumbersOf(outs) {
        FromInput(files, inputs, outs, m, e);
      } else if n in NumbersOf(outs) && m !in NumbersOf(outs) {
        FromInput(files, inputs, outs, n, e);
      }
    }
  }

  lemma FromInput(files: Files, inputs: set<nat>, outs: Level, n: nat, e: Entry)
    requires OutputsOk(files, inputs, outs) && n in NumbersOf(outs) && In(files, n, e)
    ensures exists i :: i in inputs && In(files, i, e)
  {
    assert e in TableEntries(files, NumbersOf(outs));
    var i :| i in inputs && i in files && e in files[i];
    assert In(files, i, e);
  }

  // The numbers of the outputs are their own.
  predicate OwnNumbers(v: Version, inputs: set<nat>, outs: Level) {
    forall n :: n in NumbersOf(outs) && n in Numbers(v) ==> n in inputs
  }

  lemma CompactedUnique(files: Files, v: Version, level: nat, inputs: set<nat>, outs: Level)
    requires Unique(v) && InputsOk(files, v, level, inputs) && OutputsOk(files, inputs, outs) && OwnNumbers(v, inputs, outs)
    ensures Unique(Compacted(v, level, inputs, outs))
  {
    forall l, f | 0 <= l < |v| && f in v[l] && f.number !in inputs ensures f.number !in NumbersOf(outs) { HasNumber(v, l, f); }
    UniqueCompacted(files, v, level, inputs, outs);
  }

  lemma CompactedLevelMeta(files: Files, v: Version, level: nat, inputs: set<nat>, outs: Level, l: nat)
    requires LevelsOk(files, v) && InputsOk(files, v, level, inputs) && OutputsOk(files, inputs, outs) && OwnNumbers(v, inputs, outs)
    requires l < |v|
    ensures Distinct(Compacted(v, level, inputs, outs)[l]) && (l > 0 ==> BySmallest(Compacted(v, level, inputs, outs)[l]))
  {
    Unfold(files, v);
    if l > 0 { LevelMeta(files, v[l]); }
    RemoveElements(v[l], inputs);
    RemoveDistinct(v[l], inputs);
    if l > 0 {
      RemoveInOrder(v[l], inputs);
      LevelMeta(files, Remove(v[l], inputs));
    }
    if l == level + 1 {
      OutputsApart(files, outs);
      forall f, g | f in outs && g in Remove(v[l], inputs) ensures g.number != f.number {
        HasNumber(v, l, g);
        assert f.number in NumbersOf(outs);
      }
      InsertAllDistinct(Remove(v[l], inputs), outs);
      InsertAllBySmallest(Remove(v[l], inputs), outs);
    }
  }

  lemma CompactedFiles(files: Files, v: Version, level: nat, inputs: set<nat>, outs: Level, l: nat, f: FileMeta)
    requires LevelsOk(files, v) && InputsOk(files, v, level, inputs) && OutputsOk(files, inputs, outs)
    requires l < |v| && f in Compacted(v, level, inputs, outs)[l]
    ensures FileOk(files, f)
  {
    Unfold(files, v);
    CompactedElements(v, level, inputs, outs);
    if f in v[l] && l > 0 { assert LevelOk(files, v[l]); }
  }

  lemma InputsAreTables(files: Files, v: Version, level: nat, inputs: set<nat>)
    requires InputsOk(files, v, level, inputs)
    ensures inputs <= Numbers(v)
  {
    forall n | n in inputs ensures n in Numbers(v) {
      if n in NumbersOf(v[level]) { assert v[level] in v; } else { assert v[level + 1] in v; }
    }
  }

  lemma CompactedTables(files: Files, v: Version, level: nat, inputs: set<nat>, outs: Level)
    requires InputsOk(files, v, level, inputs) && OutputsOk(files, inputs, outs)
    requires UniqueTags(TableEntries(files, Numbers(v))) && Readable(TableEntries(files, Numbers(v)))
    ensures var all := TableEntries(files, Numbers(Compacted(v, level, inputs, outs))); UniqueTags(all) && Readable(all)
  {
    InputsAreTables(files, v, level, inputs);
    NumbersCompacted(v, level, inputs, outs);
    var numbers := Numbers(Compacted(v, level, inputs, outs));
    assert numbers == Numbers(v) - inputs + NumbersOf(outs);
    TablesUnion(files, Numbers(v) - inputs, NumbersOf(outs));
    assert TableEntries(files, numbers) <= TableEntries(files, Numbers(v));
    SubsetUnique(TableEntries(files, Numbers(v)), TableEntries(files, numbers));
  }

  lemma CompactedMeta(files: Files, v: Version, level: nat, inputs: set<nat>, outs: Level)
    requires LevelsOk(files, v) && Unique(v) && InputsOk(files, v, level, inputs) && OutputsOk(files, inputs, outs) && OwnNumbers(v, inputs, outs)
    requires UniqueTags(TableEntries(files, Numbers(v))) && Readable(TableEntries(files, Numbers(v)))
    ensures MetaOk(files, Compacted(v, level, inputs, outs))
  {
    var w := Compacted(v, level, inputs, outs);
    CompactedUnique(files, v, level, inputs, outs);
    CompactedTables(files, v, level, inputs, outs);
    InputsAreTables(files, v, level, inputs);
    LevelsApart(files, v);
    CompactedApart(files, Numbers(v), inputs, outs);
    NumbersCompacted(v, level, inputs, outs);
    forall l | 0 <= l < |w| ensures Distinct(w[l]) && (l > 0 ==> BySmallest(w[l])) { CompactedLevelMeta(files, v, level, inputs, outs, l); }
    forall l, f | 0 <= l < |w| && f in w[l] ensures FileOk(files, f) { CompactedFiles(files, v, level, inputs, outs, l, f); }
  }

  // After a compaction or a move every entry is found exactly if no split key ends up below its older
  // entries and the outputs fit between the files that stay.
  lemma CompactionFindsAllIff(files: Files, v: Version, level: nat, inputs: set<nat>, outs: Level)
    requires LevelsOk(files, v) && Unique(v) && InputsOk(files, v, level, inputs) && OutputsOk(files, inputs, outs) && OwnNumbers(v, inputs, outs)
    requires UniqueTags(TableEntries(files, Numbers(v))) && Readable(TableEntries(files, Numbers(v)))
    ensures FindsAll(files, Compacted(v, level, inputs, outs)) <==> NoneMisplaced(files, v, inputs, level, outs) && Fits(v, inputs, level, outs)
  {
    CompactedMeta(files, v, level, inputs, outs);
    LevelsOkIff(files, Compacted(v, level, inputs, outs));
    CompactionKeepsLevels(files, v, level, inputs, outs);
  }
}
