/**
 Changes of a version (VersionSet::Builder) and when they keep the search through the levels right:
 a flushed memtable, a file moved down, and the results of a compaction.
 */
module LevelEdits {
  import opened InternalKeys
  import opened Options
  import opened Levels
  import Compaction

  // ---------------------------------------------------------------- the builder

  // The order of files within a level.
  predicate BySmallestKey(f: FileMeta, g: FileMeta) {
    Before(f.smallest, g.smallest) || (!Before(g.smallest, f.smallest) && f.number < g.number)
  }

  function Insert(fs: Level, f: FileMeta): Level {
    if fs == [] || BySmallestKey(f, fs[0]) then [f] + fs else [fs[0]] + Insert(fs[1..], f)
  }

  function InsertAll(fs: Level, added: Level): Level {
    if added == [] then fs else Insert(InsertAll(fs, added[..|added| - 1]), added[|added| - 1])
  }

  function Remove(fs: Level, numbers: set<nat>): Level {
    if fs == [] then []
    else if fs[0].number in numbers then Remove(fs[1..], numbers)
    else [fs[0]] + Remove(fs[1..], numbers)
  }

  // An edit that adds one file.
  function Added(v: Version, level: nat, f: FileMeta): Version
    requires level < |v|
  {
    v[level := Insert(v[level], f)]
  }

  // The edit of a compaction of a level: inputs go from it and from the next one, where outputs come in.
  function Compacted(v: Version, level: nat, inputs: set<nat>, outs: Level): Version
    requires level + 1 < |v|
  {
    v[level := Remove(v[level], inputs)][level + 1 := InsertAll(Remove(v[level + 1], inputs), outs)]
  }

  lemma {:induction false} InsertElements(fs: Level, f: FileMeta)
    ensures forall g :: g in Insert(fs, f) <==> g == f || g in fs
  {
    if fs != [] && !BySmallestKey(f, fs[0]) {
      InsertElements(fs[1..], f);
      assert fs == [fs[0]] + fs[1..];
    }
  }

  lemma {:induction false} InsertAllElements(fs: Level, added: Level)
    ensures forall g :: g in InsertAll(fs, added) <==> g in added || g in fs
  {
    if added != [] {
      var n := |added| - 1;
      InsertAllElements(fs, added[..n]);
      InsertElements(InsertAll(fs, added[..n]), added[n]);
      assert added == added[..n] + [added[n]];
    }
  }

  lemma {:induction false} RemoveElements(fs: Level, numbers: set<nat>)
    ensures forall g :: g in Remove(fs, numbers) <==> g in fs && g.number !in numbers
  {
    if fs != [] {
      RemoveElements(fs[1..], numbers);
      assert fs == [fs[0]] + fs[1..];
    }
  }

  lemma NumbersAdded(v: Version, level: nat, f: FileMeta)
    requires level < |v|
    ensures Numbers(Added(v, level, f)) == Numbers(v) + {f.number}
  {
    InsertElements(v[level], f);
    assert Numbers(v) + {f.number} == Numbers(v) + NumbersOf([f]);
    LevelReplaced(v, level, Insert(v[level], f), [f]);
  }

  lemma LevelReplaced(v: Version, level: nat, fs: Level, added: Level)
    requires level < |v| && forall g :: g in fs <==> g in added || g in v[level]
    ensures Numbers(v[level := fs]) == Numbers(v) + NumbersOf(added)
  {
    var w := v[level := fs];
    forall n | n in Numbers(w) ensures n in Numbers(v) + NumbersOf(added) {
      var gs, g :| gs in w && g in gs && g.number == n;
      var l :| 0 <= l < |w| && w[l] == gs;
      if g !in added { assert v[l] in v && g in v[l]; }
    }
    forall n | n in Numbers(v) + NumbersOf(added) ensures n in Numbers(w) {
      if n in NumbersOf(added) {
        assert w[level] in w;
      } else {
        var gs, g :| gs in v && g in gs && g.number == n;
        var l :| 0 <= l < |v| && v[l] == gs;
        assert w[l] in w && g in w[l];
      }
    }
  }

  lemma NumbersRecovered(v: Version, added: Level)
    requires v != []
    ensures Numbers(v[0 := InsertAll(v[0], added)]) == Numbers(v) + NumbersOf(added)
  {
    InsertAllElements(v[0], added);
    LevelReplaced(v, 0, InsertAll(v[0], added), added);
  }

  // ---------------------------------------------------------------- order within a level

  predicate RangeOk(f: FileMeta) { AtOrBefore(f.smallest, f.largest) }

  // Two files of one level without overlap, in whatever order.
  predicate Apart(f: FileMeta, g: FileMeta) {
    Before(f.largest, g.smallest) || Before(g.largest, f.smallest)
  }

  predicate AllApart(fs: Level, f: FileMeta) {
    forall g :: g in fs ==> Apart(g, f)
  }

  lemma {:induction false} RemoveInOrder(fs: Level, numbers: set<nat>)
    requires InOrder(fs)
    ensures InOrder(Remove(fs, numbers))
  {
    if fs != [] {
      RemoveInOrder(fs[1..], numbers);
      RemoveElements(fs[1..], numbers);
      var rest := Remove(fs[1..], numbers);
      forall j | 0 <= j < |rest| ensures Before(fs[0].largest, rest[j].smallest) {
        assert rest[j] in fs[1..];
        var i :| 0 <= i < |fs[1..]| && fs[1..][i] == rest[j];
        assert rest[j] == fs[i + 1];
      }
    }
  }

  lemma {:induction false} RemoveDistinct(fs: Level, numbers: set<nat>)
    requires Distinct(fs)
    ensures Distinct(Remove(fs, numbers))
  {
    if fs != [] {
      RemoveDistinct(fs[1..], numbers);
      RemoveElements(fs[1..], numbers);
      var rest := Remove(fs[1..], numbers);
      forall j | 0 <= j < |rest| ensures fs[0].number != rest[j].number {
        assert rest[j] in fs[1..];
        var i :| 0 <= i < |fs[1..]| && fs[1..][i] == rest[j];
        assert rest[j] == fs[i + 1];
      }
    }
  }

  lemma {:induction false} InsertDistinct(fs: Level, f: FileMeta)
    requires Distinct(fs) && forall g :: g in fs ==> g.number != f.number
    ensures Distinct(Insert(fs, f))
  {
    if fs != [] && !BySmallestKey(f, fs[0]) {
      InsertDistinct(fs[1..], f);
      InsertElements(fs[1..], f);
      var rest := Insert(fs[1..], f);
      forall j | 0 <= j < |rest| ensures fs[0].number != rest[j].number {
        assert rest[j] in rest;
      }
    }
  }

  lemma {:induction false} InsertAllDistinct(fs: Level, added: Level)
    requires Distinct(fs) && Distinct(added) && forall f, g :: f in added && g in fs ==> g.number != f.number
    ensures Distinct(InsertAll(fs, added))
  {
    if added != [] {
      var n := |added| - 1;
      InsertAllDistinct(fs, added[..n]);
      InsertAllElements(fs, added[..n]);
      forall g | g in InsertAll(fs, added[..n]) ensures g.number != added[n].number {
        if g in added[..n] {
          var j :| 0 <= j < n && added[j] == g;
        }
      }
      InsertDistinct(InsertAll(fs, added[..n]), added[n]);
    }
  }

  // Inserting keeps a level in order exactly if the file is apart from all others.
  lemma {:induction false} InsertInOrder(fs: Level, f: FileMeta)
    requires InOrder(fs) && RangeOk(f) && forall g :: g in fs ==> RangeOk(g)
    ensures InOrder(Insert(fs, f)) <==> AllApart(fs, f)
  {
    if fs != [] {
      var head, tail := fs[0], fs[1..];
      assert fs == [head] + tail;
      if BySmallestKey(f, head) {
        InsertFront(fs, f);
      } else {
        HeadInOrder(head, tail);
        InsertInOrder(tail, f);
        InsertElements(tail, f);
        HeadInOrder(head, Insert(tail, f));
        assert RangeOk(head) && (Apart(head, f) <==> Before(head.largest, f.smallest));
        assert AllApart(fs, f) <==> Apart(head, f) && AllApart(tail, f);
      }
    }
  }

  lemma HeadInOrder(head: FileMeta, rest: Level)
    ensures InOrder([head] + rest) <==> InOrder(rest) && forall g :: g in rest ==> Before(head.largest, g.smallest)
  {
    var all := [head] + rest;
    if InOrder(all) {
      forall i, j | 0 <= i < j < |rest| ensures Before(rest[i].largest, rest[j].smallest) {
        assert all[i + 1] == rest[i] && all[j + 1] == rest[j];
      }
      forall g | g in rest ensures Before(head.largest, g.smallest) {
        var j :| 0 <= j < |rest| && rest[j] == g;
        assert all[0] == head && all[j + 1] == g;
      }
    }
  }

  lemma InsertFront(fs: Level, f: FileMeta)
    requires fs != [] && InOrder(fs) && RangeOk(f) && (forall g :: g in fs ==> RangeOk(g)) && BySmallestKey(f, fs[0])
    ensures InOrder([f] + fs) <==> AllApart(fs, f)
  {
    HeadInOrder(f, fs);
    forall g | g in fs && Apart(g, f) ensures Before(f.largest, g.smallest) {
      var j :| 0 <= j < |fs| && fs[j] == g;
      assert RangeOk(fs[0]) && RangeOk(g);
      if j > 0 { assert Before(fs[0].largest, fs[j].smallest); }
    }
  }

  lemma {:induction false} InsertAllInOrder(fs: Level, added: Level)
    requires InOrder(fs) && InOrder(added) && (forall g :: g in fs ==> RangeOk(g)) && forall g :: g in added ==> RangeOk(g)
    ensures InOrder(InsertAll(fs, added)) <==> forall o :: o in added ==> AllApart(fs, o)
  {
    if added != [] {
      var n := |added| - 1;
      var front, last := added[..n], added[n];
      assert added == front + [last];
      LastApart(front, last);
      InsertAllInOrder(fs, front);
      InsertAllElements(fs, front);
      var sofar := InsertAll(fs, front);
      if InOrder(Insert(sofar, last)) { InsertBreaksNothing(sofar, last); }
      if InOrder(sofar) {
        InsertInOrder(sofar, last);
        assert AllApart(sofar, last) <==> AllApart(fs, last);
      }
      assert (forall o :: o in added ==> AllApart(fs, o)) <==> AllApart(fs, last) && forall o :: o in front ==> AllApart(fs, o);
    }
  }

  lemma LastApart(front: Level, last: FileMeta)
    requires InOrder(front + [last])
    ensures InOrder(front) && AllApart(front, last)
  {
    var all := front + [last];
    forall i, j | 0 <= i < j < |front| ensures Before(front[i].largest, front[j].smallest) {
      assert all[i] == front[i] && all[j] == front[j];
    }
    forall g | g in front ensures Apart(g, last) {
      var j :| 0 <= j < |front| && front[j] == g;
      assert all[j] == g && all[|front|] == last;
    }
  }

  // A level that is out of order is not repaired by another file.
  lemma {:induction false} InsertBreaksNothing(fs: Level, f: FileMeta)
    requires InOrder(Insert(fs, f))
    ensures InOrder(fs)
  {
    if fs != [] {
      if BySmallestKey(f, fs[0]) {
        HeadInOrder(f, fs);
      } else {
        HeadInOrder(fs[0], Insert(fs[1..], f));
        InsertBreaksNothing(fs[1..], f);
        InsertElements(fs[1..], f);
        HeadInOrder(fs[0], fs[1..]);
        assert fs == [fs[0]] + fs[1..];
      }
    }
  }

  // ---------------------------------------------------------------- age

  predicate Overlaps(f: FileMeta, lo: UserKey, hi: UserKey) {
    f.smallest.key <= hi && lo <= f.largest.key
  }

  lemma ApartKeysNewer(files: Files, f: FileMeta, g: FileMeta)
    requires FileOk(files, f) && FileOk(files, g) && !Overlaps(g, f.smallest.key, f.largest.key)
    ensures Newer(files, f, g) && Newer(files, g, f)
  {
    forall a, b | a in Content(files, f) && b in Content(files, g) ensures a.key != b.key {
      assert AtOrBefore(f.smallest, a) && AtOrBefore(a, f.largest) && AtOrBefore(g.smallest, b) && AtOrBefore(b, g.largest);
    }
  }

  // Of two files in order the first is newer for a key they share, which can only be the key where they meet.
  lemma InOrderNewer(files: Files, f: FileMeta, g: FileMeta)
    requires FileOk(files, f) && FileOk(files, g) && Before(f.largest, g.smallest)
    ensures Newer(files, f, g) && (f.largest.key != g.smallest.key ==> Newer(files, g, f))
    ensures forall a, b :: a in Content(files, f) && b in Content(files, g) && a.key == b.key ==> a.key == f.largest.key == g.smallest.key
  {
    forall a, b | a in Content(files, f) && b in Content(files, g) && a.key == b.key
      ensures a.seqno > b.seqno && a.key == f.largest.key == g.smallest.key
    {
      assert AtOrBefore(a, f.largest) && AtOrBefore(g.smallest, b);
    }
  }

  // ---------------------------------------------------------------- a flushed memtable

  // Where PickLevelForMemTableOutput may put a table.
  predicate PlaceOk(v: Version, level: nat, f: FileMeta) {
    level == 0 ||
    (level <= kMaxMemCompactLevel &&
     forall l, g :: 0 <= l <= level && l < |v| && g in v[l] ==> !Overlaps(g, f.smallest.key, f.largest.key))
  }

  lemma FlushKeepsLevels(files: Files, v: Version, level: nat, f: FileMeta)
    requires LevelsOk(files, v) && FileOk(files, f) && level < |v| && PlaceOk(v, level, f)
    requires forall l, g :: 0 <= l < |v| && g in v[l] ==> Newer(files, f, g)
    requires forall g :: g in v[0] ==> g.number < f.number
    ensures LevelsOk(files, Added(v, level, f))
  {
    var w := Added(v, level, f);
    Unfold(files, v);
    InsertElements(v[level], f);
    forall l, m, g, h | 0 <= l < m < |w| && g in w[l] && h in w[m] ensures Newer(files, g, h) {
      if g in v[l] && h in v[m] {
      } else if g in v[l] {
        assert h == f && m == level;
        assert FileOk(files, g) by { if l > 0 { assert LevelOk(files, v[l]); } }
        ApartKeysNewer(files, f, g);
      }
    }
    if level == 0 {
      InsertDistinct(v[0], f);
      forall g: FileMeta, h: FileMeta | g in w[0] && h in w[0] && g.number > h.number ensures Newer(files, g, h) {
        assert h in v[0];
      }
    } else {
      FlushInOrder(files, v[level], f);
    }
    Fold(files, w);
  }

  lemma FlushInOrder(files: Files, fs: Level, f: FileMeta)
    requires LevelOk(files, fs) && FileOk(files, f) && forall g :: g in fs ==> !Overlaps(g, f.smallest.key, f.largest.key)
    ensures LevelOk(files, Insert(fs, f))
  {
    forall g | g in fs ensures RangeOk(g) && Apart(g, f) { assert FileOk(files, g); }
    InsertInOrder(fs, f);
    InsertElements(fs, f);
  }

  // ---------------------------------------------------------------- a compaction

  // f goes and g stays, and g starts with older entries of the key that f ends with.
  predicate SplitAt(v: Version, inputs: set<nat>, level: nat, f: FileMeta, g: FileMeta) {
    0 < level < |v| && f in v[level] && g in v[level] && f.number in inputs && g.number !in inputs &&
    Before(f.largest, g.smallest) && f.largest.key == g.smallest.key
  }

  // Such a key ends up below its older entries.
  ghost predicate Misplaced(files: Files, v: Version, inputs: set<nat>, level: nat, outs: Level, f: FileMeta, g: FileMeta, e: Entry) {
    SplitAt(v, inputs, level, f, g) && e in TableEntries(files, NumbersOf(outs)) &&
    e.key == g.smallest.key && e.seqno > g.smallest.seqno
  }

  ghost predicate NoneMisplaced(files: Files, v: Version, inputs: set<nat>, level: nat, outs: Level) {
    forall f, g, e :: !Misplaced(files, v, inputs, level, outs, f, g, e)
  }

  // The outputs fit between the files that stay on the level below.
  predicate Fits(v: Version, inputs: set<nat>, level: nat, outs: Level)
    requires level + 1 < |v|
  {
    forall g, o :: g in v[level + 1] && g.number !in inputs && o in outs ==> Apart(g, o)
  }

  // What a compaction writes and installs.
  ghost predicate OutputsOk(files: Files, inputs: set<nat>, outs: Level) {
    InOrder(outs) && (forall o :: o in outs ==> FileOk(files, o)) &&
    TableEntries(files, NumbersOf(outs)) <= TableEntries(files, inputs)
  }

  // Inputs are files of the compacted level and the next; what stays on level 0 is newer.
  ghost predicate InputsOk(files: Files, v: Version, level: nat, inputs: set<nat>) {
    level + 1 < |v| &&
    (forall l, f :: 0 <= l < |v| && f in v[l] && f.number in inputs ==> l == level || l == level + 1) &&
    (forall n :: n in inputs ==> n in NumbersOf(v[level]) || n in NumbersOf(v[level + 1])) &&
    (level == 0 ==> forall f, g :: f in v[0] && g in v[0] && f.number in inputs && g.number !in inputs ==> Newer(files, g, f))
  }

  // Whatever an input holds comes from the level or from the one below.
  lemma InputOf(files: Files, v: Version, level: nat, inputs: set<nat>, e: Entry) returns (l: nat, i: FileMeta)
    requires InputsOk(files, v, level, inputs) && e in TableEntries(files, inputs)
    ensures level <= l <= level + 1 && i in v[l] && i.number in inputs && e in Content(files, i)
  {
    var n :| n in inputs && n in files && e in files[n];
    if n in NumbersOf(v[level]) {
      i :| i in v[level] && i.number == n;
      l := level;
    } else {
      i :| i in v[level + 1] && i.number == n;
      l := level + 1;
    }
  }

  lemma OutputEntry(files: Files, outs: Level, o: FileMeta)
    requires o in outs
    ensures Content(files, o) <= TableEntries(files, NumbersOf(outs))
  {
    assert o.number in NumbersOf(outs);
  }

  // A file that stays above is newer than an output, unless the compaction split one of its keys.
  lemma StaysNewer(files: Files, v: Version, level: nat, inputs: set<nat>, outs: Level, l: nat, g: FileMeta, o: FileMeta)
    requires LevelsOk(files, v) && InputsOk(files, v, level, inputs) && OutputsOk(files, inputs, outs)
    requires l <= level && g in v[l] && g.number !in inputs && o in outs && NoneMisplaced(files, v, inputs, level, outs)
    ensures Newer(files, g, o)
  {
    Unfold(files, v);
    OutputEntry(files, outs, o);
    forall a, b | a in Content(files, g) && b in Content(files, o) && a.key == b.key ensures a.seqno > b.seqno {
      var m, i := InputOf(files, v, level, inputs, b);
      if l < m {
        assert Newer(files, g, i);
      } else if level == 0 {
        assert Newer(files, g, i);
      } else {
        SameLevelNewer(files, v, inputs, level, outs, i, g, a, b);
      }
    }
  }

  lemma SameLevelNewer(files: Files, v: Version, inputs: set<nat>, level: nat, outs: Level, i: FileMeta, g: FileMeta, a: Entry, b: Entry)
    requires 0 < level < |v| && LevelOk(files, v[level]) && i in v[level] && g in v[level] && i.number in inputs && g.number !in inputs
    requires a in Content(files, g) && b in Content(files, i) && a.key == b.key
    requires b in TableEntries(files, NumbersOf(outs)) && NoneMisplaced(files, v, inputs, level, outs)
    ensures a.seqno > b.seqno
  {
    var x :| 0 <= x < |v[level]| && v[level][x] == i;
    var y :| 0 <= y < |v[level]| && v[level][y] == g;
    assert FileOk(files, i) && FileOk(files, g);
    if y < x {
      InOrderNewer(files, g, i);
    } else {
      assert Before(i.largest, g.smallest);
      MeansMisplaced(files, v, inputs, level, outs, i, g, a, b);
    }
  }

  lemma MeansMisplaced(files: Files, v: Version, inputs: set<nat>, level: nat, outs: Level, i: FileMeta, g: FileMeta, a: Entry, b: Entry)
    requires 0 < level < |v| && i in v[level] && g in v[level] && i.number in inputs && g.number !in inputs
    requires FileOk(files, i) && FileOk(files, g) && Before(i.largest, g.smallest)
    requires a in Content(files, g) && b in Content(files, i) && a.key == b.key && b in TableEntries(files, NumbersOf(outs))
    ensures Misplaced(files, v, inputs, level, outs, i, g, b)
  {
    InOrderNewer(files, i, g);
    assert g.smallest in Content(files, g);
  }

  lemma CompactedElements(v: Version, level: nat, inputs: set<nat>, outs: Level)
    requires level + 1 < |v|
    ensures var w := Compacted(v, level, inputs, outs);
            |w| == |v| && (forall l :: 0 <= l < |v| && l != level && l != level + 1 ==> w[l] == v[l]) &&
            (forall g :: g in w[level] <==> g in v[level] && g.number !in inputs) &&
            forall g :: g in w[level + 1] <==> g in outs || (g in v[level + 1] && g.number !in inputs)
  {
    RemoveElements(v[level], inputs);
    RemoveElements(v[level + 1], inputs);
    InsertAllElements(Remove(v[level + 1], inputs), outs);
  }

  lemma NumbersCompacted(v: Version, level: nat, inputs: set<nat>, outs: Level)
    requires level + 1 < |v|
    requires forall l, f :: 0 <= l < |v| && f in v[l] && f.number in inputs ==> l == level || l == level + 1
    ensures Numbers(Compacted(v, level, inputs, outs)) == Numbers(v) - inputs + NumbersOf(outs)
  {
    var w := Compacted(v, level, inputs, outs);
    CompactedElements(v, level, inputs, outs);
    forall n | n in Numbers(w) ensures n in Numbers(v) - inputs + NumbersOf(outs) {
      var gs, g :| gs in w && g in gs && g.number == n;
      var l :| 0 <= l < |w| && w[l] == gs;
      if g !in outs { assert v[l] in v && g in v[l] && g.number !in inputs; }
    }
    forall n | n in Numbers(v) - inputs + NumbersOf(outs) ensures n in Numbers(w) {
      if n in NumbersOf(outs) {
        assert w[level + 1] in w;
      } else {
        var gs, g :| gs in v && g in gs && g.number == n;
        var l :| 0 <= l < |v| && v[l] == gs;
        assert w[l] in w && g in w[l];
      }
    }
  }

  lemma OutputAbove(files: Files, v: Version, level: nat, inputs: set<nat>, outs: Level, o: FileMeta, m: nat, h: FileMeta)
    requires LevelsOk(files, v) && InputsOk(files, v, level, inputs) && OutputsOk(files, inputs, outs)
    requires o in outs && level + 1 < m < |v| && h in v[m]
    ensures Newer(files, o, h)
  {
    Unfold(files, v);
    OutputEntry(files, outs, o);
    forall a, b | a in Content(files, o) && b in Content(files, h) && a.key == b.key ensures a.seqno > b.seqno {
      var l, i := InputOf(files, v, level, inputs, a);
      assert Newer(files, i, h);
    }
  }

  // The level that outputs come to.
  lemma OutputLevel(files: Files, fs: Level, inputs: set<nat>, outs: Level)
    requires LevelOk(files, fs) && InOrder(outs) && forall o :: o in outs ==> FileOk(files, o)
    ensures LevelOk(files, InsertAll(Remove(fs, inputs), outs)) <==>
            forall g, o :: g in fs && g.number !in inputs && o in outs ==> Apart(g, o)
  {
    var left := Remove(fs, inputs);
    RemoveElements(fs, inputs);
    RemoveInOrder(fs, inputs);
    InsertAllElements(left, outs);
    forall g | g in left ensures RangeOk(g) { assert FileOk(files, g); }
    forall o | o in outs ensures RangeOk(o) { assert FileOk(files, o); }
    InsertAllInOrder(left, outs);
  }

  lemma CompactedStacked(files: Files, v: Version, level: nat, inputs: set<nat>, outs: Level)
    requires LevelsOk(files, v) && InputsOk(files, v, level, inputs) && OutputsOk(files, inputs, outs)
    requires NoneMisplaced(files, v, inputs, level, outs)
    ensures Stacked(files, Compacted(v, level, inputs, outs), 0)
  {
    var w := Compacted(v, level, inputs, outs);
    CompactedElements(v, level, inputs, outs);
    Unfold(files, v);
    forall l, m, g, h | 0 <= l < m < |w| && g in w[l] && h in w[m] ensures Newer(files, g, h) {
      if m == level + 1 && h in outs {
        StaysNewer(files, v, level, inputs, outs, l, g, h);
      } else if l == level + 1 && g in outs {
        OutputAbove(files, v, level, inputs, outs, g, m, h);
      } else {
        assert g in v[l] && h in v[m];
      }
    }
  }

  // Installing the results of a compaction keeps the levels right exactly if no key that it splits ends
  // up below its older entries, and the outputs fit between the files that stay.
  lemma CompactionKeepsLevels(files: Files, v: Version, level: nat, inputs: set<nat>, outs: Level)
    requires LevelsOk(files, v) && InputsOk(files, v, level, inputs) && OutputsOk(files, inputs, outs)
    ensures LevelsOk(files, Compacted(v, level, inputs, outs)) <==>
            NoneMisplaced(files, v, inputs, level, outs) && Fits(v, inputs, level, outs)
  {
    var w := Compacted(v, level, inputs, outs);
    Unfold(files, v);
    CompactedElements(v, level, inputs, outs);
    OutputLevel(files, v[level + 1], inputs, outs);
    if f, g, e :| Misplaced(files, v, inputs, level, outs, f, g, e) {
      MisplacedBreaks(files, v, level, inputs, outs, f, g, e);
    }
    if LevelsOk(files, w) { Unfold(files, w); }
    if NoneMisplaced(files, v, inputs, level, outs) && Fits(v, inputs, level, outs) {
      CompactedStacked(files, v, level, inputs, outs);
      CompactedLevels(files, v, level, inputs, outs);
      Fold(files, w);
    }
  }

  lemma MisplacedBreaks(files: Files, v: Version, level: nat, inputs: set<nat>, outs: Level, f: FileMeta, g: FileMeta, e: Entry)
    requires LevelsOk(files, v) && level + 1 < |v| && Misplaced(files, v, inputs, level, outs, f, g, e)
    ensures !LevelsOk(files, Compacted(v, level, inputs, outs))
  {
    var w := Compacted(v, level, inputs, outs);
    Unfold(files, v);
    CompactedElements(v, level, inputs, outs);
    var o :| o in outs && e in Content(files, o);
    assert LevelOk(files, v[level]) && FileOk(files, g) && g.smallest in Content(files, g);
    assert !Newer(files, g, o);
    if LevelsOk(files, w) { Unfold(files, w); }
  }

  lemma CompactedLevels(files: Files, v: Version, level: nat, inputs: set<nat>, outs: Level)
    requires LevelsOk(files, v) && InputsOk(files, v, level, inputs) && OutputsOk(files, inputs, outs)
    requires Fits(v, inputs, level, outs)
    ensures var w := Compacted(v, level, inputs, outs);
            Level0Ok(files, w[0]) && forall l :: 0 < l < |w| ==> LevelOk(files, w[l])
  {
    var w := Compacted(v, level, inputs, outs);
    Unfold(files, v);
    CompactedElements(v, level, inputs, outs);
    OutputLevel(files, v[level + 1], inputs, outs);
    if level == 0 {
      RemoveDistinct(v[0], inputs);
    } else {
      assert LevelOk(files, v[level]);
      RemoveInOrder(v[level], inputs);
    }
  }

  // ---------------------------------------------------------------- the choice of inputs

  // A number belongs to one file on one level.
  ghost predicate Unique(v: Version) {
    forall l, m, f, g :: 0 <= l < |v| && 0 <= m < |v| && f in v[l] && g in v[m] && f.number == g.number ==> f == g && l == m
  }

  // What PickCompaction, CompactRange and SetupOtherInputs choose: some files of a level, within a range
  // of user keys, and all files of the next level that overlap the range.  On level 0 all overlapping
  // files go together; on other levels any file may be chosen without its neighbours.
  ghost predicate Chosen(v: Version, level: nat, inputs: set<nat>, lo: UserKey, hi: UserKey) {
    level + 1 < |v| && inputs <= NumbersOf(v[level]) + NumbersOf(v[level + 1]) &&
    (forall f :: f in v[level] && f.number in inputs ==> lo <= f.smallest.key && f.largest.key <= hi) &&
    (level == 0 ==> forall f :: f in v[0] && Overlaps(f, lo, hi) ==> f.number in inputs) &&
    forall f :: f in v[level + 1] ==> (f.number in inputs <==> Overlaps(f, lo, hi))
  }

  lemma ChosenIsOk(files: Files, v: Version, level: nat, inputs: set<nat>, lo: UserKey, hi: UserKey)
    requires LevelsOk(files, v) && Unique(v) && Chosen(v, level, inputs, lo, hi)
    ensures InputsOk(files, v, level, inputs)
  {
    Unfold(files, v);
    forall l, f | 0 <= l < |v| && f in v[l] && f.number in inputs ensures l == level || l == level + 1 {
      if f.number in NumbersOf(v[level]) {
        var g :| g in v[level] && g.number == f.number;
      } else {
        var g :| g in v[level + 1] && g.number == f.number;
      }
    }
    if level == 0 {
      forall f, g | f in v[0] && g in v[0] && f.number in inputs && g.number !in inputs ensures Newer(files, g, f) {
        assert FileOk(files, f) && FileOk(files, g) && RangeOk(f);
        ApartKeysNewer(files, g, f);
      }
    }
  }

  // Moving a file down: it is the only input.
  ghost predicate CanMove(v: Version, level: nat, f: FileMeta) {
    level + 1 < |v| && f in v[level] && Chosen(v, level, {f.number}, f.smallest.key, f.largest.key) &&
    forall g :: g in v[level + 1] ==> !Overlaps(g, f.smallest.key, f.largest.key)
  }

  // A move keeps the levels right exactly if no file left behind starts with the key the file ends with.
  lemma MoveKeepsLevels(files: Files, v: Version, level: nat, f: FileMeta)
    requires LevelsOk(files, v) && Unique(v) && CanMove(v, level, f)
    ensures LevelsOk(files, Compacted(v, level, {f.number}, [f])) <==> forall g :: !SplitAt(v, {f.number}, level, f, g)
  {
    MoveIsOk(files, v, level, f);
    CompactionKeepsLevels(files, v, level, {f.number}, [f]);
    MoveMisplaces(files, v, level, f);
  }

  lemma MoveIsOk(files: Files, v: Version, level: nat, f: FileMeta)
    requires LevelsOk(files, v) && Unique(v) && CanMove(v, level, f)
    ensures FileOk(files, f) && InputsOk(files, v, level, {f.number})
    ensures OutputsOk(files, {f.number}, [f]) && Fits(v, {f.number}, level, [f])
  {
    Unfold(files, v);
    assert FileOk(files, f) by { if level > 0 { assert LevelOk(files, v[level]); } }
    ChosenIsOk(files, v, level, {f.number}, f.smallest.key, f.largest.key);
    assert NumbersOf([f]) == {f.number};
    forall g | g in v[level + 1] ensures Apart(g, f) {
      assert LevelOk(files, v[level + 1]) && FileOk(files, g) && RangeOk(f) && RangeOk(g);
    }
  }

  lemma MoveMisplaces(files: Files, v: Version, level: nat, f: FileMeta)
    requires Unique(v) && CanMove(v, level, f) && FileOk(files, f)
    ensures NoneMisplaced(files, v, {f.number}, level, [f]) <==> forall g :: !SplitAt(v, {f.number}, level, f, g)
  {
    forall g | SplitAt(v, {f.number}, level, f, g) ensures Misplaced(files, v, {f.number}, level, [f], f, g, f.largest) {
      OutputEntry(files, [f], f);
      assert f.largest in Content(files, f);
    }
    forall h, g, e | Misplaced(files, v, {f.number}, level, [f], h, g, e) ensures SplitAt(v, {f.number}, level, f, g) {
    }
  }

  // Files that were on the next level when the inputs were chosen always fit.
  lemma OldFilesFit(files: Files, v: Version, level: nat, inputs: set<nat>, lo: UserKey, hi: UserKey, outs: Level, g: FileMeta, o: FileMeta)
    requires Chosen(v, level, inputs, lo, hi) && LevelOk(files, v[level + 1]) && forall f :: f in v[level] && f.number in inputs ==> FileOk(files, f)
    requires OutputsOk(files, inputs, outs) && o in outs && g in v[level + 1] && g.number !in inputs
    ensures Apart(g, o)
  {
    assert FileOk(files, g) && FileOk(files, o);
    OutputEntry(files, outs, o);
    if g.largest.key < lo {
      AllAfter(files, v, level, inputs, lo, hi, g, o.smallest);
    } else {
      AllBefore(files, v, level, inputs, lo, hi, g, o.largest);
    }
  }

  lemma AllAfter(files: Files, v: Version, level: nat, inputs: set<nat>, lo: UserKey, hi: UserKey, g: FileMeta, e: Entry)
    requires Chosen(v, level, inputs, lo, hi) && LevelOk(files, v[level + 1]) && forall f :: f in v[level] && f.number in inputs ==> FileOk(files, f)
    requires g in v[level + 1] && g.number !in inputs && g.largest.key < lo && e in TableEntries(files, inputs)
    ensures Before(g.largest, e)
  {
    assert FileOk(files, g);
    var n :| n in inputs && n in files && e in files[n];
    if n in NumbersOf(v[level]) {
      var i :| i in v[level] && i.number == n;
      assert FileOk(files, i) && AtOrBefore(i.smallest, e);
    } else {
      var i :| i in v[level + 1] && i.number == n;
      assert FileOk(files, i) && AtOrBefore(i.smallest, e);
      TwoFiles(v[level + 1], g, i);
    }
  }

  lemma AllBefore(files: Files, v: Version, level: nat, inputs: set<nat>, lo: UserKey, hi: UserKey, g: FileMeta, e: Entry)
    requires Chosen(v, level, inputs, lo, hi) && LevelOk(files, v[level + 1]) && forall f :: f in v[level] && f.number in inputs ==> FileOk(files, f)
    requires g in v[level + 1] && g.number !in inputs && hi < g.smallest.key && e in TableEntries(files, inputs)
    ensures Before(e, g.smallest)
  {
    assert FileOk(files, g);
    var n :| n in inputs && n in files && e in files[n];
    if n in NumbersOf(v[level]) {
      var i :| i in v[level] && i.number == n;
      assert FileOk(files, i) && AtOrBefore(e, i.largest);
    } else {
      var i :| i in v[level + 1] && i.number == n;
      assert FileOk(files, i) && AtOrBefore(e, i.largest);
      TwoFiles(v[level + 1], g, i);
    }
  }

  lemma TwoFiles(fs: Level, f: FileMeta, g: FileMeta)
    requires InOrder(fs) && f in fs && g in fs && f != g
    ensures Before(f.largest, g.smallest) || Before(g.largest, f.smallest)
  {
    var i :| 0 <= i < |fs| && fs[i] == f;
    var j :| 0 <= j < |fs| && fs[j] == g;
    assert i < j || j < i;
  }

  lemma OutputsDiffer(files: Files, outs: Level)
    requires InOrder(outs) && forall o :: o in outs ==> FileOk(files, o)
    ensures forall f, g :: f in outs && g in outs && f.number == g.number ==> f == g
  {
    forall f, g | f in outs && g in outs && f.number == g.number ensures f == g {
      assert FileOk(files, f) && FileOk(files, g);
    }
  }

  lemma UniqueCompacted(files: Files, v: Version, level: nat, inputs: set<nat>, outs: Level)
    requires Unique(v) && level + 1 < |v| && InOrder(outs) && forall o :: o in outs ==> FileOk(files, o)
    requires forall l, f :: 0 <= l < |v| && f in v[l] && f.number !in inputs ==> f.number !in NumbersOf(outs)
    requires forall l, f :: 0 <= l < |v| && f in v[l] && f.number in inputs ==> l == level || l == level + 1
    ensures Unique(Compacted(v, level, inputs, outs))
  {
    var w := Compacted(v, level, inputs, outs);
    CompactedElements(v, level, inputs, outs);
    OutputsDiffer(files, outs);
    forall l: nat, m: nat, f: FileMeta, g: FileMeta | 0 <= l < |w| && 0 <= m < |w| && f in w[l] && g in w[m] && f.number == g.number ensures f == g && l == m {
      NewOrOld(v, level, inputs, outs, l, f);
      NewOrOld(v, level, inputs, outs, m, g);
    }
  }

  lemma NewOrOld(v: Version, level: nat, inputs: set<nat>, outs: Level, l: nat, f: FileMeta)
    requires level + 1 < |v| && l < |v| && f in Compacted(v, level, inputs, outs)[l]
    requires forall l, f :: 0 <= l < |v| && f in v[l] && f.number !in inputs ==> f.number !in NumbersOf(outs)
    requires forall l, f :: 0 <= l < |v| && f in v[l] && f.number in inputs ==> l == level || l == level + 1
    ensures (l == level + 1 && f in outs && f.number in NumbersOf(outs)) || (f in v[l] && f.number !in NumbersOf(outs))
  {
    CompactedElements(v, level, inputs, outs);
  }

  // ---------------------------------------------------------------- the base level

  // No file below the output level spans the key: what IsBaseLevelForKey finds out.
  ghost predicate AtBaseLevel(v: Version, level: nat, k: UserKey) {
    forall l, f :: level + 2 <= l < |v| && f in v[l] ==> !Spans(f, k)
  }

  ghost function BaseKeys(v: Version, level: nat, merged: seq<Entry>): set<UserKey> {
    set e | e in merged && AtBaseLevel(v, level, e.key) :: e.key
  }

  // A key at its base level whose older entries the choice of inputs leaves behind.
  ghost predicate LeftBehind(v: Version, level: nat, inputs: set<nat>, merged: seq<Entry>, l: nat, f: FileMeta, g: FileMeta) {
    level <= l <= level + 1 && SplitAt(v, inputs, l, f, g) && g.smallest.key in BaseKeys(v, level, merged)
  }

  lemma SpansOwn(files: Files, v: Version, l: nat, f: FileMeta, e: Entry)
    requires LevelsOk(files, v) && l < |v| && f in v[l] && e in Content(files, f)
    ensures Spans(f, e.key)
  {
    Unfold(files, v);
    assert FileOk(files, f) by { if l > 0 { assert LevelOk(files, v[l]); } }
    assert AtOrBefore(f.smallest, e) && AtOrBefore(e, f.largest);
  }

  // A file that is left and holds a base key of an input is above it, or beside it below level 0.
  lemma NotBelow(v: Version, level: nat, inputs: set<nat>, lo: UserKey, hi: UserKey, merged: seq<Entry>,
                 l: nat, g: FileMeta, w: nat, i: FileMeta, k: UserKey)
    requires Chosen(v, level, inputs, lo, hi) && k in BaseKeys(v, level, merged)
    requires l < |v| && g in v[l] && g.number !in inputs && Spans(g, k)
    requires level <= w <= level + 1 && i in v[w] && i.number in inputs && Spans(i, k)
    ensures l < w || 0 < l == w
  {
  }

  // Beside it: newer, or the key is split and these are its older entries.
  lemma BesideIsNewer(files: Files, v: Version, inputs: set<nat>, l: nat, i: FileMeta, g: FileMeta, m: Entry, o: Entry)
    requires 0 < l < |v| && LevelOk(files, v[l]) && i in v[l] && g in v[l] && i.number in inputs && g.number !in inputs
    requires m in Content(files, i) && o in Content(files, g) && m.key == o.key
    ensures m.seqno < o.seqno || (SplitAt(v, inputs, l, i, g) && g.smallest.key == o.key)
  {
    assert FileOk(files, i) && FileOk(files, g);
    TwoFiles(v[l], i, g);
    if Before(g.largest, i.smallest) { InOrderNewer(files, g, i); } else { InOrderNewer(files, i, g); }
  }

  // Outside the inputs: the files that stay, and writes that are in no table yet.
  function Outside(files: Files, v: Version, inputs: set<nat>, unflushed: set<Entry>): set<Entry> {
    TableEntries(files, Numbers(v) - inputs) + unflushed
  }

  // A deletion that decides its key at smallest_snapshot goes into the compaction, and the newest entry it
  // hides is a value with which a file left behind starts.
  ghost predicate Resurfaces(v: Version, level: nat, inputs: set<nat>, merged: seq<Entry>, others: set<Entry>, smallest: nat,
                             d: Entry, l: nat, f: FileMeta, g: FileMeta) {
    LeftBehind(v, level, inputs, merged, l, f, g) && d in merged && d.kind.Deletion? && d.key == g.smallest.key && g.smallest.kind.Put? &&
    IsNewest(Elements(merged) + others, d.key, smallest, d) && IsNewest(others, d.key, smallest, g.smallest)
  }

  ghost predicate NoneResurfaces(v: Version, level: nat, inputs: set<nat>, merged: seq<Entry>, others: set<Entry>, smallest: nat) {
    forall d, l, f, g :: !Resurfaces(v, level, inputs, merged, others, smallest, d, l, f, g)
  }

  // What the merge loop is given, next to what lies outside.
  ghost predicate MergeOk(files: Files, inputs: set<nat>, merged: seq<Entry>, others: set<Entry>) {
    Sorted(merged) && Elements(merged) == TableEntries(files, inputs) && UniqueTags(Elements(merged) + others) &&
    Readable(Elements(merged) + others)
  }

  lemma ResurfacingIsExposed(files: Files, v: Version, level: nat, inputs: set<nat>, merged: seq<Entry>, others: set<Entry>, smallest: nat,
                             d: Entry, l: nat, f: FileMeta, g: FileMeta) returns (i: nat)
    requires MergeOk(files, inputs, merged, others) && Resurfaces(v, level, inputs, merged, others, smallest, d, l, f, g)
    ensures Compaction.Exposed(merged, others, smallest, BaseKeys(v, level, merged), i, g.smallest)
  {
    var base, x := BaseKeys(v, level, merged), g.smallest;
    Compaction.KeptElements(merged, |merged|, smallest, base);
    i :| 0 <= i < |merged| && merged[i] == d;
    assert d in Elements(merged) + others && x in Elements(merged) + others;
    assert d !in others;
    assert forall j :: 0 <= j < |merged| ==> merged[j] in Elements(merged) + others;
    forall j | 0 <= j < |merged| && merged[j].key == d.key && merged[j].seqno <= smallest
      ensures Compaction.Dropped(merged, j, smallest, base)
    {
      if i < j { Compaction.OlderIsHidden(merged, smallest, base, i, j); }
    }
  }

  // The value that a dropped deletion hid lies in a file beside one of the inputs.
  lemma ExposedIsLeftBehind(files: Files, v: Version, level: nat, inputs: set<nat>, lo: UserKey, hi: UserKey, merged: seq<Entry>,
                            d: Entry, x: Entry, m: nat, h: FileMeta) returns (f: FileMeta)
    requires LevelsOk(files, v) && Unique(v) && Chosen(v, level, inputs, lo, hi) && Elements(merged) == TableEntries(files, inputs)
    requires d in merged && x.key == d.key && x.seqno < d.seqno && d.key in BaseKeys(v, level, merged)
    requires m < |v| && h in v[m] && h.number !in inputs && x in Content(files, h)
    ensures LeftBehind(v, level, inputs, merged, m, f, h) && h.smallest.key == x.key && x.seqno <= h.smallest.seqno < d.seqno
    ensures h.smallest in Content(files, h)
  {
    Unfold(files, v);
    ChosenIsOk(files, v, level, inputs, lo, hi);
    assert d in Elements(merged);
    var w, i := InputOf(files, v, level, inputs, d);
    f := i;
    SpansOwn(files, v, m, h, x);
    SpansOwn(files, v, w, i, d);
    NotBelow(v, level, inputs, lo, hi, merged, m, h, w, i, x.key);
    assert m < w ==> Newer(files, h, i);
    if m == w {
      assert LevelOk(files, v[m]) && FileOk(files, h) && FileOk(files, i);
      BesideIsNewer(files, v, inputs, m, i, h, d, x);
    }
  }

  lemma ExposedResurfaces(files: Files, v: Version, level: nat, inputs: set<nat>, lo: UserKey, hi: UserKey, merged: seq<Entry>,
                          unflushed: set<Entry>, smallest: nat, i: nat, x: Entry) returns (l: nat, f: FileMeta, g: FileMeta)
    requires LevelsOk(files, v) && Unique(v) && Chosen(v, level, inputs, lo, hi) && MergeOk(files, inputs, merged, Outside(files, v, inputs, unflushed))
    requires forall e, m :: e in unflushed && m in merged ==> m.seqno < e.seqno
    requires Compaction.Exposed(merged, Outside(files, v, inputs, unflushed), smallest, BaseKeys(v, level, merged), i, x)
    ensures Resurfaces(v, level, inputs, merged, Outside(files, v, inputs, unflushed), smallest, merged[i], l, f, g)
  {
    var others, d := Outside(files, v, inputs, unflushed), merged[i];
    ExposedOutside(merged, others, unflushed, smallest, BaseKeys(v, level, merged), i, x);
    var h: FileMeta;
    l, h := FileOutside(files, v, inputs, unflushed, x);
    g := h;
    f := ExposedIsLeftBehind(files, v, level, inputs, lo, hi, merged, d, x, l, g);
    SameTag(merged, others, x, g.smallest);
  }

  lemma ExposedOutside(merged: seq<Entry>, others: set<Entry>, unflushed: set<Entry>, smallest: nat, base: set<UserKey>, i: nat, x: Entry)
    requires Sorted(merged) && UniqueTags(Elements(merged) + others) && Readable(Elements(merged) + others)
    requires forall e, m :: e in unflushed && m in merged ==> m.seqno < e.seqno
    requires Compaction.Exposed(merged, others, smallest, base, i, x)
    ensures x in others && x !in unflushed && x.key == merged[i].key && x.seqno < merged[i].seqno && merged[i] in merged
    ensures IsNewest(others, merged[i].key, smallest, x) && merged[i].key in base
  {
    Compaction.WhereExposed(merged, others, smallest, base, i, x);
    AllRead(merged, others);
    OutsideDecides(merged, others, smallest, base, i, x);
  }

  lemma OutsideDecides(merged: seq<Entry>, others: set<Entry>, smallest: nat, base: set<UserKey>, i: nat, x: Entry)
    requires Compaction.Exposed(merged, others, smallest, base, i, x) && x in others
    ensures IsNewest(others, merged[i].key, smallest, x)
  {
  }

  lemma AllRead(merged: seq<Entry>, others: set<Entry>)
    requires Readable(Elements(merged) + others)
    ensures forall j :: 0 <= j < |merged| ==> Parses(merged[j]) && merged[j] in Elements(merged)
  {
    assert forall j :: 0 <= j < |merged| ==> merged[j] in Elements(merged) + others;
  }

  lemma SameTag(merged: seq<Entry>, others: set<Entry>, x: Entry, y: Entry)
    requires UniqueTags(Elements(merged) + others) && x in others && y in others && x.key == y.key && x.seqno == y.seqno
    ensures x == y
  {
  }

  // The file that an entry outside is in, and that what it starts with is outside too.
  lemma FileOutside(files: Files, v: Version, inputs: set<nat>, unflushed: set<Entry>, x: Entry) returns (l: nat, g: FileMeta)
    requires x in Outside(files, v, inputs, unflushed) && x !in unflushed
    ensures l < |v| && g in v[l] && g.number !in inputs && x in Content(files, g)
    ensures Content(files, g) <= Outside(files, v, inputs, unflushed)
  {
    var fs: Level;
    fs, g :| fs in v && g in fs && g.number !in inputs && x in Content(files, g);
    l :| 0 <= l < |v| && v[l] == fs;
    assert g.number in Numbers(v) - inputs;
  }

  // A compaction keeps every view exactly if no value left behind loses the deletion that hides it.
  lemma KeepsViewsIff(files: Files, v: Version, level: nat, inputs: set<nat>, lo: UserKey, hi: UserKey, merged: seq<Entry>,
                      unflushed: set<Entry>, smallest: nat)
    requires LevelsOk(files, v) && Unique(v) && Chosen(v, level, inputs, lo, hi) && MergeOk(files, inputs, merged, Outside(files, v, inputs, unflushed))
    requires forall e, m :: e in unflushed && m in merged ==> m.seqno < e.seqno
    ensures Compaction.KeepsViews(merged, Outside(files, v, inputs, unflushed), smallest, BaseKeys(v, level, merged)) <==>
            NoneResurfaces(v, level, inputs, merged, Outside(files, v, inputs, unflushed), smallest)
  {
    var others, base := Outside(files, v, inputs, unflushed), BaseKeys(v, level, merged);
    Compaction.CompactionKeepsViews(merged, others, smallest, base);
    if d, l, f, g :| Resurfaces(v, level, inputs, merged, others, smallest, d, l, f, g) {
      var i := ResurfacingIsExposed(files, v, level, inputs, merged, others, smallest, d, l, f, g);
    }
    if i, x :| Compaction.Exposed(merged, others, smallest, base, i, x) {
      var l, f, g := ExposedResurfaces(files, v, level, inputs, lo, hi, merged, unflushed, smallest, i, x);
    }
  }
}
