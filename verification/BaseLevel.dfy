/**
 Compaction::IsBaseLevelForKey (version_set.cc): the scan of the levels below the output level that
 never goes back, because a compaction asks about keys in ascending order.
 */
module BaseLevels {
  import opened InternalKeys
  import opened Options
  import opened Levels
  import opened LevelEdits

  predicate SomeSpans(fs: Level, k: UserKey) {
    exists f :: f in fs && Spans(f, k)
  }

  // As far as user keys go, files of a level below level 0 overlap in at most a boundary key.
  predicate KeysInOrder(fs: Level) {
    (forall j :: 0 <= j < |fs| ==> fs[j].smallest.key <= fs[j].largest.key) &&
    forall i, j :: 0 <= i < j < |fs| ==> fs[i].largest.key <= fs[j].smallest.key
  }

  // Files before a place end before the key, and those after it start no earlier than it ends.
  lemma StopsHere(fs: Level, i: nat, k: UserKey)
    requires KeysInOrder(fs) && i < |fs| && k <= fs[i].largest.key && forall j :: 0 <= j < i ==> fs[j].largest.key < k
    ensures SomeSpans(fs, k) <==> fs[i].smallest.key <= k
  {
    if fs[i].smallest.key <= k { assert Spans(fs[i], k); }
    if f :| f in fs && Spans(f, k) {
      var j :| 0 <= j < |fs| && fs[j] == f;
      if j > i { assert fs[i].largest.key <= fs[j].smallest.key; }
    }
  }

  class Compaction {
    const level: nat
    const inputVersion: Version
    var levelPtrs: seq<nat>
    ghost var asked: Option<UserKey>     // the last key asked about

    // Every file the scan has passed ends before the last key.
    ghost predicate PtrOk(l: nat)
      requires l < |inputVersion| == |levelPtrs|
      reads this
    {
      levelPtrs[l] <= |inputVersion[l]| &&
      forall j :: 0 <= j < levelPtrs[l] ==> asked.Some? && inputVersion[l][j].largest.key < asked.value
    }

    ghost predicate Valid() reads this {
      |inputVersion| == |levelPtrs| == kNumLevels && forall l :: 0 < l < kNumLevels ==> KeysInOrder(inputVersion[l]) && PtrOk(l)
    }

    constructor (level: nat, inputVersion: Version)
      requires |inputVersion| == kNumLevels && forall l :: 0 < l < kNumLevels ==> KeysInOrder(inputVersion[l])
      ensures Valid() && this.level == level && this.inputVersion == inputVersion && asked == None
    {
      this.level, this.inputVersion, levelPtrs, asked := level, inputVersion, seq(kNumLevels, l => 0), None;
    }

    // True exactly if no file below the output level spans the key.
    method IsBaseLevelForKey(k: UserKey) returns (r: bool)
      requires Valid() && (asked.Some? ==> asked.value <= k)
      modifies this
      ensures Valid() && asked == Some(k)
      ensures r <==> AtBaseLevel(inputVersion, level, k)
    {
      asked := Some(k);
      var lvl := level + 2;
      while lvl < kNumLevels
        invariant level + 2 <= lvl && Valid() && asked == Some(k)
        invariant forall l :: level + 2 <= l < lvl && l < kNumLevels ==> !SomeSpans(inputVersion[l], k)
      {
        var spanned := ScanLevel(lvl, k);
        if spanned {
          return false;
        }
        lvl := lvl + 1;
      }
      return true;
    }

    // The inner loop.
    method ScanLevel(lvl: nat, k: UserKey) returns (spanned: bool)
      requires Valid() && 0 < lvl < kNumLevels && asked == Some(k)
      modifies this`levelPtrs
      ensures Valid() && spanned == SomeSpans(inputVersion[lvl], k)
    {
      var files := inputVersion[lvl];
      while levelPtrs[lvl] < |files|
        invariant Valid() && files == inputVersion[lvl]
        decreases |files| - levelPtrs[lvl]
      {
        var f := files[levelPtrs[lvl]];
        if k <= f.largest.key {
          StopsHere(files, levelPtrs[lvl], k);
          return k >= f.smallest.key;
        }
        Advance(lvl);
      }
      return false;
    }

    method Advance(lvl: nat)
      requires Valid() && 0 < lvl < kNumLevels && asked.Some?
      requires levelPtrs[lvl] < |inputVersion[lvl]| && inputVersion[lvl][levelPtrs[lvl]].largest.key < asked.value
      modifies this`levelPtrs
      ensures Valid() && levelPtrs == old(levelPtrs)[lvl := old(levelPtrs)[lvl] + 1]
    {
      levelPtrs := levelPtrs[lvl := levelPtrs[lvl] + 1];
      forall l | 0 < l < kNumLevels ensures PtrOk(l) {
        assert old(PtrOk(l));
      }
    }
  }

  // The levels of a version in use are in this order.
  lemma LevelsInKeyOrder(files: Files, v: Version)
    requires LevelsOk(files, v)
    ensures |v| == kNumLevels && forall l :: 0 < l < kNumLevels ==> KeysInOrder(v[l])
  {
    Unfold(files, v);
    forall l | 0 < l < kNumLevels ensures KeysInOrder(v[l]) {
      assert LevelOk(files, v[l]);
      forall j | 0 <= j < |v[l]| ensures v[l][j].smallest.key <= v[l][j].largest.key {
        assert FileOk(files, v[l][j]);
      }
    }
  }
}
