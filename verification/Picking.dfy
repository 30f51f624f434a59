/**
 How version_set.cc chooses: the level of a flushed memtable, and the inputs of a compaction.
 */
module Picking {
  import opened InternalKeys
  import opened Options
  import opened Levels
  import opened LevelEdits
  import opened BaseLevels
  import DbFormat

  // ---------------------------------------------------------------- ranges of user keys

  // A missing bound leaves the range open.
  datatype Range = Range(begin: Option<UserKey>, end: Option<UserKey>)

  function RangeOf(smallest: Entry, largest: Entry): Range {
    Range(Some(smallest.key), Some(largest.key))
  }

  predicate AfterFile(r: Range, f: FileMeta) { r.begin.Some? && r.begin.value > f.largest.key }

  predicate BeforeFile(r: Range, f: FileMeta) { r.end.Some? && r.end.value < f.smallest.key }

  predicate Meets(f: FileMeta, r: Range) { !AfterFile(r, f) && !BeforeFile(r, f) }

  predicate Covers(r: Range, f: FileMeta) {
    (r.begin.Some? ==> r.begin.value <= f.smallest.key) && (r.end.Some? ==> f.largest.key <= r.end.value)
  }

  predicate Includes(r: Range, q: Range) {
    (r.begin.Some? ==> q.begin.Some? && r.begin.value <= q.begin.value) &&
    (r.end.Some? ==> q.end.Some? && q.end.value <= r.end.value)
  }

  // Every file that meets the range lies within it.
  predicate Closed(fs: Level, r: Range) {
    forall f :: f in fs && Meets(f, r) ==> Covers(r, f)
  }

  function Overlapping(fs: Level, r: Range): Level {
    if fs == [] then []
    else (if Meets(fs[0], r) then [fs[0]] else []) + Overlapping(fs[1..], r)
  }

  lemma {:induction false} OverlappingElements(fs: Level, r: Range)
    ensures forall f :: f in Overlapping(fs, r) <==> f in fs && Meets(f, r)
  {
    if fs != [] {
      OverlappingElements(fs[1..], r);
      assert fs == [fs[0]] + fs[1..];
    }
  }

  lemma {:induction false} OverlappingSnoc(fs: Level, f: FileMeta, r: Range)
    ensures Overlapping(fs + [f], r) == Overlapping(fs, r) + if Meets(f, r) then [f] else []
  {
    if fs == [] {
      assert fs + [f] == [f];
    } else {
      OverlappingSnoc(fs[1..], f, r);
      assert (fs + [f])[1..] == fs[1..] + [f];
    }
  }

  // A wider range that meets no more files meets the same ones.
  lemma {:induction false} WiderMeetsMore(fs: Level, r: Range, q: Range)
    requires Includes(q, r)
    ensures |Overlapping(fs, r)| <= |Overlapping(fs, q)|
    ensures |Overlapping(fs, r)| == |Overlapping(fs, q)| ==> Overlapping(fs, r) == Overlapping(fs, q)
  {
    if fs != [] { WiderMeetsMore(fs[1..], r, q); }
  }

  // ---------------------------------------------------------------- searching a level

  // The loop of FindFile.
  method BisectFiles(fs: Level, k: UserKey, snapshot: nat) returns (index: nat)
    ensures index == FindFile(fs, k, snapshot, 0, |fs|)
  {
    var left, right := 0, |fs|;
    while left < right
      invariant left <= right <= |fs|
      invariant FindFile(fs, k, snapshot, left, right) == FindFile(fs, k, snapshot, 0, |fs|)
    {
      var mid := (left + right) / 2;
      if BeforeKey(fs[mid].largest, k, snapshot) {
        left := mid + 1;
      } else {
        right := mid;
      }
    }
    return right;
  }

  predicate SequencesFit(fs: Level) {
    forall f :: f in fs ==> f.largest.seqno <= DbFormat.kMaxSequenceNumber
  }

  // Files of a level below level 0, searched for the first one that does not end before the range.
  lemma SearchDecides(fs: Level, r: Range, index: nat)
    requires KeysInOrder(fs) && index <= |fs|
    requires forall j :: 0 <= j < index ==> AfterFile(r, fs[j])
    requires forall j :: index <= j < |fs| ==> !AfterFile(r, fs[j])
    ensures (index < |fs| && !BeforeFile(r, fs[index])) <==> exists f :: f in fs && Meets(f, r)
  {
    if f :| f in fs && Meets(f, r) {
      var j :| 0 <= j < |fs| && fs[j] == f;
      assert index < j ==> fs[index].largest.key <= fs[j].smallest.key;
    }
    if index < |fs| && !BeforeFile(r, fs[index]) { assert Meets(fs[index], r); }
  }

  lemma SearchFindsBegin(fs: Level, k: UserKey)
    requires KeysInOrder(fs) && SequencesFit(fs)
    ensures var index := FindFile(fs, k, DbFormat.kMaxSequenceNumber, 0, |fs|);
            (forall j :: 0 <= j < index ==> fs[j].largest.key < k) && forall j :: index <= j < |fs| ==> k <= fs[j].largest.key
  {
    var most := DbFormat.kMaxSequenceNumber;
    forall j | 0 <= j < |fs| ensures BeforeKey(fs[j].largest, k, most) <==> fs[j].largest.key < k { assert fs[j] in fs; }
    forall i, j | 0 <= i < j < |fs| && BeforeKey(fs[j].largest, k, most) ensures BeforeKey(fs[i].largest, k, most) {
      assert fs[i].largest.key <= fs[j].smallest.key <= fs[j].largest.key;
    }
    FindFileSplits(fs, k, most, 0, |fs|);
  }

  // Both branches find out whether any file meets the range.
  method SomeFileOverlapsRange(disjoint: bool, fs: Level, r: Range) returns (some: bool)
    requires disjoint ==> KeysInOrder(fs) && SequencesFit(fs)
    ensures some <==> exists f :: f in fs && Meets(f, r)
  {
    if !disjoint {
      for i := 0 to |fs|
        invariant forall j :: 0 <= j < i ==> !Meets(fs[j], r)
      {
        if Meets(fs[i], r) { return true; }
      }
      return false;
    }
    var index := 0;
    if r.begin.Some? {
      SearchFindsBegin(fs, r.begin.value);
      index := BisectFiles(fs, r.begin.value, DbFormat.kMaxSequenceNumber);
    }
    SearchDecides(fs, r, index);
    return index < |fs| && !BeforeFile(r, fs[index]);
  }

  // ---------------------------------------------------------------- all overlapping files

  // How often the search of level 0 may still start again.
  function Sticking(fs: Level, r: Range): nat {
    if fs == [] then 0
    else Sticking(fs[1..], r) + (if r.begin.Some? && fs[0].smallest.key < r.begin.value then 1 else 0) +
         if r.end.Some? && r.end.value < fs[0].largest.key then 1 else 0
  }

  lemma {:induction false} WiderSticksLess(fs: Level, r: Range, q: Range, f: FileMeta)
    requires Includes(q, r) && (q.begin.Some? <==> r.begin.Some?) && (q.end.Some? <==> r.end.Some?)
    ensures Sticking(fs, q) <= Sticking(fs, r)
    ensures f in fs && !Covers(r, f) && Covers(q, f) ==> Sticking(fs, q) < Sticking(fs, r)
    ensures f in fs && r.begin.Some? && f.smallest.key < r.begin.value && q.begin.value <= f.smallest.key ==> Sticking(fs, q) < Sticking(fs, r)
    ensures f in fs && r.end.Some? && r.end.value < f.largest.key && f.largest.key <= q.end.value ==> Sticking(fs, q) < Sticking(fs, r)
  {
    if fs != [] { WiderSticksLess(fs[1..], r, q, f); }
  }

  // A closed range takes in whatever meets a part of it.
  lemma ClosedTakesIn(fs: Level, r: Range, range: Range, f: FileMeta)
    requires f in fs && Meets(f, range)
    requires forall q :: Includes(q, r) && Closed(fs, q) ==> Includes(q, range)
    ensures forall q :: Includes(q, r) && Closed(fs, q) ==>
              (range.begin.Some? && f.smallest.key < range.begin.value ==> Includes(q, range.(begin := Some(f.smallest.key)))) &&
              (range.end.Some? && f.largest.key > range.end.value ==> Includes(q, range.(end := Some(f.largest.key))))
  {
    forall q | Includes(q, r) && Closed(fs, q) ensures Covers(q, f) { assert Meets(f, q); }
  }

  // What the search for the files that meet a range comes to.
  ghost predicate Found(fs: Level, atZero: bool, r: Range, reached: Range, inputs: Level) {
    inputs == Overlapping(fs, reached) && Includes(reached, r) && (!atZero ==> reached == r) && (atZero ==> Closed(fs, reached)) &&
    forall q :: Includes(q, r) && Closed(fs, q) ==> Includes(q, reached)
  }

  ghost predicate FoundOn(v: Version, level: nat, r: Range, reached: Range, inputs: Level)
    requires level < |v|
  {
    Found(v[level], level == 0, r, reached, inputs)
  }

  // GetOverlappingInputs: the files that meet the range; on level 0 the least range around it that
  // covers whatever it meets.
  method GetOverlappingInputs(fs: Level, atZero: bool, r: Range) returns (inputs: Level, ghost reached: Range)
    ensures inputs == Overlapping(fs, reached)
    ensures Includes(reached, r) && (!atZero ==> reached == r) && (atZero ==> Closed(fs, reached))
    ensures forall q :: Includes(q, r) && Closed(fs, q) ==> Includes(q, reached)
  {
    inputs := [];
    var range := r;
    var i := 0;
    while i < |fs|
      invariant i <= |fs| && inputs == Overlapping(fs[..i], range)
      invariant Includes(range, r) && (!atZero ==> range == r)
      invariant (range.begin.Some? <==> r.begin.Some?) && (range.end.Some? <==> r.end.Some?)
      invariant atZero ==> forall j :: 0 <= j < i && Meets(fs[j], range) ==> Covers(range, fs[j])
      invariant forall q :: Includes(q, r) && Closed(fs, q) ==> Includes(q, range)
      decreases Sticking(fs, range), |fs| - i
    {
      var f := fs[i];
      i := i + 1;
      OverlappingSnoc(fs[..i - 1], f, range);
      assert fs[..i] == fs[..i - 1] + [f];
      if Meets(f, range) {
        inputs := inputs + [f];
        ClosedTakesIn(fs, r, range, f);
        if atZero {
          if range.begin.Some? && f.smallest.key < range.begin.value {
            WiderSticksLess(fs, range, range.(begin := Some(f.smallest.key)), f);
            range, inputs, i := range.(begin := Some(f.smallest.key)), [], 0;
          } else if range.end.Some? && f.largest.key > range.end.value {
            WiderSticksLess(fs, range, range.(end := Some(f.largest.key)), f);
            range, inputs, i := range.(end := Some(f.largest.key)), [], 0;
          }
        }
      }
    }
    assert fs[..i] == fs;
    reached := range;
  }

  // ---------------------------------------------------------------- sizes and bounds

  function Total(fs: Level, size: FileMeta -> nat): nat {
    if fs == [] then 0 else Total(fs[..|fs| - 1], size) + size(fs[|fs| - 1])
  }

  method TotalFileSize(fs: Level, size: FileMeta -> nat) returns (sum: nat)
    ensures sum == Total(fs, size)
  {
    sum := 0;
    for i := 0 to |fs|
      invariant sum == Total(fs[..i], size)
    {
      sum := sum + size(fs[i]);
      assert fs[..i + 1][..i] == fs[..i];
    }
    assert fs[..|fs|] == fs;
  }

  // The first and the last entry of some files.
  predicate Bounds(fs: Level, smallest: Entry, largest: Entry) {
    (exists f :: f in fs && f.smallest == smallest) && (exists f :: f in fs && f.largest == largest) &&
    forall f :: f in fs ==> AtOrBefore(smallest, f.smallest) && AtOrBefore(f.largest, largest)
  }

  method GetRange(inputs: Level) returns (smallest: Entry, largest: Entry)
    requires inputs != []
    ensures Bounds(inputs, smallest, largest)
  {
    smallest, largest := inputs[0].smallest, inputs[0].largest;
    for i := 1 to |inputs|
      invariant Bounds(inputs[..i], smallest, largest)
    {
      var f := inputs[i];
      assert inputs[..i + 1] == inputs[..i] + [f];
      if Before(f.smallest, smallest) { smallest := f.smallest; }
      if Before(largest, f.largest) { largest := f.largest; }
      assert f in inputs[..i + 1];
    }
    assert inputs[..|inputs|] == inputs;
  }

  // The bounds differ in nothing that a range shows.
  lemma BoundsAreOne(fs: Level, smallest: Entry, largest: Entry, smallest': Entry, largest': Entry)
    requires Bounds(fs, smallest, largest) && Bounds(fs, smallest', largest')
    ensures RangeOf(smallest, largest) == RangeOf(smallest', largest')
  {
    var a, b :| a in fs && a.smallest == smallest && b in fs && b.smallest == smallest';
    var x, y :| x in fs && x.largest == largest && y in fs && y.largest == largest';
    assert AtOrBefore(smallest, smallest') && AtOrBefore(smallest', smallest);
    assert AtOrBefore(largest, largest') && AtOrBefore(largest', largest);
  }

  lemma BoundsCover(fs: Level, smallest: Entry, largest: Entry)
    requires Bounds(fs, smallest, largest)
    ensures forall f :: f in fs ==> Covers(RangeOf(smallest, largest), f)
  {
  }

  // ---------------------------------------------------------------- the version set

  // The input files of a compaction on the two levels, and the files below that its outputs may meet.
  datatype Inputs = Inputs(level: nat, upper: Level, lower: Level, grandparents: Level, smallest: Entry, largest: Entry)
  {
    function Numbers(): set<nat> { NumbersOf(upper) + NumbersOf(lower) }
  }

  // The files of a level around the inputs: those that meet the range from start to limit, which the search
  // reached.
  datatype Around = Around(start: Entry, limit: Entry, reached: Range, files: Level)

  // A choice that the rest of the engine can rely on: Chosen, with the range of the upper files.
  ghost predicate Picked(v: Version, c: Inputs) {
    c.level + 1 < |v| && c.upper != [] && Bounds(c.upper, c.smallest, c.largest) &&
    (forall f :: f in c.upper ==> f in v[c.level]) && c.lower == Overlapping(v[c.level + 1], RangeOf(c.smallest, c.largest)) &&
    Chosen(v, c.level, c.Numbers(), c.smallest.key, c.largest.key)
  }

  // Some files of a level; on level 0 all that meet their range.
  ghost predicate Whole(v: Version, level: nat, fs: Level) {
    level < |v| && fs != [] && (forall f :: f in fs ==> f in v[level]) &&
    (level == 0 ==> forall smallest, largest :: Bounds(fs, smallest, largest) ==>
       forall f :: f in v[0] && Meets(f, RangeOf(smallest, largest)) ==> f in fs)
  }

  // Files that meet a range, which is closed on level 0, are whole.
  lemma OverlappingIsWhole(v: Version, level: nat, r: Range)
    requires level < |v| && (level == 0 ==> Closed(v[0], r)) && Overlapping(v[level], r) != []
    ensures Whole(v, level, Overlapping(v[level], r))
  {
    var fs := Overlapping(v[level], r);
    OverlappingElements(v[level], r);
    if level == 0 {
      forall smallest, largest, f | Bounds(fs, smallest, largest) && f in v[0] && Meets(f, RangeOf(smallest, largest)) ensures f in fs {
        var a :| a in fs && a.smallest == smallest;
        var b :| b in fs && b.largest == largest;
        assert Covers(r, a) && Covers(r, b);
      }
    }
  }

  lemma FirstPartIsWhole(v: Version, level: nat, fs: Level, n: nat)
    requires Whole(v, level, fs) && level > 0 && 0 < n <= |fs|
    ensures Whole(v, level, fs[..n])
  {
  }

  // A number of the inputs belongs to one of their files.
  lemma InputNumbers(v: Version, c: Inputs, l: nat, f: FileMeta)
    requires c.level <= l <= c.level + 1 < |v| && Unique(v) && f in v[l] && f.number in c.Numbers()
    requires (forall g :: g in c.upper ==> g in v[c.level]) && forall g :: g in c.lower ==> g in v[c.level + 1]
    ensures (l == c.level && f in c.upper) || (l == c.level + 1 && f in c.lower)
  {
    if f.number in NumbersOf(c.upper) {
      var g :| g in c.upper && g.number == f.number;
    } else {
      var g :| g in c.lower && g.number == f.number;
    }
  }

  lemma WholeIsPicked(v: Version, c: Inputs)
    requires c.level + 1 < |v| && Unique(v) && Whole(v, c.level, c.upper) && Bounds(c.upper, c.smallest, c.largest)
    requires c.lower == Overlapping(v[c.level + 1], RangeOf(c.smallest, c.largest))
    ensures Picked(v, c)
  {
    OverlappingElements(v[c.level + 1], RangeOf(c.smallest, c.largest));
    BoundsCover(c.upper, c.smallest, c.largest);
    WholeIsChosen(v, c);
  }

  lemma WholeIsChosen(v: Version, c: Inputs)
    requires c.level + 1 < |v| && Unique(v) && Whole(v, c.level, c.upper) && Bounds(c.upper, c.smallest, c.largest)
    requires forall f :: f in c.lower <==> f in v[c.level + 1] && Meets(f, RangeOf(c.smallest, c.largest))
    requires forall f :: f in c.upper ==> Covers(RangeOf(c.smallest, c.largest), f)
    ensures Chosen(v, c.level, c.Numbers(), c.smallest.key, c.largest.key)
  {
    var r := RangeOf(c.smallest, c.largest);
    forall f | f in v[c.level] && f.number in c.Numbers() ensures c.smallest.key <= f.smallest.key && f.largest.key <= c.largest.key {
      InputNumbers(v, c, c.level, f);
      assert Covers(r, f);
    }
    forall f | f in v[c.level + 1] ensures f.number in c.Numbers() <==> Overlaps(f, c.smallest.key, c.largest.key) {
      if f.number in c.Numbers() { InputNumbers(v, c, c.level + 1, f); }
      assert Meets(f, r) <==> Overlaps(f, c.smallest.key, c.largest.key);
    }
    if c.level == 0 {
      forall f | f in v[0] && Overlaps(f, c.smallest.key, c.largest.key) ensures f.number in c.Numbers() { assert Meets(f, r); }
    }
  }

  lemma GrandparentsPicked(v: Version, c: Inputs, grandparents: Level)
    requires Picked(v, c)
    ensures Picked(v, c.(grandparents := grandparents))
  {
    assert c.(grandparents := grandparents).Numbers() == c.Numbers();
  }

  // A wider search finds the chosen files again.
  lemma StaysChosen(fs: Level, chosen: Level, all: Level, start: Entry, limit: Entry, r: Range)
    requires (forall f :: f in chosen ==> f in fs && f in all) && Bounds(all, start, limit) && Includes(r, RangeOf(start, limit))
    requires forall f :: f in chosen ==> RangeOk(f)
    ensures forall f :: f in chosen ==> f in Overlapping(fs, r)
  {
    OverlappingElements(fs, r);
    BoundsCover(all, start, limit);
  }

  lemma WiderBounds(a: Level, b: Level, s: Entry, l: Entry, s': Entry, l': Entry)
    requires Bounds(a, s, l) && Bounds(b, s', l') && forall f :: f in a ==> f in b
    ensures Includes(RangeOf(s', l'), RangeOf(s, l))
  {
  }

  // The search only widens its range when it meets something.
  lemma NoneMeets(fs: Level, r: Range, reached: Range)
    requires Includes(reached, r) && forall q :: Includes(q, r) && Closed(fs, q) ==> Includes(q, reached)
    ensures Overlapping(fs, reached) == [] <==> forall f :: f in fs ==> !Meets(f, r)
  {
    OverlappingElements(fs, reached);
    assert Overlapping(fs, reached) != [] ==> Overlapping(fs, reached)[0] in fs && Meets(Overlapping(fs, reached)[0], reached);
    assert (forall f :: f in fs ==> !Meets(f, r)) ==> Closed(fs, r);
  }

  // A file is found again around its own range.
  lemma OwnRange(fs: Level, f: FileMeta, smallest: Entry, largest: Entry, r: Range)
    requires f in fs && RangeOk(f) && Bounds([f], smallest, largest) && Includes(r, RangeOf(smallest, largest))
    ensures f in Overlapping(fs, r)
  {
    OverlappingElements(fs, r);
    assert f in [f];
  }

  ghost predicate RangesOk(v: Version) {
    forall l, f :: 0 <= l < |v| && f in v[l] ==> RangeOk(f)
  }

  // The first file that ends after the place where the last compaction of the level stopped.
  predicate NextInTurn(fs: Level, pointer: Option<Entry>, f: FileMeta) {
    exists i :: 0 <= i < |fs| && fs[i] == f && EndsAfter(f, pointer) && forall j :: 0 <= j < i ==> !EndsAfter(fs[j], pointer)
  }

  // ... or else the first of all.
  predicate IsNext(fs: Level, pointer: Option<Entry>, f: FileMeta) {
    NextInTurn(fs, pointer, f) || (fs != [] && f == fs[0] && forall g :: g in fs ==> !EndsAfter(g, pointer))
  }

  predicate EndsAfter(f: FileMeta, pointer: Option<Entry>) { pointer.None? || Before(pointer.value, f.largest) }

  class VersionSet {
    const maxFileSize: nat               // options_->max_file_size
    const fileSize: FileMeta -> nat
    var current: Version
    var compactPointers: seq<Option<Entry>>

    ghost predicate Valid() reads this {
      |current| == |compactPointers| == kNumLevels && Unique(current) && RangesOk(current)
    }

    constructor (maxFileSize: nat, fileSize: FileMeta -> nat, current: Version)
      requires |current| == kNumLevels && Unique(current) && RangesOk(current)
      ensures Valid() && this.maxFileSize == maxFileSize && this.fileSize == fileSize && this.current == current
    {
      this.maxFileSize, this.fileSize, this.current, compactPointers := maxFileSize, fileSize, current, seq(kNumLevels, l => None);
    }

    predicate Heavy(grandparents: Level) { Total(grandparents, fileSize) > 10 * maxFileSize }

    // Nothing on the next level meets the table, and little on the level after that.
    predicate Pushes(level: nat, r: Range)
      requires level + 1 < |current|
      reads this
    {
      (forall f :: f in current[level + 1] ==> !Meets(f, r)) &&
      (level + 2 < |current| ==> !Heavy(Overlapping(current[level + 2], r)))
    }

    method CanPush(level: nat, r: Range) returns (can: bool)
      requires |current| == kNumLevels && level + 1 < kNumLevels && KeysInOrder(current[level + 1]) && SequencesFit(current[level + 1])
      ensures can <==> Pushes(level, r)
    {
      var overlap := SomeFileOverlapsRange(true, current[level + 1], r);
      if overlap {
        return false;
      }
      if level + 2 < kNumLevels {
        var overlaps, _ := GetOverlappingInputs(current[level + 2], false, r);
        var sum := TotalFileSize(overlaps, fileSize);
        return sum <= 10 * maxFileSize;
      }
      return true;
    }

    // A flushed table goes down as far as nothing holds it up, level 2 at most.
    method PickLevelForMemTableOutput(lo: UserKey, hi: UserKey) returns (level: nat)
      requires |current| == kNumLevels && forall l :: 0 < l < kNumLevels ==> KeysInOrder(current[l]) && SequencesFit(current[l])
      ensures level <= kMaxMemCompactLevel && forall l :: 0 <= l < level ==> Pushes(l, Range(Some(lo), Some(hi)))
      ensures level > 0 ==> forall f :: f in current[0] ==> !Meets(f, Range(Some(lo), Some(hi)))
      ensures level == kMaxMemCompactLevel || (exists f :: f in current[0] && Meets(f, Range(Some(lo), Some(hi)))) || !Pushes(level, Range(Some(lo), Some(hi)))
    {
      var r := Range(Some(lo), Some(hi));
      level := 0;
      var overlap := SomeFileOverlapsRange(false, current[0], r);
      if !overlap {
        while level < kMaxMemCompactLevel
          invariant level <= kMaxMemCompactLevel
          invariant forall l :: 0 <= l < level ==> Pushes(l, r)
        {
          var can := CanPush(level, r);
          if !can { break; }
          level := level + 1;
        }
      }
    }

    // There is room for the table on that level.
    lemma PickedPlaceOk(f: FileMeta, level: nat)
      requires |current| == kNumLevels && level <= kMaxMemCompactLevel
      requires forall l :: 0 <= l < level ==> Pushes(l, RangeOf(f.smallest, f.largest))
      requires level > 0 ==> forall g :: g in current[0] ==> !Meets(g, RangeOf(f.smallest, f.largest))
      ensures PlaceOk(current, level, f)
    {
      forall l, g | level > 0 && 0 <= l <= level && g in current[l] ensures !Overlaps(g, f.smallest.key, f.largest.key) {
        if l > 0 { assert Pushes(l - 1, RangeOf(f.smallest, f.largest)); }
        assert !Meets(g, RangeOf(f.smallest, f.largest));
      }
    }

    // The files of the next level that the chosen ones meet.
    method MeetNextLevel(level: nat, chosen: Level) returns (c: Inputs)
      requires Valid() && level + 1 < kNumLevels && Whole(current, level, chosen)
      ensures Picked(current, c) && c.level == level && c.upper == chosen
    {
      var smallest, largest := GetRange(chosen);
      var lower, _ := GetOverlappingInputs(current[level + 1], false, RangeOf(smallest, largest));
      c := Inputs(level, chosen, lower, [], smallest, largest);
      WholeIsPicked(current, c);
    }

    // The files of the level that meet the range of the inputs on both levels.
    ghost predicate IsWider(level: nat, upper: Level, lower: Level, wider: Around)
      requires level < |current|
      reads this`current
    {
      Bounds(upper + lower, wider.start, wider.limit) && FoundOn(current, level, RangeOf(wider.start, wider.limit), wider.reached, wider.files)
    }

    // They are taken if they are more, stay below the size limit, and take in no more of the next level.
    ghost predicate Grows(level: nat, upper: Level, lower: Level, wider: Level)
      requires level + 1 < |current|
      reads this`current
    {
      |wider| > |upper| && Total(lower, fileSize) + Total(wider, fileSize) < 25 * maxFileSize &&
      forall start, limit :: Bounds(wider, start, limit) ==> |Overlapping(current[level + 1], RangeOf(start, limit))| == |lower|
    }

    lemma GrowsIf(c: Inputs, wider: Level, start: Entry, limit: Entry)
      requires c.level + 1 < |current| && Bounds(wider, start, limit)
      requires |wider| > |c.upper| && Total(c.lower, fileSize) + Total(wider, fileSize) < 25 * maxFileSize
      ensures Grows(c.level, c.upper, c.lower, wider) <==> |Overlapping(current[c.level + 1], RangeOf(start, limit))| == |c.lower|
    {
      forall s, l | Bounds(wider, s, l) ensures RangeOf(s, l) == RangeOf(start, limit) { BoundsAreOne(wider, s, l, start, limit); }
    }

    // The upper inputs are what was chosen, or grown if they can grow.
    ghost predicate Expanded(level: nat, chosen: Level, upper: Level, lower: Level, wider: Around)
      requires level + 1 < |current|
      reads this`current
    {
      if lower == [] then upper == chosen
      else IsWider(level, chosen, lower, wider) && upper == if Grows(level, chosen, lower, wider.files) then wider.files else chosen
    }

    // All files of the level that meet the range of the inputs on both levels.
    method WiderUpper(c: Inputs) returns (upper: Level, ghost wider: Around)
      requires Valid() && Picked(current, c) && Whole(current, c.level, c.upper)
      ensures (forall f :: f in c.upper ==> f in upper) && Whole(current, c.level, upper)
      ensures IsWider(c.level, c.upper, c.lower, wider) && upper == wider.files
    {
      var allStart, allLimit := GetRange(c.upper + c.lower);
      ghost var reached;
      upper, reached := GetOverlappingInputs(current[c.level], c.level == 0, RangeOf(allStart, allLimit));
      wider := Around(allStart, allLimit, reached, upper);
      StaysChosen(current[c.level], c.upper, c.upper + c.lower, allStart, allLimit, reached);
      assert c.upper[0] in upper;
      OverlappingIsWhole(current, c.level, reached);
    }

    // More files of the level, if they take in no more of the next one and stay below the size limit.
    method Expand(c: Inputs) returns (e: Inputs, ghost wider: Around)
      requires Valid() && Picked(current, c) && Whole(current, c.level, c.upper) && c.lower != []
      ensures Expanded(c.level, c.upper, e.upper, e.lower, wider)
      ensures Picked(current, e) && e.level == c.level && e.lower == c.lower && forall f :: f in c.upper ==> f in e.upper
    {
      var upper;
      upper, wider := WiderUpper(c);
      var lowerSize := TotalFileSize(c.lower, fileSize);
      var upperSize := TotalFileSize(upper, fileSize);
      e := c;
      if |upper| > |c.upper| && lowerSize + upperSize < 25 * maxFileSize {
        e := TakeUpper(c, upper);
      }
    }

    // Take the files if they bring no more of the next level.
    method TakeUpper(c: Inputs, upper: Level) returns (e: Inputs)
      requires Valid() && Picked(current, c) && Whole(current, c.level, c.upper) && Whole(current, c.level, upper)
      requires |upper| > |c.upper| && (forall f :: f in c.upper ==> f in upper)
      requires Total(c.lower, fileSize) + Total(upper, fileSize) < 25 * maxFileSize
      ensures Picked(current, e) && e.level == c.level && e.lower == c.lower
      ensures if Grows(c.level, c.upper, c.lower, upper) then e.upper == upper else e == c
    {
      var newStart, newLimit := GetRange(upper);
      var lower, _ := GetOverlappingInputs(current[c.level + 1], false, RangeOf(newStart, newLimit));
      GrowsIf(c, upper, newStart, newLimit);
      e := c;
      if |lower| == |c.lower| {
        e := Inputs(c.level, upper, lower, [], newStart, newLimit);
        WholeIsPicked(current, e);
        WiderBounds(c.upper, upper, c.smallest, c.largest, newStart, newLimit);
        WiderMeetsMore(current[c.level + 1], RangeOf(c.smallest, c.largest), RangeOf(newStart, newLimit));
      }
    }

    predicate Light(c: Inputs) { Total(c.lower, fileSize) + Total(c.upper, fileSize) < 25 * maxFileSize }

    // The files that the outputs may meet when they are compacted in turn.
    method Grandparents(c: Inputs) returns (fs: Level)
      requires c.upper != [] && c.level + 2 < |current|
      ensures exists start, limit :: Bounds(c.upper + c.lower, start, limit) && fs == Overlapping(current[c.level + 2], RangeOf(start, limit))
    {
      var allStart, allLimit := GetRange(c.upper + c.lower);
      ghost var reached;
      fs, reached := GetOverlappingInputs(current[c.level + 2], false, RangeOf(allStart, allLimit));
    }

    method BothLevels(level: nat, chosen: Level) returns (c: Inputs, ghost wider: Around)
      requires Valid() && level + 1 < kNumLevels && Whole(current, level, chosen)
      ensures Picked(current, c) && c.level == level && (forall f :: f in chosen ==> f in c.upper)
      ensures c.upper != chosen ==> |c.upper| > |chosen| && c.lower != [] && Light(c)
      ensures Expanded(level, chosen, c.upper, c.lower, wider)
    {
      c := MeetNextLevel(level, chosen);
      wider := Around(c.smallest, c.largest, RangeOf(c.smallest, c.largest), chosen);
      if c.lower != [] {
        c, wider := Expand(c);
      }
    }

    method OtherInputs(level: nat, chosen: Level) returns (c: Inputs, ghost wider: Around)
      requires Valid() && level + 1 < kNumLevels && Whole(current, level, chosen)
      ensures Picked(current, c) && c.level == level && (forall f :: f in chosen ==> f in c.upper)
      ensures c.upper != chosen ==> |c.upper| > |chosen| && c.lower != [] && Light(c)
      ensures Expanded(level, chosen, c.upper, c.lower, wider)
    {
      c, wider := BothLevels(level, chosen);
      if level + 2 < kNumLevels {
        var grandparents := Grandparents(c);
        GrandparentsPicked(current, c, grandparents);
        c := c.(grandparents := grandparents);
      }
    }

    // All inputs, given some of the upper level, and where the next compaction of the level will go on.
    method SetupOtherInputs(level: nat, chosen: Level) returns (c: Inputs, ghost wider: Around)
      requires Valid() && level + 1 < kNumLevels && Whole(current, level, chosen)
      modifies this`compactPointers
      ensures Valid() && Picked(current, c) && c.level == level && (forall f :: f in chosen ==> f in c.upper)
      ensures c.upper != chosen ==> |c.upper| > |chosen| && c.lower != [] && Light(c)
      ensures Expanded(level, chosen, c.upper, c.lower, wider)
      ensures compactPointers == old(compactPointers)[level := Some(c.largest)]
    {
      c, wider := OtherInputs(level, chosen);
      compactPointers := compactPointers[level := Some(c.largest)];
    }

    // The first file of the level that ends after the pointer, or the first of all.
    method NextFile(level: nat) returns (f: FileMeta)
      requires Valid() && level < kNumLevels && current[level] != []
      ensures f in current[level]
      ensures IsNext(current[level], compactPointers[level], f)
    {
      for i := 0 to |current[level]|
        invariant forall j :: 0 <= j < i ==> !EndsAfter(current[level][j], compactPointers[level])
      {
        f := current[level][i];
        if EndsAfter(f, compactPointers[level]) {
          return;
        }
      }
      f := current[level][0];
    }

    // On level 0 a file is not compacted without those it overlaps.
    method WithOverlaps(level: nat, f: FileMeta) returns (chosen: Level)
      requires Valid() && level < kNumLevels && f in current[level]
      ensures Whole(current, level, chosen) && f in chosen && (level > 0 ==> chosen == [f])
    {
      chosen := [f];
      if level == 0 {
        var smallest, largest := GetRange(chosen);
        ghost var reached;
        chosen, reached := GetOverlappingInputs(current[0], true, RangeOf(smallest, largest));
        OwnRange(current[0], f, smallest, largest, reached);
        OverlappingIsWhole(current, 0, reached);
      }
    }

    method PickFile(size: Option<nat>, seek: Option<(nat, FileMeta)>) returns (level: nat, f: FileMeta)
      requires Valid() && (size.Some? ==> size.value + 1 < kNumLevels && current[size.value] != []) && (size.Some? || seek.Some?)
      requires seek.Some? ==> seek.value.0 + 1 < kNumLevels && seek.value.1 in current[seek.value.0]
      ensures level + 1 < kNumLevels && f in current[level] && level == if size.Some? then size.value else seek.value.0
      ensures if size.Some? then IsNext(current[level], compactPointers[level], f) else f == seek.value.1
    {
      if size.Some? {
        level := size.value;
        f := NextFile(level);
      } else {
        level, f := seek.value.0, seek.value.1;
      }
    }

    // A compaction for size goes through the files of its level in turn; one for seeks takes the file
    // that was searched in vain too often.
    method PickCompaction(size: Option<nat>, seek: Option<(nat, FileMeta)>) returns (c: Option<Inputs>, ghost chosen: Level, ghost wider: Option<Around>)
      requires Valid() && (size.Some? ==> size.value + 1 < kNumLevels && current[size.value] != [])
      requires seek.Some? ==> seek.value.0 + 1 < kNumLevels && seek.value.1 in current[seek.value.0]
      modifies this`compactPointers
      ensures Valid() && (c.None? <==> size.None? && seek.None?)
      ensures c.Some? ==> Picked(current, c.value) && c.value.level == if size.Some? then size.value else seek.value.0
      ensures size.Some? ==>
                exists f :: f in c.value.upper && IsNext(current[size.value], old(compactPointers)[size.value], f)
      ensures size.None? && seek.Some? ==> seek.value.1 in c.value.upper
      ensures c.Some? ==> wider.Some? && Expanded(c.value.level, chosen, c.value.upper, c.value.lower, wider.value) && Whole(current, c.value.level, chosen) &&
                          (size.None? ==> seek.value.1 in chosen) && (c.value.level > 0 ==> |chosen| == 1)
      ensures size.Some? ==> exists f :: f in chosen && IsNext(current[size.value], old(compactPointers)[size.value], f)
    {
      if size.None? && seek.None? {
        return None, [], None;
      }
      var level, f := PickFile(size, seek);
      var upper := WithOverlaps(level, f);
      chosen := upper;
      ghost var around;
      var inputs;
      inputs, around := SetupOtherInputs(level, upper);
      c, wider := Some(inputs), Some(around);
    }

    // As many files as it takes to reach the size, or all.
    predicate CutToSize(all: Level, n: nat)
      requires n <= |all|
    {
      (forall i :: 0 < i < n ==> Total(all[..i], fileSize) < maxFileSize) && (n == |all| || Total(all[..n], fileSize) >= maxFileSize)
    }

    method FirstPart(all: Level) returns (inputs: Level)
      requires all != []
      ensures 0 < |inputs| <= |all| && inputs == all[..|inputs|] && CutToSize(all, |inputs|)
    {
      var total, i := 0, 0;
      while i < |all|
        invariant i <= |all| && total == Total(all[..i], fileSize)
        invariant forall j :: 0 < j <= i ==> Total(all[..j], fileSize) < maxFileSize
      {
        total := total + fileSize(all[i]);
        i := i + 1;
        assert all[..i][..i - 1] == all[..i - 1];
        if total >= maxFileSize { break; }
      }
      inputs := all[..i];
    }

    // What meets the range, below level 0 no more than one file's worth.
    method FilesToCompact(level: nat, r: Range) returns (chosen: Level)
      requires Valid() && level < kNumLevels
      ensures chosen == [] <==> forall f :: f in current[level] ==> !Meets(f, r)
      ensures chosen != [] ==> Whole(current, level, chosen)
      ensures level == 0 ==> (forall f :: f in current[0] && Meets(f, r) ==> f in chosen) && exists reached :: Found(current[0], true, r, reached, chosen)
      ensures level > 0 ==> var all := Overlapping(current[level], r); |chosen| <= |all| && chosen == all[..|chosen|] && CutToSize(all, |chosen|)
    {
      var all, reached := GetOverlappingInputs(current[level], level == 0, r);
      assert Found(current[level], level == 0, r, reached, all);
      OverlappingElements(current[level], reached);
      NoneMeets(current[level], r, reached);
      assert all[..|all|] == all;
      chosen := all;
      if all != [] {
        OverlappingIsWhole(current, level, reached);
        if level > 0 {
          chosen := FirstPart(all);
          FirstPartIsWhole(current, level, all, |chosen|);
        }
      }
    }

    // A manual compaction.
    method CompactRange(level: nat, r: Range) returns (c: Option<Inputs>, chosen: Level, ghost wider: Option<Around>)
      requires Valid() && level + 1 < kNumLevels
      modifies this`compactPointers
      ensures Valid() && (c.None? <==> forall f :: f in current[level] ==> !Meets(f, r))
      ensures c.Some? ==> Picked(current, c.value) && c.value.level == level && wider.Some? && Expanded(level, chosen, c.value.upper, c.value.lower, wider.value)
      ensures c.Some? && level == 0 ==> forall f :: f in current[0] && Meets(f, r) ==> f in c.value.upper
      ensures c.Some? && level == 0 ==> exists reached :: Found(current[0], true, r, reached, chosen)
      ensures c.Some? && level > 0 ==>
                var all := Overlapping(current[level], r); 0 < |chosen| <= |all| && chosen == all[..|chosen|] && CutToSize(all, |chosen|)
      ensures c.None? ==> compactPointers == old(compactPointers)
    {
      chosen := FilesToCompact(level, r);
      if chosen == [] {
        return None, chosen, None;
      }
      ghost var around;
      var picked;
      picked, around := SetupOtherInputs(level, chosen);
      c, wider := Some(picked), Some(around);
    }

    // A move: one file, none on the next level, and few below.
    predicate IsTrivialMove(c: Inputs) {
      |c.upper| == 1 && c.lower == [] && !Heavy(c.grandparents)
    }

    // Then the move is a step of the engine.
    lemma SingleFileCanMove(c: Inputs)
      requires Valid() && Picked(current, c) && IsTrivialMove(c)
      ensures CanMove(current, c.level, c.upper[0])
    {
      OverlappingElements(current[c.level + 1], RangeOf(c.smallest, c.largest));
      assert c.Numbers() == {c.upper[0].number};
      assert c.upper == [c.upper[0]];
    }
  }
}
