/**
 The skip list (skiplist.h).  Nodes live in an arena and are never freed or moved, so a pointer is
 the number of a node; node 0 is head_.  Insert changes the arena one store at a time while readers
 may be anywhere in the middle of a search.
 */
module SkipLists {
  const kMaxHeight := 12
  const NULL: int := -1

  // compare_(a, b) < 0.  The comparator is a total preorder.
  type Order<!K> = (K, K) -> bool

  ghost predicate StrictWeak<K(!new)>(before: Order<K>) {
    (forall a :: !before(a, a)) &&
    (forall a, b, c :: before(a, b) && before(b, c) ==> before(a, c)) &&
    (forall a, b, c :: before(a, b) ==> before(a, c) || before(c, b))
  }

  predicate Equal<K>(before: Order<K>, a: K, b: K) { !before(a, b) && !before(b, a) }

  // What readers can see: the keys and links of the nodes, and max_height_.
  datatype Memory<K> = Memory(keys: seq<K>, next: seq<seq<int>>, maxHeight: nat)

  function StoreHeight<K>(m: Memory<K>, height: nat): Memory<K> {
    m.(maxHeight := height)
  }

  function NewNode<K>(m: Memory<K>, key: K, links: seq<int>): Memory<K> {
    m.(keys := m.keys + [key], next := m.next + [links])
  }

  function SetNext<K>(m: Memory<K>, n: nat, level: nat, to: int): Memory<K>
    requires n < |m.next| && level < |m.next[n]|
  {
    m.(next := m.next[n := m.next[n][level := to]])
  }

  // ---------------------------------------------------------------- what the arena means

  // The nodes linked at one level, in order, without head_.
  type Level = seq<nat>

  // The node that comes before position i of a level, and the one at position i.
  function Pred(level: Level, i: nat): nat
    requires i <= |level|
  {
    if i == 0 then 0 else level[i - 1]
  }

  function At(level: Level, i: nat): int
    requires i <= |level|
  {
    if i == |level| then NULL else level[i]
  }

  predicate InArena<K>(m: Memory<K>, l: nat, level: Level) {
    |m.next| == |m.keys| > 0 && l < |m.next[0]| &&
    forall i :: 0 <= i < |level| ==> 0 < level[i] < |m.keys| && l < |m.next[level[i]]|
  }

  predicate Linked<K>(m: Memory<K>, l: nat, level: Level)
    requires InArena(m, l, level)
  {
    forall i :: 0 <= i <= |level| ==> m.next[Pred(level, i)][l] == At(level, i)
  }

  predicate Ascending<K>(before: Order<K>, keys: seq<K>, level: Level) {
    (forall i :: 0 <= i < |level| ==> level[i] < |keys|) &&
    forall i, j :: 0 <= i < j < |level| ==> before(keys[level[i]], keys[level[j]])
  }

  predicate LevelOk<K>(before: Order<K>, m: Memory<K>, l: nat, level: Level) {
    InArena(m, l, level) && Linked(m, l, level) && Ascending(before, m.keys, level)
  }

  predicate Sublist(upper: Level, lower: Level) {
    forall i :: 0 <= i < |upper| ==> upper[i] in lower
  }

  // Every level is sorted, and its nodes are on the level below too.
  predicate Ok<K>(before: Order<K>, m: Memory<K>, levels: seq<Level>) {
    |levels| == kMaxHeight && 1 <= m.maxHeight <= kMaxHeight &&
    (forall l :: 0 <= l < kMaxHeight ==> LevelOk(before, m, l, levels[l])) &&
    (forall l :: 0 < l < kMaxHeight ==> Sublist(levels[l], levels[l - 1])) &&
    (forall l :: m.maxHeight <= l < kMaxHeight ==> levels[l] == [])
  }

  // Position i of a level splits it into what comes before key and what does not.
  predicate Splits<K>(before: Order<K>, keys: seq<K>, level: Level, key: K, i: nat)
    requires forall j :: 0 <= j < |level| ==> level[j] < |keys|
  {
    i <= |level| &&
    (forall j :: 0 <= j < i ==> before(keys[level[j]], key)) &&
    (forall j :: i <= j < |level| ==> !before(keys[level[j]], key))
  }

  // The number of nodes before key.
  function Rank<K>(before: Order<K>, keys: seq<K>, level: Level, key: K, from: nat := 0): (i: nat)
    requires from <= |level|
    ensures from <= i <= |level|
    decreases |level| - from
  {
    if from < |level| && level[from] < |keys| && before(keys[level[from]], key) then Rank(before, keys, level, key, from + 1) else from
  }

  lemma {:induction false} SplitIsRank<K>(before: Order<K>, keys: seq<K>, level: Level, key: K, i: nat, from: nat := 0)
    requires (forall j :: 0 <= j < |level| ==> level[j] < |keys|) && Splits(before, keys, level, key, i) && from <= i
    ensures Rank(before, keys, level, key, from) == i
    decreases i - from
  {
    if from < i { SplitIsRank(before, keys, level, key, i, from + 1); }
  }

  lemma {:induction false} RankSplits<K(!new)>(before: Order<K>, keys: seq<K>, level: Level, key: K, from: nat := 0)
    requires StrictWeak(before) && Ascending(before, keys, level) && from <= |level|
    requires forall j :: 0 <= j < from ==> before(keys[level[j]], key)
    ensures Splits(before, keys, level, key, Rank(before, keys, level, key, from))
    decreases |level| - from
  {
    if from < |level| && before(keys[level[from]], key) { RankSplits(before, keys, level, key, from + 1); }
  }

  lemma SplitsAt<K(!new)>(before: Order<K>, keys: seq<K>, level: Level, key: K, i: nat)
    requires StrictWeak(before) && Ascending(before, keys, level) && i <= |level|
    requires i > 0 ==> before(keys[level[i - 1]], key)
    requires i < |level| ==> !before(keys[level[i]], key)
    ensures Splits(before, keys, level, key, i) && Rank(before, keys, level, key) == i
  {
    SplitIsRank(before, keys, level, key, i);
  }

  // ---------------------------------------------------------------- the stores of Insert

  lemma StoreHeightKeepsOk<K>(before: Order<K>, m: Memory<K>, levels: seq<Level>, height: nat)
    requires Ok(before, m, levels) && m.maxHeight <= height <= kMaxHeight
    ensures Ok(before, StoreHeight(m, height), levels)
  {
    forall l | 0 <= l < kMaxHeight ensures LevelOk(before, StoreHeight(m, height), l, levels[l]) {
      assert LevelOk(before, m, l, levels[l]);
    }
  }

  lemma NewNodeKeepsOk<K>(before: Order<K>, m: Memory<K>, levels: seq<Level>, key: K, links: seq<int>)
    requires Ok(before, m, levels)
    ensures Ok(before, NewNode(m, key, links), levels)
  {
    var m' := NewNode(m, key, links);
    forall l | 0 <= l < kMaxHeight ensures LevelOk(before, m', l, levels[l]) {
      assert LevelOk(before, m, l, levels[l]);
      forall i | 0 <= i <= |levels[l]| ensures m'.next[Pred(levels[l], i)][l] == At(levels[l], i) {
        assert m.next[Pred(levels[l], i)][l] == At(levels[l], i);
      }
    }
  }

  // A link of a node at a level it is not on yet does not show.
  lemma PrivateStoreKeepsOk<K>(before: Order<K>, m: Memory<K>, levels: seq<Level>, x: nat, level: nat, to: int)
    requires Ok(before, m, levels) && 0 < x < |m.next| && level < |m.next[x]| && level < kMaxHeight && x !in levels[level]
    ensures Ok(before, SetNext(m, x, level, to), levels)
  {
    var m' := SetNext(m, x, level, to);
    forall l | 0 <= l < kMaxHeight ensures LevelOk(before, m', l, levels[l]) {
      assert LevelOk(before, m, l, levels[l]);
      forall i | 0 <= i <= |levels[l]| ensures m'.next[Pred(levels[l], i)][l] == At(levels[l], i) {
        assert m.next[Pred(levels[l], i)][l] == At(levels[l], i);
      }
    }
  }

  function InsertAt(level: Level, i: nat, x: nat): Level
    requires i <= |level|
  {
    level[..i] + [x] + level[i..]
  }

  // The store that publishes x at one level.
  lemma LinkKeepsOk<K(!new)>(before: Order<K>, m: Memory<K>, levels: seq<Level>, x: nat, l: nat, i: nat)
    requires StrictWeak(before) && Ok(before, m, levels) && l < kMaxHeight && l < m.maxHeight && i <= |levels[l]|
    requires 0 < x < |m.keys| && l < |m.next[x]| && x !in levels[l] && (l > 0 ==> x in levels[l - 1])
    requires m.next[x][l] == At(levels[l], i)
    requires Splits(before, m.keys, levels[l], m.keys[x], i)
    requires forall j :: 0 <= j < |levels[l]| ==> !Equal(before, m.keys[levels[l][j]], m.keys[x])
    ensures Ok(before, SetNext(m, Pred(levels[l], i), l, x), levels[l := InsertAt(levels[l], i, x)])
  {
    var m', levels' := SetNext(m, Pred(levels[l], i), l, x), levels[l := InsertAt(levels[l], i, x)];
    forall k | 0 <= k < kMaxHeight ensures LevelOk(before, m', k, levels'[k]) {
      assert LevelOk(before, m, k, levels[k]);
      if k == l {
        LinkedAfterLink(before, m, levels[l], x, l, i);
      } else {
        forall j | 0 <= j <= |levels[k]| ensures m'.next[Pred(levels[k], j)][k] == At(levels[k], j) {
          assert m.next[Pred(levels[k], j)][k] == At(levels[k], j);
        }
      }
    }
    forall k | 0 < k < kMaxHeight ensures Sublist(levels'[k], levels'[k - 1]) {
      assert Sublist(levels[k], levels[k - 1]);
      forall j | 0 <= j < |levels'[k]| ensures levels'[k][j] in levels'[k - 1] {
        assert (levels'[k][j] == x && k == l) || levels'[k][j] in levels[k];
        InsertKeeps(levels[l], i, x);
      }
    }
  }

  lemma InsertKeeps(level: Level, i: nat, x: nat)
    requires i <= |level|
    ensures forall n :: n in InsertAt(level, i, x) <==> n == x || n in level
  {
    assert level == level[..i] + level[i..];
  }

  lemma LinkedAfterLink<K(!new)>(before: Order<K>, m: Memory<K>, level: Level, x: nat, l: nat, i: nat)
    requires StrictWeak(before) && LevelOk(before, m, l, level) && i <= |level|
    requires 0 < x < |m.keys| && l < |m.next[x]| && x !in level && m.next[x][l] == At(level, i)
    requires Splits(before, m.keys, level, m.keys[x], i)
    requires forall j :: 0 <= j < |level| ==> !Equal(before, m.keys[level[j]], m.keys[x])
    ensures LevelOk(before, SetNext(m, Pred(level, i), l, x), l, InsertAt(level, i, x))
  {
    var m', level' := SetNext(m, Pred(level, i), l, x), InsertAt(level, i, x);
    forall j | 0 <= j <= |level'| ensures m'.next[Pred(level', j)][l] == At(level', j) {
      if j <= i {
        assert Pred(level', j) == Pred(level, j) && m.next[Pred(level, j)][l] == At(level, j);
        if j < i { PredsDiffer(before, m.keys, level, j, i); }
      } else if j > i + 1 {
        assert Pred(level', j) == Pred(level, j - 1) && m.next[Pred(level, j - 1)][l] == At(level, j - 1);
        PredsDiffer(before, m.keys, level, i, j - 1);
      }
    }
  }

  lemma PredsDiffer<K(!new)>(before: Order<K>, keys: seq<K>, level: Level, i: nat, j: nat)
    requires StrictWeak(before) && Ascending(before, keys, level) && i < j <= |level|
    requires forall k :: 0 <= k < |level| ==> level[k] > 0
    ensures Pred(level, i) != Pred(level, j)
  {
    if i > 0 { assert before(keys[level[i - 1]], keys[level[j - 1]]); }
  }

  lemma {:induction false} RankFrame<K>(before: Order<K>, keys: seq<K>, keys': seq<K>, level: Level, key: K, from: nat := 0)
    requires keys <= keys' && from <= |level| && forall j :: 0 <= j < |level| ==> level[j] < |keys|
    ensures Rank(before, keys, level, key, from) == Rank(before, keys', level, key, from)
    decreases |level| - from
  {
    if from < |level| { RankFrame(before, keys, keys', level, key, from + 1); }
  }

  predicate NoEqual<K>(before: Order<K>, keys: seq<K>, level: Level, key: K) {
    forall j :: 0 <= j < |level| ==> level[j] < |keys| && !Equal(before, keys[level[j]], key)
  }

  lemma {:induction false} InBottom<K>(before: Order<K>, m: Memory<K>, levels: seq<Level>, l: nat)
    requires Ok(before, m, levels) && l < kMaxHeight
    ensures Sublist(levels[l], levels[0])
    decreases l
  {
    if l > 0 {
      assert Sublist(levels[l], levels[l - 1]);
      InBottom(before, m, levels, l - 1);
    }
  }

  // ---------------------------------------------------------------- over time

  // The arena at one moment, between two stores.
  datatype Moment<K> = Moment(mem: Memory<K>, levels: seq<Level>)

  // Nodes stay, and stay on their levels.
  ghost predicate Grows<K>(a: Moment<K>, b: Moment<K>) {
    a.mem.keys <= b.mem.keys && |a.levels| == |b.levels| == kMaxHeight &&
    forall l :: 0 <= l < kMaxHeight ==> Sublist(a.levels[l], b.levels[l])
  }

  lemma GrowsOn<K>(a: Moment<K>, b: Moment<K>, c: Moment<K>)
    requires Grows(a, b) && Grows(b, c)
    ensures Grows(a, c)
  {
    forall l | 0 <= l < kMaxHeight ensures Sublist(a.levels[l], c.levels[l]) {
      assert Sublist(a.levels[l], b.levels[l]) && Sublist(b.levels[l], c.levels[l]);
    }
  }

  ghost predicate HistoryOk<K>(before: Order<K>, h: seq<Moment<K>>) {
    (forall i :: 0 <= i < |h| ==> Ok(before, h[i].mem, h[i].levels)) &&
    (forall i, j :: 0 <= i <= j < |h| ==> Grows(h[i], h[j]))
  }

  // The same, folded from the front so that it only unfolds when asked to.
  ghost predicate Happened<K(!new)>(before: Order<K>, h: seq<Moment<K>>, i: nat)
    decreases |h| - i
  {
    if i >= |h| then StrictWeak(before)
    else Ok(before, h[i].mem, h[i].levels) && (i + 1 < |h| ==> Grows(h[i], h[i + 1])) && Happened(before, h, i + 1)
  }

  lemma {:induction false} Unfold<K(!new)>(before: Order<K>, h: seq<Moment<K>>, i: nat)
    requires Happened(before, h, i)
    ensures StrictWeak(before)
    ensures forall j :: i <= j < |h| ==> Ok(before, h[j].mem, h[j].levels)
    ensures forall j, k :: i <= j <= k < |h| ==> Grows(h[j], h[k])
    decreases |h| - i
  {
    if i < |h| {
      Unfold(before, h, i + 1);
      forall k | i <= k < |h| ensures Grows(h[i], h[k]) {
        if k > i { GrowsOn(h[i], h[i + 1], h[k]); }
      }
    }
  }

  lemma {:induction false} HappenedMore<K(!new)>(before: Order<K>, h: seq<Moment<K>>, m: Moment<K>, i: nat)
    requires i < |h| && Happened(before, h, i) && Ok(before, m.mem, m.levels) && Grows(h[|h| - 1], m)
    ensures Happened(before, h + [m], i)
    decreases |h| - i
  {
    if i + 1 < |h| {
      HappenedMore(before, h, m, i + 1);
    } else {
      assert Happened(before, h + [m], i + 2);
    }
  }

  // The keys on a level, in order.
  function Keys<K>(keys: seq<K>, level: Level): (s: seq<K>)
    requires forall i :: 0 <= i < |level| ==> level[i] < |keys|
    ensures |s| == |level| && forall i :: 0 <= i < |s| ==> s[i] == keys[level[i]]
  {
    seq(|level|, i requires 0 <= i < |level| => keys[level[i]])
  }

  lemma KeysAfter<K>(keys: seq<K>, level: Level, p: nat, key: K)
    requires p <= |level| && forall i :: 0 <= i < |level| ==> level[i] < |keys|
    ensures (forall i :: 0 <= i <= |level| ==> InsertAt(level, p, |keys|)[i] < |keys| + 1) &&
            Keys(keys + [key], InsertAt(level, p, |keys|)) == Keys(keys, level)[..p] + [key] + Keys(keys, level)[p..]
  {
  }

  lemma OnLowerLevel<K>(before: Order<K>, m: Memory<K>, levels: seq<Level>, l: nat, p: nat) returns (q: nat)
    requires Ok(before, m, levels) && 0 < l < kMaxHeight && p <= |levels[l]|
    ensures q <= |levels[l - 1]| && Pred(levels[l - 1], q) == Pred(levels[l], p) && (q > 0 <==> p > 0)
  {
    if p == 0 {
      q := 0;
    } else {
      assert Sublist(levels[l], levels[l - 1]);
      var j :| 0 <= j < |levels[l - 1]| && levels[l - 1][j] == levels[l][p - 1];
      q := j + 1;
    }
  }

  // ---------------------------------------------------------------- the class

  class SkipList<K(!new)> {
    const before: Order<K>
    var mem: Memory<K>
    ghost var levels: seq<Level>
    ghost var history: seq<Moment<K>>    // after every store

    ghost predicate Valid() reads this {
      |levels| == kMaxHeight && 1 <= mem.maxHeight <= kMaxHeight &&
      history != [] && history[|history| - 1] == Moment(mem, levels) && Happened(before, history, 0)
    }

    lemma Current()
      requires Valid()
      ensures StrictWeak(before) && Ok(before, mem, levels)
    {
      Unfold(before, history, 0);
    }

    lemma LevelNow(l: nat)
      requires Valid() && l < kMaxHeight
      ensures LevelOk(before, mem, l, levels[l])
    {
      Current();
    }

    lemma HistoryIsOk()
      requires Valid()
      ensures HistoryOk(before, history)
    {
      Unfold(before, history, 0);
    }

    // A search that ran while the list grew to what it is found the first node at or after the key, as
    // of its last load.
    lemma SearchMeanwhile(key: K, readers: seq<Reader>, times: seq<nat>)
      requires Valid() && Search(before, history, key, readers, times)
      ensures times != [] && readers[|times|].Found? ==>
                times[|times| - 1] < |history| &&
                var t := history[times[|times| - 1]];
                t.levels != [] && readers[|times|].r == At(t.levels[0], Rank(before, t.mem.keys, t.levels[0], key))
    {
      Current();
      HistoryIsOk();
      SearchIsLinear(before, history, key, readers, times);
    }

    ghost function Contents(): seq<K>
      requires Valid()
      reads this
    {
      Current(); assert LevelOk(before, mem, 0, levels[0]);
      Keys(mem.keys, levels[0])
    }

    constructor (before: Order<K>, any: K)
      requires StrictWeak(before)
      ensures Valid() && this.before == before && Contents() == []
    {
      this.before := before;
      var empty: Memory<K> := Memory([any], [seq(kMaxHeight, i => NULL)], 1);
      mem := empty;
      levels := seq(kMaxHeight, i => []);
      history := [Moment(empty, seq(kMaxHeight, i => []))];
    }

    // Where key would go.
    ghost function Position(key: K): (p: nat)
      requires Valid()
      reads this
      ensures p <= |Contents()|
    {
      Current(); assert LevelOk(before, mem, 0, levels[0]);
      Rank(before, mem.keys, levels[0], key)
    }

    lemma PositionSplits(key: K)
      requires Valid()
      ensures forall i :: 0 <= i < Position(key) ==> before(Contents()[i], key)
      ensures forall i :: Position(key) <= i < |Contents()| ==> !before(Contents()[i], key)
    {
      Current();
      assert LevelOk(before, mem, 0, levels[0]);
      RankSplits(before, mem.keys, levels[0], key);
    }

    lemma ContentsAscend()
      requires Valid()
      ensures forall i, j :: 0 <= i < j < |Contents()| ==> before(Contents()[i], Contents()[j])
    {
      Current();
      assert LevelOk(before, mem, 0, levels[0]);
    }

    // The node that FindGreaterOrEqual leaves in prev[l].
    ghost function PrevOf(l: nat, key: K): nat
      requires l < |levels|
      reads this
    {
      Pred(levels[l], Rank(before, mem.keys, levels[l], key))
    }

    // A search is at position p of a level, and all nodes so far are before key.
    ghost predicate Searching(level: nat, key: K, x: nat, p: nat) reads this {
      level < |levels| && LevelOk(before, mem, level, levels[level]) &&
      p <= |levels[level]| && x == Pred(levels[level], p) && (p > 0 ==> before(mem.keys[x], key))
    }

    lemma NextIs(level: nat, key: K, x: nat, p: nat)
      requires Searching(level, key, x, p)
      ensures x < |mem.next| && level < |mem.next[x]| && mem.next[x][level] == At(levels[level], p)
    {
      assert mem.next[Pred(levels[level], p)][level] == At(levels[level], p);
    }

    lemma Drop(level: nat, key: K, x: nat, p: nat) returns (q: nat)
      requires Valid() && Searching(level, key, x, p) && level > 0
      ensures Searching(level - 1, key, x, q)
    {
      Current();
      assert LevelOk(before, mem, level - 1, levels[level - 1]);
      q := OnLowerLevel(before, mem, levels, level, p);
    }

    lemma Stop(level: nat, key: K, x: nat, p: nat)
      requires Valid() && Searching(level, key, x, p)
      requires p < |levels[level]| ==> !before(mem.keys[levels[level][p]], key)
      ensures Rank(before, mem.keys, levels[level], key) == p
    {
      Current();
      SplitsAt(before, mem.keys, levels[level], key, p);
    }

    // A reader may find any value that max_height_ had, or will have during a running Insert.
    method FindGreaterOrEqual(key: K, maxHeight: nat) returns (r: int, prev: seq<nat>)
      requires Valid() && 1 <= maxHeight <= kMaxHeight
      ensures |prev| == kMaxHeight && forall l :: 0 <= l < maxHeight ==> prev[l] == PrevOf(l, key)
      ensures r == At(levels[0], Rank(before, mem.keys, levels[0], key))
    {
      var x: nat, level := 0, maxHeight - 1;
      ghost var p: nat := 0;
      LevelNow(level);
      prev := seq(kMaxHeight, i => 0);
      while true
        invariant 0 <= level < maxHeight && |prev| == kMaxHeight && Searching(level, key, x, p)
        invariant forall l :: level < l < maxHeight ==> prev[l] == PrevOf(l, key)
        decreases level, |levels[level]| - p
      {
        NextIs(level, key, x, p);
        var next := mem.next[x][level];
        if next != NULL && before(mem.keys[next], key) {
          x, p := next, p + 1;
        } else {
          Stop(level, key, x, p);
          prev := prev[level := x];
          if level == 0 {
            return next, prev;
          }
          p := Drop(level, key, x, p);
          level := level - 1;
        }
      }
    }

    // The last node before key, or head_.
    method FindLessThan(key: K, maxHeight: nat) returns (x: nat)
      requires Valid() && 1 <= maxHeight <= kMaxHeight
      ensures x == PrevOf(0, key)
    {
      var level := maxHeight - 1;
      ghost var p: nat := 0;
      x := 0;
      LevelNow(level);
      while true
        invariant 0 <= level < maxHeight && Searching(level, key, x, p)
        decreases level, |levels[level]| - p
      {
        NextIs(level, key, x, p);
        var next := mem.next[x][level];
        if next == NULL || !before(mem.keys[next], key) {
          if level == 0 {
            Stop(level, key, x, p);
            return;
          }
          p := Drop(level, key, x, p);
          level := level - 1;
        } else {
          x, p := next, p + 1;
        }
      }
    }

    // The last node, or head_.
    method FindLast(maxHeight: nat) returns (x: nat)
      requires Valid() && 1 <= maxHeight <= kMaxHeight
      ensures x == Pred(levels[0], |levels[0]|)
    {
      var level := maxHeight - 1;
      x := 0;
      ghost var p: nat := 0;
      LevelNow(level);
      while true
        invariant 0 <= level < maxHeight
        invariant p <= |levels[level]| && x == Pred(levels[level], p) && LevelOk(before, mem, level, levels[level])
        decreases level, |levels[level]| - p
      {
        assert mem.next[Pred(levels[level], p)][level] == At(levels[level], p);
        var next := mem.next[x][level];
        if next == NULL {
          if level == 0 {
            return;
          }
          Current();
          assert LevelOk(before, mem, level - 1, levels[level - 1]);
          p := OnLowerLevel(before, mem, levels, level, p);
          level := level - 1;
        } else {
          x, p := next, p + 1;
        }
      }
    }

    method Contains(key: K, maxHeight: nat) returns (found: bool)
      requires Valid() && 1 <= maxHeight <= kMaxHeight
      ensures found <==> exists k :: k in Contents() && Equal(before, key, k)
    {
      Current();
      var x, prev := FindGreaterOrEqual(key, maxHeight);
      assert LevelOk(before, mem, 0, levels[0]);
      found := x != NULL && Equal(before, key, mem.keys[x]);
      PositionSplits(key);
      ghost var p := Position(key);
      if found {
        assert Contents()[p] == mem.keys[x];
      } else {
        forall k | k in Contents() ensures !Equal(before, key, k) {
          var j :| 0 <= j < |levels[0]| && k == Contents()[j];
          if j > p { assert before(mem.keys[x], k); }
        }
      }
    }

    // The bookkeeping of a store.
    ghost method Record()
      requires Ok(before, mem, levels) && history != [] && Happened(before, history, 0)
      requires Grows(history[|history| - 1], Moment(mem, levels))
      modifies `history
      ensures Valid() && history == old(history) + [Moment(mem, levels)]
    {
      HappenedMore(before, history, Moment(mem, levels), 0);
      history := history + [Moment(mem, levels)];
    }

    method RaiseHeight(height: nat)
      requires Valid() && mem.maxHeight <= height <= kMaxHeight
      modifies `mem, `history
      ensures Valid() && mem == StoreHeight(old(mem), height) && old(history) <= history
    {
      Current();
      StoreHeightKeepsOk(before, mem, levels, height);
      mem := StoreHeight(mem, height);
      Record();
    }

    method Allocate(key: K, height: nat) returns (x: nat)
      requires Valid()
      modifies `mem, `history
      ensures Valid() && x == |old(mem).keys| > 0 && |mem.next| == x + 1 && |mem.next[x]| == height && old(history) <= history
      ensures mem.keys == old(mem).keys + [key] && mem.maxHeight == old(mem).maxHeight
      ensures forall l :: 0 <= l < kMaxHeight ==> x !in levels[l]
    {
      Current();
      assert LevelOk(before, mem, 0, levels[0]);
      var links := seq(height, i => NULL);
      NewNodeKeepsOk(before, mem, levels, key, links);
      x := |mem.keys|;
      forall l | 0 <= l < kMaxHeight ensures x !in levels[l] {
        assert LevelOk(before, mem, l, levels[l]);
      }
      mem := NewNode(mem, key, links);
      Record();
    }

    // Set x's link at a level where nobody can see it yet.
    method SetPrivate(x: nat, l: nat, to: int)
      requires Valid() && l < kMaxHeight && 0 < x < |mem.next| && l < |mem.next[x]| && x !in levels[l]
      modifies `mem, `history
      ensures Valid() && mem == SetNext(old(mem), x, l, to) && old(history) <= history
    {
      Current();
      PrivateStoreKeepsOk(before, mem, levels, x, l, to);
      mem := SetNext(mem, x, l, to);
      Record();
    }

    // prev->SetNext(l, x)
    method Publish(x: nat, l: nat, prev: nat, ghost p: nat)
      requires Valid() && l < kMaxHeight && l < mem.maxHeight && 0 < x < |mem.keys| == |mem.next|
      requires l < |mem.next[x]| && x !in levels[l] && (l > 0 ==> x in levels[l - 1])
      requires p <= |levels[l]| && prev == Pred(levels[l], p) && mem.next[x][l] == At(levels[l], p)
      requires NoEqual(before, mem.keys, levels[l], mem.keys[x]) && Splits(before, mem.keys, levels[l], mem.keys[x], p)
      modifies `mem, `levels, `history
      ensures Valid() && mem.keys == old(mem).keys && mem.maxHeight == old(mem).maxHeight && old(history) <= history
      ensures |mem.next| == |old(mem).next| && |mem.next[x]| == |old(mem).next[x]|
      ensures levels == old(levels)[l := InsertAt(old(levels)[l], p, x)]
    {
      Current();
      assert LevelOk(before, mem, l, levels[l]);
      LinkKeepsOk(before, mem, levels, x, l, p);
      InsertKeeps(levels[l], p, x);
      mem := SetNext(mem, prev, l, x);
      levels := levels[l := InsertAt(levels[l], p, x)];
      Record();
    }

    // x->NoBarrier_SetNext(l, prev->NoBarrier_Next(l)); prev->SetNext(l, x);
    method Link(x: nat, l: nat, prev: nat, key: K)
      requires Valid() && l < kMaxHeight && l < mem.maxHeight && 0 < x < |mem.keys| && mem.keys[x] == key
      requires x < |mem.next| && l < |mem.next[x]| && x !in levels[l] && (l > 0 ==> x in levels[l - 1])
      requires prev == PrevOf(l, key) && LevelOk(before, mem, l, levels[l]) && NoEqual(before, mem.keys, levels[l], key)
      modifies `mem, `levels, `history
      ensures Valid() && mem.keys == old(mem).keys && mem.maxHeight == old(mem).maxHeight && old(history) <= history
      ensures |mem.next| == |old(mem).next| && |mem.next[x]| == |old(mem).next[x]|
      ensures levels == old(levels)[l := InsertAt(old(levels)[l], Rank(before, mem.keys, old(levels)[l], key), x)]
    {
      Current();
      ghost var p := Rank(before, mem.keys, levels[l], key);
      assert mem.next[Pred(levels[l], p)][l] == At(levels[l], p);
      RankSplits(before, mem.keys, levels[l], key);
      SetPrivate(x, l, mem.next[prev][l]);
      Publish(x, l, prev, p);
    }

    lemma ReadyToLink(l: nat, key: K, keys: seq<K>)
      requires Valid() && l < kMaxHeight && mem.keys == keys + [key] && NoEqual(before, keys, levels[l], key)
      ensures LevelOk(before, mem, l, levels[l]) && NoEqual(before, mem.keys, levels[l], key) && |keys| !in levels[l]
      ensures Rank(before, keys, levels[l], key) == Rank(before, mem.keys, levels[l], key)
    {
      Current();
      RankFrame(before, keys, mem.keys, levels[l], key);
    }

    // The loop of Insert.
    method LinkLevels(key: K, node: nat, height: nat, prev: seq<nat>, ghost keys: seq<K>)
      requires Valid() && 1 <= height <= mem.maxHeight && mem.keys == keys + [key]
      requires 0 < node == |keys| < |mem.next| && |mem.next[node]| == height <= |prev|
      requires forall l :: 0 <= l < kMaxHeight ==> NoEqual(before, keys, levels[l], key)
      requires forall l :: 0 <= l < height ==> prev[l] == Pred(levels[l], Rank(before, keys, levels[l], key))
      modifies `mem, `levels, `history
      ensures Valid() && mem.keys == old(mem).keys && old(history) <= history
      ensures levels[0] == InsertAt(old(levels)[0], Rank(before, keys, old(levels)[0], key), node)
    {
      Current();
      ghost var was := levels;
      var i := 0;
      while i < height
        invariant 0 <= i <= height <= mem.maxHeight && Valid() && old(history) <= history
        invariant mem.keys == keys + [key] && node < |mem.next| && |mem.next[node]| == height
        invariant forall l :: i <= l < kMaxHeight ==> levels[l] == was[l]
        invariant i > 0 ==> node in levels[i - 1] && levels[0] == InsertAt(was[0], Rank(before, keys, was[0], key), node)
      {
        ReadyToLink(i, key, keys);
        InsertKeeps(was[i], Rank(before, keys, was[i], key), node);
        Link(node, i, prev[i], key);
        i := i + 1;
      }
    }

    lemma NothingEqual(key: K)
      requires Valid() && forall k :: k in Contents() ==> !Equal(before, k, key)
      ensures forall l :: 0 <= l < kMaxHeight ==> NoEqual(before, mem.keys, levels[l], key)
    {
      Current();
      forall l | 0 <= l < kMaxHeight ensures NoEqual(before, mem.keys, levels[l], key) {
        assert LevelOk(before, mem, l, levels[l]);
        InBottom(before, mem, levels, l);
        forall j | 0 <= j < |levels[l]| ensures !Equal(before, mem.keys[levels[l][j]], key) {
          var b :| 0 <= b < |levels[0]| && levels[0][b] == levels[l][j];
          assert Contents()[b] == mem.keys[levels[l][j]];
        }
      }
    }

    // FindGreaterOrEqual for Insert, with head_ before the levels that are new.
    method FindPrev(key: K, height: nat) returns (prev: seq<nat>)
      requires Valid() && 1 <= height <= kMaxHeight
      ensures |prev| == kMaxHeight && forall l :: 0 <= l < height ==> prev[l] == PrevOf(l, key)
    {
      Current();
      var x;
      x, prev := FindGreaterOrEqual(key, mem.maxHeight);
      var i := mem.maxHeight;
      while i < height
        invariant mem.maxHeight <= i && |prev| == kMaxHeight
        invariant forall l :: 0 <= l < i && l < height ==> prev[l] == PrevOf(l, key)
      {
        prev := prev[i := 0];
        i := i + 1;
      }
    }

    // RandomHeight's result is a parameter.
    method Insert(key: K, height: nat)
      requires Valid() && 1 <= height <= kMaxHeight
      requires forall k :: k in Contents() ==> !Equal(before, k, key)
      modifies this
      ensures Valid() && old(history) <= history
      ensures Contents() == old(Contents())[..old(Position(key))] + [key] + old(Contents())[old(Position(key))..]
    {
      Current();
      NothingEqual(key);
      var prev := FindPrev(key, height);
      ghost var was, keys, p := levels, mem.keys, Rank(before, mem.keys, levels[0], key);
      assert LevelOk(before, mem, 0, levels[0]);
      if height > mem.maxHeight {
        RaiseHeight(height);
      }
      var node := Allocate(key, height);
      LinkLevels(key, node, height, prev, keys);
      KeysAfter(keys, was[0], p, key);
    }
  }

  // ---------------------------------------------------------------- iterators

  class Iterator<K(!new)> {
    const list: SkipList<K>
    var node: int

    constructor (list: SkipList<K>)
      ensures this.list == list && node == NULL
    {
      this.list, node := list, NULL;
    }

    method Next()
      requires list.Valid() && node in list.levels[0]
      modifies this
      ensures forall i :: 0 <= i < |list.levels[0]| && list.levels[0][i] == old(node) ==> node == At(list.levels[0], i + 1)
    {
      list.Current();
      assert LevelOk(list.before, list.mem, 0, list.levels[0]);
      forall i | 0 <= i < |list.levels[0]| && list.levels[0][i] == node ensures list.mem.next[node][0] == At(list.levels[0], i + 1) {
        assert list.mem.next[Pred(list.levels[0], i + 1)][0] == At(list.levels[0], i + 1);
      }
      node := list.mem.next[node][0];
    }

    method Prev()
      requires list.Valid() && node in list.levels[0]
      modifies this
      ensures forall i :: 0 <= i < |list.levels[0]| && list.levels[0][i] == old(node) ==>
                node == if i == 0 then NULL else list.levels[0][i - 1]
    {
      list.Current();
      assert LevelOk(list.before, list.mem, 0, list.levels[0]);
      forall i | 0 <= i < |list.levels[0]| && list.levels[0][i] == node ensures Rank(list.before, list.mem.keys, list.levels[0], list.mem.keys[node]) == i {
        SplitsAt(list.before, list.mem.keys, list.levels[0], list.mem.keys[node], i);
      }
      node := list.FindLessThan(list.mem.keys[node], list.mem.maxHeight);
      if node == 0 {
        node := NULL;
      }
    }

    method Seek(target: K)
      requires list.Valid()
      modifies this
      ensures list.Position(target) <= |list.levels[0]| && node == At(list.levels[0], list.Position(target))
      ensures node != NULL ==> 0 < node < |list.mem.keys| && list.mem.keys[node] == list.Contents()[list.Position(target)]
      ensures (node == NULL) == (list.Position(target) == |list.Contents()|)
    {
      list.Current();
      var prev;
      node, prev := list.FindGreaterOrEqual(target, list.mem.maxHeight);
    }

    method SeekToFirst()
      requires list.Valid()
      modifies this
      ensures node == At(list.levels[0], 0)
    {
      list.Current();
      assert LevelOk(list.before, list.mem, 0, list.levels[0]);
      assert list.mem.next[Pred(list.levels[0], 0)][0] == At(list.levels[0], 0);
      node := list.mem.next[0][0];
    }

    method SeekToLast()
      requires list.Valid()
      modifies this
      ensures node == if list.levels[0] == [] then NULL else list.levels[0][|list.levels[0]| - 1]
    {
      list.Current();
      assert LevelOk(list.before, list.mem, 0, list.levels[0]);
      node := list.FindLast(list.mem.maxHeight);
      if node == 0 {
        node := NULL;
      }
    }
  }

  // ---------------------------------------------------------------- readers during Insert

  // Where a FindGreaterOrEqual is between two loads of a link.
  datatype Reader = Looking(x: nat, level: nat) | Found(r: int)

  predicate CanLoad<K>(m: Memory<K>, rd: Reader) {
    rd.Looking? && rd.x < |m.next| && rd.level < |m.next[rd.x]| && -1 <= m.next[rd.x][rd.level] < |m.keys|
  }

  function ReaderStep<K>(before: Order<K>, m: Memory<K>, key: K, rd: Reader): Reader
    requires CanLoad(m, rd)
  {
    var next := m.next[rd.x][rd.level];
    if next != NULL && before(m.keys[next], key) then Looking(next, rd.level)
    else if rd.level == 0 then Found(next)
    else Looking(rd.x, rd.level - 1)
  }

  predicate ReaderOk<K>(before: Order<K>, t: Moment<K>, key: K, rd: Reader) {
    rd.Looking? ==>
      rd.level < kMaxHeight == |t.levels| &&
      (rd.x == 0 || (rd.x in t.levels[rd.level] && rd.x < |t.mem.keys| && before(t.mem.keys[rd.x], key)))
  }

  lemma ReaderStays<K>(before: Order<K>, a: Moment<K>, b: Moment<K>, key: K, rd: Reader)
    requires ReaderOk(before, a, key, rd) && Grows(a, b)
    ensures ReaderOk(before, b, key, rd)
  {
    if rd.Looking? { assert Sublist(a.levels[rd.level], b.levels[rd.level]); }
  }

  lemma ReaderAdvances<K(!new)>(before: Order<K>, t: Moment<K>, key: K, rd: Reader)
    requires StrictWeak(before) && Ok(before, t.mem, t.levels) && rd.Looking? && ReaderOk(before, t, key, rd)
    ensures CanLoad(t.mem, rd)
    ensures var rd' := ReaderStep(before, t.mem, key, rd);
            ReaderOk(before, t, key, rd') && (rd'.Found? ==> rd'.r == At(t.levels[0], Rank(before, t.mem.keys, t.levels[0], key)))
  {
    var level := t.levels[rd.level];
    assert LevelOk(before, t.mem, rd.level, level);
    var p: nat := 0;
    if rd.x != 0 {
      var j :| 0 <= j < |level| && level[j] == rd.x;
      p := j + 1;
    }
    assert t.mem.next[Pred(level, p)][rd.level] == At(level, p);
    if p < |level| && before(t.mem.keys[level[p]], key) {
    } else if rd.level > 0 {
      assert Sublist(level, t.levels[rd.level - 1]);
    } else {
      SplitsAt(before, t.mem.keys, level, key, p);
    }
  }

  // A search that starts with any height and makes its loads at any moments of the history.
  predicate Search<K>(before: Order<K>, h: seq<Moment<K>>, key: K, readers: seq<Reader>, times: seq<nat>) {
    |readers| == |times| + 1 && readers[0].Looking? && readers[0].x == 0 && readers[0].level < kMaxHeight &&
    (forall i :: 0 <= i < |times| ==> times[i] < |h|) &&
    (forall i, j :: 0 <= i <= j < |times| ==> times[i] <= times[j]) &&
    (forall i :: 0 <= i < |times| ==> readers[i].Looking?) &&
    forall i :: 0 <= i < |times| && CanLoad(h[times[i]].mem, readers[i]) ==>
      readers[i + 1] == ReaderStep(before, h[times[i]].mem, key, readers[i])
  }

  lemma {:induction false} SearchStaysOk<K(!new)>(before: Order<K>, h: seq<Moment<K>>, key: K, readers: seq<Reader>, times: seq<nat>, i: nat)
    requires StrictWeak(before) && HistoryOk(before, h) && Search(before, h, key, readers, times) && i < |times|
    ensures ReaderOk(before, h[times[i]], key, readers[i])
    decreases i
  {
    if i > 0 {
      SearchStaysOk(before, h, key, readers, times, i - 1);
      ReaderAdvances(before, h[times[i - 1]], key, readers[i - 1]);
      ReaderStays(before, h[times[i - 1]], h[times[i]], key, readers[i]);
    } else {
      assert Ok(before, h[times[0]].mem, h[times[0]].levels);
    }
  }

  // Whatever stores of however many Inserts happen between its loads, a search never leaves the
  // arena, and what it finds is the first node at or after key at the moment of its last load.
  lemma SearchIsLinear<K(!new)>(before: Order<K>, h: seq<Moment<K>>, key: K, readers: seq<Reader>, times: seq<nat>)
    requires StrictWeak(before) && HistoryOk(before, h) && Search(before, h, key, readers, times)
    ensures forall i :: 0 <= i < |times| ==> CanLoad(h[times[i]].mem, readers[i])
    ensures readers[|times|].Found? ==>
              times != [] && var t := h[times[|times| - 1]];
              readers[|times|].r == At(t.levels[0], Rank(before, t.mem.keys, t.levels[0], key))
  {
    forall i | 0 <= i < |times| ensures CanLoad(h[times[i]].mem, readers[i]) {
      SearchStaysOk(before, h, key, readers, times, i);
      ReaderAdvances(before, h[times[i]], key, readers[i]);
    }
    if times != [] {
      SearchStaysOk(before, h, key, readers, times, |times| - 1);
      ReaderAdvances(before, h[times[|times| - 1]], key, readers[|times| - 1]);
    }
  }
}
