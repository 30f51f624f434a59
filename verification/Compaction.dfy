/**
 DoCompactionWork (db_impl.cc): the merge loop that decides which internal entries survive
 a compaction, and what that decision means to readers.
 */
module Compaction {
  import opened InternalKeys
  import opened Options

  // The previous entry of the merged input belongs to the same user key and no live snapshot
  // can see past it.
  predicate HiddenByNewer(input: seq<Entry>, i: nat, smallest: nat)
    requires i < |input|
  {
    0 < i && Parses(input[i - 1]) && input[i - 1].key == input[i].key && input[i - 1].seqno <= smallest
  }

  predicate ObsoleteDeletion(e: Entry, smallest: nat, base: set<UserKey>) {
    e.kind.Deletion? && e.seqno <= smallest && e.key in base
  }

  predicate Dropped(input: seq<Entry>, i: nat, smallest: nat, base: set<UserKey>)
    requires i < |input|
  {
    Parses(input[i]) && (HiddenByNewer(input, i, smallest) || ObsoleteDeletion(input[i], smallest, base))
  }

  // The entries that survive, in order.
  function Kept(input: seq<Entry>, n: nat, smallest: nat, base: set<UserKey>): seq<Entry>
    requires n <= |input|
  {
    if n == 0 then []
    else Kept(input, n - 1, smallest, base) + if Dropped(input, n - 1, smallest, base) then [] else [input[n - 1]]
  }

  lemma {:induction false} KeptElements(input: seq<Entry>, n: nat, smallest: nat, base: set<UserKey>)
    requires n <= |input|
    ensures forall e :: e in Kept(input, n, smallest, base) <==>
              exists i :: 0 <= i < n && input[i] == e && !Dropped(input, i, smallest, base)
  {
    if n > 0 { KeptElements(input, n - 1, smallest, base); }
  }

  // Every view at or above smallest_snapshot is unchanged by the compaction.
  ghost predicate KeepsViews(input: seq<Entry>, others: set<Entry>, smallest: nat, base: set<UserKey>) {
    forall k, s: nat :: smallest <= s ==>
      View(Elements(Kept(input, |input|, smallest, base)) + others, k, s) == View(Elements(input) + others, k, s)
  }

  // The deletion at i decides its key at smallest_snapshot and is dropped as obsolete; of what is left
  // the value x decides.
  ghost predicate Exposed(input: seq<Entry>, others: set<Entry>, smallest: nat, base: set<UserKey>, i: int, x: Entry) {
    0 <= i < |input| && ObsoleteDeletion(input[i], smallest, base) && input[i] !in others && x.kind.Put? &&
    IsNewest(Elements(input) + others, input[i].key, smallest, input[i]) &&
    IsNewest(Elements(Kept(input, |input|, smallest, base)) + others, input[i].key, smallest, x)
  }

  // Whatever the inputs, what lies outside them and the keys taken to be at their base level: a compaction
  // keeps every view exactly if no deletion is dropped that hid a value.
  lemma CompactionKeepsViews(input: seq<Entry>, others: set<Entry>, smallest: nat, base: set<UserKey>)
    requires Sorted(input) && UniqueTags(Elements(input) + others)
    ensures KeepsViews(input, others, smallest, base) <==> !exists i, x :: Exposed(input, others, smallest, base, i, x)
  {
    if i, x :| Exposed(input, others, smallest, base, i, x) {
      DeletionUndone(input, others, smallest, base, i, x);
    } else {
      var left := Elements(Kept(input, |input|, smallest, base)) + others;
      KeptElements(input, |input|, smallest, base);
      forall k, s: nat | smallest <= s ensures View(left, k, s) == View(Elements(input) + others, k, s) {
        ViewKept(input, others, smallest, base, left, k, s);
      }
    }
  }

  // The deleted key has a value again.
  lemma DeletionUndone(input: seq<Entry>, others: set<Entry>, smallest: nat, base: set<UserKey>, i: int, x: Entry)
    requires UniqueTags(Elements(input) + others) && Exposed(input, others, smallest, base, i, x)
    ensures View(Elements(input) + others, input[i].key, smallest) == None
    ensures View(Elements(Kept(input, |input|, smallest, base)) + others, input[i].key, smallest) == Some(x.value)
  {
    var k, all, left := input[i].key, Elements(input) + others, Elements(Kept(input, |input|, smallest, base)) + others;
    KeptElements(input, |input|, smallest, base);
    assert left <= all;
    ViewIs(all, k, smallest, input[i]);
    ViewIs(left, k, smallest, x);
  }

  // The set that is left, in terms of what was dropped from it.
  ghost predicate LeftOf(input: seq<Entry>, others: set<Entry>, smallest: nat, base: set<UserKey>, left: set<Entry>) {
    forall e :: e in left <==> e in others || exists i :: 0 <= i < |input| && input[i] == e && !Dropped(input, i, smallest, base)
  }

  lemma ViewKept(input: seq<Entry>, others: set<Entry>, smallest: nat, base: set<UserKey>, left: set<Entry>, k: UserKey, s: nat)
    requires Sorted(input) && UniqueTags(Elements(input) + others)
    requires smallest <= s && !exists i, x :: Exposed(input, others, smallest, base, i, x)
    requires left == Elements(Kept(input, |input|, smallest, base)) + others
    requires LeftOf(input, others, smallest, base, left) && left <= Elements(input) + others
    ensures View(left, k, s) == View(Elements(input) + others, k, s)
  {
    var all := Elements(input) + others;
    if e :| IsNewest(all, k, s, e) {
      ViewIs(all, k, s, e);
      if e in left {
        ViewIs(left, k, s, e);
      } else {
        var i :| 0 <= i < |input| && input[i] == e;
        NoValueIsLeft(input, others, smallest, base, left, k, s, i);
      }
    } else if e :| IsNewest(left, k, s, e) {
      var _ := NewestExists(all, k, s, e);
    }
  }

  lemma NoValueIsLeft(input: seq<Entry>, others: set<Entry>, smallest: nat, base: set<UserKey>, left: set<Entry>,
                      k: UserKey, s: nat, i: nat)
    requires Sorted(input) && UniqueTags(Elements(input) + others)
    requires left == Elements(Kept(input, |input|, smallest, base)) + others <= Elements(input) + others
    requires smallest <= s && !exists i, x :: Exposed(input, others, smallest, base, i, x)
    requires i < |input| && input[i] !in others && Dropped(input, i, smallest, base) && IsNewest(Elements(input) + others, k, s, input[i])
    ensures input[i].kind.Deletion? && View(left, k, s) == None
  {
    DroppedNewestIsObsolete(input, others, smallest, base, k, s, i);
    if x :| IsNewest(left, k, s, x) {
      ViewIs(left, k, s, x);
      assert !Exposed(input, others, smallest, base, i, x);
    }
  }

  // An entry some view depends on is dropped only as an obsolete deletion.
  lemma DroppedNewestIsObsolete(input: seq<Entry>, others: set<Entry>, smallest: nat, base: set<UserKey>,
                                k: UserKey, s: nat, i: nat)
    requires Sorted(input) && smallest <= s
    requires i < |input| && Dropped(input, i, smallest, base)
    requires IsNewest(Elements(input) + others, k, s, input[i])
    ensures ObsoleteDeletion(input[i], smallest, base)
  {
    if i > 0 { assert Before(input[i - 1], input[i]) && input[i - 1] in Elements(input); }
  }

  // Nothing tells the loop that the entry at j is hidden.
  predicate BehindUnreadable(input: seq<Entry>, i: int, j: int) {
    0 <= i < j < |input| && input[i].key == input[j].key && !Parses(input[j - 1])
  }

  // There are two ways for this to happen: the value lies outside the inputs, so that the key was not at
  // its base level, or right behind an unreadable entry, where the loop forgets the current key.
  lemma WhereExposed(input: seq<Entry>, others: set<Entry>, smallest: nat, base: set<UserKey>, i: int, x: Entry)
    requires Sorted(input) && UniqueTags(Elements(input) + others) && Exposed(input, others, smallest, base, i, x)
    ensures x.seqno < input[i].seqno && (x in others || exists j :: BehindUnreadable(input, i, j) && input[j] == x)
  {
    KeptElements(input, |input|, smallest, base);
    if x !in others {
      var j :| 0 <= j < |input| && input[j] == x && !Dropped(input, j, smallest, base);
      assert i < j;
      OlderIsHidden(input, smallest, base, i, j);
    }
  }

  // After an obsolete deletion an older entry of the key survives rule (A) only there.
  lemma OlderIsHidden(input: seq<Entry>, smallest: nat, base: set<UserKey>, i: nat, j: nat)
    requires Sorted(input) && i < j < |input| && input[i].key == input[j].key && ObsoleteDeletion(input[i], smallest, base)
    requires Parses(input[j])
    ensures Dropped(input, j, smallest, base) || BehindUnreadable(input, i, j)
  {
    var p := j - 1;
    assert p > i ==> Before(input[i], input[p]);
    assert Before(input[p], input[j]) && Before(input[i], input[j]);
    assert input[p].key == input[i].key && input[p].seqno <= input[i].seqno;
  }

  // Such an input: a deletion, an entry of unknown type, and the value that comes back.
  lemma UnreadableEntryUndoesDeletion(k: UserKey, v: Value)
    ensures var input := [Entry(k, 3, Deletion, []), Entry(k, 2, Corrupt(7), []), Entry(k, 1, Put, v)];
            Sorted(input) && Exposed(input, {}, 3, {k}, 0, input[2]) && BehindUnreadable(input, 0, 2) && !KeepsViews(input, {}, 3, {k})
  {
    var d, c, p := Entry(k, 3, Deletion, []), Entry(k, 2, Corrupt(7), []), Entry(k, 1, Put, v);
    var input := [d, c, p];
    SortedHasUniqueTags(input);
    assert Elements(input) + {} == Elements(input) && input[0] == d;
    KeptElements(input, 3, 3, {k});
    assert input[2] == p && !Dropped(input, 2, 3, {k}) && Dropped(input, 0, 3, {k});
    assert Exposed(input, {}, 3, {k}, 0, p);
    CompactionKeepsViews(input, {}, 3, {k});
  }

  // ---------------------------------------------------------------- what is left over

  // Nothing is kept without need: of readable inputs the entries that survive are exactly those that some
  // view at or above smallest_snapshot shows, without the old deletions of keys at their base level.
  lemma KeptIsExactly(input: seq<Entry>, smallest: nat, base: set<UserKey>, e: Entry)
    requires Sorted(input) && forall i :: 0 <= i < |input| ==> Parses(input[i])
    ensures e in Kept(input, |input|, smallest, base) <==>
            e in input && (exists s: nat :: s >= smallest && IsNewest(Elements(input), e.key, s, e)) &&
            !(e.kind.Deletion? && e.seqno <= smallest && e.key in base)
  {
    KeptElements(input, |input|, smallest, base);
    if e in input {
      var i :| 0 <= i < |input| && input[i] == e;
      HiddenIff(input, i, smallest);
      assert forall j :: 0 <= j < |input| && input[j] == e ==> j == i;
    }
  }

  lemma HiddenIff(input: seq<Entry>, i: nat, smallest: nat)
    requires Sorted(input) && i < |input| && forall j :: 0 <= j < |input| ==> Parses(input[j])
    ensures HiddenByNewer(input, i, smallest) <==> !exists s: nat :: s >= smallest && IsNewest(Elements(input), input[i].key, s, input[i])
  {
    var e := input[i];
    if HiddenByNewer(input, i, smallest) {
      assert Before(input[i - 1], e) && input[i - 1] in Elements(input);
    } else {
      var s := if e.seqno < smallest then smallest else e.seqno;
      NewerAreAbove(input, i, smallest);
      forall x | x in Elements(input) && Candidate(x, e.key, s) ensures x.seqno <= e.seqno {
        var j :| 0 <= j < |input| && input[j] == x;
        assert i < j ==> Before(e, x);
      }
      assert IsNewest(Elements(input), e.key, s, e);
    }
  }

  // What comes before an entry that is not hidden is not visible where the entry is.
  lemma NewerAreAbove(input: seq<Entry>, i: nat, smallest: nat)
    requires Sorted(input) && i < |input| && !HiddenByNewer(input, i, smallest) && forall j :: 0 <= j < |input| ==> Parses(input[j])
    ensures forall j :: 0 <= j < i && input[j].key == input[i].key ==> input[j].seqno > smallest && input[j].seqno > input[i].seqno
  {
    forall j | 0 <= j < i && input[j].key == input[i].key ensures input[j].seqno > smallest && input[j].seqno > input[i].seqno {
      assert Before(input[j], input[i]) && Before(input[i - 1], input[i]) && (j < i - 1 ==> Before(input[j], input[i - 1]));
    }
  }

  // ---------------------------------------------------------------- the loop

  // One output file, and the key range recorded for it.
  datatype Output = Output(entries: seq<Entry>, smallest: Entry, largest: Entry)

  predicate OutputOk(o: Output) {
    |o.entries| > 0 && o.smallest == o.entries[0] && o.largest == o.entries[|o.entries| - 1]
  }

  function Contents(outputs: seq<Output>): seq<Entry> {
    if outputs == [] then [] else Contents(outputs[..|outputs| - 1]) + outputs[|outputs| - 1].entries
  }

  lemma ContentsSnoc(outputs: seq<Output>, o: Output)
    ensures Contents(outputs + [o]) == Contents(outputs) + o.entries
  {
    assert (outputs + [o])[..|outputs|] == outputs;
  }

  // Where the entries of the closed outputs, and of the open one, stand in the input.
  datatype Places = Places(closed: seq<seq<nat>>, open: seq<nat>)

  function Close(c: Places): Places { if c.open == [] then c else Places(c.closed + [c.open], []) }

  function Lasts(at: seq<nat>): nat
    requires at != []
  {
    at[|at| - 1]
  }

  ghost predicate EntriesAt(input: seq<Entry>, entries: seq<Entry>, at: seq<nat>) {
    |entries| == |at| && forall j :: 0 <= j < |at| ==> at[j] < |input| && input[at[j]] == entries[j]
  }

  ghost predicate Stop(shouldStop: seq<bool>, lo: nat, hi: nat) {
    exists t :: lo < t < hi && t < |shouldStop| && shouldStop[t]
  }

  // An output goes on as long as nothing ends it ...
  ghost predicate Unbroken(at: seq<nat>, shouldStop: seq<bool>, full: seq<bool>)
    decreases |at|
  {
    at != [] && Lasts(at) < |full| &&
    (|at| > 1 ==>
       var front := at[..|at| - 1];
       Unbroken(front, shouldStop, full) && Lasts(front) < Lasts(at) && !full[Lasts(front)] && !Stop(shouldStop, Lasts(front), Lasts(at) + 1))
  }

  // ... and ends at an entry that fills it, or before one for which the next level says so.
  ghost predicate EndsBefore(at: seq<nat>, hi: nat, shouldStop: seq<bool>, full: seq<bool>) {
    at != [] && Lasts(at) < hi && Lasts(at) < |full| && (full[Lasts(at)] || Stop(shouldStop, Lasts(at), hi))
  }

  ghost predicate Follows(closed: seq<seq<nat>>, hi: nat, shouldStop: seq<bool>, full: seq<bool>) {
    closed != [] ==> EndsBefore(closed[|closed| - 1], hi, shouldStop, full)
  }

  // Outputs are cut where they end, and nowhere else.
  ghost predicate CutRight(places: seq<seq<nat>>, shouldStop: seq<bool>, full: seq<bool>)
    decreases |places|
  {
    places == [] ||
    (var front, last := places[..|places| - 1], places[|places| - 1];
     CutRight(front, shouldStop, full) && Unbroken(last, shouldStop, full) && Follows(front, last[0] + 1, shouldStop, full))
  }

  // The same, with an output open and the first i entries seen.
  ghost predicate CutSoFar(c: Places, i: nat, shouldStop: seq<bool>, full: seq<bool>) {
    CutRight(c.closed, shouldStop, full) &&
    if c.open == [] then Follows(c.closed, i, shouldStop, full)
    else Unbroken(c.open, shouldStop, full) && Follows(c.closed, c.open[0] + 1, shouldStop, full) &&
         Lasts(c.open) < i && !full[Lasts(c.open)] && !Stop(shouldStop, Lasts(c.open), i)
  }

  ghost predicate Placed(input: seq<Entry>, outputs: seq<Output>, builder: Option<Output>, c: Places) {
    |c.closed| == |outputs| && (forall k :: 0 <= k < |outputs| ==> EntriesAt(input, outputs[k].entries, c.closed[k])) &&
    if builder.None? then c.open == [] else c.open != [] && EntriesAt(input, builder.value.entries, c.open)
  }

  lemma CloseOne(c: Places, shouldStop: seq<bool>, full: seq<bool>)
    requires CutRight(c.closed, shouldStop, full) && (c.open != [] ==> Unbroken(c.open, shouldStop, full) && Follows(c.closed, c.open[0] + 1, shouldStop, full))
    ensures CutRight(Close(c).closed, shouldStop, full)
  {
    assert (c.closed + [c.open])[..|c.closed|] == c.closed;
  }

  lemma StopStep(c: Places, i: nat, shouldStop: seq<bool>, full: seq<bool>)
    requires |shouldStop| == |full| && i < |full| && CutSoFar(c, i, shouldStop, full)
    ensures CutSoFar(if shouldStop[i] then Close(c) else c, i + 1, shouldStop, full)
  {
    if shouldStop[i] { CloseOne(c, shouldStop, full); }
  }

  lemma Longer(at: seq<nat>, i: nat, shouldStop: seq<bool>, full: seq<bool>)
    requires |shouldStop| == |full| && i < |full|
    requires at != [] ==> Unbroken(at, shouldStop, full) && Lasts(at) < i && !full[Lasts(at)] && !Stop(shouldStop, Lasts(at), i + 1)
    ensures Unbroken(at + [i], shouldStop, full)
  {
    assert (at + [i])[..|at|] == at;
  }

  lemma AddStep(c: Places, i: nat, shouldStop: seq<bool>, full: seq<bool>)
    requires |shouldStop| == |full| && i < |full| && CutSoFar(c, i + 1, shouldStop, full) && (c.open != [] ==> Lasts(c.open) < i)
    ensures var added := c.(open := c.open + [i]); CutSoFar(if full[i] then Close(added) else added, i + 1, shouldStop, full)
  {
    var added := c.(open := c.open + [i]);
    Longer(c.open, i, shouldStop, full);
    assert Follows(c.closed, added.open[0] + 1, shouldStop, full);
    if full[i] { CloseOne(added, shouldStop, full); }
  }

  lemma ClosedIsRight(c: Places, i: nat, shouldStop: seq<bool>, full: seq<bool>)
    requires CutSoFar(c, i, shouldStop, full)
    ensures CutRight(Close(c).closed, shouldStop, full)
  {
    CloseOne(c, shouldStop, full);
  }

  // The loop has looked at the first i entries.
  ghost predicate InProgress(input: seq<Entry>, i: nat, smallest: nat, base: set<UserKey>, outputs: seq<Output>, builder: Option<Output>,
                             c: Places, shouldStop: seq<bool>, full: seq<bool>)
    requires i <= |input|
  {
    OutputsOk(outputs, builder) && Written(outputs, builder) == Kept(input, i, smallest, base) &&
    Placed(input, outputs, builder, c) && CutSoFar(c, i, shouldStop, full)
  }

  predicate KeyIs(input: seq<Entry>, i: nat, currentUserKey: Option<UserKey>, lastSequenceForKey: Option<nat>)
    requires i <= |input|
  {
    currentUserKey == (if i > 0 && Parses(input[i - 1]) then Some(input[i - 1].key) else None) &&
    lastSequenceForKey == if i > 0 && Parses(input[i - 1]) then Some(input[i - 1].seqno) else None
  }

  ghost predicate AllPlaced(input: seq<Entry>, outputs: seq<Output>, places: seq<seq<nat>>) {
    |places| == |outputs| && forall k :: 0 <= k < |outputs| ==> EntriesAt(input, outputs[k].entries, places[k])
  }

  // shouldStop[i] and full[i] stand for ShouldStopBefore(key i) and for FileSize() having reached
  // MaxOutputFileSize() after entry i; neither is visible here.
  method DoCompactionWork(input: seq<Entry>, smallest: nat, base: set<UserKey>, shouldStop: seq<bool>, full: seq<bool>)
    returns (outputs: seq<Output>, ghost places: seq<seq<nat>>)
    requires Sorted(input) && |shouldStop| == |full| == |input|
    ensures Contents(outputs) == Kept(input, |input|, smallest, base)
    ensures forall o :: o in outputs ==> OutputOk(o)
    ensures AllPlaced(input, outputs, places) && CutRight(places, shouldStop, full)
  {
    outputs := [];
    var builder: Option<Output> := None;           // compact->builder
    var currentUserKey: Option<UserKey> := None;
    var lastSequenceForKey: Option<nat> := None;   // None is kMaxSequenceNumber
    ghost var c := Places([], []);
    var i := 0;
    NothingYet(input, smallest, base, shouldStop, full);
    while i < |input|
      invariant 0 <= i <= |input| && KeyIs(input, i, currentUserKey, lastSequenceForKey)
      invariant InProgress(input, i, smallest, base, outputs, builder, c, shouldStop, full)
    {
      var drop;
      drop, currentUserKey, lastSequenceForKey := Decide(input[i], currentUserKey, lastSequenceForKey, smallest, base);
      assert drop == Dropped(input, i, smallest, base);
      outputs, builder, c := OneEntry(input, smallest, base, outputs, builder, c, i, drop, shouldStop, full);
      i := i + 1;
    }
    outputs, places := LastOutput(input, smallest, base, outputs, builder, c, shouldStop, full);
  }

  method OneEntry(input: seq<Entry>, ghost smallest: nat, ghost base: set<UserKey>, outputs: seq<Output>, builder: Option<Output>,
                  ghost c: Places, i: nat, drop: bool, shouldStop: seq<bool>, full: seq<bool>)
    returns (outputs': seq<Output>, builder': Option<Output>, ghost c': Places)
    requires |shouldStop| == |full| == |input| && i < |full| && drop == Dropped(input, i, smallest, base)
    requires InProgress(input, i, smallest, base, outputs, builder, c, shouldStop, full)
    ensures InProgress(input, i + 1, smallest, base, outputs', builder', c', shouldStop, full)
  {
    outputs', builder', c' := StopBefore(input, outputs, builder, c, i, shouldStop, full);
    if !drop {
      outputs', builder', c' := KeepEntry(input, outputs', builder', c', i, shouldStop, full);
    }
  }

  lemma NothingYet(input: seq<Entry>, smallest: nat, base: set<UserKey>, shouldStop: seq<bool>, full: seq<bool>)
    ensures InProgress(input, 0, smallest, base, [], None, Places([], []), shouldStop, full)
  {
  }

  method LastOutput(ghost input: seq<Entry>, ghost smallest: nat, ghost base: set<UserKey>, outputs: seq<Output>, builder: Option<Output>,
                    ghost c: Places, ghost shouldStop: seq<bool>, ghost full: seq<bool>)
    returns (outputs': seq<Output>, ghost places: seq<seq<nat>>)
    requires InProgress(input, |input|, smallest, base, outputs, builder, c, shouldStop, full)
    ensures Contents(outputs') == Kept(input, |input|, smallest, base) && forall o :: o in outputs' ==> OutputOk(o)
    ensures AllPlaced(input, outputs', places) && CutRight(places, shouldStop, full)
  {
    ClosedIsRight(c, |input|, shouldStop, full);
    PlacedClose(input, outputs, builder, c);
    places := Close(c).closed;
    var none;
    outputs', none := FinishOutput(outputs, builder);
  }

  lemma PlacedClose(input: seq<Entry>, outputs: seq<Output>, builder: Option<Output>, c: Places)
    requires Placed(input, outputs, builder, c)
    ensures Placed(input, outputs + if builder.Some? then [builder.value] else [], None, Close(c))
  {
  }

  lemma PlacedAdd(input: seq<Entry>, outputs: seq<Output>, builder: Option<Output>, c: Places, i: nat, builder': Option<Output>)
    requires Placed(input, outputs, builder, c) && i < |input|
    requires builder'.Some? && builder'.value.entries == (if builder.None? then [] else builder.value.entries) + [input[i]]
    ensures Placed(input, outputs, builder', c.(open := c.open + [i]))
  {
  }

  // The open output ends before this entry if the entry says so.
  method StopBefore(ghost input: seq<Entry>, outputs: seq<Output>, builder: Option<Output>, ghost c: Places, i: nat,
                    shouldStop: seq<bool>, ghost full: seq<bool>)
    returns (outputs': seq<Output>, builder': Option<Output>, ghost c': Places)
    requires |shouldStop| == |full| == |input| && i < |full| && OutputsOk(outputs, builder)
    requires Placed(input, outputs, builder, c) && CutSoFar(c, i, shouldStop, full)
    ensures OutputsOk(outputs', builder') && Written(outputs', builder') == Written(outputs, builder)
    ensures Placed(input, outputs', builder', c') && CutSoFar(c', i + 1, shouldStop, full) && (c'.open != [] ==> Lasts(c'.open) < i)
  {
    StopStep(c, i, shouldStop, full);
    outputs', builder', c' := outputs, builder, c;
    if shouldStop[i] {
      PlacedClose(input, outputs, builder, c);
      c' := Close(c);
      outputs', builder' := FinishOutput(outputs, builder);
    }
  }

  // The entry goes into the open output, or a new one, which ends when it is full.
  method KeepEntry(input: seq<Entry>, outputs: seq<Output>, builder: Option<Output>, ghost c: Places, i: nat,
                   ghost shouldStop: seq<bool>, full: seq<bool>)
    returns (outputs': seq<Output>, builder': Option<Output>, ghost c': Places)
    requires |shouldStop| == |full| == |input| && i < |full| && OutputsOk(outputs, builder)
    requires Placed(input, outputs, builder, c) && CutSoFar(c, i + 1, shouldStop, full) && (c.open != [] ==> Lasts(c.open) < i)
    ensures OutputsOk(outputs', builder') && Written(outputs', builder') == Written(outputs, builder) + [input[i]]
    ensures Placed(input, outputs', builder', c') && CutSoFar(c', i + 1, shouldStop, full)
  {
    AddStep(c, i, shouldStop, full);
    outputs' := outputs;
    builder' := AddEntry(outputs, builder, input[i]);
    PlacedAdd(input, outputs, builder, c, i, builder');
    c' := c.(open := c.open + [i]);
    if full[i] {
      PlacedClose(input, outputs, builder', c');
      c' := Close(c');
      outputs', builder' := FinishOutput(outputs, builder');
    }
  }

  // The part of the loop that decides about one entry.
  method Decide(e: Entry, currentUserKey: Option<UserKey>, lastSequenceForKey: Option<nat>, smallest: nat, base: set<UserKey>)
    returns (drop: bool, currentUserKey': Option<UserKey>, lastSequenceForKey': Option<nat>)
    ensures currentUserKey' == (if Parses(e) then Some(e.key) else None) && lastSequenceForKey' == if Parses(e) then Some(e.seqno) else None
    ensures drop ==
            (Parses(e) && ((currentUserKey == Some(e.key) && lastSequenceForKey.Some? && lastSequenceForKey.value <= smallest) ||
                           ObsoleteDeletion(e, smallest, base)))
  {
    drop, currentUserKey', lastSequenceForKey' := false, currentUserKey, lastSequenceForKey;
    if !Parses(e) {
      // Nothing is known to hide what follows.
      currentUserKey', lastSequenceForKey' := None, None;
    } else {
      if currentUserKey' != Some(e.key) {
        // The newest entry of its key, which nothing hides.
        currentUserKey', lastSequenceForKey' := Some(e.key), None;
      }
      if lastSequenceForKey'.Some? && lastSequenceForKey'.value <= smallest {
        drop := true;    // (A)
      } else if e.kind == Deletion && e.seqno <= smallest && e.key in base {
        drop := true;
      }
      lastSequenceForKey' := Some(e.seqno);
    }
  }

  ghost predicate OutputsOk(outputs: seq<Output>, builder: Option<Output>) {
    (forall o :: o in outputs ==> OutputOk(o)) && (builder.Some? ==> OutputOk(builder.value))
  }

  // Everything written so far, the open output last.
  ghost function Written(outputs: seq<Output>, builder: Option<Output>): seq<Entry> {
    Contents(outputs) + if builder.Some? then builder.value.entries else []
  }

  method AddEntry(ghost outputs: seq<Output>, builder: Option<Output>, e: Entry) returns (builder': Option<Output>)
    requires OutputsOk(outputs, builder)
    ensures OutputsOk(outputs, builder') && Written(outputs, builder') == Written(outputs, builder) + [e]
    ensures builder'.Some? && builder'.value.entries == (if builder.None? then [] else builder.value.entries) + [e]
  {
    builder' := Some(if builder.None? then Output([e], e, e)
                     else Output(builder.value.entries + [e], builder.value.smallest, e));
  }

  // FinishCompactionOutputFile, when an output is open.
  method FinishOutput(outputs: seq<Output>, builder: Option<Output>) returns (outputs': seq<Output>, builder': Option<Output>)
    requires OutputsOk(outputs, builder)
    ensures OutputsOk(outputs', builder') && builder' == None
    ensures Written(outputs', builder') == Written(outputs, builder)
    ensures outputs' == outputs + if builder.Some? then [builder.value] else []
  {
    outputs', builder' := outputs, None;
    if builder.Some? {
      ContentsSnoc(outputs, builder.value);
      outputs' := outputs + [builder.value];
    }
  }
}
