/**
 DBIter (db_iter.cc): a bidirectional cursor over raw internal entries that presents
 the visible map at a snapshot.
 */
module DbIter {
  import opened InternalKeys
  import opened Options

  // An entry this iterator may take into account: it parses and is not too new.
  predicate Live(e: Entry, snapshot: nat) {
    Parses(e) && e.seqno <= snapshot
  }

  // es[i] is the newest live entry of its key, and it is a value.
  ghost predicate Visible(es: seq<Entry>, snapshot: nat, i: int) {
    0 <= i < |es| && Live(es[i], snapshot) && es[i].kind.Put? &&
    forall j :: 0 <= j < i && es[j].key == es[i].key ==> !Live(es[j], snapshot)
  }

  // The visible indices below n, ascending.
  ghost function VisibleBelow(es: seq<Entry>, snapshot: nat, n: nat): (vs: seq<nat>)
    requires n <= |es|
    ensures |vs| <= n
  {
    if n == 0 then [] else
      VisibleBelow(es, snapshot, n - 1) + if Visible(es, snapshot, n - 1) then [n - 1] else []
  }

  type Pair = (UserKey, Value)

  // The visible map as the ascending list the cursor walks.
  ghost function VisibleList(es: seq<Entry>, snapshot: nat): seq<Pair> {
    var vs := VisibleBelow(es, snapshot, |es|);
    seq(|vs|, c requires 0 <= c < |vs| => VisibleBelowInRange(es, snapshot, |es|, c); (es[vs[c]].key, es[vs[c]].value))
  }

  lemma {:induction false} VisibleBelowInRange(es: seq<Entry>, snapshot: nat, n: nat, c: nat)
    requires n <= |es| && c < |VisibleBelow(es, snapshot, n)|
    ensures VisibleBelow(es, snapshot, n)[c] < n
    ensures Visible(es, snapshot, VisibleBelow(es, snapshot, n)[c])
    ensures |VisibleBelow(es, snapshot, VisibleBelow(es, snapshot, n)[c])| == c
  {
    if c < |VisibleBelow(es, snapshot, n - 1)| {
      VisibleBelowInRange(es, snapshot, n - 1, c);
    }
  }

  // Visible index i sits at position |VisibleBelow(i)| of the list.
  lemma {:induction false} PositionOf(es: seq<Entry>, snapshot: nat, i: nat, n: nat)
    requires i < n <= |es| && Visible(es, snapshot, i)
    ensures |VisibleBelow(es, snapshot, i)| < |VisibleBelow(es, snapshot, n)|
    ensures VisibleBelow(es, snapshot, n)[|VisibleBelow(es, snapshot, i)|] == i
    decreases n
  {
    if i + 1 < n { PositionOf(es, snapshot, i, n - 1); }
  }

  lemma {:induction false} NoneBetween(es: seq<Entry>, snapshot: nat, a: nat, b: nat)
    requires a <= b <= |es|
    requires forall j :: a <= j < b ==> !Visible(es, snapshot, j)
    ensures VisibleBelow(es, snapshot, b) == VisibleBelow(es, snapshot, a)
  {
    if a < b { NoneBetween(es, snapshot, a, b - 1); }
  }

  // The list is what the name says: strictly ascending keys, and it holds (k, v) exactly when
  // the newest entry of k at or below the snapshot is the value v.
  lemma VisibleListIsTheView(es: seq<Entry>, snapshot: nat)
    requires Sorted(es)
    ensures forall c, d :: 0 <= c < d < |VisibleList(es, snapshot)| ==>
              VisibleList(es, snapshot)[c].0 < VisibleList(es, snapshot)[d].0
    ensures forall k, v :: (k, v) in VisibleList(es, snapshot) <==> View(Elements(es), k, snapshot) == Some(v)
  {
    var vs, list := VisibleBelow(es, snapshot, |es|), VisibleList(es, snapshot);
    forall c, d | 0 <= c < d < |list| ensures list[c].0 < list[d].0 {
      VisibleBelowInRange(es, snapshot, |es|, c);
      VisibleBelowInRange(es, snapshot, |es|, d);
      if vs[d] <= vs[c] { FewerBelow(es, snapshot, vs[d], vs[c]); }
      assert Before(es[vs[c]], es[vs[d]]);
    }
    forall k, v ensures (k, v) in list <==> View(Elements(es), k, snapshot) == Some(v) {
      if (k, v) in list { ListedIsInView(es, snapshot, k, v); }
      if View(Elements(es), k, snapshot) == Some(v) { InViewIsListed(es, snapshot, k, v); }
    }
  }

  lemma ListedIsInView(es: seq<Entry>, snapshot: nat, k: UserKey, v: Value)
    requires Sorted(es) && (k, v) in VisibleList(es, snapshot)
    ensures View(Elements(es), k, snapshot) == Some(v)
  {
    var vs, list := VisibleBelow(es, snapshot, |es|), VisibleList(es, snapshot);
    SortedHasUniqueTags(es);
    var c :| 0 <= c < |list| && list[c] == (k, v);
    VisibleBelowInRange(es, snapshot, |es|, c);
    NewestByIndex(es, snapshot, vs[c]);
    ViewIs(Elements(es), k, snapshot, es[vs[c]]);
  }

  lemma InViewIsListed(es: seq<Entry>, snapshot: nat, k: UserKey, v: Value)
    requires Sorted(es) && View(Elements(es), k, snapshot) == Some(v)
    ensures (k, v) in VisibleList(es, snapshot)
  {
    SortedHasUniqueTags(es);
    var e :| IsNewest(Elements(es), k, snapshot, e);
    ViewIs(Elements(es), k, snapshot, e);
    var i :| 0 <= i < |es| && es[i] == e;
    assert Visible(es, snapshot, i) by {
      forall j | 0 <= j < i && es[j].key == es[i].key ensures !Live(es[j], snapshot) {
        assert Before(es[j], es[i]) && es[j] in Elements(es);
        assert Candidate(es[j], k, snapshot) == Live(es[j], snapshot);
      }
    }
    PositionOf(es, snapshot, i, |es|);
    assert VisibleList(es, snapshot)[|VisibleBelow(es, snapshot, i)|] == (k, v);
  }

  lemma {:induction false} FewerBelow(es: seq<Entry>, snapshot: nat, a: nat, b: nat)
    requires a <= b <= |es|
    ensures |VisibleBelow(es, snapshot, a)| <= |VisibleBelow(es, snapshot, b)|
  {
    if a < b { FewerBelow(es, snapshot, a, b - 1); }
  }

  lemma NewestByIndex(es: seq<Entry>, snapshot: nat, i: nat)
    requires Sorted(es) && Visible(es, snapshot, i)
    ensures IsNewest(Elements(es), es[i].key, snapshot, es[i])
  {
    forall x | x in Elements(es) && Candidate(x, es[i].key, snapshot) ensures x.seqno <= es[i].seqno {
      var j :| 0 <= j < |es| && es[j] == x;
      if i < j { assert Before(es[i], es[j]); }
    }
  }

  // ---------------------------------------------------------------- the cursor to compare with

  datatype Op = Seek(target: UserKey) | SeekToFirst | SeekToLast | Next | Prev

  // Position in an ascending list, -1 when not valid.
  type Cursor = int

  function FirstAtOrAfter(list: seq<Pair>, k: UserKey): (c: nat)
    ensures c <= |list|
    ensures forall d :: 0 <= d < c ==> list[d].0 < k
    ensures c < |list| ==> k <= list[c].0
  {
    if list == [] || k <= list[0].0 then 0 else 1 + FirstAtOrAfter(list[1..], k)
  }

  lemma {:induction false} FirstIs(list: seq<Pair>, k: UserKey, c: nat)
    requires c <= |list| && (forall d :: 0 <= d < c ==> list[d].0 < k) && (c < |list| ==> k <= list[c].0)
    ensures FirstAtOrAfter(list, k) == c
  {
    if c > 0 { FirstIs(list[1..], k, c - 1); }
  }

  function OrInvalid(list: seq<Pair>, c: int): Cursor {
    if 0 <= c < |list| then c else -1
  }

  function CursorStep(list: seq<Pair>, c: Cursor, op: Op): Cursor {
    match op
    case Seek(k) => OrInvalid(list, FirstAtOrAfter(list, k))
    case SeekToFirst => OrInvalid(list, 0)
    case SeekToLast => OrInvalid(list, |list| - 1)
    case Next => OrInvalid(list, c + 1)
    case Prev => OrInvalid(list, c - 1)
  }

  // Next and Prev may only be called on a valid iterator.
  predicate Legal(list: seq<Pair>, c: Cursor, ops: seq<Op>)
    decreases |ops|
  {
    ops == [] ||
    (((ops[0].Next? || ops[0].Prev?) ==> 0 <= c < |list|) &&
     Legal(list, CursorStep(list, c, ops[0]), ops[1..]))
  }

  // What Valid()/key()/value() show after each operation.
  function Observed(list: seq<Pair>, c: Cursor): Option<Pair> {
    if 0 <= c < |list| then Some(list[c]) else None
  }

  function Observations(list: seq<Pair>, c: Cursor, ops: seq<Op>): (os: seq<Option<Pair>>)
    ensures |os| == |ops|
    decreases |ops|
  {
    if ops == [] then [] else
      var c' := CursorStep(list, c, ops[0]);
      [Observed(list, c')] + Observations(list, c', ops[1..])
  }

  // ---------------------------------------------------------------- the iterator

  datatype Direction = Forward | Reverse

  class DBIter {
    // What the merging iterator yields, and where it stands; |entries| when not valid.
    const entries: seq<Entry>
    var pos: nat
    const sequence: nat
    var direction: Direction
    var valid: bool
    var savedKey: Option<UserKey>   // None once cleared
    var savedValue: Value
    var corruption: bool            // status_ holds a corruption
    ghost var cur: int              // index of the entry being shown

    ghost predicate Inner() reads this { pos <= |entries| && Sorted(entries) }

    // Position of the inner iterator, with "before the first entry" for not valid.
    ghost function Lo(): int reads this { if pos < |entries| then pos else -1 }

    ghost predicate ForwardAt() reads this {
      cur == pos && Visible(entries, sequence, pos)
    }

    // The inner iterator stands before every entry of the key, with nothing live in between.
    ghost predicate ReverseAt() reads this {
      Visible(entries, sequence, cur) &&
      savedKey == Some(entries[cur].key) && savedValue == entries[cur].value &&
      (pos < |entries| ==> pos < cur && entries[pos].key < entries[cur].key) &&
      forall j :: Lo() < j < cur ==> !Live(entries[j], sequence)
    }

    // A corruption is only reported when some entry does not parse.
    ghost predicate Excused() reads this`corruption {
      corruption ==> exists i :: 0 <= i < |entries| && !Parses(entries[i])
    }

    ghost predicate Valid() reads this {
      Inner() && Excused() &&
      (valid ==> if direction.Forward? then ForwardAt() else ReverseAt())
    }

    ghost function List(): seq<Pair> { VisibleList(entries, sequence) }

    // The position of the iterator in the visible list.
    ghost function At(): Cursor
      reads this
      requires Valid()
    {
      if valid then |VisibleBelow(entries, sequence, cur)| else -1
    }

    constructor (es: seq<Entry>, s: nat)
      requires Sorted(es)
      ensures Valid() && At() == -1 && entries == es && sequence == s && !corruption
    {
      entries, sequence := es, s;
      pos, direction, valid := |es|, Forward, false;
      savedKey, savedValue, corruption, cur := None, [], false, -1;
    }

    function Key(): UserKey
      reads this
      requires Valid() && valid
    {
      if direction.Forward? then entries[pos].key else savedKey.value
    }

    function Val(): Value
      reads this
      requires Valid() && valid
    {
      if direction.Forward? then entries[pos].value else savedValue
    }

    // Key() and Val() are those of the list element at the cursor.
    lemma ShowsListElement()
      requires Valid()
      ensures valid <==> 0 <= At() < |List()|
      ensures valid ==> List()[At()] == (Key(), Val())
    {
      if valid { PositionOf(entries, sequence, cur, |entries|); }
    }

    // The inner iterator's own operations.
    method InnerNext()
      requires Inner() && pos < |entries|
      modifies this`pos
      ensures pos == old(pos) + 1
    {
      pos := pos + 1;
    }

    method InnerPrev()
      requires Inner() && pos < |entries|
      modifies this`pos
      ensures pos == if old(pos) == 0 then |entries| else old(pos) - 1
    {
      pos := if pos == 0 then |entries| else pos - 1;
    }

    // First entry at or after (target, sequence_, kValueTypeForSeek).
    method InnerSeek(target: UserKey)
      requires Inner()
      modifies this`pos
      ensures Inner()
      ensures forall j :: 0 <= j < pos ==> entries[j].key < target || (entries[j].key == target && entries[j].seqno > sequence)
      ensures forall j :: pos <= j < |entries| ==>
                target < entries[j].key || (entries[j].key == target && entries[j].seqno <= sequence)
    {
      pos := 0;
      while pos < |entries| && (entries[pos].key < target || (entries[pos].key == target && entries[pos].seqno > sequence))
        invariant pos <= |entries|
        invariant forall j :: 0 <= j < pos ==> entries[j].key < target || (entries[j].key == target && entries[j].seqno > sequence)
      {
        pos := pos + 1;
      }
      forall j | pos <= j < |entries|
        ensures target < entries[j].key || (entries[j].key == target && entries[j].seqno <= sequence)
      {
        if pos < j { assert Before(entries[pos], entries[j]); }
      }
    }

    // ParseKey with the sequence test of both scans.
    method ParseLive() returns (live: bool)
      requires Inner() && pos < |entries|
      modifies this`corruption
      ensures live == Live(entries[pos], sequence) && (old(Excused()) ==> Excused())
      ensures corruption == (old(corruption) || !Parses(entries[pos]))
    {
      if !Parses(entries[pos]) {
        corruption := true;
        return false;
      }
      return entries[pos].seqno <= sequence;
    }

    // State of a forward scan begun at p0 (skipping key0, if skip0) about to look at entry p.
    ghost predicate ScanAhead(skip0: bool, key0: Option<UserKey>, p0: int, skipping: bool, skip: Option<UserKey>, p: int) {
      0 <= p0 <= p <= |entries| && (skip0 ==> key0.Some?) && (skipping ==> skip.Some?) &&
      (skip0 ==> skipping && key0.value <= skip.value) &&
      (skipping ==> forall j :: p <= j < |entries| && Live(entries[j], sequence) ==> entries[j].key >= skip.value) &&
      // A key with live entries behind p is being skipped.
      (p < |entries| ==> forall j :: 0 <= j < p && Live(entries[j], sequence) && entries[j].key == entries[p].key ==>
         skipping && entries[p].key <= skip.value) &&
      // What is skipped is either not visible or was to be skipped from the start.
      (skipping ==> forall i ::
         p <= i < |entries| && Visible(entries, sequence, i) && entries[i].key <= skip.value ==>
           skip0 && entries[i].key <= key0.value) &&
      OnlySkipped(skip0, key0, p0, p)
    }

    // What is visible in a stretch was to be skipped.
    ghost predicate OnlySkipped(skip0: bool, key0: Option<UserKey>, lo: int, hi: int)
      requires skip0 ==> key0.Some?
    {
      forall i :: lo <= i < hi && Visible(entries, sequence, i) ==> skip0 && entries[i].key <= key0.value
    }

    lemma ForwardPast(skip0: bool, key0: Option<UserKey>, p0: int, skipping: bool, skip: Option<UserKey>, p: nat)
      requires Sorted(entries) && ScanAhead(skip0, key0, p0, skipping, skip, p) && p < |entries|
      requires Live(entries[p], sequence) ==> entries[p].kind.Put? && skipping && entries[p].key <= skip.value
      ensures ScanAhead(skip0, key0, p0, skipping, skip, p + 1)
    {
      OrderFrom(entries, p);
    }

    lemma ForwardDeletion(skip0: bool, key0: Option<UserKey>, p0: int, skipping: bool, skip: Option<UserKey>, p: nat)
      requires Sorted(entries) && ScanAhead(skip0, key0, p0, skipping, skip, p) && p < |entries|
      requires Live(entries[p], sequence) && entries[p].kind.Deletion?
      ensures ScanAhead(skip0, key0, p0, true, Some(entries[p].key), p + 1)
    {
      OrderFrom(entries, p);
    }

    lemma AheadIsVisible(skip0: bool, key0: Option<UserKey>, p0: int, skipping: bool, skip: Option<UserKey>, p: nat)
      requires Sorted(entries) && ScanAhead(skip0, key0, p0, skipping, skip, p) && p < |entries|
      requires Live(entries[p], sequence) && entries[p].kind.Put? && !(skipping && entries[p].key <= skip.value)
      ensures Visible(entries, sequence, p) && (skip0 ==> key0.value < entries[p].key)
    {
    }

    // The entry is an answer: live, a value, and not of a key that is being skipped.
    predicate Answers(skipping: bool, skip: Option<UserKey>, p: nat)
      requires p < |entries| && (skipping ==> skip.Some?)
    {
      Live(entries[p], sequence) && entries[p].kind.Put? && !(skipping && entries[p].key <= skip.value)
    }

    // What one look at an entry does to the key that is skipped: a deletion is skipped from now on, with
    // whatever older entries come.
    lemma Looked(skip0: bool, key0: Option<UserKey>, p0: int, skipping: bool, skip: Option<UserKey>, p: nat,
                 found: bool, skipping': bool, skip': Option<UserKey>)
      requires Sorted(entries) && p < |entries| && ScanAhead(skip0, key0, p0, skipping, skip, p) && found == Answers(skipping, skip, p)
      requires if Live(entries[p], sequence) && entries[p].kind.Deletion? then skipping' && skip' == Some(entries[p].key)
               else skipping' == skipping && skip' == skip
      ensures found ==> Visible(entries, sequence, p) && (skip0 ==> key0.value < entries[p].key)
      ensures !found ==> ScanAhead(skip0, key0, p0, skipping', skip', p + 1)
    {
      if found {
        AheadIsVisible(skip0, key0, p0, skipping, skip, p);
      } else if Live(entries[p], sequence) && entries[p].kind.Deletion? {
        ForwardDeletion(skip0, key0, p0, skipping, skip, p);
      } else {
        ForwardPast(skip0, key0, p0, skipping, skip, p);
      }
    }

    // One turn of the forward scan: stop at the entry, or go past it.
    method LookAhead(skipping: bool) returns (found: bool, skipping': bool)
      requires Inner() && pos < |entries| && Excused() && (skipping ==> savedKey.Some?)
      modifies `savedKey, `corruption
      ensures Excused() && found == Answers(skipping, old(savedKey), pos)
      ensures if Live(entries[pos], sequence) && entries[pos].kind.Deletion? then skipping' && savedKey == Some(entries[pos].key)
              else skipping' == skipping && savedKey == old(savedKey)
    {
      var live := ParseLive();
      if live && entries[pos].kind.Deletion? {
        savedKey := Some(entries[pos].key);
        return false, true;
      }
      if live && !(skipping && entries[pos].key <= savedKey.value) {
        return true, skipping;
      }
      // Not an answer: behind a deletion or an answer given, after the snapshot, or corrupt.
      return false, skipping;
    }

    method FindNextUserEntry(skip0: bool)
      requires Inner() && pos < |entries| && direction.Forward? && Excused()
      requires ScanAhead(skip0, savedKey, pos, skip0, savedKey, pos)
      modifies this
      ensures Valid() && direction.Forward?
      ensures valid ==> old(pos) <= pos && (skip0 ==> old(savedKey).value < entries[pos].key)
      ensures OnlySkipped(skip0, old(savedKey), old(pos), if valid then pos else |entries|)
    {
      var skipping := skip0;
      ghost var p0, key0 := pos, savedKey;
      while pos < |entries|
        invariant ScanAhead(skip0, key0, p0, skipping, savedKey, pos) && direction.Forward? && Excused()
      {
        var found;
        ghost var skip, was := savedKey, skipping;
        found, skipping := LookAhead(skipping);
        Looked(skip0, key0, p0, was, skip, pos, found, skipping, savedKey);
        if found {
          valid, cur, savedKey := true, pos, None;
          return;
        }
        InnerNext();
      }
      savedKey := None;
      valid := false;
    }

    ghost predicate NoVisible(lo: int, hi: int) {
      forall j :: lo < j <= hi ==> !Visible(entries, sequence, j)
    }

    // After scanning back to (not including) lo: a pending value is the newest live entry of
    // its key and nothing live lies before it; nothing else after lo is visible.
    ghost predicate Scanned(valueType: ValueType, lo: int, top: int) reads this {
      match valueType
      case Deletion => NoVisible(lo, top)
      case Put =>
        -1 <= lo < cur <= top < |entries| &&
        Live(entries[cur], sequence) && entries[cur].kind.Put? &&
        savedKey == Some(entries[cur].key) && savedValue == entries[cur].value &&
        (forall j :: lo < j < cur ==> !Live(entries[j], sequence)) && NoVisible(cur, top)
      case Corrupt(_) => false
    }

    // One turn of the backward scan on a live entry that does not end it.
    method TakeLive(valueType0: ValueType, ghost top: int) returns (valueType: ValueType)
      requires Inner() && pos < |entries| && Live(entries[pos], sequence) && pos <= top < |entries|
      requires Scanned(valueType0, pos, top)
      requires valueType0 != Deletion ==> entries[pos].key >= savedKey.value
      modifies this`savedKey, this`savedValue, this`cur
      ensures Scanned(valueType, pos - 1, top)
    {
      assert valueType0.Put? ==> Before(entries[pos], entries[cur]) && !Visible(entries, sequence, cur);
      assert NoVisible(pos, top);
      valueType := entries[pos].kind;
      if valueType == Deletion {
        savedKey, savedValue := None, [];
      } else {
        savedKey, savedValue, cur := Some(entries[pos].key), entries[pos].value, pos;
      }
    }

    method FindPrevUserEntry()
      requires Inner() && direction.Reverse?
      requires Excused()
      modifies this
      ensures Valid()
      ensures valid ==> direction.Reverse? && cur <= old(Lo())
      ensures NoVisible(if valid then cur else -1, old(Lo()))
    {
      var valueType := Deletion;
      ghost var top := Lo();
      if pos < |entries| {
        while pos < |entries|
          invariant pos <= |entries| && direction.Reverse?
          invariant Excused()
          invariant Lo() <= top < |entries| && Scanned(valueType, Lo(), top)
          decreases Lo()
        {
          var live := ParseLive();
          if live {
            if valueType != Deletion && entries[pos].key < savedKey.value {
              // The saved value is the answer; this belongs to the key before.
              break;
            }
            valueType := TakeLive(valueType, top);
          }
          InnerPrev();
        }
      }
      if valueType == Deletion {
        valid, savedKey, savedValue, direction := false, None, [], Forward;
      } else {
        NewestLiveIsVisible();
        valid := true;
      }
    }

    // What the backward scan stops on.
    lemma NewestLiveIsVisible()
      requires Inner() && 0 <= cur < |entries| && Live(entries[cur], sequence) && entries[cur].kind.Put?
      requires Lo() < cur && forall j :: Lo() < j < cur ==> !Live(entries[j], sequence)
      requires 0 <= Lo() ==> entries[Lo()].key < entries[cur].key
      ensures Visible(entries, sequence, cur)
    {
      forall j | 0 <= j < cur && entries[j].key == entries[cur].key ensures !Live(entries[j], sequence) {
        assert j < Lo() ==> Before(entries[j], entries[Lo()]);
      }
    }

    // The cursor position when the shown entry moves to the next visible one, or off the end.
    lemma NextPosition(i: nat, j: nat)
      requires Visible(entries, sequence, i) && i < j <= |entries|
      requires forall n :: i < n < j ==> !Visible(entries, sequence, n)
      ensures |VisibleBelow(entries, sequence, j)| == |VisibleBelow(entries, sequence, i)| + 1
    {
      NoneBetween(entries, sequence, i + 1, j);
    }

    lemma SeekPosition(target: UserKey, j: nat)
      requires j <= |entries| && (j < |entries| ==> Visible(entries, sequence, j) && target <= entries[j].key)
      requires Sorted(entries)
      requires forall n :: 0 <= n < j && Visible(entries, sequence, n) ==> entries[n].key < target
      ensures FirstAtOrAfter(List(), target) == |VisibleBelow(entries, sequence, j)|
    {
      var vs, c := VisibleBelow(entries, sequence, |entries|), |VisibleBelow(entries, sequence, j)|;
      forall d | 0 <= d < c ensures d < |vs| && List()[d].0 < target {
        FewerBelow(entries, sequence, j, |entries|);
        VisibleBelowInRange(entries, sequence, |entries|, d);
        if j <= vs[d] { FewerBelow(entries, sequence, j, vs[d]); }
      }
      if j < |entries| { PositionOf(entries, sequence, j, |entries|); }
      FirstIs(List(), target, c);
    }

    // Moves the inner iterator into the entries of the shown key and arranges to skip that key.
    method EnterShownKey(ghost i: nat)
      requires Valid() && valid && cur == i
      modifies this`pos, this`direction, this`savedKey
      ensures pos <= i && direction.Forward? && savedKey == Some(entries[i].key)
      ensures forall j :: pos <= j < i ==> !Live(entries[j], sequence)
      ensures forall j :: 0 <= j < pos && Live(entries[j], sequence) ==> entries[j].key < entries[i].key
    {
      if direction.Reverse? {
        direction := Forward;
        // A step forward lands on the key that was returned, or on something older of it.
        if pos == |entries| { pos := 0; } else { InnerNext(); }
        assert pos <= i;
      } else {
        savedKey := Some(entries[pos].key);
      }
      forall j | 0 <= j < pos && Live(entries[j], sequence) ensures entries[j].key < entries[i].key {
        assert Before(entries[j], entries[i]);
      }
    }

    method Next()
      requires Valid() && valid
      modifies this
      ensures Valid() && At() == CursorStep(List(), old(At()), Op.Next)
    {
      ghost var i: nat := cur;
      ShownIsFirstOfKey(i);
      EnterShownKey(i);
      FindNextUserEntry(true);
      NextPosition(i, if valid then cur else |entries|);
      ShowsListElement();
    }

    // Everything visible after the shown entry has a larger key.
    lemma ShownIsFirstOfKey(i: nat)
      requires Sorted(entries) && Visible(entries, sequence, i)
      ensures forall n :: i < n && Visible(entries, sequence, n) ==> entries[i].key < entries[n].key
      ensures forall n :: i <= n < |entries| ==> entries[i].key <= entries[n].key
    {
      forall n | i < n && Visible(entries, sequence, n) ensures entries[i].key < entries[n].key {
        assert Before(entries[i], entries[n]);
      }
      OrderFrom(entries, i);
    }

    method Prev()
      requires Valid() && valid
      modifies this
      ensures Valid() && At() == CursorStep(List(), old(At()), Op.Prev)
    {
      ShowsListElement();
      ghost var i: nat := cur;
      if direction.Forward? {
        // Leave all entries of the current key.
        savedKey := Some(entries[pos].key);
        while true
          invariant pos < |entries| && pos <= i && savedKey == Some(entries[i].key) && valid
          invariant Excused()
          invariant forall n :: pos <= n < i ==> entries[n].key == entries[i].key
          decreases pos
        {
          InnerPrev();
          if pos == |entries| {
            valid, savedKey, savedValue := false, None, [];
            NoneBetween(entries, sequence, 0, i);
            return;
          }
          if entries[pos].key < savedKey.value {
            break;
          }
          assert Before(entries[pos], entries[i]);
        }
        direction := Reverse;
      }
      FindPrevUserEntry();
      if valid { NextPosition(cur, i); } else { NoneBetween(entries, sequence, 0, i); }
    }

    method Seek(target: UserKey)
      requires Valid()
      modifies this
      ensures Valid() && At() == CursorStep(List(), old(At()), Op.Seek(target))
    {
      direction, savedValue, savedKey := Forward, [], None;
      InnerSeek(target);
      ghost var p := pos;
      if pos < |entries| {
        FindNextUserEntry(false);
      } else {
        valid := false;
      }
      SeekPosition(target, if valid then cur else |entries|);
      ShowsListElement();
    }

    method SeekToFirst()
      requires Valid()
      modifies this
      ensures Valid() && At() == CursorStep(List(), old(At()), Op.SeekToFirst)
    {
      direction, savedValue := Forward, [];
      pos := 0;
      if pos < |entries| {
        FindNextUserEntry(false);
      } else {
        valid := false;
      }
      NoneBetween(entries, sequence, 0, if valid then cur else |entries|);
      ShowsListElement();
    }

    method SeekToLast()
      requires Valid()
      modifies this
      ensures Valid() && At() == CursorStep(List(), old(At()), Op.SeekToLast)
    {
      direction, savedValue := Reverse, [];
      pos := if |entries| == 0 then 0 else |entries| - 1;
      FindPrevUserEntry();
      if valid { NextPosition(cur, |entries|); } else { NoneBetween(entries, sequence, 0, |entries|); }
    }

    method Step(op: Op) returns (shown: Option<Pair>)
      requires Valid() && (op.Next? || op.Prev? ==> valid)
      modifies this
      ensures Valid() && At() == CursorStep(List(), old(At()), op) && shown == Observed(List(), At())
    {
      match op {
        case Seek(k) => Seek(k);
        case SeekToFirst => SeekToFirst();
        case SeekToLast => SeekToLast();
        case Next => Next();
        case Prev => Prev();
      }
      ShowsListElement();
      shown := if valid then Some((Key(), Val())) else None;
    }

    // Any legal run of operations shows exactly what the cursor over the visible list shows.
    method Run(ops: seq<Op>) returns (shown: seq<Option<Pair>>)
      requires Valid() && Legal(List(), At(), ops)
      modifies this
      ensures Valid() && shown == Observations(List(), old(At()), ops)
    {
      shown := [];
      ghost var list, c, all := List(), At(), Observations(List(), At(), ops);
      var n := 0;
      assert ops[0..] == ops && [] + all == all;
      while n < |ops|
        invariant 0 <= n <= |ops| && Valid() && c == At() && Legal(list, c, ops[n..])
        invariant all == shown + Observations(list, c, ops[n..])
      {
        ghost var rest := ops[n..];
        assert rest[0] == ops[n] && rest[1..] == ops[n + 1..];
        ShowsListElement();
        var o := Step(ops[n]);
        c := At();
        MoreShown(shown, o, Observations(list, c, ops[n + 1..]));
        shown := shown + [o];
        n := n + 1;
      }
      assert shown + [] == shown;
    }
  }

  lemma MoreShown(shown: seq<Option<Pair>>, o: Option<Pair>, rest: seq<Option<Pair>>)
    ensures shown + ([o] + rest) == (shown + [o]) + rest
  {
  }

  lemma OrderFrom(es: seq<Entry>, p: nat)
    requires Sorted(es) && p < |es|
    ensures forall j :: p < j < |es| ==> es[p].key <= es[j].key
  {
    forall j | p < j < |es| ensures es[p].key <= es[j].key { assert Before(es[p], es[j]); }
  }
}
