/**
 The memtable (memtable.h, memtable.cc): a skip list of byte strings, each holding the
 length-prefixed internal key and the length-prefixed value of one entry.
 */
module MemTables {
  import opened Coding
  import opened DbFormat
  import opened SkipLists

  // GetLengthPrefixedSlice; the source assumes the bytes are not corrupted.
  function LengthPrefixed(s: Bytes): Bytes { TakeSlice(s).1 }

  function AfterLengthPrefixed(s: Bytes): Bytes { TakeSlice(s).2 }

  // ---------------------------------------------------------------- entries

  datatype Item = Item(userKey: Bytes, seqno: nat, kind: nat, value: Bytes)

  predicate ItemOk(e: Item) {
    SequenceOk(e.seqno, e.kind) && |e.userKey| + 8 < 0x1_0000_0000 && FitsSlice(e.value)
  }

  function KeyOf(e: Item): Bytes { InternalKey(e.userKey, e.seqno, e.kind) }

  // The format that Add writes.
  function EncodeItem(e: Item): Bytes {
    PutLengthPrefixed(KeyOf(e)) + PutLengthPrefixed(e.value)
  }

  lemma ItemParts(e: Item)
    requires ItemOk(e)
    ensures LengthPrefixed(EncodeItem(e)) == KeyOf(e)
    ensures LengthPrefixed(AfterLengthPrefixed(EncodeItem(e))) == e.value
  {
    TakeSliceRoundTrip(KeyOf(e), PutLengthPrefixed(e.value));
    TakeSliceRoundTrip(e.value, []);
    assert PutLengthPrefixed(e.value) + [] == PutLengthPrefixed(e.value);
  }

  // MemTable::KeyComparator.
  function EntryOrder(cmp: Comparator): Order<Bytes> {
    (a, b) => Compare(cmp, LengthPrefixed(a), LengthPrefixed(b)) < 0
  }

  lemma EntryOrderIsWeak(cmp: Comparator)
    requires IsComparator(cmp)
    ensures StrictWeak(EntryOrder(cmp))
  {
    CompareIsComparator(cmp);
    var c := (a, b) => Compare(cmp, a, b);
    forall a, b ensures EntryOrder(cmp)(a, b) == (c(LengthPrefixed(a), LengthPrefixed(b)) < 0) {}
    forall a, b, d | EntryOrder(cmp)(a, b) ensures EntryOrder(cmp)(a, d) || EntryOrder(cmp)(d, b) {
      assert c(LengthPrefixed(a), LengthPrefixed(b)) < 0;
      if c(LengthPrefixed(d), LengthPrefixed(b)) >= 0 {
        assert c(LengthPrefixed(b), LengthPrefixed(d)) <= 0;
      }
    }
  }

  predicate SameUserKey(cmp: Comparator, a: Bytes, b: Bytes) { cmp(a, b) == 0 }

  // LookupKey.
  function MemtableKey(userKey: Bytes, snapshot: nat): Bytes {
    EncodeVarint(|userKey| + 8) + userKey + EncodeFixed(8, PackSequenceAndType(snapshot, kValueTypeForSeek))
  }

  lemma MemtableKeyIsInternal(userKey: Bytes, snapshot: nat)
    requires |userKey| + 8 < 0x1_0000_0000
    ensures LengthPrefixed(MemtableKey(userKey, snapshot)) == InternalKey(userKey, snapshot, kValueTypeForSeek)
  {
    var key := InternalKey(userKey, snapshot, kValueTypeForSeek);
    TakeSliceRoundTrip(key, []);
    assert PutLengthPrefixed(key) + [] == MemtableKey(userKey, snapshot);
  }

  // ---------------------------------------------------------------- what a lookup means

  datatype Lookup = Missing | Deleted | Present(value: Bytes)

  predicate Visible(cmp: Comparator, e: Item, userKey: Bytes, snapshot: nat) {
    SameUserKey(cmp, e.userKey, userKey) && e.seqno <= snapshot
  }

  // Entry i is the newest of its key at or below the snapshot.
  predicate Newest(cmp: Comparator, items: seq<Item>, userKey: Bytes, snapshot: nat, i: nat) {
    i < |items| && Visible(cmp, items[i], userKey, snapshot) &&
    forall j :: 0 <= j < |items| && Visible(cmp, items[j], userKey, snapshot) ==> items[j].seqno <= items[i].seqno
  }

  function Outcome(e: Item): Lookup { if e.kind == kTypeValue then Present(e.value) else Deleted }

  predicate LookupIs(cmp: Comparator, items: seq<Item>, userKey: Bytes, snapshot: nat, r: Lookup) {
    if r == Missing then forall j :: 0 <= j < |items| ==> !Visible(cmp, items[j], userKey, snapshot)
    else exists i :: 0 <= i < |items| && Newest(cmp, items, userKey, snapshot, i) && r == Outcome(items[i])
  }

  // (user key, sequence) pairs are unique.
  predicate Distinct(cmp: Comparator, items: seq<Item>) {
    forall i, j :: 0 <= i < j < |items| ==> !(SameUserKey(cmp, items[i].userKey, items[j].userKey) && items[i].seqno == items[j].seqno)
  }

  // The entry that Seek stops at decides the lookup.
  lemma SeekFindsNewest(cmp: Comparator, items: seq<Item>, entries: seq<Bytes>, userKey: Bytes, snapshot: nat, p: nat)
    requires IsComparator(cmp) && |items| == |entries| && p <= |items|
    requires forall i :: 0 <= i < |items| ==> ItemOk(items[i]) && entries[i] == EncodeItem(items[i])
    requires forall i, j :: 0 <= i < j < |entries| ==> EntryOrder(cmp)(entries[i], entries[j])
    requires |userKey| + 8 < 0x1_0000_0000 && snapshot <= kMaxSequenceNumber
    requires forall i :: 0 <= i < p ==> EntryOrder(cmp)(entries[i], MemtableKey(userKey, snapshot))
    requires forall i :: p <= i < |items| ==> !EntryOrder(cmp)(entries[i], MemtableKey(userKey, snapshot))
    ensures if p < |items| && SameUserKey(cmp, items[p].userKey, userKey) then Newest(cmp, items, userKey, snapshot, p)
            else forall j :: 0 <= j < |items| ==> !Visible(cmp, items[j], userKey, snapshot)
  {
    forall j | 0 <= j < |items|
      ensures j < p ==> !Visible(cmp, items[j], userKey, snapshot)
      ensures j == p && SameUserKey(cmp, items[j].userKey, userKey) ==> Visible(cmp, items[j], userKey, snapshot)
      ensures j > p && SameUserKey(cmp, items[j].userKey, userKey) ==>
                SameUserKey(cmp, items[p].userKey, userKey) && items[j].seqno <= items[p].seqno
    {
      EntryAgainstLookup(cmp, items[j], userKey, snapshot);
      if j > p {
        EntryAgainstLookup(cmp, items[p], userKey, snapshot);
        assert EntryOrder(cmp)(entries[p], entries[j]);
        OrderOfItems(cmp, items[p], items[j]);
      }
    }
  }

  lemma EntryAgainstLookup(cmp: Comparator, e: Item, userKey: Bytes, snapshot: nat)
    requires ItemOk(e) && |userKey| + 8 < 0x1_0000_0000 && snapshot <= kMaxSequenceNumber
    ensures EntryOrder(cmp)(EncodeItem(e), MemtableKey(userKey, snapshot)) <==>
              cmp(e.userKey, userKey) < 0 || (cmp(e.userKey, userKey) == 0 && e.seqno > snapshot)
  {
    ItemParts(e);
    MemtableKeyIsInternal(userKey, snapshot);
    CompareOrders(cmp, e.userKey, e.seqno, e.kind, userKey, snapshot, kValueTypeForSeek);
  }

  // ---------------------------------------------------------------- the memtable

  predicate Represents(entries: seq<Bytes>, items: seq<Item>) {
    |items| == |entries| && forall i :: 0 <= i < |items| ==> ItemOk(items[i]) && entries[i] == EncodeItem(items[i])
  }

  predicate IsNew(cmp: Comparator, items: seq<Item>, e: Item) {
    forall i :: 0 <= i < |items| ==> !(SameUserKey(cmp, items[i].userKey, e.userKey) && items[i].seqno == e.seqno)
  }

  // The entries represent distinct items in the order of a comparator; folded from the front so
  // that it only unfolds when asked to.
  ghost predicate Stored(cmp: Comparator, entries: seq<Bytes>, items: seq<Item>, i: nat)
    decreases |items| - i
  {
    if i >= |items| then IsComparator(cmp) && |entries| == |items|
    else
      i < |entries| && ItemOk(items[i]) && entries[i] == EncodeItem(items[i]) &&
      IsNew(cmp, items[i + 1..], items[i]) && Stored(cmp, entries, items, i + 1)
  }

  lemma {:induction false} UnfoldStored(cmp: Comparator, entries: seq<Bytes>, items: seq<Item>, i: nat)
    requires Stored(cmp, entries, items, i)
    ensures IsComparator(cmp) && |entries| == |items|
    ensures forall j :: i <= j < |items| ==> ItemOk(items[j]) && entries[j] == EncodeItem(items[j])
    ensures forall j, k :: i <= j < k < |items| ==> !(SameUserKey(cmp, items[j].userKey, items[k].userKey) && items[j].seqno == items[k].seqno)
    decreases |items| - i
  {
    if i < |items| {
      UnfoldStored(cmp, entries, items, i + 1);
      forall k | i < k < |items| ensures !(SameUserKey(cmp, items[i].userKey, items[k].userKey) && items[i].seqno == items[k].seqno) {
        assert items[i + 1..][k - i - 1] == items[k];
      }
    }
  }

  lemma {:induction false} FoldStored(cmp: Comparator, entries: seq<Bytes>, items: seq<Item>, i: nat)
    requires IsComparator(cmp) && Represents(entries, items) && Distinct(cmp, items)
    ensures Stored(cmp, entries, items, i)
    decreases |items| - i
  {
    if i < |items| {
      FoldStored(cmp, entries, items, i + 1);
      var rest := items[i + 1..];
      forall k | 0 <= k < |rest| ensures !(SameUserKey(cmp, rest[k].userKey, items[i].userKey) && rest[k].seqno == items[i].seqno) {
        assert rest[k] == items[i + 1 + k];
      }
    }
  }

  class MemTable {
    const cmp: Comparator
    const table: SkipList<Bytes>
    ghost var items: seq<Item>        // in the order of the table

    ghost predicate Valid() reads this, table {
      table.Valid() && table.before == EntryOrder(cmp) && |items| == |table.Contents()| && Stored(cmp, table.Contents(), items, 0)
    }

    lemma Current()
      requires Valid()
      ensures IsComparator(cmp) && Represents(table.Contents(), items) && Distinct(cmp, items)
    {
      UnfoldStored(cmp, table.Contents(), items, 0);
    }

    constructor (cmp: Comparator)
      requires IsComparator(cmp)
      ensures Valid() && fresh(table) && this.cmp == cmp && items == []
    {
      EntryOrderIsWeak(cmp);
      this.cmp, items := cmp, [];
      table := new SkipList(EntryOrder(cmp), []);
    }

    method Add(s: nat, kind: nat, key: Bytes, value: Bytes, height: nat)
      requires Valid() && 1 <= height <= kMaxHeight && ItemOk(Item(key, s, kind, value)) && IsNew(cmp, items, Item(key, s, kind, value))
      modifies this, table
      ensures Valid() && multiset(items) == multiset(old(items)) + multiset{Item(key, s, kind, value)}
    {
      var buf := EncodeVarint(|key| + 8);
      buf := buf + key;
      buf := buf + EncodeFixed(8, PackSequenceAndType(s, kind));
      buf := buf + EncodeVarint(|value|);
      buf := buf + value;
      ghost var e := Item(key, s, kind, value);
      Current();
      AddedBytes(e, buf);
      NotEqualToAny(cmp, items, table.Contents(), e);
      ghost var p := table.Position(buf);
      EntryInserted(table.Contents(), items, buf, e, p);
      table.Insert(buf, height);
      ItemInserted(cmp, items, e, p);
      items := items[..p] + [e] + items[p..];
      FoldStored(cmp, table.Contents(), items, 0);
    }

    method Get(userKey: Bytes, snapshot: nat) returns (r: Lookup)
      requires Valid() && |userKey| + 8 < 0x1_0000_0000 && snapshot <= kMaxSequenceNumber
      ensures LookupIs(cmp, items, userKey, snapshot, r)
    {
      Current();
      var found, entry, p := Locate(MemtableKey(userKey, snapshot));
      SeekFindsNewest(cmp, items, table.Contents(), userKey, snapshot, p);
      if found {
        EntryFields(items[p]);
        // The entry sought may be one of the next user key.
        var key := LengthPrefixed(entry);
        if cmp(ExtractUserKey(key), userKey) == 0 {
          var tag := Tag(key);
          if tag % 256 == kTypeValue {
            return Present(LengthPrefixed(AfterLengthPrefixed(entry)));
          } else if tag % 256 == kTypeDeletion {
            return Deleted;
          }
        }
      }
      return Missing;
    }

    // Position an iterator at the first entry at or after memkey.
    method Locate(memkey: Bytes) returns (found: bool, entry: Bytes, ghost p: nat)
      requires Valid()
      ensures p <= |items| && found == (p < |items|) && (found ==> entry == table.Contents()[p])
      ensures forall i :: 0 <= i < p ==> EntryOrder(cmp)(table.Contents()[i], memkey)
      ensures forall i :: p <= i < |items| ==> !EntryOrder(cmp)(table.Contents()[i], memkey)
      ensures forall i, j :: 0 <= i < j < |items| ==> EntryOrder(cmp)(table.Contents()[i], table.Contents()[j])
    {
      Current();
      table.PositionSplits(memkey);
      table.ContentsAscend();
      p := table.Position(memkey);
      var iter := new Iterator(table);
      iter.Seek(memkey);
      found := iter.node != NULL;
      entry := if found then table.mem.keys[iter.node] else [];
    }
  }

  lemma EntryFields(e: Item)
    requires ItemOk(e)
    ensures var key := LengthPrefixed(EncodeItem(e));
            ExtractUserKey(key) == e.userKey && Tag(key) % 256 == e.kind &&
            LengthPrefixed(AfterLengthPrefixed(EncodeItem(e))) == e.value
  {
    ItemParts(e);
    InternalKeyFields(e.userKey, e.seqno, e.kind);
  }

  lemma NotEqualToAny(cmp: Comparator, items: seq<Item>, entries: seq<Bytes>, e: Item)
    requires IsComparator(cmp) && Represents(entries, items) && ItemOk(e) && IsNew(cmp, items, e)
    ensures forall k :: k in entries ==> !Equal(EntryOrder(cmp), k, EncodeItem(e))
  {
    forall k | k in entries ensures !Equal(EntryOrder(cmp), k, EncodeItem(e)) {
      var i :| 0 <= i < |items| && entries[i] == k;
      OrderOfItems(cmp, items[i], e);
      OrderOfItems(cmp, e, items[i]);
    }
  }

  lemma OrderOfItems(cmp: Comparator, a: Item, b: Item)
    requires ItemOk(a) && ItemOk(b)
    ensures EntryOrder(cmp)(EncodeItem(a), EncodeItem(b)) <==>
              cmp(a.userKey, b.userKey) < 0 || (cmp(a.userKey, b.userKey) == 0 && (a.seqno > b.seqno || (a.seqno == b.seqno && a.kind > b.kind)))
  {
    ItemParts(a);
    ItemParts(b);
    CompareOrders(cmp, a.userKey, a.seqno, a.kind, b.userKey, b.seqno, b.kind);
  }

  lemma AddedBytes(e: Item, buf: Bytes)
    requires buf == EncodeVarint(|e.userKey| + 8) + e.userKey + EncodeFixed(8, PackSequenceAndType(e.seqno, e.kind)) + EncodeVarint(|e.value|) + e.value
    ensures buf == EncodeItem(e)
  {
    var n, tag, m := EncodeVarint(|e.userKey| + 8), EncodeFixed(8, PackSequenceAndType(e.seqno, e.kind)), EncodeVarint(|e.value|);
    assert n + e.userKey + tag == n + (e.userKey + tag);
    assert n + (e.userKey + tag) + m + e.value == n + (e.userKey + tag) + (m + e.value);
  }

  lemma InsertedAt(items: seq<Item>, e: Item, p: nat, i: nat)
    requires p <= |items| && i <= |items|
    ensures |items[..p] + [e] + items[p..]| == |items| + 1
    ensures (items[..p] + [e] + items[p..])[i] == if i < p then items[i] else if i == p then e else items[i - 1]
  {
  }

  // Two entries of the longer list, of which one may be the new one.
  lemma TwoInserted(cmp: Comparator, items: seq<Item>, e: Item, p: nat, i: nat, j: nat)
    requires IsComparator(cmp) && p <= |items| && Distinct(cmp, items) && IsNew(cmp, items, e) && i < j <= |items|
    ensures |items[..p] + [e] + items[p..]| == |items| + 1
    ensures var more := items[..p] + [e] + items[p..]; !(SameUserKey(cmp, more[i].userKey, more[j].userKey) && more[i].seqno == more[j].seqno)
  {
    InsertedAt(items, e, p, i);
    InsertedAt(items, e, p, j);
    if i == p { NewBothWays(cmp, items, e, j - 1); }
  }

  lemma ItemInserted(cmp: Comparator, items: seq<Item>, e: Item, p: nat)
    requires IsComparator(cmp) && p <= |items| && Distinct(cmp, items) && IsNew(cmp, items, e)
    ensures Distinct(cmp, items[..p] + [e] + items[p..])
    ensures multiset(items[..p] + [e] + items[p..]) == multiset(items) + multiset{e}
  {
    var more := items[..p] + [e] + items[p..];
    forall i, j | 0 <= i < j < |more| ensures !(SameUserKey(cmp, more[i].userKey, more[j].userKey) && more[i].seqno == more[j].seqno) {
      TwoInserted(cmp, items, e, p, i, j);
    }
    assert items == items[..p] + items[p..];
  }

  lemma NewBothWays(cmp: Comparator, items: seq<Item>, e: Item, i: nat)
    requires IsComparator(cmp) && IsNew(cmp, items, e) && i < |items|
    ensures !(SameUserKey(cmp, e.userKey, items[i].userKey) && items[i].seqno == e.seqno)
  {
  }

  lemma EntryInserted(entries: seq<Bytes>, items: seq<Item>, entry: Bytes, e: Item, p: nat)
    requires Represents(entries, items) && p <= |items| && ItemOk(e) && entry == EncodeItem(e)
    ensures Represents(entries[..p] + [entry] + entries[p..], items[..p] + [e] + items[p..])
  {
  }

  lemma SameKeys(cmp: Comparator, a: Bytes, b: Bytes, key: Bytes)
    requires IsComparator(cmp) && SameUserKey(cmp, a, key) && SameUserKey(cmp, b, key)
    ensures SameUserKey(cmp, a, b) && SameUserKey(cmp, b, a)
  {
    assert cmp(key, a) == 0 && cmp(key, b) == 0;
  }

  // A lookup has one answer.
  lemma LookupIsUnique(cmp: Comparator, items: seq<Item>, userKey: Bytes, snapshot: nat, r: Lookup, r': Lookup)
    requires IsComparator(cmp) && Distinct(cmp, items)
    requires LookupIs(cmp, items, userKey, snapshot, r) && LookupIs(cmp, items, userKey, snapshot, r')
    ensures r == r'
  {
    if r != Missing {
      var i :| 0 <= i < |items| && Newest(cmp, items, userKey, snapshot, i) && r == Outcome(items[i]);
      if r' != Missing {
        var j :| 0 <= j < |items| && Newest(cmp, items, userKey, snapshot, j) && r' == Outcome(items[j]);
        SameKeys(cmp, items[i].userKey, items[j].userKey, userKey);
      }
    }
  }
}
