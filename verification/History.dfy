/**
 The specification the storage engine refines: a history of writes, in which operation i has
 sequence number i + 1, read at a snapshot.
 */
module History {
  import opened InternalKeys
  import opened Options

  datatype WriteOp = WriteOp(key: UserKey, isPut: bool, value: Value)
  type History = seq<WriteOp>

  function OpEntry(op: WriteOp, seqno: nat): Entry {
    Entry(op.key, seqno, if op.isPut then Put else Deletion, op.value)
  }

  function OpValue(op: WriteOp): Option<Value> {
    if op.isPut then Some(op.value) else None
  }

  // The value of k after the last write with sequence at or below s.
  function ValueAt(h: History, k: UserKey, s: nat): Option<Value> {
    var n := if s < |h| then s else |h|;
    if n == 0 then None
    else if h[n - 1].key == k then OpValue(h[n - 1])
    else ValueAt(h, k, n - 1)
  }

  function EntryAt(h: History, i: nat): Entry
    requires i < |h|
  {
    OpEntry(h[i], i + 1)
  }

  // The internal entries of the operations with sequence in (lo, hi].
  function EntriesOf(h: History, lo: nat, hi: nat): set<Entry>
    requires lo <= hi <= |h|
  {
    if lo == hi then {} else EntriesOf(h, lo, hi - 1) + {EntryAt(h, hi - 1)}
  }

  lemma {:induction false} InEntries(h: History, lo: nat, hi: nat)
    requires lo <= hi <= |h|
    ensures forall e :: e in EntriesOf(h, lo, hi) <==> lo < e.seqno <= hi && e == EntryAt(h, e.seqno - 1)
  {
    if lo < hi { InEntries(h, lo, hi - 1); }
  }

  lemma {:induction false} ValueAtPrefix(h: History, g: History, k: UserKey, s: nat)
    requires s <= |h|
    ensures ValueAt(h + g, k, s) == ValueAt(h, k, s)
  {
    if s > 0 && h[s - 1].key != k { ValueAtPrefix(h, g, k, s - 1); }
  }

  lemma {:induction false} EntriesPrefix(h: History, g: History, lo: nat, hi: nat)
    requires lo <= hi <= |h|
    ensures EntriesOf(h + g, lo, hi) == EntriesOf(h, lo, hi)
  {
    if lo < hi { EntriesPrefix(h, g, lo, hi - 1); }
  }

  lemma {:induction false} EntriesSplit(h: History, lo: nat, mid: nat, hi: nat)
    requires lo <= mid <= hi <= |h|
    ensures EntriesOf(h, lo, hi) == EntriesOf(h, lo, mid) + EntriesOf(h, mid, hi)
  {
    if mid < hi { EntriesSplit(h, lo, mid, hi - 1); }
  }

  // A set of history entries that holds every write of k in (m, s] and whose older part gives the
  // right view answers for k at s exactly as the history does.
  lemma {:induction false} ViewIsValueAt(h: History, es: set<Entry>, k: UserKey, s: nat)
    requires s <= |h| && EntriesOf(h, 0, s) <= es <= EntriesOf(h, 0, |h|)
    ensures View(es, k, s) == ValueAt(h, k, s)
  {
    InEntries(h, 0, |h|);
    if c :| c in es && Candidate(c, k, s) {
      var e := NewestExists(es, k, s, c);
      ViewIs(es, k, s, e);
      NewestIsValueAt(h, es, k, s, s, e);
    } else {
      NoWritesNoValue(h, es, k, s);
    }
  }

  lemma {:induction false} NewestIsValueAt(h: History, es: set<Entry>, k: UserKey, s: nat, t: nat, e: Entry)
    requires t <= s <= |h| && EntriesOf(h, 0, s) <= es <= EntriesOf(h, 0, |h|)
    requires IsNewest(es, k, s, e) && e.seqno <= t
    ensures ValueAt(h, k, t) == ValueOf(e)
  {
    InEntries(h, 0, |h|);
    if e.seqno < t {
      var x := EntryAt(h, t - 1);
      InEntries(h, 0, s);
      assert x in EntriesOf(h, 0, s);
      NewestIsValueAt(h, es, k, s, t - 1, e);
    }
  }

  lemma {:induction false} NoWritesNoValue(h: History, es: set<Entry>, k: UserKey, s: nat)
    requires s <= |h| && EntriesOf(h, 0, s) <= es
    requires forall c :: c in es ==> !Candidate(c, k, s)
    ensures ValueAt(h, k, s) == None
  {
    if s > 0 {
      assert EntryAt(h, s - 1) in EntriesOf(h, 0, s);
      NoWritesNoValue(h, es, k, s - 1);
    }
  }

  // Adding newer entries to two sets with equal views keeps the views equal.
  lemma ViewWithNewer(a: set<Entry>, b: set<Entry>, newer: set<Entry>, k: UserKey, s: nat)
    requires UniqueTags(a + newer) && UniqueTags(b + newer)
    requires forall x, n :: x in a + b && n in newer ==> x.seqno < n.seqno
    requires View(a, k, s) == View(b, k, s)
    ensures View(a + newer, k, s) == View(b + newer, k, s)
  {
    if c :| c in newer && Candidate(c, k, s) {
      var e := NewestExists(newer, k, s, c);
      ViewIs(a + newer, k, s, e);
      ViewIs(b + newer, k, s, e);
    } else {
      ViewWithoutNewer(a, newer, k, s);
      ViewWithoutNewer(b, newer, k, s);
    }
  }

  // Entries that are no candidates do not matter.
  lemma ViewWithoutNewer(a: set<Entry>, others: set<Entry>, k: UserKey, s: nat)
    requires UniqueTags(a + others)
    requires forall c :: c in others ==> !Candidate(c, k, s)
    ensures View(a + others, k, s) == View(a, k, s)
  {
    forall e ensures IsNewest(a + others, k, s, e) <==> IsNewest(a, k, s, e) {
    }
    SameNewestSameView(a + others, a, k, s);
  }

  lemma HistoryEntriesUnique(h: History, es: set<Entry>)
    requires es <= EntriesOf(h, 0, |h|)
    ensures UniqueTags(es)
  {
    InEntries(h, 0, |h|);
  }
}
