/**
 The entries every leveldb component works on, (user key, sequence, type) => value,
 and the meaning readers give them: the value of a key at a snapshot is decided by
 the newest entry for the key whose sequence is at or below the snapshot.
 */
module InternalKeys {
  import opened Options
  import opened Coding

  // The place of a user key in the order of the user comparator.  A comparator is a total
  // order on byte strings; there are countably many, so it embeds in the order of the reals.
  type UserKey = real
  type Value = seq<Byte>

  // kTypeDeletion, kTypeValue, or a type byte that ParseInternalKey rejects.
  datatype ValueType = Deletion | Put | Corrupt(tag: int)

  datatype Entry = Entry(key: UserKey, seqno: nat, kind: ValueType, value: Value)

  predicate Parses(e: Entry) { !e.kind.Corrupt? }

  // The order of InternalKeyComparator: user key up, sequence down.
  predicate Before(a: Entry, b: Entry) {
    a.key < b.key || (a.key == b.key && a.seqno > b.seqno)
  }

  predicate Sorted(es: seq<Entry>) {
    forall i, j :: 0 <= i < j < |es| ==> Before(es[i], es[j])
  }

  function Elements(es: seq<Entry>): set<Entry> {
    set e | e in es
  }

  // (user key, sequence) identifies an entry.
  predicate UniqueTags(s: set<Entry>) {
    forall a, b :: a in s && b in s && a.key == b.key && a.seqno == b.seqno ==> a == b
  }

  lemma SortedHasUniqueTags(es: seq<Entry>)
    requires Sorted(es)
    ensures UniqueTags(Elements(es))
  {
    forall a, b | a in Elements(es) && b in Elements(es) && a.key == b.key && a.seqno == b.seqno
      ensures a == b
    {
      var i :| 0 <= i < |es| && es[i] == a;
      var j :| 0 <= j < |es| && es[j] == b;
    }
  }

  predicate Candidate(e: Entry, k: UserKey, snapshot: nat) {
    Parses(e) && e.key == k && e.seqno <= snapshot
  }

  ghost predicate IsNewest(s: set<Entry>, k: UserKey, snapshot: nat, e: Entry) {
    e in s && Candidate(e, k, snapshot) &&
    forall x :: x in s && Candidate(x, k, snapshot) ==> x.seqno <= e.seqno
  }

  function ValueOf(e: Entry): Option<Value> {
    if e.kind.Put? then Some(e.value) else None
  }

  // What a reader must see: the newest entry at or below the snapshot decides.
  ghost function View(s: set<Entry>, k: UserKey, snapshot: nat): Option<Value> {
    if e :| IsNewest(s, k, snapshot, e) then ValueOf(e) else None
  }

  lemma ViewIs(s: set<Entry>, k: UserKey, snapshot: nat, e: Entry)
    requires UniqueTags(s) && IsNewest(s, k, snapshot, e)
    ensures View(s, k, snapshot) == ValueOf(e)
  {
  }

  // Some candidate means some newest candidate.
  lemma {:induction false} NewestExists(s: set<Entry>, k: UserKey, snapshot: nat, c: Entry) returns (e: Entry)
    requires c in s && Candidate(c, k, snapshot)
    ensures IsNewest(s, k, snapshot, e)
    decreases snapshot - c.seqno
  {
    if x :| x in s && Candidate(x, k, snapshot) && x.seqno > c.seqno {
      e := NewestExists(s, k, snapshot, x);
    } else {
      e := c;
    }
  }

  // Two sets with the same newest entry for a key, or none at all, give the same view.
  lemma SameNewestSameView(s: set<Entry>, t: set<Entry>, k: UserKey, snapshot: nat)
    requires UniqueTags(s) && UniqueTags(t)
    requires forall e :: IsNewest(s, k, snapshot, e) <==> IsNewest(t, k, snapshot, e)
    ensures View(s, k, snapshot) == View(t, k, snapshot)
  {
    if e :| IsNewest(s, k, snapshot, e) {
      ViewIs(s, k, snapshot, e);
      ViewIs(t, k, snapshot, e);
    }
  }
}
