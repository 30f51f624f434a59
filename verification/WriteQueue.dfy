/**
 Group commit (DBImpl::Write and BuildBatchGroup): the writer queue, whose front writer logs and
 applies its own batch together with batches queued behind it.  Making room, appending to the log and
 syncing it may fail.
 */
module WriteQueue {
  import opened InternalKeys
  import opened Options
  import opened History
  import opened Engine

  // The operations of a write batch and the size of its representation.
  datatype Batch = Batch(ops: seq<WriteOp>, byteSize: nat)

  // A waiting writer.  The id stands for the address of the Writer on its thread's stack;
  // a NULL batch (None) waits for earlier writes.
  datatype Writer = Writer(id: nat, batch: Option<Batch>, sync: bool)

  function OpsOf(w: Writer): seq<WriteOp> {
    if w.batch.Some? then w.batch.value.ops else []
  }

  function SizeOf(w: Writer): nat {
    if w.batch.Some? then w.batch.value.byteSize else 0
  }

  // The operations of writers lo up to (not including) hi, in queue order.
  function AllOps(ws: seq<Writer>, lo: nat, hi: nat): seq<WriteOp>
    requires lo <= hi <= |ws|
    decreases hi - lo
  {
    if lo == hi then [] else OpsOf(ws[lo]) + AllOps(ws, lo + 1, hi)
  }

  function TotalSize(ws: seq<Writer>, n: nat): nat
    requires n <= |ws|
  {
    if n == 0 then 0 else TotalSize(ws, n - 1) + SizeOf(ws[n - 1])
  }

  lemma {:induction false} AllOpsNext(ws: seq<Writer>, lo: nat, hi: nat)
    requires lo <= hi < |ws|
    ensures AllOps(ws, lo, hi + 1) == AllOps(ws, lo, hi) + OpsOf(ws[hi])
    decreases hi - lo
  {
    if lo < hi {
      AllOpsNext(ws, lo + 1, hi);
      OpsAssociate(OpsOf(ws[lo]), AllOps(ws, lo + 1, hi), OpsOf(ws[hi]));
    }
  }

  lemma OpsAssociate(a: seq<WriteOp>, b: seq<WriteOp>, c: seq<WriteOp>)
    ensures (a + b) + c == a + (b + c)
  {
  }

  lemma {:induction false} AllOpsSuffix(ws: seq<Writer>, k: nat, lo: nat, hi: nat)
    requires lo <= hi && k + hi <= |ws|
    ensures AllOps(ws[k..], lo, hi) == AllOps(ws, k + lo, k + hi)
    decreases hi - lo
  {
    if lo < hi { AllOpsSuffix(ws, k, lo + 1, hi); }
  }

  lemma {:induction false} SameOps(ws: seq<Writer>, more: seq<Writer>, lo: nat, hi: nat)
    requires lo <= hi <= |ws|
    ensures AllOps(ws + more, lo, hi) == AllOps(ws, lo, hi)
    decreases hi - lo
  {
    if lo < hi {
      assert (ws + more)[lo] == ws[lo];
      SameOps(ws, more, lo + 1, hi);
    }
  }

  lemma {:induction false} SameFront(ws: seq<Writer>, more: seq<Writer>, n: nat)
    requires n <= |ws|
    ensures TotalSize(ws + more, n) == TotalSize(ws, n) && Alone(ws + more, n) == Alone(ws, n) && AnySync(ws + more, n) == AnySync(ws, n)
  {
    if n > 0 { SameFront(ws, more, n - 1); }
  }

  // How large a group may grow: less when the leader's batch is small.
  function MaxSize(leader: nat): nat {
    if leader <= 0x20000 then leader + 0x20000 else 0x100000
  }

  // Why a writer at position n may not join the group of the n writers before it.
  predicate Refused(ws: seq<Writer>, n: nat)
    requires 0 < n < |ws|
  {
    (ws[n].sync && !ws[0].sync) ||
    (ws[n].batch.Some? && TotalSize(ws, n) + SizeOf(ws[n]) > MaxSize(SizeOf(ws[0])))
  }

  // No batch but the leader's among the first n writers.
  predicate Alone(ws: seq<Writer>, n: nat)
    requires n <= |ws|
  {
    n <= 1 || (Alone(ws, n - 1) && ws[n - 1].batch.None?)
  }

  predicate AnySync(ws: seq<Writer>, n: nat)
    requires n <= |ws|
  {
    n > 0 && (AnySync(ws, n - 1) || ws[n - 1].sync)
  }

  // The records of a log from lo to n as one list of operations.
  function LoggedOps(log: seq<Record>, lo: nat, n: nat): seq<WriteOp>
    requires lo <= n <= |log|
    decreases n - lo
  {
    if lo == n then [] else log[lo].ops + LoggedOps(log, lo + 1, n)
  }

  // Their sequences run on from next without gap or overlap.
  predicate Consecutive(log: seq<Record>, lo: nat, next: nat)
    requires lo <= |log|
    decreases |log| - lo
  {
    lo == |log| || (log[lo].first == next && Consecutive(log, lo + 1, next + |log[lo].ops|))
  }

  // Their sequences ascend behind floor and do not overlap, and none is above last.
  predicate Ascending(log: seq<Record>, lo: nat, floor: nat, last: nat)
    requires lo <= |log|
    decreases |log| - lo
  {
    lo == |log| ||
    (floor < log[lo].first && log[lo].first + |log[lo].ops| <= last + 1 && Ascending(log, lo + 1, log[lo].first + |log[lo].ops| - 1, last))
  }

  lemma {:induction false} LoggedFront(log: seq<Record>, r: Record, lo: nat, n: nat)
    requires lo <= n <= |log|
    ensures LoggedOps(log + [r], lo, n) == LoggedOps(log, lo, n)
    decreases n - lo
  {
    if lo < n { LoggedFront(log, r, lo + 1, n); }
  }

  lemma {:induction false} LoggedMore(log: seq<Record>, r: Record, lo: nat)
    requires lo <= |log|
    ensures LoggedOps(log + [r], lo, |log| + 1) == LoggedOps(log, lo, |log|) + r.ops
    decreases |log| - lo
  {
    if lo < |log| {
      LoggedMore(log, r, lo + 1);
      OpsAssociate(log[lo].ops, LoggedOps(log, lo + 1, |log|), r.ops);
    }
  }

  lemma {:induction false} LoggedPrefix(log: seq<Record>, lo: nat, k: nat, n: nat)
    requires lo <= k <= n <= |log|
    ensures LoggedOps(log, lo, k) <= LoggedOps(log, lo, n)
    decreases k - lo
  {
    if lo < k { LoggedPrefix(log, lo + 1, k, n); }
  }

  lemma {:induction false} ConsecutiveMore(log: seq<Record>, r: Record, lo: nat, next: nat)
    requires lo <= |log| && Consecutive(log, lo, next) && r.first == next + |LoggedOps(log, lo, |log|)|
    ensures Consecutive(log + [r], lo, next)
    decreases |log| - lo
  {
    if lo < |log| { ConsecutiveMore(log, r, lo + 1, next + |log[lo].ops|); }
  }

  lemma {:induction false} AscendingMore(log: seq<Record>, r: Record, lo: nat, floor: nat, last: nat)
    requires lo <= |log| && Ascending(log, lo, floor, last) && floor <= last && r.first == last + 1
    ensures Ascending(log + [r], lo, floor, last + |r.ops|)
    ensures Ascending(log, lo, floor, last + |r.ops|)
    decreases |log| - lo
  {
    if lo < |log| { AscendingMore(log, r, lo + 1, log[lo].first + |log[lo].ops| - 1, last); }
  }

  function OpsOfAccepted(w: Writer, failed: bool): seq<WriteOp> {
    if failed then [] else OpsOf(w)
  }

  // The operations of the writers from lo to n that were told that all went well, in queue order.
  function AcceptedOps(ws: seq<Writer>, failed: set<nat>, lo: nat, n: nat): seq<WriteOp>
    requires lo <= n <= |ws|
    decreases n - lo
  {
    if lo == n then [] else OpsOfAccepted(ws[lo], lo in failed) + AcceptedOps(ws, failed, lo + 1, n)
  }

  // What the writers from lo to n were promised: once a synced write is acknowledged, it and all that was
  // acknowledged before it are among the first stable operations.
  predicate PromisesKept(ws: seq<Writer>, failed: set<nat>, lo: nat, n: nat, stable: nat)
    requires lo <= n <= |ws|
    decreases n - lo
  {
    lo == n ||
    ((lo !in failed && ws[lo].sync && ws[lo].batch.Some? ==> |AcceptedOps(ws, failed, 0, lo + 1)| <= stable) &&
     PromisesKept(ws, failed, lo + 1, n, stable))
  }

  // The ids from k on of n writers.
  function Ids(k: nat, n: nat): set<nat>
    decreases n
  {
    if n == 0 then {} else {k} + Ids(k + 1, n - 1)
  }

  lemma {:induction false} IdsAre(k: nat, n: nat)
    ensures forall i :: i in Ids(k, n) <==> k <= i < k + n
    decreases n
  {
    if n > 0 { IdsAre(k + 1, n - 1); }
  }

  lemma {:induction false} IdsNext(k: nat, n: nat)
    ensures Ids(k, n + 1) == Ids(k, n) + {k + n}
    decreases n
  {
    if n > 0 { IdsNext(k + 1, n - 1); }
  }

  // Writers and failures that come later make no difference to those before n.
  lemma {:induction false} SameAccepted(ws: seq<Writer>, more: seq<Writer>, failed: set<nat>, late: set<nat>, lo: nat, n: nat)
    requires lo <= n <= |ws| && forall i :: i in late ==> n <= i
    ensures AcceptedOps(ws + more, failed + late, lo, n) == AcceptedOps(ws, failed, lo, n)
    decreases n - lo
  {
    if lo < n { SameAccepted(ws, more, failed, late, lo + 1, n); }
  }

  lemma {:induction false} SamePromises(ws: seq<Writer>, more: seq<Writer>, failed: set<nat>, late: set<nat>, lo: nat, n: nat, stable: nat)
    requires lo <= n <= |ws| && forall i :: i in late ==> n <= i
    ensures PromisesKept(ws + more, failed + late, lo, n, stable) == PromisesKept(ws, failed, lo, n, stable)
    decreases n - lo
  {
    if lo < n {
      SameAccepted(ws, more, failed, late, 0, lo + 1);
      SamePromises(ws, more, failed, late, lo + 1, n, stable);
    }
  }

  lemma {:induction false} AcceptedJoin(ws: seq<Writer>, failed: set<nat>, lo: nat, k: nat, n: nat)
    requires lo <= k <= n <= |ws|
    ensures AcceptedOps(ws, failed, lo, n) == AcceptedOps(ws, failed, lo, k) + AcceptedOps(ws, failed, k, n)
    decreases k - lo
  {
    if lo < k {
      AcceptedJoin(ws, failed, lo + 1, k, n);
      OpsAssociate(OpsOfAccepted(ws[lo], lo in failed), AcceptedOps(ws, failed, lo + 1, k), AcceptedOps(ws, failed, k, n));
    }
  }

  lemma {:induction false} AllAccepted(ws: seq<Writer>, failed: set<nat>, k: nat, n: nat)
    requires k <= n <= |ws| && forall i :: k <= i < n ==> i !in failed
    ensures AcceptedOps(ws, failed, k, n) == AllOps(ws, k, n)
    decreases n - k
  {
    if k < n {
      AllAccepted(ws, failed, k + 1, n);
    }
  }

  lemma {:induction false} NoneAccepted(ws: seq<Writer>, failed: set<nat>, k: nat, n: nat)
    requires k <= n <= |ws| && forall i :: k <= i < n ==> i in failed
    ensures AcceptedOps(ws, failed, k, n) == []
    decreases n - k
  {
    if k < n { NoneAccepted(ws, failed, k + 1, n); }
  }

  // What is stable stays so when all that was acknowledged becomes stable.
  lemma {:induction false} PromisesAll(ws: seq<Writer>, failed: set<nat>, lo: nat, n: nat, stable: nat)
    requires lo <= n <= |ws| && |AcceptedOps(ws, failed, 0, n)| <= stable
    ensures PromisesKept(ws, failed, lo, n, stable)
    decreases n - lo
  {
    if lo < n {
      AcceptedJoin(ws, failed, 0, lo + 1, n);
      PromisesAll(ws, failed, lo + 1, n, stable);
    }
  }

  // A group without a sync write, or one that failed, promises nothing new.
  lemma {:induction false} PromisesGroup(ws: seq<Writer>, failed: set<nat>, lo: nat, k: nat, n: nat, stable: nat)
    requires lo <= k <= n <= |ws| && PromisesKept(ws, failed, lo, k, stable)
    requires forall i :: k <= i < n ==> i in failed || !ws[i].sync || ws[i].batch.None?
    ensures PromisesKept(ws, failed, lo, n, stable)
    decreases n - lo
  {
    if lo < k { PromisesGroup(ws, failed, lo + 1, k, n, stable); }
    else if k < n { PromisesGroup(ws, failed, lo + 1, k + 1, n, stable); }
  }

  lemma {:induction false} NoSync(ws: seq<Writer>, k: nat, n: nat)
    requires k + n <= |ws| && !AnySync(ws[k..], n)
    ensures forall i :: k <= i < k + n ==> !ws[i].sync
  {
    if n > 0 {
      NoSync(ws, k, n - 1);
      assert ws[k..][n - 1] == ws[k + n - 1];
    }
  }

  // Writers are known by their place in the order of submission.
  predicate Numbered(ws: seq<Writer>, lo: nat)
    requires lo <= |ws|
    decreases |ws| - lo
  {
    lo == |ws| || (ws[lo].id == lo && Numbered(ws, lo + 1))
  }

  lemma {:induction false} NumberedAt(ws: seq<Writer>, lo: nat, i: nat)
    requires lo <= i < |ws| && Numbered(ws, lo)
    ensures ws[i].id == i
    decreases i - lo
  {
    if lo < i { NumberedAt(ws, lo + 1, i); }
  }

  lemma {:induction false} NumberedMore(ws: seq<Writer>, w: Writer, lo: nat)
    requires lo <= |ws| && Numbered(ws, lo) && w.id == |ws|
    ensures Numbered(ws + [w], lo)
    decreases |ws| - lo
  {
    if lo < |ws| { NumberedMore(ws, w, lo + 1); }
  }

  // What has been written: the log and the memtable, the sequences given away, and bg_error_.  Groups that
  // were told that all went well are in the first good records.
  datatype Storage = Storage(log: seq<Record>, good: nat, applied: seq<WriteOp>, skipped: nat, synced: nat, last: nat, bgError: bool)

  // Exactly the operations of the writers that were told so are logged and applied, in queue order; only
  // the group whose sync failed may be in the log besides.
  predicate Accounted(ws: seq<Writer>, failed: set<nat>, n: nat, w: Storage)
    requires n <= |ws|
  {
    w.good <= |w.log| && (w.good < |w.log| ==> w.bgError) && AcceptedOps(ws, failed, 0, n) == w.applied == LoggedOps(w.log, 0, w.good)
  }

  // The sequences ascend, without a gap unless a group failed.
  predicate InSequence(w: Storage) {
    w.last == |w.applied| + w.skipped && Ascending(w.log, 0, 0, w.last) && (w.skipped == 0 ==> Consecutive(w.log, 0, 1))
  }

  predicate LogOk(ws: seq<Writer>, failed: set<nat>, n: nat, w: Storage)
    requires n <= |ws|
  {
    Accounted(ws, failed, n, w) && InSequence(w) && w.synced <= |w.log| && PromisesKept(ws, failed, 0, n, |LoggedOps(w.log, 0, w.synced)|) &&
    forall i :: i in failed ==> i < n
  }

  // AddRecord, Sync, InsertInto and SetLastSequence for a group: the sequences are used up whether or not
  // the group can be logged and synced.
  function Committed(w: Storage, record: Record, sync: bool, appended: bool, syncOk: bool): Storage {
    var ok := appended && (sync ==> syncOk);
    var k := |record.ops|;
    if ok then
      Storage(w.log + [record], |w.log| + 1, w.applied + record.ops, w.skipped, if sync then |w.log| + 1 else w.synced, w.last + k, w.bgError)
    else if appended then
      Storage(w.log + [record], |w.log|, w.applied, w.skipped + k, w.synced, w.last + k, true)
    else
      w.(skipped := w.skipped + k, last := w.last + k)
  }

  // Those told of a failure, after the next n writers.
  function FailedNext(failed: set<nat>, ok: bool, k: nat, n: nat): set<nat> {
    if ok then failed else failed + Ids(k, n)
  }

  // A group is written for all of its writers ...
  lemma GroupWritten(ws: seq<Writer>, failed: set<nat>, k: nat, n: nat, w: Storage, record: Record, sync: bool)
    requires k + n <= |ws| && LogOk(ws, failed, k, w) && w.good == |w.log|
    requires record.ops == AllOps(ws, k, k + n) && record.first == w.last + 1 && (AnySync(ws[k..], n) ==> sync)
    ensures LogOk(ws, failed, k + n, Committed(w, record, sync, true, true))
  {
    SequencesGoOn(w, record);
    LoggedMore(w.log, record, 0);
    LoggedFront(w.log, record, 0, w.synced);
    AcceptedJoin(ws, failed, 0, k, k + n);
    AllAccepted(ws, failed, k, k + n);
    if sync {
      PromisesAll(ws, failed, 0, k + n, |AcceptedOps(ws, failed, 0, k + n)|);
    } else {
      NoSync(ws, k, n);
      PromisesGroup(ws, failed, 0, k, k + n, |LoggedOps(w.log, 0, w.synced)|);
    }
  }

  // ... or fails for all of them.
  lemma GroupNotWritten(ws: seq<Writer>, failed: set<nat>, k: nat, n: nat, w: Storage, record: Record, appended: bool)
    requires k + n <= |ws| && LogOk(ws, failed, k, w) && w.good == |w.log| && record.first == w.last + 1
    ensures LogOk(ws, failed + Ids(k, n), k + n, Committed(w, record, true, appended, false))
  {
    SequencesGoOn(w, record);
    LoggedFront(w.log, record, 0, w.good);
    LoggedFront(w.log, record, 0, w.synced);
    GroupFailed(ws, failed, k, n, |LoggedOps(w.log, 0, w.synced)|);
  }

  lemma GroupDone(ws: seq<Writer>, failed: set<nat>, k: nat, n: nat, w: Storage, record: Record, sync: bool, appended: bool, syncOk: bool)
    requires k + n <= |ws| && LogOk(ws, failed, k, w) && w.good == |w.log|
    requires record.ops == AllOps(ws, k, k + n) && record.first == w.last + 1 && (AnySync(ws[k..], n) ==> sync)
    ensures LogOk(ws, FailedNext(failed, appended && (sync ==> syncOk), k, n), k + n, Committed(w, record, sync, appended, syncOk))
  {
    if appended && (sync ==> syncOk) {
      GroupWritten(ws, failed, k, n, w, record, sync);
      assert Committed(w, record, sync, appended, syncOk) == Committed(w, record, sync, true, true);
    } else {
      GroupNotWritten(ws, failed, k, n, w, record, appended);
      assert Committed(w, record, sync, appended, syncOk) == Committed(w, record, true, appended, false);
    }
  }

  lemma GroupFailed(ws: seq<Writer>, failed: set<nat>, k: nat, n: nat, stable: nat)
    requires k + n <= |ws| && PromisesKept(ws, failed, 0, k, stable) && forall i :: i in failed ==> i < k
    ensures var failed' := failed + Ids(k, n);
            AcceptedOps(ws, failed', 0, k + n) == AcceptedOps(ws, failed, 0, k) && PromisesKept(ws, failed', 0, k + n, stable) &&
            forall i :: i in failed' ==> i < k + n
  {
    var failed' := failed + Ids(k, n);
    IdsAre(k, n);
    assert ws + [] == ws;
    SameAccepted(ws, [], failed, Ids(k, n), 0, k);
    SamePromises(ws, [], failed, Ids(k, n), 0, k, stable);
    AcceptedJoin(ws, failed', 0, k, k + n);
    NoneAccepted(ws, failed', k, k + n);
    PromisesGroup(ws, failed', 0, k, k + n, stable);
  }

  lemma SequencesGoOn(w: Storage, record: Record)
    requires InSequence(w) && record.first == w.last + 1 && LoggedOps(w.log, 0, |w.log|) == w.applied
    ensures Ascending(w.log + [record], 0, 0, w.last + |record.ops|) && Ascending(w.log, 0, 0, w.last + |record.ops|)
    ensures w.skipped == 0 ==> Consecutive(w.log + [record], 0, 1)
  {
    AscendingMore(w.log, record, 0, 0, w.last);
    if w.skipped == 0 { ConsecutiveMore(w.log, record, 0, 1); }
  }

  lemma LeaderAlone(ws: seq<Writer>, failed: set<nat>, n: nat, ok: bool, w: Storage)
    requires n < |ws| && (ok ==> ws[n].batch.None?) && LogOk(ws, failed, n, w)
    ensures LogOk(ws, FailedNext(failed, ok, n, 1), n + 1, w)
  {
    if ok {
      AcceptedJoin(ws, failed, 0, n, n + 1);
      assert AcceptedOps(ws, failed, n, n + 1) == [];
      PromisesGroup(ws, failed, 0, n, n + 1, |LoggedOps(w.log, 0, w.synced)|);
    } else {
      GroupFailed(ws, failed, n, 1, |LoggedOps(w.log, 0, w.synced)|);
    }
  }

  lemma OneMoreWriter(ws: seq<Writer>, w: Writer, failed: set<nat>, n: nat, written: Storage)
    requires n <= |ws| && LogOk(ws, failed, n, written)
    ensures LogOk(ws + [w], failed, n, written)
  {
    assert failed + {} == failed;
    SameAccepted(ws, [w], failed, {}, 0, n);
    SamePromises(ws, [w], failed, {}, 0, n, |LoggedOps(written.log, 0, written.synced)|);
  }

  // Every sync write that was acknowledged is on stable storage, with all that was acknowledged before it.
  lemma SyncedIsStable(ws: seq<Writer>, failed: set<nat>, n: nat, w: Storage, i: nat)
    requires i < n <= |ws| && LogOk(ws, failed, n, w) && i !in failed && ws[i].sync && ws[i].batch.Some?
    ensures AcceptedOps(ws, failed, 0, i + 1) <= LoggedOps(w.log, 0, w.synced)
  {
    PromiseAt(ws, failed, 0, n, |LoggedOps(w.log, 0, w.synced)|, i);
    AcceptedJoin(ws, failed, 0, i + 1, n);
    LoggedPrefix(w.log, 0, w.synced, |w.log|);
    LoggedPrefix(w.log, 0, w.good, |w.log|);
  }

  lemma {:induction false} PromiseAt(ws: seq<Writer>, failed: set<nat>, lo: nat, n: nat, stable: nat, i: nat)
    requires lo <= i < n <= |ws| && PromisesKept(ws, failed, lo, n, stable) && i !in failed && ws[i].sync && ws[i].batch.Some?
    ensures |AcceptedOps(ws, failed, 0, i + 1)| <= stable
    decreases i - lo
  {
    if lo < i { PromiseAt(ws, failed, lo + 1, n, stable, i); }
  }

  class Queue {
    var writers: seq<Writer>
    var tmpBatch: seq<WriteOp>     // tmp_batch_
    var lastSequence: nat
    var log: seq<Record>           // records appended so far
    var synced: nat                // records known to be on stable storage
    var applied: seq<WriteOp>      // operations inserted into memtables, in order
    var forcedSwitches: nat        // calls of MakeRoomForWrite(true) that made room
    var bgError: bool              // bg_error_ is set, and stays so
    var group: Option<nat>         // length of the group whose leader has released the mutex
    var useTmp: bool               // the group's operations are in tmp_batch_
    var nextId: nat                // the writers queued so far
    var done: set<nat>             // ids of the writers told that they are done
    var failed: set<nat>           // ids of those told of an error
    ghost var submitted: seq<Writer>   // every writer ever queued
    ghost var finished: nat            // how many of them are done
    ghost var good: nat                // records whose groups were told so: not one whose sync failed
    ghost var skipped: nat             // sequences given to groups that failed

    // The queue is what is left of all writers submitted, the first of which are done.
    ghost predicate QueueOk()
      reads this`writers, this`submitted, this`finished, this`done, this`nextId
    {
      finished <= |submitted| && writers == submitted[finished..] && Numbered(submitted, 0) && nextId == |submitted| &&
      done == Ids(0, finished)
    }

    ghost function Written(): Storage
      reads this`log, this`good, this`applied, this`lastSequence, this`synced, this`bgError, this`skipped
    {
      Storage(log, good, applied, skipped, synced, lastSequence, bgError)
    }

    ghost predicate GroupInv()
      reads this`writers, this`group, this`useTmp, this`tmpBatch, this`log, this`good
    {
      if group.None? then tmpBatch == []
      else 0 < group.value <= |writers| && writers[0].batch.Some? && GroupOk(writers, group.value) && good == |log| &&
           useTmp == !Alone(writers, group.value) && tmpBatch == if useTmp then AllOps(writers, 0, group.value) else []
    }

    ghost predicate Valid() reads this {
      QueueOk() && LogOk(submitted, failed, finished, Written()) && GroupInv()
    }

    // What BuildBatchGroup may put together.
    static ghost predicate GroupOk(ws: seq<Writer>, n: nat)
      requires 0 < n <= |ws|
    {
      (AnySync(ws, n) ==> ws[0].sync) &&
      (!Alone(ws, n) ==> TotalSize(ws, n) <= MaxSize(SizeOf(ws[0])))
    }

    constructor ()
      ensures Valid() && writers == [] && submitted == [] && group.None? && forcedSwitches == 0 && !bgError && skipped == 0
    {
      nextId, bgError, done, failed := 0, false, {}, {};
      writers, tmpBatch, lastSequence, log, synced, applied := [], [], 0, [], 0, [];
      forcedSwitches, group, useTmp, submitted, finished, good, skipped := 0, None, false, [], 0, 0, 0;
    }

    // A writer may join the queue whenever the mutex is free, also while a group is in flight.
    method Enqueue(batch: Option<Batch>, sync: bool)
      requires Valid()
      modifies this`writers, this`submitted, this`nextId
      ensures Valid() && submitted == old(submitted) + [Writer(|old(submitted)|, batch, sync)]
    {
      var w := Writer(nextId, batch, sync);
      EnqueueInOrder(submitted, finished, writers, w);
      OneMoreWriter(submitted, w, failed, finished, Written());
      if group.Some? { GroupGrowsBehind(writers, w, group.value); }
      writers := writers + [w];
      submitted, nextId := submitted + [w], nextId + 1;
    }

    static lemma EnqueueInOrder(submitted: seq<Writer>, finished: nat, queued: seq<Writer>, w: Writer)
      requires finished <= |submitted| && queued == submitted[finished..] && Numbered(submitted, 0) && w.id == |submitted|
      ensures queued + [w] == (submitted + [w])[finished..] && Numbered(submitted + [w], 0)
    {
      NumberedMore(submitted, w, 0);
    }

    // RecordBackgroundError, also by the background thread.
    method RecordBackgroundError()
      requires Valid()
      modifies this`bgError
      ensures Valid() && bgError
    {
      bgError := true;
    }

    static lemma GroupGrowsBehind(ws: seq<Writer>, w: Writer, n: nat)
      requires 0 < n <= |ws|
      ensures GroupOk(ws, n) ==> GroupOk(ws + [w], n)
      ensures Alone(ws + [w], n) == Alone(ws, n) && AllOps(ws + [w], 0, n) == AllOps(ws, 0, n)
    {
      SameFront(ws, [w], n);
      SameOps(ws, [w], 0, n);
    }

    // Returns the operations to write, whether they are in tmp_batch_, and the group's length.
    method BuildBatchGroup() returns (result: seq<WriteOp>, useTmp: bool, n: nat)
      requires writers != [] && writers[0].batch.Some? && tmpBatch == []
      modifies this`tmpBatch
      ensures 0 < n <= |writers| && result == AllOps(writers, 0, n) && GroupOk(writers, n)
      ensures n < |writers| ==> Refused(writers, n)
      ensures useTmp == !Alone(writers, n) && tmpBatch == if useTmp then result else []
    {
      var ws, first := writers, writers[0];
      result, useTmp := first.batch.value.ops, false;
      var size := first.batch.value.byteSize;
      var maxSize := 0x100000;
      if size <= 0x20000 {
        maxSize := size + 0x20000;
      }
      assert !AnySync(ws, 0);
      n := 1;
      while n < |ws|
        invariant 0 < n <= |ws| && size == TotalSize(ws, n) && result == AllOps(ws, 0, n)
        invariant maxSize == MaxSize(SizeOf(first)) && GroupOk(ws, n)
        invariant useTmp == !Alone(ws, n) && tmpBatch == if useTmp then result else []
      {
        var w := ws[n];
        if w.sync && !first.sync {
          // The leader would not sync the log for it.
          break;
        }
        if w.batch.Some? && size + w.batch.value.byteSize > maxSize {
          break;
        }
        JoinGroup(ws, n);
        if w.batch.Some? {
          size := size + w.batch.value.byteSize;
          // The first batch to join moves the group to tmp_batch_, since the leader's is not ours to change.
          tmpBatch, useTmp := (if useTmp then tmpBatch else result) + w.batch.value.ops, true;
          result := tmpBatch;
        }
        n := n + 1;
      }
    }

    static lemma JoinGroup(ws: seq<Writer>, n: nat)
      requires 0 < n < |ws| && GroupOk(ws, n) && !Refused(ws, n)
      ensures GroupOk(ws, n + 1) && Alone(ws, n + 1) == (Alone(ws, n) && ws[n].batch.None?)
      ensures AllOps(ws, 0, n + 1) == AllOps(ws, 0, n) + OpsOf(ws[n]) && TotalSize(ws, n + 1) == TotalSize(ws, n) + SizeOf(ws[n])
    {
      AllOpsNext(ws, 0, n);
    }

    // The front writer's turn, up to the point where it releases the mutex to write the log.
    method BeginGroup()
      requires Valid() && group.None? && writers != [] && writers[0].batch.Some? && !bgError
      modifies this`tmpBatch, this`group, this`useTmp
      ensures Valid() && group.Some?
      ensures group.value < |writers| ==> Refused(writers, group.value)
    {
      var ops, inTmp, n := BuildBatchGroup();
      group, useTmp := Some(n), inTmp;
    }

    // The front writer leaves alone, with its status.
    method FinishLeader(ok: bool)
      requires Valid() && group.None? && writers != [] && (ok ==> writers[0].batch.None?)
      modifies this`writers, this`finished, this`done, this`failed
      ensures Valid() && finished == old(finished) + 1 && failed == FailedNext(old(failed), ok, old(finished), 1)
    {
      NumberedAt(submitted, 0, finished);
      LeaderAlone(submitted, failed, finished, ok, Written());
      IdsNext(0, finished);
      assert Ids(finished, 1) == {finished};
      if !ok { failed := failed + {writers[0].id}; }
      done := done + {writers[0].id};
      writers := writers[1..];
      finished := finished + 1;
    }

    // A NULL batch at the front makes room by force, and finishes by itself.
    method FinishNullLeader()
      requires Valid() && group.None? && writers != [] && writers[0].batch.None?
      modifies this`writers, this`finished, this`forcedSwitches, this`done, this`failed
      ensures Valid() && finished == old(finished) + 1 && failed == old(failed) && forcedSwitches == old(forcedSwitches) + 1
    {
      forcedSwitches := forcedSwitches + 1;
      FinishLeader(true);
    }

    // AddRecord, Sync, InsertInto and SetLastSequence for the group in flight.
    method WriteRecord(record: Record, sync: bool, appended: bool, syncOk: bool) returns (ok: bool)
      modifies this`log, this`synced, this`applied, this`lastSequence, this`bgError, this`good, this`skipped
      ensures ok == (appended && (sync ==> syncOk)) && Written() == Committed(old(Written()), record, sync, appended, syncOk)
    {
      ok := appended;
      if appended {
        log := log + [record];
      }
      if ok && sync {
        ok := syncOk;
      }
      if ok {
        if sync { synced := |log|; }
        applied := applied + record.ops;
        good := |log|;
      } else {
        bgError := bgError || appended;
        good := if appended then |log| - 1 else good;
        skipped := skipped + |record.ops|;
      }
      lastSequence := lastSequence + |record.ops|;
    }

    // What the leader writes: its own batch, or tmp_batch_.
    method Updates() returns (ops: seq<WriteOp>)
      requires QueueOk() && GroupInv() && group.Some?
      ensures finished + group.value <= |submitted|
      ensures ops == AllOps(writers, 0, group.value) == AllOps(submitted, finished, finished + group.value)
      ensures AnySync(submitted[finished..], group.value) ==> writers[0].sync
    {
      AllOpsSuffix(submitted, finished, 0, group.value);
      if useTmp {
        ops := tmpBatch;
      } else {
        AloneOps(writers, group.value);
        ops := writers[0].batch.value.ops;
      }
    }

    // Write the group's record and clear tmp_batch_.
    method LogGroup(appended: bool, syncOk: bool) returns (record: Record, ok: bool)
      requires Valid() && group.Some?
      modifies this`log, this`synced, this`applied, this`lastSequence, this`tmpBatch, this`bgError, this`good, this`skipped
      ensures record == Record(old(lastSequence) + 1, AllOps(writers, 0, group.value)) && tmpBatch == []
      ensures ok == (appended && (writers[0].sync ==> syncOk))
      ensures Written() == Committed(old(Written()), record, writers[0].sync, appended, syncOk)
      ensures finished + group.value <= |submitted| && LogOk(submitted, FailedNext(failed, ok, finished, group.value), finished + group.value, Written())
    {
      var ops := Updates();
      record := Record(lastSequence + 1, ops);
      GroupDone(submitted, failed, finished, group.value, Written(), record, writers[0].sync, appended, syncOk);
      ok := WriteRecord(record, writers[0].sync, appended, syncOk);
      tmpBatch := [];
    }

    // The group in flight leaves the queue, all with the same status.
    method Dequeue(ok: bool)
      requires QueueOk() && tmpBatch == [] && group.Some? && 0 < group.value <= |writers| && finished + group.value <= |submitted|
      requires LogOk(submitted, FailedNext(failed, ok, finished, group.value), finished + group.value, Written())
      modifies this`writers, this`finished, this`done, this`failed, this`group
      ensures Valid() && group.None? && finished == old(finished) + old(group.value)
      ensures failed == FailedNext(old(failed), ok, old(finished), old(group.value))
    {
      DequeueThrough(writers[group.value - 1], ok, group.value);
      group := None;
    }

    // The rest of Write for the leader of a group: one record with exactly the group's operations, in
    // queue order, and one status for all of its writers.
    method FinishGroup(appended: bool, syncOk: bool) returns (record: Record, ok: bool)
      requires Valid() && group.Some?
      modifies this`writers, this`finished, this`done, this`failed, this`group
      modifies this`log, this`synced, this`applied, this`lastSequence, this`tmpBatch, this`bgError, this`good, this`skipped
      ensures Valid() && group.None?
      ensures record == Record(old(lastSequence) + 1, AllOps(old(writers), 0, old(group.value)))
      ensures ok == (appended && (old(writers)[0].sync ==> syncOk)) && finished == old(finished) + old(group.value)
      ensures failed == FailedNext(old(failed), ok, old(finished), old(group.value))
      ensures Written() == Committed(old(Written()), record, old(writers)[0].sync, appended, syncOk)
      ensures log == old(log) + (if appended then [record] else []) && applied == old(applied) + if ok then record.ops else []
      ensures lastSequence == old(lastSequence) + |record.ops| && bgError == (old(bgError) || (appended && !ok))
    {
      record, ok := LogGroup(appended, syncOk);
      Dequeue(ok);
    }

    method LeadGroup(appended: bool, syncOk: bool)
      requires Valid() && group.None? && writers != [] && writers[0].batch.Some? && !bgError
      modifies this`writers, this`finished, this`done, this`failed, this`group, this`useTmp
      modifies this`log, this`synced, this`applied, this`lastSequence, this`tmpBatch, this`bgError, this`good, this`skipped
      ensures Valid() && group.None? && finished > old(finished)
    {
      BeginGroup();
      var record, ok := FinishGroup(appended, syncOk);
    }

    // A turn of the front writer.  Without room it fails alone.  Else the memtable is switched by force
    // exactly if its own batch is NULL, whatever else is in the group it finishes.
    method Turn(room: bool, appended: bool, syncOk: bool)
      requires Valid() && group.None? && writers != [] && (bgError ==> !room)
      modifies this`writers, this`finished, this`done, this`failed, this`group, this`useTmp, this`forcedSwitches
      modifies this`log, this`synced, this`applied, this`lastSequence, this`tmpBatch, this`bgError, this`good, this`skipped
      ensures Valid() && group.None? && finished > old(finished)
      ensures forcedSwitches == old(forcedSwitches) + if room && old(writers)[0].batch.None? then 1 else 0
      ensures !room ==> finished == old(finished) + 1 && failed == old(failed) + {old(finished)} && Written() == old(Written())
    {
      if !room {
        FinishLeader(false);
        assert Ids(old(finished), 1) == {old(finished)};
      } else if writers[0].batch.None? {
        FinishNullLeader();
      } else {
        LeadGroup(appended, syncOk);
      }
    }

    // A NULL batch behind a leader with a batch is taken into its group, and gets no switch.
    static method NullBatchTaken(leader: Batch) returns (q: Queue)
      ensures fresh(q) && q.Valid() && q.finished == |q.submitted| == 2 && q.failed == {} && q.submitted[1].batch.None? && q.forcedSwitches == 0
    {
      q := LeaderAndNull(leader);
      q.BeginGroup();
      assert !Refused(q.writers, 1);
      var record, ok := q.FinishGroup(true, true);
    }

    static method LeaderAndNull(leader: Batch) returns (q: Queue)
      ensures fresh(q) && q.Valid() && q.group.None? && q.finished == q.forcedSwitches == 0 && q.failed == {} && !q.bgError
      ensures q.writers == q.submitted == [Writer(0, Some(leader), false), Writer(1, None, false)]
    {
      q := new Queue();
      q.Enqueue(Some(leader), false);
      q.Enqueue(None, false);
    }

    static lemma {:induction false} AloneOps(ws: seq<Writer>, n: nat)
      requires 0 < n <= |ws| && Alone(ws, n)
      ensures AllOps(ws, 0, n) == OpsOf(ws[0])
    {
      if n > 1 {
        AloneOps(ws, n - 1);
        AllOpsNext(ws, 0, n - 1);
      }
    }

    // The dequeue loop: it stops at the last writer of the group, having finished exactly the group.
    method DequeueThrough(lastWriter: Writer, ok: bool, ghost n: nat)
      requires 0 < n <= |writers| && writers[n - 1] == lastWriter
      requires QueueOk()
      modifies this`writers, this`finished, this`done, this`failed
      ensures QueueOk() && finished == old(finished) + n && failed == FailedNext(old(failed), ok, old(finished), n)
    {
      ghost var k := 0;
      while true
        invariant 0 <= k < n && finished == old(finished) + k && failed == FailedNext(old(failed), ok, old(finished), k) && QueueOk()
        decreases n - k
      {
        var ready := writers[0];
        NumberedAt(submitted, 0, finished);
        NumberedAt(submitted, 0, old(finished) + n - 1);
        IdsNext(0, finished);
        IdsNext(old(finished), k);
        writers := writers[1..];
        if !ok { failed := failed + {ready.id}; }
        done := done + {ready.id};
        finished := finished + 1;
        k := k + 1;
        if ready == lastWriter { break; }
      }
    }
  }
}
