/**
 Scheduling of background work (db_impl.cc).  Each method is what one thread does to the shared
 flags between taking the mutex and releasing it, so Valid() is what holds whenever it is free.
 */
module BackgroundWork {
  import opened InternalKeys
  import opened Options

  // Where the background job stands at a moment when the mutex is free.
  datatype Job = NoJob | Queued | Flushing | Compacting(manual: bool) | FlushingInside(manual: bool)

  class Scheduler {
    var scheduled: bool            // bg_compaction_scheduled_
    var job: Job
    var jobs: nat                  // jobs handed to Env::Schedule and not finished
    var imm: bool                  // imm_ != NULL
    var hasImm: bool               // has_imm_, readable without the mutex
    var manual: Option<nat>        // manual_compaction_, by the thread that waits for it
    var error: bool                // !bg_error_.ok()
    var shuttingDown: bool
    var needsCompaction: bool      // versions_->NeedsCompaction()
    var level0Files: nat
    var waiting: set<nat>          // threads in bg_cv_.Wait()

    ghost predicate WorkPending() reads this {
      imm || manual.Some? || needsCompaction
    }

    // The compaction under way, if it is one, was asked for by TEST_CompactRange.
    ghost predicate ManualRunning() reads this {
      match job
      case Compacting(manual) => manual
      case FlushingInside(manual) => manual
      case _ => false
    }

    // All but the duty to have work scheduled, which a thread may owe while it holds the mutex.
    ghost predicate Consistent() reads this {
      jobs == (if scheduled then 1 else 0) && (job.NoJob? <==> !scheduled) && hasImm == imm &&
      (job.Flushing? || job.FlushingInside? ==> imm) &&
      // A file count that stops writes gives level 0 a score of at least 1.
      (level0Files >= 12 ==> needsCompaction) &&
      (error ==> waiting == {}) &&
      // BackgroundCompaction reads manual_compaction_ again when a manual compaction ends; it is
      // still there unless an error or a shutdown let its owner give up.
      (ManualRunning() && !error && !shuttingDown ==> manual.Some?)
    }

    ghost predicate Valid() reads this {
      Consistent() &&
      (WorkPending() && !error && !shuttingDown ==> scheduled) &&
      // Whoever waits will be signalled: the scheduled job ends with SignalAll.
      (waiting != {} && !shuttingDown ==> scheduled)
    }

    constructor (needsCompaction: bool, level0Files: nat)
      requires level0Files >= 12 ==> needsCompaction
      ensures Valid() && !imm && manual.None? && !error && !shuttingDown && (needsCompaction ==> scheduled)
      ensures !needsCompaction ==> !scheduled
    {
      scheduled, job, jobs, imm, hasImm, manual := false, NoJob, 0, false, false, None;
      error, shuttingDown, waiting := false, false, {};
      this.needsCompaction, this.level0Files := needsCompaction, level0Files;
      new;
      MaybeScheduleCompaction();
    }

    method MaybeScheduleCompaction()
      requires Consistent()
      modifies this`scheduled, this`job, this`jobs
      ensures Consistent() && (WorkPending() && !error && !shuttingDown ==> scheduled)
      ensures scheduled == (old(scheduled) || (WorkPending() && !error && !shuttingDown))
      ensures old(scheduled) ==> job == old(job) && jobs == old(jobs)
      ensures !old(scheduled) && scheduled ==> job == Queued
    {
      if scheduled || shuttingDown || error {
        // One job at a time, and none once the database closes or has failed.
      } else if imm || manual.Some? || needsCompaction {
        scheduled, job, jobs := true, Queued, jobs + 1;
      }
    }

    method RecordBackgroundError()
      requires Consistent()
      modifies this`error, this`waiting
      ensures Consistent() && error && waiting == {}
    {
      if !error {
        error := true;
        waiting := {};     // SignalAll
      }
    }

    // ---------------------------------------------------------------- writers and callers

    // MakeRoomForWrite: switch memtables.
    method SwitchMemtable()
      requires Valid() && !imm && !error
      modifies this`imm, this`hasImm, this`scheduled, this`job, this`jobs
      ensures Valid() && imm && (!shuttingDown ==> scheduled) && (old(scheduled) ==> job == old(job))
    {
      imm, hasImm := true, true;
      MaybeScheduleCompaction();
    }

    // MakeRoomForWrite and TEST_CompactMemTable: wait while imm_ is there, or level 0 is full.
    method WaitForRoom(thread: nat)
      requires Valid() && !error && (imm || level0Files >= 12)
      modifies this`waiting
      ensures Valid() && waiting == old(waiting) + {thread} && (!shuttingDown ==> scheduled && jobs == 1)
    {
      waiting := waiting + {thread};
    }

    // One turn of the loop of TEST_CompactRange.
    method RequestManual(thread: nat)
      requires Valid() && !error && !shuttingDown
      modifies this`manual, this`waiting, this`scheduled, this`job, this`jobs
      ensures Valid() && manual.Some? && scheduled && jobs == 1
      ensures manual == if old(manual).None? then Some(thread) else old(manual)
      ensures waiting == if old(manual).None? then old(waiting) else old(waiting) + {thread}
      ensures job == if old(scheduled) then old(job) else Queued
    {
      if manual.None? {
        manual := Some(thread);
        MaybeScheduleCompaction();
      } else {
        waiting := waiting + {thread};
      }
    }

    // The owner leaves its loop early only after an error or at shutdown.
    method CancelManual(thread: nat)
      requires Valid() && (error || shuttingDown)
      modifies this`manual
      ensures Valid() && manual == if old(manual) == Some(thread) then None else old(manual)
    {
      if manual == Some(thread) {
        manual := None;
      }
    }

    // Get and RecordReadSample: seek statistics may ask for a compaction.
    method UpdateStats(triggered: bool)
      requires Valid()
      modifies this`needsCompaction, this`scheduled, this`job, this`jobs
      ensures Valid() && needsCompaction == (old(needsCompaction) || triggered) && (old(scheduled) ==> job == old(job))
    {
      if triggered {
        needsCompaction := true;
        MaybeScheduleCompaction();
      }
    }

    method SyncError()
      requires Valid()
      modifies this`error, this`waiting
      ensures Valid() && error
    {
      RecordBackgroundError();
    }

    method BeginShutdown()
      requires Valid()
      modifies this`shuttingDown
      ensures Valid() && shuttingDown
    {
      shuttingDown := true;
    }

    // ---------------------------------------------------------------- the background thread

    // The end of BackgroundCall.
    method EndJob()
      requires Consistent() && scheduled
      modifies this`scheduled, this`job, this`jobs, this`waiting
      ensures Valid() && waiting == {} && (scheduled ==> job == Queued)
    {
      scheduled, job, jobs := false, NoJob, jobs - 1;
      MaybeScheduleCompaction();
      waiting := {};       // SignalAll
    }

    // BackgroundCall up to the first release of the mutex; found tells whether PickCompaction or
    // CompactRange returned something to do.
    method BeginJob(found: bool)
      requires Valid() && job == Queued
      modifies this
      ensures Valid()
      ensures shuttingDown == old(shuttingDown) && error == old(error) && imm == old(imm)
      ensures !error && !shuttingDown && imm ==> job == Flushing
      ensures !error && !shuttingDown && !imm && found ==> job == Compacting(old(manual).Some?) && manual == old(manual)
      ensures !error && !shuttingDown && !imm && !found ==> manual.None?
      ensures error || shuttingDown || imm ==> manual == old(manual)
      ensures needsCompaction == old(needsCompaction) && level0Files == old(level0Files)
    {
      if shuttingDown || error {
        EndJob();
      } else if imm {
        job := Flushing;
      } else if found {
        job := Compacting(manual.Some?);
      } else {
        manual := None;
        EndJob();
      }
    }

    // DoCompactionWork between two entries: has_imm_ is tested without the mutex, imm_ with it.
    method PrioritizeFlush()
      requires Valid() && job.Compacting?
      modifies this`job
      ensures Valid() && (imm ==> job == FlushingInside(old(job).manual)) && (!imm ==> job == old(job))
    {
      if hasImm && imm {
        job := FlushingInside(job.manual);
      }
    }

    // CompactMemTable after the table is built.  LogAndApply may change what needs compaction.
    method EndFlush(ok: bool, needs: bool, level0: nat)
      requires Valid() && (job.Flushing? || job.FlushingInside?)
      requires level0 >= 12 ==> needs
      modifies this
      ensures Valid()
      ensures ok ==> imm == false && error == old(error)
      ensures !ok ==> error && imm
      ensures old(job).FlushingInside? ==> job == Compacting(old(job).manual) && waiting == {}
      ensures old(job).Flushing? ==> waiting == {} && (scheduled ==> job == Queued)
      ensures manual == old(manual) && shuttingDown == old(shuttingDown)
      ensures needsCompaction == (if ok then needs else old(needsCompaction)) && level0Files == if ok then level0 else old(level0Files)
    {
      if ok {
        needsCompaction, level0Files := needs, level0;
        imm, hasImm := false, false;
      } else {
        RecordBackgroundError();
      }
      if job.FlushingInside? {
        job := Compacting(job.manual);
        waiting := {};     // SignalAll, for writers that wait in MakeRoomForWrite
      } else {
        job := Queued;
        EndJob();
      }
    }

    // BackgroundCompaction and BackgroundCall after the compaction.  A manual one is entered in
    // manual_compaction_ again, which must not be NULL by then.
    method EndCompaction(ok: bool, needs: bool, level0: nat)
      requires Valid() && job.Compacting? && (job.manual ==> manual.Some?)
      requires level0 >= 12 ==> needs
      modifies this
      ensures Valid() && imm == old(imm) && waiting == {}
      ensures old(job).manual ==> manual.None?
      ensures !old(job).manual ==> manual == old(manual)
      ensures error == (old(error) || !ok) && shuttingDown == old(shuttingDown)
      ensures needsCompaction == needs && level0Files == level0
      ensures scheduled ==> job == Queued
    {
      needsCompaction, level0Files := needs, level0;
      if !ok {
        RecordBackgroundError();
      }
      if job.manual {
        manual := None;
      }
      job := Queued;
      EndJob();
    }

    // What other threads, and the background thread itself, may do while a compaction runs.
    ghost predicate CanHappen(e: Event) reads this {
      match e
      case Switched => !imm && !error
      case Waits(_) => !error && (imm || level0Files >= 12)
      case Requested(_) => !error && !shuttingDown
      case Cancelled(_) => error || shuttingDown
      case Prioritized => job.Compacting?
      case Flushed(ok, needs, level0) => job.FlushingInside? && (level0 >= 12 ==> needs)
      case _ => true
    }

    ghost function Request(): ManualRequest reads this { ManualRequest(manual, error || shuttingDown) }

    method Meanwhile(e: Event)
      requires Valid() && (job.Compacting? || job.FlushingInside?) && CanHappen(e)
      modifies this
      ensures Valid() && (job.Compacting? || job.FlushingInside?) && job.manual == old(job.manual)
      ensures Request() == After(old(Request()), e)
    {
      match e
      case Switched => SwitchMemtable();
      case Waits(thread) => WaitForRoom(thread);
      case Requested(thread) => RequestManual(thread);
      case Cancelled(thread) => CancelManual(thread);
      case Triggered(seeks) => UpdateStats(seeks);
      case SyncFailed => SyncError();
      case ShutDown => BeginShutdown();
      case Prioritized => PrioritizeFlush();
      case Flushed(ok, needs, level0) => EndFlush(ok, needs, level0);
    }

    // It does happen: a write fails to sync while a manual compaction runs, and its owner withdraws.
    static method ManualWithdrawn(owner: nat) returns (s: Scheduler)
      ensures fresh(s) && s.Valid() && s.job == Compacting(true) && s.manual.None?
    {
      s := new Scheduler(false, 0);
      s.RequestManual(owner);
      s.BeginJob(true);
      s.SyncError();
      s.CancelManual(owner);
    }
  }

  // ---------------------------------------------------------------- while a manual compaction runs

  datatype Event =
    | Switched | Waits(thread: nat) | Requested(thread: nat) | Cancelled(thread: nat) | Triggered(seeks: bool)
    | SyncFailed | ShutDown | Prioritized | Flushed(ok: bool, needs: bool, level0: nat)

  // manual_compaction_, and whether its owner may give up.
  datatype ManualRequest = ManualRequest(manual: Option<nat>, stopped: bool)

  predicate Stops(e: Event) { e.SyncFailed? || e.ShutDown? || (e.Flushed? && !e.ok) }

  function After(r: ManualRequest, e: Event): ManualRequest {
    match e
    case Requested(thread) => if r.manual.None? then r.(manual := Some(thread)) else r
    case Cancelled(thread) => if r.manual == Some(thread) then r.(manual := None) else r
    case _ => r.(stopped := r.stopped || Stops(e))
  }

  // Requests are made only before, and withdrawn only after an error or the start of a shutdown.
  predicate InTurn(r: ManualRequest, events: seq<Event>)
    decreases |events|
  {
    events == [] ||
    ((events[0].Requested? ==> !r.stopped) && (events[0].Cancelled? ==> r.stopped) && InTurn(After(r, events[0]), events[1..]))
  }

  function AfterAll(r: ManualRequest, events: seq<Event>): ManualRequest
    decreases |events|
  {
    if events == [] then r else AfterAll(After(r, events[0]), events[1..])
  }

  lemma {:induction false} GoneStays(r: ManualRequest, events: seq<Event>)
    requires r == ManualRequest(None, true) && InTurn(r, events)
    ensures AfterAll(r, events) == r
    decreases |events|
  {
    if events != [] { GoneStays(r, events[1..]); }
  }

  lemma {:induction false} WithdrawnByOwner(r: ManualRequest, owner: nat, events: seq<Event>)
    requires r == ManualRequest(Some(owner), true) && InTurn(r, events)
    ensures AfterAll(r, events).manual == if Cancelled(owner) in events then None else Some(owner)
    decreases |events|
  {
    if events != [] {
      assert events == [events[0]] + events[1..];
      if events[0] == Cancelled(owner) { GoneStays(After(r, events[0]), events[1..]); } else { WithdrawnByOwner(r, owner, events[1..]); }
    }
  }

  // The first event that lets the owner give up.
  function FirstStop(events: seq<Event>): (i: nat)
    ensures i <= |events|
    decreases |events|
  {
    if events == [] || Stops(events[0]) then 0 else 1 + FirstStop(events[1..])
  }

  // A manual compaction whose request is there when it begins finds NULL at its end exactly if its owner
  // withdraws, which takes an error or a shutdown before; without them the request is still there.
  lemma {:induction false} WithdrawnIff(r: ManualRequest, owner: nat, events: seq<Event>)
    requires r == ManualRequest(Some(owner), false) && InTurn(r, events)
    ensures AfterAll(r, events).manual == if Cancelled(owner) in events[FirstStop(events)..] then None else Some(owner)
    ensures FirstStop(events) == |events| ==> AfterAll(r, events).manual == Some(owner)
    decreases |events|
  {
    if events != [] {
      if Stops(events[0]) {
        assert events == [events[0]] + events[1..];
        WithdrawnByOwner(After(r, events[0]), owner, events[1..]);
      } else {
        WithdrawnIff(r, owner, events[1..]);
      }
    }
  }
}
