/**
 Nothing gets stuck: a group of writes in flight can always be finished, an immutable memtable flushed,
 and room made for the next write, unless the background thread has failed; and it fails only by itself.
 */
module EngineProgress {
  import opened InternalKeys
  import opened Options
  import opened History
  import opened Levels
  import opened LevelEdits
  import opened Engine
  import opened EngineProof
  import opened EngineLevels
  import opened EngineRuns

  // ---------------------------------------------------------------- writes

  lemma Onward(s: State, step: Step, t: State, rest: seq<Step>, end: System)
    requires Enabled(Up(s), step) && Clean(Up(s), step) && Next(Up(s), step) == Up(t) && Leads(Up(t), rest, end)
    ensures Leads(Up(s), [step] + rest, end)
  {
    One(Up(s), step);
    Then(Up(s), [step], Up(t), rest, end);
  }

  // The leader of a group in flight can log it, apply it and acknowledge it.
  lemma {:induction false} GroupCompletes(s: State) returns (steps: seq<Step>, t: State)
    requires Inv(Up(s)) && s.m.group.Some?
    ensures Leads(Up(s), steps, Up(t)) && Inv(Up(t)) && t.m.group.None? && t.m.history == s.m.history + s.m.group.value.ops
    ensures t.m.imm == s.m.imm && t.bg == s.bg
    decreases if s.m.group.value.logged then 0 else 1, |s.m.group.value.ops| - s.m.group.value.applied
  {
    var g := s.m.group.value;
    if g.logged && g.applied == |g.ops| {
      var step := Write(CommitGroup);
      t := DoCommitGroup(s);
      steps := [step];
      One(Up(s), step);
      StepKeepsInv(Up(s), step);
    } else {
      var step := if g.logged then Write(ApplyOne) else Write(LogGroup(false));
      var next := if g.logged then DoApplyOne(s) else DoLogGroup(s, false);
      StepKeepsInv(Up(s), step);
      var rest;
      rest, t := GroupCompletes(next);
      steps := [step] + rest;
      Onward(s, step, next, rest, Up(t));
    }
  }

  // ---------------------------------------------------------------- flushes

  lemma {:induction false} Extremes(content: set<Entry>) returns (first: Entry, last: Entry)
    requires content != {}
    ensures first in content && last in content && forall e :: e in content ==> AtOrBefore(first, e) && AtOrBefore(e, last)
    decreases |content|
  {
    var e :| e in content;
    if content == {e} {
      first, last := e, e;
    } else {
      var a, b := Extremes(content - {e});
      first, last := if Before(e, a) then e else a, if Before(b, e) then e else b;
      forall x | x in content ensures AtOrBefore(first, x) && AtOrBefore(x, last) {
        if x != e { assert AtOrBefore(a, x) && AtOrBefore(x, b); }
      }
    }
  }

  // The table can be put on level 0.
  lemma FlushFits(s: State) returns (f: FileMeta)
    requires UpInv(s) && LevelInv(s) && s.bg.flush.Some? && s.bg.flush.value.Applying?
    ensures CanFlushInstall(s, 0, f)
  {
    var n := s.bg.flush.value.number;
    var content := s.m.tables[s.m.imm.value];
    if content != {} {
      var first, last := Extremes(content);
      f := FileMeta(n, first, last);
    } else {
      f :| true;
    }
  }

  function Stage(flush: Option<Flush>): nat {
    if flush.None? then 3 else match flush.value case Building(_) => 2 case Built(_) => 1 case Applying(_) => 0
  }

  // The last step of a flush ...
  lemma InstallCompletes(s: State) returns (steps: seq<Step>, t: State)
    requires Inv(Up(s)) && s.m.imm.Some? && !s.bg.error && s.bg.flush.Some? && s.bg.flush.value.Applying?
    ensures Leads(Up(s), steps, Up(t)) && Inv(Up(t)) && t.m.imm.None? && t.bg.flush.None? && !t.bg.error
    ensures t.m.history == s.m.history && t.m.group == s.m.group
  {
    var f := FlushFits(s);
    var step := MemCompaction(FlushInstall(0, f));
    t := DoFlushInstall(s, 0, f);
    steps := [step];
    One(Up(s), step);
    StepKeepsInv(Up(s), step);
  }

  // ... and the one that comes next before it.
  lemma FlushGoesOn(s: State) returns (step: Step, t: State)
    requires Inv(Up(s)) && s.m.imm.Some? && !s.bg.error && !(s.bg.flush.Some? && s.bg.flush.value.Applying?)
    ensures Enabled(Up(s), step) && Clean(Up(s), step) && Next(Up(s), step) == Up(t) && Inv(Up(t))
    ensures t.m == s.m && !t.bg.error && Stage(t.bg.flush) < Stage(s.bg.flush)
  {
    step := MemCompaction(if s.bg.flush.None? then FlushBegin else if s.bg.flush.value.Building? then FlushBuild else FlushUnpend);
    t := if s.bg.flush.None? then DoFlushBegin(s) else if s.bg.flush.value.Building? then DoFlushBuild(s) else DoFlushUnpend(s);
    StepKeepsInv(Up(s), step);
  }

  // The immutable memtable can be flushed.
  lemma {:induction false} FlushCompletes(s: State) returns (steps: seq<Step>, t: State)
    requires Inv(Up(s)) && s.m.imm.Some? && !s.bg.error
    ensures Leads(Up(s), steps, Up(t)) && Inv(Up(t)) && t.m.imm.None? && t.bg.flush.None? && !t.bg.error
    ensures t.m.history == s.m.history && t.m.group == s.m.group
    decreases Stage(s.bg.flush)
  {
    if s.bg.flush.Some? && s.bg.flush.value.Applying? {
      steps, t := InstallCompletes(s);
    } else {
      var step, next := FlushGoesOn(s);
      var rest;
      rest, t := FlushCompletes(next);
      steps := [step] + rest;
      Onward(s, step, next, rest, Up(t));
    }
  }

  // So room for the next write can always be made, with the group in flight acknowledged.
  lemma RoomCanBeMade(s: State) returns (steps: seq<Step>, t: State)
    requires Inv(Up(s)) && !s.bg.error
    ensures Leads(Up(s), steps, Up(t)) && Inv(Up(t)) && Enabled(Up(t), Write(SwitchMemtable)) && t.m.history == Extended(s.m)
  {
    steps, t := [], s;
    if s.m.group.Some? { steps, t := GroupCompletes(s); }
    if t.m.imm.Some? {
      var more, u := FlushCompletes(t);
      Then(Up(s), steps, Up(t), more, Up(u));
      steps, t := steps + more, u;
    }
  }

  // ---------------------------------------------------------------- errors

  predicate Fails(step: Step) { step.Compact? && step.c.CompactFail? }

  // The background thread has failed only if a compaction has, since the database was opened.
  lemma {:induction false} ErrorNeedsFailure(sys: System, steps: seq<Step>)
    requires Legal(sys, steps) && (sys.Up? ==> !sys.st.bg.error) && forall i :: 0 <= i < |steps| ==> !Fails(steps[i])
    ensures Run(sys, steps).Up? ==> !Run(sys, steps).st.bg.error
    decreases |steps|
  {
    if steps != [] {
      assert !Fails(steps[0]);
      StepKeepsErrorOff(sys, steps[0]);
      forall i | 0 <= i < |steps[1..]| ensures !Fails(steps[1..][i]) { assert steps[1..][i] == steps[i + 1]; }
      ErrorNeedsFailure(Next(sys, steps[0]), steps[1..]);
    }
  }

  lemma StepKeepsErrorOff(sys: System, step: Step)
    requires Enabled(sys, step) && (sys.Up? ==> !sys.st.bg.error) && !Fails(step)
    ensures Next(sys, step).Up? ==> !Next(sys, step).st.bg.error
  {
  }
}
