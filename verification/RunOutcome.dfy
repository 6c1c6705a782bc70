/** What one whole reconcile does, from the observation to the new status: which phase the run
    gets, what becomes of every step and every job, and why a step ever failed or succeeded. */
module RunOutcome {
  import opened StepGraph
  import opened RunModel
  import opened StatusTable
  import opened RunSafety
  import opened RunInvariant
  import opened RunEffects

  // ---------------------------------------------------------------- the phase of the run

  /** n failed on its job, not by refusal. */
  predicate LostStep(ss: seq<StepStatus>, n: string) {
    PhaseOf(ss, n) == Failed && Get(ss, n).error != DeniedByUser
  }

  ghost predicate SomeLost(ss: seq<StepStatus>) {
    exists n :: LostStep(ss, n)
  }

  lemma {:induction false} LostByIndex(ss: seq<StepStatus>)
    ensures Count(DeniedTally, ss) <= Count(FailedTally, ss)
    ensures Count(DeniedTally, ss) < Count(FailedTally, ss) <==>
      exists i :: 0 <= i < |ss| && ss[i].phase == Failed && ss[i].error != DeniedByUser
  {
    if ss != [] {
      LostByIndex(ss[1..]);
      if exists i :: 0 <= i < |ss| && ss[i].phase == Failed && ss[i].error != DeniedByUser {
        var i :| 0 <= i < |ss| && ss[i].phase == Failed && ss[i].error != DeniedByUser;
        assert i > 0 ==> ss[1..][i - 1] == ss[i];
      }
      if Count(DeniedTally, ss[1..]) < Count(FailedTally, ss[1..]) {
        var i :| 0 <= i < |ss[1..]| && ss[1..][i].phase == Failed && ss[1..][i].error != DeniedByUser;
        assert ss[i + 1] == ss[1..][i];
      }
    }
  }

  /** FailedSteps is positive exactly when some step failed on its job. */
  lemma FailedMeansLost(spec: Spec, t: State)
    requires Live(spec, t)
    ensures t.run.failedSteps > 0 <==> SomeLost(t.run.stepStatuses)
  {
    var ss := t.run.stepStatuses;
    LostByIndex(ss);
    assert t.run.failedSteps + Count(DeniedTally, ss) == Count(FailedTally, ss);
    assert Distinct(EntryNames(ss)) by { LiveDistinct(spec, t); }
    hide Live, Count, Distinct;
    if exists i :: 0 <= i < |ss| && ss[i].phase == Failed && ss[i].error != DeniedByUser {
      var i :| 0 <= i < |ss| && ss[i].phase == Failed && ss[i].error != DeniedByUser;
      GetAt(ss, i);
      assert LostStep(ss, ss[i].name);
    }
    if SomeLost(ss) {
      var n :| LostStep(ss, n);
      StartedHas(ss, n);
      var i := GetSome(ss, n);
    }
  }

  ghost predicate AnyDone(spec: Spec, ss: seq<StepStatus>) {
    exists n :: n in Names(spec.steps) && (PhaseOf(ss, n) == Succeeded || PhaseOf(ss, n) == Skipped)
  }

  /** The phase of the run after a reconcile that reaches the sync, exactly. */
  ghost function PhaseAfter(spec: Spec, ss: seq<StepStatus>): RunPhase {
    if SomeLost(ss) && spec.strategy in {FailFast, Stop} then RunFailed
    else if SomeLost(ss) && spec.strategy == Rollback then RunRollingBack
    else if !(AllFinished(spec, ss) && NoneDenied(ss)) then RunRunning
    else if AllDone(spec, ss) then RunSucceeded
    else if spec.strategy == ContinueOnError && AnyDone(spec, ss) then RunCompletedWithErrors
    else RunFailed
  }

  lemma DoneTallied(spec: Spec, ss: seq<StepStatus>)
    requires Ordered(spec, EntryNames(ss))
    ensures HasTally(DoneTally, ss) <==> AnyDone(spec, ss)
  {
    hide Get;
    if HasTally(DoneTally, ss) {
      var n :| Tallied(DoneTally, ss, n);
      StartedHas(ss, n);
      assert n in Elements(EntryNames(ss));
    }
    if AnyDone(spec, ss) {
      var n :| n in Names(spec.steps) && (PhaseOf(ss, n) == Succeeded || PhaseOf(ss, n) == Skipped);
      assert Tallied(DoneTally, ss, n);
    }
  }

  lemma FinishPhase(spec: Spec, t: State)
    requires DistinctNames(spec.steps) && Live(spec, t)
    requires t.run.completedSteps + t.run.failedSteps >= t.run.totalSteps
    requires !(SomeLost(t.run.stepStatuses) && spec.strategy in {FailFast, Stop, Rollback})
    ensures FinishRun(spec, t).run.phase == PhaseAfter(spec, t.run.stepStatuses)
  {
    CompletionExactly(spec, t);
    FinishTellsTruth(spec, t);
    DoneTallied(spec, t.run.stepStatuses);
    if !AllDone(spec, t.run.stepStatuses) { FailedIfNotDone(spec, t.run.stepStatuses); }
    hide Live, FinishRun, AllDone, AllFinished, HasTally, NoneDenied, SomeLost, AnyDone;
  }

  lemma FailedIfNotDone(spec: Spec, ss: seq<StepStatus>)
    requires AllFinished(spec, ss) && !AllDone(spec, ss)
    ensures HasTally(FailedTally, ss)
  {
    var n :| n in Names(spec.steps) && !IsDone(PhaseOf(ss, n));
    assert Tallied(FailedTally, ss, n);
  }

  /** A reconcile that reaches the sync drives the synced state. */
  lemma Synchronised(spec: Spec, s: State, o: Observation)
    requires DistinctNames(spec.steps) && Inv(spec, s) && Drives(s, o)
    ensures var s0, t := Started(spec, s), InSync(spec, s, o);
            && Live(spec, s0) && Live(spec, t) && Reconcile(spec, s, o) == Drive(spec, s0, o)
            && (t.run.failedSteps > 0 <==> SomeLost(t.run.stepStatuses))
            && t.created == s.created && t.rollbacks == s.rollbacks == []
  {
    DrivesLive(spec, s, o);
    SyncKeepsLive(spec, Started(spec, s), o.early);
    FailedMeansLost(spec, InSync(spec, s, o));
    SyncedLogs(spec, Started(spec, s), o.early);
    LiveLogs(spec, Started(spec, s));
    hide Inv, Live, Synced, Reconcile, Drive;
  }

  lemma LiveLogs(spec: Spec, s: State)
    requires Live(spec, s)
    ensures s.rollbacks == []
  {
  }

  lemma LiveEntry(spec: Spec, s: State, n: string)
    requires Live(spec, s)
    ensures EntryLive(Get(s.run.stepStatuses, n)) && Distinct(EntryNames(s.run.stepStatuses))
  {
  }

  /** The run's phase after a reconcile that reaches the sync depends on the synced steps alone. */
  lemma PhaseExactly(spec: Spec, s: State, o: Observation)
    requires DistinctNames(spec.steps) && Inv(spec, s) && Drives(s, o)
    ensures Reconcile(spec, s, o).run.phase == PhaseAfter(spec, InSync(spec, s, o).run.stepStatuses)
  {
    Synchronised(spec, s, o);
    DrivesLive(spec, s, o);
    var s0, t := Started(spec, s), InSync(spec, s, o);
    CompletionExactly(spec, t);
    hide Inv, Live, Synced, Reconcile, Started, FinishRun, StartSteps, AllFinished, NoneDenied, SomeLost, AllDone,
      AnyDone, DistinctNames, Drives;
    if t.run.failedSteps > 0 && spec.strategy in {FailFast, Rollback, Stop} {
    } else if t.run.completedSteps + t.run.failedSteps >= t.run.totalSteps {
      FinishPhase(spec, t);
    } else {
      SyncedPhase(spec, s0, o.early);
      StartPhase(spec, s0, t, o);
    }
  }

  // ---------------------------------------------------------------- steps and jobs

  /** failFast and stop: what is unfinished after the sync is skipped, everything else stays;
      stop deletes all jobs, failFast those of the skipped steps. */
  lemma StopExactly(spec: Spec, s: State, o: Observation, n: string)
    requires DistinctNames(spec.steps) && Inv(spec, s) && Drives(s, o)
    requires SomeLost(InSync(spec, s, o).run.stepStatuses) && spec.strategy in {FailFast, Stop}
    ensures var t, s' := InSync(spec, s, o), Reconcile(spec, s, o);
            var a := Get(t.run.stepStatuses, n);
            && Get(s'.run.stepStatuses, n)
               == (if Has(t.run.stepStatuses, n) && !IsFinished(a.phase) then a.(phase := Skipped) else a)
            && (n in s'.jobs <==> spec.strategy == FailFast && n in t.jobs && IsFinished(a.phase))
            && (n in s'.jobs ==> s'.jobs[n] == t.jobs[n])
            && s'.created == s.created && s'.rollbacks == s.rollbacks
  {
    hide Inv, Live, Synced, Reconcile, Stoppable, Get, Has, Sweep.All, SomeLost, DistinctNames, Drives, Distinct;
    Synchronised(spec, s, o);
    var s0, t := Started(spec, s), InSync(spec, s, o);
    var ss := t.run.stepStatuses;
    SkipExactly(ss, n);
    LiveEntry(spec, t, n);
    if n in t.jobs { FailFastKeepsEvidence(spec, t, n); }
    assert Drive(spec, s0, o).run.stepStatuses == SkipUnfinished.All(ss);
  }

  lemma SkipExactly(ss: seq<StepStatus>, n: string)
    ensures var a := Get(ss, n);
            Get(SkipUnfinished.All(ss), n)
            == if Has(ss, n) && a.phase in {Running, Unset, Pending} then a.(phase := Skipped) else a
  {
    SweepGet(SkipUnfinished, ss, n);
    if !Has(ss, n) { GetNone(ss, n); }
    hide Get, Has, Sweep.All;
  }

  /** rollback: succeeded steps are rolled back, by a job if they ran an agent; what is
      unfinished is skipped, the rest stays; and no step job is left. */
  lemma RollbackExactly(spec: Spec, s: State, o: Observation, n: string)
    requires DistinctNames(spec.steps) && Inv(spec, s) && Drives(s, o)
    requires SomeLost(InSync(spec, s, o).run.stepStatuses) && spec.strategy == Rollback
    ensures var t, s' := InSync(spec, s, o), Reconcile(spec, s, o);
            var a := Get(t.run.stepStatuses, n);
            && Get(s'.run.stepStatuses, n)
               == (if a.phase == Succeeded && AgentStep(spec, n) then a.(phase := RollingBack, jobName := RollbackJob)
                   else if a.phase == Succeeded then a.(phase := RolledBack)
                   else if Has(t.run.stepStatuses, n) && !IsFinished(a.phase) then a.(phase := Skipped)
                   else a)
            && (n in s'.rollbacks <==> a.phase == Succeeded && AgentStep(spec, n))
            && s'.jobs == map[] && s'.created == s.created
  {
    hide Inv, Live, Synced, Reconcile, RollbackOrder, Get, Has, Sweep.All, SomeLost, HasAgent, AgentStep, Distinct,
      DistinctNames, Drives, ConditionUnmet, RetryLeft, MaxRetries;
    Synchronised(spec, s, o);
    var s0, t := Started(spec, s), InSync(spec, s, o);
    var ss := t.run.stepStatuses;
    SettingsFound(spec, n);
    UndoExactly(spec, ss, n);
    LiveEntry(spec, t, n);
    RollbackCovers(spec, ss, n);
    assert Drive(spec, s0, o).run.stepStatuses == StartRollback(spec).All(ss);
    assert Drive(spec, s0, o).rollbacks == [] + RollbackOrder(spec, ss);
  }

  lemma UndoExactly(spec: Spec, ss: seq<StepStatus>, n: string)
    ensures var a := Get(ss, n);
            Get(StartRollback(spec).All(ss), n)
            == if a.phase == Succeeded && HasAgent(spec, n) then a.(phase := RollingBack, jobName := RollbackJob)
               else if a.phase == Succeeded then a.(phase := RolledBack)
               else if Has(ss, n) && a.phase in {Running, Unset, Pending} then a.(phase := Skipped)
               else a
  {
    SweepGet(StartRollback(spec), ss, n);
    if !Has(ss, n) { GetNone(ss, n); }
    hide Get, Has, Sweep.All, HasAgent;
  }

  /** n can be started: it is waiting for its turn, no job of it is listed, and every dependency
      has succeeded or been skipped, or under continueOnError at least failed. */
  ghost predicate Ready(spec: Spec, t: State, n: string) {
    && n in Names(spec.steps) && PhaseOf(t.run.stepStatuses, n) in {Unset, Pending} && n !in t.jobs
    && forall d :: DependsOn(spec.steps, n, d) ==>
         || PhaseOf(t.run.stepStatuses, d) in {Succeeded, Skipped}
         || (spec.strategy == ContinueOnError && PhaseOf(t.run.stepStatuses, d) == Failed)
  }

  lemma ReadyListed(spec: Spec, t: State, n: string)
    requires Ready(spec, t, n)
    ensures n in Executable(spec, spec.steps, t.run.stepStatuses, t.jobs)
  {
    var ss := t.run.stepStatuses;
    ExecutableExactly(spec, spec.steps, ss, t.jobs, n);
    hide Executable, Get;
    var i :| 0 <= i < |spec.steps| && spec.steps[i].name == n;
    forall d | d in spec.steps[i].dependsOn ensures DepReady(spec.strategy, PhaseOf(ss, d)) {
      assert DependsOn(spec.steps, n, d);
    }
  }

  lemma ListedReady(spec: Spec, t: State, n: string)
    requires DistinctNames(spec.steps) && EntryLive(Get(t.run.stepStatuses, n))
    requires n in Executable(spec, spec.steps, t.run.stepStatuses, t.jobs)
    ensures Ready(spec, t, n)
  {
    var ss := t.run.stepStatuses;
    ExecutableExactly(spec, spec.steps, ss, t.jobs, n);
    hide Executable, Get;
    var i :| 0 <= i < |spec.steps| && spec.steps[i].name == n && CanStart(spec, ss, t.jobs, spec.steps[i]);
    forall d | DependsOn(spec.steps, n, d) ensures d in spec.steps[i].dependsOn {
      var j :| 0 <= j < |spec.steps| && spec.steps[j].name == n && d in spec.steps[j].dependsOn;
      assert i == j;
    }
  }

  /** findExecutableSteps lists exactly the steps that can be started. */
  lemma ReadyExactly(spec: Spec, t: State, n: string)
    requires DistinctNames(spec.steps) && Live(spec, t)
    ensures n in Executable(spec, spec.steps, t.run.stepStatuses, t.jobs) <==> Ready(spec, t, n)
  {
    assert EntryLive(Get(t.run.stepStatuses, n));
    hide Live, Get, Executable, EntryLive, Ready, DistinctNames;
    if Ready(spec, t, n) { ReadyListed(spec, t, n); }
    if n in Executable(spec, spec.steps, t.run.stepStatuses, t.jobs) { ListedReady(spec, t, n); }
  }

  /** They are listed in the order of the spec. */
  lemma {:induction false} ListedInOrder(spec: Spec, steps: seq<StepSpec>, ss: seq<StepStatus>, jobs: map<string, Job>)
    returns (places: seq<nat>)
    ensures var names := Executable(spec, steps, ss, jobs);
            && |places| == |names|
            && (forall k :: 0 <= k < |names| ==> places[k] < |steps| && steps[places[k]].name == names[k])
            && forall k, l :: 0 <= k < l < |names| ==> places[k] < places[l]
  {
    if steps == [] { return []; }
    hide CanStart;
    var rest := ListedInOrder(spec, steps[1..], ss, jobs);
    places := seq(|rest|, k requires 0 <= k < |rest| => rest[k] + 1);
    if CanStart(spec, ss, jobs, steps[0]) { places := [0] + places; }
  }

  function Active(jobs: map<string, Job>): set<string> {
    set n | n in jobs && jobs[n].active
  }

  /** The steps a reconcile has set running. */
  ghost function Launched(spec: Spec, t: State, s': State): set<string> {
    set n | n in Names(spec.steps) && Ready(spec, t, n) && PhaseOf(s'.run.stepStatuses, n) == Running
  }

  /** Active jobs and launched steps together have reached the limit, which is one by default. */
  ghost predicate Full(spec: Spec, t: State, s': State) {
    |Active(t.jobs)| + |Launched(spec, t, s')| >= if spec.parallelism.Some? then spec.parallelism.value else 1
  }

  function AsLaunch(s: State): Launch {
    Launch(s.run.stepStatuses, s.run.completedSteps, 0, s.jobs, s.created, true)
  }

  lemma LoopServes(spec: Spec, t: State, o: Observation, changed: bool, n: string)
    requires DistinctNames(spec.steps) && Live(spec, t)
    ensures var l := LaunchOf(t, changed);
            var l' := StartAll(spec, o, l, Executable(spec, spec.steps, t.run.stepStatuses, t.jobs));
            if Ready(spec, t, n) then
              Served(spec, o, l, l', n) || (l'.running >= Parallelism(spec) && Untouched(l, l', n))
            else Untouched(l, l', n)
  {
    var names := Executable(spec, spec.steps, t.run.stepStatuses, t.jobs);
    ExecutableDistinct(spec, spec.steps, t.run.stepStatuses, t.jobs);
    ReadyExactly(spec, t, n);
    hide Live, StartAll, Executable, Ready, Get, DistinctNames, Served, Untouched, Names;
    if n in names {
      ReadyMeans(spec, t, n);
      StartAllServes(spec, o, LaunchOf(t, changed), names, n);
    } else {
      StartAllElsewhere(spec, o, LaunchOf(t, changed), names, n);
    }
  }

  lemma LoopCounts(spec: Spec, t: State, o: Observation, changed: bool)
    requires DistinctNames(spec.steps) && Live(spec, t)
    ensures var names := Executable(spec, spec.steps, t.run.stepStatuses, t.jobs);
            var l' := StartAll(spec, o, LaunchOf(t, changed), names);
            && l'.running == |Active(t.jobs)| + |RunningOf(l'.steps, names)|
            && forall n :: n in names <==> Ready(spec, t, n)
  {
    var names := Executable(spec, spec.steps, t.run.stepStatuses, t.jobs);
    ExecutableDistinct(spec, spec.steps, t.run.stepStatuses, t.jobs);
    forall n ensures n in names <==> Ready(spec, t, n) { ReadyExactly(spec, t, n); }
    assert ActiveJobs(t.jobs) == Active(t.jobs);
    hide Live, StartAll, Executable, Ready, Get, DistinctNames, RunningOf, ActiveJobs, Active;
    forall n | n in names ensures PhaseOf(t.run.stepStatuses, n) != Running { ReadyMeans(spec, t, n); }
    StartAllCounts(spec, o, LaunchOf(t, changed), names);
  }

  lemma SameLaunched(spec: Spec, t: State, s': State, names: seq<string>, ss: seq<StepStatus>)
    requires forall n :: n in names <==> Ready(spec, t, n)
    requires forall n :: Get(s'.run.stepStatuses, n) == Get(ss, n)
    ensures RunningOf(ss, names) == Launched(spec, t, s')
  {
    hide Ready, Get;
    forall n | Ready(spec, t, n) ensures n in Names(spec.steps) { ReadyMeans(spec, t, n); }
    assert forall n :: PhaseOf(s'.run.stepStatuses, n) == PhaseOf(ss, n);
  }

  /** The same launch, seen from the states before and after. */
  lemma SameServed(spec: Spec, o: Observation, was: Launch, now: Launch, t: State, s': State, n: string)
    requires was.steps == t.run.stepStatuses && was.jobs == t.jobs && was.created == t.created
    requires Get(now.steps, n) == Get(s'.run.stepStatuses, n) && now.jobs == s'.jobs && now.created == s'.created
    ensures Served(spec, o, was, now, n) ==> Served(spec, o, AsLaunch(t), AsLaunch(s'), n)
    ensures Untouched(was, now, n) ==> Untouched(AsLaunch(t), AsLaunch(s'), n)
  {
    hide Get, AgentStep, ConditionUnmet;
  }

  /** The start loop: every step that can be started gets what its condition, its agent, its
      approval and the API call for, or stays as it is because the limit is reached; no other
      step or job changes. */
  lemma StartExactly(spec: Spec, s0: State, o: Observation, n: string)
    requires DistinctNames(spec.steps) && Live(spec, s0)
    ensures var t := Synced(spec, s0, o.early);
            var s' := StartSteps(spec, s0, t, o);
            if Ready(spec, t, n) then
              || Served(spec, o, AsLaunch(t), AsLaunch(s'), n)
              || (Full(spec, t, s') && Untouched(AsLaunch(t), AsLaunch(s'), n))
            else Untouched(AsLaunch(t), AsLaunch(s'), n)
  {
    var t := Synced(spec, s0, o.early);
    var s' := StartSteps(spec, s0, t, o);
    var changed := t.run.stepStatuses != s0.run.stepStatuses;
    var names := Executable(spec, spec.steps, t.run.stepStatuses, t.jobs);
    var l := LaunchOf(t, changed);
    var l' := StartAll(spec, o, l, names);
    SyncKeepsLive(spec, s0, o.early);
    LoopServes(spec, t, o, changed, n);
    LoopCounts(spec, t, o, changed);
    StartSaved(spec, s0, o);
    hide Live, Synced, StartAll, Executable, StartSteps, Ready, Get, DistinctNames, Served, Untouched,
      RunningOf, Launched;
    SameLaunched(spec, t, s', names, l'.steps);
    SameServed(spec, o, l, l', t, s', n);
  }

  lemma ReadyMeans(spec: Spec, t: State, n: string)
    requires Ready(spec, t, n)
    ensures n in Names(spec.steps) && PhaseOf(t.run.stepStatuses, n) != Running
  {
  }

  /** What is saved agrees, step by step and job by job, with where the loop ended. */
  lemma StartSaved(spec: Spec, s0: State, o: Observation)
    ensures var t := Synced(spec, s0, o.early);
            var l := StartAll(spec, o, LaunchOf(t, t.run.stepStatuses != s0.run.stepStatuses),
                              Executable(spec, spec.steps, t.run.stepStatuses, t.jobs));
            var s' := StartSteps(spec, s0, t, o);
            s'.jobs == l.jobs && s'.created == l.created && forall n :: Get(s'.run.stepStatuses, n) == Get(l.steps, n)
  {
    var t := Synced(spec, s0, o.early);
    var names := Executable(spec, spec.steps, t.run.stepStatuses, t.jobs);
    var l0 := LaunchOf(t, t.run.stepStatuses != s0.run.stepStatuses);
    hide Synced, StartAll, Executable, Get;
    if !StartAll(spec, o, l0, names).changed {
      StartAllIdle(spec, o, l0, names);
      SyncUntouched(spec, s0, o.early);
    }
  }

  // ---------------------------------------------------------------- the other ways a reconcile can go

  /** A rollback job still has something to wait for. */
  predicate StillBusy(o: Observation, e: StepStatus) {
    e.phase == RollingBack && e.jobName != NoJob && e.name in o.rollbackBusy
  }

  /** While a run rolls back, exactly the steps whose rollback job is gone or over become rolled
      back, nothing else changes, and the run has failed as soon as no job is busy any more. */
  lemma MonitorExactly(spec: Spec, s: State, o: Observation)
    requires s.run.phase == RunRollingBack && !o.template
    ensures var ss, s' := s.run.stepStatuses, Reconcile(spec, s, o);
            && |s'.run.stepStatuses| == |ss|
            && (forall i :: 0 <= i < |ss| ==>
                 s'.run.stepStatuses[i]
                 == if ss[i].phase == RollingBack && !StillBusy(o, ss[i]) then ss[i].(phase := RolledBack) else ss[i])
            && s'.run.phase == (if exists i :: 0 <= i < |ss| && StillBusy(o, ss[i]) then RunRollingBack else RunFailed)
            && s' == s.(run := s.run.(stepStatuses := s'.run.stepStatuses, phase := s'.run.phase))
  {
    var ss, ss' := s.run.stepStatuses, CheckRollback(o.rollbackBusy).All(s.run.stepStatuses);
    forall i | 0 <= i < |ss|
      ensures ss'[i]
        == if ss[i].phase == RollingBack && !StillBusy(o, ss[i]) then ss[i].(phase := RolledBack) else ss[i]
    {
      assert ss'[i] == CheckRollback(o.rollbackBusy).Apply(ss[i]);
    }
    hide Sweep.All, Sweep.Apply, Proceed, CancelRun;
    assert forall i :: 0 <= i < |ss| ==> (ss'[i].phase == RollingBack <==> StillBusy(o, ss[i]));
  }

  /** A cancellation comes before everything but the end of the run: every running or unset
      entry is skipped, the others stay, and no job is left. */
  lemma CancelExactly(spec: Spec, s: State, o: Observation)
    requires !IsTerminal(s.run.phase) && s.run.phase != RunRollingBack && !o.template && o.cancelled
    ensures var ss, s' := s.run.stepStatuses, Reconcile(spec, s, o);
            && |s'.run.stepStatuses| == |ss|
            && (forall i :: 0 <= i < |ss| ==>
                 s'.run.stepStatuses[i]
                 == if ss[i].phase == Running || ss[i].phase == Unset then ss[i].(phase := Skipped) else ss[i])
            && s' == s.(run := s.run.(stepStatuses := s'.run.stepStatuses, phase := RunCancelled), jobs := map[])
  {
    var ss, ss' := s.run.stepStatuses, CancelUnfinished.All(s.run.stepStatuses);
    forall i | 0 <= i < |ss|
      ensures ss'[i] == if ss[i].phase == Running || ss[i].phase == Unset then ss[i].(phase := Skipped) else ss[i]
    {
      assert ss'[i] == CancelUnfinished.Apply(ss[i]);
    }
    hide Sweep.All, Sweep.Apply, Proceed, MonitorRollback;
  }

  /** What a reconcile does that neither drives, cancels nor monitors: a timeout fails the run
      and deletes its jobs, a missing agent fails it, a first pass gives it its id, and in all
      other cases nothing happens. */
  lemma ElseExactly(spec: Spec, s: State, o: Observation)
    requires Inv(spec, s) && !Drives(s, o)
    requires IsTerminal(s.run.phase) || o.template || (s.run.phase != RunRollingBack && !o.cancelled)
    ensures Reconcile(spec, s, o) ==
      if IsTerminal(s.run.phase) || o.template then s
      else if s.run.phase == RunRunning && o.timedOut then s.(run := s.run.(phase := RunFailed), jobs := map[])
      else if s.run.phase == RunNew && o.blocked then s
      else if !s.run.hasRunId then s.(run := s.run.(hasRunId := true))
      else if o.agents == SomeNotFound then
        s.(run := (if s.run.phase == RunNew then s.run.(totalSteps := |spec.steps|, started := true) else s.run)
                  .(phase := RunFailed))
      else s
  {
    assert s.run.phase == RunRunning ==> s.run.started;
    assert s.run.phase == RunNew ==> s.run.completedSteps == 0 && s.run.failedSteps == 0 by {
      if s.run.phase == RunNew { NothingCounted(s.run.stepStatuses); }
    }
    hide Inv, Drive, MonitorRollback, CancelRun;
  }

  lemma NothingCounted(ss: seq<StepStatus>)
    requires ss == []
    ensures Count(DoneTally, ss) == Count(FailedTally, ss) == Count(DeniedTally, ss) == 0
  {
  }

  // ---------------------------------------------------------------- why a step is what it is

  /** The reasons a reconcile may have to change a step's phase to b.phase. */
  ghost predicate Explained(spec: Spec, s: State, o: Observation, n: string, b: StepStatus) {
    var a := Get(s.run.stepStatuses, n);
    && (b.phase == Failed && a.phase != Failed ==>
         || (WornOut(spec, s, n) && b.error == JobError)
         || (AgentStep(spec, n) && !ConditionUnmet(spec, o, n) && Refused(o, n) && b.error == DeniedByUser))
    && (a.phase == Failed ==> b == a)
    && (b.phase == Succeeded && a.phase != Succeeded ==>
         (a.phase == Running && JobDone(s, n)) || (!AgentStep(spec, n) && !ConditionUnmet(spec, o, n)))
    && (b.phase == Running && a.phase != Running ==> Allowed(spec, o, n) && n !in o.createFailed)
  }

  lemma SweepExplained(spec: Spec, s: State, o: Observation, sw: Sweep, ss: seq<StepStatus>, n: string)
    requires Explained(spec, s, o, n, Get(ss, n)) && !sw.SyncJobs? && !sw.ForceSucceeded?
    ensures Explained(spec, s, o, n, Get(sw.All(ss), n))
  {
    SweepGet(sw, ss, n);
    if !Has(ss, n) { GetNone(ss, n); }
    hide Get, Has, Sweep.All, WornOut, AgentStep, ConditionUnmet;
  }

  lemma SyncExplained(spec: Spec, s: State, o: Observation, s0: State, n: string)
    requires DistinctNames(spec.steps) && Live(spec, s0)
    requires s0.run.stepStatuses == s.run.stepStatuses && s0.jobs == s.jobs
    ensures Explained(spec, s, o, n, Get(Synced(spec, s0, o.early).run.stepStatuses, n))
  {
    SyncExactly(spec, s0, o.early, n);
    hide Live, Synced, Get, AgentStep, ConditionUnmet, RetryLeft;
  }

  lemma ServedExplained(spec: Spec, s: State, o: Observation, was: Launch, now: Launch, n: string)
    requires Explained(spec, s, o, n, Get(was.steps, n))
    requires (Served(spec, o, was, now, n) && PhaseOf(was.steps, n) in {Unset, Pending}) || Untouched(was, now, n)
    ensures Explained(spec, s, o, n, Get(now.steps, n))
  {
    hide Get, AgentStep, ConditionUnmet, WornOut;
  }

  /** Every change of a step to Failed, Succeeded or Running has its reason. */
  lemma ReconcileExplained(spec: Spec, s: State, o: Observation, n: string)
    requires DistinctNames(spec.steps) && Inv(spec, s)
    ensures Explained(spec, s, o, n, Get(Reconcile(spec, s, o).run.stepStatuses, n))
  {
    var ss := s.run.stepStatuses;
    assert s.run.phase == RunRunning ==> s.run.started;
    hide Inv, Live, Drive, Get, Explained, Sweep.All, DistinctNames;
    if Drives(s, o) {
      DriveExplained(spec, s, o, n);
    } else {
      NothingExplained(spec, s, o, n);
      SweepExplained(spec, s, o, CheckRollback(o.rollbackBusy), ss, n);
      SweepExplained(spec, s, o, CancelUnfinished, ss, n);
    }
  }

  lemma NothingExplained(spec: Spec, s: State, o: Observation, n: string)
    ensures Explained(spec, s, o, n, Get(s.run.stepStatuses, n))
  {
    hide Get, WornOut, AgentStep, ConditionUnmet;
  }

  lemma DriveExplained(spec: Spec, s: State, o: Observation, n: string)
    requires DistinctNames(spec.steps) && Inv(spec, s) && Drives(s, o)
    ensures Explained(spec, s, o, n, Get(Reconcile(spec, s, o).run.stepStatuses, n))
  {
    hide Inv, Live, Synced, Reconcile, Get, Explained, Sweep.All, DistinctNames, StartSteps, FinishRun, SomeLost;
    Synchronised(spec, s, o);
    DrivesLive(spec, s, o);
    var s0, t := Started(spec, s), InSync(spec, s, o);
    var ss := t.run.stepStatuses;
    SyncExplained(spec, s, o, s0, n);
    if t.run.failedSteps > 0 && spec.strategy in {FailFast, Rollback, Stop} {
      SweepExplained(spec, s, o, SkipUnfinished, ss, n);
      SweepExplained(spec, s, o, StartRollback(spec), ss, n);
    } else if t.run.completedSteps + t.run.failedSteps >= t.run.totalSteps {
      FinishTellsTruth(spec, t);
    } else {
      StartExactly(spec, s0, o, n);
      StartExplained(spec, s, s0, o, n);
    }
  }

  lemma StartExplained(spec: Spec, s: State, s0: State, o: Observation, n: string)
    requires DistinctNames(spec.steps) && Live(spec, s0)
    requires Explained(spec, s, o, n, Get(Synced(spec, s0, o.early).run.stepStatuses, n))
    ensures Explained(spec, s, o, n, Get(StartSteps(spec, s0, Synced(spec, s0, o.early), o).run.stepStatuses, n))
  {
    var t := Synced(spec, s0, o.early);
    StartExactly(spec, s0, o, n);
    if Ready(spec, t, n) { ReadyPhase(spec, t, n); }
    hide Live, Synced, Get, Explained, StartSteps, Served, Untouched, Ready, DistinctNames;
    ServedExplained(spec, s, o, AsLaunch(t), AsLaunch(StartSteps(spec, s0, t, o)), n);
  }

  lemma ReadyPhase(spec: Spec, t: State, n: string)
    requires Ready(spec, t, n)
    ensures PhaseOf(t.run.stepStatuses, n) in {Unset, Pending}
  {
  }

  /** A job is created, or a step set running, only for a step that was ready to start, runs an
      agent, has its condition met and every approval it needs; and no more than one job each. */
  lemma LaunchesOnlyAllowed(spec: Spec, s: State, o: Observation, n: string)
    requires DistinctNames(spec.steps) && Inv(spec, s)
    requires
      || Reconcile(spec, s, o).created[n] != s.created[n]
      || (PhaseOf(Reconcile(spec, s, o).run.stepStatuses, n) == Running && PhaseOf(s.run.stepStatuses, n) != Running)
    ensures Drives(s, o) && Ready(spec, InSync(spec, s, o), n) && Allowed(spec, o, n) && n !in o.createFailed
    ensures Reconcile(spec, s, o).created[n] <= s.created[n] + 1
    ensures PhaseOf(Reconcile(spec, s, o).run.stepStatuses, n) == Running
  {
    if Drives(s, o) {
      DriveLaunches(spec, s, o, n);
    } else {
      NoLaunch(spec, s, o, n);
    }
  }

  lemma NoLaunch(spec: Spec, s: State, o: Observation, n: string)
    requires Inv(spec, s) && !Drives(s, o)
    ensures Reconcile(spec, s, o).created == s.created
    ensures PhaseOf(Reconcile(spec, s, o).run.stepStatuses, n) == Running ==> PhaseOf(s.run.stepStatuses, n) == Running
  {
    var ss := s.run.stepStatuses;
    SweepLaunchesNone(CheckRollback(o.rollbackBusy), ss, n);
    SweepLaunchesNone(CancelUnfinished, ss, n);
    assert s.run.phase == RunRunning ==> s.run.started;
    hide Inv, Live, Drive, Get, Has, Sweep.All, Sweep.Apply;
  }

  lemma SweepLaunchesNone(sw: Sweep, ss: seq<StepStatus>, n: string)
    requires !sw.SyncJobs?
    ensures PhaseOf(sw.All(ss), n) == Running ==> PhaseOf(ss, n) == Running
  {
    SweepGet(sw, ss, n);
    if !Has(ss, n) { GetNone(ss, n); }
    hide Get, Has, Sweep.All;
  }

  lemma DriveLaunches(spec: Spec, s: State, o: Observation, n: string)
    requires DistinctNames(spec.steps) && Inv(spec, s) && Drives(s, o)
    ensures var s' := Reconcile(spec, s, o);
            var launched := PhaseOf(s'.run.stepStatuses, n) == Running && PhaseOf(s.run.stepStatuses, n) != Running;
            s'.created[n] != s.created[n] || launched ==>
              && Ready(spec, InSync(spec, s, o), n) && Allowed(spec, o, n) && n !in o.createFailed
              && s'.created[n] <= s.created[n] + 1 && PhaseOf(s'.run.stepStatuses, n) == Running
  {
    hide Inv, Live, Synced, Reconcile, Get, Sweep.All, DistinctNames, StartSteps, FinishRun, SomeLost, Ready,
      AgentStep, ConditionUnmet, Served, Untouched, Stoppable, RollbackOrder;
    Synchronised(spec, s, o);
    DrivesLive(spec, s, o);
    var s0, t := Started(spec, s), InSync(spec, s, o);
    var ss := t.run.stepStatuses;
    SyncOnlyStops(spec, s0, o.early, n);
    if t.run.failedSteps > 0 && spec.strategy in {FailFast, Rollback, Stop} {
      SweepOnlyStops(SkipUnfinished, ss, n);
      SweepOnlyStops(StartRollback(spec), ss, n);
    } else if t.run.completedSteps + t.run.failedSteps >= t.run.totalSteps {
      FinishTellsTruth(spec, t);
      FinishKeepsJobs(spec, t);
    } else {
      StartExactly(spec, s0, o, n);
      var was, now := AsLaunch(t), AsLaunch(StartSteps(spec, s0, t, o));
      if Ready(spec, t, n) { StartLaunches(spec, o, was, now, n); } else { UntouchedStays(was, now, n); }
    }
  }

  lemma UntouchedStays(was: Launch, now: Launch, n: string)
    requires Untouched(was, now, n)
    ensures now.created[n] == was.created[n] && PhaseOf(now.steps, n) == PhaseOf(was.steps, n)
  {
    hide Get;
  }

  lemma FinishKeepsJobs(spec: Spec, t: State)
    ensures FinishRun(spec, t).created == t.created && FinishRun(spec, t).jobs == t.jobs
  {
  }

  lemma SyncOnlyStops(spec: Spec, s0: State, early: set<string>, n: string)
    requires DistinctNames(spec.steps) && Live(spec, s0)
    ensures PhaseOf(Synced(spec, s0, early).run.stepStatuses, n) == Running ==>
      PhaseOf(s0.run.stepStatuses, n) == Running
  {
    SyncExactly(spec, s0, early, n);
    hide Live, Synced, Get, RetryLeft;
  }

  lemma SweepOnlyStops(sw: Sweep, ss: seq<StepStatus>, n: string)
    requires sw.SkipUnfinished? || sw.StartRollback?
    ensures PhaseOf(sw.All(ss), n) != Running
  {
    SweepGet(sw, ss, n);
    hide Get, Has, Sweep.All;
  }

  lemma StartLaunches(spec: Spec, o: Observation, was: Launch, now: Launch, n: string)
    requires Served(spec, o, was, now, n) || Untouched(was, now, n)
    ensures
      now.created[n] != was.created[n] || (PhaseOf(now.steps, n) == Running && PhaseOf(was.steps, n) != Running) ==>
      && Served(spec, o, was, now, n) && Allowed(spec, o, n) && n !in o.createFailed
      && now.created[n] <= was.created[n] + 1 && PhaseOf(now.steps, n) == Running
  {
    hide Get, AgentStep, ConditionUnmet;
  }

  // ---------------------------------------------------------------- over a whole run

  /** In some earlier state of the run the step had lost its job with its retries used up. */
  ghost predicate LostBefore(spec: Spec, tr: seq<State>, i: nat, n: string) {
    exists j :: 0 <= j < i <= |tr| && WornOut(spec, tr[j], n)
  }

  /** In some earlier state the step was running and its job complete. */
  ghost predicate DoneBefore(tr: seq<State>, i: nat, n: string) {
    exists j :: 0 <= j < i <= |tr| && PhaseOf(tr[j].run.stepStatuses, n) == Running && JobDone(tr[j], n)
  }

  /** What there is to show for a failed or succeeded step. */
  ghost predicate Earned(spec: Spec, tr: seq<State>, i: nat, n: string, e: StepStatus) {
    && (e.phase == Failed ==>
         (e.error == JobError && LostBefore(spec, tr, i, n)) || (e.error == DeniedByUser && AgentStep(spec, n)))
    && (e.phase == Succeeded && AgentStep(spec, n) ==> DoneBefore(tr, i, n))
  }

  lemma EarnedLater(spec: Spec, tr: seq<State>, i: nat, n: string, e: StepStatus)
    requires i < |tr| && Earned(spec, tr, i, n, e)
    ensures Earned(spec, tr, i + 1, n, e)
  {
    hide WornOut, JobDone, AgentStep, Get;
  }

  /** One reconcile earns what it changes. */
  lemma EarnedNow(spec: Spec, tr: seq<State>, i: nat, n: string, o: Observation, b: StepStatus)
    requires i < |tr| && Earned(spec, tr, i, n, Get(tr[i].run.stepStatuses, n)) && Explained(spec, tr[i], o, n, b)
    ensures Earned(spec, tr, i + 1, n, b)
  {
    EarnedLater(spec, tr, i, n, Get(tr[i].run.stepStatuses, n));
    hide WornOut, JobDone, AgentStep, Get, ConditionUnmet;
    if WornOut(spec, tr[i], n) { assert LostBefore(spec, tr, i + 1, n); }
    if PhaseOf(tr[i].run.stepStatuses, n) == Running && JobDone(tr[i], n) { assert DoneBefore(tr, i + 1, n); }
  }

  /** A step has failed only on a job of its own, its retries used up, or as an agent's step
      whose approval was refused; an agent's step has succeeded only by completing its job. */
  lemma {:induction false} OutcomesEarned(spec: Spec, tr: seq<State>, i: nat, n: string)
    requires DistinctNames(spec.steps) && IsRun(spec, tr) && i < |tr|
    ensures Earned(spec, tr, i, n, Get(tr[i].run.stepStatuses, n))
    decreases i
  {
    hide Inv, Reconcile, Get, Earned, Explained, DistinctNames, JobsKnown;
    if i > 0 {
      OutcomesEarned(spec, tr, i - 1, n);
      Safety(spec, tr, i - 1);
      assert StepAt(spec, tr, i - 1);
      hide IsRun;
      NextEarned(spec, tr, i - 1, n);
    } else {
      NothingEarned(spec, tr, n);
    }
  }

  lemma NothingEarned(spec: Spec, tr: seq<State>, n: string)
    requires tr != [] && tr[0].run.stepStatuses == []
    ensures Earned(spec, tr, 0, n, Get(tr[0].run.stepStatuses, n))
  {
  }

  lemma NextEarned(spec: Spec, tr: seq<State>, i: nat, n: string)
    requires DistinctNames(spec.steps) && i + 1 < |tr| && Inv(spec, tr[i]) && Next(spec, tr[i], tr[i + 1])
    requires Earned(spec, tr, i, n, Get(tr[i].run.stepStatuses, n))
    ensures Earned(spec, tr, i + 1, n, Get(tr[i + 1].run.stepStatuses, n))
  {
    hide Inv, Reconcile, Get, Earned, Explained, DistinctNames, JobsKnown;
    var a, b := tr[i], tr[i + 1];
    EarnedLater(spec, tr, i, n, Get(a.run.stepStatuses, n));
    if exists o :: b == Reconcile(spec, a, o) {
      var o :| b == Reconcile(spec, a, o);
      ReconcileExplained(spec, a, o, n);
      EarnedNow(spec, tr, i, n, o, Get(b.run.stepStatuses, n));
    }
  }
}
