/** The controller's loops on a workflow object. `Reconcile` refines the function of
    the same name: it fetches the stored status, works on it in place, and writes it
    back only where the controller does. */
module Reconciler {
  import opened StepGraph
  import opened RunModel
  import opened StatusTable
  import opened RunSafety
  import opened RunInvariant
  import opened RunEffects
  import opened Concurrency

  // ---------------------------------------------------------------- table updates by index

  lemma {:induction false} PutAt(ss: seq<StepStatus>, i: nat, e: StepStatus)
    requires i < |ss| && ss[i].name == e.name && forall j :: 0 <= j < i ==> ss[j].name != e.name
    ensures ss[i := e] == Put(ss, e) && ss[i] == Get(ss, e.name)
  {
    if i > 0 {
      PutAt(ss[1..], i - 1, e);
      assert ss[i := e] == [ss[0]] + ss[1..][i - 1 := e];
    } else {
      assert ss[0 := e] == [e] + ss[1..];
    }
  }

  lemma {:induction false} PutNew(ss: seq<StepStatus>, e: StepStatus)
    requires forall j :: 0 <= j < |ss| ==> ss[j].name != e.name
    ensures ss + [e] == Put(ss, e) && !Has(ss, e.name)
  {
    if ss != [] {
      PutNew(ss[1..], e);
      assert ss + [e] == [ss[0]] + (ss[1..] + [e]);
    }
  }

  lemma {:induction false} PutTwice(ss: seq<StepStatus>, a: StepStatus, b: StepStatus)
    requires a.name == b.name
    ensures Put(Put(ss, a), b) == Put(ss, b)
  {
    if ss != [] && ss[0].name != a.name { PutTwice(ss[1..], a, b); }
  }

  lemma {:induction false} CountAt(t: Tally, ss: seq<StepStatus>, i: nat, e: StepStatus)
    requires i < |ss|
    ensures Count(t, ss[i := e]) == Count(t, ss) - One(t, ss[i]) + One(t, e)
  {
    if i == 0 {
      assert ss[0 := e] == [e] + ss[1..];
    } else {
      CountAt(t, ss[1..], i - 1, e);
      assert ss[i := e] == [ss[0]] + ss[1..][i - 1 := e];
    }
  }

  /** The entries a sync has visited are swept, the others untouched. */
  ghost predicate SyncedUpTo(sw: Sweep, ss0: seq<StepStatus>, ss: seq<StepStatus>, visited: set<string>) {
    |ss| == |ss0| && forall i :: 0 <= i < |ss0| ==> ss[i] == if ss0[i].name in visited then sw.Apply(ss0[i]) else ss0[i]
  }

  lemma SyncedEverywhere(sw: Sweep, ss0: seq<StepStatus>, ss: seq<StepStatus>)
    requires sw.SyncJobs? && SyncedUpTo(sw, ss0, ss, sw.jobs.Keys)
    ensures ss == sw.All(ss0)
  {
  }

  lemma SyncedAt(sw: Sweep, ss0: seq<StepStatus>, ss: seq<StepStatus>, visited: set<string>, k: nat)
    requires SyncedUpTo(sw, ss0, ss, visited) && k < |ss0| && ss0[k].name !in visited
    ensures |ss| == |ss0| && ss[k] == ss0[k]
  {
  }

  lemma SyncedOneMore(sw: Sweep, ss0: seq<StepStatus>, ss: seq<StepStatus>, visited: set<string>, k: nat)
    requires SyncedUpTo(sw, ss0, ss, visited) && Distinct(EntryNames(ss0))
    requires k < |ss0| && ss0[k].name !in visited
    ensures SyncedUpTo(sw, ss0, ss[k := sw.Apply(ss0[k])], visited + {ss0[k].name})
  {
    NamesAt(ss0);
  }

  class Workflow {
    const name: string
    const template: string
    const limits: Option<Limits>
    const spec: Spec

    // the object in the API server: its status, its run-id annotation, its jobs
    var stored: Run
    var jobs: map<string, Job>
    var created: multiset<string>
    var rollbacks: seq<string>

    // the copy a reconcile works on
    var phase: RunPhase
    var hasRunId: bool
    var started: bool
    var totalSteps: int
    var completedSteps: int
    var failedSteps: int
    var stepStatuses: seq<StepStatus>

    constructor (name: string, template: string, limits: Option<Limits>, spec: Spec)
      requires DistinctNames(spec.steps)
      ensures this.name == name && AsItem() == Item(template, limits, spec, View())
      ensures Initial(View()) && Valid()
    {
      this.name, this.template, this.limits, this.spec := name, template, limits, spec;
      stored := Run(RunNew, false, false, 0, 0, 0, []);
      jobs, created, rollbacks := map[], multiset{}, [];
      phase, hasRunId, started := RunNew, false, false;
      totalSteps, completedSteps, failedSteps, stepStatuses := 0, 0, 0, [];
    }

    function Working(): Run
      reads this
    {
      Run(phase, hasRunId, started, totalSteps, completedSteps, failedSteps, stepStatuses)
    }

    /** The state as everyone else sees it. */
    function View(): State
      reads this
    {
      State(stored, jobs, created, rollbacks)
    }

    function AsItem(): Item
      reads this
    {
      Item(template, limits, spec, View())
    }

    /** The state as the current reconcile sees it. */
    function Draft(): State
      reads this
    {
      State(Working(), jobs, created, rollbacks)
    }

    ghost predicate Valid()
      reads this
    {
      DistinctNames(spec.steps) && Inv(spec, View())
    }

    method Fetch()
      modifies this
      ensures Working() == stored && View() == old(View())
    {
      phase, hasRunId, started := stored.phase, stored.hasRunId, stored.started;
      totalSteps, completedSteps, failedSteps := stored.totalSteps, stored.completedSteps, stored.failedSteps;
      stepStatuses := stored.stepStatuses;
    }

    method SetPhase(p: RunPhase)
      modifies this
      ensures Working() == old(Working()).(phase := p) && stored == Working()
      ensures jobs == old(jobs) && created == old(created) && rollbacks == old(rollbacks)
    {
      phase := p;
      stored := Working();
    }

    method EnsureStepStatus(name: string) returns (i: nat)
      modifies this`stepStatuses
      ensures stepStatuses == Put(old(stepStatuses), Get(old(stepStatuses), name))
      ensures i < |stepStatuses| && stepStatuses[i] == Get(old(stepStatuses), name)
      ensures forall j :: 0 <= j < i ==> stepStatuses[j].name != name
    {
      i := 0;
      while i < |stepStatuses|
        invariant i <= |stepStatuses| && stepStatuses == old(stepStatuses)
        invariant forall j :: 0 <= j < i ==> stepStatuses[j].name != name
      {
        if stepStatuses[i].name == name {
          PutAt(stepStatuses, i, stepStatuses[i]);
          assert stepStatuses[i := stepStatuses[i]] == stepStatuses;
          return;
        }
        i := i + 1;
      }
      PutNew(stepStatuses, Fresh(name));
      GetNone(stepStatuses, name);
      stepStatuses := stepStatuses + [Fresh(name)];
    }

    method IndexStatuses() returns (statusMap: map<string, nat>)
      requires Distinct(EntryNames(stepStatuses))
      ensures forall n :: n in statusMap <==> Has(stepStatuses, n)
      ensures forall n :: n in statusMap ==> statusMap[n] < |stepStatuses| && stepStatuses[statusMap[n]].name == n
    {
      statusMap := map[];
      NamesAt(stepStatuses);
      for i := 0 to |stepStatuses|
        invariant forall n :: n in statusMap ==> statusMap[n] < i && stepStatuses[statusMap[n]].name == n
        invariant forall j :: 0 <= j < i ==> stepStatuses[j].name in statusMap
      {
        statusMap := statusMap[stepStatuses[i].name := i];
      }
    }

    /** One job of the sync loop, applied to its entry. */
    method SyncEntry(i: nat, job: Job, early: set<string>) returns (changed: bool, retried: bool)
      requires i < |stepStatuses| && stepStatuses[i].name in jobs && jobs[stepStatuses[i].name] == job
      modifies this`stepStatuses, this`completedSteps, this`failedSteps
      ensures stepStatuses == old(stepStatuses)[i := SyncJobs(spec, jobs, early).Apply(old(stepStatuses[i]))]
      ensures changed <==> stepStatuses[i] != old(stepStatuses[i])
      ensures retried <==> stepStatuses[i].retryCount > old(stepStatuses[i].retryCount)
      ensures completedSteps - Count(DoneTally, stepStatuses) == old(completedSteps - Count(DoneTally, stepStatuses))
      ensures failedSteps - Count(FailedTally, stepStatuses) == old(failedSteps - Count(FailedTally, stepStatuses))
      ensures old(stepStatuses[i].phase) == Running && job.complete ==>
        stepStatuses[i] == old(stepStatuses[i]).(phase := Succeeded, hasCompletionTime := true)
        && completedSteps == old(completedSteps) + 1 && failedSteps == old(failedSteps)
      ensures old(stepStatuses[i].phase) != Running || (!job.complete && !job.failed) ==> !changed
    {
      hide Count, MaxRetries;
      changed, retried := false, false;
      var e := stepStatuses[i];
      assert stepStatuses[i := e] == stepStatuses;
      if e.phase == Running {
        if job.complete {
          e := e.(phase := Succeeded, hasCompletionTime := true);
          completedSteps := completedSteps + 1;
          changed := true;
        } else if job.failed {
          if e.retryCount < MaxRetries(spec, e.name) {
            if e.hasCompletionTime && e.name in early { return; }
            e := e.(retryCount := e.retryCount + 1, phase := Unset, hasCompletionTime := false);
            retried := true;
          } else {
            e := e.(phase := Failed, hasCompletionTime := true, error := JobError);
            failedSteps := failedSteps + 1;
          }
          changed := true;
        }
      }
      CountAt(DoneTally, stepStatuses, i, e);
      CountAt(FailedTally, stepStatuses, i, e);
      stepStatuses := stepStatuses[i := e];
    }

    /** Sync from the jobs, in whatever order they are iterated; the outcome does not depend on it. */
    method SyncFromJobs(early: set<string>) returns (changed: bool)
      requires Distinct(EntryNames(stepStatuses)) && JobsKnown(stepStatuses, jobs)
      modifies this`stepStatuses, this`completedSteps, this`failedSteps, this`jobs
      ensures Draft() == Synced(spec, old(Draft()), early)
      ensures changed <==> stepStatuses != old(stepStatuses)
    {
      hide Get, Has, EntryNames, Count, SyncedUpTo, JobsLeft, Retried, Distinct, Sweep.Apply, Sweep.All, Synced;
      ghost var ss0 := stepStatuses;
      var jobs0 := jobs;
      var statusMap := IndexStatuses();
      changed := false;
      var rest := jobs0.Keys;
      SyncStart(spec, early, ss0, jobs0);
      while rest != {}
        invariant rest <= jobs0.Keys
        invariant SyncedUpTo(SyncJobs(spec, jobs0, early), ss0, stepStatuses, jobs0.Keys - rest)
        invariant changed <==> stepStatuses != ss0
        invariant JobsLeft(spec, early, ss0, jobs0, jobs, rest)
        invariant completedSteps - Count(DoneTally, stepStatuses)
          == old(completedSteps - Count(DoneTally, stepStatuses))
        invariant failedSteps - Count(FailedTally, stepStatuses) == old(failedSteps - Count(FailedTally, stepStatuses))
        decreases |rest|
      {
        var n :| n in rest;
        JobHasEntry(ss0, jobs0, n);
        var i := statusMap[n];
        SyncTurn(spec, early, ss0, jobs0, jobs, rest, stepStatuses, i);
        var moved, retried := SyncEntry(i, jobs[n], early);
        changed := changed || moved;
        if retried { jobs := jobs - {n}; }
        rest := rest - {n};
      }
      SyncEnd(spec, early, old(Draft()), Draft());
    }

    /** The loops that rewrite every entry by one rule, from first to last. */
    method SweepEntries(sw: Sweep)
      modifies this`stepStatuses
      ensures stepStatuses == sw.All(old(stepStatuses))
    {
      var i := 0;
      while i < |stepStatuses|
        invariant i <= |stepStatuses| == |old(stepStatuses)|
        invariant forall j :: 0 <= j < i ==> stepStatuses[j] == sw.Apply(old(stepStatuses)[j])
        invariant forall j :: i <= j < |stepStatuses| ==> stepStatuses[j] == old(stepStatuses)[j]
      {
        stepStatuses := stepStatuses[i := sw.Apply(stepStatuses[i])];
        i := i + 1;
      }
    }

    method JobsToStopOnFailure() returns (names: seq<string>)
      ensures Elements(names) == Stoppable(stepStatuses)
    {
      names := [];
      for i := 0 to |stepStatuses|
        invariant forall n :: n in names <==>
          exists j :: 0 <= j < i && stepStatuses[j].phase in {Running, Pending, Unset}
            && stepStatuses[j].jobName != NoJob && stepStatuses[j].name == n
      {
        var ss := stepStatuses[i];
        if (ss.phase == Running || ss.phase == Pending || ss.phase == Unset) && ss.jobName != NoJob {
          names := names + [ss.name];
        }
      }
    }

    method StopJobs(names: seq<string>)
      modifies this`jobs
      ensures jobs == old(jobs) - Elements(names)
    {
      for i := 0 to |names|
        invariant jobs == old(jobs) - Elements(names[..i])
      {
        jobs := jobs - {names[i]};
        assert Elements(names[..i + 1]) == Elements(names[..i]) + {names[i]};
      }
      assert names[..|names|] == names;
    }

    /** Walk the entries from last to first, turning succeeded ones into rollbacks and the
        unfinished ones into skips. */
    method BeginRollback()
      modifies this`stepStatuses, this`rollbacks
      ensures stepStatuses == StartRollback(spec).All(old(stepStatuses))
      ensures rollbacks == old(rollbacks) + RollbackOrder(spec, old(stepStatuses))
    {
      ghost var ss0 := stepStatuses;
      var i := |stepStatuses|;
      assert ss0[i..] == [];
      while i > 0
        invariant 0 <= i <= |stepStatuses| == |ss0|
        invariant forall j :: 0 <= j < i ==> stepStatuses[j] == ss0[j]
        invariant forall j :: i <= j < |ss0| ==> stepStatuses[j] == StartRollback(spec).Apply(ss0[j])
        invariant rollbacks == old(rollbacks) + RollbackOrder(spec, ss0[i..])
      {
        i := i - 1;
        var ss := stepStatuses[i];
        assert ss0[i..][1..] == ss0[i + 1..];
        if ss.phase == Succeeded {
          if HasAgent(spec, ss.name) {
            rollbacks := rollbacks + [ss.name];
            stepStatuses := stepStatuses[i := ss.(phase := RollingBack, jobName := RollbackJob)];
          } else {
            stepStatuses := stepStatuses[i := ss.(phase := RolledBack)];
          }
        } else if ss.phase == Running || ss.phase == Unset || ss.phase == Pending {
          stepStatuses := stepStatuses[i := ss.(phase := Skipped)];
        }
      }
      assert ss0[0..] == ss0;
    }

    method CheckRollbackJobs(busy: set<string>) returns (over: bool)
      modifies this`stepStatuses
      ensures stepStatuses == CheckRollback(busy).All(old(stepStatuses))
      ensures over <==> forall i :: 0 <= i < |stepStatuses| ==> stepStatuses[i].phase != RollingBack
    {
      over := true;
      var i := 0;
      while i < |stepStatuses|
        invariant i <= |stepStatuses| == |old(stepStatuses)|
        invariant forall j :: 0 <= j < i ==> stepStatuses[j] == CheckRollback(busy).Apply(old(stepStatuses)[j])
        invariant forall j :: i <= j < |stepStatuses| ==> stepStatuses[j] == old(stepStatuses)[j]
        invariant over <==> forall j :: 0 <= j < i ==> stepStatuses[j].phase != RollingBack
      {
        var ss := stepStatuses[i];
        if ss.phase == RollingBack {
          if ss.jobName == NoJob || ss.name !in busy {
            stepStatuses := stepStatuses[i := ss.(phase := RolledBack)];
          } else {
            over := false;
          }
        }
        i := i + 1;
      }
    }

    method FindExecutableSteps() returns (executable: seq<string>)
      requires Distinct(EntryNames(stepStatuses))
      ensures executable == Executable(spec, spec.steps, stepStatuses, jobs)
    {
      hide Executable, Get, EntryNames, Distinct;
      var completed, finished, active := PhaseSets();
      executable := [];
      ExecutableNil(spec, stepStatuses, jobs);
      assert spec.steps[0..] == spec.steps;
      for i := 0 to |spec.steps|
        invariant executable + Executable(spec, spec.steps[i..], stepStatuses, jobs)
          == Executable(spec, spec.steps, stepStatuses, jobs)
      {
        var step := spec.steps[i];
        ExecutableCons(spec, spec.steps[i..], stepStatuses, jobs);
        assert spec.steps[i..][1..] == spec.steps[i + 1..];
        var ready := DependenciesReady(step, completed, finished);
        if !(step.name in completed || step.name in finished || step.name in active) && ready {
          executable := executable + [step.name];
        }
      }
      assert spec.steps[|spec.steps|..] == [];
    }

    method DependenciesReady(step: StepSpec, completed: set<string>, finished: set<string>) returns (ready: bool)
      requires forall n :: n in completed <==> IsDone(PhaseOf(stepStatuses, n))
      requires forall n :: n in finished <==> IsFinished(PhaseOf(stepStatuses, n))
      ensures ready <==> forall d :: d in step.dependsOn ==> DepReady(spec.strategy, PhaseOf(stepStatuses, d))
    {
      for k := 0 to |step.dependsOn|
        invariant forall m :: 0 <= m < k ==> DepReady(spec.strategy, PhaseOf(stepStatuses, step.dependsOn[m]))
      {
        var dep := step.dependsOn[k];
        assert dep in step.dependsOn;
        if spec.strategy == ContinueOnError {
          if dep !in finished { return false; }
        } else {
          if dep !in completed { return false; }
        }
      }
      return true;
    }

    method PhaseSets() returns (completed: set<string>, finished: set<string>, active: set<string>)
      requires Distinct(EntryNames(stepStatuses))
      ensures forall n :: n in completed <==> IsDone(PhaseOf(stepStatuses, n))
      ensures forall n :: n in finished <==> IsFinished(PhaseOf(stepStatuses, n))
      ensures forall n :: n in active <==> PhaseOf(stepStatuses, n) == Running || n in jobs
    {
      completed, finished, active := {}, {}, {};
      for i := 0 to |stepStatuses|
        invariant forall n :: n in completed <==>
          exists j :: 0 <= j < i && stepStatuses[j].name == n && IsDone(stepStatuses[j].phase)
        invariant forall n :: n in finished <==>
          exists j :: 0 <= j < i && stepStatuses[j].name == n && IsFinished(stepStatuses[j].phase)
        invariant forall n :: n in active <==>
          exists j :: 0 <= j < i && stepStatuses[j].name == n && stepStatuses[j].phase == Running
      {
        var ss := stepStatuses[i];
        if ss.phase == Succeeded { completed, finished := completed + {ss.name}, finished + {ss.name}; }
        if ss.phase == Failed { finished := finished + {ss.name}; }
        if ss.phase == Skipped { completed, finished := completed + {ss.name}, finished + {ss.name}; }
        if ss.phase == Running { active := active + {ss.name}; }
      }
      active := active + jobs.Keys;
      forall n {
        EntryByIndex(stepStatuses, n);
      }
    }

    /** The start loop. */
    method StartExecutable(o: Observation, executable: seq<string>, changed0: bool) returns (changed: bool)
      modifies this`stepStatuses, this`completedSteps, this`jobs, this`created
      ensures var l := StartAll(spec, o, old(LaunchOf(Draft(), changed0)), executable);
              l == Launch(stepStatuses, completedSteps, l.running, jobs, created, changed)
    {
      hide StartOne, StartAll, Put, Get;
      changed := changed0;
      var running := |ActiveJobs(jobs)|;
      ghost var l0 := LaunchOf(Draft(), changed0);
      for i := 0 to |executable|
        invariant StartAll(spec, o, l0, executable)
               == StartAll(spec, o, Launch(stepStatuses, completedSteps, running, jobs, created, changed),
                 executable[i..])
      {
        ghost var l := Launch(stepStatuses, completedSteps, running, jobs, created, changed);
        StartAllCons(spec, o, l, executable[i..]);
        assert executable[i..][1..] == executable[i + 1..];
        if running >= Parallelism(spec) {
          StartAllFull(spec, o, l, executable[i..]);
          StartAllNil(spec, o, l);
          return;
        }
        running, changed := StartStep(o, executable[i], running, changed);
      }
      StartAllNil(spec, o, Launch(stepStatuses, completedSteps, running, jobs, created, changed));
    }

    method MarkFinished(name: string, p: StepPhase)
      modifies this`stepStatuses
      ensures stepStatuses == Put(old(stepStatuses),
        Get(old(stepStatuses), name).(phase := p, hasCompletionTime := true))
    {
      var i := EnsureStepStatus(name);
      SetEntry(old(stepStatuses), i, stepStatuses[i].(phase := p, hasCompletionTime := true));
    }

    method MarkWaiting(name: string, p: StepPhase, error: StepError)
      modifies this`stepStatuses
      ensures stepStatuses == Put(old(stepStatuses), Get(old(stepStatuses), name).(phase := p, error := error))
    {
      var i := EnsureStepStatus(name);
      SetEntry(old(stepStatuses), i, stepStatuses[i].(phase := p, error := error));
    }

    method MarkRunning(name: string)
      modifies this`stepStatuses
      ensures stepStatuses == Put(old(stepStatuses),
        Get(old(stepStatuses), name).(phase := Running, jobName := StepJob))
    {
      var i := EnsureStepStatus(name);
      SetEntry(old(stepStatuses), i, stepStatuses[i].(phase := Running, jobName := StepJob));
    }

    /** Overwrite the entry EnsureStepStatus found or made. */
    method SetEntry(ghost ss0: seq<StepStatus>, i: nat, e: StepStatus)
      requires stepStatuses == Put(ss0, Get(ss0, e.name)) && i < |stepStatuses| && stepStatuses[i].name == e.name
      requires forall j :: 0 <= j < i ==> stepStatuses[j].name != e.name
      modifies this`stepStatuses
      ensures stepStatuses == Put(ss0, e)
    {
      PutAt(stepStatuses, i, e);
      PutTwice(ss0, Get(ss0, e.name), e);
      stepStatuses := stepStatuses[i := e];
    }

    method LaunchJob(o: Observation, name: string, running0: int, changed0: bool) returns (running: int, changed: bool)
      modifies this`stepStatuses, this`jobs, this`created
      ensures Launch(stepStatuses, completedSteps, running, jobs, created, changed)
           == CreateJob(o, old(Launch(stepStatuses, completedSteps, running0, jobs, created, changed0)), name)
    {
      hide Put, Get;
      running, changed := running0, changed0;
      if name in o.createFailed { return; }
      if name !in o.alreadyExists {
        jobs := jobs[name := Job(false, false, false)];
        created := created + multiset{name};
      }
      MarkRunning(name);
      running := running + 1;
      changed := true;
    }

    method StartStep(o: Observation, name: string, running0: int, changed0: bool) returns (running: int, changed: bool)
      requires running0 < Parallelism(spec)
      modifies this`stepStatuses, this`completedSteps, this`jobs, this`created
      ensures Launch(stepStatuses, completedSteps, running, jobs, created, changed)
           == StartOne(spec, o, old(Launch(stepStatuses, completedSteps, running0, jobs, created, changed0)), name)
    {
      hide Put, Get, CreateJob, FindStep;
      running, changed := running0, changed0;
      var step := FindStep(spec.steps, name);
      if step.None? { return; }
      if step.value.hasCondition && name !in o.conditionMet {
        MarkFinished(name, Skipped);
        completedSteps := completedSteps + 1;
        changed := true;
        return;
      }
      if step.value.agentRef == "" {
        MarkFinished(name, Succeeded);
        completedSteps := completedSteps + 1;
        changed := true;
        return;
      }
      if name in o.approvalRequired {
        var phase := PhaseOf(stepStatuses, name);
        if phase != Running {
          if name in o.denied {
            MarkWaiting(name, Failed, DeniedByUser);
            changed := true;
            return;
          }
          if name !in o.approved {
            MarkWaiting(name, Pending, AwaitingApproval);
            changed := true;
            return;
          }
        }
        var _ := EnsureStepStatus(name);
      }
      running, changed := LaunchJob(o, name, running0, changed0);
    }

    /** Find and start what can start, and save the status if anything changed. */
    method StartRun(ghost s0: State, o: Observation, synced: bool)
      requires Distinct(EntryNames(stepStatuses))
      requires Draft() == Synced(spec, s0, o.early) && (stored == s0.run || phase == RunPending)
      requires synced <==> stepStatuses != s0.run.stepStatuses
      modifies this
      ensures View() == StartSteps(spec, s0, old(Draft()), o)
    {
      hide Synced, Executable, StartAll, EntryNames, Distinct, ActiveJobs;
      ghost var s := Draft();
      var executable := FindExecutableSteps();
      var changed := StartExecutable(o, executable, synced);
      if changed || phase == RunPending {
        SetPhase(RunRunning);
      } else {
        Unchanged(spec, s0, s, o, executable);
        SyncedKeepsRest(spec, s0, o.early);
      }
    }

    /** Stop a failed run: under failFast only the unfinished steps' jobs, otherwise all of them. */
    method StopRun()
      modifies this
      ensures View() == old(Draft()).(
        run := old(Working()).(stepStatuses := SkipUnfinished.All(old(stepStatuses)), phase := RunFailed),
        jobs := if spec.strategy == FailFast then old(jobs) - Stoppable(old(stepStatuses)) else map[])
    {
      if spec.strategy == FailFast {
        var names := JobsToStopOnFailure();
        StopJobs(names);
      } else {
        jobs := map[];
      }
      SweepEntries(SkipUnfinished);
      SetPhase(RunFailed);
    }

    method RollBackRun()
      modifies this
      ensures View() == State(
        old(Working()).(stepStatuses := StartRollback(spec).All(old(stepStatuses)), phase := RunRollingBack),
        map[], old(created), old(rollbacks) + RollbackOrder(spec, old(stepStatuses)))
    {
      jobs := map[];
      BeginRollback();
      SetPhase(RunRollingBack);
    }

    method CompleteRun()
      modifies this
      ensures View() == FinishRun(spec, old(Draft()))
    {
      SweepEntries(ForceSucceeded);
      SetPhase(CompletionPhase(completedSteps, failedSteps, spec.strategy));
    }

    /** From the job sync to the end of a reconcile. */
    method DriveRun(o: Observation)
      requires Structure(spec, stepStatuses, jobs, created)
      requires stored == Working() || phase == RunPending
      modifies this
      ensures View() == Drive(spec, old(Draft()), o)
    {
      hide Structure, StartSteps, FinishRun, RollbackOrder, EntryNames, Distinct, JobsKnown, Sweep.All, Stoppable,
        Count;
      ghost var s0 := Draft();
      DistinctEntries(spec, stepStatuses, jobs, created);
      SyncedDistinct(spec, s0, o.early);
      SyncedKeepsRest(spec, s0, o.early);
      hide Synced;
      var changed := SyncFromJobs(o.early);
      if failedSteps > 0 && (spec.strategy == FailFast || spec.strategy == Stop) {
        StopRun();
      } else if failedSteps > 0 && spec.strategy == Rollback {
        RollBackRun();
      } else if completedSteps + failedSteps >= totalSteps {
        CompleteRun();
      } else {
        StartRun(s0, o, changed);
      }
    }

    method CancelNow()
      modifies this
      ensures View() == CancelRun(old(Draft()))
    {
      jobs := map[];
      SweepEntries(CancelUnfinished);
      SetPhase(RunCancelled);
    }

    method MonitorNow(o: Observation)
      modifies this
      ensures View() == MonitorRollback(old(Draft()), o)
    {
      var over := CheckRollbackJobs(o.rollbackBusy);
      SetPhase(if over then RunFailed else phase);
    }

    method ProceedRun(o: Observation)
      requires Structure(spec, stepStatuses, jobs, created) && stored == Working() && phase != RunPending
      modifies this
      ensures View() == Proceed(spec, old(View()), o)
    {
      hide Drive, Structure;
      if phase == RunNew {
        phase, totalSteps, completedSteps, failedSteps, started := RunPending, |spec.steps|, 0, 0, true;
      }
      if !hasRunId {
        // the update stores the annotation only; the status changes above are lost
        stored := stored.(hasRunId := true);
        return;
      }
      if o.agents == SomeNotFound {
        SetPhase(RunFailed);
        return;
      }
      if o.agents == LookupFailed || o.listFailed { return; }
      DriveRun(o);
    }

    /** One reconcile of the stored object computes exactly the transition function, and so
        keeps the invariant. */
    method Reconcile(o: Observation)
      requires Valid()
      modifies this
      ensures View() == RunModel.Reconcile(spec, old(View()), o)
      ensures Valid()
    {
      ReconcileKeeps(spec, View(), o);
      InvStructure(spec, View());
      hide Inv, Proceed, MonitorRollback, CancelRun, Structure, DistinctNames;
      Fetch();
      if IsTerminal(phase) || o.template { return; }
      if phase == RunRollingBack {
        MonitorNow(o);
        return;
      }
      if o.cancelled {
        CancelNow();
        return;
      }
      if started && phase == RunRunning && o.timedOut {
        jobs := map[];
        SetPhase(RunFailed);
        return;
      }
      if phase == RunNew && o.blocked { return; }
      ProceedRun(o);
    }

    /** One reconcile among the workflow objects of the namespace: the concurrency gate where
        the controller has it, then the reconcile it lets through. */
    method ReconcileAmong(all: seq<Workflow>, o: Observation)
      requires this in all && UniqueNames(all) && AllValid(all)
      modifies all
      ensures WorldOf(all) == Act(old(WorldOf(all)), name, o)
      ensures AllValid(all)
    {
      ghost var w := WorldOf(all);
      hide Act, WorldOf, Enforced, Inv, RunModel.Reconcile, Peers, Holds, ReachesPolicy, UniqueNames, DistinctNames;
      var held := PassGate(all, o);
      ghost var w1 := WorldOf(all);
      ReconcileOne(all, o.(blocked := held));
      ActHere(w, w1, name, o, held);
    }

    method ReconcileOne(all: seq<Workflow>, o: Observation)
      requires this in all && UniqueNames(all) && AllValid(all)
      modifies this
      ensures View() == RunModel.Reconcile(spec, old(View()), o)
      ensures WorldOf(all) == old(WorldOf(all))[name := AsItem()]
      ensures AllValid(all)
    {
      ghost var w := WorldOf(all);
      hide WorldOf, Inv, RunModel.Reconcile, UniqueNames, DistinctNames;
      assert this.Valid();
      Reconcile(o);
      OneChanged(all, this, w);
    }

    /** Ask the gate if the policy is due; a run it concerns is itself left alone. */
    method PassGate(all: seq<Workflow>, o: Observation) returns (held: bool)
      requires this in all && UniqueNames(all) && AllValid(all)
      modifies all
      ensures held <==> ReachesPolicy(old(AsItem()), o) && Holds(limits.value, |Peers(old(WorldOf(all)), name)|)
      ensures WorldOf(all) == if ReachesPolicy(old(AsItem()), o) then Enforced(old(WorldOf(all)), name)
        else old(WorldOf(all))
      ensures AllValid(all) && AsItem() == old(AsItem())
    {
      ghost var w := WorldOf(all);
      assert w[name] == AsItem();
      hide WorldOf, Enforced, Inv, Peers, Holds, AllSound, UniqueNames, Workflow.Valid;
      WorldSound(all);
      EnforcedSound(w, name);
      held := false;
      if stored.phase == RunNew && !o.template && !o.cancelled && limits.Some? {
        held := EnforceConcurrency(all);
        assert WorldOf(all)[name] == AsItem();
      }
    }

    /** The concurrency gate of a new run, over all workflow objects of the namespace: tells
        whether the run has to wait, and under the replace policy cancels the runs in its way. */
    method EnforceConcurrency(all: seq<Workflow>) returns (requeue: bool)
      requires limits.Some? && this in all && UniqueNames(all) && AllValid(all)
      modifies all
      ensures requeue == Holds(limits.value, |Peers(old(WorldOf(all)), name)|)
      ensures old(stored.phase) == RunNew ==> (requeue <==> NoRoom(old(WorldOf(all)), template, limits.value))
      ensures WorldOf(all) == Enforced(old(WorldOf(all)), name)
      ensures AllValid(all)
    {
      ghost var w := WorldOf(all);
      if stored.phase == RunNew { HoldsExactly(w, name, template, limits.value); }
      WorldSound(all);
      EnforcedSound(w, name);
      requeue := Gate(all);
      SoundWorldIsValid(all);
    }

    method Gate(all: seq<Workflow>) returns (requeue: bool)
      requires limits.Some? && this in all && UniqueNames(all)
      modifies all
      ensures requeue == Holds(limits.value, |Peers(old(WorldOf(all)), name)|)
      ensures WorldOf(all) == Enforced(old(WorldOf(all)), name)
    {
      hide WorldOf, Peers;
      ghost var w := WorldOf(all);
      var activeRuns: seq<Workflow> := [];
      var activeCount := 0;
      for i := 0 to |all|
        invariant activeCount == |activeRuns|
        invariant forall x :: x in activeRuns <==> x in all[..i] && IsPeer(w, name, x.name)
        invariant forall j, k :: 0 <= j < k < |activeRuns| ==> activeRuns[j].name != activeRuns[k].name
      {
        var other := all[i];
        assert w[other.name] == other.AsItem();
        assert forall j :: 0 <= j < i ==> all[j].name != other.name;
        if other.name != name && IsActivePhase(other.stored.phase) && template != "" && other.template == template {
          activeRuns := activeRuns + [other];
          activeCount := activeCount + 1;
        }
      }
      assert all[..|all|] == all;
      PeerCount(all, w, name, activeRuns);
      requeue := false;
      match limits.value.policy {
        case Forbid => requeue := activeCount > 0;
        case Replace => CancelAll(all, activeRuns);
        case Allow => requeue := activeCount >= MaxParallel(limits.value);
        case OtherPolicy =>
      }
    }

    method CancelOne()
      modifies this
      ensures AsItem() == old(AsItem()).(state := CancelledByPolicy(old(View())))
    {
      stored := stored.(phase := RunCancelled);
      jobs := map[];
    }

    method CancelAll(all: seq<Workflow>, activeRuns: seq<Workflow>)
      requires limits.Some? && limits.value.policy == Replace && this in all && UniqueNames(all)
      requires forall x :: x in activeRuns <==> x in all && IsPeer(WorldOf(all), name, x.name)
      requires forall j, k :: 0 <= j < k < |activeRuns| ==> activeRuns[j].name != activeRuns[k].name
      modifies all
      ensures WorldOf(all) == Enforced(old(WorldOf(all)), name)
    {
      ghost var w := WorldOf(all);
      hide WorldOf, Enforced, IsPeer;
      for i := 0 to |activeRuns|
        invariant forall x :: x in activeRuns ==> x in all
        invariant forall x :: x in all ==> x.AsItem() == AfterCancel(w, x, activeRuns[..i])
      {
        var active := activeRuns[i];
        assert active !in activeRuns[..i] by {
          assert forall j :: 0 <= j < i ==> activeRuns[j].name != active.name;
        }
        assert activeRuns[..i + 1] == activeRuns[..i] + [active];
        assert active in activeRuns && active in all;
        active.CancelOne();
      }
      assert activeRuns[..|activeRuns|] == activeRuns;
      CancelledWorld(all, w, name, activeRuns);
    }
  }

  ghost predicate AllValid(all: seq<Workflow>)
    reads all
  {
    forall x :: x in all ==> x.Valid()
  }

  lemma WorldSound(all: seq<Workflow>)
    requires UniqueNames(all) && AllValid(all)
    ensures AllSound(WorldOf(all))
  {
    hide Inv;
    forall n | n in WorldOf(all) ensures SoundRun(WorldOf(all)[n]) {
      var x :| x in all && x.name == n;
      assert x.Valid();
    }
  }

  lemma SoundWorldIsValid(all: seq<Workflow>)
    requires UniqueNames(all) && AllSound(WorldOf(all)) && forall x :: x in all ==> DistinctNames(x.spec.steps)
    ensures AllValid(all)
  {
    hide Inv;
    forall x | x in all ensures x.Valid() {
      assert SoundRun(WorldOf(all)[x.name]);
    }
  }

  /** When only one object has changed, so has only its place in the namespace. */
  lemma OneChanged(all: seq<Workflow>, x: Workflow, w: World)
    requires UniqueNames(all) && x in all && w.Keys == WorldOf(all).Keys
    requires forall y :: y in all && y != x ==> y.AsItem() == w[y.name]
    ensures WorldOf(all) == w[x.name := x.AsItem()]
  {
    var w', it := WorldOf(all), x.AsItem();
    assert it == w'[x.name];
    hide WorldOf, UniqueNames, Workflow.AsItem;
    forall n | n in w' && n != x.name ensures w'[n] == w[n] {
      var y :| y in all && y.name == n;
    }
    OnePlace(w, w', x.name);
  }

  lemma OnePlace(w: World, w': World, n: string)
    requires w.Keys == w'.Keys && n in w && forall m :: m in w' && m != n ==> w'[m] == w[m]
    ensures w' == w[n := w'[n]]
  {
    assert w[n := w'[n]].Keys == w.Keys;
  }

  /** The gate's outcome and the reconcile behind it make one act of the world. */
  lemma ActHere(w: World, w1: World, name: string, o: Observation, held: bool)
    requires name in w && w1 == if ReachesPolicy(w[name], o) then Enforced(w, name) else w
    requires held <==> ReachesPolicy(w[name], o) && Holds(w[name].limits.value, |Peers(w, name)|)
    ensures w1[name := w[name].(state := RunModel.Reconcile(w[name].spec, w[name].state, o.(blocked := held)))]
      == Act(w, name, o)
  {
    hide Enforced, Peers, Holds, RunModel.Reconcile;
  }

  ghost predicate UniqueNames(all: seq<Workflow>) {
    forall i, j :: 0 <= i < j < |all| ==> all[i].name != all[j].name
  }

  /** The workflow objects of a namespace by name. */
  ghost function WorldOf(all: seq<Workflow>): (w: World)
    requires UniqueNames(all)
    reads all
    ensures forall x :: x in all ==> x.name in w && w[x.name] == x.AsItem()
    ensures forall n :: n in w ==> exists x :: x in all && x.name == n
  {
    map x | x in all :: x.name := x.AsItem()
  }

  ghost function AfterCancel(w: World, x: Workflow, cancelled: seq<Workflow>): Item
    requires x.name in w
  {
    if x in cancelled then w[x.name].(state := CancelledByPolicy(w[x.name].state)) else w[x.name]
  }

  lemma EnforcedAt(w: World, name: string, n: string)
    requires name in w && n in w && w[name].limits.Some? && w[name].limits.value.policy == Replace
    ensures Enforced(w, name).Keys == w.Keys
    ensures Enforced(w, name)[n] == if IsPeer(w, name, n) then w[n].(state := CancelledByPolicy(w[n].state)) else w[n]
  {
    hide IsPeer;
  }

  lemma CancelledWorld(all: seq<Workflow>, w: World, name: string, activeRuns: seq<Workflow>)
    requires UniqueNames(all) && name in w && w[name].limits.Some? && w[name].limits.value.policy == Replace
    requires (forall x :: x in all ==> x.name in w) && (forall n :: n in w ==> exists x :: x in all && x.name == n)
    requires forall x :: x in activeRuns <==> x in all && IsPeer(w, name, x.name)
    requires forall x :: x in all ==> x.AsItem() == AfterCancel(w, x, activeRuns)
    ensures WorldOf(all) == Enforced(w, name)
  {
    hide IsPeer, WorldOf, Enforced, UniqueNames;
    var w', v := WorldOf(all), Enforced(w, name);
    EnforcedAt(w, name, name);
    forall n | n in w' ensures n in v {
      var x :| x in all && x.name == n;
    }
    forall n | n in v ensures n in w' && w'[n] == v[n] {
      EnforcedAt(w, name, n);
      var x :| x in all && x.name == n;
    }
  }

  lemma PeerCount(all: seq<Workflow>, w: World, name: string, active: seq<Workflow>)
    requires name in w && (forall x :: x in all ==> x.name in w)
      && (forall n :: n in w ==> exists x :: x in all && x.name == n)
    requires forall x :: x in active <==> x in all && IsPeer(w, name, x.name)
    requires forall j, k :: 0 <= j < k < |active| ==> active[j].name != active[k].name
    ensures |Peers(w, name)| == |active|
  {
    var names := seq(|active|, i requires 0 <= i < |active| => active[i].name);
    DistinctCard(names);
    forall n ensures n in Elements(names) <==> n in Peers(w, name) {
      if n in Peers(w, name) {
        var x :| x in all && x.name == n;
        var i :| 0 <= i < |active| && active[i] == x;
        assert names[i] == n;
      }
      if n in Elements(names) {
        var i :| 0 <= i < |names| && names[i] == n;
        assert active[i] in active;
      }
    }
    assert Elements(names) == Peers(w, name);
  }

  /** The jobs left while the sync runs: those not visited yet, and those visited and not retried. */
  ghost predicate JobsLeft(spec: Spec, early: set<string>, ss0: seq<StepStatus>, jobs0: map<string, Job>,
      jobs: map<string, Job>, rest: set<string>) {
    jobs == map n | n in jobs0 && (n in rest || !Retried(spec, ss0, jobs0, early, n)) :: jobs0[n]
  }

  lemma SyncStart(spec: Spec, early: set<string>, ss0: seq<StepStatus>, jobs0: map<string, Job>)
    ensures SyncedUpTo(SyncJobs(spec, jobs0, early), ss0, ss0, jobs0.Keys - jobs0.Keys)
    ensures JobsLeft(spec, early, ss0, jobs0, jobs0, jobs0.Keys)
  {
  }

  lemma JobsTurn(spec: Spec, early: set<string>, ss0: seq<StepStatus>, jobs0: map<string, Job>, jobs: map<string, Job>,
                 rest: set<string>, n: string)
    requires JobsLeft(spec, early, ss0, jobs0, jobs, rest) && n in rest && rest <= jobs0.Keys
    ensures n in jobs && jobs[n] == jobs0[n]
    ensures JobsLeft(spec, early, ss0, jobs0,
      if Retried(spec, ss0, jobs0, early, n) then jobs - {n} else jobs, rest - {n})
  {
    hide Retried;
  }

  /** Writing one entry of a table that may already differ from the original. */
  lemma ChangedTurn(ss0: seq<StepStatus>, ss: seq<StepStatus>, i: nat, e: StepStatus)
    requires |ss| == |ss0| && i < |ss| && ss[i] == ss0[i]
    ensures ss[i := e] != ss0 <==> ss != ss0 || e != ss0[i]
  {
    if ss != ss0 {
      var k :| 0 <= k < |ss| && ss[k] != ss0[k];
      assert ss[i := e][k] == ss[k];
    } else if e != ss0[i] {
      assert ss[i := e][i] != ss0[i];
    } else {
      assert ss[i := e] == ss;
    }
  }

  /** The table's part of one turn of the sync. */
  lemma TableTurn(sw: Sweep, ss0: seq<StepStatus>, ss: seq<StepStatus>, rest: set<string>, i: nat)
    requires sw.SyncJobs? && i < |ss0| && Distinct(EntryNames(ss0)) && ss0[i].name in rest && rest <= sw.jobs.Keys
    requires SyncedUpTo(sw, ss0, ss, sw.jobs.Keys - rest)
    ensures var n, e' := ss0[i].name, sw.Apply(ss0[i]);
            && |ss| == |ss0| && ss[i] == ss0[i]
            && SyncedUpTo(sw, ss0, ss[i := e'], sw.jobs.Keys - (rest - {n}))
  {
    var done := sw.jobs.Keys - rest;
    hide SyncedUpTo, EntryNames, Distinct, Sweep.Apply;
    SyncedAt(sw, ss0, ss, done, i);
    SyncedOneMore(sw, ss0, ss, done, i);
    OneFewer(sw.jobs.Keys, rest, ss0[i].name);
  }

  lemma OneFewer(all: set<string>, rest: set<string>, n: string)
    requires n in rest && rest <= all
    ensures all - (rest - {n}) == all - rest + {n}
  {
  }

  lemma SyncTurn(spec: Spec, early: set<string>, ss0: seq<StepStatus>, jobs0: map<string, Job>, jobs: map<string, Job>,
                 rest: set<string>, ss: seq<StepStatus>, i: nat)
    requires i < |ss0| && Distinct(EntryNames(ss0)) && ss0[i].name in rest && rest <= jobs0.Keys
    requires SyncedUpTo(SyncJobs(spec, jobs0, early), ss0, ss, jobs0.Keys - rest)
    requires JobsLeft(spec, early, ss0, jobs0, jobs, rest)
    ensures var n, e' := ss0[i].name, SyncJobs(spec, jobs, early).Apply(ss0[i]);
            && |ss| == |ss0| && ss[i] == ss0[i] && n in jobs
            && SyncedUpTo(SyncJobs(spec, jobs0, early), ss0, ss[i := e'], jobs0.Keys - (rest - {n}))
            && JobsLeft(spec, early, ss0, jobs0,
                 if e'.retryCount > ss0[i].retryCount then jobs - {n} else jobs, rest - {n})
            && (ss[i := e'] != ss0 <==> ss != ss0 || e' != ss0[i])
  {
    hide JobsLeft, SyncedUpTo, Get, EntryNames, Distinct, Sweep.Apply;
    JobsTurn(spec, early, ss0, jobs0, jobs, rest, ss0[i].name);
    GetAt(ss0, i);
    SameSync(spec, jobs0, jobs, early, ss0[i]);
    TableTurn(SyncJobs(spec, jobs0, early), ss0, ss, rest, i);
    ChangedTurn(ss0, ss, i, SyncJobs(spec, jobs, early).Apply(ss0[i]));
  }

  lemma SyncEnd(spec: Spec, early: set<string>, s0: State, s: State)
    requires SyncedUpTo(SyncJobs(spec, s0.jobs, early), s0.run.stepStatuses, s.run.stepStatuses, s0.jobs.Keys - {})
    requires JobsLeft(spec, early, s0.run.stepStatuses, s0.jobs, s.jobs, {})
    requires s == s0.(jobs := s.jobs, run := s0.run.(stepStatuses := s.run.stepStatuses,
      completedSteps := s.run.completedSteps, failedSteps := s.run.failedSteps))
    requires s.run.completedSteps - Count(DoneTally, s.run.stepStatuses)
      == s0.run.completedSteps - Count(DoneTally, s0.run.stepStatuses)
    requires s.run.failedSteps - Count(FailedTally, s.run.stepStatuses)
      == s0.run.failedSteps - Count(FailedTally, s0.run.stepStatuses)
    ensures s == Synced(spec, s0, early)
  {
    hide Retried, Count;
    assert s0.jobs.Keys - {} == s0.jobs.Keys;
    SyncedEverywhere(SyncJobs(spec, s0.jobs, early), s0.run.stepStatuses, s.run.stepStatuses);
  }

  lemma JobHasEntry(ss: seq<StepStatus>, jobs: map<string, Job>, n: string)
    requires JobsKnown(ss, jobs) && n in jobs
    ensures Has(ss, n)
  {
    if !Has(ss, n) { GetNone(ss, n); }
  }

  lemma SameSync(spec: Spec, a: map<string, Job>, b: map<string, Job>, early: set<string>, e: StepStatus)
    requires e.name in a && e.name in b && a[e.name] == b[e.name]
    ensures SyncJobs(spec, a, early).Apply(e) == SyncJobs(spec, b, early).Apply(e)
  {
  }

  lemma EntryByIndex(ss: seq<StepStatus>, n: string)
    requires Distinct(EntryNames(ss))
    ensures forall j :: 0 <= j < |ss| && ss[j].name == n ==> Get(ss, n) == ss[j]
    ensures PhaseOf(ss, n) != Unset ==> exists j :: 0 <= j < |ss| && ss[j].name == n && ss[j] == Get(ss, n)
  {
    forall j | 0 <= j < |ss| && ss[j].name == n ensures Get(ss, n) == ss[j] { GetAt(ss, j); }
    if Has(ss, n) { var i := GetSome(ss, n); } else { GetNone(ss, n); }
  }

  lemma ExecutableNil(spec: Spec, ss: seq<StepStatus>, jobs: map<string, Job>)
    ensures Executable(spec, [], ss, jobs) == []
  {
  }

  lemma ExecutableCons(spec: Spec, steps: seq<StepSpec>, ss: seq<StepStatus>, jobs: map<string, Job>)
    requires steps != []
    ensures Executable(spec, steps, ss, jobs)
         == (if CanStart(spec, ss, jobs, steps[0]) then [steps[0].name] else [])
           + Executable(spec, steps[1..], ss, jobs)
  {
  }

  lemma StartAllCons(spec: Spec, o: Observation, l: Launch, names: seq<string>)
    requires names != []
    ensures StartAll(spec, o, l, names) == StartAll(spec, o, StartOne(spec, o, l, names[0]), names[1..])
  {
    hide StartOne;
  }

  lemma StartAllNil(spec: Spec, o: Observation, l: Launch)
    ensures StartAll(spec, o, l, []) == l
  {
  }

  lemma DistinctEntries(spec: Spec, ss: seq<StepStatus>, jobs: map<string, Job>, created: multiset<string>)
    requires Structure(spec, ss, jobs, created)
    ensures Distinct(EntryNames(ss)) && JobsKnown(ss, jobs)
  {
  }

  lemma SyncedDistinct(spec: Spec, s: State, early: set<string>)
    requires Distinct(EntryNames(s.run.stepStatuses))
    ensures Distinct(EntryNames(Synced(spec, s, early).run.stepStatuses))
  {
    SweepNames(SyncJobs(spec, s.jobs, early), s.run.stepStatuses);
  }

  lemma SyncedKeepsRest(spec: Spec, s: State, early: set<string>)
    ensures var t := Synced(spec, s, early);
            && t.run == s.run.(stepStatuses := t.run.stepStatuses,
                               completedSteps := t.run.completedSteps, failedSteps := t.run.failedSteps)
            && t.created == s.created && t.rollbacks == s.rollbacks
            && (t.run.stepStatuses == s.run.stepStatuses ==> t.run == s.run)
  {
  }

  lemma InvStructure(spec: Spec, s: State)
    requires Inv(spec, s)
    ensures Structure(spec, s.run.stepStatuses, s.jobs, s.created) && s.run.phase != RunPending
  {
  }

  /** When neither the sync nor the start loop reports a change, no job was retried or created. */
  lemma Unchanged(spec: Spec, s0: State, s: State, o: Observation, names: seq<string>)
    requires s == Synced(spec, s0, o.early)
    requires !StartAll(spec, o, LaunchOf(s, s.run.stepStatuses != s0.run.stepStatuses), names).changed
    ensures var l := StartAll(spec, o, LaunchOf(s, s.run.stepStatuses != s0.run.stepStatuses), names);
            l.jobs == s0.jobs && l.created == s0.created
  {
    hide StartAll;
    var ss := s0.run.stepStatuses;
    StartAllIdle(spec, o, LaunchOf(s, s.run.stepStatuses != ss), names);
    forall n ensures !Retried(spec, ss, s0.jobs, o.early, n) {
      SweepGet(SyncJobs(spec, s0.jobs, o.early), ss, n);
      if !Has(ss, n) { GetNone(ss, n); }
    }
  }
}
