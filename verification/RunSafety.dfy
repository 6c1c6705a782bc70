/** What every reachable state of a run satisfies, whatever the environment does. */
module RunSafety {
  import opened StepGraph
  import opened RunModel
  import opened StatusTable

  // ---------------------------------------------------------------- the invariant

  function Cap(spec: Spec, n: string): nat {
    if MaxRetries(spec, n) > 0 then MaxRetries(spec, n) else 0
  }

  predicate Unstarted(p: StepPhase) { p == Unset || p == Pending }

  /** Retries stay under the cap, and every job created beyond the retries belongs to a started step. */
  predicate Within(spec: Spec, created: multiset<string>, e: StepStatus) {
    && e.retryCount <= Cap(spec, e.name)
    && created[e.name] <= e.retryCount + if Unstarted(e.phase) then 0 else 1
  }

  ghost predicate Bounded(spec: Spec, ss: seq<StepStatus>, created: multiset<string>) {
    forall n :: Within(spec, created, Get(ss, n))
  }

  /** Entries are distinct spec steps, each listed after all its dependencies. */
  ghost predicate Ordered(spec: Spec, names: seq<string>) {
    Distinct(names) && Elements(names) <= Names(spec.steps) && DepsFirst(spec.steps, names)
  }

  /** Every listed job is one some entry points to. */
  ghost predicate JobsKnown(ss: seq<StepStatus>, jobs: map<string, Job>) {
    forall n :: n in jobs ==> Get(ss, n).jobName != NoJob
  }

  ghost predicate Structure(spec: Spec, ss: seq<StepStatus>, jobs: map<string, Job>, created: multiset<string>) {
    Ordered(spec, EntryNames(ss)) && JobsKnown(ss, jobs) && Bounded(spec, ss, created)
  }

  /** No rollback phase, and only finished steps carry a completion time. */
  predicate EntryLive(e: StepStatus) {
    && e.phase != RollingBack && e.phase != RolledBack
    && (e.hasCompletionTime ==> IsFinished(e.phase))
  }

  ghost predicate ReadyFor(spec: Spec, ss: seq<StepStatus>, n: string) {
    forall d :: DependsOn(spec.steps, n, d) ==> DepReady(spec.strategy, PhaseOf(ss, d))
  }

  /** Whatever has an entry has all its dependencies ready. */
  ghost predicate DepsReady(spec: Spec, ss: seq<StepStatus>) {
    forall n :: Has(ss, n) ==> ReadyFor(spec, ss, n)
  }

  ghost predicate LiveTable(spec: Spec, ss: seq<StepStatus>) {
    (forall n :: EntryLive(Get(ss, n))) && DepsReady(spec, ss)
  }

  /** CompletedSteps is the number of Succeeded and Skipped entries. */
  predicate DoneCounted(completed: int, ss: seq<StepStatus>) {
    completed == Count(DoneTally, ss)
  }

  /** FailedSteps and the denied entries together are the Failed ones. */
  predicate FailedCounted(failed: int, ss: seq<StepStatus>) {
    failed + Count(DeniedTally, ss) == Count(FailedTally, ss)
  }

  predicate Counters(completed: int, failed: int, ss: seq<StepStatus>) {
    DoneCounted(completed, ss) && FailedCounted(failed, ss)
  }

  /** The phases in which the completed count is always exact. */
  predicate CountsDone(p: RunPhase) {
    p == RunNew || p == RunRunning || p == RunSucceeded || p == RunCompletedWithErrors
  }

  /** A run being driven. */
  ghost predicate Live(spec: Spec, s: State) {
    && Structure(spec, s.run.stepStatuses, s.jobs, s.created)
    && LiveTable(spec, s.run.stepStatuses)
    && Counters(s.run.completedSteps, s.run.failedSteps, s.run.stepStatuses)
    && s.run.totalSteps == |spec.steps|
    && s.rollbacks == []
  }

  ghost predicate AllFinished(spec: Spec, ss: seq<StepStatus>) {
    forall n :: n in Names(spec.steps) ==> IsFinished(PhaseOf(ss, n))
  }

  ghost predicate AllDone(spec: Spec, ss: seq<StepStatus>) {
    forall n :: n in Names(spec.steps) ==> IsDone(PhaseOf(ss, n))
  }

  ghost predicate NoneDenied(ss: seq<StepStatus>) {
    forall n :: !Tallied(DeniedTally, ss, n)
  }

  ghost predicate HasTally(t: Tally, ss: seq<StepStatus>) {
    exists n :: Tallied(t, ss, n)
  }

  /** Rollback jobs are requested for a step before anything it depends on, directly or not. */
  ghost predicate RollbackSound(spec: Spec, log: seq<string>) {
    && Distinct(log)
    && forall i, j, p :: 0 <= i < j < |log| && IsPath(spec.steps, p) && |p| >= 2 && p[0] == log[j] ==>
      p[|p| - 1] != log[i]
  }

  /** During a rollback every entry is being rolled back, rolled back, failed or skipped. */
  ghost predicate RollingTable(ss: seq<StepStatus>) {
    forall i :: 0 <= i < |ss| ==> ss[i].phase in {RollingBack, RolledBack, Failed, Skipped}
  }

  ghost predicate Inv(spec: Spec, s: State) {
    var ss := s.run.stepStatuses;
    && Structure(spec, ss, s.jobs, s.created)
    && FailedCounted(s.run.failedSteps, ss)
    && (CountsDone(s.run.phase) ==> DoneCounted(s.run.completedSteps, ss))
    && s.run.phase != RunPending
    && (s.run.phase == RunNew ==> ss == [] && s.rollbacks == [])
    && (s.run.phase == RunRunning ==> Live(spec, s) && s.run.started)
    && (s.run.phase == RunRollingBack ==> RollingTable(ss) && HasTally(FailedTally, ss))
    && (s.run.phase == RunSucceeded ==> AllDone(spec, ss))
    && (s.run.phase == RunCompletedWithErrors ==>
         spec.strategy == ContinueOnError && AllFinished(spec, ss) && HasTally(FailedTally, ss)
           && HasTally(DoneTally, ss))
    && RollbackSound(spec, s.rollbacks)
  }

  // ---------------------------------------------------------------- sweeps keep the table

  lemma SweepBounded(spec: Spec, sw: Sweep, ss: seq<StepStatus>, created: multiset<string>, n: string)
    requires Within(spec, created, Get(ss, n))
    requires sw.SyncJobs? ==> sw.spec == spec
    ensures Within(spec, created, Get(sw.All(ss), n))
    ensures Get(ss, n).jobName != NoJob ==> Get(sw.All(ss), n).jobName != NoJob
  {
    SweepGet(sw, ss, n);
    if !Has(ss, n) { GetNone(ss, n); }
  }

  lemma SweepStructure(spec: Spec, sw: Sweep, ss: seq<StepStatus>, jobs: map<string, Job>, created: multiset<string>,
      jobs': map<string, Job>)
    requires Structure(spec, ss, jobs, created) && jobs'.Keys <= jobs.Keys
    requires sw.SyncJobs? ==> sw.spec == spec
    ensures Structure(spec, sw.All(ss), jobs', created)
  {
    hide Within, Get, Ordered;
    SweepNames(sw, ss);
    forall n ensures Within(spec, created, Get(sw.All(ss), n)) {
      assert Within(spec, created, Get(ss, n));
      SweepBounded(spec, sw, ss, created, n);
    }
    forall n | n in jobs' ensures Get(sw.All(ss), n).jobName != NoJob {
      assert n in jobs;
      SweepBounded(spec, sw, ss, created, n);
    }
  }

  lemma SyncTable(spec: Spec, ss: seq<StepStatus>, jobs: map<string, Job>, early: set<string>)
    requires LiveTable(spec, ss)
    ensures LiveTable(spec, SyncJobs(spec, jobs, early).All(ss))
  {
    var sw := SyncJobs(spec, jobs, early);
    SweepNames(sw, ss);
    forall n ensures EntryLive(Get(sw.All(ss), n)) {
      SweepGet(sw, ss, n);
      assert EntryLive(Get(ss, n));
    }
    forall n | Has(sw.All(ss), n) ensures ReadyFor(spec, sw.All(ss), n) {
      assert ReadyFor(spec, ss, n);
      forall d | DependsOn(spec.steps, n, d) ensures DepReady(spec.strategy, PhaseOf(sw.All(ss), d)) {
        SweepGet(sw, ss, d);
        StartedHas(ss, d);
      }
    }
  }

  /** Syncing jobs keeps a live run live. */
  lemma SyncKeepsLive(spec: Spec, s: State, early: set<string>)
    requires Live(spec, s)
    ensures Live(spec, Synced(spec, s, early))
  {
    var ss := s.run.stepStatuses;
    var sw := SyncJobs(spec, s.jobs, early);
    SweepStructure(spec, sw, ss, s.jobs, s.created, Synced(spec, s, early).jobs);
    SyncTable(spec, ss, s.jobs, early);
    SweepCount(sw, DeniedTally, ss);
  }

  // ---------------------------------------------------------------- starting steps

  ghost predicate LiveLaunch(spec: Spec, l: Launch, failed: int) {
    && Structure(spec, l.steps, l.jobs, l.created)
    && LiveTable(spec, l.steps)
    && Counters(l.completed, failed, l.steps)
  }

  ghost predicate Startable(spec: Spec, ss: seq<StepStatus>, n: string) {
    n in Names(spec.steps) && Unstarted(PhaseOf(ss, n)) && ReadyFor(spec, ss, n)
  }

  lemma NamesSnoc(spec: Spec, names: seq<string>, ss: seq<StepStatus>, n: string)
    requires Ordered(spec, names) && !Has(ss, n) && n in Names(spec.steps)
    requires names == EntryNames(ss) && ReadyFor(spec, ss, n)
    ensures Ordered(spec, names + [n])
  {
    var more := names + [n];
    forall k, d | 0 <= k < |more| && DependsOn(spec.steps, more[k], d) ensures d in more[..k] {
      if k < |names| {
        assert more[..k] == names[..k];
      } else {
        assert more[..k] == names;
        StartedHas(ss, d);
      }
    }
    assert Elements(more) == Elements(names) + {n};
  }

  lemma PutStructure(spec: Spec, ss: seq<StepStatus>, jobs: map<string, Job>, created: multiset<string>,
                     e: StepStatus, jobs': map<string, Job>, created': multiset<string>)
    requires Structure(spec, ss, jobs, created) && Startable(spec, ss, e.name) && Within(spec, created', e)
    requires jobs'.Keys <= jobs.Keys + {e.name} && (e.name in jobs' ==> e.jobName != NoJob)
    requires forall n :: n != e.name ==> created'[n] == created[n]
    ensures Structure(spec, Put(ss, e), jobs', created')
  {
    hide Put, Has, ReadyFor, DepsFirst;
    var ss' := Put(ss, e);
    PutNames(ss, e);
    if !Has(ss, e.name) { NamesSnoc(spec, EntryNames(ss), ss, e.name); }
    forall n | n in jobs' ensures Get(ss', n).jobName != NoJob {
      PutGet(ss, e, n);
    }
    forall n ensures Within(spec, created', Get(ss', n)) {
      PutGet(ss, e, n);
      assert Within(spec, created, Get(ss, n));
    }
  }

  /** What is ready stays ready when an unstarted entry is written. */
  lemma PutReady(spec: Spec, ss: seq<StepStatus>, e: StepStatus, n: string)
    requires Unstarted(PhaseOf(ss, e.name)) && ReadyFor(spec, ss, n)
    ensures ReadyFor(spec, Put(ss, e), n)
  {
    forall d | DependsOn(spec.steps, n, d) ensures DepReady(spec.strategy, PhaseOf(Put(ss, e), d)) {
      PutGet(ss, e, d);
    }
  }

  lemma PutTable(spec: Spec, ss: seq<StepStatus>, e: StepStatus)
    requires LiveTable(spec, ss) && Startable(spec, ss, e.name) && EntryLive(e)
    ensures LiveTable(spec, Put(ss, e))
  {
    var ss' := Put(ss, e);
    forall n ensures EntryLive(Get(ss', n)) {
      PutGet(ss, e, n);
      assert EntryLive(Get(ss, n));
    }
    forall n | Has(ss', n) ensures ReadyFor(spec, ss', n) {
      PutNames(ss, e);
      assert Has(ss, n) || n == e.name;
      PutReady(spec, ss, e, n);
    }
  }

  lemma PutStartable(spec: Spec, ss: seq<StepStatus>, e: StepStatus)
    requires Unstarted(PhaseOf(ss, e.name))
    ensures forall n :: n != e.name && Startable(spec, ss, n) ==> Startable(spec, Put(ss, e), n)
  {
    forall n | n != e.name && Startable(spec, ss, n) ensures Startable(spec, Put(ss, e), n) {
      PutGet(ss, e, n);
      PutReady(spec, ss, e, n);
    }
  }

  /** Writing a live entry over an unstarted, startable one keeps table and order. */
  lemma PutKeeps(spec: Spec, ss: seq<StepStatus>, jobs: map<string, Job>, created: multiset<string>,
                 e: StepStatus, jobs': map<string, Job>, created': multiset<string>)
    requires Structure(spec, ss, jobs, created) && LiveTable(spec, ss) && Startable(spec, ss, e.name)
    requires EntryLive(e) && Within(spec, created', e)
    requires jobs'.Keys <= jobs.Keys + {e.name} && (e.name in jobs' ==> e.jobName != NoJob)
    requires forall n :: n != e.name ==> created'[n] == created[n]
    ensures Structure(spec, Put(ss, e), jobs', created') && LiveTable(spec, Put(ss, e))
    ensures forall n :: n != e.name && Startable(spec, ss, n) ==> Startable(spec, Put(ss, e), n)
  {
    hide Structure, LiveTable, Put;
    PutStructure(spec, ss, jobs, created, e, jobs', created');
    PutTable(spec, ss, e);
    PutStartable(spec, ss, e);
  }

  lemma CreateKeeps(spec: Spec, o: Observation, l: Launch, failed: int, n: string)
    requires LiveLaunch(spec, l, failed) && Startable(spec, l.steps, n)
    ensures var l' := CreateJob(o, l, n);
            LiveLaunch(spec, l', failed) && forall m :: m != n && Startable(spec, l.steps, m) ==>
              Startable(spec, l'.steps, m)
  {
    var l' := CreateJob(o, l, n);
    if n !in o.createFailed {
      var e := Get(l.steps, n).(phase := Running, jobName := StepJob);
      assert Within(spec, l.created, Get(l.steps, n)) && EntryLive(Get(l.steps, n));
      PutKeeps(spec, l.steps, l.jobs, l.created, e, l'.jobs, l'.created);
      PutCount(DoneTally, l.steps, e);
      PutCount(FailedTally, l.steps, e);
      PutCount(DeniedTally, l.steps, e);
    }
  }

  lemma WriteKeeps(spec: Spec, l: Launch, failed: int, e: StepStatus, l': Launch)
    requires LiveLaunch(spec, l, failed) && Startable(spec, l.steps, e.name)
    requires EntryLive(e) && e.retryCount == Get(l.steps, e.name).retryCount
      && e.jobName == Get(l.steps, e.name).jobName
    requires e.phase == Failed ==> e.error == DeniedByUser
    requires l'.steps == Put(l.steps, e) && l'.jobs == l.jobs && l'.created == l.created
    requires l'.completed == l.completed + One(DoneTally, e)
    ensures LiveLaunch(spec, l', failed) && forall m :: m != e.name && Startable(spec, l.steps, m) ==>
      Startable(spec, l'.steps, m)
  {
    assert Within(spec, l.created, Get(l.steps, e.name)) && EntryLive(Get(l.steps, e.name));
    PutKeeps(spec, l.steps, l.jobs, l.created, e, l'.jobs, l'.created);
    PutCount(DoneTally, l.steps, e);
    PutCount(FailedTally, l.steps, e);
    PutCount(DeniedTally, l.steps, e);
  }

  lemma StartOneKeeps(spec: Spec, o: Observation, l: Launch, failed: int, n: string)
    requires LiveLaunch(spec, l, failed) && Startable(spec, l.steps, n)
    ensures var l' := StartOne(spec, o, l, n);
            LiveLaunch(spec, l', failed) && forall m :: m != n && Startable(spec, l.steps, m) ==>
              Startable(spec, l'.steps, m)
  {
    var e := Get(l.steps, n);
    var l' := StartOne(spec, o, l, n);
    assert EntryLive(e);
    if l.running < Parallelism(spec) {
      match Decide(spec, o, n, e.phase)
      case LeaveOut =>
      case Skip => WriteKeeps(spec, l, failed, e.(phase := Skipped, hasCompletionTime := true), l');
      case AutoComplete => WriteKeeps(spec, l, failed, e.(phase := Succeeded, hasCompletionTime := true), l');
      case Deny => WriteKeeps(spec, l, failed, e.(phase := Failed, error := DeniedByUser), l');
      case Await => WriteKeeps(spec, l, failed, e.(phase := Pending, error := AwaitingApproval), l');
      case Create =>
        if n in o.approvalRequired {
          var m := l.(steps := Put(l.steps, e));
          WriteKeeps(spec, l, failed, e, m);
          StillStartable(spec, l.steps, e);
          CreateKeeps(spec, o, m, failed, n);
        } else {
          CreateKeeps(spec, o, l, failed, n);
        }
    }
  }

  lemma StillStartable(spec: Spec, ss: seq<StepStatus>, e: StepStatus)
    requires Startable(spec, ss, e.name) && Unstarted(e.phase)
    ensures Startable(spec, Put(ss, e), e.name)
  {
    PutGet(ss, e, e.name);
    PutReady(spec, ss, e, e.name);
  }

  lemma {:induction false} StartAllKeeps(spec: Spec, o: Observation, l: Launch, failed: int, names: seq<string>)
    requires LiveLaunch(spec, l, failed) && Distinct(names)
    requires forall n :: n in names ==> Startable(spec, l.steps, n)
    ensures LiveLaunch(spec, StartAll(spec, o, l, names), failed)
    decreases |names|
  {
    if names != [] {
      StartOneKeeps(spec, o, l, failed, names[0]);
      StartAllKeeps(spec, o, StartOne(spec, o, l, names[0]), failed, names[1..]);
    }
  }

  /** Some step of the list is called n and can start. */
  ghost predicate SomeCanStart(spec: Spec, steps: seq<StepSpec>, ss: seq<StepStatus>, jobs: map<string, Job>,
      n: string) {
    exists i :: 0 <= i < |steps| && steps[i].name == n && CanStart(spec, ss, jobs, steps[i])
  }

  lemma {:induction false} ExecutableExactly(spec: Spec, steps: seq<StepSpec>, ss: seq<StepStatus>, 
      jobs: map<string, Job>, n: string)
    ensures n in Executable(spec, steps, ss, jobs) <==> SomeCanStart(spec, steps, ss, jobs, n)
  {
    if steps != [] {
      var rest := steps[1..];
      ExecutableExactly(spec, rest, ss, jobs, n);
      if SomeCanStart(spec, rest, ss, jobs, n) {
        var i :| 0 <= i < |rest| && rest[i].name == n && CanStart(spec, ss, jobs, rest[i]);
        assert steps[i + 1] == rest[i];
      }
      if SomeCanStart(spec, steps, ss, jobs, n) {
        var i :| 0 <= i < |steps| && steps[i].name == n && CanStart(spec, ss, jobs, steps[i]);
        assert i > 0 ==> rest[i - 1] == steps[i];
      }
    }
  }

  lemma {:induction false} ExecutableDistinct(spec: Spec, steps: seq<StepSpec>, ss: seq<StepStatus>, 
      jobs: map<string, Job>)
    requires DistinctNames(steps)
    ensures Distinct(Executable(spec, steps, ss, jobs))
  {
    if steps != [] {
      ExecutableDistinct(spec, steps[1..], ss, jobs);
      ExecutableExactly(spec, steps[1..], ss, jobs, steps[0].name);
    }
  }

  lemma ExecutableStartable(spec: Spec, ss: seq<StepStatus>, jobs: map<string, Job>, n: string)
    requires DistinctNames(spec.steps) && LiveTable(spec, ss) && n in Executable(spec, spec.steps, ss, jobs)
    ensures Startable(spec, ss, n)
  {
    ExecutableExactly(spec, spec.steps, ss, jobs, n);
    var i :| 0 <= i < |spec.steps| && spec.steps[i].name == n && CanStart(spec, ss, jobs, spec.steps[i]);
    assert EntryLive(Get(ss, n));
    forall d | DependsOn(spec.steps, n, d) ensures DepReady(spec.strategy, PhaseOf(ss, d)) {
      var j :| 0 <= j < |spec.steps| && spec.steps[j].name == n && d in spec.steps[j].dependsOn;
      assert i == j;
    }
  }

  lemma StartKeepsLive(spec: Spec, s0: State, s: State, o: Observation)
    requires DistinctNames(spec.steps) && Live(spec, s0) && Live(spec, s)
    ensures Live(spec, StartSteps(spec, s0, s, o))
  {
    var names := Executable(spec, spec.steps, s.run.stepStatuses, s.jobs);
    ExecutableDistinct(spec, spec.steps, s.run.stepStatuses, s.jobs);
    forall n | n in names ensures Startable(spec, s.run.stepStatuses, n) {
      ExecutableStartable(spec, s.run.stepStatuses, s.jobs, n);
    }
    StartAllKeeps(spec, o, LaunchOf(s, s.run.stepStatuses != s0.run.stepStatuses), s.run.failedSteps, names);
  }
}
