/** What one reconcile does to one step, told by what it observed: the step's own settings,
    its job, the annotations, the API's answers. */
module RunEffects {
  import opened StepGraph
  import opened RunModel
  import opened StatusTable
  import opened RunSafety
  import opened RunInvariant

  // ---------------------------------------------------------------- a step's settings

  /** n is a step that runs an agent. */
  ghost predicate AgentStep(spec: Spec, n: string) {
    exists s :: s in spec.steps && s.name == n && s.agentRef != ""
  }

  /** n has a condition, and it does not hold. */
  ghost predicate ConditionUnmet(spec: Spec, o: Observation, n: string) {
    n !in o.conditionMet && exists s :: s in spec.steps && s.name == n && s.hasCondition
  }

  /** n's retry policy allows another try after the k-th retry. */
  ghost predicate RetryLeft(spec: Spec, n: string, k: nat) {
    exists s :: s in spec.steps && s.name == n && s.retryPolicy.Some? && k < s.retryPolicy.value
  }

  /** n needs an approval and has got a refusal. */
  predicate Refused(o: Observation, n: string) { n in o.approvalRequired && n in o.denied }

  /** n needs an approval and nobody has answered. */
  predicate Unanswered(o: Observation, n: string) {
    n in o.approvalRequired && n !in o.denied && n !in o.approved
  }

  /** n's job may be created as far as its settings and its approval go. */
  ghost predicate Allowed(spec: Spec, o: Observation, n: string) {
    AgentStep(spec, n) && !ConditionUnmet(spec, o, n) && (n in o.approvalRequired ==> n in o.approved && n !in o.denied)
  }

  lemma OneOfAName(steps: seq<StepSpec>, a: StepSpec, b: StepSpec)
    requires DistinctNames(steps) && a in steps && b in steps && a.name == b.name
    ensures a == b
  {
    var i :| 0 <= i < |steps| && steps[i] == a;
    var j :| 0 <= j < |steps| && steps[j] == b;
  }

  /** The lookups by name find the step's own settings. */
  lemma SettingsFound(spec: Spec, n: string)
    requires DistinctNames(spec.steps)
    ensures HasAgent(spec, n) <==> AgentStep(spec, n)
    ensures forall k: nat :: k < MaxRetries(spec, n) <==> RetryLeft(spec, n, k)
    ensures forall o: Observation :: ConditionUnmet(spec, o, n) <==>
      var s := FindStep(spec.steps, n); s.Some? && s.value.hasCondition && n !in o.conditionMet
  {
    var f := FindStep(spec.steps, n);
    forall s | s in spec.steps && s.name == n ensures f == Some(s) {
      var i :| 0 <= i < |spec.steps| && spec.steps[i] == s;
      OneOfAName(spec.steps, s, f.value);
    }
  }

  // ---------------------------------------------------------------- the job sync

  /** n's job is there and complete. */
  predicate JobDone(s: State, n: string) { n in s.jobs && s.jobs[n].complete }

  /** n's job is there and has failed for good. */
  predicate JobLost(s: State, n: string) { n in s.jobs && s.jobs[n].failed && !s.jobs[n].complete }

  /** The step that runs on a lost job is tried again. */
  ghost predicate RetriedNow(spec: Spec, s: State, n: string) {
    var a := Get(s.run.stepStatuses, n);
    a.phase == Running && JobLost(s, n) && RetryLeft(spec, n, a.retryCount)
  }

  /** The step that runs on a lost job has no try left. */
  ghost predicate WornOut(spec: Spec, s: State, n: string) {
    var a := Get(s.run.stepStatuses, n);
    a.phase == Running && JobLost(s, n) && !RetryLeft(spec, n, a.retryCount)
  }

  /** The job sync, step by step: a complete job makes its running step Succeeded; a lost one
      puts it back to be retried, its job gone, as long as a retry is left, and makes it
      Failed after that; and nothing else happens to any step or job. */
  lemma SyncExactly(spec: Spec, s: State, early: set<string>, n: string)
    requires DistinctNames(spec.steps) && Live(spec, s)
    ensures var t := Synced(spec, s, early);
            var a, b := Get(s.run.stepStatuses, n), Get(t.run.stepStatuses, n);
            && b == (if a.phase == Running && JobDone(s, n) then a.(phase := Succeeded, hasCompletionTime := true)
                     else if RetriedNow(spec, s, n) then a.(phase := Unset, retryCount := a.retryCount + 1)
                     else if WornOut(spec, s, n) then a.(phase := Failed, hasCompletionTime := true, error := JobError)
                     else a)
            && (n in t.jobs <==> n in s.jobs && !RetriedNow(spec, s, n))
            && (n in t.jobs ==> t.jobs[n] == s.jobs[n])
            && t.created == s.created && t.rollbacks == s.rollbacks
  {
    var ss := s.run.stepStatuses;
    SettingsFound(spec, n);
    SweepGet(SyncJobs(spec, s.jobs, early), ss, n);
    if !Has(ss, n) { GetNone(ss, n); }
    assert EntryLive(Get(ss, n));
    hide Live, Sweep.All, Get, Has, MaxRetries, RetryLeft, HasAgent, ConditionUnmet, AgentStep, Count, Names,
      DistinctNames, FindStep;
    SyncedJobs(spec, s, early, n);
    SyncedTable(spec, s, early);
    SyncedLogs(spec, s, early);
    hide Synced;
  }

  lemma SyncedLogs(spec: Spec, s: State, early: set<string>)
    ensures Synced(spec, s, early).created == s.created && Synced(spec, s, early).rollbacks == s.rollbacks
  {
  }

  lemma SyncedJobs(spec: Spec, s: State, early: set<string>, n: string)
    ensures var t := Synced(spec, s, early);
            && (n in t.jobs <==> n in s.jobs && !Retried(spec, s.run.stepStatuses, s.jobs, early, n))
            && (n in t.jobs ==> t.jobs[n] == s.jobs[n])
  {
    hide Retried;
  }

  // ---------------------------------------------------------------- the start loop

  /** What becomes of an executable step that gets its turn. */
  ghost predicate Served(spec: Spec, o: Observation, was: Launch, now: Launch, n: string) {
    var a, b := Get(was.steps, n), Get(now.steps, n);
    if ConditionUnmet(spec, o, n) then
      b == a.(phase := Skipped, hasCompletionTime := true) && SameJobs(was, now, n)
    else if !AgentStep(spec, n) then
      b == a.(phase := Succeeded, hasCompletionTime := true) && SameJobs(was, now, n)
    else if Refused(o, n) then
      b == a.(phase := Failed, error := DeniedByUser) && SameJobs(was, now, n)
    else if Unanswered(o, n) then
      b == a.(phase := Pending, error := AwaitingApproval) && SameJobs(was, now, n)
    else if n in o.createFailed then
      b == a && SameJobs(was, now, n)
    else
      && b == a.(phase := Running, jobName := StepJob)
      && if n in o.alreadyExists then SameJobs(was, now, n)
         else n in now.jobs && now.jobs[n] == Job(false, false, false) && now.created[n] == was.created[n] + 1
  }

  predicate SameJobs(was: Launch, now: Launch, n: string) {
    && now.created[n] == was.created[n]
    && (n in now.jobs <==> n in was.jobs)
    && (n in now.jobs ==> now.jobs[n] == was.jobs[n])
  }

  predicate Untouched(was: Launch, now: Launch, n: string) {
    Get(now.steps, n) == Get(was.steps, n) && SameJobs(was, now, n)
  }

  /** The branch an executable step takes, told by its settings and the observation. */
  lemma DecideExactly(spec: Spec, o: Observation, n: string, at: StepPhase)
    requires DistinctNames(spec.steps) && n in Names(spec.steps) && at != Running
    ensures Decide(spec, o, n, at) ==
      if ConditionUnmet(spec, o, n) then Skip else if !AgentStep(spec, n) then AutoComplete
      else if Refused(o, n) then Deny else if Unanswered(o, n) then Await else Create
  {
    SettingsFound(spec, n);
    hide AgentStep, ConditionUnmet, DistinctNames, MaxRetries, RetryLeft;
  }

  /** The launch after one write to the table. */
  lemma Written(l: Launch, e: StepStatus, l': Launch, n: string)
    requires l'.steps == Put(l.steps, e)
    ensures Get(l'.steps, n) == if n == e.name then e else Get(l.steps, n)
  {
    PutGet(l.steps, e, n);
  }

  lemma CreateServes(o: Observation, l: Launch, n: string, was: Launch)
    requires Untouched(was, l, n)
    ensures var l' := CreateJob(o, l, n);
      if n in o.createFailed then l' == l
      else
        && Get(l'.steps, n) == Get(was.steps, n).(phase := Running, jobName := StepJob)
        && (if n in o.alreadyExists then SameJobs(was, l', n)
            else n in l'.jobs && l'.jobs[n] == Job(false, false, false) && l'.created[n] == was.created[n] + 1)
  {
    if n !in o.createFailed {
      Written(l, Get(l.steps, n).(phase := Running, jobName := StepJob), CreateJob(o, l, n), n);
      hide Put, Get;
    }
  }

  /** One turn of the start loop serves its step. */
  lemma StartOneServes(spec: Spec, o: Observation, l: Launch, n: string)
    requires DistinctNames(spec.steps) && n in Names(spec.steps)
    requires l.running < Parallelism(spec) && PhaseOf(l.steps, n) != Running
    ensures Served(spec, o, l, StartOne(spec, o, l, n), n)
  {
    var e, l' := Get(l.steps, n), StartOne(spec, o, l, n);
    DecideExactly(spec, o, n, e.phase);
    hide Put, Get, CreateJob, Decide, AgentStep, ConditionUnmet, DistinctNames, Names;
    match Decide(spec, o, n, e.phase) {
      case LeaveOut =>
      case Skip => Written(l, e.(phase := Skipped, hasCompletionTime := true), l', n);
      case AutoComplete => Written(l, e.(phase := Succeeded, hasCompletionTime := true), l', n);
      case Deny => Written(l, e.(phase := Failed, error := DeniedByUser), l', n);
      case Await => Written(l, e.(phase := Pending, error := AwaitingApproval), l', n);
      case Create =>
        var m := if n in o.approvalRequired then l.(steps := Put(l.steps, e)) else l;
        if n in o.approvalRequired { Written(l, e, m, n); }
        CreateServes(o, m, n, l);
    }
  }

  /** It leaves every other step and job alone. */
  lemma StartOneElsewhere(spec: Spec, o: Observation, l: Launch, m: string, n: string)
    requires m != n
    ensures Untouched(l, StartOne(spec, o, l, m), n)
  {
    var e := Get(l.steps, m);
    hide Put, Get, Decide;
    PutGet(l.steps, e.(phase := Skipped, hasCompletionTime := true), n);
    PutGet(l.steps, e.(phase := Succeeded, hasCompletionTime := true), n);
    PutGet(l.steps, e.(phase := Failed, error := DeniedByUser), n);
    PutGet(l.steps, e.(phase := Pending, error := AwaitingApproval), n);
    PutGet(l.steps, e.(phase := Running, jobName := StepJob), n);
    PutGet(l.steps, e, n);
    PutGet(l.steps, e, m);
    PutGet(Put(l.steps, e), e.(phase := Running, jobName := StepJob), n);
  }

  lemma {:induction false} StartAllElsewhere(spec: Spec, o: Observation, l: Launch, names: seq<string>, n: string)
    requires n !in names
    ensures Untouched(l, StartAll(spec, o, l, names), n)
    decreases |names|
  {
    hide StartOne, Get;
    if names != [] {
      StartOneElsewhere(spec, o, l, names[0], n);
      StartAllElsewhere(spec, o, StartOne(spec, o, l, names[0]), names[1..], n);
    }
  }

  /** How many of the names are running. */
  function RunningOf(ss: seq<StepStatus>, names: seq<string>): set<string> {
    set n | n in names && PhaseOf(ss, n) == Running
  }

  lemma RunningCons(ss: seq<StepStatus>, n: string, rest: seq<string>)
    requires n !in rest
    ensures |RunningOf(ss, [n] + rest)| == |RunningOf(ss, rest)| + if PhaseOf(ss, n) == Running then 1 else 0
  {
    hide Get;
    var more := RunningOf(ss, rest);
    assert RunningOf(ss, [n] + rest) == if PhaseOf(ss, n) == Running then more + {n} else more;
  }

  lemma HeadApart(names: seq<string>)
    requires Distinct(names) && names != []
    ensures names[0] !in names[1..] && Distinct(names[1..])
  {
    assert forall i :: 0 < i < |names| ==> names[i] != names[0];
  }

  lemma OneRuns(spec: Spec, o: Observation, l: Launch, n: string)
    requires PhaseOf(l.steps, n) != Running
    ensures var l' := StartOne(spec, o, l, n);
            l'.running == l.running + if PhaseOf(l'.steps, n) == Running then 1 else 0
  {
    var e, l' := Get(l.steps, n), StartOne(spec, o, l, n);
    hide Put, Get, Decide;
    PutGet(l.steps, e.(phase := Skipped, hasCompletionTime := true), n);
    PutGet(l.steps, e.(phase := Succeeded, hasCompletionTime := true), n);
    PutGet(l.steps, e.(phase := Failed, error := DeniedByUser), n);
    PutGet(l.steps, e.(phase := Pending, error := AwaitingApproval), n);
    PutGet(l.steps, e.(phase := Running, jobName := StepJob), n);
    PutGet(l.steps, e, n);
    PutGet(Put(l.steps, e), e.(phase := Running, jobName := StepJob), n);
  }

  /** The loop's counter: what it started with and the steps it has set running. */
  lemma {:induction false} StartAllCounts(spec: Spec, o: Observation, l: Launch, names: seq<string>)
    requires Distinct(names) && forall n :: n in names ==> PhaseOf(l.steps, n) != Running
    ensures var l' := StartAll(spec, o, l, names); l'.running == l.running + |RunningOf(l'.steps, names)|
    decreases |names|
  {
    if names != [] {
      var n, rest := names[0], names[1..];
      var m, l' := StartOne(spec, o, l, n), StartAll(spec, o, l, names);
      HeadApart(names);
      OneRuns(spec, o, l, n);
      StartAllElsewhere(spec, o, m, rest, n);
      hide StartOne, Get, Distinct, RunningOf;
      forall x | x in rest ensures PhaseOf(m.steps, x) != Running {
        assert x in names;
        StartOneElsewhere(spec, o, l, n, x);
      }
      StartAllCounts(spec, o, m, rest);
      RunningCons(l'.steps, n, rest);
      assert names == [n] + rest;
    } else {
      assert RunningOf(l.steps, []) == {};
    }
  }

  /** The start loop serves every executable step, unless it has reached the parallelism
      limit by then and leaves the step as it is. */
  lemma {:induction false} StartAllServes(spec: Spec, o: Observation, l: Launch, names: seq<string>, n: string)
    requires DistinctNames(spec.steps) && n in Names(spec.steps)
    requires Distinct(names) && n in names && PhaseOf(l.steps, n) != Running
    ensures var l' := StartAll(spec, o, l, names);
            Served(spec, o, l, l', n) || (l'.running >= Parallelism(spec) && Untouched(l, l', n))
    decreases |names|
  {
    hide StartOne, Get, Decide, AgentStep, ConditionUnmet, Names;
    var m, rest := StartOne(spec, o, l, names[0]), names[1..];
    if l.running >= Parallelism(spec) {
      StartAllFull(spec, o, l, names);
    } else if n == names[0] {
      StartOneServes(spec, o, l, n);
      StartAllElsewhere(spec, o, m, rest, n);
    } else {
      StartOneElsewhere(spec, o, l, names[0], n);
      StartAllServes(spec, o, m, rest, n);
    }
  }

  /** Leaving the loop at the parallelism limit loses nothing: no later turn would do anything. */
  lemma {:induction false} StartAllFull(spec: Spec, o: Observation, l: Launch, names: seq<string>)
    requires l.running >= Parallelism(spec)
    ensures StartAll(spec, o, l, names) == l
    decreases |names|
  {
    if names != [] { StartAllFull(spec, o, l, names[1..]); }
  }

  /** A loop that reports no change has made none. */
  lemma {:induction false} StartAllIdle(spec: Spec, o: Observation, l: Launch, names: seq<string>)
    requires !StartAll(spec, o, l, names).changed
    ensures var l' := StartAll(spec, o, l, names);
            && !l.changed && l'.jobs == l.jobs && l'.created == l.created
            && forall n :: Get(l'.steps, n) == Get(l.steps, n)
    decreases |names|
  {
    if names != [] {
      hide StartOne, Get;
      StartAllIdle(spec, o, StartOne(spec, o, l, names[0]), names[1..]);
      StartOneIdle(spec, o, l, names[0]);
    }
  }

  lemma StartOneIdle(spec: Spec, o: Observation, l: Launch, n: string)
    requires !StartOne(spec, o, l, n).changed
    ensures var l' := StartOne(spec, o, l, n);
            && !l.changed && l'.jobs == l.jobs && l'.created == l.created
            && forall x :: Get(l'.steps, x) == Get(l.steps, x)
  {
    var e := Get(l.steps, n);
    forall x ensures Get(Put(l.steps, e), x) == Get(l.steps, x) { PutGet(l.steps, e, x); }
    hide Put, Get, FindStep;
  }

  lemma {:induction false} ChangedStays(spec: Spec, o: Observation, l: Launch, names: seq<string>)
    requires l.changed
    ensures StartAll(spec, o, l, names).changed
    decreases |names|
  {
    if names != [] {
      hide Put, Get;
      ChangedStays(spec, o, StartOne(spec, o, l, names[0]), names[1..]);
    }
  }

  // ---------------------------------------------------------------- reaching the sync

  /** The reconcile gets as far as the job sync of a running workflow. */
  predicate Syncs(s: State, o: Observation) {
    && s.run.phase == RunRunning && !o.template && !o.cancelled && !(s.run.started && o.timedOut)
    && s.run.hasRunId && o.agents == AllFound && !o.listFailed
  }

  lemma SyncsDrives(spec: Spec, s: State, o: Observation)
    requires Syncs(s, o) && s.run.started
    ensures Reconcile(spec, s, o) == Drive(spec, s, o)
  {
    hide Drive;
    assert s.(run := s.run) == s;
  }

  lemma SyncedTable(spec: Spec, s: State, early: set<string>)
    ensures Synced(spec, s, early).run.stepStatuses == SyncJobs(spec, s.jobs, early).All(s.run.stepStatuses)
  {
  }

  /** When a sync touches no entry it touches nothing. */
  lemma SyncUntouched(spec: Spec, s: State, early: set<string>)
    requires Synced(spec, s, early).run.stepStatuses == s.run.stepStatuses
    ensures Synced(spec, s, early) == s
  {
    var ss := s.run.stepStatuses;
    var sw := SyncJobs(spec, s.jobs, early);
    forall n ensures !Retried(spec, ss, s.jobs, early, n) {
      SweepGet(sw, ss, n);
      if !Has(ss, n) { GetNone(ss, n); }
    }
    assert Synced(spec, s, early).jobs == s.jobs;
  }

  /** The reconcile of a new or running workflow gets as far as the job sync. */
  predicate Drives(s: State, o: Observation) {
    && !o.template && !o.cancelled && s.run.hasRunId && o.agents == AllFound && !o.listFailed
    && ((s.run.phase == RunNew && !o.blocked) || (s.run.phase == RunRunning && !o.timedOut))
  }

  /** The state the sync starts from, and the one it leaves. */
  function Started(spec: Spec, s: State): State {
    s.(run := Initialised(spec, s.run))
  }

  function InSync(spec: Spec, s: State, o: Observation): State {
    Synced(spec, Started(spec, s), o.early)
  }

  lemma DrivesLive(spec: Spec, s: State, o: Observation)
    requires Inv(spec, s) && Drives(s, o)
    ensures Live(spec, Started(spec, s)) && Reconcile(spec, s, o) == Drive(spec, Started(spec, s), o)
    ensures Started(spec, s).run.phase == RunPending || Started(spec, s).run.phase == RunRunning
    ensures Started(spec, s).run.started && (s.run.phase == RunRunning ==> Started(spec, s) == s)
    ensures Started(spec, s).run.stepStatuses == s.run.stepStatuses
  {
    if s.run.phase == RunNew { NewIsLive(spec, s); }
    hide Drive, Live;
  }
}
