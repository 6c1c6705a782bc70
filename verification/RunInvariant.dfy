/** The invariant over every run: reconciles of one workflow interleaved with an
    environment that finishes, fails, loses or resurfaces its jobs at will. */
module RunInvariant {
  import opened StepGraph
  import opened RunModel
  import opened StatusTable
  import opened RunSafety

  // ---------------------------------------------------------------- completion

  lemma EntriesFit(spec: Spec, ss: seq<StepStatus>)
    requires DistinctNames(spec.steps) && Ordered(spec, EntryNames(ss))
    ensures |ss| <= |spec.steps|
    ensures |ss| == |spec.steps| <==> forall n :: n in Names(spec.steps) ==> Has(ss, n)
  {
    var names := EntryNames(ss);
    NamesAt(ss);
    DistinctCard(names);
    NamesCard(spec.steps);
    SubsetCard(Elements(names), Names(spec.steps));
    if forall n :: n in Names(spec.steps) ==> Has(ss, n) {
      assert Elements(names) == Names(spec.steps);
    }
    if |ss| == |spec.steps| {
      forall n | n in Names(spec.steps) ensures Has(ss, n) {
        assert n in Elements(names);
      }
    }
  }

  /** Every step is finished exactly when there are as many finished entries as steps. */
  lemma AllFinishedByCount(spec: Spec, ss: seq<StepStatus>)
    requires DistinctNames(spec.steps) && Ordered(spec, EntryNames(ss))
    ensures Count(DoneTally, ss) + Count(FailedTally, ss) == |spec.steps| <==> AllFinished(spec, ss)
  {
    EntriesFit(spec, ss);
    CountBounds(ss);
    if AllFinished(spec, ss) {
      forall n | n in Names(spec.steps) ensures Has(ss, n) { StartedHas(ss, n); }
      forall i | 0 <= i < |ss| ensures IsFinished(ss[i].phase) {
        GetAt(ss, i);
        assert ss[i].name in Elements(EntryNames(ss));
      }
    }
    if Count(DoneTally, ss) + Count(FailedTally, ss) == |spec.steps| {
      forall n | n in Names(spec.steps) ensures IsFinished(PhaseOf(ss, n)) {
        var i := GetSome(ss, n);
      }
    }
  }

  /** The completion test of a driven run, exactly: every step is finished and none was
      denied. A denied step is failed without being counted, so one denial keeps a run
      whose steps are all finished from ever completing. */
  lemma CompletionExactly(spec: Spec, s: State)
    requires DistinctNames(spec.steps) && Live(spec, s)
    ensures s.run.completedSteps + s.run.failedSteps >= s.run.totalSteps
       <==> AllFinished(spec, s.run.stepStatuses) && NoneDenied(s.run.stepStatuses)
  {
    var ss := s.run.stepStatuses;
    EntriesFit(spec, ss);
    CountBounds(ss);
    AllFinishedByCount(spec, ss);
    CountZeroByName(DeniedTally, ss);
  }

  lemma {:induction false} SweepIdle(sw: Sweep, ss: seq<StepStatus>)
    requires forall i :: 0 <= i < |ss| ==> sw.Apply(ss[i]) == ss[i]
    ensures sw.All(ss) == ss
  {
    assert forall i :: 0 <= i < |ss| ==> sw.All(ss)[i] == ss[i];
  }

  lemma NothingToForce(spec: Spec, ss: seq<StepStatus>)
    requires Ordered(spec, EntryNames(ss)) && AllFinished(spec, ss)
    ensures ForceSucceeded.All(ss) == ss
  {
    forall i | 0 <= i < |ss| ensures ForceSucceeded.Apply(ss[i]) == ss[i] {
      GetAt(ss, i);
      assert ss[i].name in Elements(EntryNames(ss));
    }
    SweepIdle(ForceSucceeded, ss);
  }

  /** When a run completes, forcing leftover entries to Succeeded touches nothing, and the
      final phase tells the truth: Succeeded means every step succeeded or was skipped,
      CompletedWithErrors means all are finished, some well and some not. */
  lemma FinishTellsTruth(spec: Spec, s: State)
    requires DistinctNames(spec.steps) && Live(spec, s)
    requires s.run.completedSteps + s.run.failedSteps >= s.run.totalSteps
    ensures var s' := FinishRun(spec, s); var ss := s.run.stepStatuses;
            && s'.run.stepStatuses == ss && AllFinished(spec, ss)
            && (s'.run.phase == RunSucceeded <==> AllDone(spec, ss))
            && (s'.run.phase == RunCompletedWithErrors <==>
                 spec.strategy == ContinueOnError && HasTally(FailedTally, ss) && HasTally(DoneTally, ss))
            && IsTerminal(s'.run.phase)
  {
    var ss := s.run.stepStatuses;
    CompletionExactly(spec, s);
    CountZeroByName(DeniedTally, ss);
    CountZeroByName(FailedTally, ss);
    CountZeroByName(DoneTally, ss);
    NothingToForce(spec, ss);
    hide Structure, LiveTable, Count, Sweep.All, DepsFirst;
    if AllDone(spec, ss) {
      forall n ensures !Tallied(FailedTally, ss, n) {
        if n !in Names(spec.steps) {
          assert n !in Elements(EntryNames(ss));
          GetNone(ss, n);
        }
      }
    } else {
      var n :| n in Names(spec.steps) && !IsDone(PhaseOf(ss, n));
      assert Tallied(FailedTally, ss, n);
    }
  }

  // ---------------------------------------------------------------- rollback order

  lemma {:induction false} LogEntry(spec: Spec, ss: seq<StepStatus>, i: nat) returns (a: nat)
    requires i < |RollbackOrder(spec, ss)|
    ensures a < |ss| && ss[a].name == RollbackOrder(spec, ss)[i]
  {
    if i < |RollbackOrder(spec, ss[1..])| {
      a := LogEntry(spec, ss[1..], i);
      a := a + 1;
    } else {
      a := 0;
    }
  }

  /** Rollback jobs are requested in reverse order of the entries. */
  lemma {:induction false} LogBackwards(spec: Spec, ss: seq<StepStatus>, i: nat, j: nat) returns (a: nat, b: nat)
    requires i < j < |RollbackOrder(spec, ss)|
    ensures b < a < |ss| && ss[a].name == RollbackOrder(spec, ss)[i] && ss[b].name == RollbackOrder(spec, ss)[j]
  {
    if j < |RollbackOrder(spec, ss[1..])| {
      a, b := LogBackwards(spec, ss[1..], i, j);
      a, b := a + 1, b + 1;
    } else {
      a := LogEntry(spec, ss[1..], i);
      a, b := a + 1, 0;
    }
  }

  lemma RollbackRespectsDependencies(spec: Spec, ss: seq<StepStatus>)
    requires Ordered(spec, EntryNames(ss))
    ensures RollbackSound(spec, RollbackOrder(spec, ss))
  {
    var log, names := RollbackOrder(spec, ss), EntryNames(ss);
    NamesAt(ss);
    forall i, j | 0 <= i < j < |log| ensures log[i] != log[j] {
      var a, b := LogBackwards(spec, ss, i, j);
      assert names[b] != names[a];
    }
    forall i, j, p | 0 <= i < j < |log| && IsPath(spec.steps, p) && |p| >= 2 && p[0] == log[j]
      ensures p[|p| - 1] != log[i]
    {
      var a, b := LogBackwards(spec, ss, i, j);
      PathDescends(spec.steps, names, p, b);
      assert forall k :: 0 <= k < b ==> names[k] != names[a];
    }
  }

  /** Rollback jobs are requested for exactly the agent steps that had succeeded. */
  lemma {:induction false} RollbackCovers(spec: Spec, ss: seq<StepStatus>, n: string)
    requires Distinct(EntryNames(ss))
    ensures n in RollbackOrder(spec, ss) <==> PhaseOf(ss, n) == Succeeded && HasAgent(spec, n)
  {
    if ss != [] {
      hide HasAgent;
      var names := EntryNames(ss);
      assert names[1..] == EntryNames(ss[1..]);
      RollbackCovers(spec, ss[1..], n);
      if n == ss[0].name {
        assert !Has(ss[1..], n) by { assert forall i :: 0 < i < |names| ==> names[i] != names[0]; }
        GetNone(ss[1..], n);
      }
    }
  }

  lemma FailedStays(sw: Sweep, ss: seq<StepStatus>)
    requires sw.StartRollback? || sw.CheckRollback?
    ensures HasTally(FailedTally, ss) ==> HasTally(FailedTally, sw.All(ss))
  {
    if HasTally(FailedTally, ss) {
      var n :| Tallied(FailedTally, ss, n);
      SweepGet(sw, ss, n);
      StartedHas(ss, n);
      assert Tallied(FailedTally, sw.All(ss), n);
    }
  }

  lemma RollbackTable(spec: Spec, s: State)
    requires Live(spec, s) && s.run.failedSteps > 0
    ensures RollingTable(StartRollback(spec).All(s.run.stepStatuses))
    ensures HasTally(FailedTally, StartRollback(spec).All(s.run.stepStatuses))
  {
    var ss := s.run.stepStatuses;
    CountZeroByName(FailedTally, ss);
    FailedStays(StartRollback(spec), ss);
    forall i | 0 <= i < |ss|
      ensures StartRollback(spec).Apply(ss[i]).phase in {RollingBack, RolledBack, Failed, Skipped}
    {
      GetAt(ss, i);
      assert EntryLive(Get(ss, ss[i].name));
    }
  }

  /** When a rollback ends, every entry is rolled back, failed or skipped. */
  lemma RollbackEnds(spec: Spec, s: State, o: Observation, i: nat)
    requires Inv(spec, s) && s.run.phase == RunRollingBack && i < |s.run.stepStatuses|
    requires Reconcile(spec, s, o).run.phase == RunFailed
    ensures |Reconcile(spec, s, o).run.stepStatuses| == |s.run.stepStatuses|
    ensures Reconcile(spec, s, o).run.stepStatuses[i].phase in {RolledBack, Failed, Skipped}
  {
    hide Structure, RollbackSound, HasTally;
  }

  // ---------------------------------------------------------------- one step

  lemma NewIsLive(spec: Spec, s: State)
    requires Inv(spec, s) && s.run.phase == RunNew
    ensures Live(spec, s.(run := Initialised(spec, s.run)))
  {
  }

  /** The ways a driven run responds to a failure, by strategy. */
  lemma StopKeeps(spec: Spec, s: State, left: map<string, Job>)
    requires Live(spec, s) && left.Keys <= s.jobs.Keys
    ensures Inv(spec, s.(
      run := s.run.(stepStatuses := SkipUnfinished.All(s.run.stepStatuses), phase := RunFailed), jobs := left))
  {
    var ss := s.run.stepStatuses;
    SweepStructure(spec, SkipUnfinished, ss, s.jobs, s.created, left);
    SweepKeepsFailed(SkipUnfinished, ss);
    hide Structure, LiveTable, Sweep.All, Count, RollingTable;
  }

  lemma RollbackKeeps(spec: Spec, s: State)
    requires Live(spec, s) && s.run.failedSteps > 0
    ensures var ss := s.run.stepStatuses;
            Inv(spec, State(s.run.(stepStatuses := StartRollback(spec).All(ss), phase := RunRollingBack),
                            map[], s.created,
                            s.rollbacks + RollbackOrder(spec, ss)))
  {
    var ss := s.run.stepStatuses;
    RollbackTable(spec, s);
    assert Structure(spec, ss, s.jobs, s.created) && FailedCounted(s.run.failedSteps, ss) && s.rollbacks == [];
    hide Live, Structure, Sweep.All, Sweep.Apply, Count, RollingTable, HasTally, RollbackSound, RollbackOrder, Ordered;
    assert Ordered(spec, EntryNames(ss)) by { StructureOrdered(spec, ss, s.jobs, s.created); }
    SweepStructure(spec, StartRollback(spec), ss, s.jobs, s.created, map[]);
    SweepKeepsFailed(StartRollback(spec), ss);
    RollbackRespectsDependencies(spec, ss);
    assert s.rollbacks + RollbackOrder(spec, ss) == RollbackOrder(spec, ss);
  }

  lemma StructureOrdered(spec: Spec, ss: seq<StepStatus>, jobs: map<string, Job>, created: multiset<string>)
    requires Structure(spec, ss, jobs, created)
    ensures Ordered(spec, EntryNames(ss))
  {
  }

  lemma FinishKeeps(spec: Spec, s: State)
    requires DistinctNames(spec.steps) && Live(spec, s)
    requires s.run.completedSteps + s.run.failedSteps >= s.run.totalSteps
    ensures Inv(spec, FinishRun(spec, s))
  {
    FinishTellsTruth(spec, s);
    hide Structure, LiveTable, AllDone, AllFinished, HasTally;
  }

  lemma DriveKeeps(spec: Spec, s0: State, o: Observation)
    requires DistinctNames(spec.steps) && Live(spec, s0) && s0.run.started
    requires s0.run.phase == RunPending || s0.run.phase == RunRunning
    ensures Inv(spec, Drive(spec, s0, o))
  {
    var s := Synced(spec, s0, o.early);
    var ss := s.run.stepStatuses;
    SyncKeepsLive(spec, s0, o.early);
    hide Inv, Live, Synced, FinishRun, StartSteps;
    if s.run.failedSteps > 0 && spec.strategy in {FailFast, Rollback, Stop} {
      StopKeeps(spec, s, s.jobs - Stoppable(ss));
      StopKeeps(spec, s, map[]);
      RollbackKeeps(spec, s);
    } else if s.run.completedSteps + s.run.failedSteps >= s.run.totalSteps {
      FinishKeeps(spec, s);
    } else {
      StartKeepsLive(spec, s0, s, o);
      SyncedPhase(spec, s0, o.early);
      StartPhase(spec, s0, s, o);
      LiveKeeps(spec, StartSteps(spec, s0, s, o));
    }
  }

  lemma SyncedPhase(spec: Spec, s: State, early: set<string>)
    ensures Synced(spec, s, early).run.phase == s.run.phase && Synced(spec, s, early).run.started == s.run.started
  {
  }

  lemma LiveKeeps(spec: Spec, s: State)
    requires Live(spec, s) && s.run.phase == RunRunning && s.run.started
    ensures Inv(spec, s)
  {
    hide Structure, LiveTable, DoneCounted, FailedCounted;
  }

  lemma StartPhase(spec: Spec, s0: State, s: State, o: Observation)
    requires s.run.phase == s0.run.phase && s.run.started == s0.run.started
    requires s0.run.phase == RunPending || s0.run.phase == RunRunning
    ensures StartSteps(spec, s0, s, o).run.phase == RunRunning
    ensures StartSteps(spec, s0, s, o).run.started == s0.run.started
  {
  }

  lemma CancelKeeps(spec: Spec, s: State)
    requires Inv(spec, s)
    ensures Inv(spec, CancelRun(s))
  {
    var ss := s.run.stepStatuses;
    SweepStructure(spec, CancelUnfinished, ss, s.jobs, s.created, map[]);
    SweepKeepsFailed(CancelUnfinished, ss);
    hide Structure, LiveTable, Sweep.All, Count, RollingTable, RollbackSound;
  }

  lemma MonitorKeeps(spec: Spec, s: State, o: Observation)
    requires Inv(spec, s) && s.run.phase == RunRollingBack
    ensures Inv(spec, MonitorRollback(s, o))
  {
    var ss := s.run.stepStatuses;
    SweepStructure(spec, CheckRollback(o.rollbackBusy), ss, s.jobs, s.created, s.jobs);
    FailedStays(CheckRollback(o.rollbackBusy), ss);
    MonitorTable(ss, o.rollbackBusy);
    SweepKeepsFailed(CheckRollback(o.rollbackBusy), ss);
    hide Structure, HasTally, RollbackSound, RollingTable, Sweep.Apply, Live;
  }

  lemma MonitorTable(ss: seq<StepStatus>, busy: set<string>)
    requires RollingTable(ss)
    ensures RollingTable(CheckRollback(busy).All(ss))
  {
  }

  /** Every reconcile keeps the invariant, whatever it observes. */
  lemma ReconcileKeeps(spec: Spec, s: State, o: Observation)
    requires DistinctNames(spec.steps) && Inv(spec, s)
    ensures Inv(spec, Reconcile(spec, s, o))
  {
    hide MonitorRollback, CancelRun, Drive, RollingTable, HasTally, RollbackSound;
    if IsTerminal(s.run.phase) || o.template {
    } else if s.run.phase == RunRollingBack {
      MonitorKeeps(spec, s, o);
    } else if o.cancelled {
      CancelKeeps(spec, s);
    } else if s.run.started && s.run.phase == RunRunning && o.timedOut {
    } else if s.run.phase == RunNew && o.blocked {
    } else if !s.run.hasRunId {
    } else if o.agents == LookupFailed {
    } else {
      if s.run.phase == RunNew { NewIsLive(spec, s); }
      if o.agents == AllFound && !o.listFailed { DriveKeeps(spec, s.(run := Initialised(spec, s.run)), o); }
    }
  }

  // ---------------------------------------------------------------- runs

  /** A run that another run's reconcile cancels keeps the invariant. */
  lemma PolicyKeeps(spec: Spec, s: State)
    requires Inv(spec, s)
    ensures Inv(spec, CancelledByPolicy(s))
  {
    hide Within, Ordered, Live, RollingTable, RollbackSound, HasTally, FailedCounted;
  }

  /** The environment may change, drop or resurface jobs the status points to, and drop or add the run id. */
  ghost predicate EnvironmentStep(s: State, s': State) {
    && s'.run == s.run.(hasRunId := s'.run.hasRunId)
    && s'.created == s.created && s'.rollbacks == s.rollbacks
    && JobsKnown(s.run.stepStatuses, s'.jobs)
  }

  ghost predicate Next(spec: Spec, s: State, s': State) {
    || (exists o :: s' == Reconcile(spec, s, o))
    || EnvironmentStep(s, s')
    || (IsActivePhase(s.run.phase) && s' == CancelledByPolicy(s))
  }

  ghost predicate Initial(s: State) {
    && s.run.phase == RunNew && !s.run.started && s.run.stepStatuses == []
    && s.run.totalSteps == s.run.completedSteps == s.run.failedSteps == 0
    && s.jobs == map[] && s.created == multiset{} && s.rollbacks == []
  }

  ghost predicate StepAt(spec: Spec, tr: seq<State>, i: int)
    requires 0 <= i < |tr| - 1
  {
    Next(spec, tr[i], tr[i + 1])
  }

  ghost predicate IsRun(spec: Spec, tr: seq<State>) {
    tr != [] && Initial(tr[0]) && forall i :: 0 <= i < |tr| - 1 ==> StepAt(spec, tr, i)
  }

  lemma InitialInv(spec: Spec, s: State)
    requires Initial(s)
    ensures Inv(spec, s)
  {
  }

  lemma EnvironmentKeeps(spec: Spec, s: State, s': State)
    requires Inv(spec, s) && EnvironmentStep(s, s')
    ensures Inv(spec, s')
  {
    hide Ordered, Bounded, LiveTable, DoneCounted, FailedCounted, RollingTable, HasTally, RollbackSound;
  }

  lemma NextKeeps(spec: Spec, s: State, s': State)
    requires DistinctNames(spec.steps) && Inv(spec, s) && Next(spec, s, s')
    ensures Inv(spec, s')
  {
    hide Inv, Reconcile, EnvironmentStep;
    if exists o :: s' == Reconcile(spec, s, o) {
      var o :| s' == Reconcile(spec, s, o);
      ReconcileKeeps(spec, s, o);
    } else if EnvironmentStep(s, s') {
      EnvironmentKeeps(spec, s, s');
    } else {
      PolicyKeeps(spec, s);
    }
  }

  /** Safety: the invariant holds in every state of every run. */
  lemma {:induction false} Safety(spec: Spec, tr: seq<State>, i: nat)
    requires DistinctNames(spec.steps) && IsRun(spec, tr) && i < |tr|
    ensures Inv(spec, tr[i])
  {
    hide Inv, Next, Initial;
    if i == 0 {
      InitialInv(spec, tr[0]);
    } else {
      Safety(spec, tr, i - 1);
      assert StepAt(spec, tr, i - 1);
      NextKeeps(spec, tr[i - 1], tr[i]);
    }
  }

  // ---------------------------------------------------------------- what it means

  /** The counters in every reachable state: failed and denied steps always add up, and the
      completed count is exact until the run ends, and after it completes well. */
  lemma CountersHold(spec: Spec, tr: seq<State>, i: nat)
    requires DistinctNames(spec.steps) && IsRun(spec, tr) && i < |tr|
    ensures var r := tr[i].run;
            && r.failedSteps + Count(DeniedTally, r.stepStatuses) == Count(FailedTally, r.stepStatuses)
            && (r.phase in {RunNew, RunRunning, RunSucceeded, RunCompletedWithErrors} ==>
                 r.completedSteps == Count(DoneTally, r.stepStatuses))
  {
    Safety(spec, tr, i);
  }

  /** A cancelled run keeps its waiting steps: what is still unfinished was Pending. */
  lemma CancelLeavesPending(spec: Spec, s: State, o: Observation, i: nat)
    requires Inv(spec, s) && s.run.phase == RunRunning && o.cancelled && !o.template && i < |s.run.stepStatuses|
    ensures var r := Reconcile(spec, s, o).run;
            && r.phase == RunCancelled && |r.stepStatuses| == |s.run.stepStatuses|
            && (IsFinished(r.stepStatuses[i].phase) <==> s.run.stepStatuses[i].phase != Pending)
            && (!IsFinished(r.stepStatuses[i].phase) ==> r.stepStatuses[i] == s.run.stepStatuses[i])
  {
    var ss := s.run.stepStatuses;
    assert Distinct(EntryNames(ss)) by { LiveDistinct(spec, s); }
    GetAt(ss, i);
    assert EntryLive(Get(ss, ss[i].name));
    hide Inv, Live, Proceed;
  }

  /** In a driven run a step that has an entry has every dependency, direct or not,
      succeeded or skipped, or at least finished under continueOnError. */
  lemma {:induction false} TransitiveDepsReady(spec: Spec, s: State, p: seq<string>)
    requires Live(spec, s) && IsPath(spec.steps, p) && |p| >= 2 && Has(s.run.stepStatuses, p[0])
    ensures DepReady(spec.strategy, PhaseOf(s.run.stepStatuses, p[|p| - 1]))
    decreases |p|
  {
    var ss := s.run.stepStatuses;
    assert Linked(spec.steps, p, 0);
    assert ReadyFor(spec, ss, p[0]);
    if |p| > 2 {
      StartedHas(ss, p[1]);
      PathSuffix(spec.steps, p, 1);
      TransitiveDepsReady(spec, s, p[1..]);
    }
  }

  /** A sync settles every finished job: what still runs afterwards has no job or an open one. */
  lemma SyncSettles(spec: Spec, s: State, early: set<string>, n: string)
    requires Live(spec, s)
    ensures var t := Synced(spec, s, early);
            PhaseOf(t.run.stepStatuses, n) == Running && n in t.jobs ==> !t.jobs[n].complete && !t.jobs[n].failed
  {
    var ss := s.run.stepStatuses;
    SweepGet(SyncJobs(spec, s.jobs, early), ss, n);
    assert EntryLive(Get(ss, n));
    hide Structure, DepsReady, Counters;
  }

  /** Retries and job creations are bounded in every reachable state. */
  lemma CreationsBounded(spec: Spec, tr: seq<State>, i: nat, n: string)
    requires DistinctNames(spec.steps) && IsRun(spec, tr) && i < |tr|
    ensures Get(tr[i].run.stepStatuses, n).retryCount <= Cap(spec, n)
    ensures tr[i].created[n] <= 1 + Cap(spec, n)
  {
    Safety(spec, tr, i);
    assert Within(spec, tr[i].created, Get(tr[i].run.stepStatuses, n));
  }

  lemma EarlyIgnored(spec: Spec, jobs: map<string, Job>, early: set<string>, early': set<string>, e: StepStatus)
    requires EntryLive(e)
    ensures SyncJobs(spec, jobs, early).Apply(e) == SyncJobs(spec, jobs, early').Apply(e)
  {
  }

  /** The back-off wait is dead code: in a driven run no running entry carries a completion
      time, so the sync ignores whether a retry would be early. */
  lemma BackoffNeverWaits(spec: Spec, s: State, early: set<string>, early': set<string>)
    requires Live(spec, s)
    ensures SyncJobs(spec, s.jobs, early).All(s.run.stepStatuses)
      == SyncJobs(spec, s.jobs, early').All(s.run.stepStatuses)
  {
    var ss := s.run.stepStatuses;
    hide DepsReady, Ordered, Bounded, JobsKnown, Counters, Sweep.Apply, EntryLive;
    assert Distinct(EntryNames(ss)) by { LiveDistinct(spec, s); }
    forall i | 0 <= i < |ss|
      ensures SyncJobs(spec, s.jobs, early).Apply(ss[i]) == SyncJobs(spec, s.jobs, early').Apply(ss[i])
    {
      GetAt(ss, i);
      assert EntryLive(Get(ss, ss[i].name));
      EarlyIgnored(spec, s.jobs, early, early', ss[i]);
    }
  }

  lemma LiveDistinct(spec: Spec, s: State)
    requires Live(spec, s)
    ensures Distinct(EntryNames(s.run.stepStatuses))
  {
  }

  /** failFast stops exactly the unfinished steps' jobs; finished steps keep theirs as evidence. */
  lemma FailFastKeepsEvidence(spec: Spec, s: State, n: string)
    requires Live(spec, s) && n in s.jobs
    ensures n in Stoppable(s.run.stepStatuses) <==> !IsFinished(PhaseOf(s.run.stepStatuses, n))
  {
    var ss := s.run.stepStatuses;
    if !Has(ss, n) { GetNone(ss, n); }
    var i := GetSome(ss, n);
    assert EntryLive(Get(ss, n)) && Get(ss, n).jobName != NoJob && Distinct(EntryNames(ss));
    hide Live, Distinct;
    if n in Stoppable(ss) {
      var j :| 0 <= j < |ss| && ss[j].phase in {Running, Pending, Unset} && ss[j].jobName != NoJob && ss[j].name == n;
      GetAt(ss, j);
    }
  }
}
