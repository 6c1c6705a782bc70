/** When the two counters of a status can be trusted. FailedSteps and the denied steps
    always make up the failed ones (`RunSafety.Inv`); CompletedSteps is exact while a run
    is driven and after it completes, but the other endings rewrite entries without it. */
module RunCounters {
  import opened StepGraph
  import opened RunModel
  import opened StatusTable
  import opened RunSafety
  import opened RunInvariant
  import opened RunEffects

  // ---------------------------------------------------------------- what each ending does to the tally

  lemma {:induction false} SkipCount(ss: seq<StepStatus>)
    ensures Count(DoneTally, SkipUnfinished.All(ss)) == Count(DoneTally, ss) + Count(UnfinishedTally, ss)
  {
    if ss != [] { SkipCount(ss[1..]); }
  }

  lemma {:induction false} CancelCount(ss: seq<StepStatus>)
    ensures Count(DoneTally, CancelUnfinished.All(ss)) == Count(DoneTally, ss) + Count(OpenTally, ss)
  {
    if ss != [] { CancelCount(ss[1..]); }
  }

  lemma {:induction false} RollbackCount(spec: Spec, ss: seq<StepStatus>)
    ensures Count(DoneTally, StartRollback(spec).All(ss)) + Count(SucceededTally, ss)
         == Count(DoneTally, ss) + Count(UnfinishedTally, ss)
  {
    hide HasAgent;
    if ss != [] { RollbackCount(spec, ss[1..]); }
  }

  lemma MonitorCount(busy: set<string>, ss: seq<StepStatus>)
    ensures Count(DoneTally, CheckRollback(busy).All(ss)) == Count(DoneTally, ss)
  {
    SweepCount(CheckRollback(busy), DoneTally, ss);
  }

  // ---------------------------------------------------------------- the condition

  predicate NoneOf(t: Tally, ss: seq<StepStatus>) {
    forall i :: 0 <= i < |ss| ==> !Counts(t, ss[i])
  }

  /** A cancellation leaves the completed count exact if no entry is Running or unset; failFast
      and stop if the synced table has no unfinished entry; a rollback if as many entries had
      succeeded as were unfinished. Every other reconcile does. */
  ghost predicate KeepsDone(spec: Spec, s: State, o: Observation) {
    var t := Synced(spec, s, o.early);
    var ss := t.run.stepStatuses;
    if IsTerminal(s.run.phase) || o.template || s.run.phase == RunRollingBack then true
    else if o.cancelled then NoneOf(OpenTally, s.run.stepStatuses)
    else if Syncs(s, o) && t.run.failedSteps > 0 then
      match spec.strategy
      case FailFast => NoneOf(UnfinishedTally, ss)
      case Stop => NoneOf(UnfinishedTally, ss)
      case Rollback => Count(SucceededTally, ss) == Count(UnfinishedTally, ss)
      case _ => true
    else true
  }

  ghost predicate DoneExact(s: State) {
    DoneCounted(s.run.completedSteps, s.run.stepStatuses)
  }

  // ---------------------------------------------------------------- the law

  /** What is left of the completed count when a run that has failed steps ends. */
  lemma ResponseDone(spec: Spec, t: State)
    requires DoneExact(t)
    ensures DoneCounted(t.run.completedSteps, SkipUnfinished.All(t.run.stepStatuses))
      <==> NoneOf(UnfinishedTally, t.run.stepStatuses)
    ensures DoneCounted(t.run.completedSteps, StartRollback(spec).All(t.run.stepStatuses))
       <==> Count(SucceededTally, t.run.stepStatuses) == Count(UnfinishedTally, t.run.stepStatuses)
  {
    SkipCount(t.run.stepStatuses);
    RollbackCount(spec, t.run.stepStatuses);
    CountZero(UnfinishedTally, t.run.stepStatuses);
    hide Count, Sweep.All;
  }

  /** A driven step, by the way it ends. */
  lemma DriveDone(spec: Spec, s0: State, o: Observation)
    requires DistinctNames(spec.steps) && Live(spec, s0) && s0.run.started
    requires s0.run.phase == RunPending || s0.run.phase == RunRunning
    ensures var t := Synced(spec, s0, o.early);
            var ss := t.run.stepStatuses;
            DoneExact(Drive(spec, s0, o)) <==>
              (t.run.failedSteps > 0 ==>
                && (spec.strategy in {FailFast, Stop} ==> NoneOf(UnfinishedTally, ss))
                && (spec.strategy == Rollback ==> Count(SucceededTally, ss) == Count(UnfinishedTally, ss)))
  {
    var t := Synced(spec, s0, o.early);
    SyncKeepsLive(spec, s0, o.early);
    LiveCounters(spec, t);
    hide Synced, Live, Count, FinishRun, StartSteps, Sweep.All, NoneOf, DoneCounted, Stoppable, RollbackOrder;
    if t.run.failedSteps > 0 && spec.strategy in {FailFast, Rollback, Stop} {
      ResponseDone(spec, t);
    } else if t.run.completedSteps + t.run.failedSteps >= t.run.totalSteps {
      FinishTellsTruth(spec, t);
      FinishCounts(spec, t);
    } else {
      StartKeepsLive(spec, s0, t, o);
      LiveCounters(spec, StartSteps(spec, s0, t, o));
    }
  }

  lemma LiveCounters(spec: Spec, s: State)
    requires Live(spec, s)
    ensures DoneExact(s)
  {
  }

  lemma FinishCounts(spec: Spec, s: State)
    ensures FinishRun(spec, s).run.completedSteps == s.run.completedSteps
  {
  }

  /** The completed count is exact after a reconcile exactly when it was before and the
      reconcile is one that keeps it. */
  lemma CompletedCountExactly(spec: Spec, s: State, o: Observation)
    requires DistinctNames(spec.steps) && Inv(spec, s)
    ensures DoneExact(Reconcile(spec, s, o)) <==> DoneExact(s) && KeepsDone(spec, s, o)
  {
    var ss := s.run.stepStatuses;
    if s.run.phase == RunRollingBack {
      MonitorCount(o.rollbackBusy, ss);
      hide Inv, Sweep.All, Count;
    } else if s.run.phase == RunNew {
      NewDone(spec, s, o);
    } else if s.run.phase == RunRunning {
      RunningDone(spec, s, o);
    }
  }

  lemma NewDone(spec: Spec, s: State, o: Observation)
    requires DistinctNames(spec.steps) && Inv(spec, s) && s.run.phase == RunNew
    ensures DoneExact(s) && DoneExact(Reconcile(spec, s, o)) && KeepsDone(spec, s, o)
  {
    var s1 := s.(run := Initialised(spec, s.run));
    NewIsLive(spec, s);
    NothingToSync(spec, s1, o.early);
    DriveDone(spec, s1, o);
    hide Inv, Live, Drive, Synced, Count;
  }

  /** A run without entries has nothing to sync. */
  lemma NothingToSync(spec: Spec, s: State, early: set<string>)
    requires s.run.stepStatuses == []
    ensures Synced(spec, s, early).run == s.run
    ensures s.jobs == map[] ==> Synced(spec, s, early) == s
  {
  }

  lemma RunningDone(spec: Spec, s: State, o: Observation)
    requires DistinctNames(spec.steps) && Inv(spec, s) && s.run.phase == RunRunning
    ensures DoneExact(s) && (DoneExact(Reconcile(spec, s, o)) <==> KeepsDone(spec, s, o))
  {
    InvCounts(spec, s);
    hide Inv, Live, Reconcile, Synced, Drive, CountsDone, NoneOf, DoneCounted;
    if Syncs(s, o) {
      SyncsDrives(spec, s, o);
      DriveDone(spec, s, o);
    } else if o.cancelled && !o.template {
      CancelDone(spec, s, o);
    } else {
      RestKeeps(spec, s, o);
    }
  }

  lemma CancelDone(spec: Spec, s: State, o: Observation)
    requires s.run.phase == RunRunning && o.cancelled && !o.template && DoneExact(s)
    ensures DoneExact(Reconcile(spec, s, o)) <==> NoneOf(OpenTally, s.run.stepStatuses)
  {
    CancelCount(s.run.stepStatuses);
    CountZero(OpenTally, s.run.stepStatuses);
    hide Proceed, Count, Sweep.All;
  }

  /** What neither syncs nor cancels leaves entries and counters alone. */
  lemma RestKeeps(spec: Spec, s: State, o: Observation)
    requires s.run.phase == RunRunning && s.run.started && !Syncs(s, o) && (o.template || !o.cancelled)
    ensures var r := Reconcile(spec, s, o).run;
            r.stepStatuses == s.run.stepStatuses && r.completedSteps == s.run.completedSteps
  {
    hide Drive;
  }

  lemma InvCounts(spec: Spec, s: State)
    requires Inv(spec, s) && s.run.phase == RunRunning
    ensures DoneExact(s) && Live(spec, s) && s.run.started
  {
  }
}
