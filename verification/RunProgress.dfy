/** Progress of a run: a measure that every change of phase lowers, the exact shape of
    a stuck run, and the parallelism limit. */
module RunProgress {
  import opened StepGraph
  import opened RunModel
  import opened StatusTable
  import opened RunSafety
  import opened RunInvariant
  import opened RunEffects

  // ---------------------------------------------------------------- the measure

  function Rank(p: StepPhase): nat {
    match p
    case Unset => 4
    case Pending => 4
    case Running => 3
    case Succeeded => 2
    case RollingBack => 1
    case RolledBack => 0
    case Failed => 0
    case Skipped => 0
  }

  function Weight(spec: Spec, e: StepStatus): int {
    3 * (Cap(spec, e.name) - e.retryCount) + Rank(e.phase)
  }

  /** No change but between unset and Pending. */
  predicate SameStage(a: StepStatus, b: StepStatus) {
    a.retryCount == b.retryCount && (a.phase == b.phase || (Unstarted(a.phase) && Unstarted(b.phase)))
  }

  predicate Stepdown(spec: Spec, a: StepStatus, b: StepStatus) {
    a.name == b.name && (SameStage(a, b) || Weight(spec, b) < Weight(spec, a))
  }

  ghost predicate Downhill(spec: Spec, ss: seq<StepStatus>, ss': seq<StepStatus>) {
    forall n :: Stepdown(spec, Get(ss, n), Get(ss', n))
  }

  lemma SweepDownhill(spec: Spec, sw: Sweep, ss: seq<StepStatus>)
    requires sw.SyncJobs? ==> sw.spec == spec
    ensures Downhill(spec, ss, sw.All(ss))
  {
    forall n ensures Stepdown(spec, Get(ss, n), Get(sw.All(ss), n)) {
      SweepGet(sw, ss, n);
      if !Has(ss, n) { GetNone(ss, n); }
    }
  }

  lemma DownhillTrans(spec: Spec, a: seq<StepStatus>, b: seq<StepStatus>, c: seq<StepStatus>)
    requires Downhill(spec, a, b) && Downhill(spec, b, c)
    ensures Downhill(spec, a, c)
  {
    forall n ensures Stepdown(spec, Get(a, n), Get(c, n)) {
      assert Stepdown(spec, Get(a, n), Get(b, n)) && Stepdown(spec, Get(b, n), Get(c, n));
    }
  }

  lemma PutDownhill(spec: Spec, ss: seq<StepStatus>, e: StepStatus)
    requires Stepdown(spec, Get(ss, e.name), e)
    ensures Downhill(spec, ss, Put(ss, e))
  {
    forall n ensures Stepdown(spec, Get(ss, n), Get(Put(ss, e), n)) {
      PutGet(ss, e, n);
    }
  }

  lemma CreateDownhill(spec: Spec, o: Observation, l: Launch, n: string)
    requires Unstarted(PhaseOf(l.steps, n))
    ensures Downhill(spec, l.steps, CreateJob(o, l, n).steps)
  {
    PutDownhill(spec, l.steps, Get(l.steps, n).(phase := Running, jobName := StepJob));
    DownhillRefl(spec, l.steps);
  }

  lemma DownhillRefl(spec: Spec, ss: seq<StepStatus>)
    ensures Downhill(spec, ss, ss)
  {
  }

  lemma StartOneDownhill(spec: Spec, o: Observation, l: Launch, n: string)
    requires Unstarted(PhaseOf(l.steps, n))
    ensures Downhill(spec, l.steps, StartOne(spec, o, l, n).steps)
  {
    hide Put, Downhill, CreateJob;
    var ss, e := l.steps, Get(l.steps, n);
    DownhillRefl(spec, ss);
    PutDownhill(spec, ss, e);
    PutDownhill(spec, ss, e.(phase := Skipped, hasCompletionTime := true));
    PutDownhill(spec, ss, e.(phase := Succeeded, hasCompletionTime := true));
    PutDownhill(spec, ss, e.(phase := Failed, error := DeniedByUser));
    PutDownhill(spec, ss, e.(phase := Pending, error := AwaitingApproval));
    CreateDownhill(spec, o, l, n);
    if n in o.approvalRequired {
      var m := l.(steps := Put(ss, e));
      PutGet(ss, e, n);
      CreateDownhill(spec, o, m, n);
      DownhillTrans(spec, ss, m.steps, CreateJob(o, m, n).steps);
    }
  }

  lemma {:induction false} StartAllDownhill(spec: Spec, o: Observation, l: Launch, failed: int, names: seq<string>)
    requires LiveLaunch(spec, l, failed) && Distinct(names)
    requires forall n :: n in names ==> Startable(spec, l.steps, n)
    ensures Downhill(spec, l.steps, StartAll(spec, o, l, names).steps)
    decreases |names|
  {
    hide Downhill, LiveLaunch, StartOne;
    if names == [] {
      DownhillRefl(spec, l.steps);
    } else {
      var n, rest := names[0], names[1..];
      var m := StartOne(spec, o, l, n);
      assert Startable(spec, l.steps, n);
      StartOneDownhill(spec, o, l, n);
      StartOneKeeps(spec, o, l, failed, n);
      forall x | x in rest ensures Startable(spec, m.steps, x) {
        assert x in names && x != n;
      }
      StartAllDownhill(spec, o, m, failed, rest);
      DownhillTrans(spec, l.steps, m.steps, StartAll(spec, o, m, rest).steps);
    }
  }

  lemma StartDownhill(spec: Spec, s0: State, s: State, o: Observation)
    requires DistinctNames(spec.steps) && Live(spec, s)
    ensures Downhill(spec, s.run.stepStatuses, StartSteps(spec, s0, s, o).run.stepStatuses)
  {
    var ss := s.run.stepStatuses;
    var names := Executable(spec, spec.steps, ss, s.jobs);
    ExecutableDistinct(spec, spec.steps, ss, s.jobs);
    forall n | n in names ensures Startable(spec, ss, n) {
      ExecutableStartable(spec, ss, s.jobs, n);
    }
    var l := LaunchOf(s, ss != s0.run.stepStatuses);
    StartAllDownhill(spec, o, l, s.run.failedSteps, names);
    DownhillRefl(spec, ss);
    hide Downhill, Live, StartAll, Executable;
    if ss != s0.run.stepStatuses { ChangedStays(spec, o, l, names); }
  }

  /** What follows the sync, and the sync itself, only lead down. When the start loop is
      reached and reports no change, the stored table is the synced one. */
  lemma AfterSyncDownhill(spec: Spec, s0: State, o: Observation)
    requires DistinctNames(spec.steps) && Live(spec, s0)
    ensures Downhill(spec, Synced(spec, s0, o.early).run.stepStatuses, Drive(spec, s0, o).run.stepStatuses)
  {
    var s := Synced(spec, s0, o.early);
    var ss := s.run.stepStatuses;
    hide Downhill, Live, StartSteps, Synced, DistinctNames, Sweep.All, Stoppable, RollbackOrder;
    SyncKeepsLive(spec, s0, o.early);
    SweepDownhill(spec, SkipUnfinished, ss);
    SweepDownhill(spec, StartRollback(spec), ss);
    SweepDownhill(spec, ForceSucceeded, ss);
    StartDownhill(spec, s0, s, o);
  }

  lemma DriveDownhill(spec: Spec, s0: State, o: Observation)
    requires DistinctNames(spec.steps) && Live(spec, s0)
    ensures Downhill(spec, s0.run.stepStatuses, Drive(spec, s0, o).run.stepStatuses)
  {
    hide Downhill, Live, Drive;
    AfterSyncDownhill(spec, s0, o);
    SweepDownhill(spec, SyncJobs(spec, s0.jobs, o.early), s0.run.stepStatuses);
    DownhillTrans(spec, s0.run.stepStatuses, Synced(spec, s0, o.early).run.stepStatuses,
      Drive(spec, s0, o).run.stepStatuses);
  }

  /** A reconcile moves no step uphill. */
  lemma ReconcileDownhill(spec: Spec, s: State, o: Observation)
    requires DistinctNames(spec.steps) && Inv(spec, s)
    ensures Downhill(spec, s.run.stepStatuses, Reconcile(spec, s, o).run.stepStatuses)
  {
    var ss := s.run.stepStatuses;
    hide Downhill, Live, Drive;
    DownhillRefl(spec, ss);
    SweepDownhill(spec, CheckRollback(o.rollbackBusy), ss);
    SweepDownhill(spec, CancelUnfinished, ss);
    if s.run.phase == RunNew { NewIsLive(spec, s); }
    if s.run.phase == RunNew || s.run.phase == RunRunning {
      DriveDownhill(spec, s.(run := Initialised(spec, s.run)), o);
    }
  }

  function Total(spec: Spec, steps: seq<StepSpec>, ss: seq<StepStatus>): int {
    if steps == [] then 0 else Weight(spec, Get(ss, steps[0].name)) + Total(spec, steps[1..], ss)
  }

  /** The measure before anything has started. */
  function Budget(spec: Spec, steps: seq<StepSpec>): nat {
    if steps == [] then 0 else 3 * Cap(spec, steps[0].name) + 4 + Budget(spec, steps[1..])
  }

  predicate Moved(steps: seq<StepSpec>, ss: seq<StepStatus>, ss': seq<StepStatus>) {
    exists i :: 0 <= i < |steps| && !SameStage(Get(ss, steps[i].name), Get(ss', steps[i].name))
  }

  /** How many steps changed stage. */
  function StageChanges(steps: seq<StepSpec>, ss: seq<StepStatus>, ss': seq<StepStatus>): nat {
    if steps == [] then 0
    else
      var rest := StageChanges(steps[1..], ss, ss');
      if SameStage(Get(ss, steps[0].name), Get(ss', steps[0].name)) then rest else rest + 1
  }

  /** Every step that changes stage costs at least one. */
  lemma {:induction false} TotalFalls(spec: Spec, steps: seq<StepSpec>, ss: seq<StepStatus>, ss': seq<StepStatus>)
    requires Downhill(spec, ss, ss')
    ensures Total(spec, steps, ss') + StageChanges(steps, ss, ss') <= Total(spec, steps, ss)
  {
    if steps != [] {
      TotalFalls(spec, steps[1..], ss, ss');
      assert Stepdown(spec, Get(ss, steps[0].name), Get(ss', steps[0].name));
    }
  }

  lemma {:induction false} NoStageChanges(steps: seq<StepSpec>, ss: seq<StepStatus>)
    ensures StageChanges(steps, ss, ss) == 0
  {
    if steps != [] { NoStageChanges(steps[1..], ss); }
  }

  lemma {:induction false} TotalAtStart(spec: Spec, steps: seq<StepSpec>)
    ensures Total(spec, steps, []) == Budget(spec, steps)
  {
    if steps != [] { TotalAtStart(spec, steps[1..]); }
  }

  lemma {:induction false} TotalIsNat(spec: Spec, steps: seq<StepSpec>, ss: seq<StepStatus>, created: multiset<string>)
    requires Bounded(spec, ss, created)
    ensures Total(spec, steps, ss) >= 0
  {
    if steps != [] {
      TotalIsNat(spec, steps[1..], ss, created);
      assert Within(spec, created, Get(ss, steps[0].name));
    }
  }

  /** How often, over a run, a step has changed stage, each retry included. */
  ghost function Moves(spec: Spec, tr: seq<State>): nat {
    if |tr| < 2 then 0
    else
      Moves(spec, tr[..|tr| - 1]) +
      StageChanges(spec.steps, tr[|tr| - 2].run.stepStatuses, tr[|tr| - 1].run.stepStatuses)
  }

  lemma RunPrefix(spec: Spec, tr: seq<State>)
    requires IsRun(spec, tr) && |tr| >= 2
    ensures IsRun(spec, tr[..|tr| - 1])
  {
    var front := tr[..|tr| - 1];
    forall i | 0 <= i < |front| - 1 ensures StepAt(spec, front, i) {
      assert StepAt(spec, tr, i);
    }
  }

  /** One transition pays for the moves it makes. */
  lemma NextPays(spec: Spec, a: State, b: State)
    requires DistinctNames(spec.steps) && Inv(spec, a) && Next(spec, a, b)
    ensures Total(spec, spec.steps, b.run.stepStatuses)
          + StageChanges(spec.steps, a.run.stepStatuses, b.run.stepStatuses)
         <= Total(spec, spec.steps, a.run.stepStatuses)
  {
    hide Inv, Reconcile, Downhill, Total, StageChanges;
    NoStageChanges(spec.steps, a.run.stepStatuses);
    if EnvironmentStep(a, b) || b == CancelledByPolicy(a) {
      assert a.run.stepStatuses == b.run.stepStatuses;
    } else {
      var o :| b == Reconcile(spec, a, o);
      ReconcileDownhill(spec, a, o);
      TotalFalls(spec, spec.steps, a.run.stepStatuses, b.run.stepStatuses);
    }
  }

  lemma {:induction false} MovesPaid(spec: Spec, tr: seq<State>)
    requires DistinctNames(spec.steps) && IsRun(spec, tr)
    ensures Moves(spec, tr) + Total(spec, spec.steps, tr[|tr| - 1].run.stepStatuses) <= Budget(spec, spec.steps)
    decreases |tr|
  {
    hide Inv, Next, StageChanges;
    if |tr| == 1 {
      TotalAtStart(spec, spec.steps);
    } else {
      RunPrefix(spec, tr);
      MovesPaid(spec, tr[..|tr| - 1]);
      Safety(spec, tr, |tr| - 2);
      assert StepAt(spec, tr, |tr| - 2);
      NextPays(spec, tr[|tr| - 2], tr[|tr| - 1]);
    }
  }

  /** However long a run lasts, all its steps together change stage at most this often. */
  lemma MovesBounded(spec: Spec, tr: seq<State>)
    requires DistinctNames(spec.steps) && IsRun(spec, tr)
    ensures Moves(spec, tr) <= Budget(spec, spec.steps)
  {
    var last := tr[|tr| - 1];
    MovesPaid(spec, tr);
    Safety(spec, tr, |tr| - 1);
    TotalIsNat(spec, spec.steps, last.run.stepStatuses, last.created);
  }

  // ---------------------------------------------------------------- deadlock

  ghost predicate Unfinished(spec: Spec, ss: seq<StepStatus>, n: string) {
    n in Names(spec.steps) && !IsFinished(PhaseOf(ss, n))
  }

  predicate IsActive(ss: seq<StepStatus>, jobs: map<string, Job>, n: string) {
    PhaseOf(ss, n) == Running || n in jobs
  }

  /** No unfinished step is active or can be started. */
  ghost predicate Stuck(spec: Spec, ss: seq<StepStatus>, jobs: map<string, Job>) {
    forall n :: Unfinished(spec, ss, n) ==> !IsActive(ss, jobs, n) && n !in Executable(spec, spec.steps, ss, jobs)
  }

  /** n depends, directly or not, on a failed step. */
  ghost predicate Blocked(spec: Spec, ss: seq<StepStatus>, n: string) {
    exists p :: IsPath(spec.steps, p) && |p| >= 2 && p[0] == n && PhaseOf(ss, p[|p| - 1]) == Failed
  }

  lemma NotExecutable(spec: Spec, ss: seq<StepStatus>, jobs: map<string, Job>, n: string) returns (d: string)
    requires Unfinished(spec, ss, n) && !IsActive(ss, jobs, n) && n !in Executable(spec, spec.steps, ss, jobs)
    ensures DependsOn(spec.steps, n, d) && !DepReady(spec.strategy, PhaseOf(ss, d))
  {
    var i :| 0 <= i < |spec.steps| && spec.steps[i].name == n;
    ExecutableExactly(spec, spec.steps, ss, jobs, n);
    assert !CanStart(spec, ss, jobs, spec.steps[i]);
    d :| d in spec.steps[i].dependsOn && !DepReady(spec.strategy, PhaseOf(ss, d));
  }

  lemma BlockedByDep(spec: Spec, ss: seq<StepStatus>, n: string, d: string)
    requires DependsOn(spec.steps, n, d) && (PhaseOf(ss, d) == Failed || Blocked(spec, ss, d))
    ensures Blocked(spec, ss, n)
  {
    if PhaseOf(ss, d) == Failed {
      var p := [n] + [d];
      PathExtend(spec.steps, [n], d);
      assert p[|p| - 1] == d;
    } else {
      var p :| IsPath(spec.steps, p) && |p| >= 2 && p[0] == d && PhaseOf(ss, p[|p| - 1]) == Failed;
      PathPrepend(spec.steps, n, p);
      assert ([n] + p)[|[n] + p| - 1] == p[|p| - 1];
    }
  }

  /** In a stuck run each unfinished step has a failed ancestor, and the strategy is not continueOnError. */
  lemma {:induction false} StuckIsBlocked(spec: Spec, order: seq<string>, ss: seq<StepStatus>, jobs: map<string, Job>,
      k: nat)
    requires TopologicalOrder(spec.steps, order) && Stuck(spec, ss, jobs)
    requires k < |order| && Unfinished(spec, ss, order[k])
    ensures spec.strategy != ContinueOnError && Blocked(spec, ss, order[k])
  {
    hide Blocked, Executable;
    var d := NotExecutable(spec, ss, jobs, order[k]);
    if !IsFinished(PhaseOf(ss, d)) {
      var j :| 0 <= j < k && order[j] == d;
      assert d in Elements(order);
      StuckIsBlocked(spec, order, ss, jobs, j);
    }
    BlockedByDep(spec, ss, order[k], d);
  }

  lemma PathPrepend(steps: seq<StepSpec>, n: string, p: seq<string>)
    requires IsPath(steps, p) && p != [] && DependsOn(steps, n, p[0])
    ensures IsPath(steps, [n] + p)
  {
    forall i | 0 <= i < |[n] + p| - 1 ensures Linked(steps, [n] + p, i) {
      if i > 0 { assert Linked(steps, p, i - 1); }
    }
  }

  /** A blocked step of a driven run cannot be started. */
  lemma BlockedCannotStart(spec: Spec, s: State, n: string)
    requires DistinctNames(spec.steps) && Live(spec, s) && spec.strategy != ContinueOnError
    requires Blocked(spec, s.run.stepStatuses, n)
    ensures n !in Executable(spec, spec.steps, s.run.stepStatuses, s.jobs)
  {
    hide Structure, Executable, Counters, Has;
    var ss := s.run.stepStatuses;
    if n in Executable(spec, spec.steps, ss, s.jobs) {
      ExecutableStartable(spec, ss, s.jobs, n);
      var p :| IsPath(spec.steps, p) && |p| >= 2 && p[0] == n && PhaseOf(ss, p[|p| - 1]) == Failed;
      assert Linked(spec.steps, p, 0);
      assert DepReady(spec.strategy, PhaseOf(ss, p[1]));
      if |p| > 2 {
        StartedHas(ss, p[1]);
        PathSuffix(spec.steps, p, 1);
        TransitiveDepsReady(spec, s, p[1..]);
      }
    }
  }

  /** No deadlock after admission: under continueOnError, or with no failed step, as long as
      a step is unfinished some unfinished step is active or can be started. */
  lemma NoDeadlock(spec: Spec, order: seq<string>, ss: seq<StepStatus>, jobs: map<string, Job>, n: string)
    requires TopologicalOrder(spec.steps, order) && Unfinished(spec, ss, n)
    requires spec.strategy == ContinueOnError || forall m :: PhaseOf(ss, m) != Failed
    ensures exists m ::
      Unfinished(spec, ss, m) && (IsActive(ss, jobs, m) || m in Executable(spec, spec.steps, ss, jobs))
  {
    if Stuck(spec, ss, jobs) {
      assert n in Elements(order);
      var k :| 0 <= k < |order| && order[k] == n;
      StuckIsBlocked(spec, order, ss, jobs, k);
    }
  }

  /** Under every other strategy a driven run is stuck exactly when each unfinished step is
      idle and depends, directly or not, on a failed one. */
  lemma StuckExactly(spec: Spec, order: seq<string>, s: State)
    requires TopologicalOrder(spec.steps, order) && DistinctNames(spec.steps) && Live(spec, s)
    requires spec.strategy != ContinueOnError
    ensures var ss := s.run.stepStatuses;
            Stuck(spec, ss, s.jobs) <==>
            forall n :: Unfinished(spec, ss, n) ==> !IsActive(ss, s.jobs, n) && Blocked(spec, ss, n)
  {
    var ss := s.run.stepStatuses;
    forall n | Unfinished(spec, ss, n)
      ensures Stuck(spec, ss, s.jobs) ==> Blocked(spec, ss, n)
      ensures Blocked(spec, ss, n) ==> n !in Executable(spec, spec.steps, ss, s.jobs)
    {
      assert n in Elements(order);
      var k :| 0 <= k < |order| && order[k] == n;
      if Stuck(spec, ss, s.jobs) { StuckIsBlocked(spec, order, ss, s.jobs, k); }
      if Blocked(spec, ss, n) { BlockedCannotStart(spec, s, n); }
    }
  }

  /** A run whose steps are all finished, one of them denied, is never completed: every
      reconcile that is not a cancellation, a timeout or a failure response leaves it as it is. */
  lemma DeniedRunHangs(spec: Spec, s: State, o: Observation)
    requires DistinctNames(spec.steps) && Inv(spec, s) && s.run.phase == RunRunning && s.run.hasRunId
    requires AllFinished(spec, s.run.stepStatuses) && !NoneDenied(s.run.stepStatuses)
    requires s.run.failedSteps == 0 || spec.strategy in {ContinueOnError, Continue, NoStrategy}
    requires !o.cancelled && !o.timedOut && o.agents != SomeNotFound
    ensures Reconcile(spec, s, o) == s
  {
    var ss := s.run.stepStatuses;
    CompletionExactly(spec, s);
    SyncIdle(spec, s, o.early);
    NothingToStart(spec, spec.steps, ss, s.jobs);
    hide CanStart, Inv, Live;
    assert Synced(spec, s, o.early) == s;
  }

  /** With every step finished the sync finds nothing to do. */
  lemma SyncIdle(spec: Spec, s: State, early: set<string>)
    requires DistinctNames(spec.steps) && Live(spec, s) && AllFinished(spec, s.run.stepStatuses)
    ensures Synced(spec, s, early) == s
  {
    var ss := s.run.stepStatuses;
    var sw := SyncJobs(spec, s.jobs, early);
    forall i | 0 <= i < |ss| ensures sw.Apply(ss[i]) == ss[i] {
      GetAt(ss, i);
      assert ss[i].name in Elements(EntryNames(ss));
    }
    SweepIdle(sw, ss);
    forall n ensures !Retried(spec, ss, s.jobs, early, n) {
      if Has(ss, n) { var i := GetSome(ss, n); } else { GetNone(ss, n); }
    }
    assert Synced(spec, s, early).jobs == s.jobs;
  }

  lemma {:induction false} NothingToStart(spec: Spec, steps: seq<StepSpec>, ss: seq<StepStatus>, jobs: map<string, Job>)
    requires forall s :: s in steps ==> IsFinished(PhaseOf(ss, s.name))
    ensures Executable(spec, steps, ss, jobs) == []
  {
    if steps != [] {
      assert steps[0] in steps;
      NothingToStart(spec, steps[1..], ss, jobs);
    }
  }

  // ---------------------------------------------------------------- unhindered reconciles

  /** An observation in which nothing outside holds the run back; approvals have been answered. */
  predicate Smooth(s: State, o: Observation) {
    && s.run.hasRunId && !o.template && !o.cancelled && !o.timedOut && o.agents == AllFound && !o.listFailed
    && o.createFailed == {} && o.approvalRequired <= o.approved + o.denied
  }

  /** When a sync touches an entry, that step moves; and what the rest of the reconcile does
      only takes it further down. */
  lemma SyncMoves(spec: Spec, s: State, o: Observation)
    requires DistinctNames(spec.steps) && Live(spec, s)
    requires Synced(spec, s, o.early).run.stepStatuses != s.run.stepStatuses
    ensures Moved(spec.steps, s.run.stepStatuses, Drive(spec, s, o).run.stepStatuses)
  {
    var ss, ss' := s.run.stepStatuses, Drive(spec, s, o).run.stepStatuses;
    var mid := Synced(spec, s, o.early).run.stepStatuses;
    hide Drive, Synced, Live, Get, Weight, Stepdown, SameStage, Moved, Names, DistinctNames;
    var i := Touched(spec, s, o.early);
    var n := ss[i].name;
    AfterSyncDownhill(spec, s, o);
    assert Stepdown(spec, Get(mid, n), Get(ss', n));
    LighterMoved(spec, Get(ss, n), Get(mid, n), Get(ss', n));
    MovedAt(spec.steps, ss, ss', n);
  }

  lemma LighterMoved(spec: Spec, a: StepStatus, b: StepStatus, c: StepStatus)
    requires a.name == b.name && Weight(spec, b) < Weight(spec, a) && Stepdown(spec, b, c)
    ensures !SameStage(a, c)
  {
    hide Cap;
  }

  lemma SyncLowers(spec: Spec, jobs: map<string, Job>, early: set<string>, e: StepStatus)
    requires SyncJobs(spec, jobs, early).Apply(e) != e
    ensures Weight(spec, SyncJobs(spec, jobs, early).Apply(e)) < Weight(spec, e)
  {
    hide MaxRetries, Cap;
  }

  /** The entry a sync has touched weighs less. */
  lemma Touched(spec: Spec, s: State, early: set<string>) returns (i: nat)
    requires Live(spec, s) && Synced(spec, s, early).run.stepStatuses != s.run.stepStatuses
    ensures i < |s.run.stepStatuses| && s.run.stepStatuses[i].name in Names(spec.steps)
    ensures var n := s.run.stepStatuses[i].name;
            Weight(spec, Get(Synced(spec, s, early).run.stepStatuses, n)) < Weight(spec, Get(s.run.stepStatuses, n))
  {
    var ss, sw := s.run.stepStatuses, SyncJobs(spec, s.jobs, early);
    assert Distinct(EntryNames(ss)) by { LiveDistinct(spec, s); }
    assert Ordered(spec, EntryNames(ss));
    LiveNames(spec, s);
    SyncedTable(spec, s, early);
    hide Live, Ordered, Synced, Sweep.Apply, Get, Weight, Distinct, EntryNames, Names;
    i :| 0 <= i < |ss| && sw.All(ss)[i] != ss[i];
    GetAt(ss, i);
    SweepGet(sw, ss, ss[i].name);
    SyncLowers(spec, s.jobs, early, ss[i]);
    assert ss[i].name in Elements(EntryNames(ss));
  }

  lemma LiveNames(spec: Spec, s: State)
    requires Live(spec, s)
    ensures Elements(EntryNames(s.run.stepStatuses)) <= Names(spec.steps)
  {
  }

  /** With room for a job, the first executable step changes stage. */
  lemma FirstMoves(spec: Spec, o: Observation, s: State, l: Launch, names: seq<string>)
    requires DistinctNames(spec.steps) && Smooth(s, o) && l.running < Parallelism(spec)
    requires names != [] && Distinct(names)
    requires names[0] in Names(spec.steps) && Unstarted(PhaseOf(l.steps, names[0]))
    ensures StartAll(spec, o, l, names).changed
    ensures !SameStage(Get(l.steps, names[0]), Get(StartAll(spec, o, l, names).steps, names[0]))
  {
    var n := names[0];
    var m := StartOne(spec, o, l, n);
    OneMoves(spec, o, s, l, n);
    hide StartOne, Names, SameStage, Get, Smooth;
    StartAllElsewhere(spec, o, m, names[1..], n);
    ChangedStays(spec, o, m, names[1..]);
  }

  lemma OneMoves(spec: Spec, o: Observation, s: State, l: Launch, n: string)
    requires DistinctNames(spec.steps) && Smooth(s, o) && l.running < Parallelism(spec)
    requires n in Names(spec.steps) && Unstarted(PhaseOf(l.steps, n))
    ensures StartOne(spec, o, l, n).changed
    ensures !SameStage(Get(l.steps, n), Get(StartOne(spec, o, l, n).steps, n))
  {
    StartOneServes(spec, o, l, n);
    ServedChanges(spec, o, l, n);
    hide Get, Names, StartOne, AgentStep, ConditionUnmet;
  }

  /** A turn that only fails to create a job may leave no change. */
  lemma ServedChanges(spec: Spec, o: Observation, l: Launch, n: string)
    requires DistinctNames(spec.steps) && n in Names(spec.steps) && l.running < Parallelism(spec)
    requires n !in o.createFailed && PhaseOf(l.steps, n) != Running
    ensures StartOne(spec, o, l, n).changed
  {
    DecideExactly(spec, o, n, PhaseOf(l.steps, n));
    hide Put, Get, Names, AgentStep, ConditionUnmet, DistinctNames, Decide;
  }

  /** There are steps left, and each depends on a failed one, which continueOnError would not mind. */
  ghost predicate FailedAhead(spec: Spec, ss: seq<StepStatus>) {
    && spec.strategy != ContinueOnError
    && (exists n :: Unfinished(spec, ss, n))
    && forall n :: Unfinished(spec, ss, n) ==> Blocked(spec, ss, n)
  }

  /** What may keep an unhindered reconcile from moving a running workflow on, its status
      synced: an unfinished step is active, the parallelism limit is reached, all steps are
      finished but one was denied, or failed steps block all that are left. */
  ghost predicate Waits(spec: Spec, t: State) {
    var ss := t.run.stepStatuses;
    || (exists n :: Unfinished(spec, ss, n) && IsActive(ss, t.jobs, n))
    || |ActiveJobs(t.jobs)| >= Parallelism(spec)
    || (AllFinished(spec, ss) && !NoneDenied(ss))
    || FailedAhead(spec, ss)
  }

  /** An unhindered reconcile of a running workflow, whatever its strategy and its jobs,
      moves a step, ends the run, or finds a reason to wait. */
  lemma UnhinderedProgress(spec: Spec, order: seq<string>, s: State, o: Observation)
    requires TopologicalOrder(spec.steps, order) && DistinctNames(spec.steps)
    requires Inv(spec, s) && s.run.phase == RunRunning && Smooth(s, o)
    ensures var s' := Reconcile(spec, s, o);
            || Moved(spec.steps, s.run.stepStatuses, s'.run.stepStatuses)
            || s'.run.phase != RunRunning
            || Waits(spec, Synced(spec, s, o.early))
  {
    var t := Synced(spec, s, o.early);
    assert Live(spec, s) && s.run.started;
    SmoothDrives(spec, s, o);
    hide Inv, Live, Synced, Drive, Reconcile, Moved, TopologicalOrder, Waits, Smooth;
    if t.run.stepStatuses != s.run.stepStatuses {
      SyncMoves(spec, s, o);
    } else {
      SyncUntouched(spec, s, o.early);
      if Drive(spec, s, o).run.phase == RunRunning && !Waits(spec, s) {
        SomethingLeft(spec, s, o);
        DriveStarts(spec, s, o);
        StartMoves(spec, order, s, o);
      }
    }
  }

  lemma SmoothDrives(spec: Spec, s: State, o: Observation)
    requires s.run.phase == RunRunning && s.run.started && Smooth(s, o)
    ensures Reconcile(spec, s, o) == Drive(spec, s, o)
  {
    hide Drive;
    assert s.(run := s.run) == s;
  }

  lemma DriveStarts(spec: Spec, s: State, o: Observation)
    requires DistinctNames(spec.steps) && Live(spec, s) && Synced(spec, s, o.early) == s
    requires s.run.phase == RunRunning && Drive(spec, s, o).run.phase == RunRunning
    ensures Drive(spec, s, o) == StartSteps(spec, s, s, o)
  {
    if s.run.completedSteps + s.run.failedSteps >= s.run.totalSteps { FinishTellsTruth(spec, s); }
    hide Live, Synced, StartSteps, FinishRun;
  }

  /** A run that goes on without a reason to wait has a step left. */
  lemma SomethingLeft(spec: Spec, s: State, o: Observation)
    requires DistinctNames(spec.steps) && Live(spec, s) && Synced(spec, s, o.early) == s && !Waits(spec, s)
    requires s.run.phase == RunRunning && Drive(spec, s, o).run.phase == RunRunning
    ensures !AllFinished(spec, s.run.stepStatuses)
  {
    CompletionExactly(spec, s);
    if s.run.completedSteps + s.run.failedSteps >= s.run.totalSteps { FinishTellsTruth(spec, s); }
    hide Live, Synced, StartSteps, FinishRun, NoneDenied, AllFinished, FailedAhead, Unfinished;
  }

  /** With no reason to wait the start loop moves a step. */
  lemma StartMoves(spec: Spec, order: seq<string>, s: State, o: Observation)
    requires TopologicalOrder(spec.steps, order) && DistinctNames(spec.steps) && Live(spec, s) && Smooth(s, o)
    requires !Waits(spec, s) && !AllFinished(spec, s.run.stepStatuses)
    ensures Moved(spec.steps, s.run.stepStatuses, StartSteps(spec, s, s, o).run.stepStatuses)
  {
    var ss := s.run.stepStatuses;
    var first := SomeExecutable(spec, order, s);
    assert LiveTable(spec, ss) && |ActiveJobs(s.jobs)| < Parallelism(spec);
    hide Live, LiveTable, Executable, StartAll, TopologicalOrder, SameStage, Get, Waits, DistinctNames;
    var names := Executable(spec, spec.steps, ss, s.jobs);
    ExecutableDistinct(spec, spec.steps, ss, s.jobs);
    ExecutableStartable(spec, ss, s.jobs, first);
    var l := LaunchOf(s, ss != ss);
    FirstMoves(spec, o, s, l, names);
    assert StartSteps(spec, s, s, o).run.stepStatuses == StartAll(spec, o, l, names).steps;
    MovedAt(spec.steps, ss, StartAll(spec, o, l, names).steps, first);
  }

  lemma SomeExecutable(spec: Spec, order: seq<string>, s: State) returns (first: string)
    requires TopologicalOrder(spec.steps, order) && !Waits(spec, s) && !AllFinished(spec, s.run.stepStatuses)
    ensures var names := Executable(spec, spec.steps, s.run.stepStatuses, s.jobs); names != [] && first == names[0]
  {
    var ss := s.run.stepStatuses;
    var names := Executable(spec, spec.steps, ss, s.jobs);
    hide Executable, Blocked, TopologicalOrder;
    var x :| x in Names(spec.steps) && !IsFinished(PhaseOf(ss, x));
    assert Unfinished(spec, ss, x);
    var n :| Unfinished(spec, ss, n) && (spec.strategy == ContinueOnError || !Blocked(spec, ss, n));
    if names == [] {
      assert Stuck(spec, ss, s.jobs);
      StuckAnywhere(spec, order, ss, s.jobs, n);
    }
    first := names[0];
  }

  lemma StuckAnywhere(spec: Spec, order: seq<string>, ss: seq<StepStatus>, jobs: map<string, Job>, n: string)
    requires TopologicalOrder(spec.steps, order) && Stuck(spec, ss, jobs) && Unfinished(spec, ss, n)
    ensures spec.strategy != ContinueOnError && Blocked(spec, ss, n)
  {
    assert n in Elements(order);
    var k :| 0 <= k < |order| && order[k] == n;
    StuckIsBlocked(spec, order, ss, jobs, k);
  }

  // ---------------------------------------------------------------- termination

  /** An unhindered reconcile, with no reason to wait, that leaves the run running. */
  ghost predicate PushedBy(spec: Spec, a: State, b: State, o: Observation) {
    && a.run.phase == RunRunning && Smooth(a, o) && !Waits(spec, Synced(spec, a, o.early))
    && b == Reconcile(spec, a, o) && b.run.phase == RunRunning
  }

  ghost predicate Pushed(spec: Spec, a: State, b: State) {
    exists o :: PushedBy(spec, a, b, o)
  }

  /** How many transitions of a run are of that kind. */
  ghost function Pushes(spec: Spec, tr: seq<State>): nat {
    if |tr| < 2 then 0
    else Pushes(spec, tr[..|tr| - 1]) + if Pushed(spec, tr[|tr| - 2], tr[|tr| - 1]) then 1 else 0
  }

  lemma {:induction false} MovedCounts(steps: seq<StepSpec>, ss: seq<StepStatus>, ss': seq<StepStatus>)
    requires Moved(steps, ss, ss')
    ensures StageChanges(steps, ss, ss') > 0
  {
    hide Get, SameStage;
    var i :| 0 <= i < |steps| && !SameStage(Get(ss, steps[i].name), Get(ss', steps[i].name));
    if i > 0 {
      assert steps[1..][i - 1] == steps[i];
      MovedCounts(steps[1..], ss, ss');
    }
  }

  lemma PushMoves(spec: Spec, order: seq<string>, a: State, b: State)
    requires TopologicalOrder(spec.steps, order) && DistinctNames(spec.steps) && Inv(spec, a) && Pushed(spec, a, b)
    ensures StageChanges(spec.steps, a.run.stepStatuses, b.run.stepStatuses) > 0
  {
    hide Inv, Reconcile, Synced, Smooth, Waits, Moved, StageChanges, TopologicalOrder, DistinctNames;
    var o :| PushedBy(spec, a, b, o);
    UnhinderedProgress(spec, order, a, o);
    MovedCounts(spec.steps, a.run.stepStatuses, b.run.stepStatuses);
  }

  lemma {:induction false} PushesAreMoves(spec: Spec, order: seq<string>, tr: seq<State>)
    requires TopologicalOrder(spec.steps, order) && DistinctNames(spec.steps) && IsRun(spec, tr)
    ensures Pushes(spec, tr) <= Moves(spec, tr)
    decreases |tr|
  {
    hide Inv, Next, Pushed, StageChanges, TopologicalOrder, DistinctNames;
    if |tr| >= 2 {
      RunPrefix(spec, tr);
      PushesAreMoves(spec, order, tr[..|tr| - 1]);
      Safety(spec, tr, |tr| - 2);
      if Pushed(spec, tr[|tr| - 2], tr[|tr| - 1]) { PushMoves(spec, order, tr[|tr| - 2], tr[|tr| - 1]); }
    }
  }

  /** Termination: a run of an admitted workflow survives only so many unhindered reconciles
      that find no reason to wait, whatever else happens in between. */
  lemma PushesBounded(spec: Spec, order: seq<string>, tr: seq<State>)
    requires TopologicalOrder(spec.steps, order) && DistinctNames(spec.steps) && IsRun(spec, tr)
    ensures Pushes(spec, tr) <= Budget(spec, spec.steps)
  {
    PushesAreMoves(spec, order, tr);
    MovesBounded(spec, tr);
  }

  // ---------------------------------------------------------------- idle runs

  /** No step is running, and the jobs still listed belong to finished steps. */
  ghost predicate Idle(s: State) {
    var ss := s.run.stepStatuses;
    (forall n :: PhaseOf(ss, n) != Running) && forall n :: n in s.jobs ==> IsFinished(PhaseOf(ss, n))
  }

  /** An idle run with unfinished steps and room for a job does move on, under
      continueOnError or as long as no step has failed. */
  lemma IdleRunMoves(spec: Spec, order: seq<string>, s: State, o: Observation, n: string)
    requires TopologicalOrder(spec.steps, order) && DistinctNames(spec.steps)
    requires Inv(spec, s) && s.run.phase == RunRunning && Smooth(s, o) && Idle(s)
    requires |ActiveJobs(s.jobs)| < Parallelism(spec) && Unfinished(spec, s.run.stepStatuses, n)
    requires spec.strategy == ContinueOnError || forall m :: PhaseOf(s.run.stepStatuses, m) != Failed
    ensures Moved(spec.steps, s.run.stepStatuses, Reconcile(spec, s, o).run.stepStatuses)
  {
    IdleSync(spec, s, o.early);
    UnhinderedProgress(spec, order, s, o);
    IdleStays(spec, s, o, n);
    hide Inv, Synced, Reconcile, Moved, TopologicalOrder, DistinctNames, Smooth;
  }

  lemma IdleSync(spec: Spec, s: State, early: set<string>)
    requires Idle(s) && DistinctNames(spec.steps) && Inv(spec, s) && s.run.phase == RunRunning
    ensures Synced(spec, s, early) == s
  {
    var ss := s.run.stepStatuses;
    var sw := SyncJobs(spec, s.jobs, early);
    assert Distinct(EntryNames(ss));
    hide Inv, Synced, Distinct;
    forall i | 0 <= i < |ss| ensures sw.Apply(ss[i]) == ss[i] {
      GetAt(ss, i);
      assert PhaseOf(ss, ss[i].name) != Running;
    }
    SweepIdle(sw, ss);
    SyncedTable(spec, s, early);
    SyncUntouched(spec, s, early);
  }

  /** Such a run is neither complete nor failing. */
  lemma IdleStays(spec: Spec, s: State, o: Observation, n: string)
    requires DistinctNames(spec.steps) && Inv(spec, s) && s.run.phase == RunRunning && Smooth(s, o)
    requires Synced(spec, s, o.early) == s && Unfinished(spec, s.run.stepStatuses, n)
    requires spec.strategy == ContinueOnError || forall m :: PhaseOf(s.run.stepStatuses, m) != Failed
    ensures Reconcile(spec, s, o).run.phase == RunRunning
  {
    assert Live(spec, s) && s.run.started;
    SmoothDrives(spec, s, o);
    NotComplete(spec, s, n);
    if spec.strategy != ContinueOnError { NoFailures(spec, s); }
    hide Inv, Live, Synced, StartAll, Executable;
  }

  lemma NotComplete(spec: Spec, s: State, n: string)
    requires DistinctNames(spec.steps) && Live(spec, s) && Unfinished(spec, s.run.stepStatuses, n)
    ensures s.run.completedSteps + s.run.failedSteps < s.run.totalSteps
  {
    CompletionExactly(spec, s);
    hide Live, NoneDenied;
  }

  lemma NoFailures(spec: Spec, s: State)
    requires Live(spec, s) && forall m :: PhaseOf(s.run.stepStatuses, m) != Failed
    ensures s.run.failedSteps <= 0
  {
    var ss := s.run.stepStatuses;
    CountZeroByName(FailedTally, ss);
    forall m ensures !Tallied(FailedTally, ss, m) {
      assert PhaseOf(ss, m) != Failed;
    }
  }

  lemma MovedAt(steps: seq<StepSpec>, ss: seq<StepStatus>, ss': seq<StepStatus>, n: string)
    requires n in Names(steps) && !SameStage(Get(ss, n), Get(ss', n))
    ensures Moved(steps, ss, ss')
  {
    hide Get, SameStage;
    var i :| 0 <= i < |steps| && steps[i].name == n;
  }

  // ---------------------------------------------------------------- parallelism

  function AtLeastZero(x: int): nat { if x > 0 then x else 0 }

  function Open(jobs: map<string, Job>): set<string> {
    set n | n in jobs && !jobs[n].complete && !jobs[n].failed
  }

  ghost predicate LaunchWithin(spec: Spec, l: Launch, l': Launch) {
    && l.running <= l'.running
    && (l'.running > l.running ==> l'.running <= Parallelism(spec))
    && |l'.created| - |l.created| <= l'.running - l.running
    && |Open(l'.jobs)| - |Open(l.jobs)| <= l'.running - l.running
  }

  lemma OpenPlusOne(jobs: map<string, Job>, n: string, j: Job)
    ensures |Open(jobs[n := j])| <= |Open(jobs)| + 1
  {
    SubsetCard(Open(jobs[n := j]), Open(jobs) + {n});
  }

  lemma {:induction false} StartAllWithin(spec: Spec, o: Observation, l: Launch, names: seq<string>)
    ensures LaunchWithin(spec, l, StartAll(spec, o, l, names))
    decreases |names|
  {
    hide Decide, Put, Get, Open;
    if names != [] {
      OpenPlusOne(l.jobs, names[0], Job(false, false, false));
      StartAllWithin(spec, o, StartOne(spec, o, l, names[0]), names[1..]);
    }
  }

  /** One reconcile creates at most max(0, parallelism - active jobs) jobs. */
  lemma ReconcileCreatesWithin(spec: Spec, s: State, o: Observation)
    ensures var jobs := Synced(spec, s, o.early).jobs;
            var parallelism := if spec.parallelism.Some? then spec.parallelism.value else 1;
            |Reconcile(spec, s, o).created| - |s.created|
            <= AtLeastZero(parallelism - |set n | n in jobs && jobs[n].active|)
  {
    hide StartAll, Executable;
    var s0 := s.(run := Initialised(spec, s.run));
    var s1 := Synced(spec, s0, o.early);
    StartAllWithin(spec, o, LaunchOf(s1, s1.run.stepStatuses != s0.run.stepStatuses),
      Executable(spec, spec.steps, s1.run.stepStatuses, s1.jobs));
  }

  /** The controller sees every open job as active. */
  ghost predicate Observed(s: State) {
    Open(s.jobs) <= ActiveJobs(s.jobs)
  }

  /** A transition in which the environment opens no job, and reconciles see what is open. */
  ghost predicate OrderlyAt(spec: Spec, tr: seq<State>, i: int)
    requires 0 <= i < |tr| - 1
  {
    || (EnvironmentStep(tr[i], tr[i + 1]) && Open(tr[i + 1].jobs) <= Open(tr[i].jobs))
    || (Observed(tr[i]) && exists o :: tr[i + 1] == Reconcile(spec, tr[i], o))
    || (IsActivePhase(tr[i].run.phase) && tr[i + 1] == CancelledByPolicy(tr[i]))
  }

  lemma ReconcileStaysWithin(spec: Spec, s: State, o: Observation)
    requires Observed(s) && |Open(s.jobs)| <= AtLeastZero(Parallelism(spec))
    ensures |Open(Reconcile(spec, s, o).jobs)| <= AtLeastZero(Parallelism(spec))
  {
    hide StartAll, Executable, RollbackOrder;
    var s0 := s.(run := Initialised(spec, s.run));
    var s1 := Synced(spec, s0, o.early);
    SubsetCard(Open(s1.jobs), Open(s.jobs));
    SubsetCard(Open(s1.jobs), ActiveJobs(s1.jobs));
    StartAllWithin(spec, o, LaunchOf(s1, s1.run.stepStatuses != s0.run.stepStatuses),
      Executable(spec, spec.steps, s1.run.stepStatuses, s1.jobs));
    SubsetCard(Open(s1.jobs - Stoppable(s1.run.stepStatuses)), Open(s1.jobs));
  }

  lemma NothingOpen(jobs: map<string, Job>)
    requires jobs == map[]
    ensures Open(jobs) == {}
  {
  }

  /** In an orderly run the number of open jobs never exceeds the parallelism. */
  lemma {:induction false} ParallelismHolds(spec: Spec, tr: seq<State>, i: nat)
    requires IsRun(spec, tr) && i < |tr|
    requires forall k :: 0 <= k < |tr| - 1 ==> OrderlyAt(spec, tr, k)
    ensures |Open(tr[i].jobs)| <= AtLeastZero(if spec.parallelism.Some? then spec.parallelism.value else 1)
  {
    hide Reconcile, JobsKnown, Open;
    if i == 0 {
      assert Open(tr[0].jobs) == {} by { NothingOpen(tr[0].jobs); }
    } else {
      ParallelismHolds(spec, tr, i - 1);
      assert OrderlyAt(spec, tr, i - 1);
      var a, b := tr[i - 1], tr[i];
      if EnvironmentStep(a, b) && Open(b.jobs) <= Open(a.jobs) {
        SubsetCard(Open(b.jobs), Open(a.jobs));
      } else if b == CancelledByPolicy(a) {
        NothingOpen(b.jobs);
      } else {
        var o :| b == Reconcile(spec, a, o);
        ReconcileStaysWithin(spec, a, o);
      }
    }
  }
}
