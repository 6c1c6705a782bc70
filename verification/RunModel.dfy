/** The state of one workflow run and one reconcile of it as a function: what the
    controller's loops compute, with everything the environment decides (job
    outcomes, annotations, time, API failures) in one observation. */
module RunModel {
  import opened StepGraph

  datatype StepPhase = Unset | Pending | Running | Succeeded | Failed | Skipped | RollingBack | RolledBack

  datatype RunPhase =
    | RunNew | RunPending | RunRunning | RunRollingBack
    | RunSucceeded | RunCompletedWithErrors | RunFailed | RunCancelled

  datatype Strategy = FailFast | ContinueOnError | Rollback | Stop | Continue | NoStrategy

  /** Which branch wrote StepStatus.Error last. */
  datatype StepError = NoError | DeniedByUser | AwaitingApproval | JobError

  /** StepStatus.JobName: empty, the step's job, or its rollback job. */
  datatype JobRef = NoJob | StepJob | RollbackJob

  datatype StepStatus = StepStatus(
    name: string, phase: StepPhase, jobName: JobRef, retryCount: nat, error: StepError, hasCompletionTime: bool)

  datatype Job = Job(active: bool, complete: bool, failed: bool)

  datatype Spec = Spec(steps: seq<StepSpec>, strategy: Strategy, parallelism: Option<int>)

  datatype Run = Run(
    phase: RunPhase, hasRunId: bool, started: bool,
    totalSteps: int, completedSteps: int, failedSteps: int,
    stepStatuses: seq<StepStatus>)

  /** A run with the step jobs of its cluster, indexed by step, and the log of what the
      controller asked the API server to create: step jobs that were created, and
      rollback jobs in the order they were requested. */
  datatype State = State(run: Run, jobs: map<string, Job>, created: multiset<string>, rollbacks: seq<string>)

  datatype AgentLookup = AllFound | SomeNotFound | LookupFailed

  datatype Observation = Observation(
    template: bool, cancelled: bool, timedOut: bool, blocked: bool,
    agents: AgentLookup, listFailed: bool,
    early: set<string>, conditionMet: set<string>,
    approvalRequired: set<string>, approved: set<string>, denied: set<string>,
    createFailed: set<string>, alreadyExists: set<string>,
    rollbackBusy: set<string>)

  // ---------------------------------------------------------------- step statuses as a table

  function Fresh(n: string): StepStatus {
    StepStatus(n, Unset, NoJob, 0, NoError, false)
  }

  function EntryNames(ss: seq<StepStatus>): seq<string> {
    if ss == [] then [] else [ss[0].name] + EntryNames(ss[1..])
  }

  predicate Has(ss: seq<StepStatus>, n: string) {
    n in EntryNames(ss)
  }

  /** The entry of n, or what a step without an entry amounts to. */
  function Get(ss: seq<StepStatus>, n: string): (e: StepStatus)
    ensures e.name == n
  {
    if ss == [] then Fresh(n) else if ss[0].name == n then ss[0] else Get(ss[1..], n)
  }

  function PhaseOf(ss: seq<StepStatus>, n: string): StepPhase {
    Get(ss, n).phase
  }

  /** Overwrite the entry of e.name, appending it if there is none. */
  function Put(ss: seq<StepStatus>, e: StepStatus): seq<StepStatus> {
    if ss == [] then [e]
    else if ss[0].name == e.name then [e] + ss[1..]
    else [ss[0]] + Put(ss[1..], e)
  }

  // ---------------------------------------------------------------- phases

  predicate IsDone(p: StepPhase) { p == Succeeded || p == Skipped }

  predicate IsFinished(p: StepPhase) { IsDone(p) || p == Failed }

  predicate IsTerminal(p: RunPhase) {
    p == RunSucceeded || p == RunCompletedWithErrors || p == RunFailed || p == RunCancelled
  }

  predicate IsActivePhase(p: RunPhase) { p == RunRunning || p == RunPending }

  function MaxRetries(spec: Spec, n: string): int {
    match FindStep(spec.steps, n)
    case None => 0
    case Some(s) => if s.retryPolicy.None? then 0 else s.retryPolicy.value
  }

  predicate HasAgent(spec: Spec, n: string) {
    var s := FindStep(spec.steps, n);
    s.Some? && s.value.agentRef != ""
  }

  function Parallelism(spec: Spec): int {
    if spec.parallelism.Some? then spec.parallelism.value else 1
  }

  function CompletionPhase(completed: int, failed: int, strategy: Strategy): RunPhase {
    if failed == 0 then RunSucceeded
    else if completed == 0 then RunFailed
    else if strategy == ContinueOnError then RunCompletedWithErrors
    else RunFailed
  }

  // ---------------------------------------------------------------- sweeps over all entries

  /** The loops that rewrite every entry by a rule of its own. */
  datatype Sweep =
    | SyncJobs(spec: Spec, jobs: map<string, Job>, early: set<string>)
    | SkipUnfinished
    | CancelUnfinished
    | StartRollback(spec: Spec)
    | CheckRollback(busy: set<string>)
    | ForceSucceeded
  {
    function Apply(e: StepStatus): (r: StepStatus)
      ensures r.name == e.name
    {
      match this
      case SyncJobs(spec, jobs, early) =>
        if e.phase != Running || e.name !in jobs then e
        else if jobs[e.name].complete then e.(phase := Succeeded, hasCompletionTime := true)
        else if !jobs[e.name].failed then e
        else if e.retryCount < MaxRetries(spec, e.name) then
          if e.hasCompletionTime && e.name in early then e
          else e.(retryCount := e.retryCount + 1, phase := Unset, hasCompletionTime := false)
        else e.(phase := Failed, hasCompletionTime := true, error := JobError)
      case SkipUnfinished =>
        if e.phase == Running || e.phase == Unset || e.phase == Pending then e.(phase := Skipped) else e
      case CancelUnfinished =>
        if e.phase == Running || e.phase == Unset then e.(phase := Skipped) else e
      case StartRollback(spec) =>
        if e.phase == Succeeded then
          if HasAgent(spec, e.name) then e.(phase := RollingBack, jobName := RollbackJob) else e.(phase := RolledBack)
        else if e.phase == Running || e.phase == Unset || e.phase == Pending then e.(phase := Skipped)
        else e
      case CheckRollback(busy) =>
        if e.phase == RollingBack && (e.jobName == NoJob || e.name !in busy) then e.(phase := RolledBack) else e
      case ForceSucceeded =>
        if e.phase == Running || e.phase == Unset then e.(phase := Succeeded, hasCompletionTime := true) else e
    }

    function All(ss: seq<StepStatus>): (r: seq<StepStatus>)
      ensures |r| == |ss| && forall i :: 0 <= i < |ss| ==> r[i] == Apply(ss[i])
    {
      if ss == [] then [] else [Apply(ss[0])] + All(ss[1..])
    }
  }

  /** A failed job is retried: its entry's retry count goes up. */
  predicate Retried(spec: Spec, ss: seq<StepStatus>, jobs: map<string, Job>, early: set<string>, n: string) {
    SyncJobs(spec, jobs, early).Apply(Get(ss, n)).retryCount > Get(ss, n).retryCount
  }

  datatype Tally = DoneTally | FailedTally | DeniedTally | SucceededTally | OpenTally | UnfinishedTally

  predicate Counts(t: Tally, e: StepStatus) {
    match t
    case DoneTally => IsDone(e.phase)
    case FailedTally => e.phase == Failed
    case DeniedTally => e.phase == Failed && e.error == DeniedByUser
    case SucceededTally => e.phase == Succeeded
    case OpenTally => e.phase == Running || e.phase == Unset
    case UnfinishedTally => e.phase == Running || e.phase == Unset || e.phase == Pending
  }

  function One(t: Tally, e: StepStatus): nat { if Counts(t, e) then 1 else 0 }

  function Count(t: Tally, ss: seq<StepStatus>): nat {
    if ss == [] then 0 else One(t, ss[0]) + Count(t, ss[1..])
  }

  // ---------------------------------------------------------------- starting steps

  predicate DepReady(strategy: Strategy, p: StepPhase) {
    if strategy == ContinueOnError then IsFinished(p) else IsDone(p)
  }

  predicate CanStart(spec: Spec, ss: seq<StepStatus>, jobs: map<string, Job>, s: StepSpec) {
    && !IsFinished(PhaseOf(ss, s.name))
    && PhaseOf(ss, s.name) != Running
    && s.name !in jobs
    && forall d :: d in s.dependsOn ==> DepReady(spec.strategy, PhaseOf(ss, d))
  }

  /** findExecutableSteps over a part of the step list, in spec order. */
  function Executable(spec: Spec, steps: seq<StepSpec>, ss: seq<StepStatus>, jobs: map<string, Job>): seq<string> {
    if steps == [] then []
    else (if CanStart(spec, ss, jobs, steps[0]) then [steps[0].name] else []) + Executable(spec, steps[1..], ss, jobs)
  }

  /** The variables of the start loop. */
  datatype Launch = Launch(
    steps: seq<StepStatus>, completed: int, running: int,
    jobs: map<string, Job>, created: multiset<string>, changed: bool)

  datatype Decision = LeaveOut | Skip | AutoComplete | Deny | Await | Create

  /** The branch one executable step takes; `at` is its entry's phase. */
  function Decide(spec: Spec, o: Observation, n: string, at: StepPhase): Decision {
    match FindStep(spec.steps, n)
    case None => LeaveOut
    case Some(s) =>
      if s.hasCondition && n !in o.conditionMet then Skip
      else if s.agentRef == "" then AutoComplete
      else if n in o.approvalRequired && at != Running then
        if n in o.denied then Deny else if n !in o.approved then Await else Create
      else Create
  }

  function CreateJob(o: Observation, l: Launch, n: string): Launch {
    if n in o.createFailed then l
    else
      var e := Get(l.steps, n).(phase := Running, jobName := StepJob);
      var started := l.(steps := Put(l.steps, e), running := l.running + 1, changed := true);
      if n in o.alreadyExists then started
      else started.(jobs := l.jobs[n := Job(false, false, false)], created := l.created + multiset{n})
  }

  /** One turn of the start loop, with its parallelism break. */
  function StartOne(spec: Spec, o: Observation, l: Launch, n: string): Launch {
    var e := Get(l.steps, n);
    if l.running >= Parallelism(spec) then l
    else match Decide(spec, o, n, e.phase)
      case LeaveOut => l
      case Skip =>
        l.(steps := Put(l.steps, e.(phase := Skipped, hasCompletionTime := true)),
           completed := l.completed + 1, changed := true)
      case AutoComplete =>
        l.(steps := Put(l.steps, e.(phase := Succeeded, hasCompletionTime := true)),
           completed := l.completed + 1, changed := true)
      case Deny => l.(steps := Put(l.steps, e.(phase := Failed, error := DeniedByUser)), changed := true)
      case Await => l.(steps := Put(l.steps, e.(phase := Pending, error := AwaitingApproval)), changed := true)
      case Create =>
        // the approval check makes sure there is an entry even if creation then fails
        CreateJob(o, if n in o.approvalRequired then l.(steps := Put(l.steps, e)) else l, n)
  }

  function StartAll(spec: Spec, o: Observation, l: Launch, names: seq<string>): Launch
    decreases |names|
  {
    if names == [] then l else StartAll(spec, o, StartOne(spec, o, l, names[0]), names[1..])
  }

  function ActiveJobs(jobs: map<string, Job>): set<string> {
    set n | n in jobs && jobs[n].active
  }

  // ---------------------------------------------------------------- one reconcile

  function Initialised(spec: Spec, r: Run): Run {
    if r.phase == RunNew then
      r.(phase := RunPending, totalSteps := |spec.steps|, completedSteps := 0, failedSteps := 0, started := true)
    else r
  }

  function MonitorRollback(s: State, o: Observation): State {
    var ss := CheckRollback(o.rollbackBusy).All(s.run.stepStatuses);
    var over := forall i :: 0 <= i < |ss| ==> ss[i].phase != RollingBack;
    s.(run := s.run.(stepStatuses := ss, phase := if over then RunFailed else s.run.phase))
  }

  function CancelRun(s: State): State {
    s.(run := s.run.(stepStatuses := CancelUnfinished.All(s.run.stepStatuses), phase := RunCancelled), jobs := map[])
  }

  /** What the replace policy of another run's reconcile does to an active run. */
  function CancelledByPolicy(s: State): State {
    s.(run := s.run.(phase := RunCancelled), jobs := map[])
  }

  /** Steps whose job is stopped under failFast; finished steps keep theirs. */
  function Stoppable(ss: seq<StepStatus>): set<string> {
    set i | 0 <= i < |ss| && ss[i].phase in {Running, Pending, Unset} && ss[i].jobName != NoJob :: ss[i].name
  }

  /** Succeeded agent steps, last first: the order rollback jobs are requested in. */
  function RollbackOrder(spec: Spec, ss: seq<StepStatus>): seq<string> {
    if ss == [] then []
    else
      RollbackOrder(spec, ss[1..]) +
      if ss[0].phase == Succeeded && HasAgent(spec, ss[0].name) then [ss[0].name] else []
  }

  function Synced(spec: Spec, s: State, early: set<string>): State {
    var ss := s.run.stepStatuses;
    var ss' := SyncJobs(spec, s.jobs, early).All(ss);
    s.(run := s.run.(stepStatuses := ss',
                     completedSteps := s.run.completedSteps + Count(DoneTally, ss') - Count(DoneTally, ss),
                     failedSteps := s.run.failedSteps + Count(FailedTally, ss') - Count(FailedTally, ss)),
       jobs := map n | n in s.jobs && !Retried(spec, ss, s.jobs, early, n) :: s.jobs[n])
  }

  function FinishRun(spec: Spec, s: State): State {
    s.(run := s.run.(stepStatuses := ForceSucceeded.All(s.run.stepStatuses),
                     phase := CompletionPhase(s.run.completedSteps, s.run.failedSteps, spec.strategy)))
  }

  function LaunchOf(s: State, changed: bool): Launch {
    Launch(s.run.stepStatuses, s.run.completedSteps, |ActiveJobs(s.jobs)|, s.jobs, s.created, changed)
  }

  /** Start what can start; s0 is the state last written, s the synced one. */
  function StartSteps(spec: Spec, s0: State, s: State, o: Observation): State {
    var names := Executable(spec, spec.steps, s.run.stepStatuses, s.jobs);
    var l := StartAll(spec, o, LaunchOf(s, s.run.stepStatuses != s0.run.stepStatuses), names);
    if l.changed || s.run.phase == RunPending then
      State(s.run.(stepStatuses := l.steps, completedSteps := l.completed, phase := RunRunning), l.jobs, l.created,
        s.rollbacks)
    else s0
  }

  /** From the job sync to the end. */
  function Drive(spec: Spec, s0: State, o: Observation): State {
    var s := Synced(spec, s0, o.early);
    var ss := s.run.stepStatuses;
    if s.run.failedSteps > 0 && spec.strategy == FailFast then
      s.(run := s.run.(stepStatuses := SkipUnfinished.All(ss), phase := RunFailed), jobs := s.jobs - Stoppable(ss))
    else if s.run.failedSteps > 0 && spec.strategy == Rollback then
      State(s.run.(stepStatuses := StartRollback(spec).All(ss), phase := RunRollingBack), map[], s.created,
            s.rollbacks + RollbackOrder(spec, ss))
    else if s.run.failedSteps > 0 && spec.strategy == Stop then
      s.(run := s.run.(stepStatuses := SkipUnfinished.All(ss), phase := RunFailed), jobs := map[])
    else if s.run.completedSteps + s.run.failedSteps >= s.run.totalSteps then FinishRun(spec, s)
    else StartSteps(spec, s0, s, o)
  }

  /** Past the gates: initialise, give the run an id, look up its agents, drive it. */
  function Proceed(spec: Spec, s: State, o: Observation): State {
    if !s.run.hasRunId then s.(run := s.run.(hasRunId := true))
    else if o.agents == LookupFailed then s
    else
      var s1 := s.(run := Initialised(spec, s.run));
      if o.agents == SomeNotFound then s1.(run := s1.run.(phase := RunFailed))
      else if o.listFailed then s
      else Drive(spec, s1, o)
  }

  function Reconcile(spec: Spec, s: State, o: Observation): State {
    if IsTerminal(s.run.phase) || o.template then s
    else if s.run.phase == RunRollingBack then MonitorRollback(s, o)
    else if o.cancelled then CancelRun(s)
    else if s.run.started && s.run.phase == RunRunning && o.timedOut then
      s.(run := s.run.(phase := RunFailed), jobs := map[])
    else if s.run.phase == RunNew && o.blocked then s
    else Proceed(spec, s, o)
  }
}
