# Verified model of the workflow operator

Dafny models of the four pieces of logic this repository rests on, each with the
laws it is there for:

1. **Admission and the workflow engine.** The webhook accepts a DAG of steps; the
   controller then drives it, one reconcile at a time, while jobs finish, fail, vanish
   or reappear, people approve, deny or cancel, time passes and API calls go wrong.
2. **The memory store.** A table with a trigger-maintained full-text index, retention per
   scope, recall under a budget, a query sanitiser, UTF-8-safe truncation, and timestamps
   compared as strings.
3. **The executor's ReAct loop** against an arbitrary model and arbitrary tools.
4. **The dashboard's DAG layering**, a memoised recursion that relies on the acyclicity
   the webhook enforces.

## How the files fit together

| file | contents |
|---|---|
| `StepGraph.dfy` | steps, dependencies, paths, cycles, topological orders |
| `Admission.dfy` | Kahn's algorithm and the webhook's verdict |
| `DagLayout.dfy` | the layering, against an independent definition by longest chains |
| `RunModel.dfy` | the status of a run and one reconcile of it as a function of what is observed |
| `StatusTable.dfy` | laws of the step-status table: read, overwrite, sweep, count |
| `RunSafety.dfy`, `RunInvariant.dfy` | the invariant, its preservation, its meaning over every run |
| `RunEffects.dfy` | what the job sync and the start loop do to one step, told by its settings, job and approvals |
| `RunOutcome.dfy` | what a whole reconcile does: the run's phase, every step, every job, and why |
| `RunCounters.dfy` | when the completed count of a status is exact, ending by ending |
| `RunProgress.dfy` | a termination measure, deadlock, hanging runs, termination, parallelism |
| `RunWitnesses.dfy` | reachable runs in which the engine miscounts or hangs |
| `Concurrency.dfy` | many runs of one template, interleaved |
| `Reconciler.dfy` | the controller's loops as a class with mutable state, refining `RunModel` and `Concurrency` |
| `Utf8.dfy`, `FtsQuery.dfy`, `Timestamps.dfy` | text on the way into and out of the store |
| `MemoryTable.dfy`, `MemoryScope.dfy`, `MemoryStore.dfy` | rows and index, pool keys, the store as a class and its histories |
| `ReactLoop.dfy` | conversations and the loop that extends them |

The controller, the store, the executor and the layout object are classes whose methods
change fields in loops, as in the source. Each method is proved equal to a specification
function or relation; the laws are lemmas about that specification, so they hold of the
loops.

## Assumptions of the workflow engine

- The spec does not change after the first reconcile. Reconciles of one workflow are
  serialised and see the latest writes; status writes succeed; only the controller
  writes the status. The phase `RollingBack` can be written (the CRD's list of phases,
  crds/workflow.crd.yaml:380-386, lacks it).
- Everything a reconcile reads from outside is one `Observation`: annotations, which
  agents exist, which conditions hold, which job creations fail or find the job already
  there, whether the run has timed out, which rollback jobs are still busy.
- Between reconciles the environment may do anything to the jobs that some status
  entry points to, and may set or drop the run id (`RunInvariant.EnvironmentStep`); the
  reconcile of another run may cancel this one under the replace policy.
- Maps are iterated in an arbitrary order.

## Where the code does not do what its comments or callers expect

The models follow the code. These are proved, not merely noted:

- **A denied step is failed but not counted** in `failedSteps`
  (controllers/workflow_controller.go:604-609). So the completion test holds exactly
  when all steps are finished *and none was denied* (`CompletionExactly`), and a run whose
  steps are all finished, one of them denied, is never completed: every reconcile leaves it
  unchanged until it is cancelled, times out or loses an agent, unless a counted failure under
  failFast, stop or rollback ends it (`DeniedRunHangs`). `DeniedRunReached` is such a run.
- **`completedSteps` is wrong after most bad endings.** `failedSteps` and the denied steps
  always make up the failed ones, in every phase (`CountersHold`). `completedSteps` is exact
  while a run is driven and after it completes, but failFast, stop, rollback and cancel rewrite
  entries without it (controllers/workflow_controller.go:150-154, 361-365, 425-465, 475-479).
  `FailFastMiscounts` is such a run, and `CompletedCountExactly` gives the condition: under
  failFast or stop it stays exact if and only if no entry of the synced status is Running, unset
  or Pending; under cancel if and only if none is Running or unset; under rollback if and only
  if as many entries had succeeded as were unfinished. Every other reconcile keeps it, timeout,
  completion and a missing agent included.
- **The retry back-off never waits** (controllers/workflow_controller.go:323-328): a
  running step has no completion time (`BackoffNeverWaits`).
- **A WF-006 warning ends the review** (webhooks/validating_webhook.go:311-315): the checks
  after it are skipped, and `Handle` says exactly what is then admitted (`WarningSkipsChecks`
  is an example).
- **A step named like a member of every JavaScript object** (`constructor`, `toString`, ...)
  passes admission but breaks the layering: `depth = {}` answers to the name. The layout
  shows every step exactly when no step has such a name (`BuildDAGGroups`,
  `InheritedNameIsAdmissible`).
- **A model error that prints as the empty string exits 0** (executor/executor.py:964-968,
  1388-1394): `FailureExits` gives the exact condition.
- **String order is not time order within a second**: it is exactly when neither trimmed
  fraction is a prefix of the other (`SubSecondExactly`); a whole-second timestamp sorts
  after every other of its second (`WholeSecondSortsLast`).
- **A cancelled run keeps its waiting steps `Pending`** (controllers/workflow_controller.go:150-154):
  they are exactly its unfinished entries (`CancelLeavesPending`).
- **The phase `Pending` never reaches the API server**, since the pass that initialises the
  status only stores the run id (controllers/workflow_controller.go:200-223): the invariant of
  `Safety` says so.

## Model

| member | source | states |
|---|---|---|
| Admission.DetectCycles | webhooks/validating_webhook.go:383-421 | accepts exactly the lists with distinct names, resolvable dependencies and no cycle, for any iteration order and with repeated dependencies; acceptance has a topological order, a rejection of distinct, resolvable names has an actual cycle |
| Admission.BuildGraph | webhooks/validating_webhook.go:384-395 | the in-degree map counts each step's dependency entries with repetitions, the adjacency map lists every edge as often as it occurs |
| Admission.SeedQueue | webhooks/validating_webhook.go:397-402 | whatever the map order, the queue starts with exactly the in-degree-zero names, each once |
| Admission.Visit | webhooks/validating_webhook.go:409-414 | lowering the neighbours keeps in-degrees equal to the number of unvisited dependency entries and the queue equal to the zeroes not yet visited |
| Admission.StuckMeansCycle | webhooks/validating_webhook.go:417-419 | when the queue runs dry early over distinct, resolved names there is a cycle |
| StepGraph.OrderMeansAcyclic | webhooks/validating_webhook.go:417-420 | a list that has a topological order has no dependency cycle of any length |
| StepGraph.WalkFindsCycle | webhooks/validating_webhook.go:417-419 | walking inside a set of names each needing another of the set ends in a cycle |
| Admission.CheckNames | webhooks/validating_webhook.go:231-247 | no denial exactly when names are non-empty and distinct and every step has an agent or a type; a denial names the fault of the first step at fault |
| Admission.CheckDependencies | webhooks/validating_webhook.go:249-261 | no denial exactly when every dependency is a step and none is the step itself; a denial names the fault of the first dependency at fault |
| Admission.CheckTail | webhooks/validating_webhook.go:323-377 | no denial exactly when conditions are well formed, timeouts are not negative and the strategy is known; a denial names the first of these that fails |
| Admission.Handle | webhooks/validating_webhook.go:213-380 | the verdict, exactly: allowed, allowed with the WF-006 warning (later checks skipped), or denied with the rule of the first fault in the webhook's order; WF-004 is issued exactly when the structural checks pass and there is a cycle; whatever is admitted has a topological order |
| Admission.WarningSkipsChecks | webhooks/validating_webhook.go:300-321 | a workflow with an overlong step and an unknown strategy is admitted with the warning |
| DagLayout.BuildDAGGroups | dashboard/static/app.js:200-217 | on an admitted workflow the groups hold every step exactly once if and only if no step bears a name every object answers to; then group k holds the steps whose longest chain has k edges, no group empty; within a group steps keep the order of the list |
| DagLayout.Layout.GetDepth | dashboard/static/app.js:202-210 | the memoised recursion terminates on a ranked graph and returns the length of the longest chain, or no number exactly when an inherited name is reached; the memo stays sound and only grows by reached names |
| DagLayout.Layout.MaxDepth | dashboard/static/app.js:212 | the largest stored depth, no number as soon as one entry is none |
| DagLayout.Layout.FillDepths | dashboard/static/app.js:211 | afterwards the memo holds the true depth of every step whose name it can hold |
| DagLayout.Layout.GroupByDepth | dashboard/static/app.js:213-216 | the groups together are the steps of depth at most the maximum, and on clean resolved graphs level k is group k |
| DagLayout.Layout.BuildGroups | dashboard/static/app.js:200-217 | for any terminating graph: every step is shown exactly once if and only if no step reaches an inherited name |
| DagLayout.Graph.MaxIsDepth | dashboard/static/app.js:206-209 | memoised depth is the longest-path definition: one more than the deepest dependency is the length of the longest chain |
| DagLayout.Graph.LevelInhabited | dashboard/static/app.js:213-216 | no level up to the maximum depth is empty, so group numbers are depths |
| DagLayout.LayersRespectDependencies | dashboard/static/app.js:213-216 | every dependsOn of a step sits in a strictly earlier group |
| DagLayout.GroupsCountLongestChain | dashboard/static/app.js:212-216 | there are as many groups as steps on the longest dependency path |
| DagLayout.GroupIsDepth | dashboard/static/app.js:202-216 | a step in group k heads a dependency path of k edges and none that is longer |
| DagLayout.ChainsArePaths | dashboard/static/app.js:204-207 | the chains the recursion follows are the dependency paths of the workflow |
| DagLayout.LevelInOrder | dashboard/static/app.js:214 | a group lists its steps in the order of the workflow |
| DagLayout.AdmittedIsRanked | webhooks/validating_webhook.go:383-421 | whatever cycle detection admits has a rank falling along every edge, so the recursion terminates |
| DagLayout.CleanExactly | dashboard/static/app.js:203 | on resolved dependencies the layout works exactly when no step bears an inherited name |
| DagLayout.InheritedNameIsAdmissible | webhooks/validating_webhook.go:213-380 | for each of the twelve inherited names, the workflow whose only step bears it meets every condition for being allowed without a warning |
| Reconciler.Workflow.Reconcile | controllers/workflow_controller.go:90-702 | one reconcile of the stored object, by loops over mutable fields, computes the transition function and keeps the invariant |
| Reconciler.Workflow.ProceedRun | controllers/workflow_controller.go:200-262 | initialisation, run id and agent lookups: what is written, what is lost and what is left alone |
| Reconciler.Workflow.DriveRun | controllers/workflow_controller.go:264-701 | sync, failure response, completion and start loop compute one driven step |
| Reconciler.Workflow.EnsureStepStatus | controllers/workflow_controller.go:954-962 | finds the first entry of a step or appends a fresh one, changing no other |
| Reconciler.Workflow.SyncFromJobs | controllers/workflow_controller.go:264-354 | for every iteration order the sync rewrites each entry by one rule, keeps the counters equal to the tallies, and drops exactly the retried jobs |
| Reconciler.Workflow.SyncEntry | controllers/workflow_controller.go:277-352 | one job's effect on its entry, its counters and the changed flag |
| Reconciler.Workflow.JobsToStopOnFailure | controllers/workflow_controller.go:782-791 | names the jobs of exactly the unfinished entries that have one |
| Reconciler.Workflow.StopJobs | controllers/workflow_controller.go:793-800 | deletes exactly the named jobs |
| Reconciler.Workflow.StopRun | controllers/workflow_controller.go:356-370 | failFast and stop: unfinished steps skipped, run failed, jobs deleted selectively or all |
| Reconciler.Workflow.BeginRollback | controllers/workflow_controller.go:423-466 | walking backwards, requests rollback jobs in reverse entry order and sets every entry's rollback phase |
| Reconciler.Workflow.CheckRollbackJobs | controllers/workflow_controller.go:101-122 | entries whose rollback job is gone or done become RolledBack; reports whether none is left |
| Reconciler.Workflow.FindExecutableSteps | controllers/workflow_controller.go:706-759 | lists, in spec order, exactly the steps that are neither finished nor active and whose dependencies are ready |
| Reconciler.Workflow.StartExecutable | controllers/workflow_controller.go:536-691 | the start loop with its parallelism break equals starting the steps one after the other |
| Reconciler.Workflow.StartStep | controllers/workflow_controller.go:555-690 | one turn: condition, auto-completion, denial, approval wait or job creation |
| RunEffects.StartAllFull | controllers/workflow_controller.go:551-553 | breaking off at the limit loses nothing: no later turn would do anything |
| Reconciler.Unchanged | controllers/workflow_controller.go:693-699 | when the status is not written, no job was retried or created either |
| Reconciler.Workflow.CompleteRun | controllers/workflow_controller.go:488-518 | the completion branch forces leftovers and sets the final phase |
| RunInvariant.Safety | controllers/workflow_controller.go:56-702 | the invariant holds in every state of every run, whatever the environment does and whenever another run's reconcile cancels it |
| RunEffects.SyncExactly | controllers/workflow_controller.go:277-352 | the job sync, step by step: a complete job makes its running step Succeeded; a failed one puts it back for a retry, its job deleted, exactly while the retry policy allows, and otherwise makes it Failed; no other step or job changes |
| RunOutcome.OutcomesEarned | controllers/workflow_controller.go:277-352 | over every run, a step is Failed only because an earlier state had its job failed with the retries used up, or because an agent step's approval was refused; an agent step is Succeeded only because an earlier state had its job complete |
| RunOutcome.ReconcileExplained | controllers/workflow_controller.go:264-691 | every change of a step to Failed, Succeeded or Running in one reconcile has its reason in the step's settings, its job and the observation; a failed step stays as it is |
| RunOutcome.LaunchesOnlyAllowed | controllers/workflow_controller.go:550-690 | a job is created, or a step set running, only for a step that was ready, runs an agent, has its condition met and any approval it needs given and not refused; at most one job each |
| RunOutcome.StartExactly | controllers/workflow_controller.go:533-699 | a reconcile that starts steps: every ready step gets what its condition, agent, approval and the API call for, or active jobs plus launched steps have reached the parallelism; nothing else changes |
| RunOutcome.ReadyExactly | controllers/workflow_controller.go:733-758 | a step is executable exactly when it is waiting, has no job listed and every dependency has succeeded or been skipped, or under continueOnError failed |
| RunOutcome.ListedInOrder | controllers/workflow_controller.go:733-758 | executable steps are listed in the order of the spec |
| RunOutcome.PhaseExactly | controllers/workflow_controller.go:356-528 | the run's phase after a reconcile, exactly: failed or rolling back as the strategy says as soon as some step failed on its job; completed, with the right final phase, when all steps are finished and none was denied; otherwise running |
| RunOutcome.FailedMeansLost | controllers/workflow_controller.go:337-341 | FailedSteps is positive exactly when some step failed otherwise than by refusal |
| RunOutcome.StopExactly | controllers/workflow_controller.go:356-370 | failFast and stop: unfinished entries skipped, all others unchanged; stop deletes every job, failFast those of the skipped steps only |
| RunOutcome.RollbackExactly | controllers/workflow_controller.go:416-471 | rollback: succeeded agent steps get a rollback job, other succeeded steps are rolled back at once, unfinished ones skipped, the rest unchanged, all step jobs deleted |
| RunOutcome.MonitorExactly | controllers/workflow_controller.go:100-144 | an entry that is rolling back becomes rolled back if and only if it has no rollback job or the job is not busy; the run fails if and only if none is busy; nothing else changes |
| RunOutcome.CancelExactly | controllers/workflow_controller.go:146-161 | a cancellation skips exactly the running and unset entries, deletes every job, and comes before timeout and concurrency |
| RunOutcome.ElseExactly | controllers/workflow_controller.go:90-262 | the remaining branches: a timeout fails a running run and deletes its jobs, a first pass only stores the run id, a missing agent fails the run, and otherwise nothing happens |
| RunInvariant.CountersHold | controllers/workflow_controller.go:277-354 | in every reachable state, whatever the phase, FailedSteps plus the denied entries is the number of Failed ones; CompletedSteps is the number of Succeeded and Skipped ones before the run ends and after it completes as Succeeded or CompletedWithErrors |
| RunCounters.CompletedCountExactly | controllers/workflow_controller.go:146-528 | after a reconcile CompletedSteps is exact if and only if it was before and the ending, if any, keeps it: cancel with no entry Running or unset, failFast or stop with none unfinished, rollback with as many succeeded as unfinished, anything else |
| RunWitnesses.FailFastMiscounts | controllers/workflow_controller.go:356-370 | a run under failFast that ends with CompletedSteps 0 and one Skipped entry |
| RunInvariant.CancelLeavesPending | controllers/workflow_controller.go:146-161 | after a cancellation the unfinished entries are exactly those that were Pending, unchanged |
| RunInvariant.PolicyKeeps | controllers/workflow_controller.go:1334-1341 | being cancelled by another run's reconcile keeps the invariant |
| RunInvariant.ReconcileKeeps | controllers/workflow_controller.go:56-702 | every reconcile keeps the invariant |
| RunInvariant.DriveKeeps | controllers/workflow_controller.go:264-701 | a driven step of a live run keeps counters equal to tallies, the list a linear extension of the DAG, dependencies ready and creations bounded, or ends the run truthfully |
| RunSafety.SyncKeepsLive | controllers/workflow_controller.go:264-354 | syncing jobs keeps a live run live |
| RunSafety.StartKeepsLive | controllers/workflow_controller.go:530-699 | the start loop keeps a live run live |
| RunSafety.StartAllKeeps | controllers/workflow_controller.go:549-691 | starting any startable steps in any order keeps the table, the counters and the order of entries |
| RunSafety.ExecutableExactly | controllers/workflow_controller.go:733-758 | a name is listed as executable exactly when a step of that name can start |
| RunInvariant.CompletionExactly | controllers/workflow_controller.go:487 | the completion test holds exactly when every spec step is finished and none was denied |
| RunInvariant.FinishTellsTruth | controllers/workflow_controller.go:488-514 | forcing changes nothing; Succeeded exactly when every step succeeded or was skipped, CompletedWithErrors exactly when under continueOnError some failed and some did not |
| RunInvariant.TransitiveDepsReady | controllers/workflow_controller.go:738-756 | a step with an entry has every dependency, direct or not, succeeded or skipped (finished under continueOnError) |
| RunInvariant.CreationsBounded | controllers/workflow_controller.go:322-336 | in every reachable state retry counts stay within the maximum and a step's job was created at most once more |
| RunInvariant.BackoffNeverWaits | controllers/workflow_controller.go:323-328 | the outcome of a sync does not depend on whether a retry would be early |
| RunInvariant.SyncSettles | controllers/workflow_controller.go:277-353 | after a sync no running step has a complete or failed job left |
| RunInvariant.FailFastKeepsEvidence | controllers/workflow_controller.go:356-365 | failFast stops a job exactly when its step is not finished |
| RunInvariant.RollbackRespectsDependencies | controllers/workflow_controller.go:423-466 | rollback jobs are requested once each, every step before anything it depends on, directly or not |
| RunInvariant.RollbackCovers | controllers/workflow_controller.go:425-458 | they are requested for exactly the agent steps that had succeeded |
| RunInvariant.RollbackEnds | controllers/workflow_controller.go:123-137 | when a rollback ends every entry is rolled back, failed or skipped |
| RunProgress.ReconcileDownhill | controllers/workflow_controller.go:56-702 | every change of a step's phase, other than between unset and Pending, strictly lowers 3 * (retries left) + rank |
| RunProgress.MovesBounded | controllers/workflow_controller.go:317-351 | over any run, however long, the stage changes of all its steps together, each retry included, number at most the sum of 3 * (retries allowed) + 4 |
| RunProgress.NoDeadlock | controllers/workflow_controller.go:706-759 | for an admitted DAG, under continueOnError or with no failed step, an unfinished step implies one that is active or executable |
| RunProgress.StuckExactly | controllers/workflow_controller.go:738-753 | under the other strategies a driven run is stuck exactly when every unfinished step is idle and depends, directly or not, on a failed one |
| RunProgress.UnhinderedProgress | controllers/workflow_controller.go:264-699 | for every strategy and whatever jobs are listed, an unhindered reconcile of a running workflow moves a step, ends the run, or leaves it waiting for one of four reasons: an unfinished step is active, the parallelism limit is reached, all steps are finished but one was denied, or (not under continueOnError) there are unfinished steps and each depends on a failed one |
| RunProgress.PushesBounded | controllers/workflow_controller.go:264-699 | termination: over any run of an admitted workflow, whatever happens in between, the unhindered reconciles that find no reason to wait and leave the run running number at most the sum of 3 * (retries allowed) + 4 |
| RunProgress.IdleRunMoves | controllers/workflow_controller.go:486-699 | a run with unfinished steps, none running, whose listed jobs all belong to finished steps and leave room for one more, moves at its next unhindered reconcile, under continueOnError or with no failed step |
| RunEffects.StartAllServes | controllers/workflow_controller.go:549-691 | every executable step in its turn: condition unmet, skipped; no agent, succeeded; approval refused, failed; unanswered, pending; creation failing, untouched; otherwise running with one new job, or none if it exists; and a step is passed over only when the limit is reached |
| RunEffects.StartAllCounts | controllers/workflow_controller.go:536-553 | the loop's counter is the active jobs plus the steps it has set running |
| RunProgress.DeniedRunHangs | controllers/workflow_controller.go:486-699 | a run with all steps finished and one denied is left unchanged by every reconcile short of cancellation, timeout, a missing agent, or a counted failure under failFast, stop or rollback |
| RunWitnesses.DeniedRunReached | controllers/workflow_controller.go:604-609 | a reachable run of one denied step that no reconcile ever leaves, short of cancellation, timeout or a missing agent |
| RunProgress.ReconcileCreatesWithin | controllers/workflow_controller.go:536-553 | one reconcile creates at most max(0, parallelism - active jobs) jobs |
| RunProgress.ParallelismHolds | controllers/workflow_controller.go:533-553 | if every open job is observed active and the environment opens none, the number of open jobs never exceeds the parallelism in any run |
| Reconciler.Workflow.EnforceConcurrency | controllers/workflow_controller.go:1281-1353 | holds a new run back if and only if its template has no room for one more, and under replace cancels exactly the active runs of the template and their jobs; every object stays valid |
| Reconciler.Workflow.ReconcileAmong | controllers/workflow_controller.go:189-209 | the gate followed by the reconcile it lets through computes one act of the namespace, the step the concurrency laws are about, and keeps every object valid |
| Concurrency.LimitKept | controllers/workflow_controller.go:189-209 | one reconcile of any run keeps the active runs of a template within the limit |
| Concurrency.GateExactly | controllers/workflow_controller.go:1281-1353 | a new run is held back, unchanged, if and only if the policy is forbid or allow and one more active run would exceed the limit; otherwise it is reconciled |
| Concurrency.OthersExactly | controllers/workflow_controller.go:1330-1342 | a reconcile changes another run only if the reconciled one is new, under replace, and shares its non-empty template with the other, which is active; that run is then cancelled and its jobs deleted |
| Concurrency.NewcomerStarts | controllers/workflow_controller.go:189-223 | with room for it, a new run has left its initial phase after two reconciles that nothing hinders |
| Concurrency.ConcurrencyHolds | controllers/workflow_controller.go:1281-1353 | over every interleaving, of the runs sharing a template and its limits at most one is active under forbid and replace, at most maxParallel under allow |
| Concurrency.ActKeepsInv | controllers/workflow_controller.go:56-702 | a reconcile of one run keeps the invariant of that run and of every other in the namespace |
| Concurrency.WorldSafety | controllers/workflow_controller.go:56-702 | over every interleaving of reconciles, cancellations, creations and deletions each run satisfies the invariant in every state |
| Concurrency.TerminalIsFinal | controllers/workflow_controller.go:90-93 | no reconcile of any run changes a run in a terminal phase |
| Concurrency.TerminalForever | controllers/workflow_controller.go:90-93 | over every interleaving the status of a finished run never changes again and nothing more is created for it |
| Utf8.Truncate | controllers/memory.go:300-311 | the loop computes the truncation at the last code-point start within the cap |
| Utf8.CapContent | pkg/memory/store.go:214-225 | equals that truncation at 4096 bytes |
| Utf8.TruncationIsLongest | controllers/memory.go:300-311 | for valid UTF-8 (section 4 of RFC 3629) it is the longest prefix of whole code points that fits, is itself valid, and a cut loses at most 3 bytes |
| Utf8.ShortestForms | controllers/memory.go:300-311 | the grammar accepts exactly the shortest forms of Unicode scalar values (section 3 of RFC 3629) |
| Utf8.PrefixValid | pkg/memory/store.go:214-225 | a prefix of valid text is valid exactly when it ends where a code point starts |
| Utf8.TruncationAbsorbs | controllers/memory.go:300-311 | capping at a larger budget first changes nothing |
| FtsQuery.FtsTerms | pkg/memory/store.go:345-355 | the loop returns the alphanumeric runs without the operators |
| FtsQuery.TermsExactly | pkg/memory/store.go:338-355 | the terms are the maximal alphanumeric runs that are no operator, every one of them, in the order of the text and as often as they occur |
| FtsQuery.OperatorsExactly | pkg/memory/store.go:344-345 | the operators are AND, OR, NOT and NEAR in capitals |
| FtsQuery.AlnumExactly | pkg/memory/store.go:338 | words are made of digits and unaccented letters |
| FtsQuery.JoinAppends | pkg/memory/store.go:363 | terms are joined by " OR " |
| FtsQuery.RunsPlaced | pkg/memory/store.go:338-350 | a text reads, left to right, as all its maximal alphanumeric runs |
| FtsQuery.SanitiseRoundTrip | pkg/memory/store.go:357-367 | sanitising keeps the terms of any text and is idempotent; its output is non-operator words joined by OR |
| FtsQuery.JoinRoundTrip | pkg/memory/store.go:359-364 | reading a joined list of words gives the list back |
| Timestamps.NanoOrder | pkg/memory/store.go:203-207 | stored times compare as strings by whole second, then by their printed fractions |
| Timestamps.FormatExamples | pkg/memory/store.go:203-207 | the two stored formats, by example, fraction trimmed |
| Timestamps.AgeCutoffExactToTheSecond | pkg/memory/store.go:463-476 | DeleteOlderThan is exact up to one second |
| Timestamps.RecallLogCutoffIsDayGranular | pkg/memory/store.go:478-493 | the stamp of a recall-log entry sorts below the cutoff exactly when it is dated on or before the cutoff day |
| Timestamps.SubSecondExactly | pkg/memory/store.go:463-476 | within one second string order is time order exactly when neither printed fraction is a prefix of the other |
| Timestamps.WholeSecondSortsLast | pkg/memory/store.go:463-476 | a whole-second time sorts after every other time of its second |
| MemoryTable.InsertKeeps | pkg/memory/store.go:111-113 | the insert trigger keeps the index exact |
| MemoryTable.DeleteKeeps | pkg/memory/store.go:114-116 | the delete trigger keeps the index exact |
| MemoryTable.IndexAgreesWithScan | pkg/memory/store.go:259-269 | matching the sanitised text against an exact index selects the rows a scan for its terms would |
| MemoryTable.NewestExist | pkg/memory/store.go:449-461 | the retention subquery always has an answer |
| MemoryTable.PackedSize | pkg/memory/store.go:413-424 | packed rows hold at most max(budget, 4096) bytes |
| MemoryStore.ReplayOk | pkg/memory/store.go:108-118 | after any history of writes and deletions the index holds exactly the tokens of the current rows, contents are capped and ids unique |
| MemoryStore.SearchAfterAnyHistory | pkg/memory/store.go:259-269 | after any history a full-text query selects exactly the rows that mention one of its terms |
| MemoryStore.OtherScopesUntouched | pkg/memory/store.go:449-461 | writing to or trimming one scope leaves every other as it is |
| MemoryStore.OtherHistoriesHarmless | controllers/memory.go:196-212 | no history of writes and trims of other scopes adds, removes or changes a row of a scope |
| MemoryStore.ScopeOnlyLoses | pkg/memory/store.go:229-236 | over a history that writes nothing to a scope no row is added or changed there, and a row is left exactly when no Forget names it, no age cutoff is above its stamp and no trim of the scope passes it over |
| MemoryStore.AgeDeletesBySecond | pkg/memory/store.go:463-476 | DeleteOlderThan removes every row stamped in an earlier second than the cutoff and leaves every one stamped in a later second as it was |
| MemoryStore.RecallStaysInPool | controllers/memory.go:62-79 | whatever is stored under an owner's key was written by an owner of the same pool |
| MemoryStore.SQLiteStore.constructor | pkg/memory/store.go:108-118 | an empty table with an empty index |
| MemoryStore.SQLiteStore.Learn | pkg/memory/store.go:194-212 | fails exactly when the id is taken, otherwise adds the capped, stamped row and its tokens |
| MemoryStore.SQLiteStore.Forget | pkg/memory/store.go:229-236 | deletes the row of that id in that namespace only, with its tokens |
| MemoryStore.SQLiteStore.Retain | pkg/memory/store.go:449-461 | the scope keeps exactly the newest rows by timestamp string, at most the cap, unchanged; the count returned is the size drop |
| MemoryStore.SQLiteStore.DeleteOlderThan | pkg/memory/store.go:468-476 | deletes exactly the rows whose timestamp string is below the cutoff, and counts them |
| MemoryStore.SQLiteStore.CandidatesMention | pkg/memory/store.go:380-387 | with the index, recall ranks exactly the rows in scope that mention a term of the query |
| MemoryStore.SQLiteStore.CandidatesOtherwise | pkg/memory/store.go:388-409 | without the index, recall ranks the rows in scope that contain a term; for a query without terms, all rows in scope |
| MemoryStore.SQLiteStore.SearchMentions | pkg/memory/store.go:240-269 | with the index, the rows a search selects, before order and limit, are exactly those that pass its filters and mention a term |
| MemoryStore.SQLiteStore.SearchOtherwise | pkg/memory/store.go:240-269 | without the index a search selects the rows that pass its filters and contain its text; without a text, all that pass |
| MemoryStore.SQLiteStore.SearchFinds | pkg/memory/store.go:240-271 | with the index, every row listed passes the filters and mentions a term; one that does and is not listed is no newer than any listed, and only left out because the limit is reached |
| MemoryStore.SQLiteStore.SearchAnswersExist | pkg/memory/store.go:240-271 | a search always has an answer: as many rows as the limit allows, each once, newest first |
| MemoryStore.SQLiteStore.Recall | pkg/memory/store.go:372-425 | returns the longest non-empty prefix of the ranking that fits the budget, all of it in scope and matching, no entry twice, at most max(4 * maxTokens, 4096) bytes; empty exactly when nothing in scope matches; without the index, or a query without terms, no candidate left out is newer than one returned |
| MemoryStore.SQLiteStore.AnswersExist | pkg/memory/store.go:379-409 | the ranking query always has an answer |
| MemoryStore.SQLiteStore.WriteRecallLog | pkg/memory/store.go:434-447 | overwrites the entry of its namespace, run and step, stamped by the database's clock, and no other |
| MemoryStore.SQLiteStore.DeleteRecallLogOlderThan | pkg/memory/store.go:478-493 | removes exactly the entries dated on or before the cutoff day, counts them, and leaves the others unchanged |
| MemoryStore.SQLiteStore.PersistMemory | controllers/memory.go:172-215 | when the write succeeds the scope holds at most the cap and the eviction count is the size drop; every other scope is unchanged; a failed write changes nothing |
| MemoryScope.KeyIsPool | controllers/memory.go:62-79 | for names without '/', two owners share a key exactly when they mean the same pool |
| MemoryScope.KeyExactly | controllers/memory.go:62-79 | the key of every scope, literally; an unlabelled group and an unknown scope fall back to the agent's own pool |
| MemoryScope.SlashesCollide | controllers/memory.go:62-79 | with slashes in names two pools can share a key |
| ReactLoop.Executor.Run | executor/executor.py:923-1049 | every conversation sent is well formed and ends on the user; at most MAX_TOOL_CALLS + 1 model calls and MAX_TOOL_CALLS executions; no call starts over a positive cost limit, the overshoot is at most the last call's cost and exits nonzero; the loop stops early only on a failed, too expensive or tool-free reply, and the output is the one that last reply calls for |
| ReactLoop.Executor.AnswerRequests | executor/executor.py:970-1031 | every request of a turn is answered in order: over the limit, blocked, or executed once |
| ReactLoop.Executor.ParseResponse | executor/executor.py:1143-1166 | appends the assistant turn and returns its tool requests and text in order |
| ReactLoop.Executor.TrackCost | executor/executor.py:532-542 | adds the cost; fails exactly when a positive limit is exceeded |
| ReactLoop.RequestsAnsweredOnce | executor/executor.py:970-1037 | roles alternate, and each tool_use block of an assistant message has its result, under its id and in its place among the tool_use blocks, in the next user message, which holds no other results; only the last message may be an assistant's, and then without tool_use |
| ReactLoop.RequestsByPlace | executor/executor.py:1143-1160 | the requests of a turn are its tool_use blocks, all of them, in their order |
| ReactLoop.TextsByPlace | executor/executor.py:1143-1165 | the texts of a turn are its text blocks, all of them, in their order |
| ReactLoop.AnswersExactly | executor/executor.py:972-1025 | the answer to each request: the limit error over the limit, the blocking error if the autonomy level forbids the tool, and otherwise what the tool said, cut at 50000 characters |
| ReactLoop.ExecutedExactly | executor/executor.py:911-1000 | a request reaches a tool if and only if it is within the limit and the level is supervised or full, or restricted and the tool does not write |
| ReactLoop.ExitsExactly | executor/executor.py:1388-1394 | exit code 1 exactly for an output whose error is truthy |
| ReactLoop.RoundKeeps | executor/executor.py:1033-1037 | a turn with tool requests and its answers keep the conversation well formed, roles alternating |
| ReactLoop.ExecutedWithinLimit | executor/executor.py:972-1000 | at most MAX_TOOL_CALLS requests reach a tool, none of them blocked, none twice |
| ReactLoop.FailureExits | executor/executor.py:952-968 | a failed call exits nonzero exactly when its error prints as non-empty |

## Left out

- The branch for a job without a status entry (controllers/workflow_controller.go:268-276): unreachable under the assumptions above (`RunSafety.JobsKnown`), and with it the pointers `statusMap` keeps into a slice that may be reallocated; entries are looked up by index.
- The rollback-monitoring branch at controllers/workflow_controller.go:375-414: a run in that phase never gets there.
- Delayed deletion of jobs: a deleted job is gone at once, but the environment may make it reappear. Job names are identified with step names, so collisions of hashed names are not modelled.
- Changes of the status from outside the controller: the dashboard's deny handler and the CLI's rerun.
- Finalizers and deletion of a workflow, events, metrics, history records, conditions on the status, log reading and stored outputs.
- Durations: whether a run has timed out and whether a retry is early are observations.
- Progress under the strategies "" and "continue" beyond `StuckExactly`: a failed dependency blocks its dependents until the timeout.
- `evaluateCondition`, template substitution and building of job inputs: a condition is a boolean per step and reconcile.
- Handle: the checks WF-007 and WF-009 rest on text search and regular expressions and enter by their outcome per step; durations are integers; decoding of the object is not modelled.
- ParallelismHolds: assumes every open job is observed active, since the controller counts active jobs only, and that no job opens on its own or reappears open.
- ConcurrencyHolds: assumes that all runs of the template carry the same limits; a policy other than forbid, replace and allow limits nothing.
- UnhinderedProgress: assumes an unhindered reconcile (no cancellation or timeout, no failing API call, every required approval given or refused); what each executable step gets otherwise is `StartAllServes`.
- IdleRunMoves: makes the same assumption.
- Recall: the order the index ranks in (BM25) is arbitrary, and so is which fifty it ranks when more match.
- SearchMentions: covers texts with at least one term; a text without any is an empty MATCH expression, whose outcome is the database's. LIKE, the time filter and the tokenizer are arbitrary functions.
- Retain: which of several equally old rows survive is the database's choice; `NewestRows` admits every answer it may give.
- PersistMemory: the entry's text is a parameter; the auto-summary, the provider lookup and a retention error after a successful write are not modelled.
- The recall log keeps its ids as a list; their JSON encoding and the log's readers are not modelled.
- AgeCutoffExactToTheSecond: says nothing within the cutoff's own second, where `SubSecondExactly` shows the comparison can be wrong. Years from 10000 on are outside `InRange`.
- Run: the amounts in the cost message are not modelled. The Anthropic message format only; in the OpenAI format blocked and over-limit calls get no reply. Exceptions raised by a tool, the tool-call log and the structured fields promoted into the output are not modelled; token prices are folded into a cost per reply.
- BuildDAGGroups: takes the topological order that admission guarantees; on a cyclic graph the recursion does not terminate.
- The Agent, LLMProvider and MCPServer controllers, the building of job specs, the dashboard's and CLI's HTTP handlers, licensing, endpoint normalisation and the history database.
