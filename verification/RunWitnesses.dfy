/** Runs in which the engine does what it should not: reachable from the start, step by step. */
module RunWitnesses {
  import opened StepGraph
  import opened RunModel
  import opened StatusTable
  import opened RunSafety
  import opened RunInvariant
  import opened RunEffects
  import opened RunCounters
  import opened RunProgress

  function Untouched(hasRunId: bool): State {
    State(Run(RunNew, hasRunId, false, 0, 0, 0, []), map[], multiset{}, [])
  }

  function Quiet(): Observation {
    Observation(false, false, false, false, AllFound, false, {}, {}, {}, {}, {}, {}, {}, {})
  }

  /** The first reconcile only gives the run its id. */
  lemma GetsRunId(spec: Spec, o: Observation)
    requires !o.template && !o.cancelled && !o.blocked
    ensures Initial(Untouched(false)) && Reconcile(spec, Untouched(false), o) == Untouched(true)
  {
    hide Drive;
  }

  // ---------------------------------------------------------------- a completed count that is wrong

  function TwoSteps(): Spec {
    Spec([StepSpec("a", [], "agent", "", false, None), StepSpec("b", [], "agent", "", false, None)], FailFast, Some(2))
  }

  function Entry(n: string, p: StepPhase): StepStatus {
    StepStatus(n, p, StepJob, 0, NoError, false)
  }

  /** The two steps running, a's job finished badly. */
  function OneFailed(): State {
    State(Run(RunRunning, true, true, 2, 0, 0, [Entry("a", Running), Entry("b", Running)]),
          map["a" := Job(false, false, true), "b" := Job(false, false, false)], multiset{"a", "b"}, [])
  }

  lemma BothExecutable()
    ensures Executable(TwoSteps(), TwoSteps().steps, [], map[]) == ["a", "b"]
  {
    var spec := TwoSteps();
    assert CanStart(spec, [], map[], spec.steps[0]) && CanStart(spec, [], map[], spec.steps[1]);
    hide CanStart;
    assert spec.steps[1..] == [spec.steps[1]];
    assert Executable(spec, [spec.steps[1]], [], map[]) == ["b"] + Executable(spec, [], [], map[]);
  }

  lemma FirstStarted()
    ensures StartOne(TwoSteps(), Quiet(), Launch([], 0, 0, map[], multiset{}, false), "a")
         == Launch([Entry("a", Running)], 0, 1, map["a" := Job(false, false, false)], multiset{"a"}, true)
  {
    var spec, l := TwoSteps(), Launch([], 0, 0, map[], multiset{}, false);
    assert Get(l.steps, "a") == Fresh("a");
    assert FindStep(spec.steps, "a") == Some(spec.steps[0]);
    assert Decide(spec, Quiet(), "a", Unset) == Create;
    assert Put([], Entry("a", Running)) == [Entry("a", Running)];
  }

  lemma SecondStarted()
    ensures StartOne(TwoSteps(), Quiet(),
      Launch([Entry("a", Running)], 0, 1, map["a" := Job(false, false, false)], multiset{"a"}, true), "b")
         == Launch(OneFailed().run.stepStatuses, 0, 2, BothOpen(), multiset{"a", "b"}, true)
  {
    var spec, ss := TwoSteps(), [Entry("a", Running)];
    assert Get(ss[1..], "b") == Fresh("b") && Get(ss, "b") == Fresh("b");
    assert FindStep(spec.steps[1..], "b") == Some(spec.steps[1]) && FindStep(spec.steps, "b") == Some(spec.steps[1]);
    assert Decide(spec, Quiet(), "b", Unset) == Create;
    assert ss[1..] == [] && Put([], Entry("b", Running)) == [Entry("b", Running)];
    assert Put(ss, Entry("b", Running)) == ss + [Entry("b", Running)];
  }

  function BothOpen(): map<string, Job> {
    map["a" := Job(false, false, false), "b" := Job(false, false, false)]
  }

  lemma TwoNames()
    ensures DistinctNames(TwoSteps().steps)
  {
  }

  lemma BothStart()
    ensures Reconcile(TwoSteps(), Untouched(true), Quiet()) == OneFailed().(jobs := BothOpen())
  {
    var spec, o, s := TwoSteps(), Quiet(), Untouched(true);
    var t := s.(run := Initialised(spec, s.run));
    NothingToSync(spec, t, {});
    assert ActiveJobs(map[]) == {};
    BothExecutable();
    BothLaunched();
    hide StartAll, Executable, Synced;
  }

  lemma BothLaunched()
    ensures StartAll(TwoSteps(), Quiet(), Launch([], 0, 0, map[], multiset{}, false), ["a", "b"])
         == Launch(OneFailed().run.stepStatuses, 0, 2, BothOpen(), multiset{"a", "b"}, true)
  {
    var spec, o, l0 := TwoSteps(), Quiet(), Launch([], 0, 0, map[], multiset{}, false);
    FirstStarted();
    SecondStarted();
    hide StartOne;
    var l := StartOne(spec, o, l0, "a");
    assert ["a", "b"][1..] == ["b"] && ["b"][1..] == [];
    assert StartAll(spec, o, l, ["b"]) == StartAll(spec, o, StartOne(spec, o, l, "b"), []);
  }

  /** a's entry after its job failed for good. */
  function Lost(): StepStatus {
    StepStatus("a", Failed, StepJob, 0, JobError, true)
  }

  lemma OneFailedSwept()
    ensures SyncJobs(TwoSteps(), OneFailed().jobs, {}).All(OneFailed().run.stepStatuses)
      == [Lost(), Entry("b", Running)]
  {
    var ss, sw := OneFailed().run.stepStatuses, SyncJobs(TwoSteps(), OneFailed().jobs, {});
    assert MaxRetries(TwoSteps(), "a") == 0;
    assert sw.Apply(ss[0]) == Lost() && sw.Apply(ss[1]) == ss[1];
    hide Sweep.Apply;
    assert |sw.All(ss)| == 2 && sw.All(ss)[0] == sw.Apply(ss[0]) && sw.All(ss)[1] == sw.Apply(ss[1]);
  }

  lemma OneFailedSynced()
    ensures var r := Synced(TwoSteps(), OneFailed(), {}).run;
            r == Run(RunRunning, true, true, 2, 0, 1, [Lost(), Entry("b", Running)])
  {
    OneFailedSwept();
    hide Sweep.All, Count, Retried;
    CountTwo(FailedTally, Entry("a", Running), Entry("b", Running));
    CountTwo(FailedTally, Lost(), Entry("b", Running));
    CountTwo(DoneTally, Entry("a", Running), Entry("b", Running));
    CountTwo(DoneTally, Lost(), Entry("b", Running));
  }

  /** failFast fails the run and skips b without counting it. */
  lemma OneFailedEnds()
    ensures var r := Reconcile(TwoSteps(), OneFailed(), Quiet()).run;
            r.phase == RunFailed && r.completedSteps == 0 && Count(DoneTally, r.stepStatuses) == 1
  {
    var spec, o, s := TwoSteps(), Quiet(), OneFailed();
    SyncsDrives(spec, s, o);
    OneFailedSynced();
    SkipCount([Lost(), Entry("b", Running)]);
    CountTwo(DoneTally, Lost(), Entry("b", Running));
    CountTwo(UnfinishedTally, Lost(), Entry("b", Running));
    hide Synced, Reconcile, Sweep.All, Count, Stoppable;
    assert Drive(spec, s, o).run
      == Synced(spec, s, {}).run.(stepStatuses := SkipUnfinished.All([Lost(), Entry("b", Running)]), phase :=
        RunFailed);
  }

  lemma CountTwo(t: Tally, a: StepStatus, b: StepStatus)
    ensures Count(t, [a, b]) == One(t, a) + One(t, b)
  {
    assert [a, b][1..] == [b] && [b][1..] == [];
    assert Count(t, [b]) == One(t, b) + Count(t, []);
  }

  /** A run can end with a completed count that is wrong: two steps start together under
      failFast, one fails, and the other is skipped without being counted. */
  lemma FailFastMiscounts() returns (tr: seq<State>)
    ensures DistinctNames(TwoSteps().steps) && IsRun(TwoSteps(), tr)
    ensures var r := tr[|tr| - 1].run;
            r.phase == RunFailed && r.completedSteps == 0 && Count(DoneTally, r.stepStatuses) == 1
  {
    var spec, o := TwoSteps(), Quiet();
    var open, last := OneFailed().(jobs := BothOpen()), Reconcile(spec, OneFailed(), o);
    GetsRunId(spec, o);
    TwoNames();
    BothStart();
    JobsOfBoth();
    OneFailedEnds();
    hide Reconcile, JobsKnown, Count, OneFailed, BothOpen, Untouched, Initial, TwoSteps, Quiet;
    assert EnvironmentStep(open, OneFailed());
    tr := RunOfFive(spec, Untouched(false), Untouched(true), open, OneFailed(), last);
  }

  lemma RunOfFive(spec: Spec, a: State, b: State, c: State, d: State, e: State) returns (tr: seq<State>)
    requires Initial(a) && Next(spec, a, b) && Next(spec, b, c) && Next(spec, c, d) && Next(spec, d, e)
    ensures tr == [a, b, c, d, e] && IsRun(spec, tr)
  {
    hide Initial, Next;
    tr := [a, b, c, d, e];
  }

  lemma JobsOfBoth()
    ensures JobsKnown(OneFailed().run.stepStatuses, OneFailed().jobs)
  {
    var ss := OneFailed().run.stepStatuses;
    assert ss[1..] == [Entry("b", Running)];
    assert Get(ss, "a") == Entry("a", Running) && Get(ss, "b") == Get(ss[1..], "b") == Entry("b", Running);
  }

  // ---------------------------------------------------------------- a denied step that hangs its run

  function OneStep(): Spec {
    Spec([StepSpec("a", [], "agent", "", false, None)], ContinueOnError, None)
  }

  /** Someone has said no to a. */
  function Refusal(): Observation {
    Quiet().(approvalRequired := {"a"}, denied := {"a"})
  }

  function Refused(): StepStatus {
    StepStatus("a", Failed, NoJob, 0, DeniedByUser, false)
  }

  function Hanging(): State {
    State(Run(RunRunning, true, true, 1, 0, 0, [Refused()]), map[], multiset{}, [])
  }

  lemma OneExecutable()
    ensures Executable(OneStep(), OneStep().steps, [], map[]) == ["a"]
  {
    var spec := OneStep();
    assert CanStart(spec, [], map[], spec.steps[0]);
    hide CanStart;
    assert spec.steps[1..] == [];
  }

  lemma OneDenied()
    ensures StartAll(OneStep(), Refusal(), Launch([], 0, 0, map[], multiset{}, false), ["a"])
         == Launch([Refused()], 0, 0, map[], multiset{}, true)
  {
    var spec, o, l := OneStep(), Refusal(), Launch([], 0, 0, map[], multiset{}, false);
    assert Get(l.steps, "a") == Fresh("a");
    assert FindStep(spec.steps, "a") == Some(spec.steps[0]);
    assert Decide(spec, o, "a", Unset) == Deny;
    assert StartOne(spec, o, l, "a") == Launch([Refused()], 0, 0, map[], multiset{}, true);
    hide StartOne;
    assert ["a"][1..] == [];
  }

  lemma RefusalHangs()
    ensures Reconcile(OneStep(), Untouched(true), Refusal()) == Hanging()
  {
    var spec, o, s := OneStep(), Refusal(), Untouched(true);
    var t := s.(run := Initialised(spec, s.run));
    NothingToSync(spec, t, {});
    assert ActiveJobs(map[]) == {};
    OneExecutable();
    OneDenied();
    hide StartAll, Executable, Synced;
  }

  lemma AllRefused()
    ensures DistinctNames(OneStep().steps) && AllFinished(OneStep(), [Refused()]) && !NoneDenied([Refused()])
  {
    assert Names(OneStep().steps) == {"a"} by { assert OneStep().steps[0].name == "a"; }
    assert Get([Refused()], "a") == Refused();
    assert Tallied(DeniedTally, [Refused()], "a");
  }

  /** A run whose only step is denied reaches a state that no reconcile ever leaves, short of
      a cancellation, a timeout or a missing agent. */
  lemma DeniedRunReached() returns (tr: seq<State>)
    ensures IsRun(OneStep(), tr) && tr[|tr| - 1].run.phase == RunRunning
    ensures AllFinished(OneStep(), tr[|tr| - 1].run.stepStatuses)
    ensures forall o: Observation :: !o.cancelled && !o.timedOut && o.agents != SomeNotFound ==>
      Reconcile(OneStep(), tr[|tr| - 1], o) == tr[|tr| - 1]
  {
    var spec := OneStep();
    GetsRunId(spec, Refusal());
    RefusalHangs();
    AllRefused();
    hide Reconcile, Initial, OneStep, Refusal, AllFinished, NoneDenied, DistinctNames, Untouched;
    tr := [Untouched(false), Untouched(true), Hanging()];
    assert StepAt(spec, tr, 0) && StepAt(spec, tr, 1);
    Safety(spec, tr, 2);
    hide Inv;
    assert spec.strategy == ContinueOnError by { assert OneStep().strategy == ContinueOnError; }
    forall o: Observation | !o.cancelled && !o.timedOut && o.agents != SomeNotFound
      ensures Reconcile(spec, Hanging(), o) == Hanging() {
      DeniedRunHangs(spec, Hanging(), o);
    }
  }
}
