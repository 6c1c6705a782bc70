/** Runs of one namespace and the concurrency policy of their template: the gate a new
    run passes, and the limit it enforces over interleaved reconciles of all runs. */
module Concurrency {
  import opened StepGraph
  import opened RunModel
  import opened RunSafety
  import opened RunInvariant
  import opened RunEffects
  import opened RunOutcome

  datatype Policy = Forbid | Replace | Allow | OtherPolicy

  datatype Limits = Limits(policy: Policy, maxParallel: int)

  /** A workflow object: its template annotation ("" if absent), its policy, its run. */
  datatype Item = Item(template: string, limits: Option<Limits>, spec: Spec, state: State)

  type World = map<string, Item>

  predicate IsPeer(w: World, name: string, n: string)
    requires name in w && n in w
  {
    n != name && IsActivePhase(w[n].state.run.phase) && w[name].template != "" && w[n].template == w[name].template
  }

  /** The active runs of the same template, other than name itself. */
  function Peers(w: World, name: string): set<string>
    requires name in w
  {
    set n | n in w && IsPeer(w, name, n)
  }

  function MaxParallel(l: Limits): nat { if l.maxParallel <= 0 then 1 else l.maxParallel }

  /** The policy keeps a new run waiting. */
  predicate Holds(l: Limits, active: nat) {
    match l.policy
    case Forbid => active > 0
    case Replace => false
    case Allow => active >= MaxParallel(l)
    case OtherPolicy => false
  }

  /** What enforcing the policy for name does to the other runs. */
  function Enforced(w: World, name: string): World
    requires name in w
  {
    if w[name].limits.Some? && w[name].limits.value.policy == Replace then
      map n | n in w :: if IsPeer(w, name, n) then w[n].(state := CancelledByPolicy(w[n].state)) else w[n]
    else w
  }

  /** The reconcile of this run gets as far as the policy. */
  predicate ReachesPolicy(it: Item, o: Observation) {
    it.state.run.phase == RunNew && !o.template && !o.cancelled && it.limits.Some?
  }

  /** One reconcile of the run called name. */
  function Act(w: World, name: string, o: Observation): World
    requires name in w
  {
    var it := w[name];
    var gated := ReachesPolicy(it, o);
    var held := gated && Holds(it.limits.value, |Peers(w, name)|);
    var w' := if gated then Enforced(w, name) else w;
    w'[name := it.(state := Reconcile(it.spec, it.state, o.(blocked := held)))]
  }

  // ---------------------------------------------------------------- the limit

  /** Every run of template t carries the limits l. */
  ghost predicate Governed(w: World, t: string, l: Limits) {
    forall n :: n in w && w[n].template == t ==> w[n].limits == Some(l)
  }

  function ActiveRuns(w: World, t: string): set<string> {
    set n | n in w && w[n].template == t && (w[n].state.run.phase == RunRunning || w[n].state.run.phase == RunPending)
  }

  /** One run at a time, or under allow as many as maxParallel says, if it says any. */
  function Limit(l: Limits): nat {
    if l.policy == Allow && l.maxParallel > 0 then l.maxParallel else 1
  }

  /** Only a new run the policy lets through can become active. */
  lemma BecomesActive(spec: Spec, s: State, o: Observation)
    requires !IsActivePhase(s.run.phase) && IsActivePhase(Reconcile(spec, s, o).run.phase)
    ensures s.run.phase == RunNew && !o.blocked && !o.cancelled && !o.template
  {
  }

  /** The runs a reconcile of name does not concern are left alone. */
  lemma ActOnOthers(w: World, name: string, o: Observation, n: string)
    requires name in w && n in w && n != name
    ensures var w' := Act(w, name, o);
            n in w' && if ReachesPolicy(w[name], o) && w[name].limits.value.policy == Replace && IsPeer(w, name, n)
                       then w'[n] == w[n].(state := CancelledByPolicy(w[n].state)) else w'[n] == w[n]
  {
    hide Reconcile, Peers;
  }

  lemma ActiveShrinks(w: World, name: string, o: Observation, t: string)
    requires name in w
    ensures ActiveRuns(Act(w, name, o), t) <= ActiveRuns(w, t) + {name}
  {
    var w' := Act(w, name, o);
    hide Reconcile, Act, IsPeer;
    forall n | n in ActiveRuns(w', t) && n != name ensures n in ActiveRuns(w, t) {
      assert n in w by { ActKeys(w, name, o); }
      ActOnOthers(w, name, o, n);
    }
  }

  lemma ActKeys(w: World, name: string, o: Observation)
    requires name in w
    ensures Act(w, name, o).Keys == w.Keys
  {
    hide Reconcile, Peers, IsPeer;
  }

  lemma ActKeepsGovernance(w: World, name: string, o: Observation, t: string, l: Limits)
    requires name in w && Governed(w, t, l)
    ensures Governed(Act(w, name, o), t, l)
  {
    var w' := Act(w, name, o);
    forall n | n in w' && w'[n].template == t ensures w'[n].limits == Some(l) {
      ActKeys(w, name, o);
      hide Reconcile, Peers, IsPeer;
      if n != name { ActOnOthers(w, name, o, n); }
    }
  }

  lemma NewcomerPassed(w: World, name: string, o: Observation, t: string, l: Limits)
    requires name in w && Governed(w, t, l)
    requires name in ActiveRuns(Act(w, name, o), t) && name !in ActiveRuns(w, t)
    ensures w[name].template == t && ReachesPolicy(w[name], o) && !Holds(l, |Peers(w, name)|)
  {
    var it := w[name];
    var held := ReachesPolicy(it, o) && Holds(it.limits.value, |Peers(w, name)|);
    hide Reconcile, Peers, Enforced;
    assert Act(w, name, o)[name] == it.(state := Reconcile(it.spec, it.state, o.(blocked := held)));
    BecomesActive(it.spec, it.state, o.(blocked := held));
  }

  /** Under replace a run that gets through leaves no other active. */
  lemma ReplaceClears(w: World, name: string, o: Observation, t: string, l: Limits)
    requires name in w && t != "" && l.policy == Replace && Governed(w, t, l)
    requires w[name].template == t && ReachesPolicy(w[name], o)
    ensures ActiveRuns(Act(w, name, o), t) <= {name}
  {
    hide Act;
    forall n | n in ActiveRuns(Act(w, name, o), t) ensures n == name {
      ActKeys(w, name, o);
      if n != name { ActOnOthers(w, name, o, n); }
    }
  }

  /** A run that becomes active found room for itself. */
  lemma NewcomerFits(w: World, name: string, o: Observation, t: string, l: Limits)
    requires name in w && t != "" && l.policy != OtherPolicy && Governed(w, t, l)
    requires name in ActiveRuns(Act(w, name, o), t) && name !in ActiveRuns(w, t)
    ensures |ActiveRuns(Act(w, name, o), t)| <= Limit(l)
  {
    hide Act;
    NewcomerPassed(w, name, o, t, l);
    assert Peers(w, name) == ActiveRuns(w, t);
    var now := ActiveRuns(Act(w, name, o), t);
    ActiveShrinks(w, name, o, t);
    hide Peers, IsPeer, ActiveRuns, Governed;
    if l.policy == Replace {
      ReplaceClears(w, name, o, t, l);
      SubsetCard(now, {name});
    } else {
      SubsetCard(now, ActiveRuns(w, t) + {name});
    }
  }

  /** One reconcile of any run keeps the number of active runs of a template within its limit. */
  lemma LimitKept(w: World, name: string, o: Observation, t: string, l: Limits)
    requires name in w && t != "" && l.policy != OtherPolicy
    requires Governed(w, t, l) && |ActiveRuns(w, t)| <= Limit(l)
    ensures Governed(Act(w, name, o), t, l)
    ensures |ActiveRuns(Act(w, name, o), t)| <= Limit(l)
  {
    hide Act, ActiveRuns;
    ActKeepsGovernance(w, name, o, t, l);
    ActiveShrinks(w, name, o, t);
    var was, now := ActiveRuns(w, t), ActiveRuns(Act(w, name, o), t);
    if name in now && name !in was {
      NewcomerFits(w, name, o, t, l);
    } else {
      SubsetCard(now, was);
    }
  }

  // ---------------------------------------------------------------- what the gate does, exactly

  /** A new run whose policy is due. */
  predicate AtGate(it: Item, o: Observation) {
    it.state.run.phase == RunNew && !o.template && !o.cancelled
  }

  /** The template has no room for one more active run. */
  predicate NoRoom(w: World, t: string, l: Limits) {
    t != "" && (l.policy == Forbid || l.policy == Allow) && |ActiveRuns(w, t)| + 1 > Limit(l)
  }

  lemma HoldsExactly(w: World, name: string, t: string, l: Limits)
    requires name in w && w[name].template == t && w[name].state.run.phase == RunNew
    ensures Holds(l, |Peers(w, name)|) <==> NoRoom(w, t, l)
  {
    if t == "" {
      assert Peers(w, name) == {};
    } else {
      assert Peers(w, name) == ActiveRuns(w, t);
    }
  }

  /** The gate holds a new run back exactly when its template has no room for one more; what it
      holds stays as it is, and what it lets through is reconciled. */
  lemma GateExactly(w: World, name: string, o: Observation, l: Limits)
    requires name in w && w[name].limits == Some(l) && AtGate(w[name], o)
    ensures var it := w[name];
            Act(w, name, o)[name]
            == if NoRoom(w, it.template, l) then it
               else it.(state := Reconcile(it.spec, it.state, o.(blocked := false)))
  {
    var it := w[name];
    HoldsExactly(w, name, it.template, l);
    hide Peers, Enforced, NoRoom, Holds, Proceed, MonitorRollback, CancelRun;
    assert it.(state := it.state) == it;
  }

  /** A reconcile leaves the other runs alone, but for one thing: a new run under replace
      cancels the active runs of its template, jobs and all. */
  lemma OthersExactly(w: World, name: string, o: Observation, n: string)
    requires name in w && n in w && n != name
    ensures var it, other := w[name], w[n];
            && n in Act(w, name, o)
            && Act(w, name, o)[n]
               == if AtGate(it, o) && it.limits.Some? && it.limits.value.policy == Replace
                     && it.template != "" && n in ActiveRuns(w, it.template)
                  then other.(state := other.state.(run := other.state.run.(phase := RunCancelled), jobs := map[]))
                  else other
  {
    ActOnOthers(w, name, o, n);
    hide Act;
  }

  /** A new run stays new only until it has an id and a reconcile that nothing hinders. */
  lemma LeavesNew(spec: Spec, s: State, o: Observation)
    requires DistinctNames(spec.steps) && Inv(spec, s)
    requires s.run.phase != RunNew || Drives(s, o)
    ensures Reconcile(spec, s, o).run.phase != RunNew
  {
    if s.run.phase == RunNew {
      PhaseExactly(spec, s, o);
      hide Inv, Reconcile, SomeLost, AllFinished, NoneDenied, AllDone, AnyDone, InSync;
    } else {
      if Drives(s, o) { PhaseExactly(spec, s, o); }
      assert s.run.phase == RunRunning ==> s.run.started;
      hide Inv, Drive, PhaseAfter, InSync;
    }
  }

  /** With room for it, a new run is under way after two reconciles that nothing hinders. */
  lemma NewcomerStarts(w: World, name: string, o: Observation, l: Limits)
    requires name in w && w[name].limits == Some(l) && w[name].state.run.phase == RunNew
    requires DistinctNames(w[name].spec.steps) && SoundRun(w[name]) && !NoRoom(w, w[name].template, l)
    requires !o.template && !o.cancelled && o.agents == AllFound && !o.listFailed
    ensures var w1 := Act(w, name, o);
            name in w1 && Act(w1, name, o)[name].state.run.phase != RunNew
  {
    var it, w1, free := w[name], Act(w, name, o), o.(blocked := false);
    GateExactly(w, name, o, l);
    ActOnSelf(w, name, o);
    ActKeys(w, name, o);
    if it.state.run.hasRunId {
      LeavesNew(it.spec, it.state, free);
      NotNewAgain(w1, name, o);
    } else {
      assert Reconcile(it.spec, it.state, free).run == it.state.run.(hasRunId := true);
      RoomStays(w, name, o, l);
      GateExactly(w1, name, o, l);
      LeavesNew(it.spec, w1[name].state, free);
    }
  }

  lemma NotNewAgain(w: World, name: string, o: Observation)
    requires name in w && DistinctNames(w[name].spec.steps) && SoundRun(w[name]) && w[name].state.run.phase != RunNew
    ensures Act(w, name, o)[name].state.run.phase != RunNew
  {
    LeavesNew(w[name].spec, w[name].state, o.(blocked := false));
    hide Reconcile, Peers, Enforced, Inv;
  }

  lemma RoomStays(w: World, name: string, o: Observation, l: Limits)
    requires name in w && !NoRoom(w, w[name].template, l)
    requires Act(w, name, o)[name].state.run.phase == RunNew
    ensures !NoRoom(Act(w, name, o), w[name].template, l)
  {
    var t, w1 := w[name].template, Act(w, name, o);
    ActiveShrinks(w, name, o, t);
    assert name !in ActiveRuns(w1, t) by { ActKeys(w, name, o); hide Act; }
    hide Act, ActiveRuns;
    SubsetCard(ActiveRuns(w1, t), ActiveRuns(w, t));
  }

  /** A run in a terminal phase is never changed again, by its own reconciles or by anyone's. */
  lemma TerminalIsFinal(w: World, name: string, o: Observation, n: string)
    requires name in w && n in w && IsTerminal(w[n].state.run.phase)
    ensures n in Act(w, name, o) && Act(w, name, o)[n] == w[n]
  {
  }

  /** Meanwhile runs may be created, deleted, and have their jobs and run ids changed. */
  ghost predicate WorldDrift(w: World, w': World) {
    forall n :: n in w' ==>
      if n in w then
        && w'[n] == w[n].(state := w'[n].state)
        && EnvironmentStep(w[n].state, w'[n].state)
      else Initial(w'[n].state)
  }

  ghost predicate WorldNext(w: World, w': World) {
    || (exists name, o :: name in w && w' == Act(w, name, o))
    || WorldDrift(w, w')
  }

  ghost predicate WorldStepAt(tr: seq<World>, i: int)
    requires 0 <= i < |tr| - 1
  {
    WorldNext(tr[i], tr[i + 1])
  }

  ghost predicate IsWorldRun(tr: seq<World>) {
    tr != [] && tr[0] == map[] && forall i :: 0 <= i < |tr| - 1 ==> WorldStepAt(tr, i)
  }

  lemma DriftKeepsLimit(w: World, w': World, t: string)
    requires WorldDrift(w, w')
    ensures |ActiveRuns(w', t)| <= |ActiveRuns(w, t)|
  {
    assert ActiveRuns(w', t) <= ActiveRuns(w, t);
    SubsetCard(ActiveRuns(w', t), ActiveRuns(w, t));
  }

  /** Of runs that share a template and its limits at most one is active under forbid and
      replace, at most maxParallel under allow, in every state of every interleaving. */
  lemma {:induction false} ConcurrencyHolds(tr: seq<World>, i: nat, t: string, l: Limits)
    requires t != "" && l.policy != OtherPolicy && IsWorldRun(tr) && i < |tr|
    requires forall k :: 0 <= k < |tr| ==> Governed(tr[k], t, l)
    ensures |ActiveRuns(tr[i], t)| <= Limit(l)
  {
    if i == 0 {
      assert ActiveRuns(tr[0], t) == {};
    } else {
      ConcurrencyHolds(tr, i - 1, t, l);
      assert WorldStepAt(tr, i - 1) && Governed(tr[i - 1], t, l);
      if WorldDrift(tr[i - 1], tr[i]) {
        DriftKeepsLimit(tr[i - 1], tr[i], t);
      } else {
        var name, o :| name in tr[i - 1] && tr[i] == Act(tr[i - 1], name, o);
        LimitKept(tr[i - 1], name, o, t, l);
      }
    }
  }

  /** Over every interleaving, once a run is in a terminal phase nothing of its status
      changes again and nothing more is created for it, as long as the object exists. */
  lemma {:induction false} TerminalForever(tr: seq<World>, i: nat, j: nat, n: string)
    requires IsWorldRun(tr) && i <= j < |tr| && forall k :: i <= k <= j ==> n in tr[k]
    requires IsTerminal(tr[i][n].state.run.phase)
    ensures var s, s' := tr[i][n].state, tr[j][n].state;
            s'.run == s.run.(hasRunId := s'.run.hasRunId) && s'.created == s.created && s'.rollbacks == s.rollbacks
    decreases j
  {
    if i < j {
      TerminalForever(tr, i, j - 1, n);
      assert n in tr[j - 1] && WorldStepAt(tr, j - 1);
      hide Act, IsWorldRun;
      if WorldDrift(tr[j - 1], tr[j]) {
        assert EnvironmentStep(tr[j - 1][n].state, tr[j][n].state);
      } else {
        var name, o :| name in tr[j - 1] && tr[j] == Act(tr[j - 1], name, o);
        TerminalIsFinal(tr[j - 1], name, o, n);
      }
    }
  }

  // ---------------------------------------------------------------- safety of all runs

  /** Admission has seen every workflow. */
  ghost predicate Admitted(w: World) {
    forall n :: n in w ==> DistinctNames(w[n].spec.steps)
  }

  ghost predicate SoundRun(it: Item) {
    Inv(it.spec, it.state)
  }

  ghost predicate AllSound(w: World) {
    forall n :: n in w ==> SoundRun(w[n])
  }

  /** A reconcile keeps the invariant of the run it is for, and of those it cancels on the way. */
  lemma ActKeepsInv(w: World, name: string, o: Observation)
    requires name in w && Admitted(w) && AllSound(w)
    ensures Admitted(Act(w, name, o)) && AllSound(Act(w, name, o))
  {
    var w' := Act(w, name, o);
    ActKeys(w, name, o);
    forall n | n in w' ensures DistinctNames(w'[n].spec.steps) && SoundRun(w'[n]) {
      assert SoundRun(w[n]);
      if n == name {
        ActOnSelf(w, name, o);
      } else {
        ActOnOthers(w, name, o, n);
        PolicyKeeps(w[n].spec, w[n].state);
        hide Act, Inv, CancelledByPolicy, IsPeer, DistinctNames;
      }
    }
  }

  /** Enforcing a policy keeps the invariant of the runs it cancels. */
  lemma EnforcedSound(w: World, name: string)
    requires name in w && AllSound(w)
    ensures AllSound(Enforced(w, name)) && Enforced(w, name).Keys == w.Keys
    ensures name in Enforced(w, name) && Enforced(w, name)[name] == w[name]
  {
    hide Inv, CancelledByPolicy;
    forall n | n in w ensures SoundRun(w[n]) && SoundRun(w[n].(state := CancelledByPolicy(w[n].state))) {
      PolicyKeeps(w[n].spec, w[n].state);
    }
  }

  lemma ActOnSelf(w: World, name: string, o: Observation)
    requires name in w && DistinctNames(w[name].spec.steps) && SoundRun(w[name])
    ensures var w' := Act(w, name, o); w'[name].spec == w[name].spec && SoundRun(w'[name])
  {
    var it := w[name];
    var held := ReachesPolicy(it, o) && Holds(it.limits.value, |Peers(w, name)|);
    ReconcileKeeps(it.spec, it.state, o.(blocked := held));
    hide Inv, Reconcile, Peers, Enforced;
  }

  /** Every reachable state of every run satisfies the invariant, over every interleaving
      with the other runs and their cancellations. */
  lemma {:induction false} WorldSafety(tr: seq<World>, i: nat)
    requires IsWorldRun(tr) && i < |tr| && forall k :: 0 <= k < |tr| ==> Admitted(tr[k])
    ensures AllSound(tr[i])
  {
    if i > 0 {
      var a, b := tr[i - 1], tr[i];
      WorldSafety(tr, i - 1);
      assert WorldStepAt(tr, i - 1) && Admitted(a);
      hide Act, IsWorldRun, Admitted, AllSound, WorldDrift;
      if WorldDrift(a, b) {
        DriftKeepsInv(a, b);
      } else {
        var name, o :| name in a && b == Act(a, name, o);
        ActKeepsInv(a, name, o);
      }
    } else {
      assert tr[0] == map[];
    }
  }

  lemma DriftKeepsInv(w: World, w': World)
    requires WorldDrift(w, w') && AllSound(w)
    ensures AllSound(w')
  {
    forall n | n in w' ensures SoundRun(w'[n]) {
      if n in w {
        assert SoundRun(w[n]);
        hide Structure;
        EnvironmentKeeps(w[n].spec, w[n].state, w'[n].state);
      } else {
        InitialInv(w'[n].spec, w'[n].state);
      }
    }
  }
}
