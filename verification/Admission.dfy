/** The admission webhook for workflows: Kahn's algorithm in `DetectCycles`,
    and the structural checks of `Handle` in the order the webhook makes them. */
module Admission {
  import opened StepGraph

  // ---------------------------------------------------------------- edges as a list

  /** Every dependsOn entry of the steps called n, with repetitions. */
  function Edges(steps: seq<StepSpec>, n: string): seq<string> {
    if steps == [] then []
    else
      var last := steps[|steps| - 1];
      Edges(steps[..|steps| - 1], n) + if last.name == n then last.dependsOn else []
  }

  lemma EdgesSnoc(steps: seq<StepSpec>, s: StepSpec, n: string)
    ensures Edges(steps + [s], n) == Edges(steps, n) + if s.name == n then s.dependsOn else []
  {
    assert (steps + [s])[..|steps + [s]| - 1] == steps;
  }

  lemma {:induction false} EdgesMeaning(steps: seq<StepSpec>, n: string, d: string)
    ensures d in Edges(steps, n) <==> DependsOn(steps, n, d)
  {
    if steps != [] {
      var init, last := steps[..|steps| - 1], steps[|steps| - 1];
      EdgesMeaning(init, n, d);
      if DependsOn(init, n, d) {
        var i :| 0 <= i < |init| && init[i].name == n && d in init[i].dependsOn;
        assert steps[i] == init[i];
      }
      if DependsOn(steps, n, d) && !(last.name == n && d in last.dependsOn) {
        var i :| 0 <= i < |steps| && steps[i].name == n && d in steps[i].dependsOn;
        assert init[i] == steps[i];
      }
    }
  }

  lemma EdgesOfStranger(steps: seq<StepSpec>, n: string)
    requires n !in Names(steps)
    ensures Edges(steps, n) == []
  {
    if Edges(steps, n) != [] {
      EdgesMeaning(steps, n, Edges(steps, n)[0]);
    }
  }

  /** How many entries of s are not in done. */
  function Outside(s: seq<string>, done: set<string>): nat {
    if s == [] then 0 else (if s[0] in done then 0 else 1) + Outside(s[1..], done)
  }

  lemma OutsideGrow(s: seq<string>, done: set<string>, x: string)
    requires x !in done
    ensures multiset(s)[x] <= Outside(s, done)
    ensures Outside(s, done + {x}) == Outside(s, done) - multiset(s)[x]
  {
    if s != [] {
      OutsideGrow(s[1..], done, x);
      assert s == [s[0]] + s[1..];
    }
  }

  lemma OutsideZero(s: seq<string>, done: set<string>)
    ensures Outside(s, done) == 0 <==> forall d :: d in s ==> d in done
  {
  }

  lemma OutsideEmpty(s: seq<string>)
    ensures Outside(s, {}) == |s|
  {
  }

  // ---------------------------------------------------------------- the in-degree and adjacency maps

  function Neighbours(adj: map<string, seq<string>>, d: string): seq<string> {
    if d in adj then adj[d] else []
  }

  /** n is listed under d as often as the steps called n depend on d. */
  ghost predicate Listed(steps: seq<StepSpec>, adj: map<string, seq<string>>, d: string, n: string) {
    multiset(Neighbours(adj, d))[n] == multiset(Edges(steps, n))[d]
  }

  ghost predicate AdjacencyOf(steps: seq<StepSpec>, adj: map<string, seq<string>>) {
    forall d, n :: Listed(steps, adj, d, n)
  }

  ghost predicate DegreesOf(steps: seq<StepSpec>, inDegree: map<string, int>) {
    inDegree.Keys == Names(steps) && forall n :: n in inDegree ==> inDegree[n] == |Edges(steps, n)|
  }

  lemma NamesSnoc(steps: seq<StepSpec>, s: StepSpec)
    ensures Names(steps + [s]) == Names(steps) + {s.name}
  {
    forall n | n in Names(steps) ensures n in Names(steps + [s]) {
      var i :| 0 <= i < |steps| && steps[i].name == n;
      assert (steps + [s])[i].name == n;
    }
    assert (steps + [s])[|steps|].name == s.name;
  }

  lemma EdgesMore(steps: seq<StepSpec>, s: StepSpec, d: string, n: string)
    ensures Edges(steps + [s.(dependsOn := s.dependsOn + [d])], n)
         == Edges(steps + [s], n) + if n == s.name then [d] else []
  {
    EdgesSnoc(steps, s, n);
    EdgesSnoc(steps, s.(dependsOn := s.dependsOn + [d]), n);
  }

  lemma AddListed(steps: seq<StepSpec>, s: StepSpec, d: string, adj: map<string, seq<string>>, d': string, n: string)
    requires Listed(steps + [s], adj, d', n)
    ensures Listed(steps + [s.(dependsOn := s.dependsOn + [d])], adj[d := Neighbours(adj, d) + [s.name]], d', n)
  {
    EdgesMore(steps, s, d, n);
  }

  /** Recording one more edge d -> s.name keeps both maps exact. */
  lemma AddEdge(steps: seq<StepSpec>, s: StepSpec, d: string, inDegree: map<string, int>, adj: map<string, seq<string>>)
    requires DegreesOf(steps + [s], inDegree) && AdjacencyOf(steps + [s], adj)
    ensures s.name in inDegree
    ensures DegreesOf(steps + [s.(dependsOn := s.dependsOn + [d])], inDegree[s.name := inDegree[s.name] + 1])
    ensures AdjacencyOf(steps + [s.(dependsOn := s.dependsOn + [d])], adj[d := Neighbours(adj, d) + [s.name]])
  {
    var t := s.(dependsOn := s.dependsOn + [d]);
    NamesSnoc(steps, s);
    NamesSnoc(steps, t);
    var inDegree' := inDegree[s.name := inDegree[s.name] + 1];
    forall n | n in inDegree' ensures inDegree'[n] == |Edges(steps + [t], n)| {
      EdgesMore(steps, s, d, n);
    }
    var adj' := adj[d := Neighbours(adj, d) + [s.name]];
    forall d', n ensures Listed(steps + [t], adj', d', n) {
      assert Listed(steps + [s], adj, d', n);
      AddListed(steps, s, d, adj, d', n);
    }
  }

  /** A step with no edges yet only makes sure its name has an in-degree. */
  lemma AddStep(steps: seq<StepSpec>, s: StepSpec, inDegree: map<string, int>, adj: map<string, seq<string>>)
    requires DegreesOf(steps, inDegree) && AdjacencyOf(steps, adj) && s.dependsOn == []
    ensures DegreesOf(steps + [s], if s.name in inDegree then inDegree else inDegree[s.name := 0])
    ensures AdjacencyOf(steps + [s], adj)
  {
    EdgesOfBare(steps, s);
    BareDegree(steps, s, inDegree);
    hide Edges, DegreesOf;
    forall d, n ensures Listed(steps + [s], adj, d, n) {
      assert Listed(steps, adj, d, n);
    }
  }

  lemma EdgesOfBare(steps: seq<StepSpec>, s: StepSpec)
    requires s.dependsOn == []
    ensures forall n :: Edges(steps + [s], n) == Edges(steps, n)
  {
    forall n ensures Edges(steps + [s], n) == Edges(steps, n) {
      EdgesSnoc(steps, s, n);
    }
  }

  lemma BareDegree(steps: seq<StepSpec>, s: StepSpec, inDegree: map<string, int>)
    requires DegreesOf(steps, inDegree) && s.dependsOn == []
    ensures DegreesOf(steps + [s], if s.name in inDegree then inDegree else inDegree[s.name := 0])
  {
    NamesSnoc(steps, s);
    EdgesOfBare(steps, s);
    if s.name !in Names(steps) { EdgesOfStranger(steps, s.name); }
    hide Edges, Names;
  }

  lemma EmptyGraph()
    ensures DegreesOf([], map[]) && AdjacencyOf([], map[])
  {
  }

  method BuildGraph(steps: seq<StepSpec>) returns (inDegree: map<string, int>, adj: map<string, seq<string>>)
    ensures DegreesOf(steps, inDegree) && AdjacencyOf(steps, adj)
  {
    hide AdjacencyOf, DegreesOf, Edges;
    inDegree, adj := map[], map[];
    EmptyGraph();
    for i := 0 to |steps|
      invariant DegreesOf(steps[..i], inDegree) && AdjacencyOf(steps[..i], adj)
    {
      var step := steps[i];
      ghost var bare := step.(dependsOn := []);
      AddStep(steps[..i], bare, inDegree, adj);
      if step.name !in inDegree {
        inDegree := inDegree[step.name := 0];
      }
      for k := 0 to |step.dependsOn|
        invariant DegreesOf(steps[..i] + [step.(dependsOn := step.dependsOn[..k])], inDegree)
        invariant AdjacencyOf(steps[..i] + [step.(dependsOn := step.dependsOn[..k])], adj)
      {
        var dep := step.dependsOn[k];
        ghost var before := step.(dependsOn := step.dependsOn[..k]);
        AddEdge(steps[..i], before, dep, inDegree, adj);
        assert before.dependsOn + [dep] == step.dependsOn[..k + 1];
        adj := adj[dep := Neighbours(adj, dep) + [step.name]];
        inDegree := inDegree[step.name := inDegree[step.name] + 1];
      }
      assert step.(dependsOn := step.dependsOn[..|step.dependsOn|]) == step by {
        assert step.dependsOn[..|step.dependsOn|] == step.dependsOn;
      }
      assert steps[..i] + [step] == steps[..i + 1];
    }
    assert steps[..|steps|] == steps;
  }

  // ---------------------------------------------------------------- Kahn's algorithm

  ghost predicate Zeroes(inDegree: map<string, int>, s: set<string>) {
    forall n :: n in s <==> n in inDegree && inDegree[n] == 0
  }

  ghost predicate Remaining(steps: seq<StepSpec>, inDegree: map<string, int>, order: seq<string>) {
    forall n :: n in inDegree ==> inDegree[n] == Outside(Edges(steps, n), Elements(order))
  }

  lemma PopKeepsOrder(steps: seq<StepSpec>, order: seq<string>, node: string)
    requires DepsFirst(steps, order) && Outside(Edges(steps, node), Elements(order)) == 0
    ensures DepsFirst(steps, order + [node])
  {
    var o := order + [node];
    OutsideZero(Edges(steps, node), Elements(order));
    forall k, d | 0 <= k < |o| && DependsOn(steps, o[k], d) ensures d in o[..k] {
      EdgesMeaning(steps, o[k], d);
      assert o[..k] == order[..k];
      assert order[..|order|] == order;
    }
  }

  /** Collect, in any iteration order, the names of in-degree zero. */
  method SeedQueue(inDegree: map<string, int>) returns (queue: seq<string>)
    ensures Distinct(queue) && Zeroes(inDegree, Elements(queue))
  {
    queue := [];
    var rest := inDegree.Keys;
    while rest != {}
      invariant rest <= inDegree.Keys && Distinct(queue)
      invariant forall n :: n in Elements(queue) <==> n in inDegree && n !in rest && inDegree[n] == 0
      decreases |rest|
    {
      var name :| name in rest;
      rest := rest - {name};
      if inDegree[name] == 0 {
        queue := queue + [name];
      }
    }
  }

  /** The i-th neighbour still has an unvisited edge when it is reached. */
  lemma NeighbourWaits(steps: seq<StepSpec>, order: seq<string>, adj: map<string, seq<string>>, node: string, i: nat,
                       inDegree: map<string, int>)
    requires AdjacencyOf(steps, adj) && node !in order && i < |Neighbours(adj, node)|
    requires inDegree.Keys == Names(steps) && Remaining(steps, inDegree, order)
    ensures var n := Neighbours(adj, node)[i];
            n in inDegree && inDegree[n] - multiset(Neighbours(adj, node)[..i])[n] >= 1
  {
    var ns := Neighbours(adj, node);
    var n := ns[i];
    assert Listed(steps, adj, node, n);
    assert multiset(ns)[n] >= multiset(ns[..i])[n] + 1 by {
      assert ns == ns[..i] + [n] + ns[i + 1..];
    }
    if n !in Names(steps) {
      EdgesOfStranger(steps, n);
    }
    OutsideGrow(Edges(steps, n), Elements(order), node);
  }

  lemma LowerOne(inDegree: map<string, int>, seen: seq<string>, n: string)
    requires Distinct(seen) && Zeroes(inDegree, Elements(seen))
    requires n in inDegree && inDegree[n] >= 1
    ensures var lowered := inDegree[n := inDegree[n] - 1];
            if lowered[n] == 0 then Distinct(seen + [n]) && Zeroes(lowered, Elements(seen + [n]))
            else Zeroes(lowered, Elements(seen))
  {
    assert n !in Elements(seen);
    assert Elements(seen + [n]) == Elements(seen) + {n};
  }

  /** Lower the in-degree of every neighbour of a visited node, queueing those that reach zero. */
  method Visit(steps: seq<StepSpec>, ghost order: seq<string>, ghost adj: map<string, seq<string>>, node: string,
               neighbours: seq<string>, inDegree0: map<string, int>, queue0: seq<string>)
    returns (inDegree: map<string, int>, queue: seq<string>)
    requires Remaining(steps, inDegree0, order) && inDegree0.Keys == Names(steps)
    requires node !in order
    requires Distinct(order + [node] + queue0) && Zeroes(inDegree0, Elements(order + [node] + queue0))
    requires Neighbours(adj, node) == neighbours && AdjacencyOf(steps, adj)
    ensures inDegree.Keys == inDegree0.Keys && Remaining(steps, inDegree, order + [node])
    ensures Distinct(order + [node] + queue) && Zeroes(inDegree, Elements(order + [node] + queue))
  {
    hide Distinct, Zeroes, Elements, Edges, Outside, Listed, AdjacencyOf;
    inDegree, queue := inDegree0, queue0;
    ghost var seen := order + [node] + queue;
    for i := 0 to |neighbours|
      invariant inDegree.Keys == inDegree0.Keys
      invariant forall n :: n in inDegree ==> inDegree[n] == inDegree0[n] - multiset(neighbours[..i])[n]
      invariant seen == order + [node] + queue
      invariant Distinct(seen) && Zeroes(inDegree, Elements(seen))
    {
      var neighbour := neighbours[i];
      NeighbourWaits(steps, order, adj, node, i, inDegree0);
      assert neighbours[..i + 1] == neighbours[..i] + [neighbour];
      LowerOne(inDegree, seen, neighbour);
      inDegree := inDegree[neighbour := inDegree[neighbour] - 1];
      if inDegree[neighbour] == 0 {
        queue := queue + [neighbour];
        seen := seen + [neighbour];
      }
    }
    assert neighbours[..|neighbours|] == neighbours;
    VisitSettles(steps, order, adj, node, inDegree0, inDegree);
  }

  lemma VisitSettles(steps: seq<StepSpec>, order: seq<string>, adj: map<string, seq<string>>, node: string,
                     before: map<string, int>, after: map<string, int>)
    requires AdjacencyOf(steps, adj) && node !in order
    requires Remaining(steps, before, order) && after.Keys == before.Keys
    requires forall n :: n in after ==> after[n] == before[n] - multiset(Neighbours(adj, node))[n]
    ensures Remaining(steps, after, order + [node])
  {
    assert Elements(order + [node]) == Elements(order) + {node};
    forall n | n in after ensures after[n] == Outside(Edges(steps, n), Elements(order + [node])) {
      assert Listed(steps, adj, node, n);
      OutsideGrow(Edges(steps, n), Elements(order), node);
    }
  }

  lemma SomeoneIsLeft(steps: seq<StepSpec>, order: seq<string>) returns (n: string)
    requires Distinct(order) && Elements(order) <= Names(steps)
    requires DistinctNames(steps) && |order| != |steps|
    ensures n in Names(steps) && n !in order
  {
    DistinctCard(order);
    NamesCard(steps);
    var rest := Names(steps) - Elements(order);
    assert Names(steps) == Elements(order) + rest;
    n :| n in rest;
  }

  /** A stuck run of Kahn's algorithm over distinct, resolved names exhibits a cycle. */
  lemma StuckMeansCycle(steps: seq<StepSpec>, inDegree: map<string, int>, order: seq<string>) returns (c: seq<string>)
    requires inDegree.Keys == Names(steps) && Remaining(steps, inDegree, order)
    requires Distinct(order) && Zeroes(inDegree, Elements(order))
    requires |order| != |steps| && DistinctNames(steps) && Resolved(steps)
    ensures IsCycle(steps, c)
  {
    var stuck := Names(steps) - Elements(order);
    forall n {:trigger NeedsOneOf(steps, stuck, n)} | n in stuck ensures NeedsOneOf(steps, stuck, n) {
      OutsideZero(Edges(steps, n), Elements(order));
      var d :| d in Edges(steps, n) && d !in Elements(order);
      EdgesMeaning(steps, n, d);
      assert d in stuck;
    }
    var start := SomeoneIsLeft(steps, order);
    assert Elements([start]) == {start};
    c := WalkFindsCycle(steps, stuck, [start]);
  }

  /** Accepts exactly the lists with distinct names, resolvable dependencies and no
      cycle, whatever order the in-degree map is iterated in and however often a
      dependency is repeated. */
  method DetectCycles(steps: seq<StepSpec>) returns (ok: bool)
    ensures ok <==> DistinctNames(steps) && Resolved(steps) && Acyclic(steps)
    ensures ok ==> exists order :: TopologicalOrder(steps, order)
    ensures !ok && DistinctNames(steps) && Resolved(steps) ==> exists c :: IsCycle(steps, c)
  {
    var inDegree, adj := BuildGraph(steps);
    var queue := SeedQueue(inDegree);
    ghost var order: seq<string> := [];
    forall n | n in inDegree ensures inDegree[n] == Outside(Edges(steps, n), Elements(order)) {
      OutsideEmpty(Edges(steps, n));
      assert Elements(order) == {};
    }
    assert order + queue == queue;
    var visited := 0;
    while |queue| > 0
      invariant inDegree.Keys == Names(steps) && Remaining(steps, inDegree, order)
      invariant Distinct(order + queue) && Zeroes(inDegree, Elements(order + queue))
      invariant AdjacencyOf(steps, adj)
      invariant DepsFirst(steps, order) && visited == |order|
      decreases |Names(steps)| - |order|
    {
      var node := queue[0];
      assert order + queue == order + [node] + queue[1..];
      assert node in order + queue && node in Elements(order + queue);
      PopKeepsOrder(steps, order, node);
      assert node !in order by {
        assert (order + queue)[|order|] == node;
        assert forall i :: 0 <= i < |order| ==> (order + queue)[i] == order[i];
      }
      queue := queue[1..];
      visited := visited + 1;
      inDegree, queue := Visit(steps, order, adj, node, Neighbours(adj, node), inDegree, queue);
      order := order + [node];
      BoundedOrder(steps, order, queue);
    }
    assert order + queue == order;
    DistinctCard(order);
    NamesCard(steps);
    SubsetCard(Elements(order), Names(steps));
    ok := visited == |steps|;
    if ok {
      assert TopologicalOrder(steps, order);
      OrderMeansAcyclic(steps, order);
      OrderMeansResolved(steps, order);
    } else if DistinctNames(steps) && Resolved(steps) {
      var c := StuckMeansCycle(steps, inDegree, order);
      assert IsCycle(steps, c);
    }
  }

  lemma BoundedOrder(steps: seq<StepSpec>, order: seq<string>, queue: seq<string>)
    requires Distinct(order + queue) && Elements(order + queue) <= Names(steps)
    ensures |order| <= |Names(steps)|
  {
    DistinctCard(order + queue);
    SubsetCard(Elements(order + queue), Names(steps));
  }

  // ---------------------------------------------------------------- the webhook

  datatype Rule =
    | NoSteps | TooManySteps | EmptyName | DuplicateName | NeitherAgentNorType
    | UnknownDependency | SelfDependency | UnknownEdgeEnd | CycleDetected | UnknownAgent
    | MalformedCondition | DanglingReference | NegativeTimeout | UnknownStrategy

  datatype Verdict = Allowed | AllowedWithWarning | Denied(rule: Rule)

  /** What the webhook reads besides the steps. Text checks that rest on regular
      expressions, and the agents found in the cluster, are given by their outcome
      per step name. */
  datatype Review = Review(
    steps: seq<StepSpec>,
    edges: seq<(string, string)>,
    workflowTimeout: Option<int>,
    stepTimeout: map<string, int>,
    strategy: string,
    agentMissing: set<string>,
    malformed: set<string>,
    dangling: set<string>)

  const MAX_STEPS := 50
  const STRATEGIES := {"failFast", "continueOnError", "rollback", "stop", "continue"}

  function TimeoutOf(r: Review, s: StepSpec): int {
    if s.name in r.stepTimeout then r.stepTimeout[s.name] else 0
  }

  /** WF-006: some step may run longer than the whole workflow. */
  predicate Overlong(r: Review, s: StepSpec) {
    r.workflowTimeout.Some? && TimeoutOf(r, s) > 0 && TimeoutOf(r, s) > r.workflowTimeout.value
  }

  ghost predicate WellNamed(steps: seq<StepSpec>) {
    && DistinctNames(steps)
    && forall s :: s in steps ==> s.name != "" && (s.agentRef != "" || s.stepType != "")
  }

  ghost predicate Structured(r: Review) {
    && 1 <= |r.steps| <= MAX_STEPS
    && WellNamed(r.steps)
    && Resolved(r.steps)
    && (forall s :: s in r.steps ==> s.name !in s.dependsOn)
    && forall e :: e in r.edges ==> e.0 in Names(r.steps) && e.1 in Names(r.steps)
  }

  ghost predicate AgentsFound(r: Review) {
    forall s :: s in r.steps ==> s.agentRef == "" || s.name !in r.agentMissing
  }

  /** What the checks after WF-006 demand. */
  ghost predicate Finished(r: Review) {
    && (forall s :: s in r.steps && s.hasCondition ==> s.name !in r.malformed && s.name !in r.dangling)
    && (forall s :: s in r.steps ==> TimeoutOf(r, s) >= 0)
    && (r.strategy == "" || r.strategy in STRATEGIES)
  }

  /** The i-th step is the first at fault in its name or kind, and this is the fault. */
  ghost predicate NameFault(steps: seq<StepSpec>, i: nat, rule: Rule) {
    && i < |steps| && WellNamed(steps[..i])
    && match rule
       case EmptyName => steps[i].name == ""
       case DuplicateName => steps[i].name != "" && steps[i].name in Names(steps[..i])
       case NeitherAgentNorType =>
         && steps[i].name != "" && steps[i].name !in Names(steps[..i])
         && steps[i].agentRef == "" && steps[i].stepType == ""
       case _ => false
  }

  /** The k-th dependency of the i-th step is the first at fault, and this is the fault. */
  ghost predicate DepFault(steps: seq<StepSpec>, i: nat, k: nat, rule: Rule) {
    && i < |steps| && k < |steps[i].dependsOn|
    && (forall j :: 0 <= j < i ==> DepsSound(steps, steps[j]))
    && (forall m :: 0 <= m < k ==> steps[i].dependsOn[m] in Names(steps) && steps[i].dependsOn[m] != steps[i].name)
    && match rule
       case UnknownDependency => steps[i].dependsOn[k] !in Names(steps)
       case SelfDependency => steps[i].dependsOn[k] == steps[i].name
       case _ => false
  }

  ghost predicate AnyMalformed(r: Review) {
    exists s :: s in r.steps && s.hasCondition && s.name in r.malformed
  }

  ghost predicate AnyDangling(r: Review) {
    exists s :: s in r.steps && s.hasCondition && s.name in r.dangling
  }

  ghost predicate AnyNegative(r: Review) {
    exists s :: s in r.steps && TimeoutOf(r, s) < 0
  }

  /** What the late checks deny, in their order. */
  ghost predicate TailFault(r: Review, rule: Rule) {
    match rule
    case MalformedCondition => AnyMalformed(r)
    case DanglingReference => !AnyMalformed(r) && AnyDangling(r)
    case NegativeTimeout => !AnyMalformed(r) && !AnyDangling(r) && AnyNegative(r)
    case UnknownStrategy =>
      && !AnyMalformed(r) && !AnyDangling(r) && !AnyNegative(r)
      && r.strategy !in {"", "failFast", "continueOnError", "rollback", "stop", "continue"}
    case _ => false
  }

  ghost predicate NamesAndDepsFine(r: Review) {
    && 1 <= |r.steps| <= 50 && WellNamed(r.steps) && Resolved(r.steps)
    && forall s :: s in r.steps ==> s.name !in s.dependsOn
  }

  /** The first fault of a workflow, in the order the webhook looks for them. */
  ghost predicate Fault(r: Review, rule: Rule) {
    match rule
    case NoSteps => |r.steps| == 0
    case TooManySteps => |r.steps| > 50
    case UnknownEdgeEnd =>
      NamesAndDepsFine(r) && exists e :: e in r.edges && (e.0 !in Names(r.steps) || e.1 !in Names(r.steps))
    case CycleDetected => Structured(r) && exists c :: IsCycle(r.steps, c)
    case UnknownAgent => Structured(r) && Acyclic(r.steps) && !AgentsFound(r)
    case _ =>
      || (1 <= |r.steps| <= 50 && exists i :: NameFault(r.steps, i, rule))
      || (1 <= |r.steps| <= 50 && WellNamed(r.steps) && exists i, k :: DepFault(r.steps, i, k, rule))
      || (Structured(r) && Acyclic(r.steps) && AgentsFound(r) && (forall s :: s in r.steps ==> !Overlong(r, s))
          && TailFault(r, rule))
  }

  method CheckNames(steps: seq<StepSpec>) returns (denial: Option<Rule>, stepNames: set<string>)
    ensures denial.None? <==> WellNamed(steps)
    ensures denial.None? ==> stepNames == Names(steps)
    ensures denial.Some? ==> denial.value in {EmptyName, DuplicateName, NeitherAgentNorType}
    ensures denial.Some? ==> exists i :: NameFault(steps, i, denial.value)
  {
    stepNames := {};
    for i := 0 to |steps|
      invariant forall n :: n in stepNames <==> exists j :: 0 <= j < i && steps[j].name == n
      invariant forall j, k :: 0 <= j < k < i ==> steps[j].name != steps[k].name
      invariant forall j :: 0 <= j < i ==> steps[j].name != "" && (steps[j].agentRef != "" || steps[j].stepType != "")
    {
      var step := steps[i];
      assert WellNamed(steps[..i]) && Names(steps[..i]) == stepNames;
      if step.name == "" {
        assert NameFault(steps, i, EmptyName);
        return Some(EmptyName), stepNames;
      }
      if step.name in stepNames {
        assert NameFault(steps, i, DuplicateName);
        return Some(DuplicateName), stepNames;
      }
      stepNames := stepNames + {step.name};
      if step.agentRef == "" && step.stepType == "" {
        assert NameFault(steps, i, NeitherAgentNorType);
        return Some(NeitherAgentNorType), stepNames;
      }
    }
    return None, stepNames;
  }

  ghost predicate DepsSound(steps: seq<StepSpec>, s: StepSpec) {
    s.name !in s.dependsOn && forall d :: d in s.dependsOn ==> d in Names(steps)
  }

  method CheckDependencies(steps: seq<StepSpec>, stepNames: set<string>) returns (denial: Option<Rule>)
    requires stepNames == Names(steps)
    ensures denial.None? <==> Resolved(steps) && forall s :: s in steps ==> s.name !in s.dependsOn
    ensures denial.Some? ==> denial.value in {UnknownDependency, SelfDependency}
    ensures denial.Some? ==> exists i, k :: DepFault(steps, i, k, denial.value)
  {
    for i := 0 to |steps|
      invariant forall j :: 0 <= j < i ==> DepsSound(steps, steps[j])
    {
      var step := steps[i];
      for k := 0 to |step.dependsOn|
        invariant forall m :: 0 <= m < k ==> step.dependsOn[m] in stepNames && step.dependsOn[m] != step.name
      {
        var dep := step.dependsOn[k];
        if dep !in stepNames {
          assert DependsOn(steps, step.name, dep) && DepFault(steps, i, k, UnknownDependency);
          return Some(UnknownDependency);
        }
        if dep == step.name {
          assert DepFault(steps, i, k, SelfDependency);
          return Some(SelfDependency);
        }
      }
    }
    forall n, d | DependsOn(steps, n, d) ensures d in Names(steps) {
      var i :| 0 <= i < |steps| && steps[i].name == n && d in steps[i].dependsOn;
      assert DepsSound(steps, steps[i]);
    }
    forall s | s in steps ensures s.name !in s.dependsOn {
      assert DepsSound(steps, s);
    }
    return None;
  }

  method CheckTail(r: Review) returns (denial: Option<Rule>)
    ensures denial.None? <==> Finished(r)
    ensures denial.Some? ==> TailFault(r, denial.value)
  {
    for i := 0 to |r.steps|
      invariant forall j :: 0 <= j < i && r.steps[j].hasCondition ==> r.steps[j].name !in r.malformed
    {
      if r.steps[i].hasCondition && r.steps[i].name in r.malformed { return Some(MalformedCondition); }
    }
    for i := 0 to |r.steps|
      invariant forall j :: 0 <= j < i && r.steps[j].hasCondition ==> r.steps[j].name !in r.dangling
    {
      if r.steps[i].hasCondition && r.steps[i].name in r.dangling { return Some(DanglingReference); }
    }
    for i := 0 to |r.steps|
      invariant forall j :: 0 <= j < i ==> TimeoutOf(r, r.steps[j]) >= 0
    {
      if TimeoutOf(r, r.steps[i]) < 0 { return Some(NegativeTimeout); }
    }
    if r.strategy != "" && r.strategy !in STRATEGIES { return Some(UnknownStrategy); }
    return None;
  }

  /** The warning does let such workflows in: here with a strategy nobody knows. */
  lemma WarningSkipsChecks() returns (r: Review)
    ensures Structured(r) && Acyclic(r.steps) && AgentsFound(r) && exists s :: s in r.steps && Overlong(r, s)
    ensures !Finished(r)
  {
    var steps := [StepSpec("a", [], "agent", "", false, None)];
    r := Review(steps, [], Some(30), map["a" := 60], "bogus", {}, {}, {});
    LoneStep(steps[0]);
    assert steps[0] in r.steps && Overlong(r, steps[0]);
  }

  /** One step without dependencies is a DAG. */
  lemma LoneStep(s: StepSpec)
    requires s.dependsOn == []
    ensures Names([s]) == {s.name} && TopologicalOrder([s], [s.name]) && Acyclic([s]) && Resolved([s])
  {
    assert Names([s]) == {s.name} by { assert [s][0].name == s.name; }
    assert Elements([s.name]) == {s.name};
    forall n, d ensures !DependsOn([s], n, d) { }
    OrderMeansAcyclic([s], [s.name]);
    OrderMeansResolved([s], [s.name]);
  }

  /** The verdict, exactly. Every admitted workflow has a topological order, and a
      WF-004 denial always has a cycle behind it. The WF-006 warning admits at once:
      what the later checks demand is then not demanded. */
  method Handle(r: Review) returns (v: Verdict)
    ensures v == Allowed <==>
      Structured(r) && Acyclic(r.steps) && AgentsFound(r) && (forall s :: s in r.steps ==> !Overlong(r, s))
        && Finished(r)
    ensures v == AllowedWithWarning <==>
      && Structured(r) && Acyclic(r.steps) && AgentsFound(r)
      && exists s :: s in r.steps && s.name in r.stepTimeout && r.workflowTimeout.Some?
                     && r.stepTimeout[s.name] > 0 && r.stepTimeout[s.name] > r.workflowTimeout.value
    ensures !v.Denied? ==> exists order :: TopologicalOrder(r.steps, order)
    ensures v == Denied(CycleDetected) <==> Structured(r) && exists c :: IsCycle(r.steps, c)
    ensures v.Denied? ==> Fault(r, v.rule)
  {
    if |r.steps| == 0 { return Denied(NoSteps); }
    if |r.steps| > MAX_STEPS { return Denied(TooManySteps); }
    var named, stepNames := CheckNames(r.steps);
    if named.Some? { return Denied(named.value); }
    var deps := CheckDependencies(r.steps, stepNames);
    if deps.Some? { return Denied(deps.value); }
    for i := 0 to |r.edges|
      invariant forall j :: 0 <= j < i ==> r.edges[j].0 in stepNames && r.edges[j].1 in stepNames
    {
      if r.edges[i].0 !in stepNames || r.edges[i].1 !in stepNames { return Denied(UnknownEdgeEnd); }
    }
    var acyclic := DetectCycles(r.steps);
    if !acyclic { return Denied(CycleDetected); }
    for i := 0 to |r.steps|
      invariant forall j :: 0 <= j < i ==> r.steps[j].agentRef == "" || r.steps[j].name !in r.agentMissing
    {
      if r.steps[i].agentRef != "" && r.steps[i].name in r.agentMissing { return Denied(UnknownAgent); }
    }
    for i := 0 to |r.steps|
      invariant forall j :: 0 <= j < i ==> !Overlong(r, r.steps[j])
    {
      if Overlong(r, r.steps[i]) { return AllowedWithWarning; }
    }
    var tail := CheckTail(r);
    if tail.Some? { return Denied(tail.value); }
    return Allowed;
  }
}
