/** The step DAG of a workflow: names, dependency edges, paths, cycles and
    topological orders. Shared by the admission webhook, the controller and the
    dashboard layout. */
module StepGraph {

  datatype Option<+T> = None | Some(value: T)

  /** One entry of spec.steps, with the fields the engine branches on. */
  datatype StepSpec = StepSpec(
    name: string,
    dependsOn: seq<string>,
    agentRef: string,
    stepType: string,
    hasCondition: bool,
    retryPolicy: Option<int>)

  function Names(steps: seq<StepSpec>): set<string> {
    set i | 0 <= i < |steps| :: steps[i].name
  }

  ghost predicate DistinctNames(steps: seq<StepSpec>) {
    forall i, j :: 0 <= i < j < |steps| ==> steps[i].name != steps[j].name
  }

  /** n lists d in the dependsOn of some step called n. */
  ghost predicate DependsOn(steps: seq<StepSpec>, n: string, d: string) {
    exists i :: 0 <= i < |steps| && steps[i].name == n && d in steps[i].dependsOn
  }

  ghost predicate Resolved(steps: seq<StepSpec>) {
    forall n, d :: DependsOn(steps, n, d) ==> d in Names(steps)
  }

  ghost predicate Linked(steps: seq<StepSpec>, p: seq<string>, i: int)
    requires 0 <= i < |p| - 1
  {
    DependsOn(steps, p[i], p[i + 1])
  }

  /** Each element of p depends on the next one. */
  ghost predicate IsPath(steps: seq<StepSpec>, p: seq<string>) {
    forall i :: 0 <= i < |p| - 1 ==> Linked(steps, p, i)
  }

  lemma PathSuffix(steps: seq<StepSpec>, p: seq<string>, k: nat)
    requires IsPath(steps, p) && k <= |p|
    ensures IsPath(steps, p[k..])
  {
    forall i | 0 <= i < |p[k..]| - 1 ensures Linked(steps, p[k..], i) {
      assert Linked(steps, p, k + i);
    }
  }

  lemma PathExtend(steps: seq<StepSpec>, p: seq<string>, d: string)
    requires IsPath(steps, p) && p != [] && DependsOn(steps, p[|p| - 1], d)
    ensures IsPath(steps, p + [d])
  {
    forall i | 0 <= i < |p + [d]| - 1 ensures Linked(steps, p + [d], i) {
      if i < |p| - 1 { assert Linked(steps, p, i); }
    }
  }

  ghost predicate IsCycle(steps: seq<StepSpec>, p: seq<string>) {
    |p| >= 2 && p[0] == p[|p| - 1] && IsPath(steps, p)
  }

  ghost predicate Acyclic(steps: seq<StepSpec>) {
    forall p :: !IsCycle(steps, p)
  }

  ghost predicate Distinct(s: seq<string>) {
    forall i, j :: 0 <= i < j < |s| ==> s[i] != s[j]
  }

  function Elements(s: seq<string>): set<string> {
    set x | x in s
  }

  /** Every dependency of order[k] stands before k. */
  ghost predicate DepsFirst(steps: seq<StepSpec>, order: seq<string>) {
    forall k, d :: 0 <= k < |order| && DependsOn(steps, order[k], d) ==> d in order[..k]
  }

  /** order lists every step name once, each after all it depends on. */
  ghost predicate TopologicalOrder(steps: seq<StepSpec>, order: seq<string>) {
    Distinct(order) && Elements(order) == Names(steps) && DepsFirst(steps, order)
  }

  function FindStep(steps: seq<StepSpec>, name: string): (r: Option<StepSpec>)
    ensures r.None? <==> name !in Names(steps)
    ensures r.Some? ==> r.value in steps && r.value.name == name
  {
    if steps == [] then None
    else if steps[0].name == name then Some(steps[0])
    else
      assert forall i :: 0 < i < |steps| ==> steps[i] == steps[1..][i - 1];
      FindStep(steps[1..], name)
  }

  lemma DistinctCard(s: seq<string>)
    requires Distinct(s)
    ensures |Elements(s)| == |s|
  {
    if s != [] {
      DistinctCard(s[1..]);
      assert Elements(s) == {s[0]} + Elements(s[1..]);
    }
  }

  lemma SubsetCard<T>(a: set<T>, b: set<T>)
    requires a <= b
    ensures |a| <= |b|
    ensures |a| == |b| ==> a == b
  {
    if a != {} {
      var x :| x in a;
      SubsetCard(a - {x}, b - {x});
    }
  }

  lemma NamesCons(steps: seq<StepSpec>)
    requires steps != []
    ensures Names(steps) == {steps[0].name} + Names(steps[1..])
  {
    assert forall i :: 0 < i < |steps| ==> steps[i] == steps[1..][i - 1];
    assert forall i :: 0 <= i < |steps[1..]| ==> steps[1..][i] == steps[i + 1];
  }

  lemma {:induction false} NamesCard(steps: seq<StepSpec>)
    ensures |Names(steps)| <= |steps|
    ensures |Names(steps)| == |steps| <==> DistinctNames(steps)
  {
    if steps != [] {
      var rest := steps[1..];
      NamesCard(rest);
      NamesCons(steps);
      if steps[0].name in Names(rest) {
        var k :| 0 <= k < |rest| && rest[k].name == steps[0].name;
        assert steps[k + 1].name == steps[0].name;
      } else {
        assert DistinctNames(rest) ==> DistinctNames(steps) by {
          assert forall i :: 0 < i < |steps| ==> steps[i] == rest[i - 1] && rest[i - 1].name in Names(rest);
        }
      }
    }
  }

  /** A path never revisits: with a topological order no path closes. */
  lemma {:induction false} PathDescends(steps: seq<StepSpec>, order: seq<string>, p: seq<string>, k: nat)
    requires DepsFirst(steps, order) && IsPath(steps, p) && |p| >= 2
    requires k < |order| && order[k] == p[0]
    ensures p[|p| - 1] in order[..k]
  {
    assert Linked(steps, p, 0);
    var m :| 0 <= m < k && order[m] == p[1];
    if |p| > 2 {
      PathSuffix(steps, p, 1);
      PathDescends(steps, order, p[1..], m);
      assert p[|p| - 1] in order[..m];
    }
  }

  lemma OrderMeansAcyclic(steps: seq<StepSpec>, order: seq<string>)
    requires TopologicalOrder(steps, order)
    ensures Acyclic(steps)
  {
    forall p | IsCycle(steps, p) ensures false {
      assert Linked(steps, p, 0);
      assert p[0] in Names(steps);
      var k :| 0 <= k < |order| && order[k] == p[0];
      PathDescends(steps, order, p, k);
    }
  }

  lemma OrderMeansResolved(steps: seq<StepSpec>, order: seq<string>)
    requires TopologicalOrder(steps, order)
    ensures Resolved(steps)
  {
    forall n, d | DependsOn(steps, n, d) ensures d in Names(steps) {
      assert n in Names(steps);
      var k :| 0 <= k < |order| && order[k] == n;
      assert d in order[..k];
      assert d in Elements(order);
    }
  }

  ghost predicate NeedsOneOf(steps: seq<StepSpec>, stuck: set<string>, n: string) {
    exists d :: d in stuck && DependsOn(steps, n, d)
  }

  /** In a non-empty set where everyone depends on a member, walking the edges closes a cycle. */
  lemma {:induction false} WalkFindsCycle(steps: seq<StepSpec>, stuck: set<string>, p: seq<string>)
      returns (c: seq<string>)
    requires forall n {:trigger NeedsOneOf(steps, stuck, n)} :: n in stuck ==> NeedsOneOf(steps, stuck, n)
    requires p != [] && Distinct(p) && Elements(p) <= stuck && IsPath(steps, p)
    ensures IsCycle(steps, c)
    decreases |stuck| - |p|
  {
    var last := p[|p| - 1];
    assert last in Elements(p);
    assert NeedsOneOf(steps, stuck, last);
    var d :| d in stuck && DependsOn(steps, last, d);
    var q := p + [d];
    PathExtend(steps, p, d);
    if d in p {
      var i :| 0 <= i < |p| && p[i] == d;
      c := q[i..];
      PathSuffix(steps, q, i);
    } else {
      DistinctCard(q);
      SubsetCard(Elements(q), stuck);
      c := WalkFindsCycle(steps, stuck, q);
    }
  }
}
