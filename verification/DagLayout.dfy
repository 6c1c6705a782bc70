/** The dashboard's layering of a step DAG (`buildDAGGroups`): a memoised
    longest-path recursion over a plain object, then one group per depth. */
module DagLayout {
  import opened StepGraph
  import opened Admission

  /** Names every plain object answers to before anything is stored in it. The
      memo `depth = {}` is such an object, so reading one of these names yields a
      function or an object instead of `undefined`. */
  const INHERITED := {
    "constructor", "toString", "toLocaleString", "valueOf", "hasOwnProperty",
    "isPrototypeOf", "propertyIsEnumerable", "__proto__", "__defineGetter__",
    "__defineSetter__", "__lookupGetter__", "__lookupSetter__" }

  /** A number, or what arithmetic on an inherited member gives. */
  datatype Depth = Num(d: nat) | NotANumber

  function Succ(v: Depth): Depth {
    if v.Num? then Num(v.d + 1) else v
  }

  /** Math.max on two operands. */
  function Max(a: Depth, b: Depth): Depth {
    if a.NotANumber? || b.NotANumber? then NotANumber
    else if a.d < b.d then b else a
  }

  /** The graph the recursion sees: the steps, and the names the memo object inherits. */
  datatype Graph = Graph(steps: seq<StepSpec>, inherited: set<string>) {

    /** dependsOn of the first step called n. */
    function Deps(n: string): seq<string> {
      match FindStep(steps, n)
      case None => []
      case Some(s) => s.dependsOn
    }

    /** A dependency chain starting at n. */
    ghost predicate Chain(n: string, p: seq<string>)
      decreases p
    {
      && p != [] && p[0] == n
      && (|p| > 1 ==> p[1] in Deps(n) && Chain(p[1], p[1..]))
    }

    /** d edges make the longest chain from n. */
    ghost predicate Longest(n: string, d: nat) {
      && (exists p :: Chain(n, p) && |p| == d + 1)
      && forall p :: Chain(n, p) ==> |p| <= d + 1
    }

    ghost predicate Reaches(a: string, b: string) {
      exists p :: Chain(a, p) && p[|p| - 1] == b
    }

    /** Some chain from n meets an inherited name. */
    ghost predicate Tainted(n: string) {
      exists b :: b in inherited && Reaches(n, b)
    }

    /** rank falls along every edge: the recursion terminates. */
    ghost predicate Ranked(rank: string -> nat) {
      forall n, d :: d in Deps(n) ==> rank(d) < rank(n)
    }

    ghost predicate DepthIs(n: string, v: Depth) {
      match v
      case Num(d) => !Tainted(n) && Longest(n, d)
      case NotANumber => Tainted(n)
    }

    /** d is clean and its longest chain has fewer than m edges. */
    ghost predicate Below(d: string, m: nat) {
      !Tainted(d) && exists k: nat :: k < m && Longest(d, k)
    }

    /** v is the running maximum of 1 + depth over deps. */
    ghost predicate MaxOver(deps: seq<string>, v: Depth) {
      match v
      case NotANumber => exists d :: d in deps && Tainted(d)
      case Num(m) =>
        && (forall d :: d in deps ==> Below(d, m))
        && (m > 0 ==> exists d :: d in deps && Longest(d, m - 1))
    }

    lemma ChainCons(n: string, d: string, p: seq<string>)
      requires Chain(d, p) && d in Deps(n)
      ensures Chain(n, [n] + p)
    {
      assert ([n] + p)[1..] == p;
    }

    lemma ReachesSelf(n: string)
      ensures Reaches(n, n)
    {
      assert Chain(n, [n]);
    }

    lemma ReachesThrough(a: string, d: string, b: string)
      requires d in Deps(a) && Reaches(d, b)
      ensures Reaches(a, b)
    {
      var p :| Chain(d, p) && p[|p| - 1] == b;
      ChainCons(a, d, p);
      assert ([a] + p)[|[a] + p| - 1] == b;
    }

    lemma ReachesFirst(a: string, b: string)
      requires Reaches(a, b) && a != b
      ensures exists d :: d in Deps(a) && Reaches(d, b)
    {
      var p :| Chain(a, p) && p[|p| - 1] == b;
      assert Chain(p[1], p[1..]) && p[1..][|p[1..]| - 1] == b;
    }

    lemma TaintFromDep(n: string, d: string)
      requires d in Deps(n) && Tainted(d)
      ensures Tainted(n)
    {
      var b :| b in inherited && Reaches(d, b);
      ReachesThrough(n, d, b);
    }

    lemma TaintToDep(n: string)
      requires Tainted(n) && n !in inherited
      ensures exists d :: d in Deps(n) && Tainted(d)
    {
      var b :| b in inherited && Reaches(n, b);
      ReachesFirst(n, b);
    }

    lemma LongestIsUnique(n: string, d: nat, e: nat)
      requires Longest(n, d) && Longest(n, e)
      ensures d == e
    {
    }

    lemma LongestFromDeps(n: string, m: nat)
      requires MaxOver(Deps(n), Num(m))
      ensures Longest(n, m)
    {
      hide Graph.Deps, Graph.Tainted;
      if m > 0 {
        var d :| d in Deps(n) && Longest(d, m - 1);
        var p :| Chain(d, p) && |p| == m;
        ChainCons(n, d, p);
        assert |[n] + p| == m + 1;
      } else {
        assert Chain(n, [n]);
      }
      forall p | Chain(n, p) ensures |p| <= m + 1 {
        if |p| > 1 {
          assert Below(p[1], m);
          var k: nat :| k < m && Longest(p[1], k);
          assert |p[1..]| <= k + 1;
        }
      }
    }

    /** The recursion equation of the longest chain. */
    lemma MaxIsDepth(n: string, v: Depth)
      requires n !in inherited && MaxOver(Deps(n), v)
      ensures DepthIs(n, v)
    {
      match v
      case NotANumber =>
        var d :| d in Deps(n) && Tainted(d);
        TaintFromDep(n, d);
      case Num(m) =>
        if Tainted(n) { TaintToDep(n); }
        LongestFromDeps(n, m);
    }

    lemma CleanReach(a: string, b: string)
      requires Reaches(a, b) && !Tainted(a)
      ensures !Tainted(b)
    {
      if Tainted(b) {
        var x :| x in inherited && Reaches(b, x);
        ReachesTrans(a, b, x);
      }
    }

    lemma {:induction false} ReachesTrans(a: string, b: string, c: string)
      requires Reaches(a, b) && Reaches(b, c)
      ensures Reaches(a, c)
    {
      var p :| Chain(a, p) && p[|p| - 1] == b;
      ChainReaches(a, p, c);
    }

    lemma {:induction false} ChainReaches(a: string, p: seq<string>, c: string)
      requires Chain(a, p) && Reaches(p[|p| - 1], c)
      ensures Reaches(a, c)
      decreases |p|
    {
      if |p| > 1 {
        ChainReaches(p[1], p[1..], c);
        ReachesThrough(a, p[1], c);
      }
    }

    lemma {:induction false} ReachesStep(a: string, p: seq<string>)
      requires Resolved(steps) && a in Names(steps) && Chain(a, p)
      ensures p[|p| - 1] in Names(steps)
      decreases |p|
    {
      if |p| > 1 {
        var s := FindStep(steps, a).value;
        var i :| 0 <= i < |steps| && steps[i] == s;
        assert DependsOn(steps, a, p[1]);
        ReachesStep(p[1], p[1..]);
      }
    }

    /** Below a name of depth top every smaller depth occurs. */
    lemma {:induction false} EveryDepthOccurs(n: string, top: nat, d: nat) returns (x: string)
      requires Longest(n, top) && d <= top
      ensures Reaches(n, x) && Longest(x, d)
      decreases top
    {
      if d == top {
        ReachesSelf(n);
        x := n;
      } else {
        var p :| Chain(n, p) && |p| == top + 1;
        forall q | Chain(p[1], q) ensures |q| <= top {
          ChainCons(n, p[1], q);
          assert |[n] + q| <= top + 1;
        }
        assert Chain(p[1], p[1..]) && |p[1..]| == top;
        x := EveryDepthOccurs(p[1], top - 1, d);
        ReachesThrough(n, p[1], x);
      }
    }

    lemma StepOfDepth(s: StepSpec, n: string, top: nat, d: nat) returns (t: StepSpec)
      requires Resolved(steps) && s in steps && Reaches(s.name, n) && Longest(n, top) && d <= top
      ensures t in steps && Longest(t.name, d)
    {
      var x := EveryDepthOccurs(n, top, d);
      ReachesTrans(s.name, n, x);
      var p :| Chain(s.name, p) && p[|p| - 1] == x;
      var i :| 0 <= i < |steps| && steps[i] == s;
      ReachesStep(s.name, p);
      t := FindStep(steps, x).value;
    }

    /** Every stored depth is the true one, and inherited names are never stored. */
    ghost predicate SoundMemo(depth: map<string, Depth>) {
      forall n :: n in depth ==> n !in inherited && DepthIs(n, depth[n])
    }

    /** The memo has only gained entries, for names that name reaches. */
    ghost predicate Extends(before: map<string, Depth>, after: map<string, Depth>, name: string) {
      before.Keys <= after.Keys && forall n :: n in after && n !in before ==> Reaches(name, n)
    }

    lemma ExtendsThrough(a: map<string, Depth>, b: map<string, Depth>, c: map<string, Depth>, name: string, dep: string)
      requires dep in Deps(name) && Extends(a, b, name) && Extends(b, c, dep)
      ensures Extends(a, c, name)
    {
      forall n | n in c && n !in a ensures Reaches(name, n) {
        if n !in b { ReachesThrough(name, dep, n); }
      }
    }

    lemma EmptyMemo()
      ensures SoundMemo(map[])
    {
    }

    ghost predicate FromStep(n: string) {
      exists s :: s in steps && Reaches(s.name, n)
    }

    /** depth covers every step whose name it can hold, and nothing the steps do not reach. */
    ghost predicate Filled(depth: map<string, Depth>) {
      && SoundMemo(depth)
      && (forall s :: s in steps && s.name !in inherited ==> s.name in depth)
      && forall n :: n in depth ==> FromStep(n)
    }

    /** No step reaches an inherited name. */
    ghost predicate Clean() {
      forall s :: s in steps ==> !Tainted(s.name)
    }

    lemma CleanName(s: StepSpec)
      requires Clean() && s in steps
      ensures s.name !in inherited
    {
      ReachesSelf(s.name);
    }

    lemma CleanNumber(depth: map<string, Depth>, n: string)
      requires Filled(depth) && Clean() && n in depth
      ensures depth[n].Num?
    {
      assert FromStep(n);
      var s :| s in steps && Reaches(s.name, n);
      CleanReach(s.name, n);
    }

    /** Up to the maximum, no level is empty. */
    lemma LevelInhabited(depth: map<string, Depth>, maxD: nat, d: nat)
      requires Filled(depth) && Clean() && Resolved(steps) && steps != []
      requires IsMax(depth, Num(maxD)) && d <= maxD
      ensures Level(steps, depth, d) != []
    {
      CleanName(steps[0]);
      assert steps[0].name in depth;
      var top :| top in depth && depth[top] == Num(maxD);
      assert FromStep(top);
      var s :| s in steps && Reaches(s.name, top);
      var x := StepOfDepth(s, top, maxD, d);
      CleanName(x);
      CleanNumber(depth, x.name);
      LongestIsUnique(x.name, d, depth[x.name].d);
      LevelMembers(steps, depth, d);
      assert x in Level(steps, depth, d);
    }

    /** All levels together hold every step exactly when the graph is clean. */
    lemma UptoExactly(depth: map<string, Depth>, maxD: nat)
      requires Filled(depth) && IsMax(depth, Num(maxD))
      ensures multiset(Upto(steps, depth, maxD + 1)) == multiset(steps) <==> Clean()
    {
      if Clean() {
        forall i | 0 <= i < |steps| ensures Shallower(depth, steps[i], maxD + 1) {
          CleanName(steps[i]);
          CleanNumber(depth, steps[i].name);
        }
        UptoAll(steps, depth, maxD);
      } else {
        var s :| s in steps && Tainted(s.name);
        UptoMembers(steps, depth, maxD + 1);
        assert s.name !in depth;
        assert s in multiset(steps) && s !in multiset(Upto(steps, depth, maxD + 1));
      }
    }

    /** A maximum that is no number comes from a tainted step. */
    lemma NoNumber(depth: map<string, Depth>)
      requires Filled(depth) && IsMax(depth, NotANumber)
      ensures !Clean() && steps != []
    {
      var n :| n in depth && depth[n].NotANumber?;
      assert FromStep(n);
      if Clean() { CleanNumber(depth, n); }
    }

    lemma MaxStart()
      ensures MaxOver([], Num(0))
    {
    }

    lemma MaxGrows(deps: seq<string>, v: Depth, dep: string, w: Depth)
      requires MaxOver(deps, v) && DepthIs(dep, w)
      ensures MaxOver(deps + [dep], Max(v, Succ(w)))
    {
      hide Graph.Deps, Graph.Tainted, Graph.Longest;
      var more := deps + [dep];
      assert dep in more && forall d :: d in deps ==> d in more;
      if Max(v, Succ(w)).NotANumber? {
      } else {
        var m := Max(v, Succ(w)).d;
        forall d | d in more ensures Below(d, m) {
          if d in deps { assert Below(d, v.d); }
        }
        if v == Num(m) && m > 0 {
          var d :| d in deps && Longest(d, m - 1);
          assert d in more;
        }
      }
    }
  }

  // ---------------------------------------------------------------- the layout object

  class Layout {
    const g: Graph
    var depth: map<string, Depth>

    constructor (g: Graph)
      ensures this.g == g && depth == map[] && Sound()
    {
      this.g := g;
      depth := map[];
    }

    ghost predicate Sound()
      reads this
    {
      g.SoundMemo(depth)
    }

    method GetDepth(name: string, ghost rank: string -> nat) returns (v: Depth)
      requires Sound() && g.Ranked(rank)
      modifies this
      ensures Sound() && g.DepthIs(name, v)
      ensures name !in g.inherited ==> name in depth && depth[name] == v
      ensures g.Extends(old(depth), depth, name)
      decreases rank(name)
    {
      hide Graph.Chain, Graph.Longest, Graph.MaxOver, Graph.Below, Graph.Reaches, FindStep;
      g.ReachesSelf(name);
      if name in g.inherited { return NotANumber; }
      if name in depth { return depth[name]; }
      var deps := g.Deps(name);
      v := Num(0);
      g.MaxStart();
      for i := 0 to |deps|
        invariant Sound() && g.MaxOver(deps[..i], v)
        invariant g.Extends(old(depth), depth, name)
      {
        ghost var before := depth;
        var w := GetDepth(deps[i], rank);
        g.ExtendsThrough(old(depth), before, depth, name, deps[i]);
        g.MaxGrows(deps[..i], v, deps[i], w);
        assert deps[..i + 1] == deps[..i] + [deps[i]];
        v := Max(v, Succ(w));
      }
      assert deps[..|deps|] == deps;
      g.MaxIsDepth(name, v);
      depth := depth[name := v];
    }

    /** Math.max over the stored values and 0, in any order. */
    method MaxDepth() returns (m: Depth)
      ensures IsMax(depth, m)
    {
      m := Num(0);
      var rest := depth.Keys;
      while rest != {}
        invariant rest <= depth.Keys
        invariant m.NotANumber? <==> exists n :: n in depth && n !in rest && depth[n].NotANumber?
        invariant m.Num? ==> forall n :: n in depth && n !in rest ==> depth[n].d <= m.d
        invariant m.Num? && rest != depth.Keys ==> exists n :: n in depth && n !in rest && depth[n] == m
        invariant rest == depth.Keys ==> m == Num(0)
        decreases |rest|
      {
        var n :| n in rest;
        rest := rest - {n};
        m := Max(m, depth[n]);
      }
    }

    method FillDepths(ghost rank: string -> nat)
      requires depth == map[] && g.Ranked(rank)
      modifies this
      ensures g.Filled(depth)
    {
      hide Graph.SoundMemo, Graph.Reaches;
      g.EmptyMemo();
      for i := 0 to |g.steps|
        invariant Sound()
        invariant forall j :: 0 <= j < i && g.steps[j].name !in g.inherited ==> g.steps[j].name in depth
        invariant forall n :: n in depth ==> g.FromStep(n)
      {
        ghost var before := depth;
        var _ := GetDepth(g.steps[i].name, rank);
        forall n | n in depth ensures g.FromStep(n) {
          if n !in before { assert g.Reaches(g.steps[i].name, n); }
        }
      }
    }

    method GroupByDepth(maxD: nat) returns (groups: seq<seq<StepSpec>>)
      requires g.Filled(depth) && IsMax(depth, Num(maxD))
      ensures multiset(Concat(groups)) == multiset(Upto(g.steps, depth, maxD + 1))
      ensures g.Clean() && Resolved(g.steps) ==> Layered(g, groups)
      ensures KeepsOrder(g.steps, groups)
    {
      hide GroupedBelow, Level, Upto, Concat, Layered, KeepsOrder, IsMax, Graph.Filled, Graph.Clean;
      groups := [];
      GroupStart(g, depth);
      for d := 0 to maxD + 1
        invariant GroupedBelow(g, depth, groups, d)
      {
        var level := Level(g.steps, depth, d);
        GroupOne(g, depth, groups, maxD, d);
        if |level| > 0 {
          groups := groups + [level];
        }
      }
      GroupEnd(g, depth, groups, maxD + 1);
    }

    /** The layering. It shows every step exactly once precisely when no step reaches a
        name the memo object inherits; and then the k-th group holds exactly the steps
        whose longest dependency chain has k edges, provided all dependencies are steps. */
    method BuildGroups(ghost rank: string -> nat) returns (groups: seq<seq<StepSpec>>)
      requires depth == map[] && g.Ranked(rank)
      modifies this
      ensures multiset(Concat(groups)) == multiset(g.steps) <==> g.Clean()
      ensures g.Clean() && Resolved(g.steps) ==> Layered(g, groups)
      ensures KeepsOrder(g.steps, groups)
    {
      hide Level, Upto, Layered, IsMax, Graph.Filled, Graph.Clean, FindStep;
      FillDepths(rank);
      var maxD := MaxDepth();
      if maxD.Num? {
        groups := GroupByDepth(maxD.d);
        g.UptoExactly(depth, maxD.d);
      } else {
        groups := [];
        g.NoNumber(depth);
        assert g.steps[0] in multiset(g.steps);
      }
    }
  }

  ghost predicate IsMax(depth: map<string, Depth>, m: Depth) {
    && (m.NotANumber? <==> exists n :: n in depth && depth[n].NotANumber?)
    && (m.Num? ==> forall n :: n in depth ==> depth[n].d <= m.d)
    && (m.Num? && depth != map[] ==> exists n :: n in depth && depth[n] == m)
  }

  /** The groups made from the levels below d. */
  ghost predicate GroupedBelow(g: Graph, depth: map<string, Depth>, groups: seq<seq<StepSpec>>, d: nat) {
    && multiset(Concat(groups)) == multiset(Upto(g.steps, depth, d))
    && KeepsOrder(g.steps, groups)
    && (g.steps == [] ==> groups == [])
    && (g.Clean() && Resolved(g.steps) && g.steps != [] ==> |groups| == d && Layered(g, groups))
  }

  lemma GroupStart(g: Graph, depth: map<string, Depth>)
    ensures GroupedBelow(g, depth, [], 0)
  {
    UptoZero(g.steps, depth);
  }

  lemma GroupEnd(g: Graph, depth: map<string, Depth>, groups: seq<seq<StepSpec>>, d: nat)
    requires GroupedBelow(g, depth, groups, d)
    ensures multiset(Concat(groups)) == multiset(Upto(g.steps, depth, d))
    ensures g.Clean() && Resolved(g.steps) ==> Layered(g, groups)
    ensures KeepsOrder(g.steps, groups)
  {
  }

  lemma AddLayer(g: Graph, depth: map<string, Depth>, groups: seq<seq<StepSpec>>, d: nat)
    requires Layered(g, groups) && |groups| == d && g.SoundMemo(depth) && Level(g.steps, depth, d) != []
    ensures Layered(g, groups + [Level(g.steps, depth, d)])
  {
    LevelMembers(g.steps, depth, d);
  }

  lemma KeepsOrderSoFar(g: Graph, depth: map<string, Depth>, groups: seq<seq<StepSpec>>, d: nat)
    requires GroupedBelow(g, depth, groups, d)
    ensures KeepsOrder(g.steps, groups)
  {
    hide KeepsOrder;
  }

  lemma GroupOne(g: Graph, depth: map<string, Depth>, groups: seq<seq<StepSpec>>, maxD: nat, d: nat)
    requires g.Filled(depth) && IsMax(depth, Num(maxD)) && d <= maxD
    requires GroupedBelow(g, depth, groups, d)
    ensures var level := Level(g.steps, depth, d);
            GroupedBelow(g, depth, if level != [] then groups + [level] else groups, d + 1)
  {
    var level := Level(g.steps, depth, d);
    UptoStep(g.steps, depth, d);
    ConcatSnoc(groups, level);
    var places := LevelInOrder(g.steps, depth, d);
    hide KeepsOrder, PickedAt;
    if level != [] { KeepsOrderSoFar(g, depth, groups, d); KeepsSnoc(g.steps, groups, level, places); }
    if g.Clean() && Resolved(g.steps) && g.steps != [] {
      g.LevelInhabited(depth, maxD, d);
      AddLayer(g, depth, groups, d);
    }
  }

  function Concat(groups: seq<seq<StepSpec>>): seq<StepSpec> {
    if groups == [] then [] else Concat(groups[..|groups| - 1]) + groups[|groups| - 1]
  }

  lemma ConcatSnoc(groups: seq<seq<StepSpec>>, level: seq<StepSpec>)
    ensures Concat(groups + [level]) == Concat(groups) + level
  {
    assert (groups + [level])[..|groups + [level]| - 1] == groups;
  }

  /** Group k holds steps whose longest dependency chain has exactly k edges, and none is empty. */
  ghost predicate Layered(g: Graph, groups: seq<seq<StepSpec>>) {
    forall k :: 0 <= k < |groups| ==> groups[k] != [] && forall s :: s in groups[k] ==> g.Longest(s.name, k)
  }

  predicate AtDepth(depth: map<string, Depth>, s: StepSpec, d: nat) {
    s.name in depth && depth[s.name] == Num(d)
  }

  /** steps.filter(s => depth[s.name] === d). */
  function Level(steps: seq<StepSpec>, depth: map<string, Depth>, d: nat): seq<StepSpec> {
    if steps == [] then []
    else (if AtDepth(depth, steps[0], d) then [steps[0]] else []) + Level(steps[1..], depth, d)
  }

  /** part is made of the steps at the given, increasing places. */
  ghost predicate PickedAt(steps: seq<StepSpec>, part: seq<StepSpec>, places: seq<nat>) {
    && |places| == |part|
    && (forall k :: 0 <= k < |part| ==> places[k] < |steps| && part[k] == steps[places[k]])
    && forall k, l :: 0 <= k < l < |part| ==> places[k] < places[l]
  }

  /** Within a group steps stand in the order of the list. */
  ghost predicate KeepsOrder(steps: seq<StepSpec>, groups: seq<seq<StepSpec>>) {
    forall k :: 0 <= k < |groups| ==> InOrder(steps, groups[k])
  }

  ghost predicate InOrder(steps: seq<StepSpec>, part: seq<StepSpec>) {
    exists places: seq<nat> :: PickedAt(steps, part, places)
  }

  lemma {:induction false} LevelInOrder(steps: seq<StepSpec>, depth: map<string, Depth>, d: nat)
    returns (places: seq<nat>)
    ensures PickedAt(steps, Level(steps, depth, d), places)
  {
    if steps == [] { return []; }
    var rest := LevelInOrder(steps[1..], depth, d);
    hide AtDepth, PickedAt;
    places := PickedLater(steps, Level(steps[1..], depth, d), rest);
    if AtDepth(depth, steps[0], d) {
      PickedFirst(steps, Level(steps[1..], depth, d), rest, places);
      places := [0] + places;
    } else {
      assert [] + Level(steps[1..], depth, d) == Level(steps[1..], depth, d);
    }
  }

  lemma PickedLater(steps: seq<StepSpec>, part: seq<StepSpec>, rest: seq<nat>) returns (places: seq<nat>)
    requires steps != [] && PickedAt(steps[1..], part, rest)
    ensures PickedAt(steps, part, places) && |places| == |rest|
    ensures forall k :: 0 <= k < |places| ==> places[k] == rest[k] + 1
  {
    places := seq(|rest|, k requires 0 <= k < |rest| => rest[k] + 1);
  }

  lemma PickedFirst(steps: seq<StepSpec>, part: seq<StepSpec>, rest: seq<nat>, places: seq<nat>)
    requires steps != [] && PickedAt(steps, part, places) && |places| == |rest|
    requires forall k :: 0 <= k < |places| ==> places[k] == rest[k] + 1
    ensures PickedAt(steps, [steps[0]] + part, [0] + places)
  {
    var a, b := [steps[0]] + part, [0] + places;
    forall k | 0 <= k < |a| ensures b[k] < |steps| && a[k] == steps[b[k]] {
      if k > 0 { assert a[k] == part[k - 1] && b[k] == places[k - 1]; }
    }
    forall k, l | 0 <= k < l < |a| ensures b[k] < b[l] {
      assert b[l] == places[l - 1];
      if k > 0 { assert b[k] == places[k - 1]; }
    }
  }

  lemma KeepsSnoc(steps: seq<StepSpec>, groups: seq<seq<StepSpec>>, part: seq<StepSpec>, places: seq<nat>)
    requires KeepsOrder(steps, groups) && PickedAt(steps, part, places)
    ensures KeepsOrder(steps, groups + [part])
  {
    assert InOrder(steps, part);
    hide InOrder;
  }

  lemma LevelMembers(steps: seq<StepSpec>, depth: map<string, Depth>, d: nat)
    ensures forall s :: s in Level(steps, depth, d) <==> s in steps && AtDepth(depth, s, d)
  {
  }

  predicate Shallower(depth: map<string, Depth>, s: StepSpec, d: nat) {
    s.name in depth && depth[s.name].Num? && depth[s.name].d < d
  }

  function Upto(steps: seq<StepSpec>, depth: map<string, Depth>, d: nat): seq<StepSpec> {
    if steps == [] then []
    else (if Shallower(depth, steps[0], d) then [steps[0]] else []) + Upto(steps[1..], depth, d)
  }

  lemma UptoZero(steps: seq<StepSpec>, depth: map<string, Depth>)
    ensures Upto(steps, depth, 0) == []
  {
  }

  lemma {:induction false} UptoStep(steps: seq<StepSpec>, depth: map<string, Depth>, d: nat)
    ensures multiset(Upto(steps, depth, d + 1)) == multiset(Upto(steps, depth, d)) + multiset(Level(steps, depth, d))
  {
    if steps != [] {
      UptoStep(steps[1..], depth, d);
    }
  }

  lemma UptoMembers(steps: seq<StepSpec>, depth: map<string, Depth>, d: nat)
    ensures forall s :: s in Upto(steps, depth, d) ==> s.name in depth && depth[s.name].Num?
  {
  }

  lemma {:induction false} UptoAll(steps: seq<StepSpec>, depth: map<string, Depth>, top: nat)
    requires forall i :: 0 <= i < |steps| ==> Shallower(depth, steps[i], top + 1)
    ensures Upto(steps, depth, top + 1) == steps
  {
    if steps != [] {
      UptoAll(steps[1..], depth, top);
    }
  }

  /** What the recursion follows are the steps' dependencies. */
  lemma DepsExactly(g: Graph, n: string, d: string)
    requires DistinctNames(g.steps)
    ensures d in g.Deps(n) <==> DependsOn(g.steps, n, d)
  {
    if DependsOn(g.steps, n, d) {
      var i :| 0 <= i < |g.steps| && g.steps[i].name == n && d in g.steps[i].dependsOn;
      var s := FindStep(g.steps, n).value;
      var j :| 0 <= j < |g.steps| && g.steps[j] == s;
      assert i == j;
    }
    if d in g.Deps(n) {
      var s := FindStep(g.steps, n).value;
      var j :| 0 <= j < |g.steps| && g.steps[j] == s;
    }
  }

  /** Its chains are the dependency paths. */
  lemma {:induction false} ChainsArePaths(g: Graph, n: string, p: seq<string>)
    requires DistinctNames(g.steps)
    ensures g.Chain(n, p) <==> p != [] && p[0] == n && IsPath(g.steps, p)
    decreases |p|
  {
    hide Graph.Deps, DistinctNames, DependsOn;
    if |p| > 1 {
      DepsExactly(g, p[0], p[1]);
      ChainsArePaths(g, p[1], p[1..]);
      PathSteps(g.steps, p);
    }
  }

  lemma PathSteps(steps: seq<StepSpec>, p: seq<string>)
    requires |p| > 1
    ensures IsPath(steps, p) <==> DependsOn(steps, p[0], p[1]) && IsPath(steps, p[1..])
  {
    hide DependsOn;
    if IsPath(steps, p) {
      assert Linked(steps, p, 0);
      PathSuffix(steps, p, 1);
    }
    if DependsOn(steps, p[0], p[1]) && IsPath(steps, p[1..]) {
      forall i | 0 <= i < |p| - 1 ensures Linked(steps, p, i) {
        if i > 0 { assert Linked(steps, p[1..], i - 1); }
      }
    }
  }

  /** A dependency sits in a strictly earlier group. */
  lemma LayersRespectDependencies(g: Graph, groups: seq<seq<StepSpec>>, s: StepSpec, t: StepSpec, k: nat, j: nat)
    requires DistinctNames(g.steps) && Layered(g, groups) && k < |groups| && j < |groups|
    requires s in groups[k] && t in groups[j] && DependsOn(g.steps, s.name, t.name)
    ensures j < k
  {
    DepsExactly(g, s.name, t.name);
    hide Graph.Deps, DistinctNames;
    var p :| g.Chain(t.name, p) && |p| == j + 1;
    g.ChainCons(s.name, t.name, p);
    assert |[s.name] + p| <= k + 1;
  }

  /** There are as many groups as steps on the longest dependency path. */
  lemma GroupsCountLongestChain(g: Graph, groups: seq<seq<StepSpec>>)
    requires DistinctNames(g.steps)
    requires Layered(g, groups) && g.steps != [] && multiset(Concat(groups)) == multiset(g.steps)
    ensures forall p :: p != [] && p[0] in Names(g.steps) && IsPath(g.steps, p) ==> |p| <= |groups|
    ensures exists p :: p != [] && p[0] in Names(g.steps) && IsPath(g.steps, p) && |p| == |groups|
  {
    assert groups != [];
    hide Graph.Deps, DistinctNames;
    forall p | p != [] && p[0] in Names(g.steps) && IsPath(g.steps, p) ensures |p| <= |groups| {
      var i :| 0 <= i < |g.steps| && g.steps[i].name == p[0];
      ChainsArePaths(g, p[0], p);
      assert g.steps[i] in multiset(Concat(groups));
      InConcat(groups, g.steps[i]);
    }
    var k := |groups| - 1;
    var s := groups[k][0];
    InConcat(groups, s);
    assert s in multiset(Concat(groups)) && s in g.steps;
    var p :| g.Chain(s.name, p) && |p| == k + 1;
    ChainsArePaths(g, s.name, p);
  }

  /** A step in group k heads a path of k edges and none that is longer. */
  lemma GroupIsDepth(g: Graph, groups: seq<seq<StepSpec>>, s: StepSpec, k: nat)
    requires DistinctNames(g.steps) && Layered(g, groups) && k < |groups| && s in groups[k]
    ensures exists p :: IsPath(g.steps, p) && |p| == k + 1 && p[0] == s.name
    ensures forall p :: IsPath(g.steps, p) && p != [] && p[0] == s.name ==> |p| <= k + 1
  {
    hide Graph.Deps, DistinctNames;
    assert g.Longest(s.name, k);
    var p :| g.Chain(s.name, p) && |p| == k + 1;
    ChainsArePaths(g, s.name, p);
    forall q | IsPath(g.steps, q) && q != [] && q[0] == s.name ensures |q| <= k + 1 {
      ChainsArePaths(g, s.name, q);
    }
  }

  lemma {:induction false} InConcat(groups: seq<seq<StepSpec>>, s: StepSpec)
    ensures s in Concat(groups) <==> exists k :: 0 <= k < |groups| && s in groups[k]
  {
    if groups != [] {
      var init := groups[..|groups| - 1];
      InConcat(init, s);
      assert forall k :: 0 <= k < |init| ==> init[k] == groups[k];
    }
  }

  // ---------------------------------------------------------------- admitted workflows

  function Position(order: seq<string>, n: string): nat {
    if order == [] then 0 else if order[|order| - 1] == n then |order| else Position(order[..|order| - 1], n)
  }

  lemma PositionAt(order: seq<string>, k: nat)
    requires Distinct(order) && k < |order|
    ensures Position(order, order[k]) == k + 1
  {
    if k < |order| - 1 {
      PositionAt(order[..|order| - 1], k);
    }
  }

  /** A workflow the webhook admits is ranked, so the recursion terminates on it. */
  lemma AdmittedIsRanked(g: Graph, order: seq<string>)
    requires TopologicalOrder(g.steps, order)
    ensures g.Ranked(n => Position(order, n))
  {
    forall n, d | d in g.Deps(n) ensures Position(order, d) < Position(order, n) {
      var s := FindStep(g.steps, n).value;
      var i :| 0 <= i < |g.steps| && g.steps[i] == s;
      assert DependsOn(g.steps, n, d);
      assert n in Names(g.steps);
      var k :| 0 <= k < |order| && order[k] == n;
      var j :| 0 <= j < k && order[j] == d;
      PositionAt(order, k);
      PositionAt(order, j);
    }
  }

  /** On resolved dependencies the exact condition is simply: no step bears an inherited name. */
  lemma CleanExactly(g: Graph)
    requires Resolved(g.steps)
    ensures g.Clean() <==> Names(g.steps) !! g.inherited
  {
    if Names(g.steps) !! g.inherited {
      forall s | s in g.steps ensures !g.Tainted(s.name) {
        if g.Tainted(s.name) {
          var b :| b in g.inherited && g.Reaches(s.name, b);
          var p :| g.Chain(s.name, p) && p[|p| - 1] == b;
          g.ReachesStep(s.name, p);
        }
      }
    } else {
      var b :| b in Names(g.steps) && b in g.inherited;
      var i :| 0 <= i < |g.steps| && g.steps[i].name == b;
      g.ReachesSelf(b);
    }
  }

  /** The layering of a workflow the webhook admits. It shows every step, in layers, exactly
      when no step bears the name of a member every object has. */
  method BuildDAGGroups(steps: seq<StepSpec>, ghost order: seq<string>) returns (groups: seq<seq<StepSpec>>)
    requires TopologicalOrder(steps, order)
    ensures multiset(Concat(groups)) == multiset(steps) <==> Names(steps) !! INHERITED
    ensures Names(steps) !! INHERITED ==> Layered(Graph(steps, INHERITED), groups)
    ensures KeepsOrder(steps, groups)
  {
    hide TopologicalOrder, Resolved, Names, Layered;
    var g := Graph(steps, INHERITED);
    AdmittedIsRanked(g, order);
    OrderMeansResolved(steps, order);
    CleanExactly(g);
    hide Graph.Ranked, Graph.Clean;
    var layout := new Layout(g);
    groups := layout.BuildGroups(n => Position(order, n));
  }

  /** Every such name passes admission: the workflow whose one step bears it meets every
      condition of an unqualified admission. */
  lemma InheritedNameIsAdmissible(name: string) returns (r: Review)
    requires name in {
      "constructor", "toString", "toLocaleString", "valueOf", "hasOwnProperty", "isPrototypeOf",
      "propertyIsEnumerable", "__proto__", "__defineGetter__", "__defineSetter__", "__lookupGetter__",
      "__lookupSetter__" }
    ensures r.steps == [StepSpec(name, [], "agent", "", false, None)] && name in INHERITED
    ensures Structured(r) && Acyclic(r.steps) && AgentsFound(r) && (forall s :: s in r.steps ==> !Overlong(r, s))
      && Finished(r)
  {
    var steps := [StepSpec(name, [], "agent", "", false, None)];
    assert name != "" by { assert name[0] in {'c', 't', 'v', 'h', 'i', 'p', '_'}; }
    r := Review(steps, [], None, map[], "failFast", {}, {}, {});
    LoneStep(steps[0]);
  }
}
