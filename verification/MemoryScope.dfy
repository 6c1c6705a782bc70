/** The key of the memory pool an agent reads from and writes to. */
module MemoryScope {

  /** Who shares a pool. */
  datatype Pool = AgentPool(namespace: string, agent: string) | GroupPool(namespace: string, group: string)
    | NamespacePool(namespace: string)

  /** What the key is computed from: the workflow's namespace, the agent's name, its memory
      scope ("" if unset) and its component label ("" if absent). */
  datatype Owner = Owner(namespace: string, agent: string, scope: string, component: string)

  function MemoryScopeKey(w: Owner): string {
    var scope := if w.scope == "" then "agent" else w.scope;
    if scope == "group" then
      if w.component != "" then w.namespace + "/group/" + w.component else w.namespace + "/agent/" + w.agent
    else if scope == "namespace" then w.namespace + "/" + w.namespace
    else w.namespace + "/agent/" + w.agent
  }

  /** The pool an owner means: group pools need a label, and anything unknown is the agent's own. */
  function PoolOf(w: Owner): Pool {
    if w.scope == "namespace" then NamespacePool(w.namespace)
    else if w.scope == "group" && w.component != "" then GroupPool(w.namespace, w.component)
    else AgentPool(w.namespace, w.agent)
  }

  predicate NoSlash(s: string) { '/' !in s }

  /** Kubernetes names and label values contain no slash. */
  predicate Plain(w: Owner) {
    NoSlash(w.namespace) && NoSlash(w.agent) && NoSlash(w.component)
  }

  function Rest(p: Pool): string {
    match p
    case AgentPool(_, a) => "agent/" + a
    case GroupPool(_, g) => "group/" + g
    case NamespacePool(n) => n
  }

  lemma KeyShape(w: Owner)
    ensures MemoryScopeKey(w) == w.namespace + "/" + Rest(PoolOf(w)) && PoolOf(w).namespace == w.namespace
  {
    assert w.namespace + "/agent/" + w.agent == w.namespace + "/" + ("agent/" + w.agent);
    assert w.namespace + "/group/" + w.component == w.namespace + "/" + ("group/" + w.component);
  }

  /** The keys themselves, and the pools they stand for: an unlabelled group and an unknown
      scope fall back to the agent's own pool. */
  lemma KeyExactly(n: string, a: string, c: string)
    ensures MemoryScopeKey(Owner(n, a, "agent", c)) == MemoryScopeKey(Owner(n, a, "", c)) == n + "/agent/" + a
    ensures c != "" ==> MemoryScopeKey(Owner(n, a, "group", c)) == n + "/group/" + c
    ensures MemoryScopeKey(Owner(n, a, "group", "")) == n + "/agent/" + a
    ensures MemoryScopeKey(Owner(n, a, "namespace", c)) == n + "/" + n
    ensures forall scope :: scope !in {"group", "namespace"} ==>
      MemoryScopeKey(Owner(n, a, scope, c)) == n + "/agent/" + a && PoolOf(Owner(n, a, scope, c)) == AgentPool(n, a)
  {
  }

  /** The first slash separates the namespace. */
  lemma FirstSlash(n: string, m: string, x: string, y: string)
    requires NoSlash(n) && NoSlash(m) && n + "/" + x == m + "/" + y
    ensures n == m && x == y
  {
    var k := n + "/" + x;
    assert k[|n|] == '/' && k[|m|] == '/';
    assert forall i :: 0 <= i < |n| ==> k[i] == n[i];
    assert forall i :: 0 <= i < |m| ==> k[i] == m[i];
    assert |n| == |m|;
    assert n == k[..|n|] && m == k[..|m|];
    assert x == k[|n| + 1..] && y == k[|m| + 1..];
  }

  /** Two owners share a key exactly when they mean the same pool. */
  lemma KeyIsPool(v: Owner, w: Owner)
    requires Plain(v) && Plain(w)
    ensures MemoryScopeKey(v) == MemoryScopeKey(w) <==> PoolOf(v) == PoolOf(w)
  {
    KeyShape(v);
    KeyShape(w);
    if MemoryScopeKey(v) == MemoryScopeKey(w) {
      var x, y := Rest(PoolOf(v)), Rest(PoolOf(w));
      FirstSlash(v.namespace, w.namespace, x, y);
      assert PoolOf(v).NamespacePool? <==> NoSlash(x) by { SlashedRest(v); }
      assert PoolOf(w).NamespacePool? <==> NoSlash(y) by { SlashedRest(w); }
      if !PoolOf(v).NamespacePool? {
        assert x[0] == y[0] && x[6..] == y[6..];
        assert PoolOf(v).AgentPool? <==> x[0] == 'a';
        assert PoolOf(w).AgentPool? <==> y[0] == 'a';
      }
    }
  }

  lemma SlashedRest(w: Owner)
    requires Plain(w)
    ensures PoolOf(w).NamespacePool? <==> NoSlash(Rest(PoolOf(w)))
  {
    var r := Rest(PoolOf(w));
    if !PoolOf(w).NamespacePool? { assert r[5] == '/'; }
  }

  /** With slashes in names two pools can share a key. */
  lemma SlashesCollide()
    ensures exists v, w :: MemoryScopeKey(v) == MemoryScopeKey(w) && PoolOf(v) != PoolOf(w)
  {
    var v := Owner("n/agent/a", "", "namespace", "");
    var w := Owner("n", "a/n/agent/a", "agent", "");
    assert MemoryScopeKey(v) == "n/agent/a/n/agent/a" == MemoryScopeKey(w);
  }
}
