/** The directed task graph (networkx's `DiGraph` as the scheduling core uses it)
    and the graph-theoretic notions behind the three networkx calls the core
    makes: `is_directed_acyclic_graph`, `topological_sort` and
    `dag_longest_path` / `dag_longest_path_length`. Those calls are not modelled
    by their implementation: their answers reach the model as parameters that
    satisfy `TopoAnswer` and `IsLongestPath`. */
module Digraph {
  import opened Wrappers
  import opened Seqs

  /** A precedence pair (predecessor id, successor id). */
  type Edge = (string, string)

  /** `order` lists every node exactly once and every edge points forward in it. */
  ghost predicate IsTopoOrder(order: seq<string>, nodes: seq<string>, edges: set<Edge>) {
    && Distinct(order)
    && (forall n :: n in order <==> n in nodes)
    && (forall i, j :: 0 <= i < |order| && 0 <= j < |order| && (order[i], order[j]) in edges ==> i < j)
  }

  /** Acyclicity, stated as the existence of a topological order. */
  ghost predicate IsDag(nodes: seq<string>, edges: set<Edge>) {
    exists order :: IsTopoOrder(order, nodes, edges)
  }

  /** A non-empty chain of nodes, each joined to the next by an edge. */
  ghost predicate IsPath(p: seq<string>, nodes: seq<string>, edges: set<Edge>) {
    && |p| > 0
    && (forall k :: 0 <= k < |p| ==> p[k] in nodes)
    && (forall k :: 0 <= k < |p| - 1 ==> (p[k], p[k + 1]) in edges)
  }

  /** What `dag_longest_path` returns on a DAG: the empty list for the empty
      graph, otherwise a path with the largest number of edges. The edges carry
      no data, so every edge weighs 1 whatever weight key is asked for. */
  ghost predicate IsLongestPath(path: seq<string>, nodes: seq<string>, edges: set<Edge>) {
    if |nodes| == 0 then path == []
    else IsPath(path, nodes, edges) && forall p :: IsPath(p, nodes, edges) ==> |p| <= |path|
  }

  /** The answer of `topological_sort` / `is_directed_acyclic_graph` for a graph:
      `Some(order)` with a topological order, or `None` when none exists. */
  ghost predicate TopoAnswer(topo: Option<seq<string>>, nodes: seq<string>, edges: set<Edge>) {
    match topo
    case Some(order) => IsTopoOrder(order, nodes, edges)
    case None => !IsDag(nodes, edges)
  }

  /** `dag_longest_path_length`: the number of edges of a longest path. */
  function EdgeCount(path: seq<string>): (c: nat)
    ensures c < |path| || path == []
  {
    if path == [] then 0 else |path| - 1
  }

  ghost function IndexOf(s: seq<string>, x: string): (i: nat)
    requires x in s
    ensures i < |s| && s[i] == x
  {
    var i :| 0 <= i < |s| && s[i] == x; i
  }

  lemma ConsecutiveIncreasing(xs: seq<int>)
    requires forall k :: 0 <= k < |xs| - 1 ==> xs[k] < xs[k + 1]
    ensures forall k, l :: 0 <= k < l < |xs| ==> xs[k] < xs[l]
  {
    forall k, l | 0 <= k < l < |xs| ensures xs[k] < xs[l] {
      var m := k;
      while m < l
        invariant k <= m <= l && (m == k || xs[k] < xs[m])
      {
        m := m + 1;
      }
    }
  }

  /** Along a path, positions in a topological order strictly increase. */
  lemma PathPositionsIncrease(order: seq<string>, nodes: seq<string>, edges: set<Edge>, p: seq<string>)
    requires IsTopoOrder(order, nodes, edges) && IsPath(p, nodes, edges)
    ensures forall k, l :: 0 <= k < l < |p| ==> IndexOf(order, p[k]) < IndexOf(order, p[l])
  {
    var pos := seq(|p|, k requires 0 <= k < |p| => IndexOf(order, p[k]));
    forall k | 0 <= k < |p| - 1 ensures pos[k] < pos[k + 1] {
      assert (order[pos[k]], order[pos[k + 1]]) in edges;
    }
    ConsecutiveIncreasing(pos);
    assert forall k :: 0 <= k < |p| ==> pos[k] == IndexOf(order, p[k]);
  }

  /** A path in a DAG visits no node twice, so it has at most as many nodes as the graph
      and, in particular, never returns to where it started. */
  lemma PathInDagIsSimple(order: seq<string>, nodes: seq<string>, edges: set<Edge>, p: seq<string>)
    requires IsTopoOrder(order, nodes, edges) && IsPath(p, nodes, edges)
    ensures Distinct(p)
    ensures |p| <= |order| <= |nodes|
  {
    PathPositionsIncrease(order, nodes, edges, p);
    DistinctLengthBound(p, order);
    DistinctLengthBound(order, nodes);
  }

  /** No closed walk exists in a DAG; in particular there is no self-loop. */
  lemma DagHasNoCycle(nodes: seq<string>, edges: set<Edge>, p: seq<string>)
    requires IsDag(nodes, edges) && IsPath(p, nodes, edges) && |p| >= 2
    ensures p[0] != p[|p| - 1]
  {
    var order :| IsTopoOrder(order, nodes, edges);
    PathInDagIsSimple(order, nodes, edges, p);
  }

  lemma DagHasNoSelfLoop(nodes: seq<string>, edges: set<Edge>, n: string)
    requires IsDag(nodes, edges) && n in nodes
    ensures (n, n) !in edges
  {
    var order :| IsTopoOrder(order, nodes, edges);
    var i := IndexOf(order, n);
    assert (order[i], order[i]) !in edges;
  }

  /** The critical path of a DAG has at most one node per task, so its edge count
      (the dependency depth) is below the number of tasks. */
  lemma LongestPathBound(order: seq<string>, nodes: seq<string>, edges: set<Edge>, path: seq<string>)
    requires IsTopoOrder(order, nodes, edges) && IsLongestPath(path, nodes, edges)
    ensures |nodes| > 0 ==> 1 <= |path| <= |order|
    ensures EdgeCount(path) < |order| || |nodes| == 0
  {
    if |nodes| > 0 {
      PathInDagIsSimple(order, nodes, edges, path);
    }
  }

  /** Nodes in a prefix of a topological order have all their predecessors in that prefix. */
  lemma TopoPrefixClosed(order: seq<string>, nodes: seq<string>, edges: set<Edge>, k: nat)
    requires IsTopoOrder(order, nodes, edges) && k <= |order|
    requires forall e :: e in edges ==> e.0 in nodes && e.1 in nodes
    ensures forall n, p :: n in order[..k] && (p, n) in edges ==> p in order[..k]
    ensures forall n, s :: n in order[k..] && (n, s) in edges ==> s in order[k..]
  {
    forall n, p | n in order[..k] && (p, n) in edges ensures p in order[..k] {
      var i := IndexOf(order, p);
      var j :| 0 <= j < k && order[j] == n;
      assert (order[i], order[j]) in edges;
    }
    forall n, s | n in order[k..] && (n, s) in edges ensures s in order[k..] {
      var i := IndexOf(order, s);
      var j :| k <= j < |order| && order[j] == n;
      assert (order[j], order[i]) in edges;
      assert order[i] == order[k..][i - k];
    }
  }

  function AddMissing(ns: seq<string>, x: string): (r: seq<string>)
    ensures Distinct(ns) ==> Distinct(r)
    ensures forall n :: n in r <==> n in ns || n == x
  {
    if x in ns then ns else ns + [x]
  }

  /** The attributes the core reads and writes on a task node: `duration` and
      `resource` from the record of a task, and the schedule `ES`, `EF`, `LS`, `LF`,
      `slack` written by the critical-path pass. */
  datatype Attrs = Attrs(duration: int, resource: int, es: int, ef: int, ls: int, lf: int, slack: int)

  /** The attributes of a node that networkx creates implicitly for an edge
      endpoint, and of a task before it is scheduled: every field reads as 0. */
  const Blank := Attrs(0, 0, 0, 0, 0, 0, 0)

  /** The attribute map after `x` has been added as an attribute-less node. */
  function WithBlank(m: map<string, Attrs>, x: string): (r: map<string, Attrs>)
    ensures r.Keys == m.Keys + {x}
    ensures forall k :: k in m ==> r[k] == m[k]
    ensures x !in m ==> r[x] == Blank
  {
    if x in m then m else m[x := Blank]
  }

  /** A directed graph whose nodes carry task attributes. Nodes keep their
      insertion order, as networkx does; `attrs` holds one record per node. */
  class TaskGraph {
    var nodes: seq<string>
    var edges: set<Edge>
    var attrs: map<string, Attrs>

    ghost predicate Valid()
      reads this
    {
      && Distinct(nodes)
      && (forall n :: n in attrs <==> n in nodes)
      && (forall e :: e in edges ==> e.0 in attrs && e.1 in attrs)
    }

    /** `nx.DiGraph()`. */
    constructor ()
      ensures Valid() && nodes == [] && edges == {} && attrs == map[]
    {
      nodes, edges, attrs := [], {}, map[];
    }

    /** `G.add_node(id, **task)`: a new node goes last with an empty schedule;
        an existing one gets its duration and resource overwritten and keeps its
        position and its schedule. */
    method AddNode(id: string, dur: int, res: int)
      requires Valid()
      modifies this
      ensures Valid()
      ensures nodes == AddMissing(old(nodes), id) && edges == old(edges)
      ensures attrs == old(attrs)[id := WithBlank(old(attrs), id)[id].(duration := dur, resource := res)]
    {
      var a := WithBlank(attrs, id);
      nodes, attrs := AddMissing(nodes, id), a[id := a[id].(duration := dur, resource := res)];
    }

    /** `G.add_edge(u, v)`: unknown endpoints are added first (`u`, then `v`),
        without attributes. */
    method AddEdge(u: string, v: string)
      requires Valid()
      modifies this
      ensures Valid()
      ensures nodes == AddMissing(AddMissing(old(nodes), u), v)
      ensures edges == old(edges) + {(u, v)}
      ensures attrs == WithBlank(WithBlank(old(attrs), u), v)
    {
      nodes, edges, attrs := AddMissing(AddMissing(nodes, u), v), edges + {(u, v)}, WithBlank(WithBlank(attrs, u), v);
    }

    /** Writes back a record for every node at once, as the scheduling passes
        do once they have computed the new values. */
    method SetAttrs(m: map<string, Attrs>)
      requires Valid() && m.Keys == attrs.Keys
      modifies this
      ensures Valid() && nodes == old(nodes) && edges == old(edges) && attrs == m
    {
      attrs := m;
    }
  }
}
