/** The critical-path scheduler of core/scheduling/cpm_engine.py: the forward
    and backward passes (`compute_cpm`), the day-by-day resource leveling with
    its one-level delay, and `run_cpm`, which chains them. The schedule lives in
    the node attribute records of a `TaskGraph`, updated in place. */
module CpmEngine {
  import opened Wrappers
  import opened Seqs
  import opened Digraph

  // ---------------------------------------------------------------------------
  // The equations the two passes solve
  // ---------------------------------------------------------------------------

  /** `max(G.nodes[n]["EF"] for n in G.nodes)`: the project's total duration. */
  function MaxEf(ns: seq<string>, m: map<string, Attrs>): (r: int)
    requires ns != [] && forall n :: n in ns ==> n in m
    ensures forall n :: n in ns ==> m[n].ef <= r
    ensures exists n :: n in ns && m[n].ef == r
  {
    if |ns| == 1 then m[ns[0]].ef
    else
      var rest := MaxEf(ns[1..], m);
      assert forall n :: n in ns ==> n == ns[0] || n in ns[1..];
      if m[ns[0]].ef >= rest then m[ns[0]].ef else rest
  }

  /** Every edge endpoint is a node. */
  ghost predicate Closed(nodes: seq<string>, edges: set<Edge>) {
    forall e :: e in edges ==> e.0 in nodes && e.1 in nodes
  }

  /** The forward-pass equations at `n`: ES is 0 without predecessors and
      otherwise the largest EF among them; EF = ES + duration. */
  ghost predicate ForwardAt(edges: set<Edge>, m: map<string, Attrs>, n: string)
    requires n in m
  {
    && (forall p :: (p, n) in edges ==> p in m && m[p].ef <= m[n].es)
    && ((exists p :: (p, n) in edges) ==> exists p :: (p, n) in edges && p in m && m[p].ef == m[n].es)
    && ((exists p :: (p, n) in edges) || m[n].es == 0)
    && m[n].ef == m[n].es + m[n].duration
  }

  /** The backward-pass equations at `n`: LF is `total` without successors and
      otherwise the smallest LS among them; LS = LF - duration; slack = LS - ES. */
  ghost predicate BackwardAt(edges: set<Edge>, m: map<string, Attrs>, n: string, total: int)
    requires n in m
  {
    && (forall s :: (n, s) in edges ==> s in m && m[n].lf <= m[s].ls)
    && ((exists s :: (n, s) in edges) ==> exists s :: (n, s) in edges && s in m && m[s].ls == m[n].lf)
    && ((exists s :: (n, s) in edges) || m[n].lf == total)
    && m[n].ls == m[n].lf - m[n].duration
    && m[n].slack == m[n].ls - m[n].es
  }

  /** `m` holds a complete critical-path schedule of the graph. */
  ghost predicate CpmSolved(nodes: seq<string>, edges: set<Edge>, m: map<string, Attrs>) {
    && nodes != []
    && (forall n :: n in nodes ==> n in m)
    && (forall n {:trigger ForwardAt(edges, m, n)} :: n in nodes ==> ForwardAt(edges, m, n))
    && (forall n {:trigger BackwardAt(edges, m, n, MaxEf(nodes, m))} :: n in nodes ==> BackwardAt(edges, m, n, MaxEf(nodes, m)))
  }

  /** `b` has the nodes of `a` with the same duration and resource. */
  ghost predicate SameWork(a: map<string, Attrs>, b: map<string, Attrs>) {
    && a.Keys == b.Keys
    && forall n :: n in a ==> b[n].duration == a[n].duration && b[n].resource == a[n].resource
  }

  /** `b` has the nodes of `a` with the same duration, resource, ES and EF. */
  ghost predicate SameEarly(a: map<string, Attrs>, b: map<string, Attrs>) {
    && a.Keys == b.Keys
    && forall n :: n in a ==>
         b[n].duration == a[n].duration && b[n].resource == a[n].resource && b[n].es == a[n].es && b[n].ef == a[n].ef
  }

  lemma {:induction false} MaxEfSameEarly(ns: seq<string>, a: map<string, Attrs>, b: map<string, Attrs>)
    requires ns != [] && forall n :: n in ns ==> n in a && n in b && a[n].ef == b[n].ef
    ensures MaxEf(ns, a) == MaxEf(ns, b)
  {
    if |ns| > 1 {
      MaxEfSameEarly(ns[1..], a, b);
    }
  }

  // ---------------------------------------------------------------------------
  // compute_cpm
  // ---------------------------------------------------------------------------

  /** The ES the forward pass gives `n`: 0 when `G.predecessors(n)` is empty,
      otherwise the largest EF among the predecessors. */
  method ForwardStart(nodes: seq<string>, edges: set<Edge>, m: map<string, Attrs>, n: string) returns (es: int)
    requires Closed(nodes, edges) && forall x :: x in nodes ==> x in m
    ensures forall p :: (p, n) in edges ==> m[p].ef <= es
    ensures (exists p :: (p, n) in edges && m[p].ef == es) || ((forall p :: (p, n) !in edges) && es == 0)
  {
    var found := false;
    es := 0;
    var j := 0;
    while j < |nodes|
      invariant 0 <= j <= |nodes|
      invariant found <==> exists k :: 0 <= k < j && (nodes[k], n) in edges
      invariant found ==> exists k :: 0 <= k < j && (nodes[k], n) in edges && m[nodes[k]].ef == es
      invariant forall k :: 0 <= k < j && (nodes[k], n) in edges ==> m[nodes[k]].ef <= es
      invariant !found ==> es == 0
    {
      var p := nodes[j];
      if (p, n) in edges && (!found || m[p].ef > es) {
        es, found := m[p].ef, true;
      }
      j := j + 1;
    }
    forall p | (p, n) in edges
      ensures m[p].ef <= es && exists k :: 0 <= k < |nodes| && (nodes[k], n) in edges
    {
      var k :| 0 <= k < |nodes| && nodes[k] == p;
    }
  }

  /** The LF the backward pass gives `n`: `total` when `G.successors(n)` is
      empty, otherwise the smallest LS among the successors. */
  method BackwardFinish(nodes: seq<string>, edges: set<Edge>, m: map<string, Attrs>, n: string, total: int)
    returns (lf: int)
    requires Closed(nodes, edges) && forall x :: x in nodes ==> x in m
    ensures forall s :: (n, s) in edges ==> lf <= m[s].ls
    ensures (exists s :: (n, s) in edges && m[s].ls == lf) || ((forall s :: (n, s) !in edges) && lf == total)
  {
    var found := false;
    lf := total;
    var j := 0;
    while j < |nodes|
      invariant 0 <= j <= |nodes|
      invariant found <==> exists k :: 0 <= k < j && (n, nodes[k]) in edges
      invariant found ==> exists k :: 0 <= k < j && (n, nodes[k]) in edges && m[nodes[k]].ls == lf
      invariant forall k :: 0 <= k < j && (n, nodes[k]) in edges ==> lf <= m[nodes[k]].ls
      invariant !found ==> lf == total
    {
      var s := nodes[j];
      if (n, s) in edges && (!found || m[s].ls < lf) {
        lf, found := m[s].ls, true;
      }
      j := j + 1;
    }
    forall s | (n, s) in edges
      ensures lf <= m[s].ls && exists k :: 0 <= k < |nodes| && (n, nodes[k]) in edges
    {
      var k :| 0 <= k < |nodes| && nodes[k] == s;
    }
  }

  /** Writing node `order[i]` leaves the forward equations of earlier nodes intact:
      none of their predecessors is `order[i]`. */
  lemma ForwardKept(order: seq<string>, nodes: seq<string>, edges: set<Edge>,
                    m: map<string, Attrs>, m': map<string, Attrs>, i: nat)
    requires IsTopoOrder(order, nodes, edges) && Closed(nodes, edges) && i < |order|
    requires (forall x :: x in nodes ==> x in m) && m'.Keys == m.Keys
    requires forall x :: x in m && x != order[i] ==> m'[x] == m[x]
    requires forall k :: 0 <= k < i ==> ForwardAt(edges, m, order[k])
    ensures forall k :: 0 <= k < i ==> ForwardAt(edges, m', order[k])
  {
    TopoPrefixClosed(order, nodes, edges, i);
    forall k | 0 <= k < i ensures ForwardAt(edges, m', order[k]) {
      var n := order[k];
      assert n in order[..i];
      assert order[i] !in order[..i];
      forall p | (p, n) in edges ensures m'[p] == m[p] {
        assert p in order[..i];
      }
    }
  }

  /** Writing node `order[i]` leaves the backward equations of later nodes intact:
      none of their successors is `order[i]`. */
  lemma BackwardKept(order: seq<string>, nodes: seq<string>, edges: set<Edge>,
                     m: map<string, Attrs>, m': map<string, Attrs>, i: nat, total: int)
    requires IsTopoOrder(order, nodes, edges) && Closed(nodes, edges) && i < |order|
    requires (forall x :: x in nodes ==> x in m) && m'.Keys == m.Keys
    requires forall x :: x in m && x != order[i] ==> m'[x] == m[x]
    requires forall k :: i < k < |order| ==> BackwardAt(edges, m, order[k], total)
    ensures forall k :: i < k < |order| ==> BackwardAt(edges, m', order[k], total)
  {
    TopoPrefixClosed(order, nodes, edges, i + 1);
    forall k | i < k < |order| ensures BackwardAt(edges, m', order[k], total) {
      var n := order[k];
      assert n == order[i + 1..][k - i - 1];
      assert order[i] !in order[i + 1..];
      forall s | (n, s) in edges ensures m'[s] == m[s] {
        assert s in order[i + 1..];
      }
    }
  }

  /** The forward equations depend on duration, ES and EF only. */
  lemma ForwardSameEarly(edges: set<Edge>, a: map<string, Attrs>, b: map<string, Attrs>, n: string)
    requires n in a && SameEarly(a, b) && ForwardAt(edges, a, n)
    ensures ForwardAt(edges, b, n)
  {
    if exists p :: (p, n) in edges {
      var p :| (p, n) in edges && p in a && a[p].ef == a[n].es;
      assert b[p].ef == b[n].es;
    }
  }

  /** The forward pass over a topological order. */
  method ForwardPass(nodes: seq<string>, edges: set<Edge>, order: seq<string>, m0: map<string, Attrs>)
    returns (m: map<string, Attrs>)
    requires IsTopoOrder(order, nodes, edges) && Closed(nodes, edges)
    requires forall x :: x in m0 <==> x in nodes
    ensures SameWork(m0, m)
    ensures forall n :: n in nodes ==> ForwardAt(edges, m, n)
  {
    m := m0;
    var i := 0;
    while i < |order|
      invariant 0 <= i <= |order|
      invariant SameWork(m0, m)
      invariant forall k :: 0 <= k < i ==> ForwardAt(edges, m, order[k])
    {
      var n := order[i];
      var es := ForwardStart(nodes, edges, m, n);
      var m' := m[n := m[n].(es := es, ef := es + m[n].duration)];
      ForwardKept(order, nodes, edges, m, m', i);
      m := m';
      i := i + 1;
    }
    forall n | n in nodes ensures ForwardAt(edges, m, n) {
      var k :| 0 <= k < |order| && order[k] == n;
    }
  }

  /** One step of the backward pass: node `order[i]` gets its LF, LS and slack,
      once every later node satisfies its backward equations. */
  method BackwardStep(nodes: seq<string>, edges: set<Edge>, order: seq<string>, m: map<string, Attrs>, i: nat, total: int)
    returns (m': map<string, Attrs>)
    requires IsTopoOrder(order, nodes, edges) && Closed(nodes, edges) && i < |order|
    requires forall x :: x in m <==> x in nodes
    requires forall k :: i < k < |order| ==> BackwardAt(edges, m, order[k], total)
    ensures SameEarly(m, m')
    ensures forall k :: i <= k < |order| ==> BackwardAt(edges, m', order[k], total)
  {
    var n := order[i];
    var lf := BackwardFinish(nodes, edges, m, n, total);
    var ls := lf - m[n].duration;
    m' := m[n := m[n].(lf := lf, ls := ls, slack := ls - m[n].es)];
    BackwardKept(order, nodes, edges, m, m', i, total);
    forall s | (n, s) in edges ensures s != n {
      var j :| 0 <= j < |order| && order[j] == s;
    }
    assert BackwardAt(edges, m', n, total);
  }

  /** The backward pass over the reversed topological order. */
  method BackwardPass(nodes: seq<string>, edges: set<Edge>, order: seq<string>, m0: map<string, Attrs>, total: int)
    returns (m: map<string, Attrs>)
    requires IsTopoOrder(order, nodes, edges) && Closed(nodes, edges)
    requires forall x :: x in m0 <==> x in nodes
    ensures SameEarly(m0, m)
    ensures forall n :: n in nodes ==> BackwardAt(edges, m, n, total)
  {
    m := m0;
    var i := |order|;
    while i > 0
      invariant 0 <= i <= |order|
      invariant SameEarly(m0, m)
      invariant forall k :: i <= k < |order| ==> BackwardAt(edges, m, order[k], total)
    {
      i := i - 1;
      m := BackwardStep(nodes, edges, order, m, i, total);
    }
    forall n | n in nodes ensures BackwardAt(edges, m, n, total) {
      var k :| 0 <= k < |order| && order[k] == n;
    }
  }

  /** `compute_cpm(G)`: rewrites ES, EF, LF, LS and slack of every node from the
      durations and the edges; `order` is the `topological_sort` answer. */
  method ComputeCpm(g: TaskGraph, order: seq<string>)
    requires g.Valid() && g.nodes != [] && IsTopoOrder(order, g.nodes, g.edges)
    modifies g
    ensures g.Valid() && g.nodes == old(g.nodes) && g.edges == old(g.edges)
    ensures SameWork(old(g.attrs), g.attrs)
    ensures CpmSolved(g.nodes, g.edges, g.attrs)
  {
    var fwd := ForwardPass(g.nodes, g.edges, order, g.attrs);
    var total := MaxEf(g.nodes, fwd);
    var m := BackwardPass(g.nodes, g.edges, order, fwd, total);
    MaxEfSameEarly(g.nodes, fwd, m);
    forall n | n in g.nodes ensures ForwardAt(g.edges, m, n) {
      ForwardSameEarly(g.edges, fwd, m, n);
    }
    assert CpmSolved(g.nodes, g.edges, m);
    assert SameWork(g.attrs, m);
    g.SetAttrs(m);
  }

  // ---------------------------------------------------------------------------
  // What the solved equations promise
  // ---------------------------------------------------------------------------

  /** Each node finishes no later than its latest finish, walking the
      topological order backwards from its end. */
  lemma {:induction false} FinishWithinLatest(order: seq<string>, nodes: seq<string>, edges: set<Edge>,
                                              m: map<string, Attrs>, k: nat)
    requires IsTopoOrder(order, nodes, edges) && Closed(nodes, edges) && CpmSolved(nodes, edges, m)
    requires k < |order|
    ensures m[order[k]].ef <= m[order[k]].lf
    decreases |order| - k
  {
    var n := order[k];
    assert ForwardAt(edges, m, n) && BackwardAt(edges, m, n, MaxEf(nodes, m));
    if exists s :: (n, s) in edges {
      var s :| (n, s) in edges && s in m && m[s].ls == m[n].lf;
      var j :| 0 <= j < |order| && order[j] == s;
      FinishWithinLatest(order, nodes, edges, m, j);
      assert ForwardAt(edges, m, s) && BackwardAt(edges, m, s, MaxEf(nodes, m));
    }
  }

  /** Slack is never negative, every node finishes by the total duration, and the
      latest start is never before the earliest start. This holds for any
      durations, negative ones included. */
  lemma SlackNonNegative(nodes: seq<string>, edges: set<Edge>, m: map<string, Attrs>)
    requires IsDag(nodes, edges) && Closed(nodes, edges) && CpmSolved(nodes, edges, m)
    ensures forall n :: n in nodes ==> m[n].slack >= 0 && m[n].es <= m[n].ls && m[n].ef <= MaxEf(nodes, m)
  {
    var order :| IsTopoOrder(order, nodes, edges);
    forall n | n in nodes ensures m[n].slack >= 0 && m[n].es <= m[n].ls {
      var k :| 0 <= k < |order| && order[k] == n;
      FinishWithinLatest(order, nodes, edges, m, k);
      assert ForwardAt(edges, m, n) && BackwardAt(edges, m, n, MaxEf(nodes, m));
    }
  }

  /** Nodes whose predecessors agree on EF agree on ES and EF. */
  lemma EarlyStep(edges: set<Edge>, a: map<string, Attrs>, b: map<string, Attrs>, n: string)
    requires n in a && n in b && ForwardAt(edges, a, n) && ForwardAt(edges, b, n)
    requires a[n].duration == b[n].duration
    requires forall p :: (p, n) in edges ==> p in a && p in b && a[p].ef == b[p].ef
    ensures a[n].es == b[n].es && a[n].ef == b[n].ef
  {
    if exists p :: (p, n) in edges {
      var p :| (p, n) in edges && p in a && a[p].ef == a[n].es;
      var q :| (q, n) in edges && q in b && b[q].ef == b[n].es;
      assert a[q].ef <= a[n].es && b[p].ef <= b[n].es;
    }
  }

  /** Nodes whose successors agree on LS, under the same total, agree on LF, LS
      and slack once they agree on ES. */
  lemma LateStep(edges: set<Edge>, a: map<string, Attrs>, b: map<string, Attrs>, n: string, total: int)
    requires n in a && n in b && BackwardAt(edges, a, n, total) && BackwardAt(edges, b, n, total)
    requires a[n].duration == b[n].duration && a[n].es == b[n].es
    requires forall s :: (n, s) in edges ==> s in a && s in b && a[s].ls == b[s].ls
    ensures a[n].lf == b[n].lf && a[n].ls == b[n].ls && a[n].slack == b[n].slack
  {
    if exists s :: (n, s) in edges {
      var s :| (n, s) in edges && s in a && a[s].ls == a[n].lf;
      var t :| (n, t) in edges && t in b && b[t].ls == b[n].lf;
      assert a[n].lf <= a[t].ls && b[n].lf <= b[s].ls;
    }
  }

  /** Two solutions for the same durations agree on ES and EF, node by node
      along a topological order. */
  lemma {:induction false} EarlyAgree(order: seq<string>, nodes: seq<string>, edges: set<Edge>,
                                      a: map<string, Attrs>, b: map<string, Attrs>, k: nat)
    requires IsTopoOrder(order, nodes, edges) && Closed(nodes, edges)
    requires forall n :: n in nodes ==> n in a && n in b && a[n].duration == b[n].duration
    requires forall n :: n in nodes ==> ForwardAt(edges, a, n) && ForwardAt(edges, b, n)
    requires k < |order|
    ensures a[order[k]].es == b[order[k]].es && a[order[k]].ef == b[order[k]].ef
    decreases k
  {
    var n := order[k];
    forall p | (p, n) in edges ensures p in a && p in b && a[p].ef == b[p].ef {
      var j :| 0 <= j < |order| && order[j] == p;
      assert (order[j], order[k]) in edges;
      EarlyAgree(order, nodes, edges, a, b, j);
    }
    EarlyStep(edges, a, b, n);
  }

  /** Two solutions for the same durations agree on LF, LS and slack, node by
      node along the reversed topological order. */
  lemma {:induction false} LateAgree(order: seq<string>, nodes: seq<string>, edges: set<Edge>,
                                     a: map<string, Attrs>, b: map<string, Attrs>, total: int, k: nat)
    requires IsTopoOrder(order, nodes, edges) && Closed(nodes, edges)
    requires forall n :: n in nodes ==> n in a && n in b && a[n].duration == b[n].duration && a[n].es == b[n].es
    requires forall n :: n in nodes ==> BackwardAt(edges, a, n, total) && BackwardAt(edges, b, n, total)
    requires k < |order|
    ensures a[order[k]].lf == b[order[k]].lf && a[order[k]].ls == b[order[k]].ls
    ensures a[order[k]].slack == b[order[k]].slack
    decreases |order| - k
  {
    var n := order[k];
    forall s | (n, s) in edges ensures s in a && s in b && a[s].ls == b[s].ls {
      var j :| 0 <= j < |order| && order[j] == s;
      assert (order[k], order[j]) in edges;
      LateAgree(order, nodes, edges, a, b, total, j);
    }
    LateStep(edges, a, b, n, total);
  }

  /** The equations have exactly one solution per set of durations: whatever
      ES/EF the nodes carried before `compute_cpm`, it writes the same schedule. */
  lemma CpmSolutionUnique(nodes: seq<string>, edges: set<Edge>, a: map<string, Attrs>, b: map<string, Attrs>)
    requires IsDag(nodes, edges) && Closed(nodes, edges)
    requires CpmSolved(nodes, edges, a) && CpmSolved(nodes, edges, b) && SameWork(a, b)
    ensures forall n :: n in nodes ==> a[n] == b[n]
  {
    var order :| IsTopoOrder(order, nodes, edges);
    forall n | n in nodes ensures a[n].es == b[n].es && a[n].ef == b[n].ef {
      var k :| 0 <= k < |order| && order[k] == n;
      EarlyAgree(order, nodes, edges, a, b, k);
    }
    MaxEfSameEarly(nodes, a, b);
    forall n | n in nodes ensures a[n] == b[n] {
      var k :| 0 <= k < |order| && order[k] == n;
      LateAgree(order, nodes, edges, a, b, MaxEf(nodes, a), k);
    }
  }

  // ---------------------------------------------------------------------------
  // build_timeline
  // ---------------------------------------------------------------------------

  /** Day `t` lies in `range(ES, EF)`. */
  predicate ActiveOn(a: Attrs, t: int) {
    a.es <= t < a.ef
  }

  /** The nodes of `ns` at work on day `t`, in node order. */
  function ActiveAt(ns: seq<string>, m: map<string, Attrs>, t: int): (r: seq<string>)
    requires forall n :: n in ns ==> n in m
    ensures forall n :: n in r ==> n in ns
  {
    if ns == [] then []
    else ActiveAt(ns[..|ns| - 1], m, t) + (if ActiveOn(m[ns[|ns| - 1]], t) then [ns[|ns| - 1]] else [])
  }

  lemma ActiveAtStep(ns: seq<string>, k: nat, m: map<string, Attrs>, t: int)
    requires k < |ns| && forall n :: n in ns ==> n in m
    ensures ActiveAt(ns[..k + 1], m, t) == ActiveAt(ns[..k], m, t) + (if ActiveOn(m[ns[k]], t) then [ns[k]] else [])
  {
    assert ns[..k + 1][..k] == ns[..k];
  }

  /** The day list is the filter of the node list by `ES <= t < EF`. */
  lemma {:induction false} ActiveAtIsFilter(ns: seq<string>, m: map<string, Attrs>, t: int)
    requires forall n :: n in ns ==> n in m
    ensures ActiveAt(ns, m, t) == Filter(ns, n => n in m && ActiveOn(m[n], t))
  {
    if ns != [] {
      var init := ns[..|ns| - 1];
      ActiveAtIsFilter(init, m, t);
      FilterSnoc(init, ns[|ns| - 1], n => n in m && ActiveOn(m[n], t));
      assert init + [ns[|ns| - 1]] == ns;
    }
  }

  /** A node is listed on day `t` exactly when `ES <= t < EF`, and the list
      keeps node order. */
  lemma ActiveAtMembers(ns: seq<string>, m: map<string, Attrs>, t: int)
    requires forall n :: n in ns ==> n in m
    ensures forall n :: n in ActiveAt(ns, m, t) <==> n in ns && ActiveOn(m[n], t)
    ensures IsSubsequence(ActiveAt(ns, m, t), ns)
  {
    ActiveAtIsFilter(ns, m, t);
    FilterIsSubsequence(ns, n => n in m && ActiveOn(m[n], t));
  }


  function Lookup(tl: map<int, seq<string>>, t: int): seq<string> {
    if t in tl then tl[t] else []
  }

  /** The inner loop of `build_timeline`: append `n` to every day of `range(es, ef)`. */
  method AddDays(tl0: map<int, seq<string>>, n: string, es: int, ef: int) returns (tl: map<int, seq<string>>)
    requires forall d :: d in tl0 ==> tl0[d] != []
    ensures forall d :: Lookup(tl, d) == Lookup(tl0, d) + (if es <= d < ef then [n] else [])
    ensures forall d :: d in tl ==> tl[d] != []
  {
    tl := tl0;
    var t := es;
    while t < ef
      invariant es <= t && (t <= ef || t == es)
      invariant forall d :: Lookup(tl, d) == Lookup(tl0, d) + (if es <= d < t then [n] else [])
      invariant forall d :: d in tl ==> tl[d] != []
    {
      tl := tl[t := Lookup(tl, t) + [n]];
      t := t + 1;
    }
  }

  /** `build_timeline(G)`: day -> nodes at work that day, filled node by node
      with `setdefault(t, []).append(node)`; only days with work are keys. */
  method BuildTimeline(nodes: seq<string>, m: map<string, Attrs>) returns (tl: map<int, seq<string>>)
    requires forall n :: n in nodes ==> n in m
    ensures forall t :: Lookup(tl, t) == ActiveAt(nodes, m, t)
    ensures forall t, n :: n in Lookup(tl, t) <==> n in nodes && ActiveOn(m[n], t)
    ensures forall t :: t in tl ==> tl[t] != []
  {
    tl := map[];
    var i := 0;
    while i < |nodes|
      invariant 0 <= i <= |nodes|
      invariant forall t :: Lookup(tl, t) == ActiveAt(nodes[..i], m, t)
      invariant forall t :: t in tl ==> tl[t] != []
    {
      var n := nodes[i];
      tl := AddDays(tl, n, m[n].es, m[n].ef);
      forall d ensures Lookup(tl, d) == ActiveAt(nodes[..i + 1], m, d) {
        ActiveAtStep(nodes, i, m, d);
      }
      i := i + 1;
    }
    assert nodes[..i] == nodes;
    forall t ensures forall n :: n in Lookup(tl, t) <==> n in nodes && ActiveOn(m[n], t) {
      ActiveAtMembers(nodes, m, t);
    }
  }

  /** The smallest ES among `ns`. */
  function MinEs(ns: seq<string>, m: map<string, Attrs>): (r: int)
    requires ns != [] && forall n :: n in ns ==> n in m
    ensures forall n :: n in ns ==> r <= m[n].es
  {
    if |ns| == 1 then m[ns[0]].es
    else
      var rest := MinEs(ns[1..], m);
      assert forall n :: n in ns ==> n == ns[0] || n in ns[1..];
      if m[ns[0]].es <= rest then m[ns[0]].es else rest
  }

  /** The keys of `tl` that lie in `[lo, hi)`, ascending: `sorted(timeline.keys())`
      once every key is known to lie in that range. */
  function DaysBetween(tl: map<int, seq<string>>, lo: int, hi: int): (days: seq<int>)
    ensures forall k, l :: 0 <= k < l < |days| ==> days[k] < days[l]
    ensures forall t :: t in days <==> t in tl && lo <= t < hi
    decreases hi - lo
  {
    if lo >= hi then []
    else
      var rest := DaysBetween(tl, lo + 1, hi);
      assert forall k :: 0 <= k < |rest| ==> lo < rest[k] by {
        forall k | 0 <= k < |rest| ensures lo < rest[k] {
          assert rest[k] in rest;
        }
      }
      (if lo in tl then [lo] else []) + rest
  }

  // ---------------------------------------------------------------------------
  // delay_task_non_recursive
  // ---------------------------------------------------------------------------

  /** The attributes after `delay_task_non_recursive(G, x, shift)`: `x` moves by
      `shift`, and each direct successor that would start before `x`'s new EF is
      moved to start exactly there, keeping its length. */
  function Delayed(m: map<string, Attrs>, edges: set<Edge>, x: string, shift: int): (d: map<string, Attrs>)
    requires x in m
    ensures d.Keys == m.Keys
  {
    var ef := m[x].ef + shift;
    map n | n in m ::
      if n == x then m[x].(es := m[x].es + shift, ef := ef)
      else if (x, n) in edges && m[n].es < ef then m[n].(es := ef, ef := m[n].ef + (ef - m[n].es))
      else m[n]
  }

  /** `delay_task_non_recursive(G, x, shift)`. The successors are visited in
      node order; without a self-loop at `x` each successor's update depends on
      `x` and on itself only, so the order `G.successors` uses does not matter. */
  method DelayTaskNonRecursive(g: TaskGraph, x: string, shift: int)
    requires g.Valid() && x in g.attrs && (x, x) !in g.edges
    modifies g
    ensures g.Valid() && g.nodes == old(g.nodes) && g.edges == old(g.edges)
    ensures g.attrs == Delayed(old(g.attrs), g.edges, x, shift)
  {
    ghost var d := Delayed(g.attrs, g.edges, x, shift);
    var m := g.attrs;
    m := m[x := m[x].(es := m[x].es + shift, ef := m[x].ef + shift)];
    var j := 0;
    while j < |g.nodes|
      invariant 0 <= j <= |g.nodes|
      invariant m.Keys == g.attrs.Keys && m[x] == d[x]
      invariant forall n :: n in m ==> m[n] == if n == x || n in g.nodes[..j] then d[n] else g.attrs[n]
    {
      var s := g.nodes[j];
      assert s !in g.nodes[..j];
      if (x, s) in g.edges && m[s].es < m[x].ef {
        var required := m[x].ef - m[s].es;
        m := m[s := m[s].(es := m[s].es + required, ef := m[s].ef + required)];
      }
      assert forall n :: n in g.nodes[..j + 1] <==> n in g.nodes[..j] || n == s;
      j := j + 1;
    }
    assert forall n :: n in m ==> n in g.nodes[..j];
    g.attrs := m;
  }

  /** `b` is `a` with some tasks moved later, each keeping its length. */
  ghost predicate Later(a: map<string, Attrs>, b: map<string, Attrs>) {
    && a.Keys == b.Keys
    && forall n :: n in a ==>
         && b[n].es >= a[n].es
         && b[n].ef - b[n].es == a[n].ef - a[n].es
         && b[n] == a[n].(es := b[n].es, ef := b[n].ef)
  }

  /** A positive delay only moves tasks later and keeps every task's length. */
  lemma DelayMovesLater(m: map<string, Attrs>, edges: set<Edge>, x: string, shift: int)
    requires x in m && shift > 0
    ensures Later(m, Delayed(m, edges, x, shift))
  {
  }

  /** After the delay every direct successor starts no earlier than `x`'s new
      EF, while nodes that are neither `x` nor a direct successor (grand-successors
      included) keep their schedule. */
  lemma DelayOneLevel(m: map<string, Attrs>, edges: set<Edge>, x: string, shift: int)
    requires x in m && (x, x) !in edges
    ensures forall s :: s in m && (x, s) in edges ==> Delayed(m, edges, x, shift)[s].es >= m[x].ef + shift
    ensures forall n :: n in m && n != x && (x, n) !in edges ==> Delayed(m, edges, x, shift)[n] == m[n]
    ensures Delayed(m, edges, x, shift)[x].es == m[x].es + shift
  {
  }

  // ---------------------------------------------------------------------------
  // apply_resource_leveling
  // ---------------------------------------------------------------------------

  /** Python's `a // b`: the floor of the quotient, for either sign of `b`. */
  function FloorDiv(a: int, b: int): (q: int)
    requires b != 0
    ensures b > 0 ==> b * q <= a < b * q + b
    ensures b < 0 ==> b * q >= a > b * q + b
    ensures b > 0 && a >= 0 ==> q >= 0
  {
    if b > 0 then a / b else (-a) / (-b)
  }

  /** The sort key `G.nodes[n]["ES"]`; every node sorted is a graph node. */
  function EsOf(m: map<string, Attrs>, n: string): int {
    if n in m then m[n].es else 0
  }

  /** Insert `x` after every element whose ES is not larger than its own. */
  function InsertByEs(sorted: seq<string>, x: string, m: map<string, Attrs>): (r: seq<string>)
    ensures multiset(r) == multiset(sorted) + multiset{x}
  {
    if sorted == [] || EsOf(m, sorted[|sorted| - 1]) <= EsOf(m, x) then sorted + [x]
    else
      var init, last := sorted[..|sorted| - 1], sorted[|sorted| - 1];
      assert sorted == init + [last];
      InsertByEs(init, x, m) + [last]
  }

  /** `sorted(active, key=lambda n: G.nodes[n]["ES"])`: a stable insertion sort. */
  function SortByEs(s: seq<string>, m: map<string, Attrs>): (r: seq<string>)
    ensures multiset(r) == multiset(s)
  {
    if s == [] then []
    else
      var init := s[..|s| - 1];
      assert s == init + [s[|s| - 1]];
      InsertByEs(SortByEs(init, m), s[|s| - 1], m)
  }

  ghost predicate SortedByEs(s: seq<string>, m: map<string, Attrs>) {
    forall k, l :: 0 <= k < l < |s| ==> EsOf(m, s[k]) <= EsOf(m, s[l])
  }

  /** Inserting below a bound stays below it. */
  lemma {:induction false} InsertByEsBelow(sorted: seq<string>, x: string, m: map<string, Attrs>, b: int)
    requires EsOf(m, x) <= b && forall k :: 0 <= k < |sorted| ==> EsOf(m, sorted[k]) <= b
    ensures forall k :: 0 <= k < |InsertByEs(sorted, x, m)| ==> EsOf(m, InsertByEs(sorted, x, m)[k]) <= b
  {
    if !(sorted == [] || EsOf(m, sorted[|sorted| - 1]) <= EsOf(m, x)) {
      InsertByEsBelow(sorted[..|sorted| - 1], x, m, b);
    }
  }

  lemma {:induction false} InsertByEsSorted(sorted: seq<string>, x: string, m: map<string, Attrs>)
    requires SortedByEs(sorted, m)
    ensures SortedByEs(InsertByEs(sorted, x, m), m)
  {
    if !(sorted == [] || EsOf(m, sorted[|sorted| - 1]) <= EsOf(m, x)) {
      var init, last := sorted[..|sorted| - 1], sorted[|sorted| - 1];
      InsertByEsSorted(init, x, m);
      InsertByEsBelow(init, x, m, EsOf(m, last));
    }
  }

  /** The sort is ascending by ES; with the multiset contract of `SortByEs`, it is
      a sorted permutation of the active list. */
  lemma {:induction false} SortByEsSorted(s: seq<string>, m: map<string, Attrs>)
    ensures SortedByEs(SortByEs(s, m), m)
  {
    if s != [] {
      var init := s[..|s| - 1];
      SortByEsSorted(init, m);
      InsertByEsSorted(SortByEs(init, m), s[|s| - 1], m);
    }
  }

  /** `str(ZeroDivisionError)` for `i // 0`. */
  const ZeroDivisionMessage := "integer division or modulo by zero"

  /** `Later` composes. */
  lemma LaterTrans(a: map<string, Attrs>, b: map<string, Attrs>, c: map<string, Attrs>)
    requires Later(a, b) && Later(b, c)
    ensures Later(a, c)
  {
  }

  /** A timeline day lists the nodes active that day. */
  lemma TimelineListsActive(nodes: seq<string>, m: map<string, Attrs>, tl: map<int, seq<string>>, t: int, n: string)
    requires forall n :: n in nodes ==> n in m
    requires forall t, n :: n in Lookup(tl, t) <==> n in nodes && ActiveOn(m[n], t)
    requires t in tl && n in tl[t]
    ensures n in nodes && ActiveOn(m[n], t)
  {
    assert Lookup(tl, t) == tl[t];
  }

  /** Every timeline day lies between the smallest ES and the largest EF and
      lists graph nodes only; the timeline has a day exactly when some node has
      ES < EF. */
  lemma TimelineDays(nodes: seq<string>, m: map<string, Attrs>, tl: map<int, seq<string>>)
    requires nodes != [] && (forall n :: n in nodes ==> n in m)
    requires forall t, n :: n in Lookup(tl, t) <==> n in nodes && ActiveOn(m[n], t)
    requires forall t :: t in tl ==> tl[t] != []
    ensures forall t :: t in tl ==> MinEs(nodes, m) <= t < MaxEf(nodes, m)
    ensures forall t, n :: t in tl && n in tl[t] ==> n in nodes
    ensures (exists t :: t in tl) <==> exists n :: n in nodes && m[n].es < m[n].ef
  {
    forall t, n | t in tl && n in tl[t] ensures n in nodes {
      TimelineListsActive(nodes, m, tl, t, n);
    }
    forall t | t in tl ensures MinEs(nodes, m) <= t < MaxEf(nodes, m) {
      var n := tl[t][0];
      TimelineListsActive(nodes, m, tl, t, n);
      assert MinEs(nodes, m) <= m[n].es && m[n].ef <= MaxEf(nodes, m);
    }
    if exists n :: n in nodes && m[n].es < m[n].ef {
      var n :| n in nodes && m[n].es < m[n].ef;
      assert n in Lookup(tl, m[n].es) by {
        assert ActiveOn(m[n], m[n].es);
      }
      assert m[n].es in tl;
    }
    if exists t :: t in tl {
      var t :| t in tl;
      var n := tl[t][0];
      TimelineListsActive(nodes, m, tl, t, n);
    }
  }

  /** One iteration of the loop of an overloaded day: `task` is delayed to
      `slot` if it starts before it. */
  function LevelStep(m: map<string, Attrs>, edges: set<Edge>, task: string, slot: int): (r: map<string, Attrs>)
    requires task in m
    ensures r.Keys == m.Keys
  {
    if m[task].es < slot then Delayed(m, edges, task, slot - m[task].es) else m
  }

  /** After its iteration a task starts no earlier than its slot, and every
      task has only moved later. */
  lemma LevelStepMoves(m: map<string, Attrs>, edges: set<Edge>, task: string, slot: int)
    requires task in m
    ensures Later(m, LevelStep(m, edges, task, slot))
    ensures LevelStep(m, edges, task, slot)[task].es >= slot
    ensures forall n :: n in m && n != task && (task, n) !in edges ==> LevelStep(m, edges, task, slot)[n] == m[n]
  {
    if m[task].es < slot {
      DelayMovesLater(m, edges, task, slot - m[task].es);
    }
  }

  /** The records once the loop of one overloaded `day` has visited the first
      `k` tasks of `sorted`; task `i` has the slot `day + i // cap`. */
  function LevelSteps(m: map<string, Attrs>, edges: set<Edge>, day: int, sorted: seq<string>, cap: int, k: nat)
    : (r: map<string, Attrs>)
    requires cap != 0 && k <= |sorted| && forall n :: n in sorted ==> n in m
    ensures r.Keys == m.Keys
  {
    if k == 0 then m
    else LevelStep(LevelSteps(m, edges, day, sorted, cap, k - 1), edges, sorted[k - 1], day + FloorDiv(k - 1, cap))
  }

  /** The records after one overloaded day: the active tasks are sorted by the
      ES they have when the day begins, then visited in that order. */
  function LevelDayOf(m: map<string, Attrs>, edges: set<Edge>, day: int, active: seq<string>, cap: int)
    : (r: map<string, Attrs>)
    requires cap != 0 && forall n :: n in active ==> n in m
    ensures r.Keys == m.Keys
  {
    var sorted := SortByEs(active, m);
    assert forall n :: n in sorted ==> n in multiset(active);
    LevelSteps(m, edges, day, sorted, cap, |sorted|)
  }

  /** Leveling a day only moves tasks later, each keeping its length and its
      other fields; with a positive capacity every task of the day ends up
      starting on that day or later. */
  lemma LevelDayOfFacts(m: map<string, Attrs>, edges: set<Edge>, day: int, active: seq<string>, cap: int)
    requires cap != 0 && forall n :: n in active ==> n in m
    ensures Later(m, LevelDayOf(m, edges, day, active, cap))
    ensures cap > 0 ==> forall n :: n in active ==> LevelDayOf(m, edges, day, active, cap)[n].es >= day
  {
    var sorted := SortByEs(active, m);
    assert forall n :: n in sorted <==> n in multiset(active);
    LevelStepsLater(m, edges, day, sorted, cap, |sorted|);
    LevelStepsPastDay(m, edges, day, sorted, cap);
  }

  /** Leveling a day only moves tasks later, each keeping its length. */
  lemma {:induction false} LevelStepsLater(m: map<string, Attrs>, edges: set<Edge>, day: int, sorted: seq<string>, cap: int, k: nat)
    requires cap != 0 && k <= |sorted| && forall n :: n in sorted ==> n in m
    ensures Later(m, LevelSteps(m, edges, day, sorted, cap, k))
  {
    if k > 0 {
      LevelStepsLater(m, edges, day, sorted, cap, k - 1);
      var prev := LevelSteps(m, edges, day, sorted, cap, k - 1);
      LevelStepMoves(prev, edges, sorted[k - 1], day + FloorDiv(k - 1, cap));
      LaterTrans(m, prev, LevelSteps(m, edges, day, sorted, cap, k));
    }
  }

  /** Every visited task ends the day starting no earlier than its slot
      `day + i // cap`: later delays of the same day never move it back. */
  lemma {:induction false} LevelStepsSlots(m: map<string, Attrs>, edges: set<Edge>, day: int, sorted: seq<string>, cap: int, k: nat)
    requires cap != 0 && k <= |sorted| && forall n :: n in sorted ==> n in m
    ensures forall i :: 0 <= i < k ==> LevelSteps(m, edges, day, sorted, cap, k)[sorted[i]].es >= day + FloorDiv(i, cap)
  {
    if k > 0 {
      LevelStepsSlots(m, edges, day, sorted, cap, k - 1);
      var prev, r := LevelSteps(m, edges, day, sorted, cap, k - 1), LevelSteps(m, edges, day, sorted, cap, k);
      LevelStepMoves(prev, edges, sorted[k - 1], day + FloorDiv(k - 1, cap));
      forall i | 0 <= i < k ensures r[sorted[i]].es >= day + FloorDiv(i, cap) {
        if i < k - 1 {
          assert prev[sorted[i]].es >= day + FloorDiv(i, cap);
        }
      }
    }
  }

  /** With a positive capacity no slot is before `day`, so every visited task
      ends the day starting on `day` or later. */
  lemma LevelStepsPastDay(m: map<string, Attrs>, edges: set<Edge>, day: int, sorted: seq<string>, cap: int)
    requires cap != 0 && forall n :: n in sorted ==> n in m
    ensures cap > 0 ==> forall n :: n in sorted ==> LevelSteps(m, edges, day, sorted, cap, |sorted|)[n].es >= day
  {
    if cap > 0 {
      var r := LevelSteps(m, edges, day, sorted, cap, |sorted|);
      LevelStepsSlots(m, edges, day, sorted, cap, |sorted|);
      forall n | n in sorted ensures r[n].es >= day {
        var i :| 0 <= i < |sorted| && sorted[i] == n;
        assert r[sorted[i]].es >= day + FloorDiv(i, cap);
      }
    }
  }

  /** A task that is not visited and is no direct successor of a visited task
      keeps its record. */
  lemma {:induction false} LevelStepsFrame(m: map<string, Attrs>, edges: set<Edge>, day: int, sorted: seq<string>, cap: int, k: nat, n: string)
    requires cap != 0 && k <= |sorted| && forall n :: n in sorted ==> n in m
    requires n in m && n !in sorted && forall x :: x in sorted ==> (x, n) !in edges
    ensures LevelSteps(m, edges, day, sorted, cap, k)[n] == m[n]
  {
    if k > 0 {
      LevelStepsFrame(m, edges, day, sorted, cap, k - 1, n);
      assert sorted[k - 1] in sorted;
      LevelStepMoves(LevelSteps(m, edges, day, sorted, cap, k - 1), edges, sorted[k - 1], day + FloorDiv(k - 1, cap));
    }
  }

  /** One iteration: `if G.nodes[task]["ES"] < new_start`, delay `task` by the gap. */
  method LevelTask(g: TaskGraph, task: string, newStart: int)
    requires g.Valid() && task in g.attrs && (task, task) !in g.edges
    modifies g
    ensures g.Valid() && g.nodes == old(g.nodes) && g.edges == old(g.edges)
    ensures g.attrs == LevelStep(old(g.attrs), g.edges, task, newStart)
  {
    if g.attrs[task].es < newStart {
      DelayTaskNonRecursive(g, task, newStart - g.attrs[task].es);
    }
  }

  /** The `for i, task in enumerate(active_tasks_sorted)` loop. */
  method LevelSorted(g: TaskGraph, day: int, sorted: seq<string>, crewCapacity: int)
    requires g.Valid() && crewCapacity != 0
    requires forall n :: n in sorted ==> n in g.nodes && (n, n) !in g.edges
    modifies g
    ensures g.Valid() && g.nodes == old(g.nodes) && g.edges == old(g.edges)
    ensures g.attrs == LevelSteps(old(g.attrs), g.edges, day, sorted, crewCapacity, |sorted|)
  {
    ghost var m0 := g.attrs;
    for i := 0 to |sorted|
      invariant g.Valid() && g.nodes == old(g.nodes) && g.edges == old(g.edges)
      invariant g.attrs == LevelSteps(m0, g.edges, day, sorted, crewCapacity, i)
    {
      LevelTask(g, sorted[i], day + FloorDiv(i, crewCapacity));
    }
  }

  /** One overloaded day of `apply_resource_leveling`: the active tasks sorted
      by their current ES, then visited in that order. */
  method LevelDay(g: TaskGraph, day: int, active: seq<string>, crewCapacity: int)
    requires g.Valid() && crewCapacity != 0
    requires forall n :: n in g.nodes ==> (n, n) !in g.edges
    requires forall n :: n in active ==> n in g.nodes
    modifies g
    ensures g.Valid() && g.nodes == old(g.nodes) && g.edges == old(g.edges)
    ensures g.attrs == LevelDayOf(old(g.attrs), g.edges, day, active, crewCapacity)
  {
    var sorted := SortByEs(active, g.attrs);
    assert forall n :: n in sorted ==> n in multiset(active);
    LevelSorted(g, day, sorted, crewCapacity);
  }

  /** No day has more active tasks than `cap`. */
  ghost predicate NoOverload(nodes: seq<string>, m: map<string, Attrs>, cap: int)
    requires forall n :: n in nodes ==> n in m
  {
    forall t :: |ActiveAt(nodes, m, t)| <= cap
  }

  lemma NoOverloadDays(nodes: seq<string>, m: map<string, Attrs>, tl: map<int, seq<string>>, cap: int)
    requires (forall n :: n in nodes ==> n in m) && NoOverload(nodes, m, cap)
    requires forall t :: Lookup(tl, t) == ActiveAt(nodes, m, t)
    ensures forall t :: t in tl ==> |tl[t]| <= cap
  {
    forall t | t in tl ensures |tl[t]| <= cap {
      assert Lookup(tl, t) == ActiveAt(nodes, m, t);
    }
  }

  /** The days of `[lo, hi)` on which some node is at work, ascending. */
  function ActiveDays(nodes: seq<string>, m: map<string, Attrs>, lo: int, hi: int): (days: seq<int>)
    requires forall n :: n in nodes ==> n in m
    ensures forall t :: t in days <==> lo <= t < hi && ActiveAt(nodes, m, t) != []
    decreases hi - lo
  {
    if lo >= hi then []
    else (if ActiveAt(nodes, m, lo) != [] then [lo] else []) + ActiveDays(nodes, m, lo + 1, hi)
  }

  /** `sorted(build_timeline(G).keys())` in terms of the records: the days on
      which some node is at work, ascending. */
  function LevelingDays(nodes: seq<string>, m: map<string, Attrs>): seq<int>
    requires forall n :: n in nodes ==> n in m
  {
    if nodes == [] then [] else ActiveDays(nodes, m, MinEs(nodes, m), MaxEf(nodes, m))
  }

  lemma {:induction false} DaysBetweenActive(tl: map<int, seq<string>>, nodes: seq<string>, m: map<string, Attrs>, lo: int, hi: int)
    requires forall n :: n in nodes ==> n in m
    requires forall t :: t in tl <==> ActiveAt(nodes, m, t) != []
    ensures DaysBetween(tl, lo, hi) == ActiveDays(nodes, m, lo, hi)
    decreases hi - lo
  {
    if lo < hi {
      DaysBetweenActive(tl, nodes, m, lo + 1, hi);
    }
  }

  /** The timeline's days between the earliest ES and the latest EF are the
      leveling days. */
  lemma TimelineLevelingDays(nodes: seq<string>, m: map<string, Attrs>, timeline: map<int, seq<string>>)
    requires nodes != [] && forall n :: n in nodes ==> n in m
    requires forall t :: Lookup(timeline, t) == ActiveAt(nodes, m, t)
    requires forall t :: t in timeline ==> timeline[t] != []
    ensures DaysBetween(timeline, MinEs(nodes, m), MaxEf(nodes, m)) == LevelingDays(nodes, m)
  {
    forall t ensures t in timeline <==> ActiveAt(nodes, m, t) != [] {
      assert Lookup(timeline, t) == ActiveAt(nodes, m, t);
    }
    DaysBetweenActive(timeline, nodes, m, MinEs(nodes, m), MaxEf(nodes, m));
  }

  /** A day on which some node is at work is one of the leveling days. */
  lemma ActiveDayListed(nodes: seq<string>, m: map<string, Attrs>, t: int, n: string)
    requires forall n :: n in nodes ==> n in m
    requires n in ActiveAt(nodes, m, t)
    ensures t in LevelingDays(nodes, m)
  {
    ActiveAtMembers(nodes, m, t);
    assert nodes != [];
    assert MinEs(nodes, m) <= m[n].es && m[n].ef <= MaxEf(nodes, m);
  }

  /** What the leveling days say about a timeline built from the records:
      they ascend, each is a key holding the tasks active that day, every key
      is one of them, and there are none exactly when no node has ES < EF. */
  lemma LevelingDaysListed(nodes: seq<string>, m: map<string, Attrs>, timeline: map<int, seq<string>>, days: seq<int>)
    requires forall n :: n in nodes ==> n in m
    requires forall t :: Lookup(timeline, t) == ActiveAt(nodes, m, t)
    requires forall t, n :: n in Lookup(timeline, t) <==> n in nodes && ActiveOn(m[n], t)
    requires forall t :: t in timeline ==> timeline[t] != []
    requires days == LevelingDays(nodes, m)
    ensures forall k, l :: 0 <= k < l < |days| ==> days[k] < days[l]
    ensures forall k :: 0 <= k < |days| ==> days[k] in timeline && timeline[days[k]] == ActiveAt(nodes, m, days[k])
    ensures forall k :: 0 <= k < |days| ==> timeline[days[k]] != []
    ensures forall k, n :: 0 <= k < |days| && n in timeline[days[k]] ==> n in nodes
    ensures forall t :: t in timeline ==> t in days
    ensures days == [] <==> forall n :: n in nodes ==> m[n].ef <= m[n].es
  {
    if nodes == [] {
      forall t ensures t !in timeline {
        assert Lookup(timeline, t) == ActiveAt(nodes, m, t);
      }
    } else {
      TimelineDays(nodes, m, timeline);
      TimelineLevelingDays(nodes, m, timeline);
      forall k | 0 <= k < |days| ensures timeline[days[k]] == ActiveAt(nodes, m, days[k]) {
        assert Lookup(timeline, days[k]) == ActiveAt(nodes, m, days[k]);
      }
      if days != [] {
        assert days[0] in timeline;
      }
    }
  }

  /** The first two steps of `apply_resource_leveling`: `build_timeline(G)` and
      `sorted(timeline.keys())`. Every day listed is a timeline key holding the
      tasks active that day, and there are no days exactly when no node has
      ES < EF. */
  method TimelineDaysOf(nodes: seq<string>, m: map<string, Attrs>)
    returns (timeline: map<int, seq<string>>, days: seq<int>)
    requires forall n :: n in nodes ==> n in m
    ensures forall k, l :: 0 <= k < l < |days| ==> days[k] < days[l]
    ensures forall k :: 0 <= k < |days| ==> days[k] in timeline && timeline[days[k]] == ActiveAt(nodes, m, days[k])
    ensures forall k :: 0 <= k < |days| ==> timeline[days[k]] != []
    ensures forall k, n :: 0 <= k < |days| && n in timeline[days[k]] ==> n in nodes
    ensures forall t :: t in timeline ==> t in days
    ensures days == [] <==> forall n :: n in nodes ==> m[n].ef <= m[n].es
    ensures days == LevelingDays(nodes, m)
  {
    timeline := BuildTimeline(nodes, m);
    if nodes == [] {
      days := [];
    } else {
      days := DaysBetween(timeline, MinEs(nodes, m), MaxEf(nodes, m));
      TimelineLevelingDays(nodes, m, timeline);
    }
    LevelingDaysListed(nodes, m, timeline, days);
  }

  /** The timeline of the records `m` as a map, as `build_timeline(G)` gives
      it: each leveling day to the tasks at work that day. */
  function TimelineOf(nodes: seq<string>, m: map<string, Attrs>): (tl: map<int, seq<string>>)
    requires forall n :: n in nodes ==> n in m
    ensures forall t, n :: t in tl && n in tl[t] ==> n in nodes
  {
    map t | t in LevelingDays(nodes, m) :: ActiveAt(nodes, m, t)
  }

  /** Every task a timeline lists is one of the records. */
  ghost predicate Listed(tl: map<int, seq<string>>, m: map<string, Attrs>) {
    forall t, n :: t in tl && n in tl[t] ==> n in m
  }

  /** The records once the days `days[from..]` are visited in order, starting
      from the records `m`. A day's tasks are the ones the timeline `tl`, built
      before any move, lists for it, and a day is leveled when it lists more
      than `cap` tasks. */
  function LevelFold(m: map<string, Attrs>, tl: map<int, seq<string>>, edges: set<Edge>, days: seq<int>, from: nat, cap: int)
    : (r: map<string, Attrs>)
    requires cap != 0 && from <= |days| && Listed(tl, m)
    ensures r.Keys == m.Keys
    decreases |days| - from
  {
    if from == |days| then m
    else
      var active := Lookup(tl, days[from]);
      var next := if |active| > cap then LevelDayOf(m, edges, days[from], active, cap) else m;
      LevelFold(next, tl, edges, days, from + 1, cap)
  }

  /** Every task listed on an overloaded day of `days[from..]` starts, in `r`,
      on that day or later. */
  ghost predicate PastOverloaded(r: map<string, Attrs>, tl: map<int, seq<string>>, days: seq<int>, from: nat, cap: int) {
    forall j, n :: from <= j < |days| && |Lookup(tl, days[j])| > cap && n in Lookup(tl, days[j]) ==> n in r && r[n].es >= days[j]
  }

  /** No day of `days[from..]` lists more than `cap` tasks. */
  ghost predicate CalmDays(tl: map<int, seq<string>>, days: seq<int>, from: nat, cap: int) {
    forall j :: from <= j < |days| ==> |Lookup(tl, days[j])| <= cap
  }

  /** Visiting days only moves tasks later, each keeping its length and its
      other fields. */
  lemma {:induction false} LevelFoldLater(m: map<string, Attrs>, tl: map<int, seq<string>>, edges: set<Edge>, days: seq<int>, from: nat, cap: int)
    requires cap != 0 && from <= |days| && Listed(tl, m)
    ensures Later(m, LevelFold(m, tl, edges, days, from, cap))
    decreases |days| - from
  {
    if from < |days| {
      var active := Lookup(tl, days[from]);
      var next := if |active| > cap then LevelDayOf(m, edges, days[from], active, cap) else m;
      LevelDayOfFacts(m, edges, days[from], active, cap);
      LevelFoldLater(next, tl, edges, days, from + 1, cap);
      LaterTrans(m, next, LevelFold(next, tl, edges, days, from + 1, cap));
    }
  }

  /** With a positive capacity, every task listed on an overloaded day ends up
      starting on that day or later, whatever later days do. */
  lemma {:induction false} LevelFoldPastOverloaded(m: map<string, Attrs>, tl: map<int, seq<string>>, edges: set<Edge>, days: seq<int>, from: nat, cap: int)
    requires cap > 0 && from <= |days| && Listed(tl, m)
    ensures PastOverloaded(LevelFold(m, tl, edges, days, from, cap), tl, days, from, cap)
    decreases |days| - from
  {
    if from < |days| {
      var active := Lookup(tl, days[from]);
      var next := if |active| > cap then LevelDayOf(m, edges, days[from], active, cap) else m;
      LevelDayOfFacts(m, edges, days[from], active, cap);
      LevelFoldPastOverloaded(next, tl, edges, days, from + 1, cap);
      if |active| > cap {
        var r := LevelFold(next, tl, edges, days, from + 1, cap);
        LevelFoldLater(next, tl, edges, days, from + 1, cap);
        forall n | n in active ensures n in r && r[n].es >= days[from] {
          assert next[n].es >= days[from];
        }
      }
    }
  }

  /** With no overloaded day nothing moves. */
  lemma {:induction false} LevelFoldCalm(m: map<string, Attrs>, tl: map<int, seq<string>>, edges: set<Edge>, days: seq<int>, from: nat, cap: int)
    requires cap != 0 && from <= |days| && Listed(tl, m)
    ensures CalmDays(tl, days, from, cap) ==> LevelFold(m, tl, edges, days, from, cap) == m
    decreases |days| - from
  {
    if from < |days| {
      LevelFoldCalm(m, tl, edges, days, from + 1, cap);
    }
  }

  /** The records `apply_resource_leveling` leaves when it succeeds with a
      non-zero capacity: the leveling days visited in order over the timeline
      of the records as they were. Tasks only move later, each keeping its
      length and its other fields, and without an overloaded day nothing
      moves. */
  function Leveled(nodes: seq<string>, m: map<string, Attrs>, edges: set<Edge>, cap: int): (r: map<string, Attrs>)
    requires cap != 0 && forall n :: n in nodes ==> n in m
    ensures Later(m, r)
    ensures NoOverload(nodes, m, cap) ==> r == m
  {
    LevelFoldLater(m, TimelineOf(nodes, m), edges, LevelingDays(nodes, m), 0, cap);
    LevelFoldCalm(m, TimelineOf(nodes, m), edges, LevelingDays(nodes, m), 0, cap);
    LevelFold(m, TimelineOf(nodes, m), edges, LevelingDays(nodes, m), 0, cap)
  }

  /** With a positive capacity, every task listed on an overloaded day ends up
      starting on that day or later, however early it started: the day's first
      `crew_capacity` tasks get the slot `day` itself. */
  lemma LeveledPastOverloadedDay(nodes: seq<string>, m: map<string, Attrs>, edges: set<Edge>, cap: int, t: int, n: string)
    requires cap > 0 && forall n :: n in nodes ==> n in m
    requires |ActiveAt(nodes, m, t)| > cap && n in ActiveAt(nodes, m, t)
    ensures n in m && Leveled(nodes, m, edges, cap)[n].es >= t
  {
    var days, tl := LevelingDays(nodes, m), TimelineOf(nodes, m);
    ActiveDayListed(nodes, m, t, n);
    var j :| 0 <= j < |days| && days[j] == t;
    assert Lookup(tl, days[j]) == ActiveAt(nodes, m, t);
    LevelFoldPastOverloaded(m, tl, edges, days, 0, cap);
  }

  /** The timeline `TimelineDaysOf` builds is `TimelineOf` the records. */
  lemma BuiltTimeline(nodes: seq<string>, m: map<string, Attrs>, timeline: map<int, seq<string>>, days: seq<int>)
    requires forall n :: n in nodes ==> n in m
    requires days == LevelingDays(nodes, m)
    requires forall k :: 0 <= k < |days| ==> days[k] in timeline && timeline[days[k]] == ActiveAt(nodes, m, days[k])
    requires forall t :: t in timeline ==> t in days
    ensures timeline == TimelineOf(nodes, m)
  {
    var tl := TimelineOf(nodes, m);
    forall t ensures t in timeline <==> t in tl {
      if t in tl {
        var k :| 0 <= k < |days| && days[k] == t;
      }
    }
    forall t | t in timeline ensures timeline[t] == tl[t] {
      var k :| 0 <= k < |days| && days[k] == t;
    }
  }

  /** The `for time in sorted(timeline.keys())` loop of
      `apply_resource_leveling` with a non-zero capacity: each day with more
      active tasks than `crew_capacity` goes through `LevelDay`. */
  method LevelTimeline(g: TaskGraph, timeline: map<int, seq<string>>, days: seq<int>, crewCapacity: int)
    requires g.Valid() && crewCapacity != 0 && forall n :: n in g.nodes ==> (n, n) !in g.edges
    requires forall t, n :: t in timeline && n in timeline[t] ==> n in g.nodes
    requires forall k :: 0 <= k < |days| ==> days[k] in timeline
    modifies g
    ensures g.Valid() && g.nodes == old(g.nodes) && g.edges == old(g.edges)
    ensures g.attrs == LevelFold(old(g.attrs), timeline, g.edges, days, 0, crewCapacity)
  {
    ghost var m0 := g.attrs;
    var d := 0;
    while d < |days|
      invariant 0 <= d <= |days|
      invariant g.Valid() && g.nodes == old(g.nodes) && g.edges == old(g.edges)
      invariant LevelFold(g.attrs, timeline, g.edges, days, d, crewCapacity) == LevelFold(m0, timeline, g.edges, days, 0, crewCapacity)
    {
      var t := days[d];
      if |timeline[t]| > crewCapacity {
        LevelDay(g, t, timeline[t], crewCapacity);
      }
      d := d + 1;
    }
  }

  /** `apply_resource_leveling(G, crew_capacity)`: `build_timeline(G)`, then
      its days in ascending order through `LevelTimeline`. With a zero
      capacity the loop raises `ZeroDivisionError` (at `0 // 0`) on its first
      day, as every listed day has an active task, so it fails exactly when
      there is a day at all; that is returned as `Failure`. On success the
      records are the leveled ones, which only moves tasks later and moves
      nothing when no day is overloaded. */
  method ApplyResourceLeveling(g: TaskGraph, crewCapacity: int) returns (r: Result<()>)
    requires g.Valid() && forall n :: n in g.nodes ==> (n, n) !in g.edges
    modifies g
    ensures g.Valid() && g.nodes == old(g.nodes) && g.edges == old(g.edges)
    ensures r.Failure? <==> crewCapacity == 0 && exists n :: n in g.nodes && old(g.attrs)[n].es < old(g.attrs)[n].ef
    ensures r.Failure? ==> r.error == ZeroDivisionMessage && g.attrs == old(g.attrs)
    ensures Later(old(g.attrs), g.attrs)
    ensures NoOverload(g.nodes, old(g.attrs), crewCapacity) ==> g.attrs == old(g.attrs)
    ensures r.Success? ==> g.attrs == if crewCapacity == 0 then old(g.attrs) else Leveled(g.nodes, old(g.attrs), g.edges, crewCapacity)
  {
    var timeline, days := TimelineDaysOf(g.nodes, g.attrs);
    if crewCapacity == 0 {
      if days != [] {
        assert |timeline[days[0]]| > 0;
        return Failure(ZeroDivisionMessage);
      }
      return Success(());
    }
    BuiltTimeline(g.nodes, g.attrs, timeline, days);
    LevelTimeline(g, timeline, days, crewCapacity);
    ghost var leveled := Leveled(g.nodes, old(g.attrs), g.edges, crewCapacity);
    return Success(());
  }

  /** `str(e)` of the exception `run_cpm` raises on a cyclic graph. */
  const CycleMessage := "Graph contains cycle. Cannot schedule."

  /** `run_cpm(G, crew_capacity)`: `Success((critical_path, total_duration))`, or
      `Failure` with the message of the exception it raises. `topo` is the answer
      of `is_directed_acyclic_graph`/`topological_sort` (leveling changes no edge,
      so both `compute_cpm` calls see the same order) and `longest` the answer of
      `dag_longest_path`. */
  method RunCpm(g: TaskGraph, crewCapacity: Option<int>, topo: Option<seq<string>>, longest: seq<string>)
    returns (r: Result<(seq<string>, int)>)
    requires g.Valid() && TopoAnswer(topo, g.nodes, g.edges) && IsLongestPath(longest, g.nodes, g.edges)
    modifies g
    ensures g.Valid() && g.nodes == old(g.nodes) && g.edges == old(g.edges)
    ensures g.nodes == [] ==> r == Success(([], 0)) && g.attrs == old(g.attrs)
    ensures g.nodes != [] && topo.None? ==> r == Failure(CycleMessage) && g.attrs == old(g.attrs)
    ensures g.nodes != [] && topo.Some? ==> SameWork(old(g.attrs), g.attrs) && CpmSolved(g.nodes, g.edges, g.attrs)
    ensures g.nodes != [] && topo.Some? ==>
      (r.Failure? <==> crewCapacity == Some(0) && exists n :: n in g.nodes && g.attrs[n].duration > 0)
    ensures g.nodes != [] && topo.Some? && r.Failure? ==> r.error == ZeroDivisionMessage
    ensures g.nodes != [] && r.Success? ==> r.value == (longest, MaxEf(g.nodes, g.attrs))
  {
    if g.nodes == [] {
      return Success(([], 0));
    }
    if topo.None? {
      return Failure(CycleMessage);
    }
    var order := topo.value;
    ComputeCpm(g, order);
    ghost var solved := g.attrs;
    if crewCapacity.Some? {
      forall n | n in g.nodes ensures (n, n) !in g.edges {
        DagHasNoSelfLoop(g.nodes, g.edges, n);
      }
      var leveled := ApplyResourceLeveling(g, crewCapacity.value);
      if leveled.Failure? {
        assert forall n :: n in g.nodes ==> ForwardAt(g.edges, solved, n);
        return Failure(leveled.error);
      }
      ComputeCpm(g, order);
    }
    assert forall n :: n in g.nodes ==> ForwardAt(g.edges, solved, n);
    return Success((longest, MaxEf(g.nodes, g.attrs)));
  }
}
