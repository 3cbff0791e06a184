/** The greedy crew constraint of core/scheduling/resource_engine.py. Nodes are
    visited in graph order and each one's original day range is added to a
    running per-day demand; every day of that range on which the demand goes
    over the capacity pushes the node one day later. Ranges are read before the
    node is moved, so the demand always counts the unshifted ranges. */
module ResourceEngine {
  import opened Seqs
  import opened Digraph
  import opened CpmEngine
  import opened ConflictEngine

  /** `apply_resource_constraint`'s default `capacity`. */
  const DefaultCapacity := 3

  /** A record pushed `s` days later. */
  function Moved(a: Attrs, s: int): (b: Attrs)
    ensures b.ef - b.es == a.ef - a.es && b.es == a.es + s
    ensures b.(es := a.es, ef := a.ef) == a
  {
    a.(es := a.es + s, ef := a.ef + s)
  }

  /** How far node `ns[k]` is pushed: the number of days of its original range
      on which the demand of `ns[..k + 1]` exceeds `cap`. */
  function Shift(ns: seq<string>, m: map<string, Attrs>, cap: int, k: nat): nat
    requires k < |ns| && forall n :: n in ns ==> n in m
  {
    |OverloadRecords(ns[..k + 1], m, cap, m[ns[k]].es, m[ns[k]].ef)|
  }

  /** The inner loop for one node `n`, the last of `ns`. */
  method ShiftNode(g: TaskGraph, timeline0: map<int, int>, ghost ns: seq<string>, ghost m0: map<string, Attrs>, n: string, capacity: int)
    returns (timeline: map<int, int>)
    requires ns != [] && ns[|ns| - 1] == n && forall x :: x in ns ==> x in m0
    requires g.Valid() && n in g.attrs && g.attrs[n] == m0[n]
    requires forall t :: LoadAt(timeline0, t) == Load(ns[..|ns| - 1], m0, t)
    modifies g
    ensures g.Valid() && g.nodes == old(g.nodes) && g.edges == old(g.edges)
    ensures g.attrs == old(g.attrs)[n := Moved(m0[n], |OverloadRecords(ns, m0, capacity, m0[n].es, m0[n].ef)|)]
    ensures forall t :: LoadAt(timeline, t) == Load(ns, m0, t)
  {
    var start, end, resource := g.attrs[n].es, g.attrs[n].ef, g.attrs[n].resource;
    timeline := timeline0;
    var t := start;
    while t < end
      invariant start <= t && (t <= end || t == start)
      invariant g.Valid() && g.nodes == old(g.nodes) && g.edges == old(g.edges)
      invariant forall d :: LoadAt(timeline, d) == Load(ns[..|ns| - 1], m0, d) + (if start <= d < t then resource else 0)
      invariant g.attrs == old(g.attrs)[n := Moved(m0[n], |OverloadRecords(ns, m0, capacity, start, t)|)]
    {
      ghost var before := timeline;
      timeline := timeline[t := LoadAt(timeline, t) + resource];
      assert forall d :: LoadAt(timeline, d) == LoadAt(before, d) + (if d == t then resource else 0);
      if timeline[t] > capacity {
        g.attrs := g.attrs[n := g.attrs[n].(es := g.attrs[n].es + 1, ef := g.attrs[n].ef + 1)];
      }
      t := t + 1;
    }
  }

  /** The records once the first `i` nodes have been pushed. */
  ghost function ShiftedUpTo(ns: seq<string>, m: map<string, Attrs>, cap: int, i: nat): map<string, Attrs>
    requires i <= |ns| && forall n :: n in ns ==> n in m
  {
    if i == 0 then m
    else ShiftedUpTo(ns, m, cap, i - 1)[ns[i - 1] := Moved(m[ns[i - 1]], Shift(ns, m, cap, i - 1))]
  }

  lemma {:induction false} ShiftedUpToFacts(ns: seq<string>, m: map<string, Attrs>, cap: int, i: nat)
    requires i <= |ns| && Distinct(ns) && forall n :: n in ns ==> n in m
    ensures ShiftedUpTo(ns, m, cap, i).Keys == m.Keys
    ensures forall k :: 0 <= k < i ==> ShiftedUpTo(ns, m, cap, i)[ns[k]] == Moved(m[ns[k]], Shift(ns, m, cap, k))
    ensures forall k :: i <= k < |ns| ==> ShiftedUpTo(ns, m, cap, i)[ns[k]] == m[ns[k]]
  {
    if i > 0 {
      ShiftedUpToFacts(ns, m, cap, i - 1);
    }
  }

  /** `apply_resource_constraint(G, capacity)`: moves nodes in place and
      returns the same graph. */
  method ApplyResourceConstraint(g: TaskGraph, capacity: int) returns (h: TaskGraph)
    requires g.Valid()
    modifies g
    ensures h == g && g.Valid() && g.nodes == old(g.nodes) && g.edges == old(g.edges)
    ensures forall k :: 0 <= k < |g.nodes| ==>
      g.attrs[g.nodes[k]] == Moved(old(g.attrs)[g.nodes[k]], Shift(g.nodes, old(g.attrs), capacity, k))
    ensures forall n :: n in g.attrs ==>
      && old(g.attrs)[n].es <= g.attrs[n].es
      && g.attrs[n].ef - g.attrs[n].es == old(g.attrs)[n].ef - old(g.attrs)[n].es
      && g.attrs[n].resource == old(g.attrs)[n].resource
  {
    ghost var m0 := g.attrs;
    var timeline: map<int, int> := map[];
    var i := 0;
    while i < |g.nodes|
      invariant 0 <= i <= |g.nodes|
      invariant g.Valid() && g.nodes == old(g.nodes) && g.edges == old(g.edges)
      invariant forall t :: LoadAt(timeline, t) == Load(g.nodes[..i], m0, t)
      invariant g.attrs == ShiftedUpTo(g.nodes, m0, capacity, i)
    {
      assert g.nodes[..i + 1][..i] == g.nodes[..i];
      ShiftedUpToFacts(g.nodes, m0, capacity, i);
      timeline := ShiftNode(g, timeline, g.nodes[..i + 1], m0, g.nodes[i], capacity);
      i := i + 1;
    }
    ShiftedUpToFacts(g.nodes, m0, capacity, i);
    forall n | n in g.attrs
      ensures old(g.attrs)[n].es <= g.attrs[n].es
    {
      var k :| 0 <= k < |g.nodes| && g.nodes[k] == n;
    }
    h := g;
  }

  // ---------------------------------------------------------------------------
  // Properties of the shifts
  // ---------------------------------------------------------------------------

  /** Node `k` is pushed once per day of its original range: never by more
      days than it lasts. */
  lemma {:induction false} RecordsAtMostRange(ns: seq<string>, m: map<string, Attrs>, cap: int, lo: int, hi: int)
    requires forall n :: n in ns ==> n in m
    ensures |OverloadRecords(ns, m, cap, lo, hi)| <= if hi <= lo then 0 else hi - lo
    decreases hi - lo
  {
    if hi > lo {
      RecordsAtMostRange(ns, m, cap, lo, hi - 1);
    }
  }

  lemma ShiftAtMostDuration(ns: seq<string>, m: map<string, Attrs>, cap: int, k: nat)
    requires k < |ns| && forall n :: n in ns ==> n in m
    ensures Shift(ns, m, cap, k) <= if m[ns[k]].ef <= m[ns[k]].es then 0 else m[ns[k]].ef - m[ns[k]].es
  {
    RecordsAtMostRange(ns[..k + 1], m, cap, m[ns[k]].es, m[ns[k]].ef);
  }

  /** A larger capacity never pushes a node further. */
  lemma {:induction false} RecordsAntitone(ns: seq<string>, m: map<string, Attrs>, lo: int, hi: int, cap1: int, cap2: int)
    requires forall n :: n in ns ==> n in m
    requires cap1 <= cap2
    ensures |OverloadRecords(ns, m, cap2, lo, hi)| <= |OverloadRecords(ns, m, cap1, lo, hi)|
    decreases hi - lo
  {
    if hi > lo {
      RecordsAntitone(ns, m, lo, hi - 1, cap1, cap2);
    }
  }

  lemma ShiftAntitone(ns: seq<string>, m: map<string, Attrs>, k: nat, cap1: int, cap2: int)
    requires k < |ns| && forall n :: n in ns ==> n in m
    requires cap1 <= cap2
    ensures Shift(ns, m, cap2, k) <= Shift(ns, m, cap1, k)
  {
    RecordsAntitone(ns[..k + 1], m, m[ns[k]].es, m[ns[k]].ef, cap1, cap2);
  }

  /** The shifts of the first `i` nodes, added up. */
  function TotalShift(ns: seq<string>, m: map<string, Attrs>, cap: int, i: nat): nat
    requires i <= |ns| && forall n :: n in ns ==> n in m
  {
    if i == 0 then 0 else TotalShift(ns, m, cap, i - 1) + Shift(ns, m, cap, i - 1)
  }

  /** Over the same unshifted graph and capacity, the nodes are pushed by as
      many days in all as `detect_conflicts` reports overloads. */
  lemma {:induction false} TotalShiftIsConflictCount(ns: seq<string>, m: map<string, Attrs>, cap: int, i: nat)
    requires i <= |ns| && forall n :: n in ns ==> n in m
    ensures TotalShift(ns, m, cap, i) == |ConflictsOf(ns[..i], m, cap)|
  {
    if i > 0 {
      TotalShiftIsConflictCount(ns, m, cap, i - 1);
      ConflictsStep(ns, i - 1, m, cap);
    }
  }

  /** With non-negative resources, the demand of a prefix never exceeds the
      demand of the whole sequence. */
  lemma {:induction false} LoadPrefixBound(ns: seq<string>, m: map<string, Attrs>, j: nat, t: int)
    requires j <= |ns| && (forall n :: n in ns ==> n in m) && NonNegativeResources(ns, m)
    ensures Load(ns[..j], m, t) <= Load(ns, m, t)
    decreases |ns| - j
  {
    if j < |ns| {
      LoadPrefixBound(ns, m, j + 1, t);
      LoadStep(ns, j, m, t);
    } else {
      assert ns[..j] == ns;
    }
  }

  /** If no working day is overloaded, no node moves. */
  lemma NoOverloadNoShift(ns: seq<string>, m: map<string, Attrs>, cap: int)
    requires (forall n :: n in ns ==> n in m) && NonNegativeResources(ns, m)
    requires NoWorkingOverload(ns, m, cap)
    ensures forall k :: 0 <= k < |ns| ==> Shift(ns, m, cap, k) == 0
  {
    forall k | 0 <= k < |ns| ensures Shift(ns, m, cap, k) == 0 {
      var a, prefix := m[ns[k]], ns[..k + 1];
      forall t | a.es <= t < a.ef ensures Load(prefix, m, t) <= cap {
        LoadPrefixBound(ns, m, k + 1, t);
        assert ActiveOn(a, t);
      }
      NoRecordsWhenCalm(prefix, m, cap, a.es, a.ef);
    }
  }
}
