/** The crew-overload scan of core/conflict/conflict_engine.py. Nodes are
    visited in graph order and the running per-day demand is accumulated; a
    record is emitted for every (node, day) at which the demand, once that node
    is added, exceeds the capacity. */
module ConflictEngine {
  import opened Seqs
  import opened Digraph
  import opened CpmEngine

  /** `{"time": t, "issue": "Crew overload"}`. */
  datatype Conflict = Conflict(time: int, issue: string)

  const Overload := "Crew overload"

  /** `detect_conflicts`'s default `crew_capacity`. */
  const DefaultCrewCapacity := 2

  /** The demand on day `t` once the nodes of `ns` have been added: the sum of
      the resources of those active that day. */
  function Load(ns: seq<string>, m: map<string, Attrs>, t: int): int
    requires forall n :: n in ns ==> n in m
  {
    if ns == [] then 0
    else
      var x := ns[|ns| - 1];
      Load(ns[..|ns| - 1], m, t) + (if ActiveOn(m[x], t) then m[x].resource else 0)
  }

  /** The records the inner loop emits for the last node of `ns` over the days
      `lo .. hi - 1`: one per day whose demand exceeds `cap`. */
  function OverloadRecords(ns: seq<string>, m: map<string, Attrs>, cap: int, lo: int, hi: int): seq<Conflict>
    requires forall n :: n in ns ==> n in m
    decreases hi - lo
  {
    if hi <= lo then []
    else OverloadRecords(ns, m, cap, lo, hi - 1) + (if Load(ns, m, hi - 1) > cap then [Conflict(hi - 1, Overload)] else [])
  }

  /** All records, node by node in graph order. */
  function ConflictsOf(ns: seq<string>, m: map<string, Attrs>, cap: int): seq<Conflict>
    requires forall n :: n in ns ==> n in m
  {
    if ns == [] then []
    else
      var x := ns[|ns| - 1];
      ConflictsOf(ns[..|ns| - 1], m, cap) + OverloadRecords(ns, m, cap, m[x].es, m[x].ef)
  }

  lemma LoadStep(ns: seq<string>, k: nat, m: map<string, Attrs>, t: int)
    requires k < |ns| && forall n :: n in ns ==> n in m
    ensures Load(ns[..k + 1], m, t) == Load(ns[..k], m, t) + (if ActiveOn(m[ns[k]], t) then m[ns[k]].resource else 0)
  {
    assert ns[..k + 1][..k] == ns[..k];
  }

  lemma ConflictsStep(ns: seq<string>, k: nat, m: map<string, Attrs>, cap: int)
    requires k < |ns| && forall n :: n in ns ==> n in m
    ensures ConflictsOf(ns[..k + 1], m, cap)
      == ConflictsOf(ns[..k], m, cap) + OverloadRecords(ns[..k + 1], m, cap, m[ns[k]].es, m[ns[k]].ef)
  {
    assert ns[..k + 1][..k] == ns[..k];
  }

  function LoadAt(timeline: map<int, int>, t: int): int {
    if t in timeline then timeline[t] else 0
  }

  /** The inner loop of `detect_conflicts` for one node: add its resource to
      each day of `range(es, ef)` and record every day that goes over `cap`. */
  method ScanNode(timeline0: map<int, int>, ghost ns: seq<string>, m: map<string, Attrs>, n: string, cap: int)
    returns (timeline: map<int, int>, found: seq<Conflict>)
    requires ns != [] && ns[|ns| - 1] == n && forall x :: x in ns ==> x in m
    requires forall t :: LoadAt(timeline0, t) == Load(ns[..|ns| - 1], m, t)
    ensures forall t :: LoadAt(timeline, t) == Load(ns, m, t)
    ensures found == OverloadRecords(ns, m, cap, m[n].es, m[n].ef)
  {
    timeline, found := timeline0, [];
    var t := m[n].es;
    while t < m[n].ef
      invariant m[n].es <= t && (t <= m[n].ef || t == m[n].es)
      invariant forall d :: LoadAt(timeline, d) == Load(ns[..|ns| - 1], m, d) + (if m[n].es <= d < t then m[n].resource else 0)
      invariant found == OverloadRecords(ns, m, cap, m[n].es, t)
    {
      ghost var before := timeline;
      timeline := timeline[t := LoadAt(timeline, t) + m[n].resource];
      assert forall d :: LoadAt(timeline, d) == LoadAt(before, d) + (if d == t then m[n].resource else 0);
      if timeline[t] > cap {
        found := found + [Conflict(t, Overload)];
      }
      t := t + 1;
    }
  }

  /** `detect_conflicts(G, crew_capacity)`. It only reads the graph. */
  method DetectConflicts(g: TaskGraph, crewCapacity: int) returns (conflicts: seq<Conflict>)
    requires g.Valid()
    ensures conflicts == ConflictsOf(g.nodes, g.attrs, crewCapacity)
  {
    var timeline: map<int, int> := map[];
    conflicts := [];
    var i := 0;
    while i < |g.nodes|
      invariant 0 <= i <= |g.nodes|
      invariant forall t :: LoadAt(timeline, t) == Load(g.nodes[..i], g.attrs, t)
      invariant conflicts == ConflictsOf(g.nodes[..i], g.attrs, crewCapacity)
    {
      assert g.nodes[..i + 1][..i] == g.nodes[..i];
      var found;
      timeline, found := ScanNode(timeline, g.nodes[..i + 1], g.attrs, g.nodes[i], crewCapacity);
      ConflictsStep(g.nodes, i, g.attrs, crewCapacity);
      conflicts := conflicts + found;
      i := i + 1;
    }
    assert g.nodes[..i] == g.nodes;
  }

  // ---------------------------------------------------------------------------
  // What the records mean
  // ---------------------------------------------------------------------------

  /** The inner loop records day `t` exactly when `t` is in range and the demand
      there, with this node added, exceeds the capacity; every record reads
      "Crew overload". */
  lemma {:induction false} OverloadRecordsMembers(ns: seq<string>, m: map<string, Attrs>, cap: int, lo: int, hi: int)
    requires forall n :: n in ns ==> n in m
    ensures forall c :: c in OverloadRecords(ns, m, cap, lo, hi) ==> c.issue == Overload && lo <= c.time < hi
    ensures forall t :: Conflict(t, Overload) in OverloadRecords(ns, m, cap, lo, hi) <==> lo <= t < hi && Load(ns, m, t) > cap
    decreases hi - lo
  {
    if hi > lo {
      OverloadRecordsMembers(ns, m, cap, lo, hi - 1);
    }
  }

  lemma {:induction false} NoRecordsWhenCalm(ns: seq<string>, m: map<string, Attrs>, cap: int, lo: int, hi: int)
    requires forall n :: n in ns ==> n in m
    requires forall t :: lo <= t < hi ==> Load(ns, m, t) <= cap
    ensures OverloadRecords(ns, m, cap, lo, hi) == []
    decreases hi - lo
  {
    if hi > lo {
      NoRecordsWhenCalm(ns, m, cap, lo, hi - 1);
    }
  }

  /** Every record's day lies in `[ES, EF)` of some node, and its issue is
      "Crew overload". */
  lemma {:induction false} ConflictsWithinSomeTask(ns: seq<string>, m: map<string, Attrs>, cap: int)
    requires forall n :: n in ns ==> n in m
    ensures forall c :: c in ConflictsOf(ns, m, cap) ==>
      c.issue == Overload && exists n :: n in ns && ActiveOn(m[n], c.time)
  {
    if ns != [] {
      var init, x := ns[..|ns| - 1], ns[|ns| - 1];
      ConflictsWithinSomeTask(init, m, cap);
      OverloadRecordsMembers(ns, m, cap, m[x].es, m[x].ef);
      forall c | c in ConflictsOf(ns, m, cap) ensures c.issue == Overload && exists n :: n in ns && ActiveOn(m[n], c.time) {
        if c in ConflictsOf(init, m, cap) {
          var n :| n in init && ActiveOn(m[n], c.time);
          assert n in ns;
        } else {
          assert ActiveOn(m[x], c.time);
        }
      }
    }
  }

  /** No day on which some task works has a demand above `cap`. */
  ghost predicate NoWorkingOverload(ns: seq<string>, m: map<string, Attrs>, cap: int)
    requires forall n :: n in ns ==> n in m
  {
    forall n, t :: n in ns && ActiveOn(m[n], t) ==> Load(ns, m, t) <= cap
  }

  ghost predicate NonNegativeResources(ns: seq<string>, m: map<string, Attrs>)
    requires forall n :: n in ns ==> n in m
  {
    forall n :: n in ns ==> m[n].resource >= 0
  }

  /** With non-negative resources the scan reports nothing exactly when no
      working day is overloaded. */
  lemma {:induction false} ConflictsEmptyIff(ns: seq<string>, m: map<string, Attrs>, cap: int)
    requires (forall n :: n in ns ==> n in m) && NonNegativeResources(ns, m)
    ensures ConflictsOf(ns, m, cap) == [] <==> NoWorkingOverload(ns, m, cap)
  {
    if ns != [] {
      var init, x := ns[..|ns| - 1], ns[|ns| - 1];
      assert forall n :: n in ns <==> n in init || n == x by {
        assert ns == init + [x];
      }
      ConflictsEmptyIff(init, m, cap);
      OverloadRecordsMembers(ns, m, cap, m[x].es, m[x].ef);
      var last := OverloadRecords(ns, m, cap, m[x].es, m[x].ef);
      if NoWorkingOverload(ns, m, cap) {
        forall n, t | n in init && ActiveOn(m[n], t) ensures Load(init, m, t) <= cap {
          assert Load(init, m, t) <= Load(ns, m, t);
        }
        forall t | m[x].es <= t < m[x].ef ensures Load(ns, m, t) <= cap {
          assert ActiveOn(m[x], t);
        }
        NoRecordsWhenCalm(ns, m, cap, m[x].es, m[x].ef);
      } else {
        var n, t :| n in ns && ActiveOn(m[n], t) && Load(ns, m, t) > cap;
        if ActiveOn(m[x], t) {
          assert Conflict(t, Overload) in last;
        } else {
          assert n in init && Load(ns, m, t) == Load(init, m, t);
          assert !NoWorkingOverload(init, m, cap);
        }
        assert ConflictsOf(ns, m, cap) == ConflictsOf(init, m, cap) + last;
      }
    }
  }

  /** Two tasks `a` (3 crews) and `b` (no crew) both working day 0 with a
      capacity of 2: day 0 is reported twice, the second time by a task that
      needs no crew at all. */
  lemma RepeatedDayExample()
    ensures ConflictsOf(["a", "b"], map["a" := Blank.(resource := 3, ef := 1), "b" := Blank.(ef := 1)], 2)
      == [Conflict(0, Overload), Conflict(0, Overload)]
  {
    var m := map["a" := Blank.(resource := 3, ef := 1), "b" := Blank.(ef := 1)];
    assert ["a", "b"][..1] == ["a"];
    assert ["a"][..0] == [];
    assert Load(["a"], m, 0) == 3;
    assert Load(["a", "b"], m, 0) == 3;
    assert OverloadRecords(["a"], m, 2, 0, 1) == [Conflict(0, Overload)];
    assert OverloadRecords(["a", "b"], m, 2, 0, 1) == [Conflict(0, Overload)];
    assert ConflictsOf(["a"], m, 2) == [Conflict(0, Overload)];
  }
}
