/** The what-if simulation of core/simulation/whatif_engine.py: generate the
    tasks of a twin with the given productivity and curing time, build the
    dependency graph, schedule it with crew leveling, scan for crew overload
    and score the risk. Every failure becomes an error result. */
module WhatifEngine {
  import opened Wrappers
  import opened Digraph
  import opened DependencyGraph
  import opened CpmEngine
  import opened ConflictEngine
  import opened RiskEngine

  /** `run_simulation`'s defaults. */
  const DefaultCrewCapacity := 2
  const DefaultProductivity := 1.0
  const DefaultCuringDays := 2

  const CycleDetected := "Cycle detected in simulation"
  const FloatDivisionMessage := "float division by zero"

  /** The success dict (`total_duration`, `critical_path`, `conflicts`, `risk`,
      `graph`) or `{"error": ...}`. */
  datatype Simulation =
    | Simulated(totalDuration: int, criticalPath: seq<string>, conflicts: seq<Conflict>, risk: Risk, graph: TaskGraph)
    | SimulationError(error: string)

  /** Task generation succeeds: it divides by the productivity only when there
      is a wall. */
  predicate Generates(twin: Twin, productivity: real) {
    productivity != 0.0 || Walls(twin) == []
  }

  /** The nodes and edges of the graph built from the generated tasks. */
  function PlanNodes(twin: Twin, productivity: real, curingDays: int): seq<string>
    requires Generates(twin, productivity)
  {
    var walls := Walls(twin);
    BuiltNodes(PlanTasks(walls, productivity, curingDays), PlanEdges(walls, |walls|))
  }

  function PlanEdgeSet(twin: Twin): set<Edge> {
    EdgeSet(PlanEdges(Walls(twin), |Walls(twin)|))
  }

  /** With at least one wall, some generated task has a positive duration:
      the first wall's build task lasts at least two days. */
  lemma SomeTaskWorks(walls: seq<Wall>, productivity: real, curingDays: int) returns (t: Task)
    requires walls != [] && productivity != 0.0
    ensures t in PlanTasks(walls, productivity, curingDays) && t.duration >= 2
  {
    var ks := PlanKeys(walls, |walls|);
    WallKeysLayout(|walls| - 1, walls[|walls| - 1]);
    assert |ks| > 0;
    PlanKeysAt(walls, |walls|);
    var key := ks[0];
    assert PlanPos(walls, key) == 0;
    assert key.BuildKey?;
    t := PlanTasks(walls, productivity, curingDays)[0];
  }

  /** ... and that task is a node of the built graph. */
  lemma PlanHasWork(walls: seq<Wall>, productivity: real, curingDays: int) returns (id: string)
    requires walls != [] && productivity != 0.0
    ensures id in BuiltNodes(PlanTasks(walls, productivity, curingDays), PlanEdges(walls, |walls|))
    ensures id in BuiltAttrs(PlanTasks(walls, productivity, curingDays), PlanEdges(walls, |walls|))
    ensures BuiltAttrs(PlanTasks(walls, productivity, curingDays), PlanEdges(walls, |walls|))[id].duration >= 2
  {
    var t := SomeTaskWorks(walls, productivity, curingDays);
    GeneratedGraph(walls, productivity, curingDays);
    PlanTasksIds(walls, productivity, curingDays);
    var ts := PlanTasks(walls, productivity, curingDays);
    var j :| 0 <= j < |ts| && ts[j] == t;
    assert Ids(ts)[j] == t.id;
    id := t.id;
  }

  /** The conflict and risk stages on a scheduled graph: the success dict. */
  method Score(g: TaskGraph, crewCapacity: int, criticalPath: seq<string>, totalDuration: int) returns (r: Simulation)
    requires g.Valid()
    ensures g.Valid()
    ensures r.Simulated? && r.graph == g && r.totalDuration == totalDuration && r.criticalPath == criticalPath
    ensures r.conflicts == ConflictsOf(g.nodes, g.attrs, crewCapacity)
    ensures r.risk == CalculateRisk(totalDuration, |r.conflicts|)
  {
    var conflicts := DetectConflicts(g, crewCapacity);
    var risk := CalculateRisk(totalDuration, |conflicts|);
    return Simulated(totalDuration, criticalPath, conflicts, risk, g);
  }

  /** The scheduling, conflict and risk stages on a built acyclic graph. */
  method ScheduleAndScore(g: TaskGraph, crewCapacity: int, topo: Option<seq<string>>, longest: seq<string>)
    returns (r: Simulation)
    requires g.Valid() && topo.Some? && TopoAnswer(topo, g.nodes, g.edges) && IsLongestPath(longest, g.nodes, g.edges)
    modifies g
    ensures g.Valid() && g.nodes == old(g.nodes) && g.edges == old(g.edges)
    ensures g.nodes != [] ==> SameWork(old(g.attrs), g.attrs)
    ensures r.SimulationError? <==>
      g.nodes != [] && crewCapacity == 0 && exists n :: n in g.nodes && g.attrs[n].duration > 0
    ensures r.SimulationError? ==> r.error == ZeroDivisionMessage
    ensures r.Simulated? ==>
      && r.graph == g
      && (g.nodes != [] ==>
            && CpmSolved(g.nodes, g.edges, g.attrs)
            && r.totalDuration == MaxEf(g.nodes, g.attrs)
            && r.criticalPath == longest)
      && (g.nodes == [] ==> r.totalDuration == 0 && r.criticalPath == [])
      && r.conflicts == ConflictsOf(g.nodes, g.attrs, crewCapacity)
      && r.risk == CalculateRisk(r.totalDuration, |r.conflicts|)
  {
    var scheduled := RunCpm(g, Some(crewCapacity), topo, longest);
    if scheduled.Failure? {
      return SimulationError(scheduled.error);
    }
    r := Score(g, crewCapacity, scheduled.value.0, scheduled.value.1);
  }

  /** `run_simulation(twin, crew_capacity, productivity_factor, curing_days)`,
      with the answers of the graph library's acyclicity / topological-order
      and longest-path calls on the generated graph passed in. */
  method RunSimulation(twin: Twin, crewCapacity: int, productivity: real, curingDays: int,
                       topo: Option<seq<string>>, longest: seq<string>) returns (r: Simulation)
    requires Generates(twin, productivity) ==>
      && TopoAnswer(topo, PlanNodes(twin, productivity, curingDays), PlanEdgeSet(twin))
      && IsLongestPath(longest, PlanNodes(twin, productivity, curingDays), PlanEdgeSet(twin))
    ensures !Generates(twin, productivity) ==> r == SimulationError(FloatDivisionMessage)
    ensures Generates(twin, productivity) && !IsDag(PlanNodes(twin, productivity, curingDays), PlanEdgeSet(twin))
      ==> r == SimulationError(CycleDetected)
    ensures Generates(twin, productivity) && IsDag(PlanNodes(twin, productivity, curingDays), PlanEdgeSet(twin))
      && crewCapacity == 0 && Walls(twin) != []
      ==> r == SimulationError(ZeroDivisionMessage)
    ensures r.Simulated? ==>
      && Generates(twin, productivity)
      && (crewCapacity != 0 || Walls(twin) == [])
      && fresh(r.graph) && r.graph.Valid()
      && r.graph.nodes == PlanNodes(twin, productivity, curingDays)
      && r.graph.edges == PlanEdgeSet(twin)
      && (r.graph.nodes != [] ==>
            && CpmSolved(r.graph.nodes, r.graph.edges, r.graph.attrs)
            && r.totalDuration == MaxEf(r.graph.nodes, r.graph.attrs)
            && r.criticalPath == longest)
      && (r.graph.nodes == [] ==> r.totalDuration == 0 && r.criticalPath == [])
      && r.conflicts == ConflictsOf(r.graph.nodes, r.graph.attrs, crewCapacity)
      && r.risk == CalculateRisk(r.totalDuration, |r.conflicts|)
    ensures Generates(twin, productivity) && IsDag(PlanNodes(twin, productivity, curingDays), PlanEdgeSet(twin))
      && (crewCapacity != 0 || Walls(twin) == [])
      ==> r.Simulated?
  {
    var generated := GenerateTasksFromTwin(twin, productivity, curingDays);
    if generated.Failure? {
      return SimulationError(generated.error);
    }
    var (tasks, dependencies) := generated.value;
    var g, cycleValid := BuildDependencyGraph(tasks, dependencies, topo);
    if !cycleValid {
      return SimulationError(CycleDetected);
    }
    if Walls(twin) != [] {
      var id := PlanHasWork(Walls(twin), productivity, curingDays);
      assert id in g.nodes && g.attrs[id].duration > 0;
    }
    ghost var built := g.attrs;
    r := ScheduleAndScore(g, crewCapacity, topo, longest);
    if Walls(twin) != [] && crewCapacity == 0 {
      var id := PlanHasWork(Walls(twin), productivity, curingDays);
      assert g.attrs[id].duration == built[id].duration;
    }
  }
}
