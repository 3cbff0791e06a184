/** Task generation from the wall list of a building twin, and the dependency
    graph built from the generated tasks (core/graph/dependency_graph.py). */
module DependencyGraph {
  import opened Wrappers
  import opened Seqs
  import opened Strings
  import opened Digraph

  /** One entry of `twin["walls"]`; a key the dict lacks is `None`. */
  datatype Wall = Wall(netVolume: Option<real>, attachedDoors: Option<int>, attachedWindows: Option<int>)

  /** The building twin; only its `walls` list is read. */
  datatype Twin = Twin(walls: Option<seq<Wall>>)

  function Walls(twin: Twin): seq<Wall> { twin.walls.GetOr([]) }

  /** `wall.get("net_volume_cuft", 10)`. */
  function Volume(w: Wall): real { w.netVolume.GetOr(10.0) }

  /** `range(wall.get("attached_doors", 0))` has this many elements. */
  function DoorCount(w: Wall): nat {
    var n := w.attachedDoors.GetOr(0);
    if n < 0 then 0 else n
  }

  function WindowCount(w: Wall): nat {
    var n := w.attachedWindows.GetOr(0);
    if n < 0 then 0 else n
  }

  /** The `type` field of a task record. */
  datatype TaskKind = WallBuild | WallCure | DoorInstall | WindowInstall | Milestone | Finishing

  /** A task record: `task_id`, `duration`, `resource`, `type`. */
  datatype Task = Task(id: string, duration: int, resource: int, kind: TaskKind)

  /** What a generated task id is made of: its kind, its wall index and, for
      openings, the opening index. */
  datatype TaskKey =
    | BuildKey(wall: nat)
    | CureKey(wall: nat)
    | DoorKey(wall: nat, index: nat)
    | WindowKey(wall: nat, index: nat)
    | MilestoneKey(wall: nat)
    | FinishingKey(wall: nat)

  function Prefix(k: TaskKey): string {
    match k
    case BuildKey(_) => "wall_build_"
    case CureKey(_) => "wall_cure_"
    case DoorKey(_, _) => "door_install_"
    case WindowKey(_, _) => "window_install_"
    case MilestoneKey(_) => "structural_complete_"
    case FinishingKey(_) => "finishing_"
  }

  function Suffix(k: TaskKey): string {
    match k
    case DoorKey(i, d) => NatToString(i) + "_" + NatToString(d)
    case WindowKey(i, w) => NatToString(i) + "_" + NatToString(w)
    case _ => NatToString(k.wall)
  }

  /** The id the generator formats for a key: `f"wall_build_{i}"`,
      `f"door_install_{i}_{d}"`, and so on. */
  function IdOf(k: TaskKey): string {
    Prefix(k) + Suffix(k)
  }

  /** The six prefixes differ in their first or their sixth character. */
  lemma PrefixTag(k1: TaskKey, k2: TaskKey)
    requires Prefix(k1)[0] == Prefix(k2)[0] && Prefix(k1)[5] == Prefix(k2)[5]
    ensures Prefix(k1) == Prefix(k2)
  {
  }

  /** Different keys give different ids. */
  lemma IdOfInjective(k1: TaskKey, k2: TaskKey)
    requires IdOf(k1) == IdOf(k2)
    ensures k1 == k2
  {
    var s, p1, p2 := IdOf(k1), Prefix(k1), Prefix(k2);
    assert |p1| > 5 && |p2| > 5;
    assert s[0] == p1[0] && s[5] == p1[5] && s[0] == p2[0] && s[5] == p2[5];
    PrefixTag(k1, k2);
    assert Suffix(k1) == s[|p1|..] == Suffix(k2);
    SuffixInjective(k1, k2);
  }

  lemma SuffixInjective(k1: TaskKey, k2: TaskKey)
    requires Prefix(k1) == Prefix(k2) && Suffix(k1) == Suffix(k2)
    ensures k1 == k2
  {
    match k1
    case DoorKey(i, d) =>
      var j, e := k2.wall, k2.index;
      JoinedDigitsInjective(NatToString(i), NatToString(j), NatToString(d), NatToString(e));
      NatToStringInjective(i, j);
      NatToStringInjective(d, e);
    case WindowKey(i, w) =>
      var j, e := k2.wall, k2.index;
      JoinedDigitsInjective(NatToString(i), NatToString(j), NatToString(w), NatToString(e));
      NatToStringInjective(i, j);
      NatToStringInjective(w, e);
    case _ =>
      NatToStringInjective(k1.wall, k2.wall);
  }

  /** `math.ceil` on an exact real: the least integer not below `x`. */
  function Ceil(x: real): (c: int)
    ensures x <= c as real && (c - 1) as real < x
  {
    -((-x).Floor)
  }

  /** `max(2, math.ceil((volume / 6) / productivity_factor))`: the least whole
      number of days, and at least two, covering the volume at the productivity. */
  function BuildDuration(volume: real, productivity: real): (d: int)
    requires productivity != 0.0
    ensures d >= 2 && volume / 6.0 / productivity <= d as real
    ensures d == 2 || (d - 1) as real < volume / 6.0 / productivity
  {
    var c := Ceil((volume / 6.0) / productivity);
    if c > 2 then c else 2
  }

  function DoorKeys(i: nat, n: nat): seq<TaskKey> {
    seq(n, d requires 0 <= d < n => DoorKey(i, d))
  }

  function WindowKeys(i: nat, n: nat): seq<TaskKey> {
    seq(n, w requires 0 <= w < n => WindowKey(i, w))
  }

  /** The keys of the tasks wall `i` yields, in emission order: build, cure,
      each door, each window, the milestone, finishing. */
  function WallKeys(i: nat, w: Wall): seq<TaskKey> {
    [BuildKey(i), CureKey(i)] + DoorKeys(i, DoorCount(w)) + WindowKeys(i, WindowCount(w))
    + [MilestoneKey(i), FinishingKey(i)]
  }

  /** The key at each position of a wall's task list. */
  lemma WallKeysAt(i: nat, w: Wall)
    ensures |WallKeys(i, w)| == 4 + DoorCount(w) + WindowCount(w)
    ensures WallKeys(i, w)[0] == BuildKey(i) && WallKeys(i, w)[1] == CureKey(i)
    ensures forall j :: 0 <= j < DoorCount(w) ==> WallKeys(i, w)[2 + j] == DoorKey(i, j)
    ensures forall j :: 0 <= j < WindowCount(w) ==> WallKeys(i, w)[2 + DoorCount(w) + j] == WindowKey(i, j)
    ensures WallKeys(i, w)[2 + DoorCount(w) + WindowCount(w)] == MilestoneKey(i)
    ensures WallKeys(i, w)[3 + DoorCount(w) + WindowCount(w)] == FinishingKey(i)
  {
    var nd, nw := DoorCount(w), WindowCount(w);
    var head, doors, windows, tail := [BuildKey(i), CureKey(i)], DoorKeys(i, nd), WindowKeys(i, nw), [MilestoneKey(i), FinishingKey(i)];
    var ks := WallKeys(i, w);
    assert ks == ((head + doors) + windows) + tail;
    forall j | 0 <= j < nd ensures ks[2 + j] == DoorKey(i, j) {
      assert ks[2 + j] == (head + doors)[2 + j];
    }
    forall j | 0 <= j < nw ensures ks[2 + nd + j] == WindowKey(i, j) {
      assert ks[2 + nd + j] == ((head + doors) + windows)[2 + nd + j];
    }
  }

  /** Where a key of wall `i` sits among that wall's tasks. */
  function LocalPos(k: TaskKey, doors: nat, windows: nat): nat {
    match k
    case BuildKey(_) => 0
    case CureKey(_) => 1
    case DoorKey(_, d) => 2 + d
    case WindowKey(_, w) => 2 + doors + w
    case MilestoneKey(_) => 2 + doors + windows
    case FinishingKey(_) => 3 + doors + windows
  }

  /** Each wall yields exactly `4 + doors + windows` tasks, all of that wall,
      each at its own position, so no key repeats. */
  lemma WallKeysLayout(i: nat, w: Wall)
    ensures |WallKeys(i, w)| == 4 + DoorCount(w) + WindowCount(w)
    ensures forall j :: 0 <= j < |WallKeys(i, w)| ==>
      WallKeys(i, w)[j].wall == i && LocalPos(WallKeys(i, w)[j], DoorCount(w), WindowCount(w)) == j
    ensures Distinct(WallKeys(i, w))
  {
    var ks, nd, nw := WallKeys(i, w), DoorCount(w), WindowCount(w);
    forall j | 0 <= j < |ks| ensures ks[j].wall == i && LocalPos(ks[j], nd, nw) == j {
      if 2 <= j < 2 + nd {
        assert ks[j] == DoorKeys(i, nd)[j - 2];
      } else if 2 + nd <= j < 2 + nd + nw {
        assert ks[j] == WindowKeys(i, nw)[j - 2 - nd];
      }
    }
  }

  /** The keys of all tasks of the first `k` walls, in emission order. */
  function PlanKeys(walls: seq<Wall>, k: nat): (ks: seq<TaskKey>)
    requires k <= |walls|
  {
    if k == 0 then [] else PlanKeys(walls, k - 1) + WallKeys(k - 1, walls[k - 1])
  }

  /** Where a key's task sits in the whole plan: after every task of the
      earlier walls, at its position within its own wall. */
  function PlanPos(walls: seq<Wall>, key: TaskKey): nat
    requires key.wall < |walls|
  {
    var w := walls[key.wall];
    |PlanKeys(walls, key.wall)| + LocalPos(key, DoorCount(w), WindowCount(w))
  }

  lemma {:induction false} PlanKeysAt(walls: seq<Wall>, k: nat)
    requires k <= |walls|
    ensures forall j :: 0 <= j < |PlanKeys(walls, k)| ==>
      PlanKeys(walls, k)[j].wall < k && PlanPos(walls, PlanKeys(walls, k)[j]) == j
  {
    if k > 0 {
      PlanKeysAt(walls, k - 1);
      WallKeysLayout(k - 1, walls[k - 1]);
      var a, b := PlanKeys(walls, k - 1), WallKeys(k - 1, walls[k - 1]);
      forall j | 0 <= j < |a + b| ensures PlanPos(walls, (a + b)[j]) == j {
        if j < |a| {
          assert (a + b)[j] == a[j];
        } else {
          assert (a + b)[j] == b[j - |a|];
        }
      }
    }
  }

  /** The plan for fewer walls is a prefix of the plan for more walls. */
  lemma {:induction false} PlanKeysPrefix(walls: seq<Wall>, k: nat, n: nat)
    requires k <= n <= |walls|
    ensures PlanKeys(walls, k) <= PlanKeys(walls, n)
  {
    if k < n {
      PlanKeysPrefix(walls, k, n - 1);
    }
  }

  /** Every key of the plan for `k` walls belongs to one of those walls. */
  lemma PlanKeysWalls(walls: seq<Wall>, k: nat)
    requires k <= |walls|
    ensures forall key :: key in PlanKeys(walls, k) ==> key.wall < k
  {
    PlanKeysAt(walls, k);
  }

  /** No key occurs twice in the plan. */
  lemma PlanKeysDistinct(walls: seq<Wall>, k: nat)
    requires k <= |walls|
    ensures Distinct(PlanKeys(walls, k))
  {
    PlanKeysAt(walls, k);
  }

  /** The record the generator appends for a key of wall `w`. */
  function TaskOf(key: TaskKey, w: Wall, productivity: real, curingDays: int): Task
    requires productivity != 0.0
  {
    var id := IdOf(key);
    match key
    case BuildKey(_) => Task(id, BuildDuration(Volume(w), productivity), 2, WallBuild)
    case CureKey(_) => Task(id, curingDays, 0, WallCure)
    case DoorKey(_, d) => Task(id, 1 + d % 3, 1, DoorInstall)
    case WindowKey(_, n) => Task(id, 2 + n % 2, 1, WindowInstall)
    case MilestoneKey(_) => Task(id, 0, 0, Milestone)
    case FinishingKey(_) => Task(id, 6, 2, Finishing)
  }

  /** The list of tasks `generate_tasks_from_twin` returns for these walls. */
  function PlanTasks(walls: seq<Wall>, productivity: real, curingDays: int): seq<Task>
    requires productivity != 0.0 || walls == []
  {
    if walls == [] then [] else
    var ks := PlanKeys(walls, |walls|);
    PlanKeysWalls(walls, |walls|);
    seq(|ks|, j requires 0 <= j < |ks| => TaskOf(ks[j], walls[ks[j].wall], productivity, curingDays))
  }

  function DoorIds(i: nat, n: nat): seq<string> {
    seq(n, d requires 0 <= d < n => IdOf(DoorKey(i, d)))
  }

  function WindowIds(i: nat, n: nat): seq<string> {
    seq(n, w requires 0 <= w < n => IdOf(WindowKey(i, w)))
  }

  /** `(cure_id, t)` for each `t` of `targets`, in order. */
  function CureEdges(cure: string, targets: seq<string>): seq<Edge> {
    seq(|targets|, j requires 0 <= j < |targets| => (cure, targets[j]))
  }

  /** `(max(ids), milestone)` when `ids` is not empty. */
  function MaxEdge(ids: seq<string>, milestone: string): seq<Edge> {
    if |ids| > 0 then [(MaxString(ids), milestone)] else []
  }

  /** The dependencies wall `i` appends, in order. The milestone waits only for
      the string-greatest door id and the string-greatest window id. */
  function WallEdges(i: nat, w: Wall): seq<Edge> {
    var cure, milestone := IdOf(CureKey(i)), IdOf(MilestoneKey(i));
    var doors, windows := DoorIds(i, DoorCount(w)), WindowIds(i, WindowCount(w));
    [(IdOf(BuildKey(i)), cure)] + CureEdges(cure, doors) + CureEdges(cure, windows)
    + MaxEdge(doors, milestone) + MaxEdge(windows, milestone)
    + [(milestone, IdOf(FinishingKey(i)))]
  }

  /** The dependency list for the first `k` walls. */
  function PlanEdges(walls: seq<Wall>, k: nat): seq<Edge>
    requires k <= |walls|
  {
    if k == 0 then [] else PlanEdges(walls, k - 1) + WallEdges(k - 1, walls[k - 1])
  }

  /** The edge joins the tasks at positions `p < q` of `ks`. */
  predicate JoinsAt(e: Edge, ks: seq<TaskKey>, p: nat, q: nat) {
    p < q < |ks| && IdOf(ks[p]) == e.0 && IdOf(ks[q]) == e.1
  }

  lemma CureDoorEdgeForward(i: nat, w: Wall, e: Edge) returns (p: nat, q: nat)
    requires e in CureEdges(IdOf(CureKey(i)), DoorIds(i, DoorCount(w)))
    ensures JoinsAt(e, WallKeys(i, w), p, q)
  {
    var nd := DoorCount(w);
    var cure := IdOf(CureKey(i));
    var j :| 0 <= j < nd && e == CureEdges(cure, DoorIds(i, nd))[j];
    WallKeysAt(i, w);
    p, q := 1, 2 + j;
  }

  lemma CureWindowEdgeForward(i: nat, w: Wall, e: Edge) returns (p: nat, q: nat)
    requires e in CureEdges(IdOf(CureKey(i)), WindowIds(i, WindowCount(w)))
    ensures JoinsAt(e, WallKeys(i, w), p, q)
  {
    var nw := WindowCount(w);
    var cure := IdOf(CureKey(i));
    var j :| 0 <= j < nw && e == CureEdges(cure, WindowIds(i, nw))[j];
    WallKeysAt(i, w);
    p, q := 1, 2 + DoorCount(w) + j;
  }

  lemma DoorMaxEdgeForward(i: nat, w: Wall, e: Edge) returns (p: nat, q: nat)
    requires e in MaxEdge(DoorIds(i, DoorCount(w)), IdOf(MilestoneKey(i)))
    ensures JoinsAt(e, WallKeys(i, w), p, q)
  {
    var nd, nw := DoorCount(w), WindowCount(w);
    var ids := DoorIds(i, nd);
    assert e == (MaxString(ids), IdOf(MilestoneKey(i)));
    var j :| 0 <= j < nd && ids[j] == e.0;
    WallKeysAt(i, w);
    p, q := 2 + j, 2 + nd + nw;
  }

  lemma WindowMaxEdgeForward(i: nat, w: Wall, e: Edge) returns (p: nat, q: nat)
    requires e in MaxEdge(WindowIds(i, WindowCount(w)), IdOf(MilestoneKey(i)))
    ensures JoinsAt(e, WallKeys(i, w), p, q)
  {
    var nd, nw := DoorCount(w), WindowCount(w);
    var ids := WindowIds(i, nw);
    assert e == (MaxString(ids), IdOf(MilestoneKey(i)));
    var j :| 0 <= j < nw && ids[j] == e.0;
    WallKeysAt(i, w);
    p, q := 2 + nd + j, 2 + nd + nw;
  }

  /** Every dependency of a wall points from an earlier-emitted task of that
      wall to a later-emitted one. */
  lemma WallEdgesForward(i: nat, w: Wall, e: Edge) returns (p: nat, q: nat)
    requires e in WallEdges(i, w)
    ensures JoinsAt(e, WallKeys(i, w), p, q)
  {
    var ks, nd, nw := WallKeys(i, w), DoorCount(w), WindowCount(w);
    var cure, milestone := IdOf(CureKey(i)), IdOf(MilestoneKey(i));
    var doors, windows := DoorIds(i, nd), WindowIds(i, nw);
    if e in CureEdges(cure, doors) {
      p, q := CureDoorEdgeForward(i, w, e);
    } else if e in CureEdges(cure, windows) {
      p, q := CureWindowEdgeForward(i, w, e);
    } else if e in MaxEdge(doors, milestone) {
      p, q := DoorMaxEdgeForward(i, w, e);
    } else if e in MaxEdge(windows, milestone) {
      p, q := WindowMaxEdgeForward(i, w, e);
    } else if e == (IdOf(BuildKey(i)), cure) {
      WallKeysAt(i, w);
      p, q := 0, 1;
    } else {
      assert e == (milestone, IdOf(FinishingKey(i)));
      WallKeysAt(i, w);
      p, q := 2 + nd + nw, 3 + nd + nw;
    }
  }

  /** Wall `i`'s dependencies, as a block of the plan's list. */
  function WallEdgeBlock(walls: seq<Wall>): nat -> seq<Edge> {
    (i: nat) => if i < |walls| then WallEdges(i, walls[i]) else []
  }

  lemma {:induction false} PlanEdgesAreBlocks(walls: seq<Wall>, k: nat)
    requires k <= |walls|
    ensures PlanEdges(walls, k) == Blocks(WallEdgeBlock(walls), k)
  {
    if k > 0 {
      PlanEdgesAreBlocks(walls, k - 1);
    }
  }

  /** A generated dependency belongs to one wall. */
  lemma PlanEdgeOfWall(walls: seq<Wall>, k: nat, e: Edge) returns (x: nat)
    requires k <= |walls| && e in PlanEdges(walls, k)
    ensures x < k && e in WallEdges(x, walls[x])
  {
    PlanEdgesAreBlocks(walls, k);
    x := BlocksMember(WallEdgeBlock(walls), k, e);
  }

  /** The ids of a task list, in order. */
  function Ids(tasks: seq<Task>): (ids: seq<string>)
    ensures |ids| == |tasks| && forall j :: 0 <= j < |tasks| ==> ids[j] == tasks[j].id
  {
    seq(|tasks|, j requires 0 <= j < |tasks| => tasks[j].id)
  }

  function EdgeSet(deps: seq<Edge>): set<Edge> {
    set e | e in deps
  }

  /** The ids of the generated tasks, in emission order. */
  function PlanIds(walls: seq<Wall>): seq<string> {
    var ks := PlanKeys(walls, |walls|);
    seq(|ks|, j requires 0 <= j < |ks| => IdOf(ks[j]))
  }

  lemma PlanTasksIds(walls: seq<Wall>, productivity: real, curingDays: int)
    requires productivity != 0.0
    ensures Ids(PlanTasks(walls, productivity, curingDays)) == PlanIds(walls)
  {
    var ks := PlanKeys(walls, |walls|);
    var ts := PlanTasks(walls, productivity, curingDays);
    PlanKeysWalls(walls, |walls|);
    forall j | 0 <= j < |ks| ensures ts[j].id == IdOf(ks[j]) {
      assert ks[j] in ks;
      assert ts[j] == TaskOf(ks[j], walls[ks[j].wall], productivity, curingDays);
    }
  }

  /** The number of tasks the first `k` walls yield: four per wall plus one
      per door and one per window. */
  function TaskCount(walls: seq<Wall>, k: nat): nat
    requires k <= |walls|
  {
    if k == 0 then 0 else TaskCount(walls, k - 1) + 4 + DoorCount(walls[k - 1]) + WindowCount(walls[k - 1])
  }

  lemma {:induction false} PlanKeysCount(walls: seq<Wall>, k: nat)
    requires k <= |walls|
    ensures |PlanKeys(walls, k)| == TaskCount(walls, k)
  {
    if k > 0 {
      PlanKeysCount(walls, k - 1);
      WallKeysAt(k - 1, walls[k - 1]);
    }
  }

  /** The generated list holds exactly `4 + doors + windows` tasks per wall,
      and none for a twin without walls. */
  lemma PlanTaskCount(walls: seq<Wall>, productivity: real, curingDays: int)
    requires productivity != 0.0 || walls == []
    ensures |PlanTasks(walls, productivity, curingDays)| == TaskCount(walls, |walls|)
  {
    PlanKeysCount(walls, |walls|);
  }

  /** The duration and crew of every generated task, by kind. */
  lemma PlanTaskTable(walls: seq<Wall>, productivity: real, curingDays: int)
    requires productivity != 0.0 || walls == []
    ensures forall t :: t in PlanTasks(walls, productivity, curingDays) ==>
      && (t.kind == WallBuild ==> t.duration >= 2 && t.resource == 2)
      && (t.kind == WallCure ==> t.duration == curingDays && t.resource == 0)
      && (t.kind == DoorInstall ==> 1 <= t.duration <= 3 && t.resource == 1)
      && (t.kind == WindowInstall ==> 2 <= t.duration <= 3 && t.resource == 1)
      && (t.kind == Milestone ==> t.duration == 0 && t.resource == 0)
      && (t.kind == Finishing ==> t.duration == 6 && t.resource == 2)
  {
    var ts := PlanTasks(walls, productivity, curingDays);
    if walls != [] {
      var ks := PlanKeys(walls, |walls|);
      PlanKeysWalls(walls, |walls|);
      forall t | t in ts
        ensures && (t.kind == WallBuild ==> t.duration >= 2 && t.resource == 2)
                && (t.kind == WallCure ==> t.duration == curingDays && t.resource == 0)
                && (t.kind == DoorInstall ==> 1 <= t.duration <= 3 && t.resource == 1)
                && (t.kind == WindowInstall ==> 2 <= t.duration <= 3 && t.resource == 1)
                && (t.kind == Milestone ==> t.duration == 0 && t.resource == 0)
                && (t.kind == Finishing ==> t.duration == 6 && t.resource == 2)
      {
        var j :| 0 <= j < |ts| && ts[j] == t;
        assert ks[j] in ks;
        assert t == TaskOf(ks[j], walls[ks[j].wall], productivity, curingDays);
      }
    }
  }

  /** Task ids are unique because they carry the wall and opening indices. */
  lemma PlanIdsDistinct(walls: seq<Wall>)
    ensures Distinct(PlanIds(walls))
  {
    var ks := PlanKeys(walls, |walls|);
    var ids := PlanIds(walls);
    PlanKeysDistinct(walls, |walls|);
    forall x, y | 0 <= x < y < |ids| ensures ids[x] != ids[y] {
      if ids[x] == ids[y] {
        IdOfInjective(ks[x], ks[y]);
      }
    }
  }

  /** Positions `p < q` within wall `x` are positions `a < b` in the plan,
      both offset by the number of tasks of the earlier walls. */
  lemma WallInPlan(walls: seq<Wall>, x: nat, p: nat, q: nat) returns (a: nat, b: nat)
    requires x < |walls| && p < q < |WallKeys(x, walls[x])|
    ensures a < b < |PlanIds(walls)|
    ensures PlanIds(walls)[a] == IdOf(WallKeys(x, walls[x])[p])
    ensures PlanIds(walls)[b] == IdOf(WallKeys(x, walls[x])[q])
  {
    var before, wk, all := PlanKeys(walls, x), WallKeys(x, walls[x]), PlanKeys(walls, |walls|);
    PlanKeysPrefix(walls, x + 1, |walls|);
    assert PlanKeys(walls, x + 1) == before + wk;
    a, b := |before| + p, |before| + q;
    assert all[a] == (before + wk)[a] == wk[p];
    assert all[b] == (before + wk)[b] == wk[q];
  }

  /** A generated dependency joins two generated tasks, the source emitted first. */
  lemma PlanEdgeForward(walls: seq<Wall>, e: Edge)
    requires e in PlanEdges(walls, |walls|)
    ensures exists p, q :: 0 <= p < q < |PlanIds(walls)| && PlanIds(walls)[p] == e.0 && PlanIds(walls)[q] == e.1
  {
    var x := PlanEdgeOfWall(walls, |walls|, e);
    var p, q := WallEdgesForward(x, walls[x], e);
    var a, b := WallInPlan(walls, x, p, q);
  }

  /** The emission order of the generated tasks is a topological order of the
      generated dependencies, and every dependency names generated tasks: the
      generated graph is acyclic. */
  lemma PlanIsTopoOrder(walls: seq<Wall>)
    ensures IsTopoOrder(PlanIds(walls), PlanIds(walls), EdgeSet(PlanEdges(walls, |walls|)))
    ensures forall e :: e in PlanEdges(walls, |walls|) ==> e.0 in PlanIds(walls) && e.1 in PlanIds(walls)
  {
    var ids := PlanIds(walls);
    var deps := PlanEdges(walls, |walls|);
    PlanIdsDistinct(walls);
    forall e | e in deps ensures e.0 in ids && e.1 in ids {
      PlanEdgeForward(walls, e);
    }
    forall i, j | 0 <= i < |ids| && 0 <= j < |ids| && (ids[i], ids[j]) in EdgeSet(deps) ensures i < j {
      PlanEdgeForward(walls, (ids[i], ids[j]));
      var p, q :| 0 <= p < q < |ids| && ids[p] == ids[i] && ids[q] == ids[j];
    }
  }

  /** Door ids of one wall compare like their door numbers' decimal strings;
      below eleven doors, none exceeds door 9. */
  lemma DoorIdAtMostNine(i: nat, d: nat)
    requires d < 11
    ensures LexLe(IdOf(DoorKey(i, d)), IdOf(DoorKey(i, 9)))
  {
    var p := "door_install_" + NatToString(i) + "_";
    assert IdOf(DoorKey(i, d)) == p + NatToString(d) && IdOf(DoorKey(i, 9)) == p + "9";
    LexCommonPrefix(p, NatToString(d), "9");
    if d == 10 {
      assert NatToString(d) == "10";
    }
  }

  /** Python's `max` over strings compares them character by character, so with
      eleven doors the milestone waits for door 9, not door 10. */
  lemma MaxDoorIsNotLastDoor(i: nat)
    ensures MaxString(DoorIds(i, 11)) == IdOf(DoorKey(i, 9))
  {
    var ids := DoorIds(i, 11);
    var m := MaxString(ids);
    var j :| 0 <= j < 11 && ids[j] == m;
    DoorIdAtMostNine(i, j);
    assert ids[9] == IdOf(DoorKey(i, 9));
    LexAntisymmetric(m, ids[9]);
  }

  /** The tasks `ts` are the records of the keys `ks` of these walls. */
  ghost predicate Realizes(ts: seq<Task>, ks: seq<TaskKey>, walls: seq<Wall>, productivity: real, curingDays: int) {
    && (productivity != 0.0 || ts == [])
    && |ts| == |ks|
    && forall j :: 0 <= j < |ts| ==>
         ks[j].wall < |walls| && productivity != 0.0
         && ts[j] == TaskOf(ks[j], walls[ks[j].wall], productivity, curingDays)
  }

  lemma RealizesPlan(ts: seq<Task>, walls: seq<Wall>, productivity: real, curingDays: int)
    requires productivity != 0.0 || walls == []
    requires Realizes(ts, PlanKeys(walls, |walls|), walls, productivity, curingDays)
    ensures ts == PlanTasks(walls, productivity, curingDays)
  {
  }

  /** The door loop of one wall: an install task per door, each hung off the
      cure task, and the list of door ids. */
  method DoorInstalls(i: nat, cureId: string, n: int) returns (ts: seq<Task>, es: seq<Edge>, ids: seq<string>)
    ensures ids == DoorIds(i, if n < 0 then 0 else n) && es == CureEdges(cureId, ids)
    ensures |ts| == |ids| && forall d :: 0 <= d < |ts| ==> ts[d] == Task(ids[d], 1 + d % 3, 1, DoorInstall)
  {
    ts, es, ids := [], [], [];
    var d := 0;
    while d < n
      invariant 0 <= d && (d <= n || d == 0)
      invariant ids == DoorIds(i, d) && es == CureEdges(cureId, ids)
      invariant |ts| == d && forall j :: 0 <= j < d ==> ts[j] == Task(ids[j], 1 + j % 3, 1, DoorInstall)
    {
      var doorId := "door_install_" + NatToString(i) + "_" + NatToString(d);
      ts := ts + [Task(doorId, 1 + d % 3, 1, DoorInstall)];
      es := es + [(cureId, doorId)];
      assert doorId == IdOf(DoorKey(i, d));
      ids := ids + [doorId];
      assert forall j :: 0 <= j < d + 1 ==> ids[j] == DoorIds(i, d + 1)[j];
      d := d + 1;
    }
  }

  /** The window loop of one wall. */
  method WindowInstalls(i: nat, cureId: string, n: int) returns (ts: seq<Task>, es: seq<Edge>, ids: seq<string>)
    ensures ids == WindowIds(i, if n < 0 then 0 else n) && es == CureEdges(cureId, ids)
    ensures |ts| == |ids| && forall w :: 0 <= w < |ts| ==> ts[w] == Task(ids[w], 2 + w % 2, 1, WindowInstall)
  {
    ts, es, ids := [], [], [];
    var w := 0;
    while w < n
      invariant 0 <= w && (w <= n || w == 0)
      invariant ids == WindowIds(i, w) && es == CureEdges(cureId, ids)
      invariant |ts| == w && forall j :: 0 <= j < w ==> ts[j] == Task(ids[j], 2 + j % 2, 1, WindowInstall)
    {
      var windowId := "window_install_" + NatToString(i) + "_" + NatToString(w);
      ts := ts + [Task(windowId, 2 + w % 2, 1, WindowInstall)];
      es := es + [(cureId, windowId)];
      assert windowId == IdOf(WindowKey(i, w));
      ids := ids + [windowId];
      assert forall j :: 0 <= j < w + 1 ==> ids[j] == WindowIds(i, w + 1)[j];
      w := w + 1;
    }
  }

  /** The tasks `ts` are the records of the keys `ks`, all of wall `w`. */
  ghost predicate WallRealizes(ts: seq<Task>, ks: seq<TaskKey>, w: Wall, productivity: real, curingDays: int)
    requires productivity != 0.0
  {
    |ts| == |ks| && forall j :: 0 <= j < |ts| ==> ts[j] == TaskOf(ks[j], w, productivity, curingDays)
  }

  /** The body of the wall loop for wall `i`. */
  method WallPlan(i: nat, wall: Wall, productivity: real, curingDays: int) returns (ts: seq<Task>, es: seq<Edge>)
    requires productivity != 0.0
    ensures WallRealizes(ts, WallKeys(i, wall), wall, productivity, curingDays)
    ensures es == WallEdges(i, wall)
  {
    var buildId, cureId := "wall_build_" + NatToString(i), "wall_cure_" + NatToString(i);
    assert buildId == IdOf(BuildKey(i)) && cureId == IdOf(CureKey(i));
    var volume := wall.netVolume.GetOr(10.0);
    var buildDuration := BuildDuration(volume, productivity);
    var head := [Task(buildId, buildDuration, 2, WallBuild), Task(cureId, curingDays, 0, WallCure)];
    var doorTasks, doorEdges, doorIds := DoorInstalls(i, cureId, wall.attachedDoors.GetOr(0));
    var windowTasks, windowEdges, windowIds := WindowInstalls(i, cureId, wall.attachedWindows.GetOr(0));
    var milestoneId, finishingId := "structural_complete_" + NatToString(i), "finishing_" + NatToString(i);
    assert milestoneId == IdOf(MilestoneKey(i)) && finishingId == IdOf(FinishingKey(i));
    var tail := [Task(milestoneId, 0, 0, Milestone), Task(finishingId, 6, 2, Finishing)];
    ts := head + doorTasks + windowTasks + tail;
    es := [(buildId, cureId)] + doorEdges + windowEdges;
    if |doorIds| > 0 {
      es := es + [(MaxString(doorIds), milestoneId)];
    }
    if |windowIds| > 0 {
      es := es + [(MaxString(windowIds), milestoneId)];
    }
    es := es + [(milestoneId, finishingId)];
    WallPlanRealizes(i, wall, productivity, curingDays, head, doorTasks, windowTasks, tail);
  }

  lemma WallPlanRealizes(i: nat, wall: Wall, productivity: real, curingDays: int,
                         head: seq<Task>, doorTasks: seq<Task>, windowTasks: seq<Task>, tail: seq<Task>)
    requires productivity != 0.0
    requires head == [TaskOf(BuildKey(i), wall, productivity, curingDays), TaskOf(CureKey(i), wall, productivity, curingDays)]
    requires |doorTasks| == DoorCount(wall)
    requires forall d :: 0 <= d < |doorTasks| ==> doorTasks[d] == Task(DoorIds(i, DoorCount(wall))[d], 1 + d % 3, 1, DoorInstall)
    requires |windowTasks| == WindowCount(wall)
    requires forall w :: 0 <= w < |windowTasks| ==> windowTasks[w] == Task(WindowIds(i, WindowCount(wall))[w], 2 + w % 2, 1, WindowInstall)
    requires tail == [TaskOf(MilestoneKey(i), wall, productivity, curingDays), TaskOf(FinishingKey(i), wall, productivity, curingDays)]
    ensures WallRealizes(head + doorTasks + windowTasks + tail, WallKeys(i, wall), wall, productivity, curingDays)
  {
    var ks, nd, nw := WallKeys(i, wall), DoorCount(wall), WindowCount(wall);
    var ts := head + doorTasks + windowTasks + tail;
    forall j | 0 <= j < |ts| ensures ts[j] == TaskOf(ks[j], wall, productivity, curingDays) {
      if 2 <= j < 2 + nd {
        assert ts[j] == doorTasks[j - 2] && ks[j] == DoorKeys(i, nd)[j - 2];
      } else if 2 + nd <= j < 2 + nd + nw {
        assert ts[j] == windowTasks[j - 2 - nd] && ks[j] == WindowKeys(i, nw)[j - 2 - nd];
      }
    }
  }

  lemma RealizesAppend(ts: seq<Task>, ks: seq<TaskKey>, walls: seq<Wall>, i: nat,
                       productivity: real, curingDays: int, more: seq<Task>)
    requires i < |walls| && productivity != 0.0
    requires Realizes(ts, ks, walls, productivity, curingDays)
    requires WallRealizes(more, WallKeys(i, walls[i]), walls[i], productivity, curingDays)
    ensures Realizes(ts + more, ks + WallKeys(i, walls[i]), walls, productivity, curingDays)
  {
    WallKeysLayout(i, walls[i]);
    var ks', ts' := ks + WallKeys(i, walls[i]), ts + more;
    forall j | |ts| <= j < |ts'|
      ensures ks'[j].wall < |walls| && ts'[j] == TaskOf(ks'[j], walls[ks'[j].wall], productivity, curingDays)
    {
      assert ks'[j] == WallKeys(i, walls[i])[j - |ts|];
    }
  }

  /** `generate_tasks_from_twin(twin, productivity_factor, curing_days)`: the
      planned tasks and dependencies, or the division error a zero
      productivity factor raises at the first wall. */
  method GenerateTasksFromTwin(twin: Twin, productivity: real, curingDays: int)
    returns (r: Result<(seq<Task>, seq<Edge>)>)
    ensures r.Failure? <==> |Walls(twin)| > 0 && productivity == 0.0
    ensures r.Failure? ==> r.error == "float division by zero"
    ensures r.Success? ==> r.value == (PlanTasks(Walls(twin), productivity, curingDays),
                                       PlanEdges(Walls(twin), |Walls(twin)|))
  {
    var walls := Walls(twin);
    var tasks: seq<Task> := [];
    var deps: seq<Edge> := [];
    ghost var ks: seq<TaskKey> := [];
    var i := 0;
    while i < |walls|
      invariant 0 <= i <= |walls|
      invariant i > 0 ==> productivity != 0.0
      invariant ks == PlanKeys(walls, i) && Realizes(tasks, ks, walls, productivity, curingDays)
      invariant deps == PlanEdges(walls, i)
    {
      if productivity == 0.0 {
        return Failure("float division by zero");
      }
      var ts, es := WallPlan(i, walls[i], productivity, curingDays);
      RealizesAppend(tasks, ks, walls, i, productivity, curingDays, ts);
      tasks, deps := tasks + ts, deps + es;
      ks := ks + WallKeys(i, walls[i]);
      i := i + 1;
    }
    RealizesPlan(tasks, walls, productivity, curingDays);
    r := Success((tasks, deps));
  }

  /** The node list after `G.add_node` for each task, in order. */
  function NodesAfterTasks(tasks: seq<Task>): seq<string> {
    if tasks == [] then []
    else AddMissing(NodesAfterTasks(tasks[..|tasks| - 1]), tasks[|tasks| - 1].id)
  }

  /** The node list after `G.add_edge` for each dependency, in order. */
  function NodesAfterEdges(ns: seq<string>, deps: seq<Edge>): seq<string> {
    if deps == [] then ns
    else
      var e := deps[|deps| - 1];
      AddMissing(AddMissing(NodesAfterEdges(ns, deps[..|deps| - 1]), e.0), e.1)
  }

  /** The node attributes after `G.add_node(task_id, **task)` for each task:
      a repeated id overwrites duration and resource. */
  function AttrsAfterTasks(tasks: seq<Task>): map<string, Attrs> {
    if tasks == [] then map[]
    else
      var t := tasks[|tasks| - 1];
      var m := WithBlank(AttrsAfterTasks(tasks[..|tasks| - 1]), t.id);
      m[t.id := m[t.id].(duration := t.duration, resource := t.resource)]
  }

  function AttrsAfterEdges(m: map<string, Attrs>, deps: seq<Edge>): map<string, Attrs> {
    if deps == [] then m
    else
      var e := deps[|deps| - 1];
      WithBlank(WithBlank(AttrsAfterEdges(m, deps[..|deps| - 1]), e.0), e.1)
  }

  function BuiltNodes(tasks: seq<Task>, deps: seq<Edge>): seq<string> {
    NodesAfterEdges(NodesAfterTasks(tasks), deps)
  }

  function BuiltAttrs(tasks: seq<Task>, deps: seq<Edge>): map<string, Attrs> {
    AttrsAfterEdges(AttrsAfterTasks(tasks), deps)
  }

  lemma TasksStep(tasks: seq<Task>, k: nat)
    requires k < |tasks|
    ensures NodesAfterTasks(tasks[..k + 1]) == AddMissing(NodesAfterTasks(tasks[..k]), tasks[k].id)
    ensures AttrsAfterTasks(tasks[..k + 1])
      == WithBlank(AttrsAfterTasks(tasks[..k]), tasks[k].id)[tasks[k].id :=
           WithBlank(AttrsAfterTasks(tasks[..k]), tasks[k].id)[tasks[k].id].(duration := tasks[k].duration, resource := tasks[k].resource)]
  {
    assert tasks[..k + 1][..k] == tasks[..k];
  }

  lemma EdgesStep(ns: seq<string>, m: map<string, Attrs>, deps: seq<Edge>, k: nat)
    requires k < |deps|
    ensures NodesAfterEdges(ns, deps[..k + 1]) == AddMissing(AddMissing(NodesAfterEdges(ns, deps[..k]), deps[k].0), deps[k].1)
    ensures AttrsAfterEdges(m, deps[..k + 1]) == WithBlank(WithBlank(AttrsAfterEdges(m, deps[..k]), deps[k].0), deps[k].1)
    ensures EdgeSet(deps[..k + 1]) == EdgeSet(deps[..k]) + {deps[k]}
  {
    assert deps[..k + 1][..k] == deps[..k];
    assert deps[..k + 1] == deps[..k] + [deps[k]];
  }

  /** The first loop of `build_dependency_graph`: one `add_node` per task. */
  method AddTaskNodes(g: TaskGraph, tasks: seq<Task>)
    requires g.Valid() && g.nodes == [] && g.edges == {} && g.attrs == map[]
    modifies g
    ensures g.Valid() && g.edges == {}
    ensures g.nodes == NodesAfterTasks(tasks) && g.attrs == AttrsAfterTasks(tasks)
  {
    var k := 0;
    while k < |tasks|
      invariant 0 <= k <= |tasks|
      invariant g.Valid() && g.edges == {}
      invariant g.nodes == NodesAfterTasks(tasks[..k]) && g.attrs == AttrsAfterTasks(tasks[..k])
    {
      TasksStep(tasks, k);
      g.AddNode(tasks[k].id, tasks[k].duration, tasks[k].resource);
      k := k + 1;
    }
    assert tasks[..k] == tasks;
  }

  /** The second loop of `build_dependency_graph`: one `add_edge` per dependency. */
  method AddDependencyEdges(g: TaskGraph, deps: seq<Edge>)
    requires g.Valid() && g.edges == {}
    modifies g
    ensures g.Valid() && g.edges == EdgeSet(deps)
    ensures g.nodes == NodesAfterEdges(old(g.nodes), deps) && g.attrs == AttrsAfterEdges(old(g.attrs), deps)
  {
    ghost var ns, m := g.nodes, g.attrs;
    var k := 0;
    assert deps[..0] == [];
    while k < |deps|
      invariant 0 <= k <= |deps|
      invariant g.Valid() && g.edges == EdgeSet(deps[..k])
      invariant g.nodes == NodesAfterEdges(ns, deps[..k]) && g.attrs == AttrsAfterEdges(m, deps[..k])
    {
      EdgesStep(ns, m, deps, k);
      g.AddEdge(deps[k].0, deps[k].1);
      k := k + 1;
    }
    assert deps[..k] == deps;
  }

  /** `build_dependency_graph(tasks, dependencies)`: a fresh graph with a node
      per task id and an edge per dependency, and whether it is acyclic. The
      acyclicity test is networkx's; its answer arrives as `topo`. */
  method BuildDependencyGraph(tasks: seq<Task>, deps: seq<Edge>, topo: Option<seq<string>>)
    returns (g: TaskGraph, cycleValid: bool)
    requires TopoAnswer(topo, BuiltNodes(tasks, deps), EdgeSet(deps))
    ensures fresh(g) && g.Valid()
    ensures g.nodes == BuiltNodes(tasks, deps) && g.edges == EdgeSet(deps)
    ensures g.attrs == BuiltAttrs(tasks, deps)
    ensures cycleValid <==> IsDag(g.nodes, g.edges)
  {
    g := new TaskGraph();
    AddTaskNodes(g, tasks);
    AddDependencyEdges(g, deps);
    cycleValid := topo.Some?;
  }

  /** With unique ids, the nodes are the ids of the tasks, in order. */
  lemma {:induction false} NodesAfterDistinctTasks(tasks: seq<Task>)
    requires Distinct(Ids(tasks))
    ensures NodesAfterTasks(tasks) == Ids(tasks)
  {
    if tasks != [] {
      var init := tasks[..|tasks| - 1];
      assert Ids(init) == Ids(tasks)[..|tasks| - 1];
      NodesAfterDistinctTasks(init);
      assert tasks[|tasks| - 1].id !in Ids(init);
    }
  }

  /** Dependencies between known nodes add no node. */
  lemma {:induction false} NodesAfterKnownEdges(ns: seq<string>, deps: seq<Edge>)
    requires forall e :: e in deps ==> e.0 in ns && e.1 in ns
    ensures NodesAfterEdges(ns, deps) == ns
  {
    if deps != [] {
      NodesAfterKnownEdges(ns, deps[..|deps| - 1]);
      assert deps[|deps| - 1] in deps;
    }
  }

  /** The attribute keys are exactly the ids of the tasks. */
  lemma {:induction false} AttrsAfterTasksKeys(tasks: seq<Task>)
    ensures AttrsAfterTasks(tasks).Keys == set j | 0 <= j < |tasks| :: tasks[j].id
  {
    if tasks != [] {
      var init, t := tasks[..|tasks| - 1], tasks[|tasks| - 1];
      AttrsAfterTasksKeys(init);
      assert (set j | 0 <= j < |tasks| :: tasks[j].id) == (set j | 0 <= j < |init| :: init[j].id) + {t.id};
    }
  }

  /** With unique ids each task's node carries that task's duration and
      resource and an empty schedule. */
  lemma {:induction false} AttrsAfterDistinctTasks(tasks: seq<Task>)
    requires Distinct(Ids(tasks))
    ensures forall j :: 0 <= j < |tasks| ==>
      tasks[j].id in AttrsAfterTasks(tasks) &&
      AttrsAfterTasks(tasks)[tasks[j].id] == Blank.(duration := tasks[j].duration, resource := tasks[j].resource)
  {
    if tasks != [] {
      var init, t := tasks[..|tasks| - 1], tasks[|tasks| - 1];
      assert Ids(init) == Ids(tasks)[..|tasks| - 1];
      AttrsAfterDistinctTasks(init);
      AttrsAfterTasksKeys(init);
      assert t.id !in AttrsAfterTasks(init);
      forall j | 0 <= j < |tasks| ensures tasks[j].id in AttrsAfterTasks(tasks) &&
        AttrsAfterTasks(tasks)[tasks[j].id] == Blank.(duration := tasks[j].duration, resource := tasks[j].resource)
      {
        if j < |init| {
          assert Ids(tasks)[j] != Ids(tasks)[|tasks| - 1];
          assert tasks[j] == init[j];
        }
      }
    }
  }

  /** Dependencies between known nodes change no attribute. */
  lemma {:induction false} AttrsAfterKnownEdges(m: map<string, Attrs>, deps: seq<Edge>)
    requires forall e :: e in deps ==> e.0 in m && e.1 in m
    ensures AttrsAfterEdges(m, deps) == m
  {
    if deps != [] {
      AttrsAfterKnownEdges(m, deps[..|deps| - 1]);
      assert deps[|deps| - 1] in deps;
    }
  }

  /** An edge naming an id no task has adds that id as an attribute-less node. */
  lemma {:induction false} UnknownEndpointIsBlank(tasks: seq<Task>, deps: seq<Edge>, x: string)
    requires exists e :: e in deps && (e.0 == x || e.1 == x)
    requires x !in Ids(tasks)
    ensures x in BuiltNodes(tasks, deps) && x in BuiltAttrs(tasks, deps)
    ensures BuiltAttrs(tasks, deps)[x] == Blank
  {
    AttrsAfterTasksKeys(tasks);
    var init, e := deps[..|deps| - 1], deps[|deps| - 1];
    if exists f :: f in init && (f.0 == x || f.1 == x) {
      UnknownEndpointIsBlank(tasks, init, x);
    } else {
      assert x !in AttrsAfterEdges(AttrsAfterTasks(tasks), init) by {
        KeysAfterEdges(AttrsAfterTasks(tasks), init);
      }
      assert e.0 == x || e.1 == x by {
        var f :| f in deps && (f.0 == x || f.1 == x);
        assert f in init || f == e;
      }
    }
  }

  /** The attribute keys after the edges are the keys before plus every endpoint. */
  lemma {:induction false} KeysAfterEdges(m: map<string, Attrs>, deps: seq<Edge>)
    ensures forall x :: x in AttrsAfterEdges(m, deps) <==>
      x in m || exists e :: e in deps && (e.0 == x || e.1 == x)
  {
    if deps != [] {
      var init, e := deps[..|deps| - 1], deps[|deps| - 1];
      KeysAfterEdges(m, init);
      forall x ensures x in AttrsAfterEdges(m, deps) <==> x in m || exists f :: f in deps && (f.0 == x || f.1 == x) {
        if exists f :: f in deps && (f.0 == x || f.1 == x) {
          var f :| f in deps && (f.0 == x || f.1 == x);
          assert f in init || f == e;
        }
        if exists f :: f in init && (f.0 == x || f.1 == x) {
          var f :| f in init && (f.0 == x || f.1 == x);
          assert f in deps;
        }
      }
    }
  }

  /** Tasks with unique ids and dependencies between them give a graph whose
      nodes are the ids of the tasks in order, each carrying its task's duration
      and resource and an empty schedule. */
  lemma BuiltFromClosedInput(tasks: seq<Task>, deps: seq<Edge>)
    requires Distinct(Ids(tasks))
    requires forall e :: e in deps ==> e.0 in Ids(tasks) && e.1 in Ids(tasks)
    ensures BuiltNodes(tasks, deps) == Ids(tasks)
    ensures forall t :: t in tasks ==>
      t.id in BuiltAttrs(tasks, deps) && BuiltAttrs(tasks, deps)[t.id] == Blank.(duration := t.duration, resource := t.resource)
  {
    NodesAfterDistinctTasks(tasks);
    NodesAfterKnownEdges(NodesAfterTasks(tasks), deps);
    AttrsAfterTasksKeys(tasks);
    AttrsAfterDistinctTasks(tasks);
    forall e | e in deps ensures e.0 in AttrsAfterTasks(tasks) && e.1 in AttrsAfterTasks(tasks) {
      var p :| 0 <= p < |tasks| && Ids(tasks)[p] == e.0;
      var q :| 0 <= q < |tasks| && Ids(tasks)[q] == e.1;
    }
    AttrsAfterKnownEdges(AttrsAfterTasks(tasks), deps);
    forall t | t in tasks ensures t.id in AttrsAfterTasks(tasks)
      && AttrsAfterTasks(tasks)[t.id] == Blank.(duration := t.duration, resource := t.resource)
    {
      var j :| 0 <= j < |tasks| && tasks[j] == t;
    }
  }

  /** The graph built from generated tasks and dependencies has one node per
      task, in emission order, each carrying its task's duration and resource;
      it is acyclic, so `build_dependency_graph` reports `cycle_valid = True`. */
  lemma GeneratedGraph(walls: seq<Wall>, productivity: real, curingDays: int)
    requires productivity != 0.0 || walls == []
    ensures BuiltNodes(PlanTasks(walls, productivity, curingDays), PlanEdges(walls, |walls|)) == PlanIds(walls)
    ensures IsDag(PlanIds(walls), EdgeSet(PlanEdges(walls, |walls|)))
    ensures forall t :: t in PlanTasks(walls, productivity, curingDays) ==>
      t.id in BuiltAttrs(PlanTasks(walls, productivity, curingDays), PlanEdges(walls, |walls|))
      && BuiltAttrs(PlanTasks(walls, productivity, curingDays), PlanEdges(walls, |walls|))[t.id]
         == Blank.(duration := t.duration, resource := t.resource)
  {
    var tasks, deps := PlanTasks(walls, productivity, curingDays), PlanEdges(walls, |walls|);
    if walls == [] {
      assert tasks == [] && deps == [] && PlanIds(walls) == [];
      assert IsTopoOrder([], [], EdgeSet(deps));
      return;
    }
    PlanTasksIds(walls, productivity, curingDays);
    PlanIdsDistinct(walls);
    PlanIsTopoOrder(walls);
    BuiltFromClosedInput(tasks, deps);
  }
}
