# Goggins scheduling core in Dafny

This project models the scheduling core of Goggins, a construction-planning tool.
Its pipeline has five stages:

1. It reads the walls of a building twin and emits one task per construction step: build, cure, each door, each window, a structural milestone and finishing. It also emits the precedence dependencies between those tasks.
2. It builds a directed dependency graph and checks that it is acyclic.
3. It runs a Critical Path Method pass: earliest and latest start and finish, and slack. A crew-leveling step delays tasks on overloaded days, and the pass is then run again.
4. It scans the schedule for days on which the crews needed exceed the crews available.
5. It scores the schedule's risk and buildability.

Next to the pipeline sit a few small pieces: duration/crew strategies, a one-day-shift resource constraint, a traffic-light classifier, and the vision-side class filter and label bucketer.

The graph is the class `Digraph.TaskGraph`. It has three fields:
- nodes: the node ids in insertion order;
- edges: the edge set;
- attrs: one attribute record per node, holding duration, resource, ES, EF, LS, LF and slack.

The scheduling passes update `attrs` in place, as the Python code updates `G.nodes[n]`.

The three graph-library calls are not modelled by their implementations. Each answer is passed in as a parameter, constrained by a precondition that states its contract:
- acyclicity and topological sort: `topo`, constrained by `TopoAnswer`;
- the longest path: `longest`, constrained by `IsLongestPath`, a path of maximal edge count.

Reals model the productivity factor and the strategy multipliers exactly.

Each source file has its own module:
- `dependency_graph.dfy` — task generation and graph building;
- `cpm_engine.dfy` — the forward and backward passes, timeline, leveling, delay and `run_cpm`;
- `conflict_engine.dfy` — crew-overload records;
- `resource_engine.dfy` — the one-day-shift constraint;
- `risk_engine.dfy`, `buildability_engine.dfy` — the two scores;
- `strategy_engine.dfy` — the strategies;
- `whatif_engine.dfy` — the simulation pipeline;
- `heat_visualizer.dfy`, `object_filter.dfy`, `vision_engine.dfy` — the classifiers.

Shared definitions live in four more modules:
- digraph.dfy: the graph class, topological orders and paths;
- seqs.dfy: filters and subsequences;
- strings.dfy: decimal formatting, Python string order, and lower/strip/replace;
- wrappers.dfy: `Option` and `Result`.

The model follows the code as written. Four of its consequences are proved explicitly:
- The schedule `run_cpm` returns does not depend on the crew capacity, because the final pass recomputes every record from durations and edges alone. See `CpmEngine.CpmSolutionUnique` together with `CpmEngine.RunCpm`.
- The delay reaches direct successors only.
- A day can be reported as overloaded several times, even by a task that needs no crew.
- The risk score has no upper bound.

The structural milestone waits only for the string-greatest door id. With eleven doors that is door 9, not door 10 (`DependencyGraph.MaxDoorIsNotLastDoor`).

## Model

| member | source | states |
|---|---|---|
| Digraph.TaskGraph.AddNode | core/graph/dependency_graph.py:131-132 | `add_node`: the id is appended once (a repeated id keeps its place), a new node gets a blank record, and duration and resource are overwritten; the edges are unchanged. |
| Digraph.TaskGraph.AddEdge | core/graph/dependency_graph.py:134-135 | `add_edge`: the edge joins the edge set, and an endpoint not yet in the graph is appended as a node with a blank (attribute-less) record. |
| Digraph.DagHasNoCycle | core/scheduling/cpm_engine.py:12-13 | A graph that has a topological order contains no closed path, so the acyclicity answer and "has no cycle" agree. |
| Digraph.DagHasNoSelfLoop | core/scheduling/cpm_engine.py:132-138 | An acyclic graph has no edge from a node to itself. |
| Digraph.LongestPathBound | core/scheduling/cpm_engine.py:26 | The critical path of a non-empty acyclic graph holds between 1 and `len(G.nodes)` tasks, so it has fewer edges than there are tasks. |
| Digraph.EdgeCount | core/buildability/buildability_engine.py:15 | The edge count of a path is less than its node count, or the path is empty. |
| Strings.NatToString | core/graph/dependency_graph.py:22-23 | The decimal digits of an index: at least one digit, and a single digit exactly below 10. |
| Strings.NatToStringInjective | core/graph/dependency_graph.py:22-23 | Different indices format to different strings. |
| Strings.MaxString | core/graph/dependency_graph.py:104-108 | Python `max` over strings: the result is one of them and not below any of them in character order. |
| Strings.LexCommonPrefix | core/graph/dependency_graph.py:104-105 | Strings with a common prefix compare like their remainders. |
| Strings.Lower | core/vision/vision_engine.py:40 | `lower()`: same length, every ASCII capital lower-cased, every other character kept. |
| Strings.Strip | core/vision/vision_engine.py:40 | `strip()`: the result is a slice of the input that removes only white space at both ends, and it neither starts nor ends with white space. |
| Strings.ReplaceSpaces | core/vision/vision_engine.py:40 | `replace(" ", "_")`: same length, each space becomes an underscore, and every other character is kept. |
| DependencyGraph.GenerateTasksFromTwin | core/graph/dependency_graph.py:7-124 | Fails with "float division by zero" exactly when there is a wall and the productivity factor is 0. Otherwise it returns the plan's task records and dependencies in emission order; a twin without walls yields two empty lists. |
| DependencyGraph.BuildDuration | core/graph/dependency_graph.py:25-30 | A build lasts at least 2 days. Its duration covers volume / 6 / productivity, and is the least such whole number whenever that exceeds 2. |
| DependencyGraph.Ceil | core/graph/dependency_graph.py:29 | `math.ceil`: the least integer not below its argument. |
| DependencyGraph.DoorInstalls | core/graph/dependency_graph.py:51-67 | The door loop: ids `door_install_i_d` for each `d` below the door count (none for a negative count), one edge from the cure task to each, and door `d` lasts `1 + d % 3` with crew 1. |
| DependencyGraph.WindowInstalls | core/graph/dependency_graph.py:72-87 | The window loop: ids `window_install_i_w`, an edge from the cure task to each, and window `w` lasts `2 + w % 2` with crew 1. |
| DependencyGraph.WallPlan | core/graph/dependency_graph.py:19-122 | The tasks one wall appends are the records of that wall's keys, in order, and its dependencies are exactly the wall's edge list. |
| DependencyGraph.WallKeysAt | core/graph/dependency_graph.py:19-122 | A wall yields `4 + doors + windows` tasks: build, cure, each door, each window, the milestone, then finishing. Zero openings still give the milestone and finishing tasks. |
| DependencyGraph.WallKeysLayout | core/graph/dependency_graph.py:19-122 | Every task a wall yields belongs to that wall, sits at its own position, and no key repeats. |
| DependencyGraph.PlanTaskCount | core/graph/dependency_graph.py:17-124 | The generated list holds exactly `4 + doors + windows` tasks per wall, summed over the walls. |
| DependencyGraph.PlanTaskTable | core/graph/dependency_graph.py:32-120 | Per kind: build ≥ 2 days with crew 2; cure lasts `curing_days` with crew 0; a door lasts 1–3 with crew 1; a window lasts 2–3 with crew 1; the milestone lasts 0 with crew 0; finishing lasts 6 with crew 2. |
| DependencyGraph.IdOfInjective | core/graph/dependency_graph.py:22-113 | Two tasks with different kinds, wall indices or opening indices get different ids. |
| DependencyGraph.PlanIdsDistinct | core/graph/dependency_graph.py:22-113 | All generated task ids are distinct. |
| DependencyGraph.PlanTasksIds | core/graph/dependency_graph.py:17-124 | The ids of the generated tasks are the plan ids in emission order. |
| DependencyGraph.PlanEdgeForward | core/graph/dependency_graph.py:46-122 | Every generated dependency runs from an earlier-emitted task to a later-emitted task. |
| DependencyGraph.PlanIsTopoOrder | core/graph/dependency_graph.py:17-124 | Emission order is a topological order of the generated graph, and every dependency names generated tasks. |
| DependencyGraph.DoorIdAtMostNine | core/graph/dependency_graph.py:104-105 | Among a wall's first eleven door ids, none exceeds door 9 in string order. |
| DependencyGraph.MaxDoorIsNotLastDoor | core/graph/dependency_graph.py:104-105 | With eleven doors, the milestone depends on `door_install_i_9`, not on door 10. |
| DependencyGraph.AddTaskNodes | core/graph/dependency_graph.py:131-132 | The first loop leaves an edgeless graph whose nodes and records are those the tasks yield one `add_node` at a time. |
| DependencyGraph.AddDependencyEdges | core/graph/dependency_graph.py:134-135 | The second loop leaves exactly the dependencies as edges, with each unseen endpoint appended with a blank record. |
| DependencyGraph.BuildDependencyGraph | core/graph/dependency_graph.py:127-139 | The result is a fresh graph whose nodes are the ids in first-seen order, tasks first, then edge endpoints. Its edges are the dependencies. Each id carries the last duration and resource given for it, and unknown endpoints carry blank records. `cycle_valid` holds exactly when the graph is acyclic. |
| DependencyGraph.UnknownEndpointIsBlank | core/graph/dependency_graph.py:134-135 | An edge naming an id that no task has adds that id as a node with a blank record. |
| DependencyGraph.KeysAfterEdges | core/graph/dependency_graph.py:134-135 | After the edges, the nodes with records are those before plus every endpoint. |
| DependencyGraph.BuiltFromClosedInput | core/graph/dependency_graph.py:127-139 | With unique ids and dependencies between known tasks, the nodes are the ids of the tasks, in order, each with its task's duration and resource. |
| DependencyGraph.GeneratedGraph | core/graph/dependency_graph.py:7-139 | The graph of a generated plan has one node per task, in emission order, each with its task's duration and resource. It is acyclic, so `cycle_valid` is True. |
| CpmEngine.MaxEf | core/scheduling/cpm_engine.py:23 | `total_duration`: no node's EF exceeds it, and some node's EF equals it. |
| CpmEngine.ForwardStart | core/scheduling/cpm_engine.py:42-47 | ES is the largest EF among the predecessors, or 0 when there are none. |
| CpmEngine.ForwardPass | core/scheduling/cpm_engine.py:40-52 | Visiting the topological order, every node ends with ES = max predecessor EF (0 for sources) and EF = ES + duration. Durations and resources are untouched. |
| CpmEngine.BackwardFinish | core/scheduling/cpm_engine.py:59-64 | LF is the smallest LS among the successors, or the total duration when there are none. |
| CpmEngine.BackwardStep | core/scheduling/cpm_engine.py:57-70 | Processing one node of the reversed order keeps the backward equations of the nodes after it and establishes its own; ES and EF are untouched. |
| CpmEngine.BackwardPass | core/scheduling/cpm_engine.py:54-70 | Every node ends with LF = min successor LS (the total for sinks), LS = LF − duration and slack = LS − ES. ES and EF are untouched. |
| CpmEngine.ComputeCpm | core/scheduling/cpm_engine.py:35-72 | `compute_cpm`: every record solves the forward and backward equations against the total duration. Durations, resources, nodes and edges are unchanged. |
| CpmEngine.FinishWithinLatest | core/scheduling/cpm_engine.py:54-70 | In a solved schedule, every node's EF is at most its LF. |
| CpmEngine.SlackNonNegative | core/scheduling/cpm_engine.py:54-70 | In a solved schedule of an acyclic graph, whatever the durations, every slack is ≥ 0, ES ≤ LS, and EF ≤ total duration. |
| CpmEngine.CpmSolutionUnique | core/scheduling/cpm_engine.py:16-21 | Two solved schedules over the same durations are identical record for record. The records `run_cpm` returns therefore do not depend on whether or how it leveled: leveling is undone. |
| CpmEngine.ActiveAtMembers | core/scheduling/cpm_engine.py:111-116 | The tasks listed for day `t` are exactly those with ES ≤ t < EF, in node order. |
| CpmEngine.AddDays | core/scheduling/cpm_engine.py:115-116 | One node's `setdefault(t, []).append(node)` loop: the node is appended to every day of `[ES, EF)` and to no other day. |
| CpmEngine.BuildTimeline | core/scheduling/cpm_engine.py:107-118 | `build_timeline`: day `t` maps to the nodes active on `t`, in node order. A node is listed on `t` exactly when ES ≤ t < EF, and no day maps to an empty list. |
| CpmEngine.TimelineDays | core/scheduling/cpm_engine.py:81-83 | Timeline days lie between the least ES and the total duration. Some day exists exactly when some task has EF > ES. |
| CpmEngine.DaysBetween | core/scheduling/cpm_engine.py:83 | `sorted(timeline.keys())`: strictly ascending, and exactly the timeline days in range. |
| CpmEngine.TimelineDaysOf | core/scheduling/cpm_engine.py:81-85 | The leveling loop's days are the leveling days: ascending, each a key mapping to its non-empty list of active tasks, every key among them, and none exactly when no task has positive length. |
| CpmEngine.ActiveDays | core/scheduling/cpm_engine.py:83 | A day in a range is listed exactly when some task is at work on it. |
| CpmEngine.DaysBetweenActive | core/scheduling/cpm_engine.py:83 | For a timeline whose keys are the days with work, its sorted keys in a range are the active days of that range. |
| CpmEngine.NoOverloadDays | core/scheduling/cpm_engine.py:87 | When no day has more than `crew_capacity` active tasks, no timeline day lists more than that, so the overload test never fires. |
| CpmEngine.SortByEs | core/scheduling/cpm_engine.py:90-93 | The sorted active list is a permutation of the active list. |
| CpmEngine.SortByEsSorted | core/scheduling/cpm_engine.py:90-93 | The sorted active list is in ascending ES order. |
| CpmEngine.FloorDiv | core/scheduling/cpm_engine.py:97 | Python `//` for either sign of the divisor: the quotient rounded down, and not negative for a non-negative dividend over a positive divisor. |
| CpmEngine.DelayTaskNonRecursive | core/scheduling/cpm_engine.py:125-138 | `delay_task_non_recursive`: the node moves by `shift`. Each direct successor starting before its new EF is moved to start exactly there, keeping its length. Every other record is untouched. |
| CpmEngine.DelayMovesLater | core/scheduling/cpm_engine.py:125-138 | A positive delay only moves tasks later, and every task keeps its EF − ES and its other fields. |
| CpmEngine.DelayOneLevel | core/scheduling/cpm_engine.py:132-138 | After the delay, every direct successor starts no earlier than the node's new EF. Nodes that are neither the node nor a direct successor, grand-successors included, keep their records. |
| CpmEngine.LevelStepMoves | core/scheduling/cpm_engine.py:97-102 | One iteration of an overloaded day: afterwards the task starts no earlier than its slot `day + i // crew_capacity`; every task has only moved later, keeping its length and other fields; and a task that is neither the one visited nor a direct successor of it keeps its record. |
| CpmEngine.LevelStepsLater | core/scheduling/cpm_engine.py:95-102 | However many of the day's sorted tasks have been visited, tasks have only moved later, each keeping its length and other fields. |
| CpmEngine.LevelStepsSlots | core/scheduling/cpm_engine.py:95-102 | After the first `k` sorted tasks of a day are visited, the task at position `i` starts no earlier than `day + i // crew_capacity`: a later delay on the same day never moves it back. |
| CpmEngine.LevelStepsPastDay | core/scheduling/cpm_engine.py:95-102 | With a positive capacity, every task of an overloaded day ends the day starting on that day or later. |
| CpmEngine.LevelStepsFrame | core/scheduling/cpm_engine.py:95-102 | A task that is not among the day's tasks and is no direct successor of one keeps its record through the day. |
| CpmEngine.LevelTask | core/scheduling/cpm_engine.py:97-102 | One iteration on the graph: `task` is delayed by the gap to `day + i // crew_capacity` exactly when its ES is before that slot, and the records become those of that step. Nodes and edges are unchanged. |
| CpmEngine.LevelSorted | core/scheduling/cpm_engine.py:95-102 | The `enumerate` loop over the sorted tasks: the records end as the tasks visited in order, task `i` with the slot `day + i // crew_capacity`. Nodes and edges are unchanged. |
| CpmEngine.LevelDay | core/scheduling/cpm_engine.py:87-102 | One overloaded day: the records become those of sorting the day's tasks by their ES at the start of the day (a permutation, ascending) and visiting them in that order with slots `day + i // crew_capacity`. Nodes and edges are unchanged. |
| CpmEngine.LevelDayOfFacts | core/scheduling/cpm_engine.py:87-102 | Leveling a day moves tasks only later, each keeping its length and other fields. With a positive capacity every task of the day then starts on that day or later. |
| CpmEngine.TimelineLevelingDays | core/scheduling/cpm_engine.py:81-83 | The sorted keys of a timeline built from the records are the days on which some task is at work, ascending. |
| CpmEngine.ActiveDayListed | core/scheduling/cpm_engine.py:81-83 | A day on which some task is at work is one of the days the loop visits. |
| CpmEngine.LevelingDaysListed | core/scheduling/cpm_engine.py:81-85 | The visited days ascend; each is a timeline key mapping to the tasks at work that day, all graph nodes; every key is visited; and there are none exactly when no task has ES < EF. |
| CpmEngine.BuiltTimeline | core/scheduling/cpm_engine.py:107-118 | The timeline built at the start of `apply_resource_leveling` is the one computed from the records before any move: later moves never change which tasks a day lists. |
| CpmEngine.LevelFoldLater | core/scheduling/cpm_engine.py:83-102 | Visiting the days in order moves tasks only later, each keeping its length and other fields. |
| CpmEngine.LevelFoldPastOverloaded | core/scheduling/cpm_engine.py:83-102 | With a positive capacity, after all the days are visited every task listed on an overloaded day starts on that day or later, whatever later days did to it. |
| CpmEngine.LevelFoldCalm | core/scheduling/cpm_engine.py:83-88 | When no visited day lists more than `crew_capacity` tasks, nothing moves. |
| CpmEngine.LevelTimeline | core/scheduling/cpm_engine.py:83-102 | The `for time in sorted(timeline.keys())` loop: only days listing more than `crew_capacity` tasks are leveled, each over the tasks the original timeline lists, and the records end as those days visited in order. Nodes and edges are unchanged. |
| CpmEngine.Leveled | core/scheduling/cpm_engine.py:79-104 | The records leveling leaves with a non-zero capacity: tasks only move later and keep their lengths and other fields, and nothing moves when no day is overloaded. |
| CpmEngine.LeveledPastOverloadedDay | core/scheduling/cpm_engine.py:87-102 | With a positive capacity, every task at work on a day with more than `crew_capacity` tasks ends up starting on that day or later. |
| CpmEngine.ApplyResourceLeveling | core/scheduling/cpm_engine.py:79-104 | Fails with "integer division or modulo by zero" exactly when the capacity is 0 and some task has positive length, and nothing has moved then. On success with a non-zero capacity the records are the leveled ones (`Leveled`): moved only later, lengths kept, unchanged when no day is overloaded. |
| CpmEngine.RunCpm | core/scheduling/cpm_engine.py:6-28 | An empty graph gives `([], 0)` untouched, and a cyclic graph fails before any record is written. Otherwise every record is solved over the original durations. It fails with the division error exactly for capacity 0 with a task of positive duration, and else returns the longest path and the max EF. |
| ConflictEngine.ScanNode | core/conflict/conflict_engine.py:10-18 | The inner loop: the running per-day demand gains this node's resource on its days, and the records emitted are exactly this node's overload records. |
| ConflictEngine.DetectConflicts | core/conflict/conflict_engine.py:1-20 | `detect_conflicts` reads the graph without changing it. It returns every node's records in node order, each node's days ascending. |
| ConflictEngine.OverloadRecordsMembers | core/conflict/conflict_engine.py:10-18 | A node emits a record for day `t` exactly when ES ≤ t < EF and the running demand, with this node added, exceeds the capacity. Every issue reads "Crew overload". |
| ConflictEngine.NoRecordsWhenCalm | core/conflict/conflict_engine.py:14-18 | A node whose days all stay within capacity emits nothing. |
| ConflictEngine.ConflictsWithinSomeTask | core/conflict/conflict_engine.py:10-18 | Every record's day lies in `[ES, EF)` of some node, and its issue is "Crew overload". |
| ConflictEngine.ConflictsEmptyIff | core/conflict/conflict_engine.py:10-18 | With non-negative resources, there are no records exactly when no working day's total demand exceeds the capacity. |
| ConflictEngine.RepeatedDayExample | core/conflict/conflict_engine.py:10-18 | One day is reported twice, the second time by a task that needs no crew. |
| ResourceEngine.Moved | core/scheduling/resource_engine.py:15-16 | A shifted record keeps its length and every other field, and its ES grows by the shift. |
| ResourceEngine.ShiftNode | core/scheduling/resource_engine.py:5-16 | One node is pushed by the number of overloaded days of its original range; the running demand counts that original range. |
| ResourceEngine.ApplyResourceConstraint | core/scheduling/resource_engine.py:1-18 | The graph is changed in place and returned. Node `k` is pushed by its overloaded-day count on the unshifted demand. No node moves earlier, changes length or changes resource. |
| ResourceEngine.RecordsAtMostRange | core/scheduling/resource_engine.py:9-16 | At most one push per day of the range. |
| ResourceEngine.ShiftAtMostDuration | core/scheduling/resource_engine.py:9-16 | No node is pushed by more days than it lasts. |
| ResourceEngine.RecordsAntitone | core/scheduling/resource_engine.py:13 | A larger capacity records no more overloaded days. |
| ResourceEngine.ShiftAntitone | core/scheduling/resource_engine.py:13-16 | A larger capacity never pushes a node further. |
| ResourceEngine.TotalShiftIsConflictCount | core/scheduling/resource_engine.py:1-18 | The total push equals the number of records `detect_conflicts` reports on the unshifted graph at the same capacity. |
| ResourceEngine.LoadPrefixBound | core/scheduling/resource_engine.py:9-12 | With non-negative resources, the running demand never exceeds the final demand. |
| ResourceEngine.NoOverloadNoShift | core/scheduling/resource_engine.py:13-16 | If no working day is overloaded, no node moves. |
| RiskEngine.RiskLevel | core/risk/risk_engine.py:8-13 | "Low" below 15, "Moderate" from 15 below 40, "High" from 40, with each label exactly on its range. |
| RiskEngine.CalculateRisk | core/risk/risk_engine.py:1-18 | The score is 2 · total_duration + 10 · conflicts, and its level is the score's label. |
| RiskEngine.RiskMonotone | core/risk/risk_engine.py:3-13 | A longer schedule or more conflicts never lower the score or the label. |
| RiskEngine.RiskNonNegative | core/risk/risk_engine.py:3-6 | Non-negative inputs give a non-negative score. |
| RiskEngine.RiskUnclamped | core/risk/risk_engine.py:6 | The score has no upper bound: every bound is exceeded by some duration. |
| BuildabilityEngine.SlackSumNonNegative | core/buildability/buildability_engine.py:10 | With non-negative slacks, the total slack is non-negative. |
| BuildabilityEngine.AverageSlack | core/buildability/buildability_engine.py:10-11 | The average times the number of tasks equals the total slack; it is 0 without tasks. |
| BuildabilityEngine.SlackBonus | core/buildability/buildability_engine.py:27 | `min(10, 4 · avg)`: at most both, and equal to one of them. |
| BuildabilityEngine.Truncate | core/buildability/buildability_engine.py:29 | `int()`: rounds toward zero. |
| BuildabilityEngine.Clamp | core/buildability/buildability_engine.py:29 | Always in [0, 100]; the identity inside it, 0 below and 100 above. |
| BuildabilityEngine.BuildabilityLevel | core/buildability/buildability_engine.py:31-36 | "High Buildability" from 80, "Moderate Buildability" from 60 below 80, else "Low Buildability", each exactly on its range. |
| BuildabilityEngine.CalculateBuildability | core/buildability/buildability_engine.py:4-41 | Given the longest-path call's answer on the graph itself (a longest path when the graph is acyclic, `None` when the call raises on a cycle), the score is in [0, 100]: the clamped truncation of 100 − 20·conflicts − 3·depth − 3·max(0, duration − tasks) + the slack bonus, where depth is that path's edge count and 0 on a cycle. The level is the score's label. |
| BuildabilityEngine.TruncateMonotone | core/buildability/buildability_engine.py:29 | Truncation preserves order. |
| BuildabilityEngine.ClampMonotone | core/buildability/buildability_engine.py:29 | Clamping preserves order. |
| BuildabilityEngine.BuildabilityAntitone | core/buildability/buildability_engine.py:22-29 | More conflicts or a deeper graph never raise the score. |
| BuildabilityEngine.SlackBonusRange | core/buildability/buildability_engine.py:27 | With non-negative slacks, the bonus lies in [0, 10]. |
| BuildabilityEngine.DepthBelowTaskCount | core/buildability/buildability_engine.py:14-17 | On a non-empty acyclic graph, the depth is below the number of tasks. |
| BuildabilityEngine.FullScore | core/buildability/buildability_engine.py:19-36 | No conflict, no depth, no stretch and an average slack ≥ 2.5 score exactly 100, "High Buildability". |
| StrategyEngine.Adjusted | core/scheduling/strategy_engine.py:8-16 | "fast": duration `max(1, ceil(0.8·d))`, crew + 1. "cost": duration `ceil(1.2·d)`, crew `max(1, r − 1)`. Any other strategy returns an unchanged copy. The id and kind are always kept. |
| StrategyEngine.ApplyStrategy | core/scheduling/strategy_engine.py:4-20 | One adjusted copy per task, same length and order; the input sequence is a value and is not changed. |
| StrategyEngine.FastNeverSlower | core/scheduling/strategy_engine.py:10-12 | "fast" never lengthens a task of at least one day, and never goes below one day. |
| StrategyEngine.CostNeverFaster | core/scheduling/strategy_engine.py:14-16 | "cost" never shortens a task of non-negative duration. |
| StrategyEngine.OtherStrategyCopies | core/scheduling/strategy_engine.py:4-18 | Under any strategy other than "fast" and "cost", the default "balanced" included, the output equals the input. |
| HeatVisualizer.ClassifyHeat | core/utils/heat_visualizer.py:3-24 | Inverse mode: ≥ 0.7 is red CRITICAL, ≥ 0.4 yellow MODERATE, else green LOW. Normal mode: ≥ 85 is green LOW RISK, ≥ 70 yellow MODERATE, ≥ 50 orange HIGH, else red CRITICAL. Each triple holds exactly on its range. |
| HeatVisualizer.ClassifyHeatTotal | core/utils/heat_visualizer.py:9-24 | Every score maps to one of its mode's triples. |
| HeatVisualizer.SeverityMonotone | core/utils/heat_visualizer.py:9-24 | In normal mode a higher score is never more severe; in inverse mode it is never less severe. |
| ObjectFilter.ClassLabel | core/vision/object_filter.py:1-11 | `CLASS_MAP.get`: a label exactly for ids 0 to 8. |
| ObjectFilter.KeptClasses | core/vision/object_filter.py:1-21 | A class is kept exactly for ids 0, 3, 5 and 7; id 5, the sliding door, is labelled "door". |
| ObjectFilter.FilterStructuralObjects | core/vision/object_filter.py:14-25 | The result is the kept detections in input order. Each kept detection's label is set in place to its class name; dropped detections keep their label. |
| ObjectFilter.FilteredIsSubsequence | core/vision/object_filter.py:16-25 | The output is an order-preserving subsequence of the input. |
| VisionEngine.Mapping | core/vision/vision_engine.py:42-63 | Only a category or None comes back, and every category name maps to itself. |
| VisionEngine.NormalizeLabel | core/vision/vision_engine.py:38-63 | The result is one of the six categories or None. |
| VisionEngine.PlainStringFixed | core/vision/vision_engine.py:40 | A string without capitals or white space is left as it is by the lower/strip/replace steps. |
| VisionEngine.CategoryIsPlain | core/vision/vision_engine.py:43-60 | The category names contain no capitals and no white space. |
| VisionEngine.NormalizeIdempotent | core/vision/vision_engine.py:40-63 | Normalising a normaliser output gives the same output. |
| VisionEngine.NormalizeSlidingDoor | core/vision/vision_engine.py:40-63 | "Sliding Door" normalises to "doors". |
| VisionEngine.NormalizeStair | core/vision/vision_engine.py:40-63 | "stair" normalises to None. |
| VisionEngine.BucketSnoc | core/vision/vision_engine.py:79-87 | One more detection is appended to exactly the buckets it qualifies for. |
| VisionEngine.Place | core/vision/vision_engine.py:81-87 | One loop iteration: an unconfident object is skipped, and a recognised one is appended to its category's bucket. The keys stay the same. |
| VisionEngine.StructureObjects | core/vision/vision_engine.py:68-89 | The keys are exactly the six categories. Each bucket holds, in input order, the detections with confidence ≥ `min_conf` whose label normalises to that category. |
| VisionEngine.BucketMembership | core/vision/vision_engine.py:79-87 | A detection is in bucket `c` exactly when it is not below `min_conf` and its label normalises to `c`. |
| VisionEngine.BucketsPartition | core/vision/vision_engine.py:79-89 | The six buckets together hold exactly as many entries as there are confident detections with recognised labels. |
| WhatifEngine.SomeTaskWorks | core/graph/dependency_graph.py:27-44 | With at least one wall, some generated task, the first build, lasts at least two days. |
| WhatifEngine.PlanHasWork | core/simulation/whatif_engine.py:18-35 | That task is a node of the built graph with duration ≥ 2, so a zero crew capacity makes leveling divide by zero. |
| WhatifEngine.Score | core/simulation/whatif_engine.py:40-53 | The success dict: the conflicts at the given capacity on the scheduled graph, and the risk of the total duration and the conflict count. |
| WhatifEngine.ScheduleAndScore | core/simulation/whatif_engine.py:32-53 | Scheduling fails exactly for capacity 0 with a task of positive duration. Otherwise the graph is solved, the duration is its max EF, the path is the longest path, and the conflicts and risk are those of that graph. |
| WhatifEngine.RunSimulation | core/simulation/whatif_engine.py:7-56 | Errors: the division error without productivity, "Cycle detected in simulation" for a cyclic graph, and the division error for capacity 0 with a wall. Otherwise the result is a fresh graph of the generated plan, solved, with its duration, path, conflicts and risk. |

## Left out

- Floating point: volumes, the productivity factor, the 0.8/1.2 multipliers, slack averages and heat scores are exact reals, and binary rounding before `ceil` or `int` is not modelled.
- DependencyGraph.BuildDuration: a quotient that is a whole number in exact arithmetic but lands just above it in floating point would ceil one higher in the source. The model does not capture that rounding.
- StrategyEngine.Adjusted: the same holds for `ceil(d * 0.8)` and `ceil(d * 1.2)`.
- The graph library: acyclicity, topological sort and longest path are answers passed in under their contracts. Which topological order or which longest path the library picks is left open.
- BuildabilityEngine.CalculateBuildability: `dag_longest_path_length` raising is modelled only as a `None` answer (depth 0), whatever the cause.
- CpmEngine.RunCpm: `G is None` is not modelled; the graph is always an object.
- CpmEngine.ComputeCpm: it requires a non-empty graph and a topological order. The source would raise on an empty graph (`max` of nothing) or on a cycle, but `run_cpm`, its only caller, has ruled both out.
- CpmEngine.ApplyResourceLeveling: it requires no self-loop, which the source does not demand. `run_cpm` calls it only on an acyclic graph, where this holds (`Digraph.DagHasNoSelfLoop`).
- CpmEngine.DelayTaskNonRecursive: it also requires that the node has no self-loop. Under that condition, the order in which `G.successors` lists successors does not matter, so the model visits them in node order.
- CpmEngine.SortByEsSorted: sortedness and permutation are proved. Stability, which Python's `sorted` guarantees, is not: `SortByEs` is written as a stable insertion sort, but that is not stated as a contract.
- Missing attributes: the model reads 0 for a record field that was never written. The source raises `KeyError` when a scan reads `ES`/`EF`/`resource`/`slack` of a node added only through an edge. That case arises only for dependencies naming unknown ids, never for generated plans (`DependencyGraph.GeneratedGraph`).
- WhatifEngine.RunSimulation: exceptions other than the division errors, the cycle error and those above are not modelled, e.g. malformed twin entries of the wrong type. The cycle branch is modelled even though generated plans never reach it.
- VisionEngine.NormalizeLabel: `str(label)` of a non-string label is not modelled, since labels are strings. `lower()` covers ASCII letters only; `strip()` removes every character Python's `str.isspace()` accepts.
- VisionEngine.StructureObjects: a detection is reduced to its label and confidence. Other dict keys are carried along unread in the source and are absent here. A NaN confidence is not modelled.
- ObjectFilter.FilterStructuralObjects: class ids are integers. A dict without `class_id` (a `KeyError`) and non-integer ids are not modelled.
- StrategyEngine.ApplyStrategy: tasks are values, so the shallow `copy()` and any sharing of nested values are not modelled. Task dicts hold only scalars.
- Everything outside the scheduling core is not part of this model: perception and ingestion, geometry and costing, reports, the dashboard and the LLM explainer.
