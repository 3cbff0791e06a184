/** The buildability score of core/buildability/buildability_engine.py: 100
    minus penalties for conflicts, dependency depth and schedule stretch, plus a
    capped bonus for average slack, truncated to an integer, clamped to
    [0, 100] and labelled. */
module BuildabilityEngine {
  import opened Wrappers
  import opened Seqs
  import opened Digraph

  /** `{"buildability_score": ..., "buildability_level": ...}`. */
  datatype Buildability = Buildability(buildabilityScore: int, buildabilityLevel: string)

  const HighBuildability := "High Buildability"
  const ModerateBuildability := "Moderate Buildability"
  const LowBuildability := "Low Buildability"

  /** The sum of the slacks of the nodes of `ns`. */
  function SlackSum(ns: seq<string>, m: map<string, Attrs>): int
    requires forall n :: n in ns ==> n in m
  {
    if ns == [] then 0 else SlackSum(ns[..|ns| - 1], m) + m[ns[|ns| - 1]].slack
  }

  lemma {:induction false} SlackSumNonNegative(ns: seq<string>, m: map<string, Attrs>)
    requires forall n :: n in ns ==> n in m && m[n].slack >= 0
    ensures SlackSum(ns, m) >= 0
  {
    if ns != [] {
      SlackSumNonNegative(ns[..|ns| - 1], m);
    }
  }

  /** The mean slack per node, or 0 for a graph without nodes. */
  function AverageSlack(ns: seq<string>, m: map<string, Attrs>): (avg: real)
    requires forall n :: n in ns ==> n in m
    ensures |ns| == 0 ==> avg == 0.0
    ensures |ns| > 0 ==> avg * (|ns| as real) == SlackSum(ns, m) as real
  {
    var taskCount := |ns|;
    if taskCount > 0 then SlackSum(ns, m) as real / taskCount as real else 0.0
  }

  /** `min(10, avg_slack * 4)`. */
  function SlackBonus(avg: real): (b: real)
    ensures b <= 10.0 && b <= 4.0 * avg
    ensures b == 10.0 || b == 4.0 * avg
  {
    if 10.0 <= avg * 4.0 then 10.0 else avg * 4.0
  }

  /** `dag_longest_path_length`, or 0 when the call raises: the oracle's longest
      path, or `None` for a graph it rejects. */
  function Depth(longest: Option<seq<string>>): nat {
    match longest
    case Some(path) => EdgeCount(path)
    case None => 0
  }

  /** What the longest-path call answers on a graph. */
  ghost predicate DepthAnswer(longest: Option<seq<string>>, nodes: seq<string>, edges: set<Edge>) {
    match longest
    case Some(path) => IsDag(nodes, edges) && IsLongestPath(path, nodes, edges)
    case None => !IsDag(nodes, edges)
  }

  /** Python's `int()` on a number: truncation toward zero. */
  function Truncate(x: real): (i: int)
    ensures 0.0 <= x ==> i as real <= x < i as real + 1.0
    ensures x < 0.0 ==> i as real - 1.0 < x <= i as real
  {
    if 0.0 <= x then x.Floor else -((-x).Floor)
  }

  /** `max(0, min(100, i))`. */
  function Clamp(i: int): (c: int)
    ensures 0 <= c <= 100
    ensures 0 <= i <= 100 ==> c == i
    ensures i < 0 ==> c == 0
    ensures 100 < i ==> c == 100
  {
    if i < 0 then 0 else if i > 100 then 100 else i
  }

  /** The score before truncation and clamping. */
  function RawScore(totalDuration: int, taskCount: nat, conflictCount: nat, depth: nat, avgSlack: real): real {
    var score := 100 - conflictCount * 20 - depth * 3 - (if totalDuration - taskCount > 0 then totalDuration - taskCount else 0) * 3;
    score as real + SlackBonus(avgSlack)
  }

  /** The label of a score: 80 and above, 60 and above, or below. */
  function BuildabilityLevel(score: int): (level: string)
    ensures level == HighBuildability <==> 80 <= score
    ensures level == ModerateBuildability <==> 60 <= score < 80
    ensures level == LowBuildability <==> score < 60
  {
    if score >= 80 then HighBuildability
    else if score >= 60 then ModerateBuildability
    else LowBuildability
  }

  /** `calculate_buildability(G, total_duration, conflicts)` on the graph with
      `nodes` and `edges`, with the longest-path call's answer on that graph
      passed in. */
  function CalculateBuildability(nodes: seq<string>, edges: set<Edge>, attrs: map<string, Attrs>, totalDuration: int,
                                 conflictCount: nat, longest: Option<seq<string>>): (r: Buildability)
    requires forall n :: n in nodes ==> n in attrs
    requires DepthAnswer(longest, nodes, edges)
    ensures 0 <= r.buildabilityScore <= 100
    ensures r.buildabilityScore == Clamp(Truncate(RawScore(totalDuration, |nodes|, conflictCount, Depth(longest), AverageSlack(nodes, attrs))))
    ensures r.buildabilityLevel == BuildabilityLevel(r.buildabilityScore)
  {
    var score := Clamp(Truncate(RawScore(totalDuration, |nodes|, conflictCount, Depth(longest), AverageSlack(nodes, attrs))));
    Buildability(score, BuildabilityLevel(score))
  }

  // ---------------------------------------------------------------------------
  // Properties
  // ---------------------------------------------------------------------------

  lemma TruncateMonotone(x: real, y: real)
    requires x <= y
    ensures Truncate(x) <= Truncate(y)
  {
  }

  lemma ClampMonotone(i: int, j: int)
    requires i <= j
    ensures Clamp(i) <= Clamp(j)
  {
  }

  /** More conflicts or a deeper graph never raise the score. */
  lemma BuildabilityAntitone(nodes: seq<string>, edges1: set<Edge>, edges2: set<Edge>, attrs: map<string, Attrs>,
                             totalDuration: int, c1: nat, c2: nat,
                             longest1: Option<seq<string>>, longest2: Option<seq<string>>)
    requires forall n :: n in nodes ==> n in attrs
    requires DepthAnswer(longest1, nodes, edges1) && DepthAnswer(longest2, nodes, edges2)
    requires c1 <= c2 && Depth(longest1) <= Depth(longest2)
    ensures CalculateBuildability(nodes, edges2, attrs, totalDuration, c2, longest2).buildabilityScore
         <= CalculateBuildability(nodes, edges1, attrs, totalDuration, c1, longest1).buildabilityScore
  {
    var avg := AverageSlack(nodes, attrs);
    var r1 := RawScore(totalDuration, |nodes|, c1, Depth(longest1), avg);
    var r2 := RawScore(totalDuration, |nodes|, c2, Depth(longest2), avg);
    assert r2 <= r1;
    TruncateMonotone(r2, r1);
    ClampMonotone(Truncate(r2), Truncate(r1));
  }

  /** With non-negative slacks (as the critical-path pass guarantees) the slack
      bonus lies between 0 and 10. */
  lemma SlackBonusRange(nodes: seq<string>, attrs: map<string, Attrs>)
    requires forall n :: n in nodes ==> n in attrs && attrs[n].slack >= 0
    ensures 0.0 <= SlackBonus(AverageSlack(nodes, attrs)) <= 10.0
  {
    SlackSumNonNegative(nodes, attrs);
    var avg := AverageSlack(nodes, attrs);
    if |nodes| > 0 {
      assert avg * (|nodes| as real) >= 0.0;
    }
  }

  /** On a DAG the depth is fewer than the number of tasks, so its penalty is
      at most `3 * (task_count - 1)`. */
  lemma DepthBelowTaskCount(longest: Option<seq<string>>, nodes: seq<string>, edges: set<Edge>)
    requires DepthAnswer(longest, nodes, edges) && |nodes| > 0
    ensures Depth(longest) < |nodes|
  {
    if longest.Some? {
      var order :| IsTopoOrder(order, nodes, edges);
      LongestPathBound(order, nodes, edges, longest.value);
      DistinctLengthBound(order, nodes);
    }
  }

  /** A schedule with no conflict, no dependency, no stretch and an average
      slack of at least 2.5 days scores the full 100. */
  lemma FullScore(nodes: seq<string>, edges: set<Edge>, attrs: map<string, Attrs>, totalDuration: int,
                  longest: Option<seq<string>>)
    requires forall n :: n in nodes ==> n in attrs
    requires DepthAnswer(longest, nodes, edges)
    requires Depth(longest) == 0 && totalDuration <= |nodes| && AverageSlack(nodes, attrs) >= 2.5
    ensures CalculateBuildability(nodes, edges, attrs, totalDuration, 0, longest) == Buildability(100, HighBuildability)
  {
  }
}
