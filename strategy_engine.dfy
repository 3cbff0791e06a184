/** The scheduling strategies of core/scheduling/strategy_engine.py: "fast"
    shortens every task and adds a crew, "cost" lengthens every task and
    removes a crew (keeping at least one), anything else leaves the tasks as
    they are. The input list is copied, never changed. */
module StrategyEngine {
  import opened DependencyGraph

  const Fast := "fast"
  const Cost := "cost"
  /** `apply_strategy`'s default strategy. */
  const Balanced := "balanced"

  /** The copy of one task under a strategy. */
  function Adjusted(t: Task, strategy: string): (r: Task)
    ensures r.id == t.id && r.kind == t.kind
    ensures strategy == Fast ==> r.duration >= 1 && (r.duration == 1 || (r.duration - 1) as real < 0.8 * t.duration as real)
    ensures strategy == Fast ==> 0.8 * t.duration as real <= r.duration as real && r.resource == t.resource + 1
    ensures strategy == Cost ==> (r.duration - 1) as real < 1.2 * t.duration as real <= r.duration as real
    ensures strategy == Cost ==> r.resource >= 1 && (r.resource == 1 || r.resource == t.resource - 1)
    ensures strategy == Cost ==> r.resource >= t.resource - 1
    ensures strategy != Fast && strategy != Cost ==> r == t
  {
    if strategy == Fast then
      var c := Ceil(t.duration as real * 0.8);
      t.(duration := if c > 1 then c else 1, resource := t.resource + 1)
    else if strategy == Cost then
      t.(duration := Ceil(t.duration as real * 1.2), resource := if t.resource - 1 > 1 then t.resource - 1 else 1)
    else t
  }

  /** `apply_strategy(tasks, strategy)`: one adjusted copy per task, in order. */
  method ApplyStrategy(tasks: seq<Task>, strategy: string) returns (modified: seq<Task>)
    ensures |modified| == |tasks|
    ensures forall i :: 0 <= i < |tasks| ==> modified[i] == Adjusted(tasks[i], strategy)
  {
    modified := [];
    for i := 0 to |tasks|
      invariant |modified| == i
      invariant forall j :: 0 <= j < i ==> modified[j] == Adjusted(tasks[j], strategy)
    {
      var task := tasks[i];
      var newTask := task;
      if strategy == Fast {
        var c := Ceil(task.duration as real * 0.8);
        newTask := newTask.(duration := if c > 1 then c else 1);
        newTask := newTask.(resource := newTask.resource + 1);
      } else if strategy == Cost {
        newTask := newTask.(duration := Ceil(task.duration as real * 1.2));
        newTask := newTask.(resource := if task.resource - 1 > 1 then task.resource - 1 else 1);
      }
      modified := modified + [newTask];
    }
  }

  /** "fast" never lengthens a task that lasts at least a day. */
  lemma FastNeverSlower(t: Task)
    requires t.duration >= 1
    ensures 1 <= Adjusted(t, Fast).duration <= t.duration
  {
  }

  /** "cost" never shortens a task of non-negative duration. */
  lemma CostNeverFaster(t: Task)
    requires t.duration >= 0
    ensures Adjusted(t, Cost).duration >= t.duration
  {
  }

  /** Any other strategy, "balanced" included, copies every task unchanged. */
  lemma OtherStrategyCopies(tasks: seq<Task>, strategy: string, modified: seq<Task>)
    requires strategy != Fast && strategy != Cost
    requires |modified| == |tasks| && forall i :: 0 <= i < |tasks| ==> modified[i] == Adjusted(tasks[i], strategy)
    ensures modified == tasks
  {
  }
}
