/**
 * The backlog record of ensemble/swarmify.py and the pure decisions made on
 * it: completed-log lookup, the dynamic re-prioritisation rule and the
 * per-agent task choice of run_iteration.
 */
module Tasks {
  import opened Common
  import opened Builtins

  /**
   * A task dictionary. `dynamic` is dynamic_priority in hundredths of a unit
   * (None while the key is absent, as in freshly parsed tasks); `isAssigned`
   * (the key `assigned`) and `collaborative` read as False when the key is
   * absent.
   */
  datatype Task = Task(
    id: string,
    description: string,
    role: string,
    priority: int,
    dependencies: seq<string>,
    isAssigned: bool,
    dynamic: Option<int>,
    collaborative: bool)

  /** The 0.1 added every round, in hundredths. */
  const WaitBonus: int := 10
  /** The 0.05 subtracted per incomplete dependency, in hundredths. */
  const DependencyPenalty: int := 5

  /** is_task_completed: some record of the completed log carries this id. */
  function IsTaskCompleted(completed: seq<Task>, id: string): (r: bool)
    ensures r <==> exists k :: 0 <= k < |completed| && completed[k].id == id
  {
    if completed == [] then false
    else completed[0].id == id || IsTaskCompleted(completed[1..], id)
  }

  /** sum(1 for dep in deps if not is_task_completed(dep)): duplicates count twice. */
  function UnmetCount(deps: seq<string>, completed: seq<Task>): (n: nat)
    ensures n <= |deps|
    ensures n == 0 <==> forall k :: 0 <= k < |deps| ==> IsTaskCompleted(completed, deps[k])
  {
    if deps == [] then 0
    else (if IsTaskCompleted(completed, deps[0]) then 0 else 1) + UnmetCount(deps[1..], completed)
  }

  /** The value re-prioritisation starts from: the stored one, or the base priority when it is absent or zero. */
  function StartValue(t: Task): (v: int)
    ensures t.dynamic.Some? && t.dynamic.value != 0 ==> v == t.dynamic.value
    ensures t.dynamic.None? || t.dynamic == Some(0) ==> v == 100 * t.priority
    ensures v == 0 <==> (t.dynamic.None? || t.dynamic == Some(0)) && t.priority == 0
  {
    if t.dynamic.None? || t.dynamic.value == 0 then 100 * t.priority else t.dynamic.value
  }

  /** One task's update in dynamic_task_prioritization. Only dynamic_priority changes. */
  function Reprioritized(t: Task, completed: seq<Task>): (r: Task)
    ensures r.dynamic.Some? && r == t.(dynamic := r.dynamic)
  {
    t.(dynamic := Some(StartValue(t) + WaitBonus - DependencyPenalty * UnmetCount(t.dependencies, completed)))
  }

  /** dynamic_task_prioritization on the whole backlog, with the completed log as it is during the loop. */
  function PrioritizeAll(tasks: seq<Task>, completed: seq<Task>): (r: seq<Task>)
    ensures |r| == |tasks|
    ensures forall i :: 0 <= i < |tasks| ==> r[i] == Reprioritized(tasks[i], completed)
  {
    seq(|tasks|, i requires 0 <= i < |tasks| => Reprioritized(tasks[i], completed))
  }

  /** A task after k rounds of re-prioritisation against an unchanging completed log. */
  function AfterRounds(t: Task, completed: seq<Task>, k: nat): (r: Task)
    ensures r == t.(dynamic := r.dynamic)
    ensures k > 0 ==> r.dynamic.Some?
  {
    if k == 0 then t else Reprioritized(AfterRounds(t, completed, k - 1), completed)
  }

  /**
   * The priority is not recomputed from the base every round: it accumulates.
   * A fresh task (no stored value, or zero) with a positive base priority and at
   * most two incomplete dependencies holds 100 * priority + k * (10 - 5u) after
   * k rounds, u being the number of incomplete dependencies.
   */
  lemma {:induction false} PriorityAccumulates(t: Task, completed: seq<Task>, k: nat)
    requires t.dynamic.None? || t.dynamic == Some(0)
    requires t.priority > 0 && UnmetCount(t.dependencies, completed) <= 2
    requires k >= 1
    ensures AfterRounds(t, completed, k).dynamic
      == Some(100 * t.priority + k * (WaitBonus - DependencyPenalty * UnmetCount(t.dependencies, completed)))
    ensures AfterRounds(t, completed, k) == t.(dynamic := AfterRounds(t, completed, k).dynamic)
  {
    var step := WaitBonus - DependencyPenalty * UnmetCount(t.dependencies, completed);
    if k > 1 {
      PriorityAccumulates(t, completed, k - 1);
      var prev := AfterRounds(t, completed, k - 1);
      var before := 100 * t.priority + (k - 1) * step;
      assert prev.dynamic == Some(before);
      assert step >= 0 && (k - 1) * step >= 0;
      assert StartValue(prev) == before;
      assert before + step == 100 * t.priority + k * step;
    } else {
      assert AfterRounds(t, completed, 1) == Reprioritized(t, completed);
      assert StartValue(t) == 100 * t.priority;
    }
  }

  /**
   * With every dependency completed, each round raises a non-zero stored value
   * by exactly 0.1: the value keeps growing while the task waits.
   */
  lemma {:induction false} ReadyTaskGrows(t: Task, completed: seq<Task>)
    requires forall k :: 0 <= k < |t.dependencies| ==> IsTaskCompleted(completed, t.dependencies[k])
    requires t.dynamic.Some? && t.dynamic.value != 0
    ensures Reprioritized(t, completed).dynamic == Some(t.dynamic.value + WaitBonus)
  {
  }

  /** get_next_task_for_agent's filter: same role, and not yet marked assigned. */
  predicate IsAvailableFor(t: Task, role: string) {
    t.role == role && !t.isAssigned
  }

  function Priorities(tasks: seq<Task>): (r: seq<int>)
    ensures |r| == |tasks| && forall i :: 0 <= i < |tasks| ==> r[i] == tasks[i].priority
  {
    seq(|tasks|, i requires 0 <= i < |tasks| => tasks[i].priority)
  }

  function AvailableFor(tasks: seq<Task>, role: string): (r: seq<bool>)
    ensures |r| == |tasks| && forall i :: 0 <= i < |tasks| ==> r[i] == IsAvailableFor(tasks[i], role)
  {
    seq(|tasks|, i requires 0 <= i < |tasks| => IsAvailableFor(tasks[i], role))
  }

  /**
   * get_next_task_for_agent: among the tasks of the agent's role not marked
   * assigned, the first one in list order with the smallest base priority;
   * None when there is none. Dependencies play no part.
   */
  function NextTaskIndex(tasks: seq<Task>, role: string): (r: Option<nat>)
    ensures r.None? <==> forall j :: 0 <= j < |tasks| ==> !IsAvailableFor(tasks[j], role)
    ensures r.Some? ==>
      && r.value < |tasks| && IsAvailableFor(tasks[r.value], role)
      && (forall j :: 0 <= j < |tasks| && IsAvailableFor(tasks[j], role) ==> tasks[r.value].priority <= tasks[j].priority)
      && (forall j :: 0 <= j < r.value && IsAvailableFor(tasks[j], role) ==> tasks[r.value].priority < tasks[j].priority)
  {
    var r := FirstMin(Priorities(tasks), AvailableFor(tasks, role));
    assert r.Some? ==> IsFirstMin(Priorities(tasks), AvailableFor(tasks, role), r.value);
    r
  }

  /**
   * The task at NextTaskIndex: the first available task, in list order, of
   * least base priority, so every available task of that priority lies at or
   * after its first occurrence.
   */
  function NextTaskFor(tasks: seq<Task>, role: string): (r: Option<Task>)
    ensures r.Some? ==> r.value in tasks && IsAvailableFor(r.value, role)
    ensures r.Some? ==> forall j :: 0 <= j < |tasks| && IsAvailableFor(tasks[j], role) ==> r.value.priority <= tasks[j].priority
    ensures r.None? <==> forall j :: 0 <= j < |tasks| ==> !IsAvailableFor(tasks[j], role)
    ensures r.Some? ==> (forall j :: 0 <= j < |tasks| && IsAvailableFor(tasks[j], role) && tasks[j].priority <= r.value.priority
                                ==> r.value in tasks[..j + 1])
  {
    match NextTaskIndex(tasks, role)
    case Some(i) => Some(tasks[i])
    case None => None
  }

  /**
   * The tie-break of NextTaskFor by position: the chosen task occurs at a
   * position before which no available task has a priority as small.
   */
  lemma {:induction false} NextTaskForIsFirst(tasks: seq<Task>, role: string)
    ensures var r := NextTaskFor(tasks, role);
      r.Some? ==> exists i :: (0 <= i < |tasks| && tasks[i] == r.value && IsAvailableFor(tasks[i], role)
        && forall j :: 0 <= j < i && IsAvailableFor(tasks[j], role) ==> r.value.priority < tasks[j].priority)
  {
    var k := NextTaskIndex(tasks, role);
    if k.Some? {
      assert tasks[k.value] == NextTaskFor(tasks, role).value;
    }
  }

  /** The sort key of allocate_tasks: dynamic_priority, present on every task once it has been re-prioritised. */
  function SortKey(t: Task): int {
    match t.dynamic
    case Some(d) => d
    case None => 0
  }

  function SortKeys(tasks: seq<Task>): (r: seq<int>)
    ensures |r| == |tasks| && forall i :: 0 <= i < |tasks| ==> r[i] == SortKey(tasks[i])
  {
    seq(|tasks|, i requires 0 <= i < |tasks| => SortKey(tasks[i]))
  }
}
