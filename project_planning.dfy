/**
 * tools/project_planning.py: a registry of planned agents and tasks that
 * grows by appending and is emptied by clear. Each operation answers with a
 * confirmation message.
 */
module ProjectPlanning {
  import opened Common

  /** The record add_agent appends. */
  datatype AgentPlan = AgentPlan(name: string, role: string, specialties: seq<string>)

  /** The record add_task appends; its dependency list is never absent. */
  datatype TaskPlan = TaskPlan(description: string, role: string, priority: int, dependencies: seq<string>)

  /** One call that changes the planner. */
  datatype Operation =
    | AddAgentOp(agent: AgentPlan)
    | AddTaskOp(task: TaskPlan)
    | ClearOp

  /** The two lists of a planner. */
  datatype Registry = Registry(agents: seq<AgentPlan>, tasks: seq<TaskPlan>)

  /** The registry after one operation. */
  function Apply(reg: Registry, op: Operation): Registry {
    match op
    case AddAgentOp(a) => reg.(agents := reg.agents + [a])
    case AddTaskOp(t) => reg.(tasks := reg.tasks + [t])
    case ClearOp => Registry([], [])
  }

  /** The registry of a new planner after the operations, in order. */
  function Replay(ops: seq<Operation>): Registry
    decreases |ops|
  {
    if ops == [] then Registry([], []) else Apply(Replay(ops[..|ops| - 1]), ops[|ops| - 1])
  }

  /** The agents the operations add, in order. */
  function AgentsAdded(ops: seq<Operation>): seq<AgentPlan>
    decreases |ops|
  {
    if ops == [] then []
    else
      var rest := AgentsAdded(ops[..|ops| - 1]);
      match ops[|ops| - 1]
      case AddAgentOp(a) => rest + [a]
      case _ => rest
  }

  /** The tasks the operations add, in order. */
  function TasksAdded(ops: seq<Operation>): seq<TaskPlan>
    decreases |ops|
  {
    if ops == [] then []
    else
      var rest := TasksAdded(ops[..|ops| - 1]);
      match ops[|ops| - 1]
      case AddTaskOp(t) => rest + [t]
      case _ => rest
  }

  /** Without a clear the planner is append-only: it lists every agent and every task added, in the order of the calls. */
  lemma {:induction false} ReplayWithoutClear(ops: seq<Operation>)
    requires ClearOp !in ops
    ensures Replay(ops) == Registry(AgentsAdded(ops), TasksAdded(ops))
    decreases |ops|
  {
    if ops != [] {
      ReplayWithoutClear(ops[..|ops| - 1]);
    }
  }

  /** A clear forgets everything before it: the planner then holds only what was added after the last clear. */
  lemma {:induction false} ReplayAfterClear(before: seq<Operation>, after: seq<Operation>)
    ensures Replay(before + [ClearOp] + after) == Replay(after)
    decreases |after|
  {
    var ops := before + [ClearOp] + after;
    if after == [] {
      assert ops == before + [ClearOp];
      assert ops[..|ops| - 1] == before;
    } else {
      var n := |after| - 1;
      assert ops[..|ops| - 1] == before + [ClearOp] + after[..n];
      assert ops[|ops| - 1] == after[n];
      ReplayAfterClear(before, after[..n]);
    }
  }

  /** "Added agent: {name} ({role})" */
  function AgentAddedMessage(name: string, role: string): (r: string)
    ensures |r| == 13 + |name| + 2 + |role| + 1
    ensures r[..13] == "Added agent: " && r[13..13 + |name|] == name
    ensures r[|r| - 1 - |role|..|r| - 1] == role && r[|r| - 1] == ')'
  {
    "Added agent: " + name + " (" + role + ")"
  }

  /** "Added task: {description} (Priority: {priority})" */
  function TaskAddedMessage(description: string, priority: int): (r: string)
    ensures |r| == 12 + |description| + 12 + |IntToString(priority)| + 1
    ensures r[..12] == "Added task: " && r[12..12 + |description|] == description
    ensures ParseInt(r[|r| - 1 - |IntToString(priority)|..|r| - 1]) == Some(priority) && r[|r| - 1] == ')'
  {
    var s := IntToString(priority);
    var r := "Added task: " + description + " (Priority: " + s + ")";
    assert r[|r| - |s| - 1..|r| - 1] == s;
    ParseIntOfIntToString(priority);
    r
  }

  const ClearedMessage: string := "Cleared all agents and tasks"

  class ProjectPlanner {
    var agents: seq<AgentPlan>
    var tasks: seq<TaskPlan>
    /** The calls that changed this planner, in order. */
    ghost var log: seq<Operation>

    /** The lists are what the logged calls produce from an empty planner. */
    ghost predicate Valid()
      reads this
    {
      Registry(agents, tasks) == Replay(log)
    }

    /** A new planner has no agents and no tasks. */
    constructor ()
      ensures Valid() && agents == [] && tasks == [] && log == []
    {
      agents := [];
      tasks := [];
      log := [];
    }

    /** add_agent: appends one record; the earlier records and the tasks are unchanged. */
    method AddAgent(name: string, role: string, specialties: seq<string>) returns (msg: string)
      requires Valid()
      modifies this
      ensures Valid() && log == old(log) + [AddAgentOp(AgentPlan(name, role, specialties))]
      ensures agents == old(agents) + [AgentPlan(name, role, specialties)] && tasks == old(tasks)
      ensures msg == AgentAddedMessage(name, role)
    {
      var agent := AgentPlan(name, role, specialties);
      agents := agents + [agent];
      log := log + [AddAgentOp(agent)];
      assert log[..|log| - 1] == old(log);
      msg := AgentAddedMessage(name, role);
    }

    /**
     * add_task: appends one record, an absent dependency list (None) stored as
     * the empty list; the earlier records and the agents are unchanged.
     */
    method AddTask(description: string, role: string, priority: int, dependencies: Option<seq<string>>)
      returns (msg: string)
      requires Valid()
      modifies this
      ensures Valid() && log == old(log) + [AddTaskOp(TaskPlan(description, role, priority, DependenciesOrNone(dependencies)))]
      ensures tasks == old(tasks) + [TaskPlan(description, role, priority, DependenciesOrNone(dependencies))]
      ensures agents == old(agents)
      ensures msg == TaskAddedMessage(description, priority)
    {
      var task := TaskPlan(description, role, priority, DependenciesOrNone(dependencies));
      tasks := tasks + [task];
      log := log + [AddTaskOp(task)];
      assert log[..|log| - 1] == old(log);
      msg := TaskAddedMessage(description, priority);
    }

    /** get_agents: the current list; nothing changes. */
    function GetAgents(): (r: seq<AgentPlan>)
      reads this
      ensures Valid() ==> r == AgentsAddedSinceClear(log)
    {
      assert Valid() ==> agents == AgentsAddedSinceClear(log) by {
        if Valid() { ReplaySinceClear(log); }
      }
      agents
    }

    /** get_tasks: the current list; nothing changes. */
    function GetTasks(): (r: seq<TaskPlan>)
      reads this
      ensures Valid() ==> r == TasksAddedSinceClear(log)
    {
      assert Valid() ==> tasks == TasksAddedSinceClear(log) by {
        if Valid() { ReplaySinceClear(log); }
      }
      tasks
    }

    /** clear: both lists become empty. */
    method Clear() returns (msg: string)
      requires Valid()
      modifies this
      ensures Valid() && log == old(log) + [ClearOp]
      ensures agents == [] && tasks == [] && msg == ClearedMessage
    {
      agents := [];
      tasks := [];
      log := log + [ClearOp];
      msg := ClearedMessage;
    }
  }

  /** `dependencies or []`: an absent list becomes the empty one. */
  function DependenciesOrNone(dependencies: Option<seq<string>>): (r: seq<string>)
    ensures dependencies.None? ==> r == []
    ensures dependencies.Some? ==> r == dependencies.value
  {
    match dependencies
    case None => []
    case Some(d) => d
  }

  /** The operations after the last clear (all of them when there is none). */
  function SinceClear(ops: seq<Operation>): (r: seq<Operation>)
    ensures ClearOp !in r
    decreases |ops|
  {
    if ops == [] then []
    else if ops[|ops| - 1] == ClearOp then []
    else SinceClear(ops[..|ops| - 1]) + [ops[|ops| - 1]]
  }

  function AgentsAddedSinceClear(ops: seq<Operation>): seq<AgentPlan> {
    AgentsAdded(SinceClear(ops))
  }

  function TasksAddedSinceClear(ops: seq<Operation>): seq<TaskPlan> {
    TasksAdded(SinceClear(ops))
  }

  /** The planner lists exactly the agents and tasks added since the last clear, in order. */
  lemma {:induction false} ReplaySinceClear(ops: seq<Operation>)
    ensures Replay(ops) == Registry(AgentsAddedSinceClear(ops), TasksAddedSinceClear(ops))
  {
    ReplayIsSinceClear(ops);
    ReplayWithoutClear(SinceClear(ops));
  }

  lemma {:induction false} ReplayIsSinceClear(ops: seq<Operation>)
    ensures Replay(ops) == Replay(SinceClear(ops))
    decreases |ops|
  {
    if ops != [] {
      var init := ops[..|ops| - 1];
      var last := ops[|ops| - 1];
      ReplayIsSinceClear(init);
      if last == ClearOp {
        assert Replay(ops) == Registry([], []);
      } else {
        var s := SinceClear(init) + [last];
        assert s[..|s| - 1] == SinceClear(init) && s[|s| - 1] == last;
      }
    }
  }
}
