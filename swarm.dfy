/**
 * The Swarm class of ensemble/swarmify.py: the backlog, the completed log and
 * the agent pool, changed in place by the scheduler's methods. Every method is
 * proved to leave the state its specification function in module Scheduling
 * describes; the properties of those functions are proved there.
 *
 * Where the source calls something that does not exist, the method does what
 * the call evidently intends and its comment says so:
 *   - collaboration_groups is never initialised: the constructor sets it empty;
 *   - Agent has no assign_task: Agent.AssignTask sets the current task;
 *   - Agent has no memory: the load of an agent is its completed-task count;
 *   - add_agent is called without its task description: the new agent is
 *     appended like any other.
 * As written, these calls raise. Scheduling.VisitRaises and
 * Scheduling.SizingRaises model where they do.
 */
module Swarmify {
  import opened Common
  import opened Builtins
  import opened Tasks
  import opened Agents
  import opened Scheduling

  /** The scheduler-visible state of each agent of a pool, in pool order. */
  function ViewsOf(pool: seq<Agent>): (r: seq<AgentView>)
    reads pool
    ensures |r| == |pool| && forall i :: 0 <= i < |pool| ==> r[i] == pool[i].View()
  {
    seq(|pool|, i reads pool requires 0 <= i < |pool| => pool[i].View())
  }

  /** No agent object occurs twice in the pool. */
  predicate Distinct(pool: seq<Agent>) {
    forall i, j :: 0 <= i < j < |pool| ==> pool[i] != pool[j]
  }

  /** The agent groups named by pairs of pool positions. */
  function GroupsOf(pool: seq<Agent>, groups: seq<seq<nat>>): (r: seq<seq<Agent>>)
    requires GroupsWithin(groups, |pool|)
    ensures |r| == |groups|
  {
    seq(|groups|, q requires 0 <= q < |groups| => [pool[groups[q][0]], pool[groups[q][1]]])
  }

  lemma {:induction false} GroupsOfAppend(earlier: seq<seq<Agent>>, pool: seq<Agent>, groups: seq<seq<nat>>, i: nat, j: nat)
    requires GroupsWithin(groups, |pool|) && i < j < |pool|
    ensures GroupsWithin(groups + [[i, j]], |pool|)
    ensures earlier + GroupsOf(pool, groups) + [[pool[i], pool[j]]] == earlier + GroupsOf(pool, groups + [[i, j]])
  {
    var g := groups + [[i, j]];
    assert forall q :: 0 <= q < |groups| ==> g[q] == groups[q];
    assert GroupsOf(pool, g) == GroupsOf(pool, groups) + [[pool[i], pool[j]]];
  }

  lemma {:induction false} ViewsOfRemove(pool: seq<Agent>, i: nat)
    requires i < |pool|
    ensures ViewsOf(pool[..i] + pool[i + 1..]) == ViewsOf(pool)[..i] + ViewsOf(pool)[i + 1..]
  {
    var r := pool[..i] + pool[i + 1..];
    assert forall j :: 0 <= j < |r| ==> r[j] == if j < i then pool[j] else pool[j + 1];
  }

  lemma {:induction false} ViewsOfAppend(pool: seq<Agent>, a: Agent)
    ensures ViewsOf(pool + [a]) == ViewsOf(pool) + [a.View()]
  {
  }

  /** Removing the first least-loaded agent of a pool without repeats drops its view and nothing else. */
  lemma {:induction false} RemoveLeastLoaded(pool: seq<Agent>)
    requires |pool| > 0 && Distinct(pool)
    ensures var i := SelectToRemove(ViewsOf(pool));
      ViewsOf(RemoveFirst(pool, pool[i])) == ViewsOf(pool)[..i] + ViewsOf(pool)[i + 1..]
      && Distinct(RemoveFirst(pool, pool[i]))
      && forall j :: 0 <= j < |RemoveFirst(pool, pool[i])| ==> RemoveFirst(pool, pool[i])[j] in pool
  {
    var i := SelectToRemove(ViewsOf(pool));
    RemoveFirstAt(pool, i);
    ViewsOfRemove(pool, i);
    DistinctRemove(pool, i);
    RemoveKeepsMembers(pool, i);
  }

  lemma {:induction false} RemoveKeepsMembers(pool: seq<Agent>, i: nat)
    requires i < |pool|
    ensures var r := pool[..i] + pool[i + 1..]; forall j :: 0 <= j < |r| ==> r[j] in pool
  {
    var r := pool[..i] + pool[i + 1..];
    forall j | 0 <= j < |r| ensures r[j] in pool {
      if j < i { assert r[j] == pool[j]; } else { assert r[j] == pool[j + 1]; }
    }
  }

  lemma {:induction false} DistinctRemove(pool: seq<Agent>, i: nat)
    requires i < |pool| && Distinct(pool)
    ensures Distinct(pool[..i] + pool[i + 1..])
  {
    var r := pool[..i] + pool[i + 1..];
    forall p, q | 0 <= p < q < |r| ensures r[p] != r[q] {
      var p' := if p < i then p else p + 1;
      var q' := if q < i then q else q + 1;
      assert r[p] == pool[p'] && r[q] == pool[q'];
    }
  }

  class Swarm {
    var agents: seq<Agent>
    var tasks: seq<Task>
    var completedTasks: seq<Task>
    var collaborationGroups: seq<seq<Agent>>
    var projectOverview: string

    /** The pool holds each agent once, so a change to one agent shows at one position. */
    predicate Valid()
      reads this
    {
      Distinct(agents)
    }

    function Views(): seq<AgentView>
      reads this, agents
    {
      ViewsOf(agents)
    }

    /** The part of the swarm the scheduler reads and changes. */
    function State(): Pool
      reads this, agents
    {
      Pool(tasks, completedTasks, Views())
    }

    /** A new swarm: no agents, no tasks, nothing completed, no groups. */
    constructor ()
      ensures Valid() && State() == Pool([], [], [])
      ensures collaborationGroups == [] && projectOverview == ""
    {
      agents := [];
      tasks := [];
      completedTasks := [];
      collaborationGroups := [];
      projectOverview := "";
    }

    /** add_agent: the agent is appended; the model-context setup and the shared RAG are not modelled. */
    method AddAgent(agent: Agent)
      requires Valid() && agent !in agents
      modifies this`agents
      ensures Valid() && agents == old(agents) + [agent]
    {
      agents := agents + [agent];
    }

    /** add_task: the task is appended to the backlog, nothing else changes. */
    method AddTask(task: Task)
      modifies this`tasks
      ensures tasks == old(tasks) + [task]
    {
      tasks := tasks + [task];
    }

    /** is_task_completed: some record of the completed log carries the id. */
    function IsTaskCompleted(taskId: string): (r: bool)
      reads this
      ensures r <==> exists k :: 0 <= k < |completedTasks| && completedTasks[k].id == taskId
    {
      Tasks.IsTaskCompleted(completedTasks, taskId)
    }

    /**
     * dynamic_task_prioritization: every task, in place, starts from its stored
     * value (its base priority when absent or zero), gains 0.1 and loses 0.05
     * per dependency not in the completed log.
     */
    method DynamicTaskPrioritization()
      modifies this`tasks
      ensures |tasks| == |old(tasks)|
      ensures forall k :: 0 <= k < |tasks| ==> tasks[k] == Reprioritized(old(tasks)[k], completedTasks)
      ensures tasks == PrioritizeAll(old(tasks), completedTasks)
    {
      var k := 0;
      while k < |tasks|
        invariant 0 <= k <= |tasks| == |old(tasks)|
        invariant forall j :: 0 <= j < k ==> tasks[j] == Reprioritized(old(tasks)[j], completedTasks)
        invariant forall j :: k <= j < |tasks| ==> tasks[j] == old(tasks)[j]
      {
        var task := tasks[k];
        var d := if task.dynamic.None? || task.dynamic.value == 0 then 100 * task.priority else task.dynamic.value;
        d := d + WaitBonus;
        var incomplete := UnmetCount(task.dependencies, completedTasks);
        d := d - DependencyPenalty * incomplete;
        tasks := tasks[k := task.(dynamic := Some(d))];
        k := k + 1;
      }
    }

    /**
     * agent.assign_task(task), or the field write agent.current_task = task,
     * on the agent at position j: only that agent's current task changes.
     */
    method GiveTask(j: nat, task: Task)
      requires Valid() && j < |agents|
      modifies agents[j]
      ensures Views() == old(Views())[j := old(Views())[j].(currentTask := Some(task))]
    {
      agents[j].AssignTask(task);
    }

    /**
     * collaborative_task_solving up to the model call: with at least two free
     * agents listing the task's role, the first two form a group, which is
     * recorded, and both take the task as their current one.
     */
    method CollaborativeTaskSolving(task: Task)
      requires Valid()
      modifies this`collaborationGroups, agents
      ensures var v := old(Views()); var s := SuitableIndices(v, task.role);
        && (|s| >= 2 ==>
              var v1 := v[s[0] := v[s[0]].(currentTask := Some(task))];
              && Views() == v1[s[1] := v1[s[1]].(currentTask := Some(task))]
              && collaborationGroups == old(collaborationGroups) + [[agents[s[0]], agents[s[1]]]])
        && (|s| < 2 ==> Views() == v && collaborationGroups == old(collaborationGroups))
    {
      ghost var v := Views();
      var suitable := SuitableIndices(Views(), task.role);
      if |suitable| >= 2 {
        var group := [agents[suitable[0]], agents[suitable[1]]];
        collaborationGroups := collaborationGroups + [group];
        GiveTask(suitable[0], task);
        ghost var v1 := v[suitable[0] := v[suitable[0]].(currentTask := Some(task))];
        assert Views() == v1;
        GiveTask(suitable[1], task);
        assert Views() == v1[suitable[1] := v1[suitable[1]].(currentTask := Some(task))];
      }
    }

    /**
     * The non-collaborative branch of allocate_tasks: the first free agent
     * listing the task's role with the fewest completed tasks takes the task,
     * which is marked assigned in the backlog and in the agent's hands alike.
     */
    method AssignToLeastLoaded(k: nat)
      requires Valid() && k < |tasks|
      modifies this`tasks, agents
      ensures Valid()
      ensures var v := old(Views()); var t' := old(tasks)[k].(isAssigned := true);
        var m := FirstMin(Loads(v), SuitableFlags(v, old(tasks)[k].role));
        && (m.None? ==> tasks == old(tasks) && Views() == v)
        && (m.Some? ==> tasks == old(tasks)[k := t'] && Views() == v[m.value := v[m.value].(currentTask := Some(t'))])
    {
      var task := tasks[k];
      var suitable := SuitableFlags(Views(), task.role);
      var chosen := FirstMin(Loads(Views()), suitable);
      if chosen.Some? {
        var marked := task.(isAssigned := true);
        GiveTask(chosen.value, marked);
        tasks := tasks[k := marked];
      }
    }

    /**
     * One pass of the allocate_tasks loop, on the task at position k. Each
     * task not yet assigned goes to collaborative selection when
     * collaborative, and otherwise to the first free agent listing its role
     * with the fewest completed tasks, and is marked assigned. The agent holds
     * the same dictionary, so it sees the mark too. `groups` are the positions
     * of the groups formed so far in this allocation.
     */
    method AllocateTask(k: nat, ghost earlier: seq<seq<Agent>>, ghost a: Allocation)
      requires Valid() && k < |tasks| && Reflects(a, earlier)
      modifies this`tasks, this`collaborationGroups, agents
      ensures Valid() && Reflects(VisitTask(a, k), earlier)
    {
      var task := tasks[k];
      if !task.isAssigned {
        if task.collaborative {
          AllocateCollaborative(k, earlier, a);
        } else {
          AllocateSolo(k, earlier, a);
        }
      }
    }

    /**
     * The swarm is in allocation state `a`: the same backlog, agents in the
     * same state, and the groups formed so far recorded after `earlier`.
     */
    ghost predicate Reflects(a: Allocation, earlier: seq<seq<Agent>>)
      reads this, agents
    {
      && tasks == a.tasks && Views() == a.agents
      && GroupsWithin(a.groups, |agents|)
      && collaborationGroups == earlier + GroupsOf(agents, a.groups)
    }

    /** The collaborative case of one pass. */
    method AllocateCollaborative(k: nat, ghost earlier: seq<seq<Agent>>, ghost a: Allocation)
      requires Valid() && k < |tasks| && !tasks[k].isAssigned && tasks[k].collaborative && Reflects(a, earlier)
      modifies this`collaborationGroups, agents
      ensures Valid() && Reflects(VisitTask(a, k), earlier)
    {
      VisitKeepsGroupsWithin(a, k);
      ghost var s := SuitableIndices(a.agents, tasks[k].role);
      ghost var before := collaborationGroups;
      CollaborativeTaskSolving(tasks[k]);
      if |s| >= 2 {
        GroupsOfAppend(earlier, agents, a.groups, s[0], s[1]);
        assert collaborationGroups == before + [[agents[s[0]], agents[s[1]]]];
      } else {
        assert Views() == a.agents && collaborationGroups == before;
      }
    }

    /** The non-collaborative case of one pass. */
    method AllocateSolo(k: nat, ghost earlier: seq<seq<Agent>>, ghost a: Allocation)
      requires Valid() && k < |tasks| && !tasks[k].isAssigned && !tasks[k].collaborative && Reflects(a, earlier)
      modifies this`tasks, agents
      ensures Valid() && Reflects(VisitTask(a, k), earlier)
    {
      VisitKeepsGroupsWithin(a, k);
      AssignToLeastLoaded(k);
    }

    /** The loop of allocate_tasks over the backlog sorted by dynamic_priority, highest first. */
    method AssignSortedTasks()
      requires Valid()
      modifies this`tasks, this`collaborationGroups, agents
      ensures Valid() && old(collaborationGroups) <= collaborationGroups
      ensures Reflects(AllocateInOrder(Allocation(old(tasks), old(Views()), []), AllocationOrder(old(tasks))), old(collaborationGroups))
    {
      var sortedTasks := AllocationOrder(tasks);
      ghost var st0 := Allocation(tasks, Views(), []);
      var p := 0;
      while p < |sortedTasks|
        invariant 0 <= p <= |sortedTasks| && |tasks| == |st0.tasks| == |sortedTasks|
        invariant ValidOrder(sortedTasks, |st0.tasks|) && Valid()
        invariant Reflects(AllocateInOrder(st0, sortedTasks[..p]), old(collaborationGroups))
      {
        AllocateInOrderNext(st0, sortedTasks, p);
        AllocateTask(sortedTasks[p], old(collaborationGroups), AllocateInOrder(st0, sortedTasks[..p]));
        p := p + 1;
      }
      assert sortedTasks[..p] == sortedTasks;
    }

    /**
     * agent_specialization_evolution: each agent with completed tasks gains
     * the suggested specialty (a model answer) when it is non-empty and not
     * already listed.
     */
    method AgentSpecializationEvolution(suggest: AgentView -> string)
      requires Valid()
      modifies agents
      ensures Views() == EvolveAll(old(Views()), suggest)
    {
      ghost var v0 := Views();
      var i := 0;
      while i < |agents|
        invariant 0 <= i <= |agents|
        invariant forall j :: 0 <= j < i ==> agents[j].View() == Evolved(v0[j], suggest(v0[j]))
        invariant forall j :: i <= j < |agents| ==> agents[j].View() == v0[j]
      {
        var agent := agents[i];
        if agent.completedTasks != [] {
          var newSpecialty := suggest(agent.View());
          if newSpecialty != "" && newSpecialty !in agent.specialties {
            agent.specialties := agent.specialties + [newSpecialty];
          }
        }
        i := i + 1;
      }
    }

    /** create_new_agent: named after the pool size plus one, with the needed role (a model answer) and no specialties. */
    method CreateNewAgent(neededRole: string) returns (agent: Agent)
      ensures fresh(agent) && agent.View() == NewAgentView(|agents|, neededRole)
    {
      agent := new Agent("Agent_" + IntToString(|agents| + 1), neededRole, []);
    }

    /**
     * select_agent_to_remove: the first agent with the fewest completed tasks,
     * whether or not it is busy. min() of an empty pool raises.
     */
    function SelectAgentToRemove(): (r: Agent)
      requires |agents| > 0
      reads this, agents
      ensures exists i :: (0 <= i < |agents| && agents[i] == r
        && (forall j :: 0 <= j < |agents| ==> |r.completedTasks| <= |agents[j].completedTasks|)
        && (forall j :: 0 <= j < i ==> |r.completedTasks| < |agents[j].completedTasks|))
    {
      var i := SelectToRemove(Views());
      assert IsFirstMin(Loads(Views()), AllTrue(|agents|), i);
      agents[i]
    }

    /**
     * adaptive_swarm_sizing: one new agent when the backlog is more than twice
     * the pool, else the least-loaded agent leaves when the backlog is below
     * half the pool (rounded down), else nothing.
     */
    method AdaptiveSwarmSizing(neededRole: string)
      requires Valid()
      modifies this`agents
      ensures Valid() && Views() == Resized(old(Views()), |tasks|, neededRole)
      ensures forall i :: 0 <= i < |agents| ==> agents[i] in old(agents) || fresh(agents[i])
    {
      ghost var v0 := Views();
      var workload := |tasks|;
      ghost var goal := Resized(v0, workload, neededRole);
      var currentAgents := |agents|;
      if workload > currentAgents * 2 {
        GrowPool(neededRole);
        assert Views() == goal;
      } else if workload < currentAgents / 2 {
        ShrinkPool();
        assert Views() == goal;
      }
    }

    /** The growing case of adaptive_swarm_sizing: create_new_agent's agent is added to the pool. */
    method GrowPool(neededRole: string)
      requires Valid()
      modifies this`agents
      ensures Valid() && Views() == old(Views()) + [NewAgentView(|old(agents)|, neededRole)]
      ensures forall i :: 0 <= i < |agents| ==> agents[i] in old(agents) || fresh(agents[i])
    {
      var newAgent := CreateNewAgent(neededRole);
      ViewsOfAppend(agents, newAgent);
      AddAgent(newAgent);
    }

    /** The shrinking case of adaptive_swarm_sizing: the agent select_agent_to_remove picks leaves the pool. */
    method ShrinkPool()
      requires Valid() && |agents| > 0
      modifies this`agents
      ensures var i := SelectToRemove(old(Views()));
        Valid() && Views() == old(Views())[..i] + old(Views())[i + 1..]
      ensures forall i :: 0 <= i < |agents| ==> agents[i] in old(agents)
    {
      var agentToRemove := SelectAgentToRemove();
      RemoveLeastLoaded(agents);
      agents := RemoveFirst(agents, agentToRemove);
    }

    /**
     * allocate_tasks: re-prioritise, assign in sorted order, evolve
     * specialties, share knowledge (a RAG upload, not modelled) and resize the
     * pool. `suggest` and `neededRole` are the model's answers.
     */
    method AllocateTasks(suggest: AgentView -> string, neededRole: string)
      requires Valid()
      modifies this`tasks, this`collaborationGroups, this`agents, agents
      ensures Valid() && State() == AllocateRound(old(State()), suggest, neededRole)
      ensures old(collaborationGroups) <= collaborationGroups
      ensures forall i :: 0 <= i < |agents| ==> agents[i] in old(agents) || fresh(agents[i])
    {
      ghost var p0 := State();
      DynamicTaskPrioritization();
      ghost var prioritized := tasks;
      assert prioritized == PrioritizeAll(p0.tasks, p0.completed) && Views() == p0.agents;
      ghost var a := AllocateInOrder(Allocation(prioritized, p0.agents, []), AllocationOrder(prioritized));
      assert a == AssignRound(p0.tasks, p0.completed, p0.agents);
      AssignSortedTasks();
      assert tasks == a.tasks && Views() == a.agents;
      ghost var e := EvolveAll(a.agents, suggest);
      AgentSpecializationEvolution(suggest);
      assert Views() == e;
      AdaptiveSwarmSizing(neededRole);
      assert Views() == Resized(e, |a.tasks|, neededRole);
    }

    /**
     * The run_iteration loop body for the agent at position i: an idle agent
     * first takes get_next_task_for_agent's choice; an agent with a task
     * executes it (`execute` is the model's answer, None when execute_task
     * raises). On success the result is kept, the task is appended to the
     * completed log and removed from the backlog, where a ValueError from
     * list.remove is caught. Either way the agent ends idle.
     */
    method RunAgent(i: nat, execute: (string, Task) -> Option<string>, results: seq<string>, ghost st0: Round)
      returns (newResults: seq<string>)
      requires Valid() && i < |agents|
      requires Round(tasks, completedTasks, Views(), results) == ExecuteAgents(st0, i, execute)
      modifies this`tasks, this`completedTasks, agents
      ensures Round(tasks, completedTasks, Views(), newResults)
        == ExecuteAgent(Round(old(tasks), old(completedTasks), old(Views()), results), i, execute)
      ensures Round(tasks, completedTasks, Views(), newResults) == ExecuteAgents(st0, i + 1, execute)
    {
      ghost var st := Round(tasks, completedTasks, Views(), results);
      PickUpTask(i, results);
      ExecuteAfterPickUp(st, i, execute);
      newResults := ExecuteHeld(i, execute, results);
      ExecuteAgentsNext(st0, i, execute);
    }

    /** The first half of the loop body: an idle agent takes get_next_task_for_agent's choice, when there is one. */
    method PickUpTask(i: nat, ghost results: seq<string>)
      requires Valid() && i < |agents|
      modifies agents[i]
      ensures var v := old(Views());
        Views() == v[i := v[i].(currentTask := HeldOrNext(Round(tasks, completedTasks, v, results), i))]
    {
      ghost var v := Views();
      var agent := agents[i];
      if agent.currentTask.None? {
        var task := GetNextTaskForAgent(agent);
        assert HeldOrNext(Round(tasks, completedTasks, v, results), i) == task;
        if task.Some? {
          GiveTask(i, task.value);
        }
      }
    }

    /** The second half of the loop body: the agent executes the task it holds, if any, and ends idle. */
    method ExecuteHeld(i: nat, execute: (string, Task) -> Option<string>, results: seq<string>) returns (newResults: seq<string>)
      requires Valid() && i < |agents|
      requires HeldOrNext(Round(tasks, completedTasks, Views(), results), i) == agents[i].currentTask
      modifies this`tasks, this`completedTasks, agents[i]
      ensures Round(tasks, completedTasks, Views(), newResults)
        == ExecuteAgent(Round(old(tasks), old(completedTasks), old(Views()), results), i, execute)
    {
      newResults := results;
      var agent := agents[i];
      if agent.currentTask.Some? {
        var current := agent.currentTask.value;
        var result := agent.ExecuteTask(current, execute(agent.name, current));
        if result.Some? {
          newResults := newResults + [result.value];
          completedTasks := completedTasks + [current];
          tasks := RemoveFirst(tasks, current);
        }
        agent.currentTask := None;
      }
    }

    /** The agent loop of run_iteration, over the agents in pool order. */
    method RunAgents(execute: (string, Task) -> Option<string>) returns (results: seq<string>)
      requires Valid()
      modifies this`tasks, this`completedTasks, agents
      ensures Round(tasks, completedTasks, Views(), results)
        == ExecuteAgents(Round(old(tasks), old(completedTasks), old(Views()), []), |agents|, execute)
    {
      results := [];
      ghost var st0 := Round(tasks, completedTasks, Views(), []);
      var i := 0;
      while i < |agents|
        invariant 0 <= i <= |agents|
        invariant Valid()
        invariant Round(tasks, completedTasks, Views(), results) == ExecuteAgents(st0, i, execute)
      {
        results := RunAgent(i, execute, results, st0);
        i := i + 1;
      }
    }

    /**
     * run_iteration: the agent loop, then dynamic_task_prioritization,
     * allocate_tasks, agent_specialization_evolution, knowledge sharing (not
     * modelled) and adaptive_swarm_sizing, returning the results in agent
     * order. The model's answers are the same at both evolution and both
     * sizing steps.
     */
    method RunIteration(execute: (string, Task) -> Option<string>, suggest: AgentView -> string, neededRole: string)
      returns (results: seq<string>)
      requires Valid()
      modifies this`tasks, this`completedTasks, this`collaborationGroups, this`agents, agents
      ensures Valid() && (State(), results) == Iteration(old(State()), execute, suggest, neededRole)
      ensures old(collaborationGroups) <= collaborationGroups
    {
      ghost var p0 := State();
      results := RunAgents(execute);
      ghost var r := ExecuteAgents(Round(p0.tasks, p0.completed, p0.agents, []), |p0.agents|, execute);
      assert tasks == r.tasks && completedTasks == r.completed && Views() == r.agents && results == r.results;
      DynamicTaskPrioritization();
      ghost var mid := Pool(PrioritizeAll(r.tasks, r.completed), r.completed, r.agents);
      assert State() == mid;
      AllocateTasks(suggest, neededRole);
      ghost var q := AllocateRound(mid, suggest, neededRole);
      assert State() == q;
      AgentSpecializationEvolution(suggest);
      assert Views() == EvolveAll(q.agents, suggest) && tasks == q.tasks;
      AdaptiveSwarmSizing(neededRole);
    }

    /** get_agent_by_name: the first agent with that name, null when none has it. */
    function GetAgentByName(name: string): (r: Agent?)
      reads this, agents
      ensures r == null <==> forall i :: 0 <= i < |agents| ==> agents[i].name != name
      ensures r != null ==> exists i :: (0 <= i < |agents| && agents[i] == r && r.name == name
        && forall j :: 0 <= j < i ==> agents[j].name != name)
    {
      match IndexWhere(Views(), NameIs(name))
      case Some(i) => agents[i]
      case None => null
    }

    /** get_agent_by_role: the first agent with that role, null when none has it. */
    function GetAgentByRole(role: string): (r: Agent?)
      reads this, agents
      ensures r == null <==> forall i :: 0 <= i < |agents| ==> agents[i].role != role
      ensures r != null ==> exists i :: (0 <= i < |agents| && agents[i] == r && r.role == role
        && forall j :: 0 <= j < i ==> agents[j].role != role)
    {
      match IndexWhere(Views(), RoleIs(role))
      case Some(i) => agents[i]
      case None => null
    }

    /**
     * get_next_task_for_agent: a backlog task of the agent's role not marked
     * assigned, with the smallest base priority (the first such in list order);
     * None when there is none. Dependencies are not consulted.
     */
    function GetNextTaskForAgent(agent: Agent): (r: Option<Task>)
      reads this, agent
      ensures r.None? <==> forall j :: 0 <= j < |tasks| ==> !IsAvailableFor(tasks[j], agent.role)
      ensures r.Some? ==> (r.value in tasks && IsAvailableFor(r.value, agent.role)
        && forall j :: 0 <= j < |tasks| && IsAvailableFor(tasks[j], agent.role) ==> r.value.priority <= tasks[j].priority)
      ensures r.Some? ==> (forall j :: 0 <= j < |tasks| && IsAvailableFor(tasks[j], agent.role) && tasks[j].priority <= r.value.priority
                                  ==> r.value in tasks[..j + 1])
    {
      NextTaskFor(tasks, agent.role)
    }
  }
}
