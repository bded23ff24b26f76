/**
 * The decisions of the Swarm scheduler in ensemble/swarmify.py, stated on
 * values: the backlog, the completed log and one AgentView per agent. The
 * Swarm class (module Swarmify) performs them in place and is proved equal
 * to these functions; the lemmas here are what the scheduler promises.
 */
module Scheduling {
  import opened Common
  import opened Builtins
  import opened Tasks
  import opened Agents

  // ---------------------------------------------------------------------------
  // Matching helpers

  /** `not a.current_task and task['role'] in a.specialties` */
  predicate IsSuitable(a: AgentView, role: string) {
    a.currentTask.None? && role in a.specialties
  }

  /**
   * [a for a in agents if suitable], as positions: exactly the suitable agents,
   * in list order.
   */
  function SuitableIndices(agents: seq<AgentView>, role: string): (r: seq<nat>)
    ensures forall p :: 0 <= p < |r| ==> r[p] < |agents| && IsSuitable(agents[r[p]], role)
    ensures forall i :: 0 <= i < |agents| && IsSuitable(agents[i], role) ==> i in r
    ensures forall p, q :: 0 <= p < q < |r| ==> r[p] < r[q]
  {
    if agents == [] then []
    else
      var n := |agents| - 1;
      var s := SuitableIndices(agents[..n], role);
      if IsSuitable(agents[n], role) then s + [n] else s
  }

  function SuitableFlags(agents: seq<AgentView>, role: string): (r: seq<bool>)
    ensures |r| == |agents| && forall i :: 0 <= i < |agents| ==> r[i] == IsSuitable(agents[i], role)
  {
    seq(|agents|, i requires 0 <= i < |agents| => IsSuitable(agents[i], role))
  }

  /**
   * The load measure of the least-loaded choice. The source keys on
   * len(a.memory), an attribute agents do not have; the completed-task count
   * stands in for it.
   */
  function Loads(agents: seq<AgentView>): (r: seq<int>)
    ensures |r| == |agents| && forall i :: 0 <= i < |agents| ==> r[i] == |agents[i].completedTasks|
  {
    seq(|agents|, i requires 0 <= i < |agents| => |agents[i].completedTasks|)
  }

  function AllTrue(n: nat): (r: seq<bool>)
    ensures |r| == n && forall i :: 0 <= i < n ==> r[i]
  {
    seq(n, i => true)
  }

  // ---------------------------------------------------------------------------
  // Tasks held by agents

  /** The task an agent holds, as a list of zero or one. */
  function HeldBy(a: AgentView): seq<Task> {
    match a.currentTask
    case Some(t) => [t]
    case None => []
  }

  /** The tasks held by the agents of a list, in list order. */
  function Held(agents: seq<AgentView>): seq<Task> {
    if agents == [] then [] else HeldBy(agents[0]) + Held(agents[1..])
  }

  /** Every task an agent of the list holds is marked assigned. */
  predicate HeldAssigned(agents: seq<AgentView>) {
    forall j :: 0 <= j < |agents| && agents[j].currentTask.Some? ==> agents[j].currentTask.value.isAssigned
  }

  /**
   * The agents from position i on hold tasks that are marked assigned and are
   * distinct entries of the backlog: what the agent loop needs to keep count.
   */
  predicate ReadyFrom(agents: seq<AgentView>, tasks: seq<Task>, i: nat) {
    i <= |agents| && Ready(agents[i..], tasks)
  }

  /**
   * Every task the agents hold is marked assigned (so no idle agent takes it
   * in run_iteration) and is a distinct entry of the backlog.
   */
  predicate Ready(agents: seq<AgentView>, tasks: seq<Task>) {
    HeldAssigned(agents) && multiset(Held(agents)) <= multiset(tasks)
  }

  lemma {:induction false} ReadyFromStart(agents: seq<AgentView>, tasks: seq<Task>)
    ensures ReadyFrom(agents, tasks, 0) <==> Ready(agents, tasks)
  {
    assert agents[0..] == agents;
  }

  lemma {:induction false} HeldAppend(a: seq<AgentView>, b: seq<AgentView>)
    ensures Held(a + b) == Held(a) + Held(b)
  {
    if a != [] {
      assert (a + b)[1..] == a[1..] + b;
      HeldAppend(a[1..], b);
    } else {
      assert a + b == b;
    }
  }

  /** Held depends only on the current tasks. */
  lemma {:induction false} HeldSameTasks(a: seq<AgentView>, b: seq<AgentView>)
    requires |a| == |b| && forall j :: 0 <= j < |a| ==> a[j].currentTask == b[j].currentTask
    ensures Held(a) == Held(b)
  {
    if a != [] {
      HeldSameTasks(a[1..], b[1..]);
    }
  }

  lemma {:induction false} HeldOfIdle(a: seq<AgentView>)
    requires forall j :: 0 <= j < |a| ==> a[j].currentTask.None?
    ensures Held(a) == []
  {
    if a != [] {
      HeldOfIdle(a[1..]);
    }
  }

  lemma {:induction false} HeldSplit(a: seq<AgentView>, i: nat)
    requires i < |a|
    ensures Held(a[i..]) == HeldBy(a[i]) + Held(a[i + 1..])
  {
    assert a[i..][1..] == a[i + 1..];
  }

  /** An assigned-only list of held tasks does not contain an unassigned task. */
  lemma {:induction false} HeldExcludes(a: seq<AgentView>, t: Task)
    requires HeldAssigned(a) && !t.isAssigned
    ensures multiset(Held(a))[t] == 0
  {
    if a != [] {
      HeldExcludes(a[1..], t);
    }
  }

  /** Giving an idle agent a task adds that task to what the list holds. */
  lemma {:induction false} HeldGive(a: seq<AgentView>, j: nat, t: Task)
    requires j < |a| && a[j].currentTask.None?
    ensures multiset(Held(a[j := a[j].(currentTask := Some(t))])) == multiset(Held(a)) + multiset{t}
  {
    var b := a[j := a[j].(currentTask := Some(t))];
    var pre, post := a[..j], a[j + 1..];
    assert a == (pre + [a[j]]) + post;
    assert b == (pre + [b[j]]) + post;
    HeldAppend(pre + [a[j]], post);
    HeldAppend(pre, [a[j]]);
    HeldAppend(pre + [b[j]], post);
    HeldAppend(pre, [b[j]]);
    assert Held([a[j]]) == [] by {
      assert [a[j]][1..] == [];
    }
    assert Held([b[j]]) == [t] by {
      assert [b[j]][1..] == [];
    }
  }

  /** Dropping an agent drops at most its own task from what the list holds. */
  lemma {:induction false} HeldDrop(a: seq<AgentView>, i: nat)
    requires i < |a|
    ensures multiset(Held(a[..i] + a[i + 1..])) + multiset(HeldBy(a[i])) == multiset(Held(a))
  {
    var pre, x, post := a[..i], a[i], a[i + 1..];
    assert a == (pre + [x]) + post;
    HeldAppend(pre + [x], post);
    HeldAppend(pre, [x]);
    HeldAppend(pre, post);
    HeldSingle(x);
    var hp, hx, hq := Held(pre), HeldBy(x), Held(post);
    assert Held(a) == (hp + hx) + hq;
    assert multiset((hp + hx) + hq) == multiset(hp) + multiset(hx) + multiset(hq);
    assert multiset(hp + hq) == multiset(hp) + multiset(hq);
  }

  lemma {:induction false} HeldSingle(x: AgentView)
    ensures Held([x]) == HeldBy(x)
  {
    assert [x][1..] == [];
  }

  // ---------------------------------------------------------------------------
  // allocate_tasks

  /** The state allocate_tasks works on; groups are collaboration groups as agent positions. */
  datatype Allocation = Allocation(tasks: seq<Task>, agents: seq<AgentView>, groups: seq<seq<nat>>)

  /**
   * One visit of the allocate_tasks loop to task position k. A task already
   * marked assigned is skipped. A collaborative task goes to the first two
   * suitable agents when there are at least two (collaborative_task_solving,
   * which does not mark the task assigned); otherwise nothing happens. Any
   * other task goes to the first least-loaded suitable agent and is marked
   * assigned. Dependencies are not looked at.
   */
  function VisitTask(st: Allocation, k: nat): (r: Allocation)
    requires k < |st.tasks|
    ensures |r.tasks| == |st.tasks| && |r.agents| == |st.agents|
  {
    var t := st.tasks[k];
    if t.isAssigned then st
    else if t.collaborative then
      var s := SuitableIndices(st.agents, t.role);
      if |s| >= 2 then
        var agents := st.agents[s[0] := st.agents[s[0]].(currentTask := Some(t))];
        var agents' := agents[s[1] := agents[s[1]].(currentTask := Some(t))];
        st.(agents := agents', groups := st.groups + [[s[0], s[1]]])
      else st
    else
      match FirstMin(Loads(st.agents), SuitableFlags(st.agents, t.role))
      case None => st
      case Some(j) =>
        var t' := t.(isAssigned := true);
        st.(tasks := st.tasks[k := t'], agents := st.agents[j := st.agents[j].(currentTask := Some(t'))])
  }

  predicate ValidOrder(order: seq<nat>, n: nat) {
    forall p :: 0 <= p < |order| ==> order[p] < n
  }

  /** The allocate_tasks loop over the visiting order. */
  function AllocateInOrder(st: Allocation, order: seq<nat>): (r: Allocation)
    requires ValidOrder(order, |st.tasks|)
    ensures |r.tasks| == |st.tasks| && |r.agents| == |st.agents|
  {
    if order == [] then st
    else
      var prev := AllocateInOrder(st, order[..|order| - 1]);
      VisitTask(prev, order[|order| - 1])
  }

  /**
   * The order allocate_tasks visits the backlog in: sorted by dynamic_priority,
   * highest value first, ties in list order.
   */
  function AllocationOrder(tasks: seq<Task>): (r: seq<nat>)
    ensures ValidOrder(r, |tasks|) && |r| == |tasks|
    ensures forall i :: 0 <= i < |tasks| ==> i in r
    ensures forall p, q :: 0 <= p < q < |r| ==>
      SortKey(tasks[r[p]]) > SortKey(tasks[r[q]]) || (SortKey(tasks[r[p]]) == SortKey(tasks[r[q]]) && r[p] < r[q])
  {
    var r := DescendingOrder(SortKeys(tasks));
    assert forall p, q :: 0 <= p < q < |r| ==> Precedes(SortKeys(tasks), r[p], r[q]);
    r
  }

  /** The loop over a visiting order, one visit further. */
  lemma {:induction false} AllocateInOrderNext(st: Allocation, order: seq<nat>, p: nat)
    requires ValidOrder(order, |st.tasks|) && p < |order|
    ensures ValidOrder(order[..p], |st.tasks|) && ValidOrder(order[..p + 1], |st.tasks|)
    ensures AllocateInOrder(st, order[..p + 1]) == VisitTask(AllocateInOrder(st, order[..p]), order[p])
  {
    assert order[..p + 1][..p] == order[..p];
  }

  /**
   * A non-collaborative task not yet marked assigned is marked assigned exactly
   * when some agent is free and lists the task's role among its specialties.
   * Then the first least-loaded such agent receives it and nothing else
   * changes; otherwise nothing changes at all.
   */
  lemma {:induction false} VisitSoloTask(st: Allocation, k: nat)
    requires k < |st.tasks| && !st.tasks[k].isAssigned && !st.tasks[k].collaborative
    ensures var r := VisitTask(st, k); var t := st.tasks[k];
      && (r.tasks[k].isAssigned <==> exists i :: 0 <= i < |st.agents| && IsSuitable(st.agents[i], t.role))
      && (r.tasks[k].isAssigned ==>
            && r.tasks == st.tasks[k := t.(isAssigned := true)]
            && r.groups == st.groups
            && exists j :: IsFirstMin(Loads(st.agents), SuitableFlags(st.agents, t.role), j)
                 && r.agents == st.agents[j := st.agents[j].(currentTask := Some(r.tasks[k]))])
      && (!r.tasks[k].isAssigned ==> r == st)
  {
    var t := st.tasks[k];
    var flags := SuitableFlags(st.agents, t.role);
    var m := FirstMin(Loads(st.agents), flags);
    if m.None? {
      assert forall i :: 0 <= i < |st.agents| ==> !flags[i];
    }
  }

  /**
   * A collaborative task not yet marked assigned forms a group exactly when at
   * least two agents are free and list its role; the group is the first two
   * such agents in list order, both receive the task, and the task itself is
   * not marked assigned. With fewer than two nothing changes.
   */
  lemma {:induction false} VisitCollaborativeTask(st: Allocation, k: nat)
    requires k < |st.tasks| && !st.tasks[k].isAssigned && st.tasks[k].collaborative
    ensures var r := VisitTask(st, k); var t := st.tasks[k]; var s := SuitableIndices(st.agents, t.role);
      && r.tasks == st.tasks
      && (|s| >= 2 <==> exists i, j :: 0 <= i < j < |st.agents| && IsSuitable(st.agents[i], t.role) && IsSuitable(st.agents[j], t.role))
      && (|s| < 2 ==> r == st)
      && (|s| >= 2 ==>
            && s[0] < s[1] < |st.agents|
            && (forall i :: 0 <= i < s[1] && i != s[0] ==> !IsSuitable(st.agents[i], t.role))
            && r.groups == st.groups + [[s[0], s[1]]]
            && r.agents[s[0]] == st.agents[s[0]].(currentTask := Some(t))
            && r.agents[s[1]] == st.agents[s[1]].(currentTask := Some(t))
            && (forall i :: 0 <= i < |st.agents| && i != s[0] && i != s[1] ==> r.agents[i] == st.agents[i]))
  {
    var t := st.tasks[k];
    TwoSuitable(st.agents, t.role);
    if |SuitableIndices(st.agents, t.role)| >= 2 {
      FirstTwoSuitable(st.agents, t.role);
    }
  }

  /** No agent before the second suitable one, other than the first, is suitable. */
  lemma {:induction false} FirstTwoSuitable(agents: seq<AgentView>, role: string)
    requires |SuitableIndices(agents, role)| >= 2
    ensures var s := SuitableIndices(agents, role);
      forall i :: 0 <= i < s[1] && i != s[0] ==> !IsSuitable(agents[i], role)
  {
  }

  /** At least two positions are listed exactly when at least two agents are suitable. */
  lemma {:induction false} TwoSuitable(agents: seq<AgentView>, role: string)
    ensures var s := SuitableIndices(agents, role);
      |s| >= 2 <==> exists i, j :: 0 <= i < j < |agents| && IsSuitable(agents[i], role) && IsSuitable(agents[j], role)
  {
    var s := SuitableIndices(agents, role);
    if |s| >= 2 {
      assert IsSuitable(agents[s[0]], role) && IsSuitable(agents[s[1]], role);
    }
  }

  /** What one visit may change: `assigned` only upward, idle agents' current task only, groups only by appending. */
  predicate AllocationStep(st: Allocation, r: Allocation) {
    && |r.tasks| == |st.tasks| && |r.agents| == |st.agents|
    && (forall k :: 0 <= k < |st.tasks| ==> r.tasks[k] == st.tasks[k].(isAssigned := r.tasks[k].isAssigned))
    && (forall k :: 0 <= k < |st.tasks| && st.tasks[k].isAssigned ==> r.tasks[k].isAssigned)
    && (forall i :: 0 <= i < |st.agents| ==> r.agents[i] == st.agents[i].(currentTask := r.agents[i].currentTask))
    && (forall i :: 0 <= i < |st.agents| && st.agents[i].currentTask.Some? ==> r.agents[i] == st.agents[i])
    && st.groups <= r.groups
    && (GroupsWithin(st.groups, |st.agents|) ==> GroupsWithin(r.groups, |r.agents|))
  }

  /** Every collaboration group is a pair of distinct agent positions below n, in list order. */
  predicate GroupsWithin(groups: seq<seq<nat>>, n: nat) {
    forall q :: 0 <= q < |groups| ==> |groups[q]| == 2 && groups[q][0] < groups[q][1] < n
  }

  lemma {:induction false} VisitIsStep(st: Allocation, k: nat)
    requires k < |st.tasks|
    ensures AllocationStep(st, VisitTask(st, k))
  {
    var t := st.tasks[k];
    if !t.isAssigned && !t.collaborative {
      var m := FirstMin(Loads(st.agents), SuitableFlags(st.agents, t.role));
      if m.Some? {
        assert IsSuitable(st.agents[m.value], t.role);
      }
    }
  }

  /** A visit keeps collaboration groups within the pool. */
  lemma {:induction false} VisitKeepsGroupsWithin(st: Allocation, k: nat)
    requires k < |st.tasks| && GroupsWithin(st.groups, |st.agents|)
    ensures GroupsWithin(VisitTask(st, k).groups, |st.agents|)
  {
    VisitIsStep(st, k);
  }

  lemma {:induction false} StepTransitive(a: Allocation, b: Allocation, c: Allocation)
    requires AllocationStep(a, b) && AllocationStep(b, c)
    ensures AllocationStep(a, c)
  {
  }

  /**
   * Over the whole allocate_tasks loop: the backlog keeps its length and
   * order, only `assigned` changes and is never reset to False, agents that
   * already hold a task are left alone, the others change at most their
   * current task, and groups are only appended.
   */
  lemma {:induction false} AllocationFrame(st: Allocation, order: seq<nat>)
    requires ValidOrder(order, |st.tasks|)
    ensures AllocationStep(st, AllocateInOrder(st, order))
  {
    if order != [] {
      var prev := AllocateInOrder(st, order[..|order| - 1]);
      AllocationFrame(st, order[..|order| - 1]);
      VisitIsStep(prev, order[|order| - 1]);
      StepTransitive(st, prev, AllocateInOrder(st, order));
    }
  }

  // ---------------------------------------------------------------------------
  // allocate_tasks as the code is written

  /** An exception the code as written raises, with the line of ensemble/swarmify.py that raises it. */
  datatype Raised = AttributeError(line: nat, attribute: string) | TypeError(line: nat)

  /**
   * The exception one visit of the allocate_tasks loop raises as the code is
   * written, or None when it runs through. A collaborative task with two
   * suitable agents reaches self.collaboration_groups (line 152), which the
   * constructor never sets. A solo task with a suitable agent reaches
   * a.memory (line 233), which Agent does not define. The assign_task calls
   * after them (lines 155 and 234) name a method Agent does not define either,
   * but are never reached. A visit that runs through changes nothing, so it
   * raises exactly when the corrected VisitTask changes the state.
   */
  function VisitRaises(st: Allocation, k: nat): (r: Option<Raised>)
    requires k < |st.tasks|
    ensures r.None? <==> VisitTask(st, k) == st
  {
    var t := st.tasks[k];
    if t.isAssigned then None
    else if t.collaborative then
      if |SuitableIndices(st.agents, t.role)| >= 2 then Some(AttributeError(152, "collaboration_groups")) else None
    else
      VisitSoloTask(st, k);
      if |SuitableIndices(st.agents, t.role)| >= 1 then
        assert IsSuitable(st.agents[SuitableIndices(st.agents, t.role)[0]], t.role);
        Some(AttributeError(233, "memory"))
      else None
  }

  /**
   * The exception the allocate_tasks loop raises as written when it visits
   * the backlog in `order`: that of the first visit that raises. The visits
   * before it change nothing, so each is judged on the starting state. When
   * nothing is raised the corrected loop leaves the state as it was: every
   * assignment the corrected model makes is one where the code as written
   * raises instead.
   */
  function AllocationRaises(st: Allocation, order: seq<nat>): (r: Option<Raised>)
    requires ValidOrder(order, |st.tasks|)
    ensures r.None? ==> AllocateInOrder(st, order) == st
    ensures r.Some? ==> exists p :: 0 <= p < |order| && VisitRaises(st, order[p]) == r
  {
    if order == [] then None
    else
      var prefix := order[..|order| - 1];
      match AllocationRaises(st, prefix)
      case Some(e) =>
        assert forall p :: 0 <= p < |prefix| ==> prefix[p] == order[p];
        Some(e)
      case None => VisitRaises(st, order[|order| - 1])
  }

  /**
   * One idle agent listing "dev" and one unassigned solo "dev" task: as
   * written the loop raises AttributeError at line 233, where the corrected
   * loop hands the task, marked assigned, to the agent.
   */
  lemma {:induction false} AllocationRaisesOnSoloTask()
    ensures var t := Task("1", "build", "dev", 1, [], false, None, false);
      var st := Allocation([t], [AgentView("A", "dev", ["dev"], None, [], false)], []);
      && AllocationRaises(st, [0]) == Some(AttributeError(233, "memory"))
      && AllocateInOrder(st, [0]).agents[0].currentTask == Some(t.(isAssigned := true))
  {
    var t := Task("1", "build", "dev", 1, [], false, None, false);
    var st := Allocation([t], [AgentView("A", "dev", ["dev"], None, [], false)], []);
    assert [0][..0] == [];
    assert AllocationRaises(st, [0]) == VisitRaises(st, 0);
    assert IsSuitable(st.agents[0], "dev");
    assert 0 in SuitableIndices(st.agents, "dev");
    assert AllocateInOrder(st, [0]) == VisitTask(st, 0);
    var m := FirstMin(Loads(st.agents), SuitableFlags(st.agents, "dev"));
    assert SuitableFlags(st.agents, "dev")[0];
    assert m == Some(0);
  }

  /**
   * Two idle agents listing "dev" and one collaborative "dev" task: as
   * written the loop raises AttributeError at line 152, where the corrected
   * loop forms the group of both agents.
   */
  lemma {:induction false} AllocationRaisesOnSharedTask()
    ensures var t := Task("1", "build", "dev", 1, [], false, None, true);
      var a := AgentView("A", "dev", ["dev"], None, [], false);
      var b := AgentView("B", "dev", ["dev"], None, [], false);
      var st := Allocation([t], [a, b], []);
      && AllocationRaises(st, [0]) == Some(AttributeError(152, "collaboration_groups"))
      && AllocateInOrder(st, [0]).groups == [[0, 1]]
  {
    var t := Task("1", "build", "dev", 1, [], false, None, true);
    var a := AgentView("A", "dev", ["dev"], None, [], false);
    var b := AgentView("B", "dev", ["dev"], None, [], false);
    var st := Allocation([t], [a, b], []);
    assert [0][..0] == [];
    assert [a, b][..1] == [a];
    assert SuitableIndices([a], "dev") == [0];
    assert SuitableIndices(st.agents, "dev") == [0, 1];
  }

  predicate NoCollaborative(tasks: seq<Task>) {
    forall k :: 0 <= k < |tasks| ==> !tasks[k].collaborative
  }

  lemma {:induction false} MultisetOfUpdate(s: seq<Task>, k: nat, v: Task)
    requires k < |s|
    ensures multiset(s[k := v]) + multiset{s[k]} == multiset(s) + multiset{v}
  {
    assert s == s[..k] + [s[k]] + s[k + 1..];
    assert s[k := v] == s[..k] + [v] + s[k + 1..];
  }

  /** Replacing one copy of t by t' in the backlog makes room for t' in h when h holds no t. */
  lemma {:induction false} SubmultisetAfterReplace(h: multiset<Task>, tasks: multiset<Task>, replaced: multiset<Task>, t: Task, t': Task)
    requires h <= tasks && h[t] < tasks[t] && t != t'
    requires replaced + multiset{t} == tasks + multiset{t'}
    ensures h + multiset{t'} <= replaced
  {
    forall x ensures (h + multiset{t'})[x] <= replaced[x] {
      assert (replaced + multiset{t})[x] == (tasks + multiset{t'})[x];
      assert (replaced + multiset{t})[x] == replaced[x] + multiset{t}[x];
      assert (tasks + multiset{t'})[x] == tasks[x] + multiset{t'}[x];
      assert h[x] <= tasks[x];
    }
  }

  /**
   * A solo assignment keeps the agents ready: the agent receives the very
   * record that replaces the task in the backlog, marked assigned.
   */
  lemma {:induction false} VisitKeepsReady(st: Allocation, k: nat)
    requires k < |st.tasks| && !st.tasks[k].collaborative && Ready(st.agents, st.tasks)
    ensures var r := VisitTask(st, k); Ready(r.agents, r.tasks)
  {
    var t := st.tasks[k];
    if !t.isAssigned {
      var m := FirstMin(Loads(st.agents), SuitableFlags(st.agents, t.role));
      if m.Some? {
        var j := m.value;
        var t' := t.(isAssigned := true);
        var r := VisitTask(st, k);
        assert IsSuitable(st.agents[j], t.role);
        assert r.agents == st.agents[j := st.agents[j].(currentTask := Some(t'))];
        assert r.tasks == st.tasks[k := t'];
        HeldGive(st.agents, j, t');
        HeldExcludes(st.agents, t);
        MultisetOfUpdate(st.tasks, k, t');
        assert t in multiset(st.tasks);
        SubmultisetAfterReplace(multiset(Held(st.agents)), multiset(st.tasks), multiset(r.tasks), t, t');
      }
    }
  }

  /**
   * Without collaborative tasks the allocate_tasks loop keeps the agents
   * ready: every task an agent holds afterwards is a distinct backlog entry
   * marked assigned.
   */
  lemma {:induction false} AllocationKeepsReady(st: Allocation, order: seq<nat>)
    requires ValidOrder(order, |st.tasks|) && NoCollaborative(st.tasks) && Ready(st.agents, st.tasks)
    ensures var r := AllocateInOrder(st, order);
      NoCollaborative(r.tasks) && Ready(r.agents, r.tasks)
  {
    if order != [] {
      var prev := AllocateInOrder(st, order[..|order| - 1]);
      AllocationKeepsReady(st, order[..|order| - 1]);
      VisitKeepsReady(prev, order[|order| - 1]);
      VisitIsStep(prev, order[|order| - 1]);
      var r := AllocateInOrder(st, order);
      forall k | 0 <= k < |r.tasks| ensures !r.tasks[k].collaborative {
        assert r.tasks[k].collaborative == prev.tasks[k].collaborative;
      }
    }
  }

  // ---------------------------------------------------------------------------
  // run_iteration: the agent loop

  /** The state run_iteration's agent loop works on, with the results it collects. */
  datatype Round = Round(tasks: seq<Task>, completed: seq<Task>, agents: seq<AgentView>, results: seq<string>)

  /** The task agent i works on this round: the one it holds, or else get_next_task_for_agent's choice. */
  function HeldOrNext(st: Round, i: nat): (r: Option<Task>)
    requires i < |st.agents|
    ensures st.agents[i].currentTask.None? && r.Some? ==> r.value in st.tasks
  {
    if st.agents[i].currentTask.Some? then st.agents[i].currentTask
    else NextTaskFor(st.tasks, st.agents[i].role)
  }

  /**
   * One pass of the run_iteration loop body for agent i. `execute` is the
   * language model's answer to the task prompt (None when execute_task
   * raises). On success the agent records the task, the result is kept, the
   * task is appended to the completed log and removed from the backlog (a
   * ValueError from list.remove, when it is no longer there, is caught and
   * leaves the backlog as it was). In every case the agent ends idle.
   */
  function ExecuteAgent(st: Round, i: nat, execute: (string, Task) -> Option<string>): (r: Round)
    ensures |r.agents| == |st.agents|
  {
    if i >= |st.agents| then st
    else
    var a := st.agents[i];
    match HeldOrNext(st, i)
    case None => st
    case Some(t) =>
      match execute(a.name, t)
      case None => st.(agents := st.agents[i := a.(currentTask := None)])
      case Some(response) =>
        st.(tasks := RemoveFirst(st.tasks, t),
            completed := st.completed + [t],
            results := st.results + [response],
            agents := st.agents[i := a.(currentTask := None, completedTasks := a.completedTasks + [t])])
  }

  /** The loop body of run_iteration for a given model oracle. */
  function AgentStep(execute: (string, Task) -> Option<string>): (Round, nat) -> Round {
    (s: Round, i: nat) => ExecuteAgent(s, i, execute)
  }

  /** The first n passes of the agent loop. */
  function ExecuteAgents(st: Round, n: nat, execute: (string, Task) -> Option<string>): (r: Round)
    ensures |r.agents| == |st.agents|
  {
    LoopKeepsPoolSize(AgentStep(execute), st, n);
    Loop(AgentStep(execute), st, n)
  }

  /** The agent loop, one pass further. */
  lemma {:induction false} ExecuteAgentsNext(st: Round, n: nat, execute: (string, Task) -> Option<string>)
    ensures ExecuteAgents(st, n + 1, execute) == ExecuteAgent(ExecuteAgents(st, n, execute), n, execute)
  {
  }

  /**
   * The pass for one agent, by outcome. With no task nothing changes. When
   * execution raises, the backlog, the completed log, the results and the
   * agent's own completed list stay as they were. When it returns, its answer
   * is appended to the results and the task to both completed lists; the task
   * leaves the backlog once if it is still there, and the backlog is kept when
   * it is not (the caught ValueError).
   */
  lemma {:induction false} ExecuteAgentMoves(st: Round, i: nat, execute: (string, Task) -> Option<string>)
    requires i < |st.agents|
    ensures var r := ExecuteAgent(st, i, execute); var a := st.agents[i];
      && (HeldOrNext(st, i).None? ==> r == st)
      && (HeldOrNext(st, i).Some? && execute(a.name, HeldOrNext(st, i).value).None? ==>
            && r.tasks == st.tasks && r.completed == st.completed && r.results == st.results
            && r.agents[i].completedTasks == a.completedTasks)
      && (HeldOrNext(st, i).Some? && execute(a.name, HeldOrNext(st, i).value).Some? ==>
            && r.results == st.results + [execute(a.name, HeldOrNext(st, i).value).value]
            && r.completed == st.completed + [HeldOrNext(st, i).value]
            && r.agents[i].completedTasks == a.completedTasks + [HeldOrNext(st, i).value]
            && (HeldOrNext(st, i).value in st.tasks ==>
                  multiset(r.tasks) + multiset{HeldOrNext(st, i).value} == multiset(st.tasks))
            && (HeldOrNext(st, i).value !in st.tasks ==> r.tasks == st.tasks))
  {
  }

  /** The pass for agent i leaves it idle and every other agent as it was. */
  lemma {:induction false} ExecuteAgentIdles(st: Round, i: nat, execute: (string, Task) -> Option<string>)
    requires i < |st.agents|
    ensures var r := ExecuteAgent(st, i, execute);
      && r.agents[i].currentTask.None?
      && forall j :: 0 <= j < |st.agents| && j != i ==> r.agents[j] == st.agents[j]
  {
  }

  /** Recording the task the agent will work on before the pass changes nothing about the pass. */
  lemma {:induction false} ExecuteAfterPickUp(st: Round, i: nat, execute: (string, Task) -> Option<string>)
    requires i < |st.agents|
    ensures var st' := st.(agents := st.agents[i := st.agents[i].(currentTask := HeldOrNext(st, i))]);
      HeldOrNext(st', i) == HeldOrNext(st, i) && ExecuteAgent(st', i, execute) == ExecuteAgent(st, i, execute)
  {
    var st' := st.(agents := st.agents[i := st.agents[i].(currentTask := HeldOrNext(st, i))]);
    assert HeldOrNext(st', i) == HeldOrNext(st, i);
    if HeldOrNext(st, i).None? {
      assert st'.agents == st.agents;
    }
  }

  /** What the agent loop may change: each agent only its current task and completed list; the logs only grow, together. */
  predicate RoundStep(st: Round, r: Round) {
    && |r.agents| == |st.agents|
    && (forall i :: 0 <= i < |st.agents| ==>
          r.agents[i] == st.agents[i].(currentTask := r.agents[i].currentTask, completedTasks := r.agents[i].completedTasks))
    && st.completed <= r.completed && st.results <= r.results
    && |r.results| - |st.results| == |r.completed| - |st.completed|
    && multiset(r.tasks) <= multiset(st.tasks)
  }

  lemma {:induction false} ExecuteAgentIsStep(st: Round, i: nat, execute: (string, Task) -> Option<string>)
    requires i < |st.agents|
    ensures RoundStep(st, ExecuteAgent(st, i, execute))
  {
    ExecuteAgentMoves(st, i, execute);
    ExecuteAgentIdles(st, i, execute);
  }

  lemma {:induction false} RoundStepTransitive(a: Round, b: Round, c: Round)
    requires RoundStep(a, b) && RoundStep(b, c)
    ensures RoundStep(a, c)
  {
  }

  /** Agent i is passed: it ends idle and no other agent changes. */
  predicate PassesAgent(st: Round, r: Round, i: nat) {
    && |r.agents| == |st.agents| && i < |st.agents|
    && r.agents[i].currentTask.None?
    && forall j :: 0 <= j < |st.agents| && j != i ==> r.agents[j] == st.agents[j]
  }

  /** Backlog and completed log hold the same tasks together. */
  predicate Conserved(st: Round, r: Round) {
    multiset(r.tasks) + multiset(r.completed) == multiset(st.tasks) + multiset(st.completed)
  }

  /** The agent loop with its body abstracted: `step` applied to agents 0, 1, ..., n - 1 in turn. */
  function Loop(step: (Round, nat) -> Round, st: Round, n: nat): Round {
    if n == 0 then st else step(Loop(step, st, n - 1), n - 1)
  }

  /** A loop whose body neither adds nor removes agents does not either. */
  lemma {:induction false} LoopKeepsPoolSize(step: (Round, nat) -> Round, st: Round, n: nat)
    requires forall s: Round, i: nat :: |step(s, i).agents| == |s.agents|
    ensures |Loop(step, st, n).agents| == |st.agents|
  {
    if n > 0 {
      LoopKeepsPoolSize(step, st, n - 1);
    }
  }

  /** A loop whose body keeps RoundStep keeps it over any number of passes. */
  lemma {:induction false} LoopIsStep(step: (Round, nat) -> Round, st: Round, n: nat)
    requires forall s: Round, i: nat :: i < |s.agents| ==> RoundStep(s, step(s, i))
    requires n <= |st.agents|
    ensures RoundStep(st, Loop(step, st, n))
  {
    if n > 0 {
      LoopIsStep(step, st, n - 1);
      var prev := Loop(step, st, n - 1);
      RoundStepTransitive(st, prev, step(prev, n - 1));
    }
  }

  /**
   * A loop whose body passes its agent, and keeps count from a ready state,
   * keeps count overall.
   */
  lemma {:induction false} LoopConserves(step: (Round, nat) -> Round, st: Round, n: nat)
    requires forall s: Round, i: nat :: i < |s.agents| ==> PassesAgent(s, step(s, i), i)
    requires forall s: Round, i: nat :: i < |s.agents| && ReadyFrom(s.agents, s.tasks, i) ==>
      Conserved(s, step(s, i)) && ReadyFrom(step(s, i).agents, step(s, i).tasks, i + 1)
    requires n <= |st.agents| && ReadyFrom(st.agents, st.tasks, 0)
    ensures |Loop(step, st, n).agents| == |st.agents|
    ensures Conserved(st, Loop(step, st, n)) && ReadyFrom(Loop(step, st, n).agents, Loop(step, st, n).tasks, n)
  {
    LoopIdle(step, st, n);
    if n > 0 {
      LoopConserves(step, st, n - 1);
      var prev := Loop(step, st, n - 1);
      assert Conserved(prev, step(prev, n - 1));
    }
  }

  /** The pass for one agent, as the loop body. */
  lemma {:induction false} ExecuteAgentPasses(s: Round, i: nat, execute: (string, Task) -> Option<string>)
    requires i < |s.agents|
    ensures RoundStep(s, ExecuteAgent(s, i, execute)) && PassesAgent(s, ExecuteAgent(s, i, execute), i)
  {
    ExecuteAgentIsStep(s, i, execute);
    ExecuteAgentIdles(s, i, execute);
  }

  /** A loop whose body passes its agent leaves the agents reached idle and the others untouched. */
  lemma {:induction false} LoopIdle(step: (Round, nat) -> Round, st: Round, n: nat)
    requires forall s: Round, i: nat :: i < |s.agents| ==> PassesAgent(s, step(s, i), i)
    requires n <= |st.agents|
    ensures var r := Loop(step, st, n);
      && |r.agents| == |st.agents|
      && (forall i :: 0 <= i < n ==> r.agents[i].currentTask.None?)
      && (forall i :: n <= i < |st.agents| ==> r.agents[i] == st.agents[i])
  {
    if n > 0 {
      LoopIdle(step, st, n - 1);
      var prev := Loop(step, st, n - 1);
      assert PassesAgent(prev, step(prev, n - 1), n - 1);
    }
  }

  /** After the agent loop has passed agent i that agent holds no task; agents not yet reached are untouched. */
  lemma {:induction false} ExecuteAgentsIdle(st: Round, n: nat, execute: (string, Task) -> Option<string>)
    requires n <= |st.agents|
    ensures var r := ExecuteAgents(st, n, execute);
      && |r.agents| == |st.agents|
      && (forall i :: 0 <= i < n ==> r.agents[i].currentTask.None?)
      && (forall i :: n <= i < |st.agents| ==> r.agents[i] == st.agents[i])
  {
    var step := AgentStep(execute);
    forall s: Round, i: nat | i < |s.agents| ensures PassesAgent(s, step(s, i), i) {
      ExecuteAgentPasses(s, i, execute);
    }
    LoopIdle(step, st, n);
  }

  /**
   * Over the agent loop agents change only their current task and completed
   * list, and the completed log and the results grow together.
   */
  lemma {:induction false} ExecuteAgentsFrame(st: Round, n: nat, execute: (string, Task) -> Option<string>)
    requires n <= |st.agents|
    ensures RoundStep(st, ExecuteAgents(st, n, execute))
  {
    var step := AgentStep(execute);
    forall s: Round, i: nat | i < |s.agents| ensures RoundStep(s, step(s, i)) {
      ExecuteAgentPasses(s, i, execute);
    }
    LoopIsStep(step, st, n);
  }

  /** The agents after position i keep the readiness conditions, minus agent i's own task. */
  lemma {:induction false} ReadyRest(agents: seq<AgentView>, tasks: seq<Task>, i: nat)
    requires i < |agents| && ReadyFrom(agents, tasks, i)
    ensures HeldAssigned(agents[i + 1..])
    ensures multiset(Held(agents[i..])) == multiset(HeldBy(agents[i])) + multiset(Held(agents[i + 1..]))
  {
    HeldSplit(agents, i);
    var rest := agents[i + 1..];
    forall j | 0 <= j < |rest| && rest[j].currentTask.Some?
      ensures rest[j].currentTask.value.isAssigned
    {
      assert rest[j] == agents[i..][j + 1];
    }
  }

  /** Removing one copy of t from T keeps H below it when H has fewer copies of t than T. */
  lemma {:induction false} SubmultisetAfterRemove(h: multiset<Task>, tasks: multiset<Task>, remaining: multiset<Task>, t: Task)
    requires h <= tasks && h[t] < tasks[t] && remaining + multiset{t} == tasks
    ensures h <= remaining
  {
    forall x ensures h[x] <= remaining[x] {
      if x != t {
        assert remaining[x] == tasks[x];
      }
    }
  }

  /**
   * The count argument for one pass, on the facts ExecuteAgentMoves gives: an
   * agent holding a task finds it in the backlog (it is a distinct entry); an
   * idle agent takes an unassigned task, which no later agent holds.
   */
  lemma {:induction false} ReadyAfterPass(s: Round, r: Round, i: nat, t: Task)
    requires i < |s.agents| && ReadyFrom(s.agents, s.tasks, i)
    requires |r.agents| == |s.agents| && r.agents[i + 1..] == s.agents[i + 1..]
    requires s.agents[i].currentTask.Some? ==> s.agents[i].currentTask == Some(t)
    requires s.agents[i].currentTask.None? ==> t in s.tasks && !t.isAssigned
    requires t in s.tasks ==>
      || (r.tasks == s.tasks && r.completed == s.completed)
      || (r.completed == s.completed + [t] && multiset(r.tasks) + multiset{t} == multiset(s.tasks))
    ensures Conserved(s, r) && ReadyFrom(r.agents, r.tasks, i + 1)
  {
    ReadyRest(s.agents, s.tasks, i);
    var h := multiset(Held(s.agents[i + 1..]));
    if s.agents[i].currentTask.Some? {
      assert HeldBy(s.agents[i]) == [t];
      assert h + multiset{t} <= multiset(s.tasks);
    } else {
      HeldExcludes(s.agents[i + 1..], t);
      assert h <= multiset(s.tasks);
    }
    assert t in s.tasks;
    if r.tasks != s.tasks || r.completed != s.completed {
      SubmultisetAfterRemove(h, multiset(s.tasks), multiset(r.tasks), t);
    }
  }

  /** One pass from a ready state keeps count and leaves the next agent ready. */
  lemma {:induction false} ExecuteAgentKeepsReady(s: Round, i: nat, execute: (string, Task) -> Option<string>)
    requires i < |s.agents| && ReadyFrom(s.agents, s.tasks, i)
    ensures var r := ExecuteAgent(s, i, execute);
      Conserved(s, r) && ReadyFrom(r.agents, r.tasks, i + 1)
  {
    var r := ExecuteAgent(s, i, execute);
    ExecuteAgentIdles(s, i, execute);
    ExecuteAgentMoves(s, i, execute);
    assert r.agents[i + 1..] == s.agents[i + 1..];
    match HeldOrNext(s, i)
    case None =>
      assert r == s;
      HeldSplit(s.agents, i);
    case Some(t) =>
      ReadyAfterPass(s, r, i, t);
  }

  /**
   * From a ready state (in particular, when no agent holds a task) each
   * success moves one copy of a task from the backlog to the completed log:
   * together they hold the same tasks as before, and len(tasks) +
   * len(completed_tasks) is unchanged.
   */
  lemma {:induction false} ExecuteAgentsConserves(st: Round, n: nat, execute: (string, Task) -> Option<string>)
    requires n <= |st.agents| && ReadyFrom(st.agents, st.tasks, 0)
    ensures var r := ExecuteAgents(st, n, execute);
      && multiset(r.tasks) + multiset(r.completed) == multiset(st.tasks) + multiset(st.completed)
      && |r.tasks| + |r.completed| == |st.tasks| + |st.completed|
  {
    AgentStepPasses(execute);
    AgentStepKeepsReady(execute);
    LoopConserves(AgentStep(execute), st, n);
    var r := ExecuteAgents(st, n, execute);
    assert |multiset(r.tasks) + multiset(r.completed)| == |r.tasks| + |r.completed|;
    assert |multiset(st.tasks) + multiset(st.completed)| == |st.tasks| + |st.completed|;
  }

  /** The loop body passes its agent, for every state and position. */
  lemma {:induction false} AgentStepPasses(execute: (string, Task) -> Option<string>)
    ensures forall s: Round, i: nat :: i < |s.agents| ==> PassesAgent(s, AgentStep(execute)(s, i), i)
  {
    forall s: Round, i: nat | i < |s.agents| ensures PassesAgent(s, AgentStep(execute)(s, i), i) {
      ExecuteAgentPasses(s, i, execute);
    }
  }

  /** The loop body keeps count from a ready state, for every state and position. */
  lemma {:induction false} AgentStepKeepsReady(execute: (string, Task) -> Option<string>)
    ensures forall s: Round, i: nat :: i < |s.agents| && ReadyFrom(s.agents, s.tasks, i) ==>
      Conserved(s, AgentStep(execute)(s, i)) && ReadyFrom(AgentStep(execute)(s, i).agents, AgentStep(execute)(s, i).tasks, i + 1)
  {
    forall s: Round, i: nat | i < |s.agents| && ReadyFrom(s.agents, s.tasks, i)
      ensures Conserved(s, AgentStep(execute)(s, i))
      ensures ReadyFrom(AgentStep(execute)(s, i).agents, AgentStep(execute)(s, i).tasks, i + 1)
    {
      ExecuteAgentKeepsReady(s, i, execute);
    }
  }

  /** With no agent holding a task the loop starts ready. */
  lemma {:induction false} IdleIsReady(agents: seq<AgentView>, tasks: seq<Task>)
    requires forall j :: 0 <= j < |agents| ==> agents[j].currentTask.None?
    ensures ReadyFrom(agents, tasks, 0)
  {
    ReadyFromStart(agents, tasks);
    HeldOfIdle(agents);
  }

  /**
   * Two agents holding the same collaborative task (as allocate_tasks leaves a
   * group) both execute it: the completed log receives it twice while the
   * backlog loses it once, so len(tasks) + len(completed_tasks) grows by one.
   */
  lemma {:induction false} SharedTaskCompletedTwice(st: Round, t: Task, execute: (string, Task) -> Option<string>)
    requires |st.agents| == 2
    requires st.agents[0].currentTask == Some(t) && st.agents[1].currentTask == Some(t)
    requires multiset(st.tasks)[t] == 1
    requires execute(st.agents[0].name, t).Some? && execute(st.agents[1].name, t).Some?
    ensures var r := ExecuteAgents(st, 2, execute);
      && r.completed == st.completed + [t, t]
      && |r.tasks| + |r.completed| == |st.tasks| + |st.completed| + 1
  {
    var r1 := ExecuteAgents(st, 1, execute);
    assert ExecuteAgents(st, 0, execute) == st;
    assert HeldOrNext(st, 0) == Some(t);
    assert r1.completed == st.completed + [t];
    assert multiset(r1.tasks) + multiset{t} == multiset(st.tasks);
    assert multiset(r1.tasks)[t] == 0;
    assert t !in r1.tasks;
    assert HeldOrNext(r1, 1) == Some(t);
    var r2 := ExecuteAgents(st, 2, execute);
    assert r2.tasks == r1.tasks;
    assert r2.completed == st.completed + [t] + [t];
  }

  // ---------------------------------------------------------------------------
  // adaptive_swarm_sizing

  /** create_new_agent's name: "Agent_" followed by the pool size plus one. */
  function NewAgentName(poolSize: nat): (r: string)
    ensures |r| > 6 && r[..6] == "Agent_" && forall k :: 6 <= k < |r| ==> IsDigit(r[k])
    ensures DigitsValue(r[6..]) == poolSize + 1
  {
    var r := "Agent_" + IntToString(poolSize + 1);
    assert r[6..] == NatToString(poolSize + 1);
    DigitsValueOfNatToString(poolSize + 1);
    r
  }

  /** The agent create_new_agent builds: the needed role (a model answer), no specialties. */
  function NewAgentView(poolSize: nat, role: string): AgentView {
    AgentView(NewAgentName(poolSize), role, [], None, [], false)
  }

  /**
   * select_agent_to_remove: min(agents, key=len(completed_tasks)), the first
   * agent with the fewest completed tasks. Busy agents are candidates too.
   */
  function SelectToRemove(agents: seq<AgentView>): (r: nat)
    requires |agents| > 0
    ensures r < |agents| && IsFirstMin(Loads(agents), AllTrue(|agents|), r)
  {
    FirstMin(Loads(agents), AllTrue(|agents|)).value
  }

  /** The pool after adaptive_swarm_sizing with `workload` backlog tasks and the role a model answer proposes. */
  function Resized(agents: seq<AgentView>, workload: nat, role: string): (r: seq<AgentView>)
    ensures |r| == |agents| + 1 || |r| == |agents| || |r| == |agents| - 1
    ensures forall v :: v in r ==> v in agents || v == NewAgentView(|agents|, role)
  {
    if workload > 2 * |agents| then agents + [NewAgentView(|agents|, role)]
    else if workload < |agents| / 2 then
      var i := SelectToRemove(agents);
      assert agents == agents[..i] + [agents[i]] + agents[i + 1..];
      agents[..i] + agents[i + 1..]
    else agents
  }

  /**
   * Pool sizing does exactly one of three things: adds one agent when there
   * are more than twice as many tasks as agents; otherwise removes the first
   * least-loaded agent when there are fewer tasks than half the agents (which
   * needs at least two agents); otherwise leaves the pool alone. A non-empty
   * pool never becomes empty.
   */
  lemma {:induction false} SizingCases(agents: seq<AgentView>, workload: nat, role: string)
    ensures var r := Resized(agents, workload, role);
      && (workload > 2 * |agents| ==> r == agents + [NewAgentView(|agents|, role)])
      && (workload <= 2 * |agents| && workload < |agents| / 2 ==>
            && |agents| >= 2 && |r| == |agents| - 1
            && exists i :: 0 <= i < |agents| && IsFirstMin(Loads(agents), AllTrue(|agents|), i)
                 && r == agents[..i] + agents[i + 1..])
      && (workload <= 2 * |agents| && workload >= |agents| / 2 ==> r == agents)
      && (|agents| >= 1 ==> |r| >= 1)
  {
    if workload <= 2 * |agents| && workload < |agents| / 2 {
      var i := SelectToRemove(agents);
      assert Resized(agents, workload, role) == agents[..i] + agents[i + 1..];
    }
  }

  /** The least-loaded agent is removed even while it holds a task. */
  lemma {:induction false} SizingMayRemoveBusyAgent(t: Task)
    ensures var busy := AgentView("A", "dev", [], Some(t), [], false);
      var idle := AgentView("B", "dev", [], None, [t], false);
      Resized([busy, idle], 0, "ops") == [idle]
  {
    var busy := AgentView("A", "dev", [], Some(t), [], false);
    var idle := AgentView("B", "dev", [], None, [t], false);
    assert Loads([busy, idle])[0] == 0 && Loads([busy, idle])[1] == 1;
    assert SelectToRemove([busy, idle]) == 0;
  }

  /**
   * Names are not unique: after Agent_1 of [Agent_1, Agent_2, Agent_3] is
   * removed, the next agent created is named Agent_3 again.
   */
  lemma {:induction false} NewAgentNameMayRepeat(agents: seq<AgentView>, role: string)
    requires |agents| == 2 && agents[1].name == "Agent_3"
    ensures var r := Resized(agents, 5, role);
      |r| == 3 && r[2].name == r[1].name
  {
    assert NatToString(3) == "3";
  }

  /**
   * adaptive_swarm_sizing as the code is written: the growth branch creates
   * the agent (asking the model for `role`) and then calls add_agent without
   * its task_description argument (line 198), which raises TypeError. The
   * other branches run through. So it raises exactly when the corrected
   * Resized grows the pool, and as written the pool never grows.
   */
  function SizingRaises(agents: seq<AgentView>, workload: nat, role: string): (r: Option<Raised>)
    ensures r.None? <==> |Resized(agents, workload, role)| <= |agents|
  {
    if workload > 2 * |agents| then Some(TypeError(198)) else None
  }

  // ---------------------------------------------------------------------------
  // agent_specialization_evolution

  /**
   * One agent's update: an agent with completed tasks gains the suggested
   * specialty (a model answer) when it is non-empty and not already listed.
   */
  function Evolved(a: AgentView, suggestion: string): (r: AgentView)
    ensures r == a.(specialties := r.specialties)
    ensures a.specialties <= r.specialties && |r.specialties| <= |a.specialties| + 1
  {
    if a.completedTasks != [] && suggestion != "" && suggestion !in a.specialties
    then a.(specialties := a.specialties + [suggestion])
    else a
  }

  predicate NoDuplicates(xs: seq<string>) {
    forall p, q :: 0 <= p < q < |xs| ==> xs[p] != xs[q]
  }

  /**
   * Specialties only grow, by appending, by at most one entry, never by a
   * duplicate; after the update an agent with completed tasks lists every
   * non-empty suggestion.
   */
  lemma {:induction false} EvolvedAppendsIfNew(a: AgentView, suggestion: string)
    ensures var r := Evolved(a, suggestion);
      && r == a.(specialties := r.specialties)
      && a.specialties <= r.specialties && |r.specialties| <= |a.specialties| + 1
      && (NoDuplicates(a.specialties) ==> NoDuplicates(r.specialties))
      && (a.completedTasks != [] && suggestion != "" ==> suggestion in r.specialties)
      && (a.completedTasks == [] ==> r == a)
  {
  }

  // ---------------------------------------------------------------------------
  // get_agent_by_name, get_agent_by_role

  /** The first position whose flag is set. */
  function FirstMatch(flags: seq<bool>): (r: Option<nat>)
    ensures r.None? <==> forall i :: 0 <= i < |flags| ==> !flags[i]
    ensures r.Some? ==> r.value < |flags| && flags[r.value] && forall i :: 0 <= i < r.value ==> !flags[i]
  {
    if flags == [] then None
    else if flags[0] then Some(0)
    else match FirstMatch(flags[1..])
      case None => None
      case Some(i) => Some(i + 1)
  }

  /** Which agents satisfy p, position by position. */
  function Flags(agents: seq<AgentView>, p: AgentView -> bool): (r: seq<bool>)
    ensures |r| == |agents| && forall i :: 0 <= i < |agents| ==> r[i] == p(agents[i])
  {
    seq(|agents|, i requires 0 <= i < |agents| => p(agents[i]))
  }

  /** get_agent_by_name's test. */
  function NameIs(name: string): AgentView -> bool {
    (a: AgentView) => a.name == name
  }

  /** get_agent_by_role's test. */
  function RoleIs(role: string): AgentView -> bool {
    (a: AgentView) => a.role == role
  }

  /**
   * get_agent_by_name and get_agent_by_role: the position of the first agent
   * passing the test (NameIs or RoleIs); None when no agent passes it.
   */
  function IndexWhere(agents: seq<AgentView>, p: AgentView -> bool): (r: Option<nat>)
    ensures r.None? <==> forall i :: 0 <= i < |agents| ==> !p(agents[i])
    ensures r.Some? ==> r.value < |agents| && p(agents[r.value]) && forall i :: 0 <= i < r.value ==> !p(agents[i])
  {
    FirstMatch(Flags(agents, p))
  }

  // ---------------------------------------------------------------------------
  // allocate_tasks and run_iteration as a whole

  /** The backlog, the completed log and the agents: the part of a Swarm the scheduler reads and changes. */
  datatype Pool = Pool(tasks: seq<Task>, completed: seq<Task>, agents: seq<AgentView>)

  /** agent_specialization_evolution; `suggest` is the model's answer for an agent. */
  function EvolveAll(agents: seq<AgentView>, suggest: AgentView -> string): (r: seq<AgentView>)
    ensures |r| == |agents| && forall i :: 0 <= i < |agents| ==> r[i] == Evolved(agents[i], suggest(agents[i]))
  {
    seq(|agents|, i requires 0 <= i < |agents| => Evolved(agents[i], suggest(agents[i])))
  }

  /** dynamic_task_prioritization followed by the assignment loop of allocate_tasks. */
  function AssignRound(tasks: seq<Task>, completed: seq<Task>, agents: seq<AgentView>): (r: Allocation)
    ensures |r.tasks| == |tasks| && |r.agents| == |agents|
  {
    var prioritized := PrioritizeAll(tasks, completed);
    AllocateInOrder(Allocation(prioritized, agents, []), AllocationOrder(prioritized))
  }

  /**
   * allocate_tasks: re-prioritise, assign, evolve specialties, resize the
   * pool. `suggest` and `role` are the model's answers.
   */
  function AllocateRound(p: Pool, suggest: AgentView -> string, role: string): (r: Pool)
    ensures |r.tasks| == |p.tasks| && r.completed == p.completed
  {
    var a := AssignRound(p.tasks, p.completed, p.agents);
    Pool(a.tasks, p.completed, Resized(EvolveAll(a.agents, suggest), |a.tasks|, role))
  }

  /**
   * run_iteration: the agent loop, dynamic_task_prioritization,
   * allocate_tasks, then evolution and sizing once more. Gives the new pool
   * and the list of results.
   */
  function Iteration(p: Pool, execute: (string, Task) -> Option<string>, suggest: AgentView -> string, role: string)
    : (res: (Pool, seq<string>))
    ensures p.completed <= res.0.completed
    ensures |res.1| == |res.0.completed| - |p.completed|
  {
    var r := ExecuteAgents(Round(p.tasks, p.completed, p.agents, []), |p.agents|, execute);
    ExecuteAgentsFrame(Round(p.tasks, p.completed, p.agents, []), |p.agents|, execute);
    var q := AllocateRound(Pool(PrioritizeAll(r.tasks, r.completed), r.completed, r.agents), suggest, role);
    (Pool(q.tasks, q.completed, Resized(EvolveAll(q.agents, suggest), |q.tasks|, role)), r.results)
  }

  /** Evolution touches only specialties, so what the agents hold is unchanged. */
  lemma {:induction false} EvolveKeepsReady(agents: seq<AgentView>, tasks: seq<Task>, suggest: AgentView -> string)
    requires Ready(agents, tasks)
    ensures Ready(EvolveAll(agents, suggest), tasks)
  {
    HeldSameTasks(agents, EvolveAll(agents, suggest));
  }

  /** Sizing adds an idle agent or drops one: what the agents hold can only shrink. */
  lemma {:induction false} ResizedKeepsReady(agents: seq<AgentView>, tasks: seq<Task>, workload: nat, role: string)
    requires Ready(agents, tasks)
    ensures Ready(Resized(agents, workload, role), tasks)
  {
    if workload > 2 * |agents| {
      ReadyAfterAdd(agents, tasks, NewAgentView(|agents|, role));
    } else if workload < |agents| / 2 {
      ReadyAfterDrop(agents, tasks, SelectToRemove(agents));
    }
  }

  lemma {:induction false} ReadyAfterAdd(agents: seq<AgentView>, tasks: seq<Task>, x: AgentView)
    requires Ready(agents, tasks) && x.currentTask.None?
    ensures Ready(agents + [x], tasks)
  {
    HeldAppend(agents, [x]);
    HeldSingle(x);
  }

  lemma {:induction false} ReadyAfterDrop(agents: seq<AgentView>, tasks: seq<Task>, i: nat)
    requires Ready(agents, tasks) && i < |agents|
    ensures Ready(agents[..i] + agents[i + 1..], tasks)
  {
    var r := agents[..i] + agents[i + 1..];
    HeldDrop(agents, i);
    forall j | 0 <= j < |r| && r[j].currentTask.Some? ensures r[j].currentTask.value.isAssigned {
      if j < i { assert r[j] == agents[j]; } else { assert r[j] == agents[j + 1]; }
    }
  }

  /**
   * Without collaborative tasks, allocate_tasks from idle agents leaves every
   * task an agent holds a distinct backlog entry marked assigned.
   */
  lemma {:induction false} AllocateRoundReady(p: Pool, suggest: AgentView -> string, role: string)
    requires NoCollaborative(p.tasks)
    requires forall j :: 0 <= j < |p.agents| ==> p.agents[j].currentTask.None?
    ensures var q := AllocateRound(p, suggest, role);
      NoCollaborative(q.tasks) && Ready(q.agents, q.tasks)
  {
    var prioritized := PrioritizeAll(p.tasks, p.completed);
    IdleIsReady(p.agents, prioritized);
    ReadyFromStart(p.agents, prioritized);
    var a := AssignRound(p.tasks, p.completed, p.agents);
    AllocationKeepsReady(Allocation(prioritized, p.agents, []), AllocationOrder(prioritized));
    EvolveKeepsReady(a.agents, a.tasks, suggest);
    ResizedKeepsReady(EvolveAll(a.agents, suggest), a.tasks, |a.tasks|, role);
  }

  /**
   * Over a whole run_iteration, when no task is collaborative and the agents
   * start ready (as they do on a fresh swarm, and as every iteration leaves
   * them): len(tasks) + len(completed_tasks) is unchanged, the completed log
   * only grows, there is one result per newly completed task, and the next
   * iteration starts ready again.
   */
  lemma {:induction false} IterationConservesCount(p: Pool, execute: (string, Task) -> Option<string>, suggest: AgentView -> string, role: string)
    requires NoCollaborative(p.tasks) && Ready(p.agents, p.tasks)
    ensures var (q, results) := Iteration(p, execute, suggest, role);
      && |q.tasks| + |q.completed| == |p.tasks| + |p.completed|
      && p.completed <= q.completed
      && |results| == |q.completed| - |p.completed|
      && NoCollaborative(q.tasks) && Ready(q.agents, q.tasks)
  {
    var st := Round(p.tasks, p.completed, p.agents, []);
    var r := ExecuteAgents(st, |p.agents|, execute);
    ReadyFromStart(p.agents, p.tasks);
    ExecuteAgentsConserves(st, |p.agents|, execute);
    ExecuteAgentsIdle(st, |p.agents|, execute);
    ExecuteAgentsFrame(st, |p.agents|, execute);
    assert NoCollaborative(r.tasks) by {
      forall k | 0 <= k < |r.tasks| ensures !r.tasks[k].collaborative {
        assert r.tasks[k] in multiset(r.tasks);
        assert r.tasks[k] in p.tasks;
      }
    }
    var mid := Pool(PrioritizeAll(r.tasks, r.completed), r.completed, r.agents);
    AllocateRoundReady(mid, suggest, role);
    var q := AllocateRound(mid, suggest, role);
    EvolveKeepsReady(q.agents, q.tasks, suggest);
    ResizedKeepsReady(EvolveAll(q.agents, suggest), q.tasks, |q.tasks|, role);
  }
}
