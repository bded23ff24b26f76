# Ensemble scheduler, modelled in Dafny

Ensemble runs a swarm of language-model agents on a software project. The
`Swarm` (ensemble/swarmify.py) keeps three things:

- a backlog of task records (`id`, `description`, `role`, `priority`,
  `dependencies`, `assigned`, `dynamic_priority`, `collaborative`);
- a log of completed tasks;
- a pool of `Agent`s (agents/agent_init.py), each with a name, a role,
  specialties, a current task, its own completed list and an activation flag.

Each round the swarm does the following:

- every agent works on its task;
- tasks are re-prioritised;
- free agents whose specialties match a task's role receive it (two at once
  for a collaborative task);
- agents with finished work may gain a specialty;
- the pool grows or shrinks with the backlog.

The backlog and the pool are first read from the planning model's answer by
two line parsers. Around the swarm sit four smaller pieces, all modelled:

- a bounded shared context (tools/context_manager.py);
- a planning registry (tools/project_planning.py);
- the per-agent state;
- a chat front-end (interaction/chat_environment.py). It routes "@Name
  message" lines to one agent and broadcasts anything else, keeps a chat
  history, prints it, and stops at "exit".

The project has one module per concern:

- `Common`: Python string behaviour the code relies on (`strip`, `split`,
  `join`, `lower`, `int()`, `str()`).
- `Builtins`: `min(..., key=)`, a stable `sorted(..., reverse=True)` and
  `list.remove`.
- `Tasks`: the task record, the completed-log lookup, re-prioritisation and
  the next-task choice.
- `Agents`: `class Agent`.
- `Scheduling`: every scheduler decision as a function on values (the
  backlog, the completed log, one `AgentView` per agent), with the lemmas
  that state what the scheduler promises.
- `Swarmify`: `class Swarm`. Its methods change the fields in place. Each is
  proved to reach exactly the state its `Scheduling` function describes.
- `Parsing`: `_parse_tasks` and `_parse_agents`, with round trips from the
  record layout the planning prompt asks for.
- `ContextManagement`: `class ContextManager`.
- `ProjectPlanning`: `class ProjectPlanner`.
- `Interaction`: `class ChatEnvironment`.

Language-model answers are parameters. The model's answers are:

- the result of executing a task, or `None` when the call raises;
- the suggested specialty;
- the needed role for a new agent;
- an agent's answer to a question;
- the answers of the two context queries.

Several representation choices follow the code:

- `dynamic_priority` is an integer count of hundredths, so that 0.1 is 10
  and 0.05 is 5. It is `None` while the key is absent.
- Task records are values. The code shares the same dictionary between the
  backlog, the sorted copy and an agent's current task. In the order the
  scheduler runs, nothing changes a shared record between being handed out
  and being read again, except for the mark `assigned` and
  `collaborative_solution`. The model writes the mark into both places. It
  leaves `collaborative_solution` out, because that is a model answer.
- `list.remove` removes the first value-equal record, as Python's dictionary
  equality does.

Where the code calls something that does not exist, the model does what the
call evidently intends, and each case is noted at the member. As written,
these calls raise, and "## Findings" records each one with a member that
models the raise:

- `collaboration_groups` is never initialised, so the constructor sets it
  empty.
- `Agent` has no `assign_task`, so `Agent.AssignTask` sets the current task.
- `Agent` has no `memory`, so the load used for the least-loaded choice is
  `len(completed_tasks)`.
- `add_agent` is called without its task description, so the new agent is
  appended like any other.

## Model

| member | source | states |
|---|---|---|
| Tasks.IsTaskCompleted | ensemble/swarmify.py:322-323 | true exactly when some record of the completed log has the id |
| Tasks.UnmetCount | ensemble/swarmify.py:145 | the count of incomplete dependencies is at most their number, and zero exactly when every dependency is completed |
| Tasks.Reprioritized | ensemble/swarmify.py:137-146 | re-prioritising gives a task a stored dynamic priority and changes no other field |
| Tasks.StartValue | ensemble/swarmify.py:138-139 | a present non-zero dynamic_priority is kept; an absent or zero one starts from the base priority. The start is zero only when the base priority is zero too |
| Tasks.PrioritizeAll | ensemble/swarmify.py:136-146 | the backlog keeps its length and order, and each task is re-prioritised against the completed log |
| Tasks.PriorityAccumulates | ensemble/swarmify.py:137-146 | the value accumulates across rounds and is not recomputed. A fresh task (no value, or zero) with positive priority p and u ≤ 2 incomplete dependencies holds 100p + k(10 − 5u) after k rounds, and no other field changes |
| Tasks.AfterRounds | ensemble/swarmify.py:136-146 | repeated re-prioritisation changes only dynamic_priority, which is set from the first round on |
| Tasks.ReadyTaskGrows | ensemble/swarmify.py:142-146 | with every dependency completed, a non-zero stored value grows by exactly 0.1 each round |
| Tasks.NextTaskIndex | ensemble/swarmify.py:363-367 | None exactly when no task has the role and is unassigned. Otherwise, among those tasks, the first in list order with the least base priority |
| Tasks.NextTaskFor | ensemble/swarmify.py:363-367 | the chosen task is in the backlog, has the role, is unassigned and has minimal base priority. Ties go to the first in list order: every available task of that priority lies at or after the chosen one's first occurrence. None exactly when no task is available. Dependencies are not consulted |
| Tasks.NextTaskForIsFirst | ensemble/swarmify.py:365-366 | the chosen task sits at a position before which no available task has a priority as small, so min() returns the first of equal minima |
| Builtins.FirstMin | ensemble/swarmify.py:233 | min() with a key: None exactly when there is no candidate. Otherwise a candidate whose key is minimal and before which no candidate has an equal key |
| Builtins.InsertByKey | ensemble/swarmify.py:224 | inserting a position into an ordered list gives an ordered permutation of the list plus that position |
| Builtins.SortPrefix | ensemble/swarmify.py:224 | the first n positions, ordered by descending key with ties in original order |
| Builtins.DescendingOrder | ensemble/swarmify.py:224 | stable sorted(reverse=True): every position occurs, and none twice; larger keys come first, equal keys in their original order |
| Builtins.RemoveFirst | ensemble/swarmify.py:346-348 | list.remove drops one copy of a present element (multiset and length). For an absent element the list is returned as it was, which stands for the ValueError that run_iteration catches at line 348 |
| Builtins.RemoveFirstAt | ensemble/swarmify.py:202 | on a list without an earlier copy, removing the element at i drops exactly position i |
| Scheduling.SuitableIndices | ensemble/swarmify.py:149 | exactly the free agents listing the role among their specialties, in list order |
| Scheduling.Loads | ensemble/swarmify.py:233 | each agent's load is its completed-task count |
| Scheduling.VisitTask | ensemble/swarmify.py:226-235 | one visit of the allocation loop keeps the sizes of the backlog and of the pool |
| Scheduling.AllocationOrder | ensemble/swarmify.py:224 | the visiting order holds every backlog position once, with higher dynamic priority first and ties in list order |
| Scheduling.AllocateInOrder | ensemble/swarmify.py:226-235 | the allocation loop over any order of backlog positions keeps the backlog and the pool at their sizes |
| Scheduling.AllocateInOrderNext | ensemble/swarmify.py:226 | the loop over one more position is one more visit |
| Scheduling.VisitSoloTask | ensemble/swarmify.py:227-235 | a non-collaborative unassigned task becomes assigned exactly when some free agent lists its role. Then the first least-loaded such agent receives the marked task and nothing else changes. Otherwise nothing changes |
| Scheduling.VisitCollaborativeTask | ensemble/swarmify.py:148-155 | a group forms exactly when at least two free agents list the role. It is the first two in list order, both receive the task, the group is appended and the task is not marked. With fewer than two, nothing changes |
| Scheduling.VisitIsStep | ensemble/swarmify.py:226-235 | one visit changes `assigned` only from False to True, changes only free agents and only their current task, and only appends groups |
| Scheduling.AllocationFrame | ensemble/swarmify.py:224-235 | over the whole loop the backlog keeps length and order and `assigned` is never reset. Busy agents are untouched and groups are only appended |
| Scheduling.VisitKeepsGroupsWithin | ensemble/swarmify.py:151-152 | every group is a pair of distinct pool positions in list order |
| Scheduling.AllocationKeepsReady | ensemble/swarmify.py:226-235 | without collaborative tasks, every task an agent holds after allocation is a distinct backlog entry marked assigned |
| Scheduling.HeldOrNext | ensemble/swarmify.py:334-337 | an idle agent's pick is a backlog task |
| Scheduling.ExecuteAgent | ensemble/swarmify.py:333-351 | one pass of the agent loop keeps the pool size |
| Scheduling.VisitRaises | ensemble/swarmify.py:226-235 | as written, one visit of the allocation loop raises AttributeError exactly when the corrected visit would change the state: at line 152 for a shared task with two suitable agents, and at line 233 for a solo task with one |
| Scheduling.AllocationRaises | ensemble/swarmify.py:226-235 | as written, the allocation loop raises the error of the first visit that raises. When it raises nothing, the corrected loop changes nothing |
| Scheduling.AllocationRaisesOnSoloTask | ensemble/swarmify.py:231-235 | with one idle "dev" agent and one solo "dev" task, the code as written raises at line 233, where the corrected loop hands the task over |
| Scheduling.AllocationRaisesOnSharedTask | ensemble/swarmify.py:149-155 | with two idle "dev" agents and one shared "dev" task, the code as written raises at line 152, where the corrected loop forms the group |
| Scheduling.SizingRaises | ensemble/swarmify.py:196-199 | as written, sizing raises TypeError at line 198 exactly when the corrected pool would grow, so the pool never grows |
| Scheduling.ExecuteAgentMoves | ensemble/swarmify.py:340-351 | when execution returns, its answer is appended to the results, and the task to the completed log and the agent's completed list. The task leaves the backlog once if it is there; otherwise the backlog is kept, as the caught ValueError does. When execution raises, none of these change; with no task nothing changes |
| Scheduling.ExecuteAgentIdles | ensemble/swarmify.py:347-351 | after its pass the agent holds no task, and no other agent changes |
| Scheduling.ExecuteAgents | ensemble/swarmify.py:333-353 | the agent loop neither adds nor removes agents |
| Scheduling.ExecuteAgentsIdle | ensemble/swarmify.py:333-353 | after the loop every agent passed holds no task, and agents not yet reached are untouched |
| Scheduling.ExecuteAgentsFrame | ensemble/swarmify.py:333-353 | agents change only their current task and completed list, and the completed log and the results only grow, together |
| Scheduling.ExecuteAgentsConserves | ensemble/swarmify.py:333-353 | from a ready state, the backlog and the completed log together keep the same tasks, so len(tasks) + len(completed_tasks) is preserved |
| Scheduling.SharedTaskCompletedTwice | ensemble/swarmify.py:340-346 | two agents sharing a collaborative task both complete it. The completed log gains it twice while the backlog loses it once |
| Scheduling.SelectToRemove | ensemble/swarmify.py:218-220 | the first agent with the fewest completed tasks, busy agents included |
| Scheduling.SizingCases | ensemble/swarmify.py:192-203 | sizing does exactly one thing: adds one new agent when tasks > 2·agents, else removes the first least-loaded agent when tasks < agents // 2, else nothing. A non-empty pool stays non-empty |
| Scheduling.Resized | ensemble/swarmify.py:192-203 | the pool grows or shrinks by at most one agent. Every agent afterwards was in the pool before or is the newly created one |
| Scheduling.NewAgentName | ensemble/swarmify.py:208 | "Agent_" followed by decimal digits that read back as the pool size plus one |
| Scheduling.SizingMayRemoveBusyAgent | ensemble/swarmify.py:218-220 | an agent holding a task can be the one removed |
| Scheduling.NewAgentNameMayRepeat | ensemble/swarmify.py:200-209 | a new agent can take the name of one still in the pool |
| Scheduling.EvolvedAppendsIfNew | ensemble/swarmify.py:172-177 | specialties only grow, by appending at most one new entry and never a duplicate. An agent with completed tasks then lists every non-empty suggestion |
| Scheduling.Evolved | ensemble/swarmify.py:172-177 | only the specialties change, and only by appending at most one entry |
| Scheduling.EvolveAll | ensemble/swarmify.py:172-177 | each agent is updated by its own suggestion, and the pool keeps its size and order |
| Scheduling.FirstMatch | ensemble/swarmify.py:248-251 | the first position whose test holds, None exactly when there is none |
| Scheduling.IndexWhere | ensemble/swarmify.py:247-251 | None exactly when no agent passes the test. Otherwise the first agent that passes it. With the name test this is get_agent_by_name; with the role test it is get_agent_by_role (lines 261-265) |
| Scheduling.AssignRound | ensemble/swarmify.py:223-235 | re-prioritising and assigning keep the sizes of the backlog and of the pool |
| Scheduling.AllocateRound | ensemble/swarmify.py:222-239 | allocate_tasks keeps the backlog size and leaves the completed log alone |
| Scheduling.AllocateRoundReady | ensemble/swarmify.py:222-239 | from idle agents and no collaborative task, every task an agent holds afterwards is a distinct backlog entry marked assigned |
| Scheduling.IterationConservesCount | ensemble/swarmify.py:331-361 | over a whole run_iteration without collaborative tasks from a ready state, len(tasks) + len(completed_tasks) is unchanged. The completed log only grows, with one result per newly completed task, and the next iteration starts ready |
| Scheduling.Iteration | ensemble/swarmify.py:331-361 | from any state, the completed log only grows and there is exactly one result per newly completed task |
| Swarmify.RemoveLeastLoaded | ensemble/swarmify.py:201-202 | removing the selected agent from a pool without repeats drops its view and nothing else |
| Swarmify.Swarm.constructor | ensemble/swarmify.py:41-52 | a new swarm has no agents, no tasks, nothing completed and no groups |
| Swarmify.Swarm.AddAgent | ensemble/swarmify.py:54-59 | the agent is appended to the pool |
| Swarmify.Swarm.AddTask | ensemble/swarmify.py:130-134 | the task is appended to the backlog, and nothing else changes |
| Swarmify.Swarm.IsTaskCompleted | ensemble/swarmify.py:322-323 | true exactly when a record of the completed log has the id |
| Swarmify.Swarm.DynamicTaskPrioritization | ensemble/swarmify.py:136-146 | each task is updated in place by the re-prioritisation rule, and length, order and every other field are kept |
| Swarmify.Swarm.GiveTask | ensemble/swarmify.py:155 | only the chosen agent's current task changes. run_iteration's direct write of current_task at line 338 goes through it too |
| Swarmify.Swarm.CollaborativeTaskSolving | ensemble/swarmify.py:148-161 | with at least two free agents listing the role, the first two are recorded as a group and both take the task. Otherwise nothing changes |
| Swarmify.Swarm.AssignToLeastLoaded | ensemble/swarmify.py:231-235 | the first least-loaded free agent listing the role takes the task, which is marked assigned in the backlog and in the agent's hands. Nothing changes when there is no such agent |
| Swarmify.Swarm.AllocateTask | ensemble/swarmify.py:226-235 | one pass leaves the swarm in the state of Scheduling.VisitTask |
| Swarmify.Swarm.AllocateCollaborative | ensemble/swarmify.py:228-229 | the collaborative pass reaches Scheduling.VisitTask's state |
| Swarmify.Swarm.AllocateSolo | ensemble/swarmify.py:230-235 | the non-collaborative pass reaches Scheduling.VisitTask's state |
| Swarmify.Swarm.AssignSortedTasks | ensemble/swarmify.py:224-235 | the loop over the sorted backlog reaches Scheduling.AllocateInOrder over Scheduling.AllocationOrder, and groups are only appended |
| Swarmify.Swarm.AgentSpecializationEvolution | ensemble/swarmify.py:172-178 | the agents reach Scheduling.EvolveAll's state |
| Swarmify.Swarm.CreateNewAgent | ensemble/swarmify.py:205-209 | a fresh agent named after the pool size plus one, with the needed role and no specialties |
| Swarmify.Swarm.SelectAgentToRemove | ensemble/swarmify.py:218-220 | the agent at Scheduling.SelectToRemove's position: the first with the fewest completed tasks |
| Swarmify.Swarm.AdaptiveSwarmSizing | ensemble/swarmify.py:192-203 | the pool reaches Scheduling.Resized's state. Every remaining agent was in the pool or is new |
| Swarmify.Swarm.GrowPool | ensemble/swarmify.py:196-198 | the new agent is appended |
| Swarmify.Swarm.ShrinkPool | ensemble/swarmify.py:200-202 | the selected agent leaves and the others keep their order |
| Swarmify.Swarm.AllocateTasks | ensemble/swarmify.py:222-239 | the swarm reaches Scheduling.AllocateRound's state |
| Swarmify.Swarm.RunAgent | ensemble/swarmify.py:333-353 | one loop pass reaches Scheduling.ExecuteAgent's state, so after the pass for agent i the swarm is where Scheduling.ExecuteAgents puts it after i + 1 passes |
| Swarmify.Swarm.PickUpTask | ensemble/swarmify.py:334-338 | an idle agent takes get_next_task_for_agent's choice, if any |
| Swarmify.Swarm.ExecuteHeld | ensemble/swarmify.py:340-351 | executing the held task reaches Scheduling.ExecuteAgent's state, in which the agent ends idle |
| Swarmify.Swarm.RunAgents | ensemble/swarmify.py:332-353 | the agent loop reaches Scheduling.ExecuteAgents' state |
| Swarmify.Swarm.RunIteration | ensemble/swarmify.py:331-361 | the swarm and the results reach Scheduling.Iteration, and groups are only appended |
| Swarmify.Swarm.GetAgentByName | ensemble/swarmify.py:247-251 | null exactly when no agent has the name. Otherwise the first agent with it |
| Swarmify.Swarm.GetAgentByRole | ensemble/swarmify.py:261-265 | null exactly when no agent has the role. Otherwise the first agent with it |
| Swarmify.Swarm.GetNextTaskForAgent | ensemble/swarmify.py:363-367 | None exactly when no task is available for the agent's role. Otherwise a backlog task of the role, unassigned, with least base priority, and the first such in list order |
| Agents.Agent.constructor | agents/agent_init.py:18-30 | a new agent is idle, has completed nothing, is not activated, keeps the given specialties and has no chat environment |
| Agents.Agent.ExecuteTask | agents/agent_init.py:62-67 | on success the task is appended to completed_tasks once and the answer returned. When the model call raises nothing changes. No other field changes either way |
| Agents.Agent.AssignTask | ensemble/swarmify.py:155 | only the current task changes |
| Agents.Agent.Activate | agents/agent_init.py:94-96 | activated becomes true and nothing else changes, so a second call changes nothing |
| Agents.Agent.CanActivate | agents/agent_init.py:91-92 | always true |
| Agents.Agent.GetShareableKnowledge | agents/agent_init.py:88-89 | the text starts with "Shareable knowledge from {name}: " |
| Agents.ShareableKnowledgeListsSpecialties | agents/agent_init.py:88-89 | what follows that prefix, split on commas and stripped, is the specialty list |
| Agents.Agent.ConnectToChatEnvironment | agents/agent_init.py:78-80 | only chat_env changes |
| Common.Strip | ensemble/swarmify.py:288 | str.strip(): the result has no whitespace at either end and is no longer than the input |
| Common.Split | ensemble/swarmify.py:286 | str.split(c): at least one piece, none containing c |
| Common.StripAll | ensemble/swarmify.py:288 | one part per input part, each the stripped input part |
| Common.SplitOfJoin | ensemble/swarmify.py:288 | splitting a join of separator-free pieces gives the pieces back |
| Common.Lower | interaction/chat_environment.py:25 | each character is lower-cased, and the length is kept |
| Common.ParseInt | ensemble/swarmify.py:291 | int() succeeds only on a digit or sign first, and a negative result has a '-' |
| Common.ParseIntOfIntToString | tools/project_planning.py:21 | int(str(n)) == n |
| Parsing.Fields | ensemble/swarmify.py:288 | at least one field, each stripped. A line without a bar is its own single field |
| Parsing.LabelValue | ensemble/swarmify.py:291-293 | the value after the last colon is stripped and colon-free |
| Parsing.DependencyList | ensemble/swarmify.py:294 | the list is empty exactly when the value reads "none" in any case |
| Parsing.ParseTaskLine | ensemble/swarmify.py:286-303 | a task comes only from a line with a bar. It is unassigned, not collaborative and has no dynamic priority. Description, role and id are stripped, and the id holds no ':' |
| Parsing.KeepSome | ensemble/swarmify.py:286-303 | at most one result per line, and every result is what the line reader gives for one of the lines |
| Parsing.ParseTasks | ensemble/swarmify.py:284-306 | at most one task per line of the text. Every task read is unassigned, not collaborative, has no dynamic priority, and its id holds no ':' |
| Parsing.ParseTaskLineCases | ensemble/swarmify.py:286-303 | a line gives a task exactly when it has a bar, at least five fields and an integer priority. The task then has the fields' values, is unassigned and not collaborative, and has no dynamic priority |
| Parsing.KeepSomeAppend | ensemble/swarmify.py:286-303 | lines are read independently: two runs of lines give both results, in order |
| Parsing.ParseFormattedTask | ensemble/swarmify.py:284-306 | a task written in the record layout of the planning prompt (line 83) is read back as the same task |
| Parsing.ParseFormattedTasks | ensemble/swarmify.py:284-306 | _parse_tasks reads back every record line of a text, in order |
| Parsing.DependencyListOfText | ensemble/swarmify.py:294 | the dependency column reads back as the dependency list |
| Parsing.ParseAgentLineCases | ensemble/swarmify.py:310-319 | a line gives an agent exactly when it has a bar and at least three fields. The agent has at least one specialty |
| Parsing.ParseAgentLine | ensemble/swarmify.py:310-319 | an agent record comes only from a line with a bar. Name, role and each specialty are stripped, and there is at least one specialty |
| Parsing.ParseAgents | ensemble/swarmify.py:308-320 | at most one record per line of the text. Every record has a stripped name and role and at least one specialty |
| Parsing.ParseFormattedAgent | ensemble/swarmify.py:308-320 | an agent written in the record layout of the planning prompt (line 87) is read back as the same agent |
| Parsing.ParseFormattedAgents | ensemble/swarmify.py:308-320 | _parse_agents reads back every record line of a text, in order |
| Parsing.TwoFieldsNoAgent | ensemble/swarmify.py:313 | a line of only two fields never gives an agent |
| ContextManagement.KeepLast | tools/context_manager.py:11 | xs[-n:]: the last min(n, len) elements |
| ContextManagement.Added | tools/context_manager.py:8-11 | at most 1000 entries, ending with the new one. Below the limit nothing is dropped. At the limit exactly the oldest entry is dropped and the order is kept |
| ContextManagement.KeepLastSlides | tools/context_manager.py:10-11 | trimming after every append is trimming the whole stream once |
| ContextManagement.ContextManager.constructor | tools/context_manager.py:5-6 | the context starts empty |
| ContextManagement.ContextManager.AddToContext | tools/context_manager.py:8-11 | the new context is Added(old context, entry), and it stays the last 1000 entries ever added |
| ContextManagement.ContextManager.GetRelevantContext | tools/context_manager.py:13-14 | the model's answer over the whole context. Nothing changes |
| ContextManagement.ContextManager.SummarizeForNewAgent | tools/context_manager.py:16-17 | the model's summary over the whole context. Nothing changes |
| ContextManagement.ContextOfRun | tools/context_manager.py:5-11 | any run of additions to a new manager leaves the last 1000 of them, in order |
| ContextManagement.AddedAllKeepsLast | tools/context_manager.py:8-11 | adding entries to a window of a stream gives the window of the longer stream |
| ProjectPlanning.ProjectPlanner.constructor | tools/project_planning.py:4-6 | a new planner has no agents and no tasks |
| ProjectPlanning.ProjectPlanner.AddAgent | tools/project_planning.py:8-11 | appends one record, keeps the earlier records and the tasks, and returns "Added agent: {name} ({role})" |
| ProjectPlanning.ProjectPlanner.AddTask | tools/project_planning.py:13-21 | appends one record with absent dependencies stored as [], keeps the agents, and returns "Added task: {description} (Priority: {priority})" |
| ProjectPlanning.ProjectPlanner.GetAgents | tools/project_planning.py:23-24 | the agents added since the last clear, in order |
| ProjectPlanning.ProjectPlanner.GetTasks | tools/project_planning.py:26-27 | the tasks added since the last clear, in order |
| ProjectPlanning.ProjectPlanner.Clear | tools/project_planning.py:29-32 | both lists become empty, and the message is "Cleared all agents and tasks" |
| ProjectPlanning.AgentAddedMessage | tools/project_planning.py:11 | the message holds the prefix, then the name, then the role before the closing parenthesis |
| ProjectPlanning.TaskAddedMessage | tools/project_planning.py:21 | the message holds the prefix and the description, and its priority text reads back as the priority |
| ProjectPlanning.DependenciesOrNone | tools/project_planning.py:18 | `dependencies or []`: None becomes the empty list, and a given list is kept |
| ProjectPlanning.ReplayWithoutClear | tools/project_planning.py:8-21 | without a clear, the registry lists every agent and every task added, in call order |
| ProjectPlanning.ReplayAfterClear | tools/project_planning.py:29-32 | a clear forgets everything before it |
| ProjectPlanning.ReplaySinceClear | tools/project_planning.py:8-32 | the registry holds exactly what was added since the last clear, in order |
| Interaction.FirstSpace | interaction/chat_environment.py:33 | the first ' ', None exactly when there is none |
| Interaction.RouteInput | interaction/chat_environment.py:30-42 | a broadcast exactly when the line does not start with '@', carrying the line unchanged. Invalid exactly when it starts with '@' and holds no space. A direct message names an agent without spaces, and name and message take up all of the line but the '@' and the separating space |
| Interaction.RouteDirect | interaction/chat_environment.py:31-37 | a line is a direct message to name with the given message exactly when it is "@" + name + " " + message and the name has no space |
| Interaction.RouteInvalid | interaction/chat_environment.py:31-39 | a line is invalid exactly when it starts with '@' and has no space |
| Interaction.RouteBroadcast | interaction/chat_environment.py:40-42 | a line is broadcast, unchanged, exactly when it does not start with '@' |
| Interaction.DirectEntries | interaction/chat_environment.py:44-52 | no entries exactly when no agent has the name. Otherwise User→agent with the message, then agent→User with the first such agent's answer |
| Interaction.ActiveAgents | interaction/chat_environment.py:58 | exactly the activated agents |
| Interaction.Replies | interaction/chat_environment.py:58-63 | at most one reply per agent, each addressed to all |
| Interaction.RepliesOfActive | interaction/chat_environment.py:58-63 | one reply per activated agent, in pool order, each with that agent's name and its own answer, to "All" |
| Interaction.BroadcastEntries | interaction/chat_environment.py:54-63 | the first entry is sender→"All" with the message |
| Interaction.InputEntries | interaction/chat_environment.py:30-42 | one line adds at most len(agents) + 2 entries, the first one from the user. Every entry is from or to the user, or addressed to all |
| Interaction.SessionEntries | interaction/chat_environment.py:23-28 | every entry of a session is from or to the user, or addressed to all |
| Interaction.SessionStep | interaction/chat_environment.py:23-28 | a session one line longer appends that line's entries |
| Interaction.IsExitSpelling | interaction/chat_environment.py:25 | the exit test accepts exactly the four letters of "exit", each in either case |
| Interaction.FormatEntry | interaction/chat_environment.py:81-86 | "S (to all): M" when the receiver is "All", otherwise "S to R: M" |
| Interaction.ChatEnvironment.constructor | interaction/chat_environment.py:13-16 | a new environment has an empty history |
| Interaction.ChatEnvironment.SendMessageToAgent | interaction/chat_environment.py:44-52 | the history gains exactly DirectEntries: two entries when the agent exists, none otherwise |
| Interaction.ChatEnvironment.BroadcastMessage | interaction/chat_environment.py:54-63 | the history gains the message to "All", then each activated agent's own answer in pool order |
| Interaction.ChatEnvironment.ProcessUserInput | interaction/chat_environment.py:30-42 | the history gains what the routed line produces: a direct exchange, nothing, or a broadcast from "User" |
| Interaction.ChatEnvironment.StartChat | interaction/chat_environment.py:18-28 | lines are processed in order up to, but not including, the first exit line (or to the end). No processed line is an exit, and the history gains their entries |
| Interaction.ChatEnvironment.AgentMessage | interaction/chat_environment.py:65-72 | with a receiver, one sender→receiver entry goes to the history and to the bounded context. Without one, it is a broadcast from the sender |
| Interaction.ChatEnvironment.DisplayChatHistory | interaction/chat_environment.py:81-86 | one formatted line per history entry, in order |
| Interaction.Responses | interaction/chat_environment.py:58 | one answer per activated agent |
| Interaction.ZipRepliesAllActive | interaction/chat_environment.py:60-63 | when every agent is activated, the pairing as written gives each agent its own answer |
| Interaction.ZipReplies | interaction/chat_environment.py:60-63 | no more entries than agents or answers. Each is addressed to all and carries one of the answers |
| Interaction.ZipRepliesMisattributes | interaction/chat_environment.py:58-63 | with an inactive agent first, the written pairing credits one agent with another's answer and loses an entry |

## Left out

- Language-model calls (execute_task, ask_question, the specialty and role suggestions, the context queries) are parameters. The assistant and thread set-up of initialize_with_context is not modelled.
- RAG uploads and queries (add_agent's shared store, add_task's upload, inter_agent_knowledge_sharing, store_message_in_rag), printing and logging are side channels and are not modelled.
- The chat environment's get_relevant_context is not modelled: it is one model call over the history.
- asyncio concurrency is not modelled: every awaited call runs to completion in program order, and broadcast answers are gathered in pool order.
- Interaction.ChatEnvironment.AgentMessage: the receiver's process_incoming_message is not modelled. It asks the model and sends the answer back through agent_message, a chain the code does not bound. Agent.send_message and process_incoming_message are not part of this model for the same reason.
- Interaction.ChatEnvironment.StartChat: the console is a list of lines. End of input ends the loop, where input() would raise EOFError.
- Common.Lower lower-cases ASCII letters only. str.lower() also maps the letters of other scripts, which this model keeps unchanged. It is used only by the exit test and the "none" test.
- Common.ParseInt accepts ASCII digits only. int() also accepts other Unicode decimal digits.
- Parsing.ParseFormattedTask and Parsing.ParseFormattedAgent cover lines without the "1. " list numbering the prompt shows. With the numbering, the number becomes part of the first field, which the code keeps as it is.
- Swarmify.Swarm.AddAgent requires the agent not to be in the pool already. Python allows adding the same object twice, but every call site adds a new agent.
- Swarmify.Swarm.SelectAgentToRemove requires a non-empty pool, where min() would raise. Its one caller only calls it with at least two agents.
- Swarmify.Swarm.RunIteration: the model's answers are taken to be the same at the two evolution steps and the two sizing steps of one iteration.
- Scheduling.IterationConservesCount is stated without collaborative tasks. With them the count is not preserved, as Scheduling.SharedTaskCompletedTwice shows.
- A busy agent removed by sizing takes its task with it. A solo task stays in the backlog marked assigned (line 235), so no agent picks it up again. A collaborative task is never marked assigned. If sizing removes one member of its pair, the other member still holds it, and get_next_task_for_agent (lines 363-367) can also hand it to any idle agent of its role. The model keeps both behaviours (Scheduling.SizingMayRemoveBusyAgent) but states no property about stranded or re-issued tasks.
- collaborative_problem_solving and the collaborative_solution it stores on the task are model calls and are not modelled. The selection part of collaborative_task_solving is modelled.
- TaskGenerator (an eval of model text), the section split and retry loop of generate_tasks_and_agents, activate_agents and establish_collaborations are not modelled. The last two call attributes that do not exist.
- agent_communication, ask_all_agents, determine_new_specialty, determine_needed_role and the Swarm's start_chat and initialize_chat_environment are model calls or delegation and are not modelled.
- Floating-point rounding of dynamic_priority is not modelled: values are exact hundredths.
- Scheduling.VisitTask, Swarmify.Swarm.AllocateSolo and Swarmify.Swarm.AssignToLeastLoaded model the evident intent of lines 233-234: load as the completed-task count, and the current task set directly. As written, line 233 raises AttributeError (Scheduling.VisitRaises).
- Swarmify.Swarm.CollaborativeTaskSolving and Swarmify.Swarm.AllocateCollaborative model the evident intent of lines 152-155. As written, line 152 raises AttributeError (Scheduling.VisitRaises).
- Swarmify.Swarm.constructor sets collaboration_groups to an empty list, which lines 41-52 never do.
- Agents.Agent.AssignTask models a method that agents/agent_init.py does not define. Lines 155 and 234 call it, but as written they are never reached.
- Scheduling.Resized, Swarmify.Swarm.GrowPool and Swarmify.Swarm.AdaptiveSwarmSizing grow the pool as intended. As written, line 198 calls add_agent without task_description and raises TypeError (Scheduling.SizingRaises).

## Findings

| source | as written | input that shows it | evidently intended | confidence | as-written member | corrected member |
|---|---|---|---|---|---|---|
| ensemble/swarmify.py:233-234 | a solo task with a free suitable agent is given to `min(suitable_agents, key=lambda a: len(a.memory))`, then `agent.assign_task(task)` is called. Agent (agents/agent_init.py:18-30) defines neither memory nor assign_task, so line 233 raises AttributeError. allocate_tasks, and run_iteration through line 356, stop there | one idle agent listing "dev" and one unassigned solo "dev" task | the least-loaded suitable agent gets the task as its current task, and the task is marked assigned | not executed | Scheduling.AllocationRaisesOnSoloTask | Scheduling.VisitTask |
| ensemble/swarmify.py:149-155 | a collaborative task with two free suitable agents appends the group to self.collaboration_groups, which __init__ (lines 41-52) never sets, so line 152 raises AttributeError. The assign_task calls at line 155 would raise next | two idle agents listing "dev" and one unassigned collaborative "dev" task | the group is recorded and both agents take the task | not executed | Scheduling.AllocationRaisesOnSharedTask | Scheduling.VisitTask |
| ensemble/swarmify.py:196-198 | the growth branch calls `self.add_agent(new_agent)`, but add_agent (line 54) requires task_description, so the call raises TypeError and the pool never grows | one agent and three backlog tasks | the new agent is added to the pool | not executed | Scheduling.SizingRaises | Scheduling.Resized |
| interaction/chat_environment.py:58-63 | answers are gathered from the activated agents only, then zipped with the whole pool, and only pairs whose pool agent is activated are kept | agents [A inactive, B active, C active]: B is credited with C's answer and C's reply is lost | each activated agent's reply carries its own answer | not executed | Interaction.ZipRepliesMisattributes | Interaction.ChatEnvironment.BroadcastMessage |
