/**
 * agents/agent_init.py: the per-agent state the scheduler reads and changes.
 * The language-model assistant, the thread, the RAG store, file and web tools
 * are outside this model; the model call of execute_task is an oracle answer.
 */
module Agents {
  import opened Common
  import opened Tasks

  /** The scheduler-visible state of one agent, as a value. */
  datatype AgentView = AgentView(
    name: string,
    role: string,
    specialties: seq<string>,
    currentTask: Option<Task>,
    completedTasks: seq<Task>,
    activated: bool)

  const KnowledgePrefix: string := "Shareable knowledge from "

  class Agent {
    var name: string
    var role: string
    var specialties: seq<string>
    var currentTask: Option<Task>
    var completedTasks: seq<Task>
    var activated: bool
    /** The chat environment the agent is connected to; null until connected. */
    var chatEnv: object?

    function View(): AgentView
      reads this
    {
      AgentView(name, role, specialties, currentTask, completedTasks, activated)
    }

    /** A new agent is idle, has completed nothing, is not activated and keeps the given specialties. */
    constructor (name: string, role: string, specialties: seq<string>)
      ensures View() == AgentView(name, role, specialties, None, [], false)
      ensures chatEnv == null
    {
      this.name := name;
      this.role := role;
      this.specialties := specialties;
      this.currentTask := None;
      this.completedTasks := [];
      this.activated := false;
      this.chatEnv := null;
    }

    /**
     * execute_task. `response` is the language model's answer to the task
     * prompt, None when that call raises; the raise happens before the task is
     * recorded, so then nothing changes. Otherwise the task is appended to
     * completed_tasks once and the answer is returned.
     */
    method ExecuteTask(task: Task, response: Option<string>) returns (r: Option<string>)
      modifies this`completedTasks
      ensures r == response
      ensures completedTasks == if response.Some? then old(completedTasks) + [task] else old(completedTasks)
      ensures View() == old(View()).(completedTasks := completedTasks)
    {
      r := response;
      if response.Some? {
        completedTasks := completedTasks + [task];
      }
    }

    /**
     * assign_task, which the scheduler calls but Agent does not define: its
     * evident intent, recording the task as the current one.
     */
    method AssignTask(task: Task)
      modifies this`currentTask
      ensures View() == old(View()).(currentTask := Some(task))
    {
      currentTask := Some(task);
    }

    /** activate: sets the flag; doing it twice is the same as once. */
    method Activate()
      modifies this`activated
      ensures activated
      ensures View() == old(View()).(activated := true)
    {
      activated := true;
    }

    /** can_activate: every agent may be activated. */
    function CanActivate(): (r: bool)
      ensures r
    {
      true
    }

    /** get_shareable_knowledge: the fixed prefix, the name, ": ", then the specialties joined with ", ". */
    function GetShareableKnowledge(): (r: string)
      reads this
      ensures |r| >= |KnowledgePrefix + name + ": "|
      ensures r[..|KnowledgePrefix + name + ": "|] == KnowledgePrefix + name + ": "
    {
      KnowledgePrefix + name + ": " + Join(specialties, ", ")
    }

    /** connect_to_chat_environment: only chat_env changes. */
    method ConnectToChatEnvironment(env: object?)
      modifies this`chatEnv
      ensures chatEnv == env
      ensures View() == old(View())
    {
      chatEnv := env;
    }
  }

  /**
   * The specialties can be read back from the shared knowledge text: what
   * follows the prefix, split on commas and stripped, is the specialty list,
   * provided there is at least one, none contains a comma and none has
   * surrounding whitespace.
   */
  lemma {:induction false} ShareableKnowledgeListsSpecialties(a: Agent)
    requires |a.specialties| >= 1
    requires forall k :: 0 <= k < |a.specialties| ==> ',' !in a.specialties[k] && IsStripped(a.specialties[k])
    ensures var p := KnowledgePrefix + a.name + ": ";
      StripAll(Split(a.GetShareableKnowledge()[|p|..], ',')) == a.specialties
  {
    var p := KnowledgePrefix + a.name + ": ";
    assert a.GetShareableKnowledge()[|p|..] == Join(a.specialties, ", ");
    StripAllOfCommaList(a.specialties);
  }
}
