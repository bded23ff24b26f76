/**
 * interaction/chat_environment.py: the chat front-end over a swarm. A line
 * from the user is routed to one agent ("@Name message") or broadcast to all;
 * every exchange is appended to the chat history, and the history is shown
 * one line per entry. An agent's answer to a question (ask_question, a
 * language-model call) is an oracle parameter `ask`.
 */
module Interaction {
  import opened Common
  import opened Agents
  import opened Scheduling
  import opened Swarmify
  import opened ContextManagement

  /** One chat_history entry: {"sender", "receiver", "message"}. */
  datatype ChatEntry = ChatEntry(sender: string, receiver: string, message: string)

  /** The receiver of a broadcast. */
  const Everyone: string := "All"
  /** The sender (or receiver) standing for the person at the keyboard. */
  const UserName: string := "User"

  /** What process_user_input does with a line. */
  datatype Route =
    | Direct(agentName: string, message: string)
    | Invalid
    | Broadcast(message: string)

  /** The position of the first space (only ' ', as split(" ") uses), None when there is none. */
  function FirstSpace(s: string): (r: Option<nat>)
    ensures r.None? <==> ' ' !in s
    ensures r.Some? ==> r.value < |s| && s[r.value] == ' ' && ' ' !in s[..r.value]
  {
    if s == [] then None
    else if s[0] == ' ' then Some(0)
    else
      match FirstSpace(s[1..])
      case None => None
      case Some(i) =>
        assert s[..i + 1] == [s[0]] + s[1..][..i];
        Some(i + 1)
  }

  /** Any space-free prefix followed by a space ends where the first space is. */
  lemma {:induction false} FirstSpaceAt(s: string, i: nat)
    requires i < |s| && s[i] == ' ' && ' ' !in s[..i]
    ensures FirstSpace(s) == Some(i)
  {
  }

  /**
   * process_user_input's routing: a line starting with '@' is split once at
   * the first space into the name after the '@' and the rest; without a space
   * it is invalid. Any other line is broadcast as it is.
   */
  function RouteInput(input: string): (r: Route)
    ensures r.Broadcast? <==> input == [] || input[0] != '@'
    ensures r.Broadcast? ==> r.message == input
    ensures r.Invalid? <==> |input| > 0 && input[0] == '@' && ' ' !in input
    ensures r.Direct? ==> ' ' !in r.agentName && |r.agentName| + |r.message| + 2 == |input|
  {
    if |input| > 0 && input[0] == '@' then
      match FirstSpace(input)
      case None => Invalid
      case Some(i) =>
        assert input[1..i] == input[..i][1..];
        Direct(input[1..i], input[i + 1..])
    else Broadcast(input)
  }

  /** A line is a direct message exactly when it is '@', a name without spaces, a space, and the message. */
  lemma {:induction false} RouteDirect(input: string, name: string, message: string)
    ensures RouteInput(input) == Direct(name, message) <==> input == "@" + name + " " + message && ' ' !in name
  {
    if RouteInput(input) == Direct(name, message) {
      var i := FirstSpace(input).value;
      assert input == input[..1] + input[1..i] + [input[i]] + input[i + 1..];
      assert input[1..i] == input[..i][1..];
    }
    if input == "@" + name + " " + message && ' ' !in name {
      var i := |name| + 1;
      assert input[..i] == "@" + name;
      FirstSpaceAt(input, i);
      assert input[1..i] == name && input[i + 1..] == message;
    }
  }

  /** A line is invalid exactly when it starts with '@' and holds no space. */
  lemma {:induction false} RouteInvalid(input: string)
    ensures RouteInput(input) == Invalid <==> |input| > 0 && input[0] == '@' && ' ' !in input
  {
  }

  /** A line is broadcast, unchanged, exactly when it does not start with '@'. */
  lemma {:induction false} RouteBroadcast(input: string, message: string)
    ensures RouteInput(input) == Broadcast(message) <==> message == input && (input == [] || input[0] != '@')
  {
  }

  // ---------------------------------------------------------------------------
  // What each exchange appends to the history

  /**
   * send_message_to_agent: when an agent has the name, the user's message to
   * it and then its answer to the user; nothing when no agent has the name.
   */
  function DirectEntries(agents: seq<AgentView>, name: string, message: string, ask: (AgentView, string) -> string)
    : (r: seq<ChatEntry>)
    ensures r == [] <==> forall i :: 0 <= i < |agents| ==> agents[i].name != name
    ensures r != [] ==> var i := IndexWhere(agents, NameIs(name)).value;
      r == [ChatEntry(UserName, name, message), ChatEntry(name, UserName, ask(agents[i], message))]
  {
    match IndexWhere(agents, NameIs(name))
    case None => []
    case Some(i) => [ChatEntry(UserName, name, message), ChatEntry(name, UserName, ask(agents[i], message))]
  }

  /** The activated agents, in pool order. */
  function ActiveAgents(agents: seq<AgentView>): (r: seq<AgentView>)
    ensures |r| <= |agents|
    ensures forall k :: 0 <= k < |r| ==> r[k].activated
    ensures forall v :: v in r <==> v in agents && v.activated
    decreases |agents|
  {
    if agents == [] then []
    else
      var n := |agents| - 1;
      var rest := ActiveAgents(agents[..n]);
      assert forall v :: v in agents <==> v in agents[..n] || v == agents[n] by {
        assert agents == agents[..n] + [agents[n]];
      }
      if agents[n].activated then rest + [agents[n]] else rest
  }

  /** Each activated agent's own answer to the message, addressed to all, in pool order. */
  function Replies(agents: seq<AgentView>, message: string, ask: (AgentView, string) -> string): (r: seq<ChatEntry>)
    ensures |r| <= |agents|
    ensures forall k :: 0 <= k < |r| ==> r[k].receiver == Everyone
    decreases |agents|
  {
    if agents == [] then []
    else
      var n := |agents| - 1;
      var rest := Replies(agents[..n], message, ask);
      if agents[n].activated then rest + [ChatEntry(agents[n].name, Everyone, ask(agents[n], message))] else rest
  }

  /** The replies are one per activated agent, in order, each carrying that agent's name and its own answer. */
  lemma {:induction false} RepliesOfActive(agents: seq<AgentView>, message: string, ask: (AgentView, string) -> string)
    ensures var r := Replies(agents, message, ask); var act := ActiveAgents(agents);
      && |r| == |act|
      && forall k :: 0 <= k < |r| ==> r[k] == ChatEntry(act[k].name, Everyone, ask(act[k], message))
    decreases |agents|
  {
    if agents != [] {
      RepliesOfActive(agents[..|agents| - 1], message, ask);
    }
  }

  /** broadcast_message: the message to all first, then the replies. */
  function BroadcastEntries(agents: seq<AgentView>, sender: string, message: string, ask: (AgentView, string) -> string)
    : (r: seq<ChatEntry>)
    ensures |r| >= 1 && r[0] == ChatEntry(sender, Everyone, message)
  {
    [ChatEntry(sender, Everyone, message)] + Replies(agents, message, ask)
  }

  /** process_user_input: what the routed line appends. */
  function InputEntries(agents: seq<AgentView>, input: string, ask: (AgentView, string) -> string): (r: seq<ChatEntry>)
    ensures |r| <= |agents| + 2
    ensures r != [] ==> r[0].sender == UserName
    ensures forall k :: 0 <= k < |r| ==> r[k].sender == UserName || r[k].receiver == UserName || r[k].receiver == Everyone
  {
    match RouteInput(input)
    case Direct(name, message) => DirectEntries(agents, name, message, ask)
    case Invalid => []
    case Broadcast(message) => BroadcastEntries(agents, UserName, message, ask)
  }

  /** The entries of a run of lines, each processed in turn. */
  function SessionEntries(agents: seq<AgentView>, lines: seq<string>, ask: (AgentView, string) -> string): (r: seq<ChatEntry>)
    ensures forall k :: 0 <= k < |r| ==> r[k].sender == UserName || r[k].receiver == UserName || r[k].receiver == Everyone
    decreases |lines|
  {
    if lines == [] then []
    else
      var n := |lines| - 1;
      var prev := SessionEntries(agents, lines[..n], ask);
      var next := InputEntries(agents, lines[n], ask);
      prev + next
  }

  lemma {:induction false} SessionStep(agents: seq<AgentView>, lines: seq<string>, p: nat, ask: (AgentView, string) -> string)
    requires p < |lines|
    ensures SessionEntries(agents, lines[..p + 1], ask) == SessionEntries(agents, lines[..p], ask) + InputEntries(agents, lines[p], ask)
  {
    assert lines[..p + 1][..p] == lines[..p];
  }

  // ---------------------------------------------------------------------------
  // The exit test and the history display

  /** start_chat's exit test: the line lower-cased is "exit". */
  predicate IsExit(input: string) {
    Lower(input) == "exit"
  }

  /** No line is the exit command. */
  predicate NoExit(lines: seq<string>) {
    forall k :: 0 <= k < |lines| ==> !IsExit(lines[k])
  }

  lemma {:induction false} NoExitStep(lines: seq<string>, p: nat)
    requires p < |lines| && NoExit(lines[..p]) && !IsExit(lines[p])
    ensures NoExit(lines[..p + 1])
  {
    assert lines[..p + 1] == lines[..p] + [lines[p]];
  }

  /** The exit test accepts exactly the four letters of "exit", each in either case. */
  lemma {:induction false} IsExitSpelling(input: string)
    ensures IsExit(input) <==> |input| == 4 && forall i :: 0 <= i < 4 ==> input[i] == "exit"[i] || input[i] == "EXIT"[i]
  {
    if |input| == 4 {
      forall i | 0 <= i < 4 ensures LowerChar(input[i]) == "exit"[i] <==> input[i] == "exit"[i] || input[i] == "EXIT"[i] {
        LowerLetter(input[i], "exit"[i]);
      }
      if forall i :: 0 <= i < 4 ==> LowerChar(input[i]) == "exit"[i] {
        assert Lower(input) == "exit";
      }
      if IsExit(input) {
        forall i | 0 <= i < 4 ensures LowerChar(input[i]) == "exit"[i] {
          assert Lower(input)[i] == "exit"[i];
        }
      }
    }
  }

  /** Lower-casing gives a small letter exactly from that letter or its capital. */
  lemma {:induction false} LowerLetter(c: char, d: char)
    requires 'a' <= d <= 'z'
    ensures LowerChar(c) == d <==> c == d || c == (d as int - 32) as char
  {
  }

  /** A history line: "S (to all): M" for a broadcast, "S to R: M" otherwise. */
  function FormatEntry(e: ChatEntry): (r: string)
    ensures |r| >= |e.sender| + |e.message|
    ensures r[..|e.sender|] == e.sender && r[|r| - |e.message|..] == e.message
    ensures e.receiver == Everyone ==> r[|e.sender|..|r| - |e.message|] == " (to all): "
    ensures e.receiver != Everyone ==> r[|e.sender|..|r| - |e.message|] == " to " + e.receiver + ": "
  {
    var middle := if e.receiver == Everyone then " (to all): " else " to " + e.receiver + ": ";
    var r := e.sender + middle + e.message;
    assert r[|e.sender|..|r| - |e.message|] == middle;
    r
  }

  // ---------------------------------------------------------------------------
  // The environment

  class ChatEnvironment {
    const swarm: Swarm
    var chatHistory: seq<ChatEntry>

    /** A new environment over the swarm, with an empty history. */
    constructor (swarm: Swarm)
      ensures this.swarm == swarm && chatHistory == []
    {
      this.swarm := swarm;
      chatHistory := [];
    }

    /** send_message_to_agent: asks the first agent with the name; two entries when it exists, none otherwise. */
    method SendMessageToAgent(agentName: string, message: string, ask: (AgentView, string) -> string)
      modifies this`chatHistory
      ensures chatHistory == old(chatHistory) + DirectEntries(swarm.Views(), agentName, message, ask)
    {
      ghost var views := swarm.Views();
      ghost var index := IndexWhere(views, NameIs(agentName));
      ghost var before := chatHistory;
      var agent := swarm.GetAgentByName(agentName);
      assert agent == if index.Some? then swarm.agents[index.value] else null;
      if agent != null {
        assert agent.View() == views[index.value];
        var response := ask(agent.View(), message);
        var question := ChatEntry(UserName, agentName, message);
        var answer := ChatEntry(agentName, UserName, response);
        chatHistory := chatHistory + [question];
        chatHistory := chatHistory + [answer];
        assert DirectEntries(views, agentName, message, ask) == [question, answer];
        assert chatHistory == before + [question, answer] by {
          AppendAssoc(before, [question], [answer]);
        }
      } else {
        assert DirectEntries(views, agentName, message, ask) == [];
      }
    }

    /**
     * broadcast_message: the message to all, then each activated agent's own
     * answer, in pool order (the pairing the code intends; see ZipReplies).
     */
    method BroadcastMessage(sender: string, message: string, ask: (AgentView, string) -> string)
      modifies this`chatHistory
      ensures chatHistory == old(chatHistory) + BroadcastEntries(swarm.Views(), sender, message, ask)
    {
      chatHistory := chatHistory + [ChatEntry(sender, Everyone, message)];
      ghost var start := chatHistory;
      var agents := swarm.agents;
      ghost var views := swarm.Views();
      var i := 0;
      while i < |agents|
        invariant i <= |agents|
        invariant chatHistory == start + Replies(views[..i], message, ask)
      {
        assert views[..i + 1][..i] == views[..i];
        assert agents[i].View() == views[i];
        if agents[i].activated {
          var response := ask(agents[i].View(), message);
          var entry := ChatEntry(agents[i].name, Everyone, response);
          AppendAssoc(start, Replies(views[..i], message, ask), [entry]);
          chatHistory := chatHistory + [entry];
        }
        i := i + 1;
      }
      assert views[..i] == views;
      AppendAssoc(old(chatHistory), [ChatEntry(sender, Everyone, message)], Replies(views, message, ask));
    }

    /** process_user_input: a direct message, nothing for an invalid line, or a broadcast from the user. */
    method ProcessUserInput(input: string, ask: (AgentView, string) -> string)
      modifies this`chatHistory
      ensures chatHistory == old(chatHistory) + InputEntries(swarm.Views(), input, ask)
    {
      if |input| > 0 && input[0] == '@' {
        var space := FirstSpace(input);
        if space.Some? {
          var i := space.value;
          SendMessageToAgent(input[1..i], input[i + 1..], ask);
        }
      } else {
        BroadcastMessage(UserName, input, ask);
      }
    }

    /**
     * start_chat: processes the lines in turn and stops at the first one that
     * is the exit command (or at the end of the lines); returns how many lines
     * were processed.
     */
    method StartChat(inputs: seq<string>, ask: (AgentView, string) -> string) returns (processed: nat)
      modifies this`chatHistory
      ensures processed <= |inputs|
      ensures NoExit(inputs[..processed])
      ensures processed < |inputs| ==> IsExit(inputs[processed])
      ensures chatHistory == old(chatHistory) + SessionEntries(swarm.Views(), inputs[..processed], ask)
    {
      ghost var views := swarm.Views();
      processed := 0;
      while processed < |inputs| && !IsExit(inputs[processed])
        invariant processed <= |inputs| && swarm.Views() == views
        invariant NoExit(inputs[..processed])
        invariant chatHistory == old(chatHistory) + SessionEntries(views, inputs[..processed], ask)
      {
        ghost var done := SessionEntries(views, inputs[..processed], ask);
        ghost var next := InputEntries(views, inputs[processed], ask);
        SessionStep(views, inputs, processed, ask);
        NoExitStep(inputs, processed);
        AppendAssoc(old(chatHistory), done, next);
        ProcessUserInput(inputs[processed], ask);
        processed := processed + 1;
      }
    }

    /**
     * agent_message with a receiver: one entry from sender to receiver, also
     * added to the shared context; without one, a broadcast from the sender.
     */
    method AgentMessage(sender: Agent, message: string, receiver: Agent?, context: ContextManager<ChatEntry>,
                        ask: (AgentView, string) -> string)
      requires context.Valid()
      modifies this`chatHistory, context
      ensures context.Valid()
      ensures receiver != null ==>
        var e := ChatEntry(sender.name, receiver.name, message);
        chatHistory == old(chatHistory) + [e] && context.context == Added(old(context.context), e)
      ensures receiver == null ==>
        chatHistory == old(chatHistory) + BroadcastEntries(swarm.Views(), sender.name, message, ask)
        && context.context == old(context.context)
    {
      if receiver != null {
        var e := ChatEntry(sender.name, receiver.name, message);
        chatHistory := chatHistory + [e];
        context.AddToContext(e);
      } else {
        BroadcastMessage(sender.name, message, ask);
      }
    }

    /** display_chat_history: one formatted line per entry, in history order. */
    method DisplayChatHistory() returns (lines: seq<string>)
      ensures |lines| == |chatHistory|
      ensures forall k :: 0 <= k < |lines| ==> lines[k] == FormatEntry(chatHistory[k])
    {
      lines := [];
      for k := 0 to |chatHistory|
        invariant |lines| == k
        invariant forall j :: 0 <= j < k ==> lines[j] == FormatEntry(chatHistory[j])
      {
        lines := lines + [FormatEntry(chatHistory[k])];
      }
    }
  }

  // ---------------------------------------------------------------------------
  // The broadcast pairing as written

  /** The answers gathered from the activated agents, in pool order. */
  function Responses(agents: seq<AgentView>, message: string, ask: (AgentView, string) -> string): (r: seq<string>)
    ensures |r| == |ActiveAgents(agents)|
  {
    var act := ActiveAgents(agents);
    seq(|act|, k requires 0 <= k < |act| => ask(act[k], message))
  }

  /**
   * The replies broadcast_message appends as written: zip(all agents,
   * answers of the activated ones), keeping the pairs whose agent is
   * activated. The k-th answer is credited to the k-th agent of the whole
   * pool, and zip stops at the shorter list.
   */
  function ZipReplies(agents: seq<AgentView>, responses: seq<string>): (r: seq<ChatEntry>)
    ensures |r| <= |agents| && |r| <= |responses|
    ensures forall k :: 0 <= k < |r| ==> r[k].receiver == Everyone && r[k].message in responses
    decreases |agents|
  {
    if agents == [] || responses == [] then []
    else
      var head := if agents[0].activated then [ChatEntry(agents[0].name, Everyone, responses[0])] else [];
      head + ZipReplies(agents[1..], responses[1..])
  }

  /** When every agent is activated, the zip pairs each agent with its own answer. */
  lemma {:induction false} ZipRepliesAllActive(agents: seq<AgentView>, message: string, ask: (AgentView, string) -> string)
    requires forall k :: 0 <= k < |agents| ==> agents[k].activated
    ensures ZipReplies(agents, Responses(agents, message, ask)) == Replies(agents, message, ask)
  {
    AllActive(agents);
    RepliesOfActive(agents, message, ask);
    ZipOfOwn(agents, message, ask);
  }

  lemma {:induction false} AllActive(agents: seq<AgentView>)
    requires forall k :: 0 <= k < |agents| ==> agents[k].activated
    ensures ActiveAgents(agents) == agents
    decreases |agents|
  {
    if agents != [] {
      AllActive(agents[..|agents| - 1]);
    }
  }

  lemma {:induction false} ZipOfOwn(agents: seq<AgentView>, message: string, ask: (AgentView, string) -> string)
    requires forall k :: 0 <= k < |agents| ==> agents[k].activated
    ensures var rs := seq(|agents|, k requires 0 <= k < |agents| => ask(agents[k], message));
      var z := ZipReplies(agents, rs);
      |z| == |agents| && forall k :: 0 <= k < |z| ==> z[k] == ChatEntry(agents[k].name, Everyone, ask(agents[k], message))
    decreases |agents|
  {
    var rs := seq(|agents|, k requires 0 <= k < |agents| => ask(agents[k], message));
    if agents != [] {
      var tail := agents[1..];
      ZipOfOwn(tail, message, ask);
      assert rs[1..] == seq(|tail|, k requires 0 <= k < |tail| => ask(tail[k], message));
    }
  }

  /**
   * With an inactive agent first and two activated ones after it, the first
   * activated agent is credited with the second one's answer and the second
   * one's entry is lost.
   */
  lemma {:induction false} ZipRepliesMisattributes()
    ensures var a := AgentView("A", "r", [], None, [], false);
      var b := AgentView("B", "r", [], None, [], true);
      var c := AgentView("C", "r", [], None, [], true);
      var own := (v: AgentView, m: string) => v.name;
      && ZipReplies([a, b, c], Responses([a, b, c], "hi", own)) == [ChatEntry("B", Everyone, "C")]
      && Replies([a, b, c], "hi", own) == [ChatEntry("B", Everyone, "B"), ChatEntry("C", Everyone, "C")]
  {
    var a := AgentView("A", "r", [], None, [], false);
    var b := AgentView("B", "r", [], None, [], true);
    var c := AgentView("C", "r", [], None, [], true);
    var own := (v: AgentView, m: string) => v.name;
    var pool := [a, b, c];
    assert [a][..0] == [];
    assert ActiveAgents([a]) == [];
    assert [a, b][..1] == [a];
    assert ActiveAgents([a, b]) == [b];
    assert pool[..2] == [a, b];
    assert ActiveAgents(pool) == [b, c];
    assert Responses(pool, "hi", own) == ["B", "C"];
    assert pool[1..] == [b, c] && [b, c][1..] == [c];
    assert ZipReplies([c], ["C"][1..]) == [];
    assert ZipReplies([b, c], ["C"]) == [ChatEntry("B", Everyone, "C")];
    assert Replies([a], "hi", own) == [];
    assert Replies([a, b], "hi", own) == [ChatEntry("B", Everyone, "B")];
  }
}
