/**
 * The record readers of ensemble/swarmify.py, _parse_tasks and _parse_agents,
 * which read the planning model's answer line by line, and the record lines
 * the planning prompt asks for:
 *   description | role | Priority: n | ID: x | Dependencies: a, b   (or None)
 *   name | role | specialty1, specialty2
 * Lines that do not fit are skipped, never reported.
 */
module Parsing {
  import opened Common
  import opened Tasks

  /** An entry of _parse_agents: the name, role and specialties an Agent is built from. */
  datatype AgentRecord = AgentRecord(name: string, role: string, specialties: seq<string>)

  /** [part.strip() for part in line.split('|')] */
  function Fields(line: string): (r: seq<string>)
    ensures |r| >= 1 && forall k :: 0 <= k < |r| ==> IsStripped(r[k])
    ensures '|' !in line ==> r == [Strip(line)]
  {
    var r := StripAll(Split(line, '|'));
    assert '|' !in line ==> r == [Strip(line)] by {
      if '|' !in line { SplitWithoutSeparator(line, '|'); }
    }
    r
  }

  /** field.split(':')[-1].strip(): what follows the field's last colon (all of it when there is none), stripped. */
  function LabelValue(field: string): (r: string)
    ensures IsStripped(r) && ':' !in r
  {
    var v := AfterLast(field, ':');
    StripHasNo(v, ':');
    Strip(v)
  }

  /** The dependency list of a task line: none at all for "none" in any letter case, else the comma-separated ids, stripped. */
  function DependencyList(value: string): (r: seq<string>)
    ensures Lower(value) == "none" <==> r == []
  {
    if Lower(value) == "none" then [] else StripAll(Split(value, ','))
  }

  /**
   * One line of _parse_tasks. None when the line is skipped: it has no '|',
   * fewer than five fields, or no integer after the last ':' of the third
   * field (the ValueError that is caught).
   */
  function ParseTaskLine(line: string): (r: Option<Task>)
    ensures r.Some? ==> '|' in line && !r.value.isAssigned && !r.value.collaborative && r.value.dynamic.None?
    ensures r.Some? ==> IsStripped(r.value.description) && IsStripped(r.value.role)
    ensures r.Some? ==> IsStripped(r.value.id) && ':' !in r.value.id
  {
    if '|' !in line then None
    else
      var parts := Fields(line);
      if |parts| < 5 then None
      else
        match ParseInt(LabelValue(parts[2]))
        case None => None
        case Some(priority) =>
          Some(Task(LabelValue(parts[3]), parts[0], parts[1], priority, DependencyList(LabelValue(parts[4])), false, None, false))
  }

  /**
   * A line gives a task exactly when it has a bar, five fields and an integer
   * priority; the task is then not assigned, not collaborative and has no
   * dynamic priority yet, and its columns are the stripped fields, the
   * labelled values after the last colon, and the dependency list.
   */
  lemma {:induction false} ParseTaskLineCases(line: string)
    ensures var r := ParseTaskLine(line);
      r.Some? <==> '|' in line && |Fields(line)| >= 5 && ParseInt(LabelValue(Fields(line)[2])).Some?
    ensures var r := ParseTaskLine(line); r.Some? ==>
      && !r.value.isAssigned && !r.value.collaborative && r.value.dynamic.None?
      && r.value.description == Fields(line)[0] && r.value.role == Fields(line)[1]
      && r.value.priority == ParseInt(LabelValue(Fields(line)[2])).value
      && r.value.id == LabelValue(Fields(line)[3])
      && r.value.dependencies == DependencyList(LabelValue(Fields(line)[4]))
  {
  }

  /** The answers of `read` for each line in turn, lines it answers None for left out. */
  function KeepSome<T>(read: string -> Option<T>, lines: seq<string>): (r: seq<T>)
    ensures |r| <= |lines|
    ensures forall x :: x in r ==> exists l :: l in lines && read(l) == Some(x)
  {
    if lines == [] then []
    else
      var rest := KeepSome(read, lines[1..]);
      match read(lines[0])
      case Some(x) => [x] + rest
      case None => rest
  }

  /** Lines are read independently: two runs of lines give the results of both, in order. */
  lemma {:induction false} KeepSomeAppend<T>(read: string -> Option<T>, a: seq<string>, b: seq<string>)
    ensures KeepSome(read, a + b) == KeepSome(read, a) + KeepSome(read, b)
  {
    if a != [] {
      assert (a + b)[0] == a[0] && (a + b)[1..] == a[1..] + b;
      KeepSomeAppend(read, a[1..], b);
    } else {
      assert a + b == b;
    }
  }

  /** A single line gives its result, or nothing when it is skipped. */
  lemma {:induction false} KeepSomeSingle<T>(read: string -> Option<T>, line: string)
    ensures KeepSome(read, [line]) == if read(line).Some? then [read(line).value] else []
  {
    assert [line][1..] == [];
  }

  /** _parse_tasks: the text split on '\n', each line read in turn, in line order, skipped lines left out. */
  function ParseTasks(text: string): (r: seq<Task>)
    ensures |r| <= |Split(text, '\n')|
    ensures forall t :: t in r ==> !t.isAssigned && !t.collaborative && t.dynamic.None? && ':' !in t.id
  {
    KeepSome(ParseTaskLine, Split(text, '\n'))
  }

  // ---------------------------------------------------------------------------
  // The record lines the planning prompt asks for

  /** The dependency column: "None" for no dependencies, else the ids joined with ", ". */
  function DependencyText(deps: seq<string>): string {
    if deps == [] then "None" else Join(deps, ", ")
  }

  /** A labelled column, such as "Priority: 3". */
  function Labelled(tag: string, v: string): string {
    tag + ": " + v
  }

  /** The five columns of a task's record line. */
  function TaskCells(t: Task): seq<string> {
    [t.description, t.role, Labelled("Priority", IntToString(t.priority)), Labelled("ID", t.id),
     Labelled("Dependencies", DependencyText(t.dependencies))]
  }

  /** A task in the prompt's record layout, without the list numbering. */
  function FormatTaskLine(t: Task): string {
    Join(TaskCells(t), " | ")
  }

  /** A piece of text that can stand in a record column: stripped, on one line, without a column bar. */
  predicate IsCell(s: string) {
    IsStripped(s) && '|' !in s && '\n' !in s
  }

  /** A value after a "Label: " prefix: a non-empty cell without colons. */
  predicate IsLabelled(s: string) {
    IsCell(s) && s != [] && ':' !in s
  }

  /** A list item: a non-empty cell without commas. */
  predicate IsItem(s: string) {
    IsCell(s) && s != [] && ',' !in s
  }

  /**
   * A task that a record line describes exactly: fresh from parsing (not
   * assigned, not collaborative, no dynamic priority), its columns free of
   * bars and line breaks and surrounding whitespace, an id and dependency ids
   * that are non-empty and free of colons (and the ids of commas), and no
   * single dependency that reads "none".
   */
  predicate Writable(t: Task) {
    && !t.isAssigned && !t.collaborative && t.dynamic.None?
    && IsCell(t.description) && IsCell(t.role) && IsLabelled(t.id)
    && (forall k :: 0 <= k < |t.dependencies| ==> IsItem(t.dependencies[k]) && ':' !in t.dependencies[k])
    && (|t.dependencies| == 1 ==> Lower(t.dependencies[0]) != "none")
  }

  /** Reading a record line gives back the task it was written from. */
  lemma {:induction false} ParseFormattedTask(t: Task)
    requires Writable(t)
    ensures ParseTaskLine(FormatTaskLine(t)) == Some(t)
  {
    TaskLineFields(t);
    TaskColumns(t);
    ParseTaskCells(FormatTaskLine(t), t);
  }

  /** The priority, id and dependency columns of a writable task are read back as its fields. */
  predicate ColumnsReadBack(t: Task) {
    && ParseInt(LabelValue(TaskCells(t)[2])) == Some(t.priority)
    && LabelValue(TaskCells(t)[3]) == t.id
    && DependencyList(LabelValue(TaskCells(t)[4])) == t.dependencies
  }

  lemma {:induction false} TaskColumns(t: Task)
    requires Writable(t)
    ensures ColumnsReadBack(t)
  {
    assert ParseInt(LabelValue(TaskCells(t)[2])) == Some(t.priority) by {
      PriorityColumn(t.priority);
    }
    assert LabelValue(TaskCells(t)[3]) == t.id by {
      IdColumn(t.id);
    }
    assert DependencyList(LabelValue(TaskCells(t)[4])) == t.dependencies by {
      DependencyColumn(t.dependencies);
    }
  }

  /** A line whose fields are a fresh task's columns, each read back, gives that task. */
  lemma {:induction false} ParseTaskCells(line: string, t: Task)
    requires '|' in line && Fields(line) == TaskCells(t) && ColumnsReadBack(t)
    requires !t.isAssigned && !t.collaborative && t.dynamic.None?
    ensures ParseTaskLine(line) == Some(t)
  {
  }

  /** The id column is read back as the id. */
  lemma {:induction false} IdColumn(id: string)
    requires IsLabelled(id)
    ensures LabelValue(Labelled("ID", id)) == id
  {
    LabelValueOf("ID", id);
  }

  /** The priority column is read back as the priority. */
  lemma {:induction false} PriorityColumn(p: int)
    ensures ParseInt(LabelValue(Labelled("Priority", IntToString(p)))) == Some(p)
  {
    IntToStringHasNoSeparators(p);
    LabelValueOf("Priority", IntToString(p));
    ParseIntOfIntToString(p);
  }

  /** The dependency column is read back as the dependency list. */
  lemma {:induction false} DependencyColumn(deps: seq<string>)
    requires forall k :: 0 <= k < |deps| ==> IsItem(deps[k]) && ':' !in deps[k]
    requires |deps| == 1 ==> Lower(deps[0]) != "none"
    ensures DependencyList(LabelValue(Labelled("Dependencies", DependencyText(deps)))) == deps
  {
    var d := DependencyText(deps);
    DependencyTextIsLabelled(deps);
    assert ':' !in "Dependencies";
    LabelValueOf("Dependencies", d);
    DependencyListOfText(deps);
  }

  /** The value of a labelled column is read back. */
  lemma {:induction false} LabelValueOf(tag: string, v: string)
    requires ':' !in tag && ':' !in v && IsStripped(v)
    ensures LabelValue(Labelled(tag, v)) == v
  {
    LabelledValue(tag, v);
  }

  /** A task's record line holds a bar and is read back as its five columns. */
  lemma {:induction false} TaskLineFields(t: Task)
    requires Writable(t)
    ensures Fields(FormatTaskLine(t)) == TaskCells(t) && '|' in FormatTaskLine(t)
  {
    TaskCellsAreCells(t);
    FieldsOfCells(TaskCells(t));
  }

  lemma {:induction false} TaskCellsAreCells(t: Task)
    requires Writable(t)
    ensures forall k :: 0 <= k < 5 ==> IsCell(TaskCells(t)[k])
  {
    var cells := TaskCells(t);
    PriorityCell(t.priority);
    IdCell(t.id);
    DependencyCell(t.dependencies);
  }

  lemma {:induction false} PriorityCell(p: int)
    ensures IsCell(Labelled("Priority", IntToString(p)))
  {
    IntToStringHasNoSeparators(p);
    TaggedCell("Priority", IntToString(p));
  }

  lemma {:induction false} IdCell(id: string)
    requires IsLabelled(id)
    ensures IsCell(Labelled("ID", id))
  {
    TaggedCell("ID", id);
  }

  lemma {:induction false} DependencyCell(deps: seq<string>)
    requires forall k :: 0 <= k < |deps| ==> IsItem(deps[k]) && ':' !in deps[k]
    ensures IsCell(Labelled("Dependencies", DependencyText(deps)))
  {
    DependencyTextIsLabelled(deps);
    TaggedCell("Dependencies", DependencyText(deps));
  }

  /** Cells joined with " | " are read back as the same cells, and the bar is in the line. */
  lemma {:induction false} FieldsOfCells(cells: seq<string>)
    requires |cells| >= 2 && forall k :: 0 <= k < |cells| ==> IsCell(cells[k])
    ensures var line := Join(cells, " | "); Fields(line) == cells && '|' in line
  {
    var empty: string := [];
    assert AllSpace(empty) && empty + Join(cells, " | ") == Join(cells, " | ");
    assert " " + ['|'] + " " == " | ";
    FieldsOfSpacedJoin(empty, cells, '|');
    var line := Join(cells, " | ");
    if '|' !in line {
      SplitWithoutSeparator(line, '|');
    }
  }

  /** "Tag: v" is a cell when v is a non-empty cell. */
  lemma {:induction false} TaggedCell(tag: string, v: string)
    requires tag != [] && !IsSpace(tag[0]) && '|' !in tag && '\n' !in tag
    requires IsCell(v) && v != []
    ensures IsCell(Labelled(tag, v))
  {
    var s := Labelled(tag, v);
    assert s[0] == tag[0] && s[|s| - 1] == v[|v| - 1];
  }

  /** The dependency column is a non-empty cell without colons. */
  lemma {:induction false} DependencyTextIsLabelled(deps: seq<string>)
    requires forall k :: 0 <= k < |deps| ==> IsItem(deps[k]) && ':' !in deps[k]
    ensures IsLabelled(DependencyText(deps))
  {
    if deps != [] {
      JoinStripped(deps, ", ");
      NotInJoin(deps, ", ", '|');
      NotInJoin(deps, ", ", '\n');
      NotInJoin(deps, ", ", ':');
    }
  }

  /** The dependency column is read back as the dependency list. */
  lemma {:induction false} DependencyListOfText(deps: seq<string>)
    requires forall k :: 0 <= k < |deps| ==> IsItem(deps[k])
    requires |deps| == 1 ==> Lower(deps[0]) != "none"
    ensures DependencyList(DependencyText(deps)) == deps
  {
    if deps == [] {
      assert Lower("None") == "none";
    } else {
      JoinNotNone(deps);
      StripAllOfCommaList(deps);
    }
  }

  /** A list of two or more joined with ", " contains a comma, so it never reads "none". */
  lemma {:induction false} JoinNotNone(deps: seq<string>)
    requires |deps| >= 1 && (|deps| == 1 ==> Lower(deps[0]) != "none")
    ensures Lower(Join(deps, ", ")) != "none"
  {
    if |deps| >= 2 {
      var j := Join(deps, ", ");
      var i := |deps[0]|;
      assert j == deps[0] + ", " + Join(deps[1..], ", ");
      assert j[i] == ',';
    }
  }

  /** When every line is read as the matching element, the lines give exactly those elements. */
  lemma {:induction false} KeepSomeOfAll<T>(read: string -> Option<T>, lines: seq<string>, xs: seq<T>)
    requires |lines| == |xs| && forall k :: 0 <= k < |lines| ==> read(lines[k]) == Some(xs[k])
    ensures KeepSome(read, lines) == xs
    decreases |lines|
  {
    if lines != [] {
      KeepSomeOfAll(read, lines[1..], xs[1..]);
      HeadTail(xs);
    }
  }

  /** Record lines joined with line breaks, as the model's answer would hold them. */
  function FormatTasks(ts: seq<Task>): string {
    Join(FormatTaskLines(ts), "\n")
  }

  function FormatTaskLines(ts: seq<Task>): (r: seq<string>)
    ensures |r| == |ts| && forall k :: 0 <= k < |ts| ==> r[k] == FormatTaskLine(ts[k])
  {
    seq(|ts|, k requires 0 <= k < |ts| => FormatTaskLine(ts[k]))
  }

  /** _parse_tasks reads back every task of a text of record lines, in order. */
  lemma {:induction false} ParseFormattedTasks(ts: seq<Task>)
    requires forall k :: 0 <= k < |ts| ==> Writable(ts[k])
    ensures ParseTasks(FormatTasks(ts)) == ts
  {
    var lines := FormatTaskLines(ts);
    if ts == [] {
      assert FormatTasks(ts) == [];
      assert Split([], '\n') == [[]];
      KeepSomeSingle(ParseTaskLine, []);
    } else {
      forall k | 0 <= k < |ts| ensures '\n' !in lines[k] && ParseTaskLine(lines[k]) == Some(ts[k]) {
        TaskLineIsOneLine(ts[k]);
        ParseFormattedTask(ts[k]);
      }
      SplitOfJoin(lines, '\n');
      KeepSomeOfAll(ParseTaskLine, lines, ts);
    }
  }

  lemma {:induction false} TaskLineIsOneLine(t: Task)
    requires Writable(t)
    ensures '\n' !in FormatTaskLine(t)
  {
    TaskCellsAreCells(t);
    NotInJoin(TaskCells(t), " | ", '\n');
  }

  // ---------------------------------------------------------------------------
  // _parse_agents

  /**
   * One line of _parse_agents. None when the line has no '|' or fewer than
   * three fields; otherwise the first two fields and the third split on
   * commas, each part stripped.
   */
  function ParseAgentLine(line: string): (r: Option<AgentRecord>)
    ensures r.Some? ==> '|' in line && IsStripped(r.value.name) && IsStripped(r.value.role)
    ensures r.Some? ==> |r.value.specialties| >= 1
    ensures r.Some? ==> forall k :: 0 <= k < |r.value.specialties| ==> IsStripped(r.value.specialties[k])
  {
    if '|' !in line then None
    else
      var parts := Fields(line);
      if |parts| < 3 then None
      else Some(AgentRecord(parts[0], parts[1], StripAll(Split(parts[2], ','))))
  }

  /** A line gives an agent exactly when it has a bar and three fields; the agent has at least one specialty. */
  lemma {:induction false} ParseAgentLineCases(line: string)
    ensures var r := ParseAgentLine(line);
      r.Some? <==> '|' in line && |Fields(line)| >= 3
    ensures var r := ParseAgentLine(line); r.Some? ==>
      && r.value.name == Fields(line)[0] && r.value.role == Fields(line)[1]
      && r.value.specialties == StripAll(Split(Fields(line)[2], ','))
      && |r.value.specialties| >= 1
  {
  }

  /** _parse_agents: the text split on '\n', each line read in turn, in line order, skipped lines left out. */
  function ParseAgents(text: string): (r: seq<AgentRecord>)
    ensures |r| <= |Split(text, '\n')|
    ensures forall a :: a in r ==> |a.specialties| >= 1 && IsStripped(a.name) && IsStripped(a.role)
  {
    KeepSome(ParseAgentLine, Split(text, '\n'))
  }

  function FormatAgentLine(a: AgentRecord): string {
    Join([a.name, a.role, Join(a.specialties, ", ")], " | ")
  }

  /** An agent a record line describes exactly: plain name and role, at least one specialty, each a list item. */
  predicate WritableAgent(a: AgentRecord) {
    && IsCell(a.name) && IsCell(a.role) && |a.specialties| >= 1
    && forall k :: 0 <= k < |a.specialties| ==> IsItem(a.specialties[k])
  }

  /** Reading an agent record line gives back the agent it was written from. */
  lemma {:induction false} ParseFormattedAgent(a: AgentRecord)
    requires WritableAgent(a)
    ensures ParseAgentLine(FormatAgentLine(a)) == Some(a)
  {
    var s := Join(a.specialties, ", ");
    JoinStripped(a.specialties, ", ");
    NotInJoin(a.specialties, ", ", '|');
    NotInJoin(a.specialties, ", ", '\n');
    FieldsOfCells([a.name, a.role, s]);
    StripAllOfCommaList(a.specialties);
  }

  lemma {:induction false} AgentLineIsOneLine(a: AgentRecord)
    requires WritableAgent(a)
    ensures '\n' !in FormatAgentLine(a)
  {
    var s := Join(a.specialties, ", ");
    NotInJoin(a.specialties, ", ", '\n');
    NotInJoin([a.name, a.role, s], " | ", '\n');
  }

  /** Agent record lines joined with line breaks. */
  function FormatAgents(agents: seq<AgentRecord>): string {
    Join(FormatAgentLines(agents), "\n")
  }

  function FormatAgentLines(agents: seq<AgentRecord>): (r: seq<string>)
    ensures |r| == |agents| && forall k :: 0 <= k < |agents| ==> r[k] == FormatAgentLine(agents[k])
  {
    seq(|agents|, k requires 0 <= k < |agents| => FormatAgentLine(agents[k]))
  }

  /** _parse_agents reads back every agent of a text of record lines, in order. */
  lemma {:induction false} ParseFormattedAgents(agents: seq<AgentRecord>)
    requires forall k :: 0 <= k < |agents| ==> WritableAgent(agents[k])
    ensures ParseAgents(FormatAgents(agents)) == agents
  {
    var lines := FormatAgentLines(agents);
    if agents == [] {
      assert FormatAgents(agents) == [];
      assert Split([], '\n') == [[]];
      KeepSomeSingle(ParseAgentLine, []);
    } else {
      forall k | 0 <= k < |agents| ensures '\n' !in lines[k] && ParseAgentLine(lines[k]) == Some(agents[k]) {
        AgentLineIsOneLine(agents[k]);
        ParseFormattedAgent(agents[k]);
      }
      SplitOfJoin(lines, '\n');
      KeepSomeOfAll(ParseAgentLine, lines, agents);
    }
  }

  /** A name and a role are one field each: a line of only two fields names no agent, however it is spelled. */
  lemma {:induction false} TwoFieldsNoAgent(name: string, role: string)
    requires IsCell(name) && IsCell(role)
    ensures ParseAgentLine(Join([name, role], " | ")).None?
  {
    FieldsOfCells([name, role]);
  }
}
