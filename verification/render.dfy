/** What the bot shows of a task list: the progress count, one status line
    per task, and one toggle button per task whose custom id names the list
    and the task's position. */
module Render {
  import opened TaskData
  import opened Commands

  const Checked: char := '\U{2705}'
  const Unchecked: char := '\U{2610}'

  // ---------------------------------------------------------------------
  // Decimal text of a position, as Python's str() writes a non-negative int

  predicate IsDigit(c: char) {
    '0' <= c <= '9'
  }

  predicate AllDigits(s: string) {
    forall i :: 0 <= i < |s| ==> IsDigit(s[i])
  }

  function DigitChar(d: nat): (c: char)
    requires d < 10
    ensures IsDigit(c)
  {
    ('0' as int + d) as char
  }

  function Decimal(n: nat): (s: string)
    ensures s != [] && AllDigits(s)
    decreases n
  {
    if n < 10 then [DigitChar(n)] else Decimal(n / 10) + [DigitChar(n % 10)]
  }

  function ParseDecimal(s: string): nat
    requires AllDigits(s)
    decreases |s|
  {
    if s == [] then 0
    else ParseDecimal(s[..|s| - 1]) * 10 + (s[|s| - 1] as int - '0' as int)
  }

  lemma {:induction false} DecimalRoundTrip(n: nat)
    ensures ParseDecimal(Decimal(n)) == n
    decreases n
  {
    var s := Decimal(n);
    if n >= 10 {
      assert s[..|s| - 1] == Decimal(n / 10);
      DecimalRoundTrip(n / 10);
    }
  }

  // ---------------------------------------------------------------------
  // Button custom ids: "task_" + list name + "_" + position

  function CustomId(listName: string, index: nat): string {
    "task_" + listName + "_" + Decimal(index)
  }

  /** The position of the last underscore of s. */
  function LastUnderscore(s: string): (r: Option<nat>)
    ensures r.Some? ==> r.value < |s| && s[r.value] == '_'
    ensures r.Some? ==> forall j :: r.value < j < |s| ==> s[j] != '_'
    ensures r.None? ==> '_' !in s
    decreases |s|
  {
    if s == [] then None
    else if s[|s| - 1] == '_' then Some(|s| - 1)
    else
      var r := LastUnderscore(s[..|s| - 1]);
      assert s == s[..|s| - 1] + [s[|s| - 1]];
      r
  }

  /** Reads a custom id back into (list name, position); the inverse of CustomId. */
  function ParseCustomId(id: string): Option<(string, nat)> {
    if |id| < 5 || id[..5] != "task_" then None
    else
      var rest := id[5..];
      match LastUnderscore(rest)
      case None => None
      case Some(k) =>
        var digits := rest[k + 1..];
        if digits != [] && AllDigits(digits) then Some((rest[..k], ParseDecimal(digits))) else None
  }

  lemma CustomIdRoundTrip(listName: string, index: nat)
    ensures ParseCustomId(CustomId(listName, index)) == Some((listName, index))
  {
    var id := CustomId(listName, index);
    var digits := Decimal(index);
    assert id[..5] == "task_";
    var rest := id[5..];
    assert rest == listName + "_" + digits;
    assert rest[|listName|] == '_';
    var k := LastUnderscore(rest).value;
    assert rest[k + 1..] == digits;
    assert rest[..k] == listName;
    DecimalRoundTrip(index);
  }

  /** Distinct (list, position) pairs never share a custom id. The id does not
      name the guild, so this holds within one guild only: two guilds with a
      list of the same name give their buttons identical ids. */
  lemma CustomIdsDistinct(listName: string, i: nat, otherName: string, j: nat)
    requires listName != otherName || i != j
    ensures CustomId(listName, i) != CustomId(otherName, j)
  {
    CustomIdRoundTrip(listName, i);
    CustomIdRoundTrip(otherName, j);
  }

  // ---------------------------------------------------------------------
  // Buttons

  datatype ButtonStyle = Success | Secondary

  /** A toggle button; `target` is the task index its callback toggles. */
  datatype Button = Button(caption: string, style: ButtonStyle, customId: string, target: nat)

  function ButtonFor(listName: string, index: nat, t: Task): Button {
    if t.completed then Button([Checked] + " " + t.name, Success, CustomId(listName, index), index)
    else Button([Unchecked] + " " + t.name, Secondary, CustomId(listName, index), index)
  }

  /** The button loop of the view: one button per task, in task order. */
  method BuildButtons(listName: string, tasks: seq<Task>) returns (buttons: seq<Button>)
    ensures |buttons| == |tasks|
    ensures forall i :: 0 <= i < |tasks| ==> buttons[i] == ButtonFor(listName, i, tasks[i])
    ensures forall i :: 0 <= i < |buttons| ==> buttons[i].target == i
    ensures forall i, j :: 0 <= i < j < |buttons| ==> buttons[i].customId != buttons[j].customId
  {
    buttons := [];
    var i := 0;
    while i < |tasks|
      invariant 0 <= i <= |tasks|
      invariant |buttons| == i
      invariant forall k :: 0 <= k < i ==> buttons[k] == ButtonFor(listName, k, tasks[k])
    {
      buttons := buttons + [ButtonFor(listName, i, tasks[i])];
      i := i + 1;
    }
    forall i, j | 0 <= i < j < |buttons|
      ensures buttons[i].customId != buttons[j].customId
    {
      CustomIdsDistinct(listName, i, listName, j);
    }
  }

  // ---------------------------------------------------------------------
  // Status lines and the Tasks field

  /** The status line of one task: struck through when done, with a mention
      of the completer when one is recorded (an empty id counts as none). */
  function StatusLine(t: Task): (line: string)
    ensures line != [] && line[0] == (if t.completed then Checked else Unchecked)
    ensures !t.completed ==> line == [Unchecked] + " " + t.name
  {
    if t.completed then
      if t.completedBy.Some? && t.completedBy.value != [] then
        [Checked] + " ~~" + t.name + "~~ (by <@" + t.completedBy.value + ">)"
      else
        [Checked] + " ~~" + t.name + "~~"
    else
      [Unchecked] + " " + t.name
  }

  function StatusLines(tasks: seq<Task>): seq<string> {
    seq(|tasks|, i requires 0 <= i < |tasks| => StatusLine(tasks[i]))
  }

  /** The status loop of the embed: one line per task, in task order. */
  method BuildTaskStatus(tasks: seq<Task>) returns (lines: seq<string>)
    ensures |lines| == |tasks|
    ensures forall i :: 0 <= i < |tasks| ==> lines[i] == StatusLine(tasks[i])
  {
    lines := [];
    var i := 0;
    while i < |tasks|
      invariant 0 <= i <= |tasks|
      invariant |lines| == i
      invariant forall k :: 0 <= k < i ==> lines[k] == StatusLine(tasks[k])
    {
      lines := lines + [StatusLine(tasks[i])];
      i := i + 1;
    }
  }

  /** Python's "\n".join. */
  function Join(lines: seq<string>): string
    decreases |lines|
  {
    if |lines| == 0 then ""
    else if |lines| == 1 then lines[0]
    else lines[0] + "\n" + Join(lines[1..])
  }

  function FirstNewline(s: string): (r: Option<nat>)
    ensures r.Some? ==> r.value < |s| && s[r.value] == '\n' && '\n' !in s[..r.value]
    ensures r.None? ==> '\n' !in s
    decreases |s|
  {
    if s == [] then None
    else if s[0] == '\n' then Some(0)
    else
      match FirstNewline(s[1..])
      case None => None
      case Some(k) =>
        assert s[..k + 1] == [s[0]] + s[1..][..k];
        Some(k + 1)
  }

  /** The lines a reader sees in a text: the pieces between newlines. */
  function Split(s: string): seq<string>
    decreases |s|
  {
    match FirstNewline(s)
    case None => [s]
    case Some(k) => [s[..k]] + Split(s[k + 1..])
  }

  lemma {:induction false} SplitJoin(lines: seq<string>)
    requires |lines| >= 1
    requires forall i :: 0 <= i < |lines| ==> '\n' !in lines[i]
    ensures Split(Join(lines)) == lines
    decreases |lines|
  {
    if |lines| > 1 {
      var s := Join(lines);
      var head := lines[0];
      assert s == head + "\n" + Join(lines[1..]);
      assert s[|head|] == '\n';
      var k := FirstNewline(s).value;
      assert s[..k] == head;
      assert s[k + 1..] == Join(lines[1..]);
      SplitJoin(lines[1..]);
    }
  }

  predicate SingleLineTask(t: Task) {
    && '\n' !in t.name
    && (t.completedBy.Some? ==> '\n' !in t.completedBy.value)
  }

  lemma StatusLineIsOneLine(t: Task)
    requires SingleLineTask(t)
    ensures '\n' !in StatusLine(t)
  {
  }

  /** The Tasks field of the embed; it is left out when the list is empty. */
  function TaskField(tasks: seq<Task>): Option<string> {
    if tasks == [] then None else Some(Join(StatusLines(tasks)))
  }

  /** When no task name or completer id holds a line break, the Tasks field
      reads back as exactly one status line per task, in task order. */
  lemma TaskFieldLines(tasks: seq<Task>)
    requires tasks != []
    requires forall i :: 0 <= i < |tasks| ==> SingleLineTask(tasks[i])
    ensures TaskField(tasks).Some?
    ensures Split(TaskField(tasks).value) == StatusLines(tasks)
    ensures |Split(TaskField(tasks).value)| == |tasks|
  {
    var lines := StatusLines(tasks);
    forall i | 0 <= i < |lines|
      ensures '\n' !in lines[i]
    {
      StatusLineIsOneLine(tasks[i]);
    }
    SplitJoin(lines);
  }

  // ---------------------------------------------------------------------
  // The embed of one list and the overview of a guild

  /** What the embed of a list carries besides its fixed title, colour and footer. */
  datatype TaskEmbed = TaskEmbed(description: string, completed: nat, total: nat, tasksField: Option<string>)

  method CreateTaskEmbed(list: TaskList) returns (e: TaskEmbed)
    ensures e.description == list.description
    ensures e.completed == CompletedCount(list.tasks) && e.total == |list.tasks|
    ensures e.completed <= e.total
    ensures e.tasksField.Some? <==> list.tasks != []
    ensures e.tasksField == TaskField(list.tasks)
  {
    var completed := CompletedCount(list.tasks);
    var total := |list.tasks|;
    var field := None;
    if list.tasks != [] {
      var lines := BuildTaskStatus(list.tasks);
      assert lines == StatusLines(list.tasks);
      field := Some(Join(lines));
    }
    e := TaskEmbed(list.description, completed, total, field);
  }

  /** `!show_tasklist list`: the embed and the buttons of one list. */
  method ShowTaskList(doc: Document, guild: GuildId, listName: string) returns (r: Result<(TaskEmbed, seq<Button>)>)
    ensures r.Ok? <==> HasList(doc, guild, listName)
    ensures r.Err? ==> r.error == ListNotFound
    ensures r.Ok? ==>
      var list := doc[guild][listName];
      && r.value.0.description == list.description
      && r.value.0.completed == CompletedCount(list.tasks) && r.value.0.total == |list.tasks|
      && r.value.0.tasksField == TaskField(list.tasks)
      && |r.value.1| == |list.tasks|
      && forall i :: 0 <= i < |list.tasks| ==> r.value.1[i] == ButtonFor(listName, i, list.tasks[i])
  {
    if guild !in doc || listName !in doc[guild] {
      return Err(ListNotFound);
    }
    var list := doc[guild][listName];
    var buttons := BuildButtons(listName, list.tasks);
    var embed := CreateTaskEmbed(list);
    r := Ok((embed, buttons));
  }

  /** One field of the overview: progress and description of a list. */
  datatype Summary = Summary(completed: nat, total: nat, description: string)

  function SummaryOf(list: TaskList): (s: Summary)
    ensures s.completed <= s.total == |list.tasks|
  {
    Summary(CompletedCount(list.tasks), |list.tasks|, list.description)
  }

  /** `!list_tasklists`: one summary per list of the guild. Fields are keyed
      by list name; the order Discord shows them in is not modelled. */
  method ListTaskLists(doc: Document, guild: GuildId) returns (r: Result<map<string, Summary>>)
    ensures r.Err? <==> guild !in doc || doc[guild] == map[]
    ensures r.Err? ==> r.error == NoListsFound
    ensures r.Ok? ==> r.value.Keys == doc[guild].Keys
    ensures r.Ok? ==> forall n :: n in r.value ==> r.value[n] == SummaryOf(doc[guild][n])
  {
    if guild !in doc || doc[guild] == map[] {
      return Err(NoListsFound);
    }
    var lists := doc[guild];
    var fields: map<string, Summary> := map[];
    var remaining := lists.Keys;
    while remaining != {}
      invariant remaining <= lists.Keys
      invariant fields.Keys == lists.Keys - remaining
      invariant forall n :: n in fields ==> fields[n] == SummaryOf(lists[n])
      decreases remaining
    {
      var name :| name in remaining;
      var list := lists[name];
      var completed := CompletedCount(list.tasks);
      var total := |list.tasks|;
      fields := fields[name := Summary(completed, total, list.description)];
      remaining := remaining - {name};
    }
    r := Ok(fields);
  }
}
