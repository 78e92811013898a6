/** Properties that relate several commands: round trips, progress counts
    across changes, and invariants of any sequence of commands, each
    command applied atomically and in order. */
module Properties {
  import opened TaskData
  import opened Commands
  import opened Render

  // ---------------------------------------------------------------------
  // Round trips

  /** Toggling a task twice always restores its `completed` flag, but the
      document comes back unchanged only when the task started incomplete or
      the second clicker is the one recorded as having completed it: the
      second toggle records its own clicker. */
  lemma ToggleTwice(doc: Document, guild: GuildId, listName: string, index: nat, first: UserId, second: UserId)
    requires HasList(doc, guild, listName) && index < |doc[guild][listName].tasks|
    requires Attributed(doc[guild][listName].tasks[index])
    ensures ToggleTask(doc, guild, listName, index, first).Ok?
    ensures ToggleTask(ToggleTask(doc, guild, listName, index, first).value, guild, listName, index, second).Ok?
    ensures
      var t := doc[guild][listName].tasks[index];
      var twice: Document := ToggleTask(ToggleTask(doc, guild, listName, index, first).value, guild, listName, index, second).value;
      && twice[guild][listName].tasks[index].completed == t.completed
      && (twice == doc <==> !t.completed || t.completedBy == Some(second))
  {
    var list := doc[guild][listName];
    var t := list.tasks[index];
    var once: Document := ToggleTask(doc, guild, listName, index, first).value;
    var twice: Document := ToggleTask(once, guild, listName, index, second).value;
    var t1 := t.(completed := !t.completed, completedBy := if !t.completed then Some(first) else None);
    var t2 := t.(completedBy := if t.completed then Some(second) else None);
    var list1 := list.(tasks := list.tasks[index := t1]);
    var list2 := list.(tasks := list.tasks[index := t2]);
    assert once == PutList(doc, guild, listName, list1);
    assert list1.(tasks := list1.tasks[index := t2]) == list2;
    assert twice == PutList(once, guild, listName, list2);
    PutPut(doc, guild, listName, list1, list2);
    if !t.completed || t.completedBy == Some(second) {
      assert list2 == list;
      PutFound(doc, guild, listName);
    } else {
      assert twice[guild][listName].tasks[index] != t;
    }
  }

  /** Adding a task and then removing the last position gives back the document. */
  lemma AddThenRemoveLast(doc: Document, guild: GuildId, listName: string, taskName: string, author: UserId)
    requires HasList(doc, guild, listName)
    ensures AddTask(doc, guild, listName, taskName, author).Ok?
    ensures
      var added: Document := AddTask(doc, guild, listName, taskName, author).value;
      RemoveTask(added, guild, listName, |doc[guild][listName].tasks| + 1) == Ok(doc)
  {
    var list := doc[guild][listName];
    var added: Document := AddTask(doc, guild, listName, taskName, author).value;
    var n := |list.tasks|;
    var back: Document := RemoveTask(added, guild, listName, n + 1).value;
    var grown := list.tasks + [Task(taskName, false, None, author)];
    assert added == PutList(doc, guild, listName, list.(tasks := grown));
    assert grown[..n] + grown[n + 1..] == list.tasks;
    assert back == PutList(added, guild, listName, list);
    PutPut(doc, guild, listName, list.(tasks := grown), list);
    PutFound(doc, guild, listName);
  }

  /** The creator can always delete a list just created. This gives back the
      document exactly when the guild already had an entry; otherwise the
      guild is left with an empty entry. */
  lemma CreateThenDelete(doc: Document, guild: GuildId, name: string, description: string, author: UserId, canManageMessages: bool)
    requires CreateList(doc, guild, name, description, author).Ok?
    ensures
      var created: Document := CreateList(doc, guild, name, description, author).value;
      DeleteList(created, guild, name, author, canManageMessages).Ok?
    ensures
      var created: Document := CreateList(doc, guild, name, description, author).value;
      var back: Document := DeleteList(created, guild, name, author, canManageMessages).value;
      && (back == doc <==> guild in doc)
      && (guild !in doc ==> back == doc[guild := map[]])
  {
    var created: Document := CreateList(doc, guild, name, description, author).value;
    var back: Document := DeleteList(created, guild, name, author, canManageMessages).value;
    assert back[guild] == ListsIn(doc, guild);
    if guild in doc {
      assert back == doc;
    } else {
      assert guild in back;
      assert back == doc[guild := map[]];
    }
  }

  // ---------------------------------------------------------------------
  // Progress across changes

  lemma AddKeepsCompleted(doc: Document, guild: GuildId, listName: string, taskName: string, author: UserId)
    requires AddTask(doc, guild, listName, taskName, author).Ok?
    ensures
      var before, after := doc[guild][listName].tasks, AddTask(doc, guild, listName, taskName, author).value[guild][listName].tasks;
      CompletedCount(after) == CompletedCount(before) && |after| == |before| + 1
  {
  }

  lemma RemoveLowersCompleted(doc: Document, guild: GuildId, listName: string, index: int)
    requires RemoveTask(doc, guild, listName, index).Ok?
    ensures
      var before, after := doc[guild][listName].tasks, RemoveTask(doc, guild, listName, index).value[guild][listName].tasks;
      CompletedCount(after) + Bit(before[index - 1].completed) == CompletedCount(before)
  {
    CountRemove(doc[guild][listName].tasks, index - 1);
  }

  /** A toggle moves the progress count by exactly one, up or down. */
  lemma ToggleMovesCompletedByOne(doc: Document, guild: GuildId, listName: string, index: nat, user: UserId)
    requires ToggleTask(doc, guild, listName, index, user).Ok?
    ensures
      var before, after := doc[guild][listName].tasks, ToggleTask(doc, guild, listName, index, user).value[guild][listName].tasks;
      CompletedCount(after) == if before[index].completed then CompletedCount(before) - 1 else CompletedCount(before) + 1
  {
    var before := doc[guild][listName].tasks;
    var after := ToggleTask(doc, guild, listName, index, user).value[guild][listName].tasks;
    assert after == before[index := after[index]];
    CountUpdate(before, index, after[index]);
  }

  /** A list just created and given one task shows 0 of 1 done and a single
      unchecked line for that task. */
  lemma CreateAddShow(doc: Document, guild: GuildId, name: string, description: string, author: UserId, taskName: string, adder: UserId)
    requires CreateList(doc, guild, name, description, author).Ok?
    ensures AddTask(CreateList(doc, guild, name, description, author).value, guild, name, taskName, adder).Ok?
    ensures
      var shown: Document := AddTask(CreateList(doc, guild, name, description, author).value, guild, name, taskName, adder).value;
      var tasks := shown[guild][name].tasks;
      && CompletedCount(tasks) == 0 && |tasks| == 1
      && TaskField(tasks) == Some([Unchecked] + " " + taskName)
  {
  }

  // ---------------------------------------------------------------------
  // Any sequence of commands

  /** One bot command, with the guild it was issued in and its actor. */
  datatype Command =
    | CreateCmd(guild: GuildId, name: string, description: string, author: UserId)
    | AddCmd(guild: GuildId, listName: string, taskName: string, author: UserId)
    | RemoveCmd(guild: GuildId, listName: string, number: int)
    | ToggleCmd(guild: GuildId, listName: string, index: nat, user: UserId)
    | DeleteCmd(guild: GuildId, listName: string, actor: UserId, canManageMessages: bool)

  function Outcome(doc: Document, cmd: Command): Result<Document> {
    match cmd
    case CreateCmd(g, n, d, a) => CreateList(doc, g, n, d, a)
    case AddCmd(g, n, t, a) => AddTask(doc, g, n, t, a)
    case RemoveCmd(g, n, k) => RemoveTask(doc, g, n, k)
    case ToggleCmd(g, n, i, u) => ToggleTask(doc, g, n, i, u)
    case DeleteCmd(g, n, a, m) => DeleteList(doc, g, n, a, m)
  }

  /** The document saved after one command: the new one on success, the old one otherwise. */
  function Step(doc: Document, cmd: Command): Document {
    if Outcome(doc, cmd).Ok? then Outcome(doc, cmd).value else doc
  }

  function Run(doc: Document, cmds: seq<Command>): Document
    decreases |cmds|
  {
    if cmds == [] then doc else Run(Step(doc, cmds[0]), cmds[1..])
  }

  lemma {:induction false} RunPreservesWellFormed(doc: Document, cmds: seq<Command>)
    requires WellFormed(doc)
    ensures WellFormed(Run(doc, cmds))
    decreases |cmds|
  {
    if cmds != [] {
      RunPreservesWellFormed(Step(doc, cmds[0]), cmds[1..]);
    }
  }

  /** A command changes nothing outside the guild it was issued in. */
  lemma StepIsolatesGuilds(doc: Document, cmd: Command, other: GuildId)
    requires cmd.guild != other
    ensures var d := Step(doc, cmd);
      && (other in d <==> other in doc)
      && forall n :: Find(d, other, n) == Find(doc, other, n)
  {
  }

  /** Commands issued in other guilds never change a guild's lists. */
  lemma {:induction false} RunIsolatesGuilds(doc: Document, cmds: seq<Command>, other: GuildId)
    requires forall i :: 0 <= i < |cmds| ==> cmds[i].guild != other
    ensures var d := Run(doc, cmds);
      && (other in d <==> other in doc)
      && forall n :: Find(d, other, n) == Find(doc, other, n)
    decreases |cmds|
  {
    if cmds != [] {
      StepIsolatesGuilds(doc, cmds[0], other);
      RunIsolatesGuilds(Step(doc, cmds[0]), cmds[1..], other);
    }
  }
}
