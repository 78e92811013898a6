/** The in-memory task-list document that every bot command loads, changes
    and saves back to tasks.json: guild id -> list name -> task list. */
module TaskData {

  datatype Option<+T> = None | Some(value: T)

  /** Discord snowflakes are stored in the document as their decimal text. */
  type UserId = string
  type GuildId = string

  /** One task. A JSON `null` and a missing `completed_by` key are both `None`. */
  datatype Task = Task(name: string, completed: bool, completedBy: Option<UserId>, addedBy: UserId)

  datatype TaskList = TaskList(name: string, description: string, createdBy: UserId, tasks: seq<Task>)

  /** The whole persisted document. */
  type Document = map<GuildId, map<string, TaskList>>

  /** The lists of one guild; a guild without an entry has none. */
  function ListsIn(doc: Document, guild: GuildId): map<string, TaskList> {
    if guild in doc then doc[guild] else map[]
  }

  predicate HasList(doc: Document, guild: GuildId, name: string) {
    guild in doc && name in doc[guild]
  }

  /** The list stored under (guild, name), if any. */
  function Find(doc: Document, guild: GuildId, name: string): Option<TaskList> {
    if HasList(doc, guild, name) then Some(doc[guild][name]) else None
  }

  /** The document with `list` stored under (guild, name), creating the guild entry if needed. */
  function PutList(doc: Document, guild: GuildId, name: string, list: TaskList): (d: Document)
    ensures d.Keys == doc.Keys + {guild}
    ensures d[guild].Keys == ListsIn(doc, guild).Keys + {name}
    ensures Find(d, guild, name) == Some(list)
  {
    doc[guild := ListsIn(doc, guild)[name := list]]
  }

  lemma PutPut(doc: Document, guild: GuildId, name: string, a: TaskList, b: TaskList)
    ensures PutList(PutList(doc, guild, name, a), guild, name, b) == PutList(doc, guild, name, b)
  {
    assert ListsIn(PutList(doc, guild, name, a), guild)[name := b] == ListsIn(doc, guild)[name := b];
  }

  lemma PutFound(doc: Document, guild: GuildId, name: string)
    requires HasList(doc, guild, name)
    ensures PutList(doc, guild, name, doc[guild][name]) == doc
  {
    assert doc[guild][name := doc[guild][name]] == doc[guild];
  }

  /** Every list other than the one under (guild, name) is found exactly as before. */
  ghost predicate Untouched(doc: Document, doc': Document, guild: GuildId, name: string) {
    forall g, n :: (g != guild || n != name) ==> Find(doc', g, n) == Find(doc, g, n)
  }

  /** `completed_by` is recorded exactly when the task is completed. */
  predicate Attributed(t: Task) {
    t.completedBy.Some? <==> t.completed
  }

  predicate ListWellFormed(key: string, list: TaskList) {
    && list.name == key
    && forall i :: 0 <= i < |list.tasks| ==> Attributed(list.tasks[i])
  }

  /** The document invariant: every list is stored under its own name and
      every task keeps `completed_by` in step with `completed`. */
  ghost predicate WellFormed(doc: Document) {
    forall g, n :: HasList(doc, g, n) ==> ListWellFormed(n, doc[g][n])
  }

  function Bit(b: bool): nat {
    if b then 1 else 0
  }

  /** The number of completed tasks (the `sum(1 for ...)` of the progress field). */
  function CompletedCount(tasks: seq<Task>): (c: nat)
    ensures c <= |tasks|
    ensures c == 0 <==> forall i :: 0 <= i < |tasks| ==> !tasks[i].completed
    ensures c == |tasks| <==> forall i :: 0 <= i < |tasks| ==> tasks[i].completed
    decreases |tasks|
  {
    if tasks == [] then 0
    else
      var init := tasks[..|tasks| - 1];
      assert forall i :: 0 <= i < |init| ==> init[i] == tasks[i];
      CompletedCount(init) + Bit(tasks[|tasks| - 1].completed)
  }

  lemma CountAppend(tasks: seq<Task>, t: Task)
    ensures CompletedCount(tasks + [t]) == CompletedCount(tasks) + Bit(t.completed)
  {
  }

  /** Replacing one task changes the count by the difference of the two flags. */
  lemma {:induction false} CountUpdate(tasks: seq<Task>, i: nat, t: Task)
    requires i < |tasks|
    ensures CompletedCount(tasks[i := t]) + Bit(tasks[i].completed) == CompletedCount(tasks) + Bit(t.completed)
    decreases |tasks|
  {
    var last := |tasks| - 1;
    var u := tasks[i := t];
    if i == last {
      assert u[..last] == tasks[..last];
    } else {
      assert u[..last] == tasks[..last][i := t];
      CountUpdate(tasks[..last], i, t);
    }
  }

  /** Removing the task at k lowers the count by that task's flag. */
  lemma {:induction false} CountRemove(tasks: seq<Task>, k: nat)
    requires k < |tasks|
    ensures CompletedCount(tasks[..k] + tasks[k + 1..]) + Bit(tasks[k].completed) == CompletedCount(tasks)
    decreases |tasks|
  {
    var last := |tasks| - 1;
    var rest := tasks[..k] + tasks[k + 1..];
    if k == last {
      assert rest == tasks[..last];
    } else {
      var init := tasks[..last];
      assert rest == (init[..k] + init[k + 1..]) + [tasks[last]];
      CountAppend(init[..k] + init[k + 1..], tasks[last]);
      CountRemove(init, k);
    }
  }
}
