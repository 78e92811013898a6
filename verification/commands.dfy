/** The document changes made by the bot's commands, each as a function of
    (document, guild, list name, arguments, actor) giving either the document
    to save or the error the command replies with. On every error the file
    is not rewritten, so the document stays as it was. */
module Commands {
  import opened TaskData

  /** The user-facing failures of the commands. */
  datatype Error =
    | EmptyName                // create: no list name was given
    | AlreadyExists            // create: the guild already has a list of that name
    | ListNotFound             // add, remove, show, delete: no such list in the guild
    | InvalidIndex(count: nat) // remove: the 1-based number is outside 1..count
    | TaskNotFound             // toggle: no such list, or the button's index is past the end
    | NotCreator               // delete: neither the creator nor a message moderator
    | NoListsFound             // overview: the guild has no lists

  datatype Result<+T> = Ok(value: T) | Err(error: Error)

  /** `!create_tasklist name [description]`. */
  function CreateList(doc: Document, guild: GuildId, name: string, description: string, author: UserId): (r: Result<Document>)
    ensures name == [] ==> r == Err(EmptyName)
    ensures name != [] && HasList(doc, guild, name) ==> r == Err(AlreadyExists)
    ensures r.Ok? <==> name != [] && !HasList(doc, guild, name)
    ensures r.Ok? ==> r.value.Keys == doc.Keys + {guild}
    ensures r.Ok? ==> r.value[guild].Keys == ListsIn(doc, guild).Keys + {name}
    ensures r.Ok? ==> Find(r.value, guild, name) == Some(TaskList(name, description, author, []))
    ensures r.Ok? ==> Untouched(doc, r.value, guild, name)
    ensures r.Ok? && WellFormed(doc) ==> WellFormed(r.value)
  {
    if name == [] then Err(EmptyName)
    else
      var lists := ListsIn(doc, guild);
      if name in lists then Err(AlreadyExists)
      else Ok(PutList(doc, guild, name, TaskList(name, description, author, [])))
  }

  /** `!add_task list task text`: appends a fresh, incomplete task. */
  function AddTask(doc: Document, guild: GuildId, listName: string, taskName: string, author: UserId): (r: Result<Document>)
    ensures r.Ok? <==> HasList(doc, guild, listName)
    ensures r.Err? ==> r.error == ListNotFound
    ensures r.Ok? ==> r.value.Keys == doc.Keys && HasList(r.value, guild, listName)
    ensures r.Ok? ==> r.value[guild].Keys == doc[guild].Keys
    ensures r.Ok? ==> Untouched(doc, r.value, guild, listName)
    ensures r.Ok? ==>
      var before, after := doc[guild][listName], r.value[guild][listName];
      && after == before.(tasks := after.tasks)
      && |after.tasks| == |before.tasks| + 1
      && after.tasks[..|before.tasks|] == before.tasks
      && after.tasks[|before.tasks|] == Task(taskName, false, None, author)
    ensures r.Ok? && WellFormed(doc) ==> WellFormed(r.value)
  {
    if !HasList(doc, guild, listName) then Err(ListNotFound)
    else
      var list := doc[guild][listName];
      var task := Task(taskName, false, None, author);
      Ok(PutList(doc, guild, listName, list.(tasks := list.tasks + [task])))
  }

  /** `!remove_task list number`: the number is 1-based. */
  function RemoveTask(doc: Document, guild: GuildId, listName: string, index: int): (r: Result<Document>)
    ensures !HasList(doc, guild, listName) ==> r == Err(ListNotFound)
    ensures HasList(doc, guild, listName) && !(1 <= index <= |doc[guild][listName].tasks|) ==>
      r == Err(InvalidIndex(|doc[guild][listName].tasks|))
    ensures r.Ok? <==> HasList(doc, guild, listName) && 1 <= index <= |doc[guild][listName].tasks|
    ensures r.Ok? ==> r.value.Keys == doc.Keys && HasList(r.value, guild, listName)
    ensures r.Ok? ==> r.value[guild].Keys == doc[guild].Keys
    ensures r.Ok? ==> Untouched(doc, r.value, guild, listName)
    ensures r.Ok? ==>
      var before, after := doc[guild][listName], r.value[guild][listName];
      && after == before.(tasks := after.tasks)
      && |after.tasks| == |before.tasks| - 1
      && after.tasks == before.tasks[..index - 1] + before.tasks[index..]
    ensures r.Ok? && WellFormed(doc) ==> WellFormed(r.value)
  {
    if !HasList(doc, guild, listName) then Err(ListNotFound)
    else
      var list := doc[guild][listName];
      if index < 1 || index > |list.tasks| then Err(InvalidIndex(|list.tasks|))
      else
        var tasks := list.tasks[..index - 1] + list.tasks[index..];
        Ok(PutList(doc, guild, listName, list.(tasks := tasks)))
  }

  /** A click on the button of task `index` (0-based, as the button was built). */
  function ToggleTask(doc: Document, guild: GuildId, listName: string, index: nat, user: UserId): (r: Result<Document>)
    ensures r.Ok? <==> HasList(doc, guild, listName) && index < |doc[guild][listName].tasks|
    ensures r.Err? ==> r.error == TaskNotFound
    ensures r.Ok? ==> r.value.Keys == doc.Keys && HasList(r.value, guild, listName)
    ensures r.Ok? ==> r.value[guild].Keys == doc[guild].Keys
    ensures r.Ok? ==> Untouched(doc, r.value, guild, listName)
    ensures r.Ok? ==>
      var before, after := doc[guild][listName], r.value[guild][listName];
      && after == before.(tasks := after.tasks)
      && |after.tasks| == |before.tasks|
      && (forall j :: 0 <= j < |before.tasks| && j != index ==> after.tasks[j] == before.tasks[j])
    ensures r.Ok? ==>
      var t, t' := doc[guild][listName].tasks[index], r.value[guild][listName].tasks[index];
      && t'.name == t.name && t'.addedBy == t.addedBy
      && t'.completed == !t.completed
      && t'.completedBy == (if t'.completed then Some(user) else None)
    ensures r.Ok? && WellFormed(doc) ==> WellFormed(r.value)
  {
    if !HasList(doc, guild, listName) || index >= |doc[guild][listName].tasks| then Err(TaskNotFound)
    else
      var list := doc[guild][listName];
      var t := list.tasks[index];
      var done := !t.completed;
      var t' := t.(completed := done, completedBy := if done then Some(user) else None);
      Ok(PutList(doc, guild, listName, list.(tasks := list.tasks[index := t'])))
  }

  /** `!delete_tasklist list`: only the creator, or a member who may manage messages. */
  function DeleteList(doc: Document, guild: GuildId, listName: string, actor: UserId, canManageMessages: bool): (r: Result<Document>)
    ensures !HasList(doc, guild, listName) ==> r == Err(ListNotFound)
    ensures HasList(doc, guild, listName) && actor != doc[guild][listName].createdBy && !canManageMessages ==>
      r == Err(NotCreator)
    ensures r.Ok? <==>
      HasList(doc, guild, listName) && (actor == doc[guild][listName].createdBy || canManageMessages)
    ensures r.Ok? ==> r.value.Keys == doc.Keys
    ensures r.Ok? ==> r.value[guild].Keys == doc[guild].Keys - {listName}
    ensures r.Ok? ==> Find(r.value, guild, listName) == None
    ensures r.Ok? ==> Untouched(doc, r.value, guild, listName)
    ensures r.Ok? && WellFormed(doc) ==> WellFormed(r.value)
  {
    if !HasList(doc, guild, listName) then Err(ListNotFound)
    else if actor != doc[guild][listName].createdBy && !canManageMessages then Err(NotCreator)
    else Ok(doc[guild := doc[guild] - {listName}])
  }
}
