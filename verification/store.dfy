/** The command handlers as the bot runs them: each loads the document from
    tasks.json, changes the loaded copy step by step, and writes it back only
    when the command succeeds. Each is proved against the matching function
    of Commands, whose properties are proved there and in Properties. */
module Store {
  import opened TaskData
  import Commands
  import opened Render

  /** What a handler replies with in the channel. */
  datatype Reply =
    | Created(listName: string)
    | Added(taskName: string, listName: string)
    | Removed(taskName: string, listName: string)
    | Deleted(listName: string)
    | Toggled(taskName: string, completed: bool)
    | Failed(error: Commands.Error)

  /** The tasks.json file; `doc` is what loading it gives. */
  class TaskStore {
    var doc: Document

    constructor (contents: Document)
      ensures doc == contents
    {
      doc := contents;
    }

    method CreateTaskList(guild: GuildId, name: string, description: string, author: UserId) returns (reply: Reply)
      modifies this
      ensures var r := Commands.CreateList(old(doc), guild, name, description, author);
        if r.Ok? then doc == r.value && reply == Created(name)
        else doc == old(doc) && reply == Failed(r.error)
    {
      if name == [] {
        return Failed(Commands.EmptyName);
      }
      var tasks: Document := doc;
      if guild !in tasks {
        // the new guild entry is only written out together with the new list
        tasks := tasks[guild := map[]];
      }
      if name in tasks[guild] {
        return Failed(Commands.AlreadyExists);
      }
      tasks := tasks[guild := tasks[guild][name := TaskList(name, description, author, [])]];
      doc := tasks;
      reply := Created(name);
    }

    method AddTask(guild: GuildId, listName: string, taskName: string, author: UserId) returns (reply: Reply)
      modifies this
      ensures var r := Commands.AddTask(old(doc), guild, listName, taskName, author);
        if r.Ok? then doc == r.value && reply == Added(taskName, listName)
        else doc == old(doc) && reply == Failed(r.error)
    {
      var tasks: Document := doc;
      if guild !in tasks || listName !in tasks[guild] {
        return Failed(Commands.ListNotFound);
      }
      var task := Task(taskName, false, None, author);
      var list: TaskList := tasks[guild][listName];
      tasks := tasks[guild := tasks[guild][listName := list.(tasks := list.tasks + [task])]];
      doc := tasks;
      reply := Added(taskName, listName);
    }

    /** `index` is the 1-based number the user typed. */
    method RemoveTask(guild: GuildId, listName: string, index: int) returns (reply: Reply)
      modifies this
      ensures var r := Commands.RemoveTask(old(doc), guild, listName, index);
        if r.Ok? then doc == r.value && reply == Removed(old(doc)[guild][listName].tasks[index - 1].name, listName)
        else doc == old(doc) && reply == Failed(r.error)
    {
      var tasks: Document := doc;
      if guild !in tasks || listName !in tasks[guild] {
        return Failed(Commands.ListNotFound);
      }
      var list: TaskList := tasks[guild][listName];
      if index < 1 || index > |list.tasks| {
        return Failed(Commands.InvalidIndex(|list.tasks|));
      }
      var removed := list.tasks[index - 1];
      var remaining := list.tasks[..index - 1] + list.tasks[index..];
      tasks := tasks[guild := tasks[guild][listName := list.(tasks := remaining)]];
      doc := tasks;
      reply := Removed(removed.name, listName);
    }

    method DeleteTaskList(guild: GuildId, listName: string, actor: UserId, canManageMessages: bool) returns (reply: Reply)
      modifies this
      ensures var r := Commands.DeleteList(old(doc), guild, listName, actor, canManageMessages);
        if r.Ok? then doc == r.value && reply == Deleted(listName)
        else doc == old(doc) && reply == Failed(r.error)
    {
      var tasks: Document := doc;
      if guild !in tasks || listName !in tasks[guild] {
        return Failed(Commands.ListNotFound);
      }
      var list: TaskList := tasks[guild][listName];
      if actor != list.createdBy && !canManageMessages {
        return Failed(Commands.NotCreator);
      }
      tasks := tasks[guild := tasks[guild] - {listName}];
      doc := tasks;
      reply := Deleted(listName);
    }
  }

  /** The message view of one list: its buttons are rebuilt from the file
      after every change, and each button toggles the task at its position. */
  class TaskView {
    const listName: string
    const guildId: GuildId
    var buttons: seq<Button>

    /** The buttons are those of the list as stored in doc, none if it is gone. */
    ghost predicate Shows(doc: Document)
      reads this
    {
      match Find(doc, guildId, listName)
      case None => buttons == []
      case Some(list) =>
        && |buttons| == |list.tasks|
        && forall i :: 0 <= i < |buttons| ==> buttons[i] == ButtonFor(listName, i, list.tasks[i])
    }

    constructor (listName: string, guildId: GuildId, store: TaskStore)
      ensures this.listName == listName && this.guildId == guildId
      ensures Shows(store.doc)
    {
      this.listName := listName;
      this.guildId := guildId;
      buttons := [];
      new;
      UpdateButtons(store);
    }

    method UpdateButtons(store: TaskStore)
      modifies this`buttons
      ensures Shows(store.doc)
    {
      buttons := [];
      var tasks: Document := store.doc;
      if guildId !in tasks || listName !in tasks[guildId] {
        return;
      }
      var list: TaskList := tasks[guildId][listName];
      buttons := BuildButtons(listName, list.tasks);
    }

    /** The callback of the button at position `index`. */
    method ToggleTask(store: TaskStore, index: nat, user: UserId) returns (reply: Reply, embed: Option<TaskEmbed>)
      modifies store, this`buttons
      ensures var r := Commands.ToggleTask(old(store.doc), guildId, listName, index, user);
        if r.Ok? then
          && store.doc == r.value
          && Shows(store.doc)
          && reply == Toggled(store.doc[guildId][listName].tasks[index].name,
                              store.doc[guildId][listName].tasks[index].completed)
          && embed.Some?
          && embed.value.description == store.doc[guildId][listName].description
          && embed.value.completed == CompletedCount(store.doc[guildId][listName].tasks)
          && embed.value.total == |store.doc[guildId][listName].tasks|
          && embed.value.tasksField == TaskField(store.doc[guildId][listName].tasks)
        else
          && store.doc == old(store.doc)
          && buttons == old(buttons)
          && reply == Failed(Commands.TaskNotFound)
          && embed == None
    {
      var tasks: Document := store.doc;
      if guildId !in tasks || listName !in tasks[guildId] || index >= |tasks[guildId][listName].tasks| {
        return Failed(Commands.TaskNotFound), None;
      }
      var list: TaskList := tasks[guildId][listName];
      var task: Task := list.tasks[index];
      task := task.(completed := !task.completed);
      if task.completed {
        task := task.(completedBy := Some(user));
      } else {
        task := task.(completedBy := None);
      }
      list := list.(tasks := list.tasks[index := task]);
      tasks := tasks[guildId := tasks[guildId][listName := list]];
      store.doc := tasks;
      UpdateButtons(store);
      var e := CreateTaskEmbed(list);
      embed := Some(e);
      reply := Toggled(task.name, task.completed);
    }
  }
}
