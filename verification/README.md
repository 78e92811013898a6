# Task-list bot: a verified model of its document and commands

The bot keeps the task lists of Discord servers ("guilds") in one JSON
document. The document maps a guild id to a map from list name to a task
list. A task list holds a name, a description, the id of its creator and an
ordered sequence of tasks. A task holds a name, a `completed` flag, an
optional `completed_by` user id and the id of the user who added it.

Every command loads the whole document, changes the loaded copy and writes
it back only when it succeeds. So each command is a deterministic function of
(document, guild, list name, arguments, actor) that gives either the new
document or an error, and on an error the document is unchanged.

The model has five modules:

- `TaskData` (task_data.dfy): the entities, the `Find` view of a document,
  the invariant `WellFormed` and the completed-task count. `WellFormed` says
  every list is stored under its own name and `completed_by` is set exactly
  when `completed` is true.
- `Commands` (commands.dfy): create list, add task, remove task, toggle
  task and delete list as pure functions that return `Ok(document)` or
  `Err(error)`. Their contracts state the error conditions (both directions),
  what changes, what keeps its order, and that nothing else changes.
- `Render` (render.dfy): the status line of a task, the status-line loop,
  the button loop with its custom ids `task_<list>_<index>`, the embed of a
  list (progress and Tasks field), `!show_tasklist` and `!list_tasklists`.
- `Store` (store.dfy): the handlers as the bot runs them. `TaskStore`
  stands for tasks.json, and its methods change its `doc` field step by step
  as the source does. `TaskView` is the message view of one list: it rebuilds
  its buttons from the file and its `ToggleTask` is the button callback. Each
  method is proved against the matching `Commands` function.
- `Properties` (properties.dfy): lemmas that relate several commands. They
  cover round trips, progress counts across changes and invariants of any
  sequence of commands.

Two facts about taskList.py shape the model:

- taskList.py has no edit commands and no cap on the number of buttons, so
  the model has neither.
- Toggling twice does not always restore a task: the second toggle records
  its own clicker as `completed_by`. `Properties.ToggleTwice` proves the
  exact condition. The `completed` flag always comes back, and the whole
  document comes back exactly when the task started incomplete or the second
  clicker is the one already recorded.

## Model

| member | source | states |
|---|---|---|
| `TaskData.CompletedCount` | taskList.py:115-116 | the progress count is at most the number of tasks; it is 0 exactly when no task is completed and equals the total exactly when every task is |
| `Commands.CreateList` | taskList.py:161-180 | an empty name fails before anything else; an existing name fails with AlreadyExists; otherwise exactly one list (given name and description, creator = author, no tasks) is added, the guild entry is created if it was missing, every other list and guild is unchanged, and the invariant is kept |
| `Commands.AddTask` | taskList.py:204-215 | fails with ListNotFound exactly when the guild or list is missing; otherwise the list grows by one, the earlier tasks are unchanged, the new last task is incomplete with no completer and added by the author, nothing else changes and the invariant is kept |
| `Commands.RemoveTask` | taskList.py:277-287 | a missing list gives ListNotFound; a number outside 1..len gives InvalidIndex(len); otherwise exactly element number-1 is removed, the rest keep their relative order, the length drops by one and nothing else changes |
| `Commands.ToggleTask` | taskList.py:74-88 | fails with TaskNotFound exactly when the list is missing or the index is past the end; otherwise only that task changes, its flag is negated and completed_by becomes the clicker when now completed and None when not, so the invariant is kept |
| `Commands.DeleteList` | taskList.py:300-311 | a missing list gives ListNotFound; an actor who is neither creator nor able to manage messages gives NotCreator; success happens exactly for creator or moderator, and removes only that key from the guild's map |
| `Render.StatusLine` | taskList.py:127-135 | a status line starts with the check mark exactly when the task is completed; an incomplete task's line is the box and its name |
| `Render.BuildTaskStatus` | taskList.py:124-135 | the status loop yields exactly one line per task, the i-th being the status line of the i-th task |
| `Render.TaskFieldLines` | taskList.py:137-141 | when no task name or completer id contains a line break, the joined Tasks field splits back into exactly the status lines, one per task, in task order |
| `Render.CustomIdRoundTrip` | taskList.py:52-58 | the custom id `task_<list>_<index>` of a button reads back as that list name and index, whatever the list name contains |
| `Render.CustomIdsDistinct` | taskList.py:52-58 | within one guild, two buttons for different (list, index) pairs never share a custom id; the id does not name the guild, so same-named lists in two guilds give identical ids |
| `Render.BuildButtons` | taskList.py:46-62 | the button loop yields one button per task, in task order; button i is labelled and styled from task i's state, its callback targets index i, and no two buttons of the view share a custom id |
| `Render.CreateTaskEmbed` | taskList.py:107-144 | the embed carries the list's description, completed = number of completed tasks, total = number of tasks (so completed ≤ total), and a Tasks field exactly when the list has tasks, holding the joined status lines |
| `Render.ShowTaskList` | taskList.py:229-240 | fails with ListNotFound exactly when the list is missing; otherwise gives the list's embed (its description, completed and total counts, and Tasks field) and its buttons |
| `Render.SummaryOf` | taskList.py:258-259 | a list's overview entry counts completed tasks out of the list's total, never more than the total |
| `Render.ListTaskLists` | taskList.py:245-265 | fails exactly when the guild has no entry or an empty one; otherwise gives one summary per list of the guild and no other |
| `Store.TaskStore.constructor` | taskList.py:17-22 | the store starts from the document the file holds |
| `Store.TaskStore.CreateTaskList` | taskList.py:156-182 | the step-by-step handler saves exactly CreateList's document on success and leaves the file unchanged on error, even though it adds the guild entry to its loaded copy before the duplicate check |
| `Store.TaskStore.AddTask` | taskList.py:196-216 | the handler saves exactly AddTask's document on success and replies with the task and list; the file is unchanged on error |
| `Store.TaskStore.RemoveTask` | taskList.py:269-290 | the handler saves exactly RemoveTask's document and replies with the name of the task that was at number-1; the file is unchanged on error |
| `Store.TaskStore.DeleteTaskList` | taskList.py:292-314 | the handler saves exactly DeleteList's document on success; the file is unchanged on error |
| `Store.TaskView.constructor` | taskList.py:30-34 | a new view remembers its list and guild and shows the buttons of the list as stored |
| `Store.TaskView.UpdateButtons` | taskList.py:36-62 | the view's buttons become those of the stored list, one per task in order, or none when the list is gone |
| `Store.TaskView.ToggleTask` | taskList.py:70-99 | a click saves exactly ToggleTask's document, rebuilds the buttons from it and returns the new embed (description, counts and Tasks field of the changed list); on a missing task the file and the buttons are unchanged and TaskNotFound is replied |
| `Properties.ToggleTwice` | taskList.py:80-88 | two toggles of a well-attributed task restore its completed flag, and restore the whole document exactly when it was incomplete or the second clicker is the recorded completer |
| `Properties.AddThenRemoveLast` | taskList.py:283-287 | removing the last number right after an add gives back the original document |
| `Properties.CreateThenDelete` | taskList.py:168-180 | the creator can always delete a list just created; that restores the document exactly when the guild already had an entry, and otherwise leaves an empty guild entry |
| `Properties.AddKeepsCompleted` | taskList.py:208-215 | after an add the completed count is unchanged and the total grows by one |
| `Properties.RemoveLowersCompleted` | taskList.py:281-287 | after a removal the completed count drops by one exactly when the removed task was completed |
| `Properties.ToggleMovesCompletedByOne` | taskList.py:80-81 | a toggle lowers the completed count by one when the task was completed and raises it by one otherwise |
| `Properties.CreateAddShow` | taskList.py:115-135 | a list just created and given one task shows 0 of 1 completed and the single unchecked line for that task |
| `Properties.RunPreservesWellFormed` | taskList.py:81-88 | any sequence of commands, each applied atomically and saved only on success, keeps every list under its own name and keeps completed_by set exactly when completed |
| `Properties.RunIsolatesGuilds` | taskList.py:165-169 | commands issued in other guilds never change a guild's entry or any of its lists |

## Left out

- `load_tasks` / `save_tasks` (JSON file I/O): the document is a value given to `TaskStore`'s constructor, and saving is an assignment to its `doc` field. A missing file is the empty document. A malformed file makes the bot crash; that is not modelled.
- All Discord SDK use: embed titles, colours and footers, the wording of replies, `ctx.send` / `interaction.response`, and the registration of views in `on_ready`. Replies are the `Reply` and `Error` values. Button styles are kept as `Success` / `Secondary`.
- Discord's own limits (at most 25 components in a view, label lengths). The source adds one button per task with no cap, so the model does too.
- The fixed "0/0" embed and the view that `!create_tasklist` sends, and the view and embed that `!add_task` builds and then discards: they change nothing in the document.
- The follow-up status message of a toggle: it is reduced to `Toggled(name, completed)`.
- The decimal text of the progress field: the embed keeps the two numbers.
- Concurrency between commands and clicks, which race at the file level (the last write wins): every command is one atomic step, and `Properties.Run` applies them in order.
- `bot.run`, dotenv and the token lookup.
- The permission lookup: "may manage messages" is a boolean argument of delete.
- `Commands.ToggleTask` takes the index as a natural number. The only caller is a button callback, whose index comes from `enumerate`. So Python's negative indexing is unreachable there.
- `Render.ListTaskLists` returns a map from list name to summary. The order in which Discord shows the fields (the dict's insertion order) is not modelled.
- `Render.CreateTaskEmbed` and `Render.SummaryOf` use the stored description. The `'No description'` default for a missing key only matters for a hand-edited file, and the model does not cover one.
