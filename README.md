# TaskMaster task engine in Dafny

TaskMaster is a desktop to-do application. This project models the task
engine inside its two revisions, without the windows around it.

- **First revision (`Sample1.py`).** Tasks live in a `Queue`. Every add,
  complete and delete pushes a history entry onto an undo `Stack` and
  starts a new, empty redo `Stack`. Undo and redo move one entry between
  the two stacks and replay it on the list.
- **Second revision (`task_manager.py`).** Tasks live in a plain list with
  no history. Tasks carry a creation time stamp, and a missing or empty
  category becomes "Uncategorized".

Both revisions save the list as a JSON array of task objects and read it
back.

## How the model is built

Modules follow the program's structure:

- `Wrappers`: `Option` and `Result`.
- `Records`: the JSON side. A task object is a `Dict` from key to `Value`
  (text or boolean). The file is `Missing`, `Malformed` or a `Document`
  holding an array of objects.
- `Lists`: the Python list operations used, in particular `list.remove`.
  `Remove` removes the first element equal to its argument, or gives
  `None` where Python raises `ValueError`.
- `Containers`: `Queue` and `Stack` as classes whose `items` field the
  methods update in place.
- `Tasks` and `Dashboard`: the task class and `TaskManagerApp` of the
  first revision.
- `PlainTasks` and `PlainDashboard`: the same for the second revision.

Tasks are objects (Dafny classes). Python's `Task` has no `__eq__`, so
`list.remove(task)` looks for that very object, not for a task with equal
fields. History entries hold references to the same objects as the list.

A user action through the tree view becomes a `title` parameter: the
title of the selected row. A warning box that returns early becomes "the
state is unchanged". Each action's `save_tasks` call is modelled separately
as `Document()`, the array that would be written. `datetime.now()` becomes
a `now: string` parameter.

In the first revision, `list.remove` in undo or redo can fail. The class
predicate `HistoryConsistent` says the histories never ask for it. It holds
when every undo entry, replayed from the top, finds its task in the list,
and the same for redo. It is stated with the replay predicates
`UndoReplays` and `RedoReplays`. Every action preserves it. Under it, undo
and redo never end in `NotInList`.

## Model

| member | source | states |
|---|---|---|
| Containers.Queue.constructor | Sample1.py:20 | a new queue holds no items |
| Containers.Queue.IsEmpty | Sample1.py:21 | true exactly when the queue holds no items |
| Containers.Queue.Size | Sample1.py:22 | the number of items held |
| Containers.Queue.Enqueue | Sample1.py:25 | the item is added after all the others |
| Containers.Queue.Dequeue | Sample1.py:26 | returns and removes the earliest item; with no items, returns None and changes nothing |
| Containers.Stack.constructor | Sample1.py:20 | a new stack holds no items |
| Containers.Stack.IsEmpty | Sample1.py:21 | true exactly when the stack holds no items |
| Containers.Stack.Size | Sample1.py:22 | the number of items held |
| Containers.Stack.Push | Sample1.py:29 | the item goes on top |
| Containers.Stack.Pop | Sample1.py:30 | returns and removes the top item; with no items, returns None and changes nothing |
| Containers.ContainerOrder | Sample1.py:24-30 | after enqueueing then pushing x and y, dequeue gives x (first in, first out) and pop gives y (last in, first out) |
| Lists.IndexOf | Sample1.py:365-370 | the position of the first element equal to x, or the length when there is none |
| Lists.RemoveAt | Sample1.py:384 | drops the element at i: everything before stays in place, everything after moves down by one, and the multiset loses exactly that element |
| Lists.Remove | Sample1.py:451 | `list.remove`: None exactly when x is absent; otherwise one fewer element and the multiset loses one x |
| Lists.RemoveFirstOccurrence | Sample1.py:382-384 | removing the element found by a first-match scan removes it at that scan position |
| Lists.RemoveAppended | Sample1.py:449-451 | removing an element just appended, absent before, gives the list back |
| Records.TextOr | Sample1.py:99-103 | `dict.get` with a default: the default when the key is absent, the stored text otherwise |
| Records.Text | task_manager.py:33-36 | `data[key]` for a text field: KeyError when the key is absent |
| Records.Flag | Sample1.py:105 | `data[key]` for "completed": KeyError when absent, the stored boolean otherwise |
| Tasks.Task.constructor | Sample1.py:78-84 | a new task has the five given fields and is not completed |
| Tasks.Task.ToDict | Sample1.py:86-94 | writes exactly the six keys, and `from_dict` of the result reproduces every field |
| Tasks.Task.FromDict | Sample1.py:96-106 | a new task whose fields are the decoded ones, or the decoding error |
| Tasks.Decode | Sample1.py:96-106 | succeeds exactly when "completed" is a present boolean and the text keys present hold text; a missing "completed" is a KeyError; absent text keys default to "", "", "", "Low" and "Other" |
| Tasks.DecodeEncode | Sample1.py:86-106 | `from_dict(to_dict(t))` reproduces all six fields |
| Tasks.EncodeDecode | Sample1.py:86-106 | an object with exactly the six keys, readable, is what `to_dict` writes for the task read from it |
| Tasks.FirstMatch | Sample1.py:365-366 | the position where the first-match loop stops: its title matches and no earlier title does |
| Tasks.DecodeAll | Sample1.py:338-342 | a document loads exactly when every object does, into tasks in file order |
| Tasks.DecodeAllFailsAt | Sample1.py:341-342 | the error of a document is the error of its first rejected object |
| Tasks.DecodedPrefix | Sample1.py:341-342 | the objects loaded before an error form the decoded prefix of the document |
| Tasks.DecodeAllEncodeAll | Sample1.py:334-342 | saving then loading reproduces every task's fields, in order |
| Dashboard.UndoReplaysMore | Sample1.py:338-342 | tasks appended by loading never make undoing fail |
| Dashboard.RedoReplaysMore | Sample1.py:338-342 | tasks appended by loading never make redoing fail |
| Dashboard.RecordAdd | Sample1.py:324-326 | after appending a task and pushing ("add", task), the undo history is still replayable |
| Dashboard.RecordDelete | Sample1.py:384-385 | after removing a task and pushing ("delete", task), the undo history is still replayable |
| Dashboard.RecordComplete | Sample1.py:367-369 | pushing ("complete", task, flag) keeps the undo history replayable |
| Dashboard.UndoStep | Sample1.py:448-460 | undoing the top entry of replayable histories finds its task; both histories stay replayable after the entry crosses to redo |
| Dashboard.RedoStep | Sample1.py:470-482 | redoing the top entry of replayable histories finds its task; both histories stay replayable after the entry crosses back to undo |
| Dashboard.TaskManagerApp.constructor | Sample1.py:226-228 | an empty task queue and two empty stacks, history consistent |
| Dashboard.TaskManagerApp.LoadTasks | Sample1.py:338-344 | a missing or malformed file gives a new empty queue; otherwise each object becomes a new task appended in file order; at the first rejected object the error is returned and earlier tasks stay loaded; history consistency is kept |
| Dashboard.TaskManagerApp.EnqueueAll | Sample1.py:340-342 | the loading loop: each object read becomes a new task at the end of the queue until the first rejected one, whose error is returned |
| Dashboard.TaskManagerApp.Document | Sample1.py:334-336 | the array `save_tasks` writes, one object per task, from which loading recovers every task's fields |
| Dashboard.TaskManagerApp.FindByTitle | Sample1.py:365-366 | the loop stops at the first task with the title, or at the end |
| Dashboard.TaskManagerApp.AddTask | Sample1.py:319-327 | empty title: nothing changes; otherwise one new, incomplete task at the end, ("add", task) pushed, a new empty redo stack, history consistency kept |
| Dashboard.TaskManagerApp.CompleteTask | Sample1.py:365-370 | only the first match has its flag flipped; ("complete", task, old flag) pushed and redo emptied; with no match nothing changes, redo included |
| Dashboard.TaskManagerApp.ToggleRecorded | Sample1.py:367-369 | pushes ("complete", task, old flag), starts an empty redo stack and flips the flag, keeping history consistency |
| Dashboard.TaskManagerApp.DeleteTask | Sample1.py:382-387 | only the first match leaves the list, the others keep their order; ("delete", task) pushed and redo emptied; with no match nothing changes |
| Dashboard.TaskManagerApp.EditTask | Sample1.py:399-401 | the task the edit window is opened for: the first with the title, if any |
| Dashboard.TaskManagerApp.SaveChanges | Sample1.py:430-435 | overwrites the five text fields and keeps the flag; list and stacks untouched, so an edit is never undoable |
| Dashboard.TaskManagerApp.UndoEffect | Sample1.py:448-459 | undo's effect on the list and the task: an added task is removed, a deleted one re-appended at the end, a "complete" entry's flag restored |
| Dashboard.TaskManagerApp.RedoEffect | Sample1.py:470-481 | redo's effect: an added task is appended, a deleted one removed, a "complete" entry sets the negation of its flag |
| Dashboard.TaskManagerApp.Undo | Sample1.py:443-463 | empty undo stack: nothing changes; otherwise the top entry is popped and undone; a failed `list.remove` leaves the list and redo as they were; on success the entry is pushed onto redo (a "complete" entry with its flag negated), so the number of entries is kept; a consistent history never fails and stays consistent |
| Dashboard.TaskManagerApp.Redo | Sample1.py:465-485 | the mirror of Undo: the entry goes back onto the undo stack unchanged, and a "complete" entry sets `not flag` |
| Dashboard.TaskManagerApp.AddThenUndo | Sample1.py:443-451 | adding a task then undoing restores the list and the undo stack |
| Dashboard.TaskManagerApp.DeleteThenUndo | Sample1.py:452-456 | deleting then undoing puts the task at the end of the list, not back at its old place |
| Dashboard.TaskManagerApp.CompleteUndoRedo | Sample1.py:457-482 | toggle, undo, redo leaves the task at its pre-toggle value, because redo does not toggle again |
| PlainTasks.CategoryOr | task_manager.py:15 | `category or "Uncategorized"`: never empty, any non-empty category kept |
| PlainTasks.Task.constructor | task_manager.py:10-17 | a new task is not completed, its category has gone through the `or`, and it is stamped with `now` |
| PlainTasks.Task.ToDict | task_manager.py:19-28 | writes exactly the seven keys; reading it back at any time gives the fields with the category normalised |
| PlainTasks.Task.FromDict | task_manager.py:30-41 | a new task whose fields are the decoded ones, or the decoding error |
| PlainTasks.Decode | task_manager.py:30-41 | succeeds exactly when title, description, due date, priority and completed are all present and well typed; a missing title is reported first; any other reported key is a required one that is absent; the category falls back to "Uncategorized" and then goes through the `or`; the time stamp defaults to `now` |
| PlainTasks.DecodeEncode | task_manager.py:19-41 | a saved task reloads at any time with its category normalised and every other field kept |
| PlainTasks.RoundTrip | task_manager.py:19-41 | with a non-empty category, `from_dict(to_dict(t))` keeps all seven fields |
| PlainTasks.EmptyCategoryReloads | task_manager.py:30-41 | an empty category, which an edit can store, reloads as "Uncategorized", so that round trip is not exact |
| PlainTasks.MissingCategory | task_manager.py:37 | an object with no category loads into "Uncategorized" |
| PlainTasks.EncodeDecode | task_manager.py:19-41 | an object with exactly the seven keys, readable, with a non-empty category, is what `to_dict` writes for the task read from it |
| PlainTasks.FirstMatch | task_manager.py:311-314 | the position where the first-match loop stops |
| PlainTasks.DecodeAll | task_manager.py:275 | a document loads exactly when every object does, into tasks in file order |
| PlainTasks.DecodeAllFailsAt | task_manager.py:275 | the error of a document is that of its first rejected object |
| PlainTasks.DecodeAllEncodeAll | task_manager.py:268-275 | saving then loading gives every task back in order, with its category normalised |
| PlainTasks.ReloadStable | task_manager.py:268-275 | after one save and load the records are a fixed point of saving and loading |
| PlainDashboard.Without | task_manager.py:326 | the filter drops exactly the tasks with the title and keeps all others |
| PlainDashboard.WithoutLength | task_manager.py:326 | the list shrinks by exactly the number of tasks with the title |
| PlainDashboard.WithoutAppend | task_manager.py:326 | the filter keeps relative order: filtering a concatenation concatenates the filtered parts |
| PlainDashboard.WithoutIdempotent | task_manager.py:326 | deleting a title a second time changes nothing |
| PlainDashboard.WithoutNoMatch | task_manager.py:326 | with no task carrying the title, the list is unchanged |
| PlainDashboard.SaveLoad | task_manager.py:268-275 | saving then loading at any time gives the fields back with categories normalised |
| PlainDashboard.TaskManagerApp.constructor | task_manager.py:126 | the list starts empty |
| PlainDashboard.TaskManagerApp.AddTask | task_manager.py:255-260 | empty title: nothing changes; otherwise exactly one new, incomplete, time-stamped task at the end, and earlier tasks unchanged |
| PlainDashboard.TaskManagerApp.CompleteTask | task_manager.py:311-314 | toggles only the first task with the title; every other task and all titles are unchanged; with no match nothing changes |
| PlainDashboard.TaskManagerApp.DeleteTask | task_manager.py:326 | the list becomes the filter that drops every task with the title |
| PlainDashboard.TaskManagerApp.EditTask | task_manager.py:338-339 | the task the edit window is opened for: the first with the title, if any |
| PlainDashboard.TaskManagerApp.SaveChanges | task_manager.py:383-388 | overwrites the five editable fields, the category verbatim even when empty, and keeps the flag and the time stamp |
| PlainDashboard.TaskManagerApp.LoadTasks | task_manager.py:272-277 | a missing or malformed file gives the empty list; a document becomes new tasks in file order when every object loads; otherwise the error is returned and the list is left as it was |
| PlainDashboard.TaskManagerApp.FromDicts | task_manager.py:275 | the comprehension `[Task.from_dict(task) for task in ...]`: new tasks with the decoded fields in file order, or the first object's error |
| PlainDashboard.TaskManagerApp.Document | task_manager.py:268-270 | the array `save_tasks` writes, which reloads at any time to the tasks' fields with categories normalised |
| PlainDashboard.TaskManagerApp.CompleteTwice | task_manager.py:311-314 | completing the same title twice restores every task |
| PlainDashboard.TaskManagerApp.SaveThenLoad | task_manager.py:268-277 | a restart (save, then load) keeps every field except that empty categories become "Uncategorized" |

## Left out

- The user interface is not modelled: windows, the tree view, message boxes, the edit window's widgets and the refresh of the list display (`load_task_list`). The selected row becomes a `title` parameter.
- The login window and its particle animation are not modelled: random numbers, floating point and timers.
- The SQLite user store and SHA-256 password hashing are not modelled: storage I/O and a library call.
- The landing page, `main` and screen navigation are not modelled: they hold no task logic.
- Opening, writing and closing the file, and JSON text parsing, are not modelled. The file is given as already parsed (`FileContent`), and `save_tasks` as the array it would write (`Document`). The model does not capture that every action also calls `save_tasks`.
- `datetime.now()` is not modelled. It is a `now` parameter, and one `now` serves a whole load, although Python reads the clock once per task.
- Python stores JSON values of any type in a task. The model knows only text and booleans, and a value of the other type one expects is rejected (`WrongType`). This is a model artefact. The order in which those artefact errors are reported is not the program's.
- `DataStructure`, the common base class of `Queue` and `Stack`, is not a separate member: its `items`, `is_empty` and `size` are written out in both classes.
- In both revisions the edit is split into `EditTask` (the first match) and `SaveChanges` (assigning the fields), which the model declares as separate calls. Python's closure may run later and more than once, and changes to the list in between are not modelled.
- A category of `None` passed to the second revision's constructor is not modelled: every caller passes a string, and the empty string takes the same branch of the `or`.
- Dashboard.TaskManagerApp.CompleteUndoRedo, Dashboard.TaskManagerApp.DeleteThenUndo: stated only for a title that some task carries. With no match the undo would pop an unrelated earlier entry.
