/**
 * The task engine of the first revision (Sample1.py, class TaskManagerApp):
 * a queue of task objects and two stacks of history entries. Every action
 * that changes the list records an entry on the undo stack and starts a new,
 * empty redo stack; undo and redo move one entry between the two stacks.
 */
module Dashboard {
  import opened Wrappers
  import opened Records
  import opened Lists
  import opened Containers
  import opened Tasks

  /** A history entry: the tuples ("add", t), ("delete", t) and ("complete", t, flag). */
  datatype Entry = Add(task: Task) | Delete(task: Task) | Complete(task: Task, flag: bool)

  /**
   * What Undo and Redo end with: the "No actions to ..." message, a replayed
   * entry, or the ValueError of `list.remove` when the entry's task is not in
   * the list.
   */
  datatype Outcome = NothingToDo | Done | NotInList

  /** The task of the top entry: the only object whose fields Undo or Redo may set. */
  function TopTask(es: seq<Entry>): set<Task>
  {
    if es == [] then {} else {Last(es).task}
  }

  /**
   * Undoing the whole of `undo`, from the top, with the tasks `present` in
   * the list, never calls `list.remove` on a task that is not there.
   */
  predicate UndoReplays(present: multiset<Task>, undo: seq<Entry>)
    decreases |undo|
  {
    undo == [] ||
    match Last(undo)
    case Add(t) => t in present && UndoReplays(present - multiset{t}, Front(undo))
    case Delete(t) => UndoReplays(present + multiset{t}, Front(undo))
    case Complete(_, _) => UndoReplays(present, Front(undo))
  }

  /**
   * Redoing the whole of `redo`, from the top, with the tasks `present` in
   * the list, never calls `list.remove` on a task that is not there.
   */
  predicate RedoReplays(present: multiset<Task>, redo: seq<Entry>)
    decreases |redo|
  {
    redo == [] ||
    match Last(redo)
    case Add(t) => RedoReplays(present + multiset{t}, Front(redo))
    case Delete(t) => t in present && RedoReplays(present - multiset{t}, Front(redo))
    case Complete(_, _) => RedoReplays(present, Front(redo))
  }

  /** More tasks in the list never make an undo fail. */
  lemma {:induction false} UndoReplaysMore(present: multiset<Task>, more: multiset<Task>, undo: seq<Entry>)
    requires UndoReplays(present, undo)
    ensures UndoReplays(present + more, undo)
    decreases |undo|
  {
    if undo != [] {
      match Last(undo)
      case Add(t) =>
        assert (present + more) - multiset{t} == (present - multiset{t}) + more;
        UndoReplaysMore(present - multiset{t}, more, Front(undo));
      case Delete(t) =>
        assert (present + more) + multiset{t} == (present + multiset{t}) + more;
        UndoReplaysMore(present + multiset{t}, more, Front(undo));
      case Complete(_, _) =>
        UndoReplaysMore(present, more, Front(undo));
    }
  }

  /** More tasks in the list never make a redo fail. */
  lemma {:induction false} RedoReplaysMore(present: multiset<Task>, more: multiset<Task>, redo: seq<Entry>)
    requires RedoReplays(present, redo)
    ensures RedoReplays(present + more, redo)
    decreases |redo|
  {
    if redo != [] {
      match Last(redo)
      case Add(t) =>
        assert (present + more) + multiset{t} == (present + multiset{t}) + more;
        RedoReplaysMore(present + multiset{t}, more, Front(redo));
      case Delete(t) =>
        assert (present + more) - multiset{t} == (present - multiset{t}) + more;
        RedoReplaysMore(present - multiset{t}, more, Front(redo));
      case Complete(_, _) =>
        RedoReplaysMore(present, more, Front(redo));
    }
  }

  /** Pushing e on top of es: e is the new top and es lies beneath it. */
  lemma Pushed(es: seq<Entry>, e: Entry)
    ensures es + [e] != [] && Last(es + [e]) == e && Front(es + [e]) == es
  {
  }

  /** Recording ("add", t) for a task just appended keeps the undo history replayable. */
  lemma RecordAdd(present: multiset<Task>, undo: seq<Entry>, t: Task)
    requires UndoReplays(present, undo)
    ensures UndoReplays(present + multiset{t}, undo + [Add(t)])
  {
    Pushed(undo, Add(t));
    assert (present + multiset{t}) - multiset{t} == present;
  }

  /** Recording ("delete", t) for a task just removed keeps the undo history replayable. */
  lemma RecordDelete(present: multiset<Task>, undo: seq<Entry>, t: Task)
    requires t in present && UndoReplays(present, undo)
    ensures UndoReplays(present - multiset{t}, undo + [Delete(t)])
  {
    Pushed(undo, Delete(t));
    assert (present - multiset{t}) + multiset{t} == present;
  }

  /** Recording ("complete", t, flag) keeps the undo history replayable. */
  lemma RecordComplete(present: multiset<Task>, undo: seq<Entry>, t: Task, flag: bool)
    requires UndoReplays(present, undo)
    ensures UndoReplays(present, undo + [Complete(t, flag)])
  {
    Pushed(undo, Complete(t, flag));
  }

  /**
   * The list after undoing e: an added task is removed with `list.remove`, a
   * deleted task is appended at the end, a completion leaves the list as it
   * is. None is the ValueError of `list.remove`.
   */
  function UndoList(items: seq<Task>, e: Entry): Option<seq<Task>>
  {
    match e
    case Add(t) => Remove(items, t)
    case Delete(t) => Some(items + [t])
    case Complete(_, _) => Some(items)
  }

  /** The list after redoing e: the forward counterpart of UndoList. */
  function RedoList(items: seq<Task>, e: Entry): Option<seq<Task>>
  {
    match e
    case Add(t) => Some(items + [t])
    case Delete(t) => Remove(items, t)
    case Complete(_, _) => Some(items)
  }

  /** The entry the redo stack receives when e is undone: a "complete" entry has its flag negated. */
  function Undone(e: Entry): Entry
  {
    match e
    case Complete(t, flag) => Complete(t, !flag)
    case _ => e
  }

  /**
   * Undoing the top entry of a replayable history finds its task, and both
   * histories stay replayable once the entry has crossed to the redo stack.
   */
  lemma UndoStep(items: seq<Task>, undo: seq<Entry>, redo: seq<Entry>, e: Entry)
    requires UndoReplays(multiset(items), undo + [e]) && RedoReplays(multiset(items), redo)
    ensures UndoList(items, e).Some?
    ensures UndoReplays(multiset(UndoList(items, e).value), undo)
    ensures RedoReplays(multiset(UndoList(items, e).value), redo + [Undone(e)])
  {
    Pushed(undo, e);
    Pushed(redo, Undone(e));
    var present := multiset(items);
    match e
    case Add(t) =>
      assert (present - multiset{t}) + multiset{t} == present;
    case Delete(t) =>
      assert multiset(items + [t]) == present + multiset{t};
      assert (present + multiset{t}) - multiset{t} == present;
    case Complete(_, _) =>
  }

  /**
   * Redoing the top entry of a replayable history finds its task, and both
   * histories stay replayable once the entry is back on the undo stack.
   */
  lemma RedoStep(items: seq<Task>, undo: seq<Entry>, redo: seq<Entry>, e: Entry)
    requires UndoReplays(multiset(items), undo) && RedoReplays(multiset(items), redo + [e])
    ensures RedoList(items, e).Some?
    ensures UndoReplays(multiset(RedoList(items, e).value), undo + [e])
    ensures RedoReplays(multiset(RedoList(items, e).value), redo)
  {
    Pushed(redo, e);
    Pushed(undo, e);
    var present := multiset(items);
    match e
    case Add(t) =>
      assert multiset(items + [t]) == present + multiset{t};
      assert (present + multiset{t}) - multiset{t} == present;
    case Delete(t) =>
      assert (present - multiset{t}) + multiset{t} == present;
    case Complete(_, _) =>
  }

  class TaskManagerApp {
    var tasks: Queue<Task>
    var undoStack: Stack<Entry>
    var redoStack: Stack<Entry>

    /** The two histories are different stacks. */
    ghost predicate Valid()
      reads this
    {
      undoStack != redoStack
    }

    /**
     * Undoing everything, or redoing everything, would find each task that
     * `list.remove` is asked to remove.
     */
    ghost predicate HistoryConsistent()
      reads this, tasks, undoStack, redoStack
    {
      && UndoReplays(multiset(tasks.items), undoStack.items)
      && RedoReplays(multiset(tasks.items), redoStack.items)
    }

    /** The state `__init__` creates before it loads the file. */
    constructor ()
      ensures Valid() && HistoryConsistent()
      ensures fresh(tasks) && fresh(undoStack) && fresh(redoStack)
      ensures tasks.items == [] && undoStack.items == [] && redoStack.items == []
    {
      tasks := new Queue<Task>();
      undoStack := new Stack<Entry>();
      redoStack := new Stack<Entry>();
    }

    /**
     * `load_tasks`: a missing or malformed file leaves a new empty queue.
     * Otherwise the objects of the document are read in order and each task
     * is enqueued; the KeyError of the first rejected object ends the
     * loading, with the tasks read before it already enqueued.
     */
    method LoadTasks(file: FileContent) returns (err: Option<LoadError>)
      requires Valid()
      modifies this, tasks
      ensures Valid() && undoStack == old(undoStack) && redoStack == old(redoStack)
      ensures !file.Document? ==> err == None && fresh(tasks) && tasks.items == []
      ensures file.Document? ==>
        && tasks == old(tasks)
        && |old(tasks.items)| <= |tasks.items| <= |old(tasks.items)| + |file.records|
        && tasks.items[..|old(tasks.items)|] == old(tasks.items)
      ensures file.Document? ==>
        var added := tasks.items[|old(tasks.items)|..];
        && (forall t :: t in added ==> fresh(t))
        && DecodeAll(file.records[..|added|]) == Success(FieldsOf(added))
        && (err == None <==> |added| == |file.records|)
        && (err.Some? ==> Decode(file.records[|added|]) == Failure(err.value))
        && (err.Some? ==> DecodeAll(file.records) == Failure(err.value))
      ensures file.Document? && old(HistoryConsistent()) ==> HistoryConsistent()
    {
      if !file.Document? {
        tasks := new Queue<Task>();
        return None;
      }
      ghost var added;
      err, added := EnqueueAll(file.records);
      assert tasks.items[|old(tasks.items)|..] == added;
      if old(HistoryConsistent()) {
        UndoReplaysMore(multiset(old(tasks.items)), multiset(added), undoStack.items);
        RedoReplaysMore(multiset(old(tasks.items)), multiset(added), redoStack.items);
      }
    }

    /**
     * The loop of `load_tasks` over a document: each object read in turn
     * becomes a new task at the end of the queue, until the first object
     * `from_dict` rejects.
     */
    method EnqueueAll(ds: seq<Dict>) returns (err: Option<LoadError>, ghost added: seq<Task>)
      modifies tasks
      ensures tasks.items == old(tasks.items) + added && |added| <= |ds|
      ensures forall j :: 0 <= j < |added| ==> fresh(added[j])
      ensures DecodeAll(ds[..|added|]) == Success(FieldsOf(added))
      ensures err == None <==> |added| == |ds|
      ensures err.Some? ==> Decode(ds[|added|]) == Failure(err.value) && DecodeAll(ds) == Failure(err.value)
    {
      added := [];
      var i := 0;
      while i < |ds|
        modifies tasks
        invariant i <= |ds| && |added| == i
        invariant tasks.items == old(tasks.items) + added
        invariant forall j :: 0 <= j < i ==> fresh(added[j])
        invariant forall j :: 0 <= j < i ==> Decode(ds[j]) == Success(added[j].Fields())
      {
        var r := Task.FromDict(ds[i]);
        if r.Failure? {
          DecodeAllFailsAt(ds, i);
          err := Some(r.error);
          break;
        }
        tasks.Enqueue(r.value);
        added := added + [r.value];
        i := i + 1;
      }
      if i == |ds| {
        err := None;
      }
      DecodedPrefix(ds, FieldsOf(added));
    }

    /** `save_tasks`: the document written, from which loading recovers every task's fields. */
    function Document(): (doc: seq<Dict>)
      reads this, tasks, tasks.items
      ensures |doc| == |tasks.items|
      ensures DecodeAll(doc) == Success(FieldsOf(tasks.items))
    {
      DecodeAllEncodeAll(FieldsOf(tasks.items));
      EncodeAll(FieldsOf(tasks.items))
    }

    /** The scan `for task in self.tasks.items: if task.title == title: ... break`. */
    method FindByTitle(title: string) returns (k: nat)
      ensures k == FirstMatch(tasks.items, title)
    {
      var items := tasks.items;
      k := 0;
      while k < |items| && items[k].title != title
        invariant k <= |items|
        invariant forall j :: 0 <= j < k ==> items[j].title != title
      {
        k := k + 1;
      }
    }

    /**
     * `add_task`: with an empty title nothing changes. Otherwise a new,
     * incomplete task goes to the end of the list, ("add", task) is pushed
     * and the redo stack starts empty.
     */
    method AddTask(title: string, description: string, dueDate: string, priority: string, category: string)
      requires Valid()
      modifies this, tasks, undoStack
      ensures Valid() && tasks == old(tasks) && undoStack == old(undoStack)
      ensures title == "" ==>
        && tasks.items == old(tasks.items) && undoStack.items == old(undoStack.items)
        && redoStack == old(redoStack) && redoStack.items == old(redoStack.items)
      ensures title != "" ==>
        && |tasks.items| == |old(tasks.items)| + 1
        && tasks.items[..|old(tasks.items)|] == old(tasks.items)
        && fresh(Last(tasks.items))
        && Last(tasks.items).Fields() == TaskFields(title, description, dueDate, priority, category, false)
        && undoStack.items == old(undoStack.items) + [Add(Last(tasks.items))]
        && fresh(redoStack) && redoStack.items == []
      ensures old(HistoryConsistent()) ==> HistoryConsistent()
    {
      if title == "" {
        return;
      }
      var task := new Task(title, description, dueDate, priority, category);
      tasks.Enqueue(task);
      undoStack.Push(Add(task));
      redoStack := new Stack<Entry>();
      if old(HistoryConsistent()) {
        RecordAdd(multiset(old(tasks.items)), old(undoStack.items), task);
      }
    }

    /**
     * `complete_task`: the first task with this title has its completion
     * flipped, after ("complete", task, old flag) is pushed and the redo stack
     * starts empty. With no such task nothing changes.
     */
    method CompleteTask(title: string)
      requires Valid()
      modifies this, undoStack, tasks.items
      ensures Valid() && tasks == old(tasks) && undoStack == old(undoStack) && tasks.items == old(tasks.items)
      ensures var k := old(FirstMatch(tasks.items, title));
        k == |tasks.items| ==>
          && undoStack.items == old(undoStack.items)
          && redoStack == old(redoStack) && redoStack.items == old(redoStack.items)
          && forall t :: t in tasks.items ==> t.Fields() == old(t.Fields())
      ensures var k := old(FirstMatch(tasks.items, title));
        k < |tasks.items| ==>
          var task := tasks.items[k];
          && task.Fields() == old(task.Fields()).(completed := !old(task.completed))
          && (forall t :: t in tasks.items && t != task ==> t.Fields() == old(t.Fields()))
          && undoStack.items == old(undoStack.items) + [Complete(task, old(task.completed))]
          && fresh(redoStack) && redoStack.items == []
      ensures old(HistoryConsistent()) ==> HistoryConsistent()
    {
      var k := FindByTitle(title);
      if k < |tasks.items| {
        ToggleRecorded(tasks.items[k]);
      }
    }

    /** The body of the loop of `complete_task` once the task is found. */
    method ToggleRecorded(task: Task)
      requires Valid() && task in tasks.items
      modifies this, undoStack, task
      ensures Valid() && tasks == old(tasks) && undoStack == old(undoStack)
      ensures task.Fields() == old(task.Fields()).(completed := !old(task.completed))
      ensures undoStack.items == old(undoStack.items) + [Complete(task, old(task.completed))]
      ensures fresh(redoStack) && redoStack.items == []
      ensures old(HistoryConsistent()) ==> HistoryConsistent()
    {
      undoStack.Push(Complete(task, task.completed));
      redoStack := new Stack<Entry>();
      if old(HistoryConsistent()) {
        RecordComplete(multiset(tasks.items), old(undoStack.items), task, task.completed);
      }
      task.completed := !task.completed;
    }

    /**
     * `delete_task`: the first task with this title leaves the list, the
     * others keep their order, ("delete", task) is pushed and the redo stack
     * starts empty. With no such task nothing changes.
     */
    method DeleteTask(title: string)
      requires Valid()
      modifies this, tasks, undoStack
      ensures Valid() && tasks == old(tasks) && undoStack == old(undoStack)
      ensures var k := old(FirstMatch(tasks.items, title));
        k == |old(tasks.items)| ==>
          && tasks.items == old(tasks.items) && undoStack.items == old(undoStack.items)
          && redoStack == old(redoStack) && redoStack.items == old(redoStack.items)
      ensures var k := old(FirstMatch(tasks.items, title));
        k < |old(tasks.items)| ==>
          && tasks.items == RemoveAt(old(tasks.items), k)
          && undoStack.items == old(undoStack.items) + [Delete(old(tasks.items)[k])]
          && fresh(redoStack) && redoStack.items == []
      ensures old(HistoryConsistent()) ==> HistoryConsistent()
    {
      var k := FindByTitle(title);
      if k < |tasks.items| {
        var task := tasks.items[k];
        // an earlier occurrence of the same object would have matched the title first
        RemoveFirstOccurrence(tasks.items, k);
        var rest := Remove(tasks.items, task);
        tasks.items := rest.value;
        undoStack.Push(Delete(task));
        redoStack := new Stack<Entry>();
        if old(HistoryConsistent()) {
          RecordDelete(multiset(old(tasks.items)), old(undoStack.items), task);
        }
      }
    }

    /** `edit_task`: the task whose fields the edit window will save, the first with this title. */
    method EditTask(title: string) returns (target: Option<Task>)
      ensures var k := FirstMatch(tasks.items, title);
        target == if k < |tasks.items| then Some(tasks.items[k]) else None
    {
      var k := FindByTitle(title);
      target := if k < |tasks.items| then Some(tasks.items[k]) else None;
    }

    /**
     * `save_changes` of the edit window: overwrites the five text fields of
     * the task being edited and keeps its completion flag. No history entry
     * is recorded, so an edit cannot be undone.
     */
    method SaveChanges(task: Task, title: string, description: string, dueDate: string, priority: string, category: string)
      modifies task
      ensures task.Fields() == TaskFields(title, description, dueDate, priority, category, old(task.completed))
      ensures unchanged(this, tasks, undoStack, redoStack)
      ensures old(HistoryConsistent()) ==> HistoryConsistent()
    {
      task.title := title;
      task.description := description;
      task.dueDate := dueDate;
      task.priority := priority;
      task.category := category;
    }

    /**
     * The part of `undo` that touches the task list and the entry's task: an
     * added task is removed, a deleted task is appended, and a "complete"
     * entry restores its recorded flag.
     */
    method UndoEffect(e: Entry, after: seq<Task>)
      requires UndoList(tasks.items, e) == Some(after)
      modifies tasks, e.task
      ensures tasks.items == after
      ensures e.Complete? ==> e.task.Fields() == old(e.task.Fields()).(completed := e.flag)
      ensures !e.Complete? ==> unchanged(e.task)
    {
      match e {
        case Add(task) =>
          tasks.items := after;
        case Delete(task) =>
          tasks.Enqueue(task);
        case Complete(task, previous) =>
          task.completed := previous;
      }
    }

    /**
     * The part of `redo` that touches the task list and the entry's task: an
     * added task is appended again, a deleted task is removed again, and a
     * "complete" entry sets the negation of its flag.
     */
    method RedoEffect(e: Entry, after: seq<Task>)
      requires RedoList(tasks.items, e) == Some(after)
      modifies tasks, e.task
      ensures tasks.items == after
      ensures e.Complete? ==> e.task.Fields() == old(e.task.Fields()).(completed := !e.flag)
      ensures !e.Complete? ==> unchanged(e.task)
    {
      match e {
        case Add(task) =>
          tasks.Enqueue(task);
        case Delete(task) =>
          tasks.items := after;
        case Complete(task, flag) =>
          task.completed := !flag;
      }
    }

    /**
     * `undo`: with an empty undo stack nothing changes. Otherwise its top
     * entry is popped and reversed (UndoList): an added task is removed, a
     * deleted task is appended at the end, not at its old place, and a
     * completed task gets back the recorded flag. The entry goes on the redo
     * stack, a "complete" entry with its flag negated. When `list.remove`
     * does not find the task, the entry is lost and nothing else changes.
     */
    method Undo() returns (outcome: Outcome)
      requires Valid()
      modifies tasks, undoStack, redoStack, TopTask(undoStack.items)
      ensures Valid()
      ensures old(undoStack.items) == [] ==>
        && outcome == NothingToDo
        && tasks.items == old(tasks.items)
        && undoStack.items == old(undoStack.items) && redoStack.items == old(redoStack.items)
      ensures old(undoStack.items) != [] ==>
        var e := Last(old(undoStack.items));
        var after := UndoList(old(tasks.items), e);
        && undoStack.items == Front(old(undoStack.items))
        && (after.None? ==>
              outcome == NotInList && tasks.items == old(tasks.items) && redoStack.items == old(redoStack.items))
        && (after.Some? ==>
              outcome == Done && tasks.items == after.value && redoStack.items == old(redoStack.items) + [Undone(e)])
      ensures old(undoStack.items) != [] ==>
        var e := Last(old(undoStack.items));
        && (e.Complete? ==> e.task.Fields() == old(e.task.Fields()).(completed := e.flag))
        && (!e.Complete? ==> unchanged(e.task))
      ensures outcome == Done ==>
        |undoStack.items| + |redoStack.items| == old(|undoStack.items| + |redoStack.items|)
      ensures old(HistoryConsistent()) ==> outcome != NotInList && HistoryConsistent()
    {
      if undoStack.IsEmpty() {
        return NothingToDo;
      }
      var action := undoStack.Pop();
      var e := action.value;
      assert old(undoStack.items) == undoStack.items + [e];
      ghost var items, undo, redo := tasks.items, undoStack.items, redoStack.items;
      var after := UndoList(tasks.items, e);
      if after.None? {
        // list.remove raises ValueError; the entry is already popped
        return NotInList;
      }
      UndoEffect(e, after.value);
      redoStack.Push(Undone(e));
      outcome := Done;
      if old(HistoryConsistent()) {
        UndoStep(items, undo, redo, e);
      }
    }

    /**
     * `redo`: with an empty redo stack nothing changes. Otherwise its top
     * entry is popped and applied again (RedoList): an added task is
     * appended and a deleted task removed. A "complete" entry sets the
     * negation of its flag, which is the value the task had before it was
     * toggled, so a toggle, an undo and a redo leave the flag where it
     * started. The entry goes back on the undo stack as it was.
     */
    method Redo() returns (outcome: Outcome)
      requires Valid()
      modifies tasks, undoStack, redoStack, TopTask(redoStack.items)
      ensures Valid()
      ensures old(redoStack.items) == [] ==>
        && outcome == NothingToDo
        && tasks.items == old(tasks.items)
        && undoStack.items == old(undoStack.items) && redoStack.items == old(redoStack.items)
      ensures old(redoStack.items) != [] ==>
        var e := Last(old(redoStack.items));
        var after := RedoList(old(tasks.items), e);
        && redoStack.items == Front(old(redoStack.items))
        && (after.None? ==>
              outcome == NotInList && tasks.items == old(tasks.items) && undoStack.items == old(undoStack.items))
        && (after.Some? ==>
              outcome == Done && tasks.items == after.value && undoStack.items == old(undoStack.items) + [e])
      ensures old(redoStack.items) != [] ==>
        var e := Last(old(redoStack.items));
        && (e.Complete? ==> e.task.Fields() == old(e.task.Fields()).(completed := !e.flag))
        && (!e.Complete? ==> unchanged(e.task))
      ensures outcome == Done ==>
        |undoStack.items| + |redoStack.items| == old(|undoStack.items| + |redoStack.items|)
      ensures old(HistoryConsistent()) ==> outcome != NotInList && HistoryConsistent()
    {
      if redoStack.IsEmpty() {
        return NothingToDo;
      }
      var action := redoStack.Pop();
      var e := action.value;
      assert old(redoStack.items) == redoStack.items + [e];
      ghost var items, undo, redo := tasks.items, undoStack.items, redoStack.items;
      var after := RedoList(tasks.items, e);
      if after.None? {
        // list.remove raises ValueError; the entry is already popped
        return NotInList;
      }
      RedoEffect(e, after.value);
      undoStack.Push(e);
      outcome := Done;
      if old(HistoryConsistent()) {
        RedoStep(items, undo, redo, e);
      }
    }

    /**
     * Adding a task and undoing it at once gives back the list and the undo
     * stack as they were.
     */
    method AddThenUndo(title: string, description: string, dueDate: string, priority: string, category: string)
      returns (outcome: Outcome)
      requires Valid() && title != ""
      modifies this, tasks, undoStack, redoStack
      ensures outcome == Done
      ensures tasks.items == old(tasks.items) && undoStack.items == old(undoStack.items)
    {
      AddTask(title, description, dueDate, priority, category);
      RemoveAppended(old(tasks.items), Last(tasks.items));
      outcome := Undo();
    }

    /**
     * Deleting a task and undoing it at once puts the task back at the end of
     * the list, not at the place it was deleted from.
     */
    method DeleteThenUndo(title: string) returns (outcome: Outcome)
      requires Valid() && FirstMatch(tasks.items, title) < |tasks.items|
      modifies this, tasks, tasks.items, undoStack, redoStack
      ensures var k := old(FirstMatch(tasks.items, title));
        && outcome == Done
        && tasks.items == RemoveAt(old(tasks.items), k) + [old(tasks.items)[k]]
    {
      DeleteTask(title);
      outcome := Undo();
    }

    /**
     * A toggle, its undo and the redo that follows leave the task at its
     * pre-toggle value: undo pushes the negated flag and redo sets the
     * negation of that, so the toggle is not applied again.
     */
    method CompleteUndoRedo(title: string) returns (undone: Outcome, redone: Outcome)
      requires Valid() && FirstMatch(tasks.items, title) < |tasks.items|
      modifies this, tasks, tasks.items, undoStack, redoStack
      ensures var k := old(FirstMatch(tasks.items, title));
        && undone == Done && redone == Done
        && tasks.items == old(tasks.items)
        && old(tasks.items)[k].Fields() == old(tasks.items[k].Fields())
    {
      CompleteTask(title);
      undone := Undo();
      redone := Redo();
    }
  }
}
