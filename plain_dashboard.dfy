/**
 * The task engine of the second revision (task_manager.py, class
 * TaskManagerApp): a plain list of task objects with no history. Deleting
 * filters out every task with the given title; loading replaces the list
 * only when every object in the file becomes a task.
 */
module PlainDashboard {
  import opened Wrappers
  import opened Records
  import opened Lists
  import opened PlainTasks

  /** The list comprehension of `delete_task`: every task whose title differs, in order. */
  function Without(ts: seq<Task>, title: string): (r: seq<Task>)
    reads ts
    ensures |r| <= |ts|
    ensures forall i :: 0 <= i < |r| ==> r[i] in ts && r[i].title != title
    ensures forall i :: 0 <= i < |ts| && ts[i].title != title ==> ts[i] in r
  {
    if ts == [] then []
    else
      var rest := Without(ts[1..], title);
      if ts[0].title == title then rest else [ts[0]] + rest
  }

  /** The list shrinks by exactly the number of tasks carrying the title. */
  lemma {:induction false} WithoutLength(ts: seq<Task>, title: string)
    ensures |Without(ts, title)| == |ts| - multiset(Titles(ts))[title]
  {
    if ts != [] {
      WithoutLength(ts[1..], title);
      assert Titles(ts) == [ts[0].title] + Titles(ts[1..]);
    }
  }

  /** Filtering a concatenation filters each part and keeps them in order. */
  lemma {:induction false} WithoutAppend(a: seq<Task>, b: seq<Task>, title: string)
    ensures Without(a + b, title) == Without(a, title) + Without(b, title)
  {
    if a != [] {
      assert (a + b)[1..] == a[1..] + b;
      WithoutAppend(a[1..], b, title);
    } else {
      assert a + b == b;
    }
  }

  /** Deleting the same title twice is the same as deleting it once. */
  lemma {:induction false} WithoutIdempotent(ts: seq<Task>, title: string)
    ensures Without(Without(ts, title), title) == Without(ts, title)
  {
    if ts != [] {
      WithoutIdempotent(ts[1..], title);
      var rest := Without(ts[1..], title);
      if ts[0].title != title {
        assert ([ts[0]] + rest)[1..] == rest;
      }
    }
  }

  /** With no task carrying the title, deleting changes nothing. */
  lemma {:induction false} WithoutNoMatch(ts: seq<Task>, title: string)
    requires forall i :: 0 <= i < |ts| ==> ts[i].title != title
    ensures Without(ts, title) == ts
  {
    if ts != [] {
      WithoutNoMatch(ts[1..], title);
      assert [ts[0]] + ts[1..] == ts;
    }
  }

  /** Saving and loading at any time gives the tasks' fields back with the category normalised. */
  lemma SaveLoad(fs: seq<TaskFields>)
    ensures forall now :: DecodeAll(EncodeAll(fs), now) == Success(NormalisedAll(fs))
  {
    forall now {
      DecodeAllEncodeAll(fs, now);
    }
  }

  /** The application: its list of tasks. The file path and the widgets are not modelled. */
  class TaskManagerApp {
    var tasks: seq<Task>

    /** The state `__init__` creates before it loads the file. */
    constructor ()
      ensures tasks == []
    {
      tasks := [];
    }

    /**
     * `add_task`: a non-empty title appends one new, incomplete task, stamped
     * with `now`, whose category falls back to "Uncategorized"; an empty title
     * changes nothing.
     */
    method AddTask(title: string, description: string, dueDate: string, priority: string, category: string, now: string)
      modifies this
      ensures title == "" ==> tasks == old(tasks)
      ensures title != "" ==>
        && |tasks| == |old(tasks)| + 1 && tasks[..|old(tasks)|] == old(tasks)
        && fresh(Last(tasks))
        && Last(tasks).Fields() == TaskFields(title, description, dueDate, priority, CategoryOr(category), false, now)
        && FieldsOf(tasks) == old(FieldsOf(tasks)) + [Last(tasks).Fields()]
    {
      if title == "" {
        return;
      }
      var task := new Task(title, description, dueDate, priority, category, now);
      tasks := tasks + [task];
      assert tasks[..|old(tasks)|] == old(tasks);
    }

    /**
     * `complete_task`: the loop stops at the first task with this title and
     * toggles its flag; every other task keeps its fields. With no such task
     * nothing changes.
     */
    method CompleteTask(title: string)
      modifies tasks
      ensures tasks == old(tasks)
      ensures Titles(tasks) == old(Titles(tasks))
      ensures var k := old(FirstMatch(tasks, title));
        k < |tasks| ==>
          var task := tasks[k];
          && task.Fields() == old(task.Fields()).(completed := !old(task.completed))
          && forall t :: t in tasks && t != task ==> t.Fields() == old(t.Fields())
      ensures old(FirstMatch(tasks, title)) == |tasks| ==>
        forall t :: t in tasks ==> t.Fields() == old(t.Fields())
    {
      var i := 0;
      while i < |tasks|
        invariant i <= |tasks|
        invariant forall j :: 0 <= j < i ==> tasks[j].title != title
        invariant forall t :: t in tasks ==> t.Fields() == old(t.Fields())
      {
        if tasks[i].title == title {
          tasks[i].completed := !tasks[i].completed;
          break;
        }
        i := i + 1;
      }
    }

    /** `delete_task`: every task with this title leaves the list. */
    method DeleteTask(title: string)
      modifies this
      ensures tasks == old(Without(tasks, title))
    {
      tasks := Without(tasks, title);
    }

    /** The task `edit_task` opens its window for: the first with this title, if any. */
    method EditTask(title: string) returns (target: Option<Task>)
      ensures var k := FirstMatch(tasks, title);
        target == if k < |tasks| then Some(tasks[k]) else None
    {
      var i := 0;
      while i < |tasks|
        invariant i <= |tasks|
        invariant forall j :: 0 <= j < i ==> tasks[j].title != title
      {
        if tasks[i].title == title {
          return Some(tasks[i]);
        }
        i := i + 1;
      }
      return None;
    }

    /**
     * `save_changes`: the five editable fields take the window's values, the
     * category verbatim (possibly empty); the flag and the time stamp stay.
     */
    method SaveChanges(task: Task, title: string, description: string, dueDate: string, priority: string, category: string)
      modifies task
      ensures task.Fields() == old(task.Fields()).(title := title, description := description,
        dueDate := dueDate, priority := priority, category := category)
    {
      task.title := title;
      task.description := description;
      task.dueDate := dueDate;
      task.priority := priority;
      task.category := category;
    }

    /**
     * `load_tasks`: a missing or malformed file gives the empty list. Otherwise
     * every object becomes a new task, in file order; an object `from_dict`
     * rejects raises a KeyError that the handler does not catch, so the error
     * is returned and the list is left as it was.
     */
    method LoadTasks(file: FileContent, now: string) returns (err: Option<LoadError>)
      modifies this
      ensures !file.Document? ==> err == None && tasks == []
      ensures file.Document? ==> (err == None <==> DecodeAll(file.records, now).Success?)
      ensures file.Document? && err.Some? ==>
        DecodeAll(file.records, now) == Failure(err.value) && tasks == old(tasks)
      ensures file.Document? && err.None? ==>
        && (forall j :: 0 <= j < |tasks| ==> fresh(tasks[j]))
        && FieldsOf(tasks) == DecodeAll(file.records, now).value
    {
      if !file.Document? {
        tasks := [];
        return None;
      }
      var r := FromDicts(file.records, now);
      if r.Failure? {
        return Some(r.error);
      }
      tasks := r.value;
      err := None;
    }

    /**
     * The list comprehension of `load_tasks`: `from_dict` of every object, in
     * file order, or the error of the first object it rejects.
     */
    method FromDicts(ds: seq<Dict>, now: string) returns (r: Result<seq<Task>, LoadError>)
      ensures r.Failure? ==> DecodeAll(ds, now) == Failure(r.error)
      ensures r.Success? ==>
        && DecodeAll(ds, now) == Success(FieldsOf(r.value))
        && forall j :: 0 <= j < |r.value| ==> fresh(r.value[j])
    {
      var loaded: seq<Task> := [];
      var i := 0;
      while i < |ds|
        invariant i <= |ds| && |loaded| == i
        invariant forall j :: 0 <= j < i ==> fresh(loaded[j])
        invariant forall j :: 0 <= j < i ==> Decode(ds[j], now) == Success(loaded[j].Fields())
      {
        var t := Task.FromDict(ds[i], now);
        if t.Failure? {
          DecodeAllFailsAt(ds, now, i);
          return Failure(t.error);
        }
        loaded := loaded + [t.value];
        i := i + 1;
      }
      assert DecodeAll(ds, now).Success?;
      assert FieldsOf(loaded) == DecodeAll(ds, now).value;
      r := Success(loaded);
    }

    /** `save_tasks`: the document written, from which loading at any time recovers every task. */
    function Document(): (doc: seq<Dict>)
      reads this, tasks
      ensures |doc| == |tasks|
      ensures forall now :: DecodeAll(doc, now) == Success(NormalisedAll(FieldsOf(tasks)))
    {
      SaveLoad(FieldsOf(tasks));
      EncodeAll(FieldsOf(tasks))
    }

    /** Toggling the same title twice restores every task. */
    method CompleteTwice(title: string)
      modifies tasks
      ensures tasks == old(tasks) && FieldsOf(tasks) == old(FieldsOf(tasks))
    {
      CompleteTask(title);
      CompleteTask(title);
    }

    /**
     * Saving and loading the file again, as a restart does, keeps the list's
     * length and every field, except that empty categories become
     * "Uncategorized".
     */
    method SaveThenLoad(now: string) returns (err: Option<LoadError>)
      modifies this
      ensures err == None && FieldsOf(tasks) == old(NormalisedAll(FieldsOf(tasks)))
    {
      var doc := Document();
      err := LoadTasks(FileContent.Document(doc), now);
    }
  }
}
