/**
 * The task of the first revision (Sample1.py): five text fields and a
 * completion flag, with its conversion to and from a JSON object.
 */
module Tasks {
  import opened Wrappers
  import opened Records
  import opened Lists

  /** The six fields of a task, as one value. */
  datatype TaskFields = TaskFields(
    title: string,
    description: string,
    dueDate: string,
    priority: string,
    category: string,
    completed: bool)

  /** The keys `to_dict` writes. */
  const FieldKeys: set<string> :=
    {TitleKey, DescriptionKey, DueDateKey, PriorityKey, CategoryKey, CompletedKey}

  /**
   * A task object. The list and the undo and redo histories refer to the same
   * objects, and the application changes their fields in place.
   */
  class Task {
    var title: string
    var description: string
    var dueDate: string
    var priority: string
    var category: string
    var completed: bool

    /** A new task is not completed. */
    constructor (title: string, description: string, dueDate: string, priority: string, category: string)
      ensures Fields() == TaskFields(title, description, dueDate, priority, category, false)
    {
      this.title := title;
      this.description := description;
      this.dueDate := dueDate;
      this.priority := priority;
      this.category := category;
      this.completed := false;
    }

    /** The current values of the six fields. */
    function Fields(): TaskFields
      reads this
    {
      TaskFields(title, description, dueDate, priority, category, completed)
    }

    /** `to_dict`: the object written to the file, from which `from_dict` recovers every field. */
    function ToDict(): (d: Dict)
      reads this
      ensures d.Keys == FieldKeys
      ensures Decode(d) == Success(Fields())
    {
      DecodeEncode(Fields());
      Encode(Fields())
    }

    /**
     * `from_dict`: a new task whose fields are those Decode reads from d, or
     * the error Decode reports.
     */
    static method FromDict(d: Dict) returns (r: Result<Task, LoadError>)
      ensures r.Failure? ==> Decode(d) == Failure(r.error)
      ensures r.Success? ==> fresh(r.value) && Decode(d) == Success(r.value.Fields())
    {
      var f := Decode(d);
      if f.Failure? {
        return Failure(f.error);
      }
      var v := f.value;
      var task := new Task(v.title, v.description, v.dueDate, v.priority, v.category);
      task.completed := v.completed;
      r := Success(task);
    }
  }

  /** The object `to_dict` builds from the fields. */
  function Encode(f: TaskFields): Dict
  {
    map[TitleKey := Str(f.title),
        DescriptionKey := Str(f.description),
        DueDateKey := Str(f.dueDate),
        PriorityKey := Str(f.priority),
        CategoryKey := Str(f.category),
        CompletedKey := Bool(f.completed)]
  }

  /**
   * Holds when `from_dict` accepts d: "completed" is present and a boolean,
   * and each text key that is present holds text.
   */
  predicate Readable(d: Dict)
  {
    && CompletedKey in d && d[CompletedKey].Bool?
    && forall key :: key in FieldKeys && key != CompletedKey && key in d ==> d[key].Str?
  }

  /**
   * `from_dict` on values: "completed" is required, and every text key that
   * is absent takes its default ("" for title, description and due date,
   * "Low" for priority, "Other" for category).
   */
  function Decode(d: Dict): (r: Result<TaskFields, LoadError>)
    ensures r.Success? <==> Readable(d)
    ensures CompletedKey !in d ==> r == Failure(MissingKey(CompletedKey))
    ensures r.Success? ==> r.value.completed == d[CompletedKey].b
    ensures r.Success? ==> r.value.title == (if TitleKey in d then d[TitleKey].s else "")
    ensures r.Success? ==> r.value.description == (if DescriptionKey in d then d[DescriptionKey].s else "")
    ensures r.Success? ==> r.value.dueDate == (if DueDateKey in d then d[DueDateKey].s else "")
    ensures r.Success? ==> r.value.priority == (if PriorityKey in d then d[PriorityKey].s else "Low")
    ensures r.Success? ==> r.value.category == (if CategoryKey in d then d[CategoryKey].s else "Other")
  {
    var completed :- Flag(d, CompletedKey);
    var title :- TextOr(d, TitleKey, "");
    var description :- TextOr(d, DescriptionKey, "");
    var dueDate :- TextOr(d, DueDateKey, "");
    var priority :- TextOr(d, PriorityKey, "Low");
    var category :- TextOr(d, CategoryKey, "Other");
    Success(TaskFields(title, description, dueDate, priority, category, completed))
  }

  /** Reading back what `to_dict` wrote reproduces all six fields. */
  lemma DecodeEncode(f: TaskFields)
    ensures Decode(Encode(f)) == Success(f)
  {
  }

  /** Conversely, an object with all six keys is what `to_dict` writes for the task read from it. */
  lemma EncodeDecode(d: Dict)
    requires d.Keys == FieldKeys && Readable(d)
    ensures Encode(Decode(d).value) == d
  {
    var e := Encode(Decode(d).value);
    forall key | key in FieldKeys
      ensures e[key] == d[key]
    {
    }
  }

  /** The fields of each task of a list, in order. */
  function FieldsOf(ts: seq<Task>): (fs: seq<TaskFields>)
    reads ts
    ensures |fs| == |ts|
    ensures forall i :: 0 <= i < |ts| ==> fs[i] == ts[i].Fields()
  {
    seq(|ts|, i requires 0 <= i < |ts| reads ts => ts[i].Fields())
  }

  /** The titles of a list of tasks, in order. */
  function Titles(ts: seq<Task>): (r: seq<string>)
    reads ts
    ensures |r| == |ts|
    ensures forall i :: 0 <= i < |ts| ==> r[i] == ts[i].title
  {
    seq(|ts|, i requires 0 <= i < |ts| reads ts => ts[i].title)
  }

  /**
   * The position of the task that a loop breaking on the first title match
   * stops at, or |ts| when no title matches.
   */
  function FirstMatch(ts: seq<Task>, title: string): (k: nat)
    reads ts
    ensures k <= |ts|
    ensures k < |ts| ==> ts[k].title == title
    ensures forall j :: 0 <= j < k ==> ts[j].title != title
  {
    IndexOf(Titles(ts), title)
  }

  /** The document `save_tasks` writes: `to_dict` of every task, in order. */
  function EncodeAll(fs: seq<TaskFields>): (ds: seq<Dict>)
    ensures |ds| == |fs|
    ensures forall i :: 0 <= i < |fs| ==> ds[i] == Encode(fs[i])
  {
    seq(|fs|, i requires 0 <= i < |fs| => Encode(fs[i]))
  }

  /** `from_dict` over a document, stopping at the first object it rejects. */
  function DecodeAll(ds: seq<Dict>): (r: Result<seq<TaskFields>, LoadError>)
    ensures r.Success? <==> forall i :: 0 <= i < |ds| ==> Decode(ds[i]).Success?
    ensures r.Success? ==> |r.value| == |ds|
    ensures r.Success? ==> forall i :: 0 <= i < |ds| ==> r.value[i] == Decode(ds[i]).value
  {
    if ds == [] then Success([])
    else
      var f :- Decode(ds[0]);
      var fs :- DecodeAll(ds[1..]);
      Success([f] + fs)
  }

  /** The error a document reports is that of its first rejected object. */
  lemma {:induction false} DecodeAllFailsAt(ds: seq<Dict>, k: nat)
    requires k < |ds| && Decode(ds[k]).Failure?
    requires forall i :: 0 <= i < k ==> Decode(ds[i]).Success?
    ensures DecodeAll(ds) == Failure(Decode(ds[k]).error)
  {
    if k > 0 {
      DecodeAllFailsAt(ds[1..], k - 1);
    }
  }

  /** A document whose first |fs| objects decode to fs has fs as its decoded prefix. */
  lemma DecodedPrefix(ds: seq<Dict>, fs: seq<TaskFields>)
    requires |fs| <= |ds|
    requires forall i :: 0 <= i < |fs| ==> Decode(ds[i]) == Success(fs[i])
    ensures DecodeAll(ds[..|fs|]) == Success(fs)
  {
    var r := DecodeAll(ds[..|fs|]);
    assert r.Success? && |r.value| == |fs|;
    assert r.value == fs;
  }

  /** Saving and loading again reproduces every field of every task, in order. */
  lemma {:induction false} DecodeAllEncodeAll(fs: seq<TaskFields>)
    ensures DecodeAll(EncodeAll(fs)) == Success(fs)
  {
    forall i | 0 <= i < |fs|
      ensures Decode(EncodeAll(fs)[i]) == Success(fs[i])
    {
      DecodeEncode(fs[i]);
    }
    var r := DecodeAll(EncodeAll(fs));
    assert r.Success? && |r.value| == |fs|;
    assert r.value == fs;
  }
}
