/**
 * The task of the second revision (task_manager.py): the five text fields of
 * the first revision, a creation time stamp, a category that falls back to
 * "Uncategorized", and the conversion to and from a JSON object.
 */
module PlainTasks {
  import opened Wrappers
  import opened Records
  import opened Lists

  /** The seven fields of a task, as one value. */
  datatype TaskFields = TaskFields(
    title: string,
    description: string,
    dueDate: string,
    priority: string,
    category: string,
    completed: bool,
    createdAt: string)

  /** The category a task gets when it is given none. */
  const DefaultCategory := "Uncategorized"

  /** The keys `to_dict` writes. */
  const FieldKeys: set<string> :=
    {TitleKey, DescriptionKey, DueDateKey, PriorityKey, CategoryKey, CompletedKey, CreatedAtKey}

  /** The keys `from_dict` reads with `data[key]`, so that their absence is a KeyError. */
  const RequiredKeys: set<string> :=
    {TitleKey, DescriptionKey, DueDateKey, PriorityKey, CompletedKey}

  /** `category or "Uncategorized"`: the empty category is replaced, any other is kept. */
  function CategoryOr(category: string): (r: string)
    ensures r != ""
    ensures category != "" ==> r == category
    ensures category == "" ==> r == DefaultCategory
  {
    if category == "" then DefaultCategory else category
  }

  /** The fields as the constructor would store them: the category passes through CategoryOr. */
  function Normalised(f: TaskFields): TaskFields
  {
    f.(category := CategoryOr(f.category))
  }

  /**
   * A task object. The application changes its fields in place; `now` is the
   * time stamp `datetime.now()` would give.
   */
  class Task {
    var title: string
    var description: string
    var dueDate: string
    var priority: string
    var category: string
    var completed: bool
    var createdAt: string

    /** A new task is not completed, has a non-empty category and is stamped with `now`. */
    constructor (title: string, description: string, dueDate: string, priority: string, category: string, now: string)
      ensures Fields() == TaskFields(title, description, dueDate, priority, CategoryOr(category), false, now)
    {
      this.title := title;
      this.description := description;
      this.dueDate := dueDate;
      this.priority := priority;
      this.category := CategoryOr(category);
      this.completed := false;
      this.createdAt := now;
    }

    /** The current values of the seven fields. */
    function Fields(): TaskFields
      reads this
    {
      TaskFields(title, description, dueDate, priority, category, completed, createdAt)
    }

    /**
     * `to_dict`: the object written to the file. Whatever the time of
     * reading, `from_dict` recovers every field, except that an empty
     * category comes back as "Uncategorized".
     */
    function ToDict(): (d: Dict)
      reads this
      ensures d.Keys == FieldKeys
      ensures forall now :: Decode(d, now) == Success(Normalised(Fields()))
    {
      DecodeEncode(Fields());
      Encode(Fields())
    }

    /**
     * `from_dict`: a new task whose fields are those Decode reads from d, or
     * the error Decode reports.
     */
    static method FromDict(d: Dict, now: string) returns (r: Result<Task, LoadError>)
      ensures r.Failure? ==> Decode(d, now) == Failure(r.error)
      ensures r.Success? ==> fresh(r.value) && Decode(d, now) == Success(r.value.Fields())
    {
      var f := Decode(d, now);
      if f.Failure? {
        return Failure(f.error);
      }
      var v := f.value;
      var task := new Task(v.title, v.description, v.dueDate, v.priority, v.category, now);
      task.completed := v.completed;
      task.createdAt := v.createdAt;
      r := Success(task);
    }
  }

  /** The object `to_dict` builds from the fields. */
  function Encode(f: TaskFields): Dict
  {
    map[TitleKey := Str(f.title),
        DescriptionKey := Str(f.description),
        DueDateKey := Str(f.dueDate),
        PriorityKey := Str(f.priority),
        CategoryKey := Str(f.category),
        CompletedKey := Bool(f.completed),
        CreatedAtKey := Str(f.createdAt)]
  }

  /**
   * Holds when `from_dict` accepts d: every required key is present, the text
   * keys that are present hold text and "completed" holds a boolean.
   */
  predicate Readable(d: Dict)
  {
    && RequiredKeys <= d.Keys
    && d[CompletedKey].Bool?
    && forall key :: key in FieldKeys && key != CompletedKey && key in d ==> d[key].Str?
  }

  /**
   * `from_dict` on values. Title, description, due date, priority and
   * "completed" are read in that order and each is required; the category
   * defaults to "Uncategorized" and goes through the constructor's `or`; the
   * time stamp defaults to `now`.
   */
  function Decode(d: Dict, now: string): (r: Result<TaskFields, LoadError>)
    ensures r.Success? <==> Readable(d)
    ensures TitleKey !in d ==> r == Failure(MissingKey(TitleKey))
    ensures r.Failure? && r.error.MissingKey? ==> r.error.key in RequiredKeys && r.error.key !in d
    ensures r.Success? ==>
      && r.value.title == d[TitleKey].s
      && r.value.description == d[DescriptionKey].s
      && r.value.dueDate == d[DueDateKey].s
      && r.value.priority == d[PriorityKey].s
      && r.value.completed == d[CompletedKey].b
    ensures r.Success? ==>
      && r.value.category == (if CategoryKey in d then CategoryOr(d[CategoryKey].s) else DefaultCategory)
      && r.value.createdAt == (if CreatedAtKey in d then d[CreatedAtKey].s else now)
  {
    var title :- Text(d, TitleKey);
    var description :- Text(d, DescriptionKey);
    var dueDate :- Text(d, DueDateKey);
    var priority :- Text(d, PriorityKey);
    var category :- TextOr(d, CategoryKey, DefaultCategory);
    var completed :- Flag(d, CompletedKey);
    var createdAt :- TextOr(d, CreatedAtKey, now);
    Success(TaskFields(title, description, dueDate, priority, CategoryOr(category), completed, createdAt))
  }

  /** Reading back what `to_dict` wrote gives the fields with the category normalised. */
  lemma DecodeEncode(f: TaskFields)
    ensures forall now :: Decode(Encode(f), now) == Success(Normalised(f))
  {
  }

  /** With a non-empty category the round trip is exact: all seven fields come back. */
  lemma RoundTrip(f: TaskFields, now: string)
    requires f.category != ""
    ensures Decode(Encode(f), now) == Success(f)
  {
    DecodeEncode(f);
  }

  /** An empty category, which an edit can store, is not preserved: it reloads as "Uncategorized". */
  lemma EmptyCategoryReloads(f: TaskFields, now: string)
    requires f.category == ""
    ensures Decode(Encode(f), now) == Success(f.(category := DefaultCategory))
    ensures Decode(Encode(f), now) != Success(f)
  {
    DecodeEncode(f);
  }

  /** An object without a category, with everything else readable, gives a task in "Uncategorized". */
  lemma MissingCategory(d: Dict, now: string)
    requires Readable(d) && CategoryKey !in d
    ensures Decode(d, now).Success? && Decode(d, now).value.category == DefaultCategory
  {
  }

  /** Conversely, an object with all seven keys and a non-empty category is what `to_dict` writes for the task read from it. */
  lemma EncodeDecode(d: Dict, now: string)
    requires d.Keys == FieldKeys && Readable(d) && d[CategoryKey].s != ""
    ensures Encode(Decode(d, now).value) == d
  {
    var e := Encode(Decode(d, now).value);
    forall key | key in FieldKeys
      ensures e[key] == d[key]
    {
    }
  }

  /** The fields of each task of a list, in order. */
  function FieldsOf(ts: seq<Task>): (fs: seq<TaskFields>)
    reads ts
    ensures |fs| == |ts|
    ensures forall i :: 0 <= i < |ts| ==> fs[i] == ts[i].Fields()
  {
    seq(|ts|, i requires 0 <= i < |ts| reads ts => ts[i].Fields())
  }

  /** The titles of a list of tasks, in order. */
  function Titles(ts: seq<Task>): (r: seq<string>)
    reads ts
    ensures |r| == |ts|
    ensures forall i :: 0 <= i < |ts| ==> r[i] == ts[i].title
  {
    seq(|ts|, i requires 0 <= i < |ts| reads ts => ts[i].title)
  }

  /**
   * The position of the task that a loop breaking on the first title match
   * stops at, or |ts| when no title matches.
   */
  function FirstMatch(ts: seq<Task>, title: string): (k: nat)
    reads ts
    ensures k <= |ts|
    ensures k < |ts| ==> ts[k].title == title
    ensures forall j :: 0 <= j < k ==> ts[j].title != title
  {
    IndexOf(Titles(ts), title)
  }

  /** Normalised applied to every record. */
  function NormalisedAll(fs: seq<TaskFields>): (r: seq<TaskFields>)
    ensures |r| == |fs|
    ensures forall i :: 0 <= i < |fs| ==> r[i] == Normalised(fs[i])
  {
    seq(|fs|, i requires 0 <= i < |fs| => Normalised(fs[i]))
  }

  /** The document `save_tasks` writes: `to_dict` of every task, in order. */
  function EncodeAll(fs: seq<TaskFields>): (ds: seq<Dict>)
    ensures |ds| == |fs|
    ensures forall i :: 0 <= i < |fs| ==> ds[i] == Encode(fs[i])
  {
    seq(|fs|, i requires 0 <= i < |fs| => Encode(fs[i]))
  }

  /** `from_dict` over a document, stopping at the first object it rejects. */
  function DecodeAll(ds: seq<Dict>, now: string): (r: Result<seq<TaskFields>, LoadError>)
    ensures r.Success? <==> forall i :: 0 <= i < |ds| ==> Decode(ds[i], now).Success?
    ensures r.Success? ==> |r.value| == |ds|
    ensures r.Success? ==> forall i :: 0 <= i < |ds| ==> r.value[i] == Decode(ds[i], now).value
  {
    if ds == [] then Success([])
    else
      var f :- Decode(ds[0], now);
      var fs :- DecodeAll(ds[1..], now);
      Success([f] + fs)
  }

  /** The error a document reports is that of its first rejected object. */
  lemma {:induction false} DecodeAllFailsAt(ds: seq<Dict>, now: string, k: nat)
    requires k < |ds| && Decode(ds[k], now).Failure?
    requires forall i :: 0 <= i < k ==> Decode(ds[i], now).Success?
    ensures DecodeAll(ds, now) == Failure(Decode(ds[k], now).error)
  {
    if k > 0 {
      DecodeAllFailsAt(ds[1..], now, k - 1);
    }
  }

  /** Saving and loading again gives every task back, in order, with its category normalised. */
  lemma {:induction false} DecodeAllEncodeAll(fs: seq<TaskFields>, now: string)
    ensures DecodeAll(EncodeAll(fs), now) == Success(NormalisedAll(fs))
  {
    forall i | 0 <= i < |fs|
      ensures Decode(EncodeAll(fs)[i], now) == Success(Normalised(fs[i]))
    {
      DecodeEncode(fs[i]);
    }
    var r := DecodeAll(EncodeAll(fs), now);
    assert r.Success? && |r.value| == |fs|;
    assert r.value == NormalisedAll(fs);
  }

  /** After one save and load the records are a fixed point: saving and loading again changes nothing. */
  lemma ReloadStable(fs: seq<TaskFields>, now: string)
    ensures DecodeAll(EncodeAll(NormalisedAll(fs)), now) == Success(NormalisedAll(fs))
  {
    DecodeAllEncodeAll(NormalisedAll(fs), now);
    assert NormalisedAll(NormalisedAll(fs)) == NormalisedAll(fs);
  }
}
