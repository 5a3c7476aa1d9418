/**
 * The task file as the application sees it once `json.load` has run: every
 * task is a JSON object, here a map from key to value, and the file holds an
 * array of them. Both revisions write and read the same keys.
 */
module Records {
  import opened Wrappers

  /** The JSON values a task object holds: text and booleans. */
  datatype Value = Str(s: string) | Bool(b: bool)

  /** One JSON object, as `to_dict` builds it and `from_dict` reads it. */
  type Dict = map<string, Value>

  /**
   * What opening and decoding the task file yields: no file
   * (FileNotFoundError), text that is not JSON (JSONDecodeError), or the
   * decoded array of objects.
   */
  datatype FileContent = Missing | Malformed | Document(records: seq<Dict>)

  /**
   * Why one object does not become a task: a required key is absent (Python's
   * KeyError), or a key holds a JSON value of another type than the field.
   */
  datatype LoadError = MissingKey(key: string) | WrongType(key: string)

  const TitleKey := "title"
  const DescriptionKey := "description"
  const DueDateKey := "due_date"
  const PriorityKey := "priority"
  const CategoryKey := "category"
  const CompletedKey := "completed"
  const CreatedAtKey := "created_at"

  /** `d.get(key, default)` for a text field. */
  function TextOr(d: Dict, key: string, default: string): (r: Result<string, LoadError>)
    ensures key !in d ==> r == Success(default)
    ensures key in d && d[key].Str? ==> r == Success(d[key].s)
    ensures key in d && d[key].Bool? ==> r == Failure(WrongType(key))
  {
    if key !in d then Success(default)
    else if d[key].Str? then Success(d[key].s)
    else Failure(WrongType(key))
  }

  /** `d[key]` for a text field: a KeyError when the key is absent. */
  function Text(d: Dict, key: string): (r: Result<string, LoadError>)
    ensures key !in d ==> r == Failure(MissingKey(key))
    ensures key in d ==> r == TextOr(d, key, "")
  {
    if key !in d then Failure(MissingKey(key)) else TextOr(d, key, "")
  }

  /** `d[key]` for a boolean field: a KeyError when the key is absent. */
  function Flag(d: Dict, key: string): (r: Result<bool, LoadError>)
    ensures key !in d ==> r == Failure(MissingKey(key))
    ensures key in d && d[key].Bool? ==> r == Success(d[key].b)
    ensures key in d && d[key].Str? ==> r == Failure(WrongType(key))
  {
    if key !in d then Failure(MissingKey(key))
    else if d[key].Bool? then Success(d[key].b)
    else Failure(WrongType(key))
  }
}
