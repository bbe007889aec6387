/**
 * The dynamically typed values a task list holds once it has been read back
 * from JSON, and the task record itself: a dictionary from key to value.
 */
module Values {
  import opened Wrappers

  /** A Python value as far as the core distinguishes it: an `int`, a `str`,
      a `bool`, or anything else (`None`, a float, a list, a dict). */
  datatype Value = Int(i: int) | Str(s: string) | Bool(b: bool) | Other

  /** A task is a dictionary; the keys it has are not fixed. */
  type Task = map<string, Value>

  /** `task.get(key)`: the stored value, or `None` when the key is absent. */
  function Get(task: Task, key: string): (r: Option<Value>)
    ensures r.Some? <==> key in task
    ensures r.Some? ==> r.value == task[key]
  {
    if key in task then Some(task[key]) else None
  }
}
