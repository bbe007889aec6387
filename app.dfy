/**
 * `src/app.py`: adding a task. `add_task` loads the task list, builds one
 * record, appends it to the loaded list in place and saves the list. Here
 * the loaded list is the `TaskList` passed in, its contents afterwards are
 * what is saved, and the module-level creation timestamp `ts` (computed once
 * per process from the clock) is a parameter.
 */
module App {
  import opened Values
  import opened Wrappers
  import opened PyText

  /** The id rule of `add_task`: 0 for an empty list, otherwise the list's
      length plus one. Existing ids are not looked at. */
  function NewIdNumber(tasks: seq<Task>): (n: nat)
    ensures n == 0 <==> tasks == []
    ensures n != 1 && (tasks != [] ==> n > |tasks|)
  {
    if tasks == [] then 0 else |tasks| + 1
  }

  /** The dictionary `add_task` builds. The due date is stored under the key
      `due_data`, as `add_task` spells it, and the id as its decimal text. */
  function TaskRecord(id: nat, ts: string, title: string, description: string, dueDate: string, completed: bool): (t: Task)
    ensures t.Keys == {"id", "title", "description", "created_at", "due_data", "completed"}
    ensures t["id"].Str? && AllDigits(t["id"].s) && DigitsValue(t["id"].s) == id
  {
    DecimalRoundTrip(id);
    map[
      "id" := Str(Decimal(id)),
      "title" := Str(title),
      "description" := Str(description),
      "created_at" := Str(ts),
      "due_data" := Str(dueDate),
      "completed" := Bool(completed)
    ]
  }

  /** The arguments of one `add_task` call. */
  datatype Request = Request(title: string, description: string, dueDate: string, completed: bool)

  /** The list `add_task` saves, given the list it loaded. */
  function WithTask(tasks: seq<Task>, ts: string, r: Request): (out: seq<Task>)
    ensures |out| == |tasks| + 1 && out[..|tasks|] == tasks
    ensures Get(out[|tasks|], "created_at") == Some(Str(ts)) && Get(out[|tasks|], "title") == Some(Str(r.title))
  {
    tasks + [TaskRecord(NewIdNumber(tasks), ts, r.title, r.description, r.dueDate, r.completed)]
  }

  /** The Python list object that `load_tasks()` returns and `add_task`
      appends to. */
  class TaskList {
    var items: seq<Task>

    constructor (items: seq<Task>)
      ensures this.items == items
    {
      this.items := items;
    }

    /** `list.append`. */
    method Append(t: Task)
      modifies this
      ensures items == old(items) + [t]
    {
      items := items + [t];
    }
  }

  /** `add_task(title, description, due_date, completed=False)` run on the
      loaded list `current` in a process whose timestamp is `ts`. */
  method AddTask(current: TaskList, ts: string, title: string, description: string, dueDate: string, completed: bool := false)
    modifies current
    ensures |current.items| == |old(current.items)| + 1
    ensures current.items[..|old(current.items)|] == old(current.items)
    ensures var t := current.items[|old(current.items)|];
      && t.Keys == {"id", "title", "description", "created_at", "due_data", "completed"}
      && t["id"] == Str(if old(current.items) == [] then "0" else Decimal(|old(current.items)| + 1))
      && t["title"] == Str(title)
      && t["description"] == Str(description)
      && t["created_at"] == Str(ts)
      && t["due_data"] == Str(dueDate)
      && t["completed"] == Bool(completed)
    ensures current.items == WithTask(old(current.items), ts, Request(title, description, dueDate, completed))
  {
    var newId := NewIdNumber(current.items);
    var task := TaskRecord(newId, ts, title, description, dueDate, completed);
    current.Append(task);
  }

  /** `add_task` called once per request, in order, within one process, on
      the assumption that each call loads the list the previous call saved.
      The storage code does not keep that promise: see README. */
  function AddAll(tasks: seq<Task>, ts: string, reqs: seq<Request>): (out: seq<Task>)
    ensures |out| == |tasks| + |reqs|
    decreases |reqs|
  {
    if reqs == [] then tasks else AddAll(WithTask(tasks, ts, reqs[0]), ts, reqs[1..])
  }

  /** After a run of adds the loaded tasks come first, unchanged, and the
      task at position `p` got the id of a list of length `p`, the stamp `ts`
      and the fields of its own request. */
  lemma {:induction false} AddAllLayout(tasks: seq<Task>, ts: string, reqs: seq<Request>)
    ensures var out := AddAll(tasks, ts, reqs);
      && |out| == |tasks| + |reqs|
      && out[..|tasks|] == tasks
      && forall k :: 0 <= k < |reqs| ==>
           var p := |tasks| + k;
           out[p] == TaskRecord(if p == 0 then 0 else p + 1, ts, reqs[k].title, reqs[k].description, reqs[k].dueDate, reqs[k].completed)
    decreases |reqs|
  {
    if reqs != [] {
      var next := WithTask(tasks, ts, reqs[0]);
      AddAllLayout(next, ts, reqs[1..]);
      var out := AddAll(tasks, ts, reqs);
      assert out[..|tasks|] == next[..|next|][..|tasks|];
      forall k | 0 <= k < |reqs|
        ensures var p := |tasks| + k;
          out[p] == TaskRecord(if p == 0 then 0 else p + 1, ts, reqs[k].title, reqs[k].description, reqs[k].dueDate, reqs[k].completed)
      {
        if k == 0 {
          assert out[|tasks|] == out[..|next|][|tasks|];
        } else {
          assert reqs[k] == reqs[1..][k - 1];
        }
      }
    }
  }

  /** Starting from an empty list, the ids handed out are "0", "2", "3", ...:
      the first task gets 0 and the task at position `p > 0` gets `p + 1`, so
      no id is handed out twice (and 1 never); every task carries the same
      creation stamp `ts`. */
  lemma AddAllFromEmpty(ts: string, reqs: seq<Request>)
    ensures var out := AddAll([], ts, reqs);
      && |out| == |reqs|
      && (forall p :: 0 <= p < |out| ==> Get(out[p], "id") == Some(Str(Decimal(if p == 0 then 0 else p + 1))))
      && (forall p :: 0 <= p < |out| ==> Get(out[p], "created_at") == Some(Str(ts)))
      && (forall p :: 0 <= p < |out| ==> Get(out[p], "title") == Some(Str(reqs[p].title)))
      && (forall p, q :: 0 <= p < q < |out| ==> Get(out[p], "id") != Get(out[q], "id"))
  {
    if reqs != [] {
      AddAllFromEmptyAt(ts, reqs, 0);
    }
    var out := AddAll([], ts, reqs);
    forall p | 0 <= p < |out|
      ensures Get(out[p], "id") == Some(Str(Decimal(if p == 0 then 0 else p + 1)))
      ensures Get(out[p], "created_at") == Some(Str(ts))
      ensures Get(out[p], "title") == Some(Str(reqs[p].title))
    {
      AddAllFromEmptyAt(ts, reqs, p);
    }
    forall p, q | 0 <= p < q < |out| ensures Get(out[p], "id") != Get(out[q], "id") {
      AddAllFromEmptyAt(ts, reqs, p);
      AddAllFromEmptyAt(ts, reqs, q);
      DecimalInjective(if p == 0 then 0 else p + 1, q + 1);
    }
  }

  /** One position of `AddAllFromEmpty`. */
  lemma AddAllFromEmptyAt(ts: string, reqs: seq<Request>, p: nat)
    requires p < |reqs|
    ensures |AddAll([], ts, reqs)| == |reqs|
    ensures var t := AddAll([], ts, reqs)[p];
      && Get(t, "id") == Some(Str(Decimal(if p == 0 then 0 else p + 1)))
      && Get(t, "created_at") == Some(Str(ts))
      && Get(t, "title") == Some(Str(reqs[p].title))
  {
    AddAllLayout([], ts, reqs);
    var r := reqs[p];
    var id := if p == 0 then 0 else p + 1;
    assert AddAll([], ts, reqs)[p] == TaskRecord(id, ts, r.title, r.description, r.dueDate, r.completed);
    TaskRecordFields(id, ts, r.title, r.description, r.dueDate, r.completed);
  }

  /** The fields of a built record, looked up the way `dict.get` does. */
  lemma TaskRecordFields(id: nat, ts: string, title: string, description: string, dueDate: string, completed: bool)
    ensures var t := TaskRecord(id, ts, title, description, dueDate, completed);
      && Get(t, "id") == Some(Str(Decimal(id)))
      && Get(t, "title") == Some(Str(title))
      && Get(t, "created_at") == Some(Str(ts))
  {
  }

  /** The new id depends only on how many tasks were loaded, not on their ids. */
  lemma NewIdOnlyCountsTasks(a: seq<Task>, b: seq<Task>, ts: string, r: Request)
    requires |a| == |b|
    ensures WithTask(a, ts, r)[|a|] == WithTask(b, ts, r)[|b|]
  {
  }

  /** The new record repeats a loaded task's id exactly when some loaded
      task already holds the decimal text of the rule's number. */
  lemma NewIdRepeatsExactly(a: seq<Task>, ts: string, r: Request)
    ensures (exists k :: 0 <= k < |a| && Get(a[k], "id") == Get(WithTask(a, ts, r)[|a|], "id")) <==>
      (exists k :: 0 <= k < |a| && Get(a[k], "id") == Some(Str(Decimal(NewIdNumber(a)))))
  {
    TaskRecordFields(NewIdNumber(a), ts, r.title, r.description, r.dueDate, r.completed);
    assert WithTask(a, ts, r)[|a|] == TaskRecord(NewIdNumber(a), ts, r.title, r.description, r.dueDate, r.completed);
  }

  /** So a loaded list whose ids do not follow the rule can receive a
      duplicate: one task with id "2" gets a second task with id "2". */
  lemma NewIdCanRepeatLoadedId(ts: string, r: Request)
    ensures var loaded := [map["id" := Str("2")]];
      WithTask(loaded, ts, r)[1]["id"] == loaded[0]["id"]
  {
    assert Decimal(2) == "2";
  }
}
