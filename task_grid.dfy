/**
 * The editable task grid of the idea form: a list of task rows and the id of the row being
 * edited. New rows are drafts (`isNew`) until they are saved; saving writes the whole row,
 * `isNew` included, through `updateTask`.
 */
module TaskGrid {
  import opened Values
  import opened Wrappers
  import opened Schema
  import opened Repository
  import RepositoryLaws
  import DataLayer
  import Ids
  import Text
  import opened GridLists
  import Server

  /** The draft `addNewTask` appends. */
  function DraftTask(id: string): Record {
    map["id" := Str(id), "name" := Str(""), "dueDate" := Str(""), "doneStatus" := Str("pending"),
        "notes" := Str(""), "subtaskIds" := Arr([]), "isNew" := Bool(true)]
  }

  /** The inputs of an edited row: name, due date, status and notes as typed. */
  datatype TaskRow = TaskRow(name: string, dueDate: string, status: string, notes: string)

  /** The edits `saveTask` makes to the row's task, given the trimmed name. */
  function EditedTask(t: Record, name: string, row: TaskRow): Record {
    t["name" := Str(name)]["dueDate" := Str(row.dueDate)]["doneStatus" := Str(row.status)]["notes" := Str(row.notes)]
     ["subtaskIds" := if Truthy(Get(t, "subtaskIds")) then Get(t, "subtaskIds") else Arr([])]["isNew" := Bool(false)]
  }

  /**
   * `saveTask` past its guards: the first task with the id is edited in place and the whole
   * task is sent to `updateTask`; a row whose task is not in the list changes nothing.
   */
  function SaveRow(xs: seq<Record>, db: Db, taskId: string, name: string, row: TaskRow, dateOk: Value -> bool): (seq<Record>, Db) {
    var i := FindIndex(xs, Str(taskId));
    if i < 0 then (xs, db)
    else
      var t := EditedTask(xs[i], name, row);
      (xs[i := t], UpdateIn(db, Tasks, Str(taskId), t, dateOk).0)
  }

  /** `updateTaskStatus` on the list: the first task with the id gets the status. */
  function SetRowStatus(xs: seq<Record>, taskId: string, status: string): seq<Record> {
    var i := FindIndex(xs, Str(taskId));
    if i < 0 then xs else xs[i := xs[i]["doneStatus" := Str(status)]]
  }

  /** The object `getTaskStats` starts from. */
  function StatsStart(total: int): map<string, int> {
    map["total" := total, "complete" := 0, "pending" := 0, "overdue" := 0, "incomplete" := 0]
  }

  /** What `getTaskStats` returns for a list of rows. */
  function TaskStats(xs: seq<Record>): map<string, int> {
    Tally(xs, "doneStatus", StatsStart(|Filter(xs, NotDraft)|))
  }

  class TaskGrid {
    var tasks: seq<Record>
    /** The id of the row being edited, or null. */
    var editingTask: Value

    constructor ()
      ensures tasks == [] && editingTask == Null
    {
      tasks := [];
      editingTask := Null;
    }

    /** `addNewTask()`: a fresh draft at the end of the list becomes the edited row. */
    method AddNewTask(gen: Ids.IdGenerator)
      requires gen.Valid()
      modifies this, gen
      ensures gen.Valid() && gen.counters == old(gen.counters)["task" := old(gen.counters)["task"] + 1]
      ensures var id := Ids.FormatId("task", old(gen.counters)["task"]);
        tasks == old(tasks) + [DraftTask(id)] && editingTask == Str(id) && id !in old(gen.issued)
    {
      var id := Ids.NewId(gen, "task");
      tasks := tasks + [DraftTask(id)];
      editingTask := Str(id);
    }

    /** `cancelEdit()` */
    method CancelEdit()
      modifies this
      ensures tasks == CancelEditOf(old(tasks), old(editingTask)) && editingTask == Null
    {
      if Truthy(editingTask) {
        var task := Find(tasks, editingTask);
        if task.Some? && IsDraft(task.value) {
          tasks := RemoveId(tasks, editingTask);
        }
      }
      editingTask := Null;
    }

    /**
     * `saveTask(taskId)`; `row` is the edited row's inputs, `None` when the page shows no row
     * for the id. A blank name is refused before anything changes. The write's error is caught.
     */
    method SaveTask(dm: DataLayer.DataManager, taskId: string, row: Option<TaskRow>)
      requires dm.Valid()
      modifies this, dm
      ensures dm.Valid()
      ensures row.None? || Text.Trim(row.value.name) == "" ==>
        tasks == old(tasks) && editingTask == old(editingTask) && dm.cache == old(dm.cache)
      ensures row.Some? && Text.Trim(row.value.name) != "" ==>
        && (tasks, dm.cache) == SaveRow(old(tasks), old(dm.cache), taskId, Text.Trim(row.value.name), row.value, dm.dateOk)
        && editingTask == Null
    {
      if row.None? {
        return;
      }
      var name := Text.Trim(row.value.name);
      if name == "" {
        return;
      }
      StoreRow(dm, taskId, name, row.value);
    }

    method StoreRow(dm: DataLayer.DataManager, taskId: string, name: string, row: TaskRow)
      requires dm.Valid()
      modifies this, dm
      ensures dm.Valid() && editingTask == Null
      ensures (tasks, dm.cache) == SaveRow(old(tasks), old(dm.cache), taskId, name, row, dm.dateOk)
    {
      var i := FindIndex(tasks, Str(taskId));
      if i >= 0 {
        var task := EditedTask(tasks[i], name, row);
        tasks := tasks[i := task];
        var r := dm.Update(Tasks, Str(taskId), task);
      }
      editingTask := Null;
    }

    /** `saveTask` as evidently meant: a row that was a draft is created, and `isNew` is not sent. */
    method SaveTaskFixed(dm: DataLayer.DataManager, taskId: string, row: Option<TaskRow>)
      requires dm.Valid()
      modifies this, dm
      ensures dm.Valid()
      ensures row.None? || Text.Trim(row.value.name) == "" ==>
        tasks == old(tasks) && editingTask == old(editingTask) && dm.cache == old(dm.cache)
      ensures row.Some? && Text.Trim(row.value.name) != "" ==>
        && (tasks, dm.cache) == SaveRowFixed(old(tasks), old(dm.cache), taskId, Text.Trim(row.value.name), row.value, dm.dateOk)
        && editingTask == Null
    {
      if row.None? {
        return;
      }
      var name := Text.Trim(row.value.name);
      if name == "" {
        return;
      }
      StoreRowFixed(dm, taskId, name, row.value);
    }

    method StoreRowFixed(dm: DataLayer.DataManager, taskId: string, name: string, row: TaskRow)
      requires dm.Valid()
      modifies this, dm
      ensures dm.Valid() && editingTask == Null
      ensures (tasks, dm.cache) == SaveRowFixed(old(tasks), old(dm.cache), taskId, name, row, dm.dateOk)
    {
      var i := FindIndex(tasks, Str(taskId));
      if i >= 0 {
        var wasNew := IsDraft(tasks[i]);
        var task := EditedTask(tasks[i], name, row);
        tasks := tasks[i := task];
        if wasNew {
          var r := dm.SaveTask(SchemaPart(task));
        } else {
          var r := dm.Update(Tasks, Str(taskId), SchemaPart(task));
        }
      }
      editingTask := Null;
    }

    /** `deleteTask(taskId)`; `confirmed` is the answer to the confirmation dialog. */
    method DeleteTask(dm: DataLayer.DataManager, taskId: string, confirmed: bool)
      requires dm.Valid()
      modifies this, dm
      ensures dm.Valid() && editingTask == old(editingTask)
      ensures !confirmed ==> tasks == old(tasks) && dm.cache == old(dm.cache)
      ensures confirmed ==> tasks == RemoveId(old(tasks), Str(taskId)) && dm.cache == DeleteTaskSpec(old(dm.cache), taskId, dm.dateOk).0
    {
      if confirmed {
        tasks := RemoveId(tasks, Str(taskId));
        var r := dm.DeleteTask(taskId);
      }
    }

    /** `getAllTasks()`: the saved rows, in list order. */
    function GetAllTasks(): (r: seq<Record>)
      reads this
      ensures forall x :: x in r <==> x in tasks && !IsDraft(x)
      ensures |r| <= |tasks|
    {
      FilterMembers(tasks, NotDraft);
      Filter(tasks, NotDraft)
    }

    /** `getAllTaskIds()`: the ids of the saved rows, in list order. */
    function GetAllTaskIds(): (r: seq<Value>)
      reads this
      ensures |r| == |GetAllTasks()| && forall i :: 0 <= i < |r| ==> r[i] == IdOf(GetAllTasks()[i])
      ensures forall x :: x in tasks && !IsDraft(x) ==> IdOf(x) in r
    {
      var saved := GetAllTasks();
      var ids := IdsOf(saved);
      assert forall x :: x in saved ==> IdOf(x) in ids by {
        forall x | x in saved
          ensures IdOf(x) in ids
        {
          var i :| 0 <= i < |saved| && saved[i] == x;
          assert ids[i] == IdOf(x);
        }
      }
      ids
    }

    /** `getTaskStats()` with its `forEach` loop. */
    method GetTaskStats() returns (stats: map<string, int>)
      ensures stats == TaskStats(tasks)
    {
      stats := StatsStart(|Filter(tasks, NotDraft)|);
      var start := stats;
      var i := 0;
      while i < |tasks|
        invariant 0 <= i <= |tasks|
        invariant stats == Tally(tasks[..i], "doneStatus", start)
      {
        assert tasks[..i + 1][..i] == tasks[..i];
        if !IsDraft(tasks[i]) {
          stats := Bump(stats, Bucket(tasks[i], "doneStatus"));
        }
        i := i + 1;
      }
      assert tasks[..i] == tasks;
    }

    /** `updateTaskStatus(taskId, newStatus)`: only a saved row is written; the write's error is caught. */
    method UpdateTaskStatus(dm: DataLayer.DataManager, taskId: string, newStatus: string)
      requires dm.Valid()
      modifies this, dm
      ensures dm.Valid() && editingTask == old(editingTask)
      ensures tasks == SetRowStatus(old(tasks), taskId, newStatus)
      ensures dm.cache == (if Find(old(tasks), Str(taskId)).Some? && !IsDraft(Find(old(tasks), Str(taskId)).value)
        then UpdateIn(old(dm.cache), Tasks, Str(taskId), map["doneStatus" := Str(newStatus)], dm.dateOk).0
        else old(dm.cache))
    {
      var i := FindIndex(tasks, Str(taskId));
      if i >= 0 {
        var wasDraft := IsDraft(tasks[i]);
        tasks := tasks[i := tasks[i]["doneStatus" := Str(newStatus)]];
        if !wasDraft {
          var r := dm.Update(Tasks, Str(taskId), map["doneStatus" := Str(newStatus)]);
        }
      }
    }

    /** `importTasks(jsonData)`: an array is appended after the rows; anything else is refused. */
    method ImportTasks(parsed: Server.Content) returns (ok: bool)
      modifies this
      ensures ok <==> parsed.Items?
      ensures tasks == if ok then old(tasks) + parsed.items else old(tasks)
      ensures editingTask == old(editingTask)
    {
      if parsed.Items? {
        tasks := tasks + parsed.items;
        return true;
      }
      return false;
    }

    /** `searchTasks(query)`; the returned list is what the restore handle puts back. */
    method SearchTasks(query: string) returns (original: seq<Record>)
      modifies this
      ensures original == old(tasks) && tasks == Filter(original, Matching("name", "notes", query))
      ensures editingTask == old(editingTask)
    {
      original := tasks;
      tasks := Filter(tasks, Matching("name", "notes", query));
    }

    /** `filterByStatus(status)`: `'all'` shows every row and returns no handle. */
    method FilterByStatus(status: string) returns (original: Option<seq<Record>>)
      modifies this
      ensures status == "all" ==> original == None && tasks == old(tasks)
      ensures status != "all" ==> original == Some(old(tasks)) && tasks == Filter(old(tasks), FieldIs("doneStatus", status))
      ensures editingTask == old(editingTask)
    {
      if status == "all" {
        return None;
      }
      original := Some(tasks);
      tasks := Filter(tasks, FieldIs("doneStatus", status));
    }

    /** The `restore()` of a search or filter handle. */
    method Restore(original: seq<Record>)
      modifies this
      ensures tasks == original && editingTask == old(editingTask)
    {
      tasks := original;
    }
  }

  /** The record the fixed save sends: the row without the grid's own `isNew` flag. */
  function SchemaPart(t: Record): Record {
    t - {"isNew"}
  }

  /** `saveTask` as evidently meant, past its guards. */
  function SaveRowFixed(xs: seq<Record>, db: Db, taskId: string, name: string, row: TaskRow, dateOk: Value -> bool): (seq<Record>, Db) {
    var i := FindIndex(xs, Str(taskId));
    if i < 0 then (xs, db)
    else
      var t := EditedTask(xs[i], name, row);
      var sent := SchemaPart(t);
      (xs[i := t], if IsDraft(xs[i]) then AddSpec(db, "tasks", TaskDefaults(sent), dateOk).0 else UpdateIn(db, Tasks, Str(taskId), sent, dateOk).0)
  }

  // ---------------------------------------------------------------------------
  // Properties

  /** The draft is a new, pending task with no subtasks, carrying the generated id. */
  lemma DraftTaskShape(id: string)
    ensures var d := DraftTask(id);
      IsDraft(d) && IdOf(d) == Str(id) && Get(d, "doneStatus") == Str("pending")
      && Get(d, "subtaskIds") == Arr([]) && !HasName(d)
  {
    var d := DraftTask(id);
    assert Get(d, "name") == Str("");
    BlankNameUnnamed(d);
  }

  /** A draft appended under a fresh, non-empty id is what `cancelEdit` removes, leaving the list as before. */
  lemma AddThenCancel(xs: seq<Record>, id: string)
    requires id != "" && Absent(xs, Str(id))
    ensures CancelEditOf(xs + [DraftTask(id)], Str(id)) == xs
  {
    DraftTaskShape(id);
    CancelAppendedDraft(xs, DraftTask(id));
  }

  /** The edits of a save: the inputs are stored, `isNew` is cleared, and every other field is kept. */
  lemma EditedTaskFields(t: Record, name: string, row: TaskRow)
    ensures var e := EditedTask(t, name, row);
      && Get(e, "name") == Str(name) && Get(e, "dueDate") == Str(row.dueDate)
      && Get(e, "doneStatus") == Str(row.status) && Get(e, "notes") == Str(row.notes)
      && Get(e, "subtaskIds") != Undef && Truthy(Get(e, "subtaskIds"))
      && !IsDraft(e) && "isNew" in e
      && e.Keys == t.Keys + {"name", "dueDate", "doneStatus", "notes", "subtaskIds", "isNew"}
      && forall f :: f in t && f !in {"name", "dueDate", "doneStatus", "notes", "subtaskIds", "isNew"} ==> e[f] == t[f]
  {
  }

  /**
   * The row `saveTask` sends always carries `isNew`, which the task allow-list lacks: the write
   * is refused, which with records as values leaves the store as it was, and for a draft, which
   * the store does not hold, it is not even found.
   */
  lemma SaveNeverStores(xs: seq<Record>, db: Db, taskId: string, name: string, row: TaskRow, dateOk: Value -> bool)
    ensures SaveRow(xs, db, taskId, name, row, dateOk).1 == db
    ensures var i := FindIndex(xs, Str(taskId));
      i >= 0 && Absent(db.tasks, Str(taskId)) ==>
        UpdateIn(db, Tasks, Str(taskId), EditedTask(xs[i], name, row), dateOk).1 == Failure(NotFound("tasks", Str(taskId)))
  {
    var i := FindIndex(xs, Str(taskId));
    if i >= 0 {
      var t := EditedTask(xs[i], name, row);
      assert "isNew" !in AllowedFields(Tasks);
      RepositoryLaws.UpdateForeignKeyRejected(db, Tasks, Str(taskId), t, "isNew", dateOk);
    }
  }

  /** Fixed save: a draft whose fields satisfy the task schema is appended to the store. */
  lemma FixedSaveCreatesDraft(xs: seq<Record>, db: Db, taskId: string, name: string, row: TaskRow, dateOk: Value -> bool)
    requires var i := FindIndex(xs, Str(taskId));
      i >= 0 && IsDraft(xs[i]) && Conforms(Tasks, TaskDefaults(SchemaPart(EditedTask(xs[i], name, row))), dateOk)
    ensures var i := FindIndex(xs, Str(taskId));
      var sent := TaskDefaults(SchemaPart(EditedTask(xs[i], name, row)));
      SaveRowFixed(xs, db, taskId, name, row, dateOk).1 == db.Set(Tasks, db.tasks + [WithArrays(Tasks, sent)])
  {
    var i := FindIndex(xs, Str(taskId));
    var sent := TaskDefaults(SchemaPart(EditedTask(xs[i], name, row)));
    ParseName(Tasks);
    RepositoryLaws.AddAppends(db, "tasks", sent, dateOk);
  }

  /** Fixed save of a saved row: the update merges exactly the row's schema fields. */
  lemma FixedSaveSendsNoFlag(t: Record, name: string, row: TaskRow)
    ensures var sent := SchemaPart(EditedTask(t, name, row));
      "isNew" !in sent && forall f :: f in sent ==> f in t || f in ["name", "dueDate", "doneStatus", "notes", "subtaskIds"]
  {
  }

  /** `getTaskStats`: `total` counts the saved rows (plus any whose status is literally `total`), every other bucket the saved rows with that status. */
  lemma TaskStatsCounts(xs: seq<Record>)
    ensures var s := TaskStats(xs);
      && Lookup(s, "total") == |Filter(xs, NotDraft)| + Count(xs, "doneStatus", "total")
      && (forall k :: k != "total" ==> Lookup(s, k) == Count(xs, "doneStatus", k))
      && s.Keys == {"total", "complete", "pending", "overdue", "incomplete"} + Buckets(xs, "doneStatus")
  {
    var start := StatsStart(|Filter(xs, NotDraft)|);
    StartBuckets(|Filter(xs, NotDraft)|);
    TallyCounts(xs, "doneStatus", start);
  }

  lemma StartBuckets(total: int)
    ensures forall k :: Lookup(StatsStart(total), k) == if k == "total" then total else 0
    ensures StatsStart(total).Keys == {"total", "complete", "pending", "overdue", "incomplete"}
  {
  }

  /** `updateTaskStatus` persists only statuses of the `doneStatus` enum; on success the stored task has it. */
  lemma StatusWriteStores(db: Db, id: Value, status: string, dateOk: Value -> bool)
    ensures var (db', r) := UpdateIn(db, Tasks, id, map["doneStatus" := Str(status)], dateOk);
      && (r.Success? ==> status in TaskStatuses && Get(r.value, "doneStatus") == Str(status))
      && (r.Failure? ==> db' == db)
  {
    var patch := map["doneStatus" := Str(status)];
    RepositoryLaws.UpdateMerges(db, Tasks, id, patch, dateOk);
    var i := FindIndex(db.tasks, id);
    if i >= 0 && Conforms(Tasks, db.tasks[i] + patch, dateOk) {
      ConformingStatus(db.tasks[i] + patch, status, dateOk);
    }
  }

  /** A task the schema accepts has a non-empty `doneStatus` from the enum. */
  lemma ConformingStatus(item: Record, status: string, dateOk: Value -> bool)
    requires Conforms(Tasks, item, dateOk) && Get(item, "doneStatus") == Str(status)
    ensures status in TaskStatuses
  {
    assert "doneStatus" in RequiredFields(Tasks);
    assert EnumField(Tasks) == Some(("doneStatus", TaskStatuses));
  }
}
