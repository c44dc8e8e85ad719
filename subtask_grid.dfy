/**
 * The editable subtask grid of the task detail page: a list of subtask rows, the id of the
 * row being edited and the id of the parent task. Every record it sends carries `status`,
 * which the subtask allow-list lacks, so its writes are refused; with records as values,
 * they leave the store as it was.
 */
module SubtaskGrid {
  import opened Values
  import opened Wrappers
  import opened Schema
  import opened Repository
  import RepositoryLaws
  import DataLayer
  import Ids
  import Text
  import opened GridLists
  import TaskDetail

  /** The draft `addNewSubtask` appends. */
  function DraftSubtask(id: string, taskId: Value): Record {
    map["id" := Str(id), "taskId" := taskId, "name" := Str(""), "description" := Str(""),
        "status" := Str("start"), "comments" := Arr([]), "efforts" := Arr([]), "isNew" := Bool(true)]
  }

  /** The inputs of an edited row: name, status and description as typed. */
  datatype SubtaskRow = SubtaskRow(name: string, status: string, description: string)

  /** `v || []` */
  function OrEmpty(v: Value): Value {
    if Truthy(v) then v else Arr([])
  }

  /** The edits `saveSubtask` makes to the row's subtask, given the trimmed name and the time. */
  function EditedSubtask(s: Record, name: string, row: SubtaskRow, parentTaskId: Value, now: string): Record {
    var e := s["name" := Str(name)]["status" := Str(row.status)]["description" := Str(row.description)]["taskId" := parentTaskId];
    var e' := if IsDraft(s) then e["createdAt" := Str(now)]["comments" := OrEmpty(Get(s, "comments"))]["efforts" := OrEmpty(Get(s, "efforts"))] else e;
    e'["updatedAt" := Str(now)]["isNew" := Bool(false)]
  }

  /** The fields `saveSubtask` copies into the record it sends. */
  const DataFields: set<string> := {"id", "taskId", "name", "description", "status", "comments", "efforts", "createdAt", "updatedAt"}

  /** The record `saveSubtask` sends: those fields of the edited subtask, `undefined` where it has none. */
  function SubtaskData(s: Record): (d: Record)
    ensures d.Keys == DataFields && "status" in d
  {
    map k | k in DataFields :: Get(s, k)
  }

  /** `saveSubtask` past its guards, on the list: the first subtask with the id is edited in place. */
  function SaveRow(xs: seq<Record>, subtaskId: string, name: string, row: SubtaskRow, parentTaskId: Value, now: string): seq<Record> {
    var i := FindIndex(xs, Str(subtaskId));
    if i < 0 then xs else xs[i := EditedSubtask(xs[i], name, row, parentTaskId, now)]
  }

  /** `updateSubtaskStatus` on the list: the first subtask with the id gets the status. */
  function SetRowStatus(xs: seq<Record>, subtaskId: string, status: string): seq<Record> {
    var i := FindIndex(xs, Str(subtaskId));
    if i < 0 then xs else xs[i := xs[i]["status" := Str(status)]]
  }

  /** The parent task after a successful delete: the id is filtered out of a present, truthy `subtaskIds`. */
  function ParentAfterDelete(task: Option<Record>, subtaskId: string, now: string): Option<Record> {
    if task.Some? && Truthy(Get(task.value, "subtaskIds")) && TaskDetail.WithoutSubtaskId(task.value, subtaskId, now).Some?
    then TaskDetail.WithoutSubtaskId(task.value, subtaskId, now)
    else task
  }

  /** The object `getSubtaskStats` starts from. */
  function StatsStart(total: int): map<string, int> {
    map["total" := total, "start" := 0, "done" := 0]
  }

  function SubtaskStats(xs: seq<Record>): map<string, int> {
    Tally(xs, "status", StatsStart(|Filter(xs, NotDraft)|))
  }

  /**
   * The parent-task edit after a successful delete: the id leaves the open task's
   * `subtaskIds`, and the write of that task is refused by the store because it carries
   * `updatedAt`, which is not a task field.
   */
  method UnlinkFromParent(dm: DataLayer.DataManager, parent: TaskDetail.TaskDetailManager, parentTaskId: Value, subtaskId: string, now: string)
    requires dm.Valid()
    modifies dm, parent
    ensures dm.Valid() && dm.cache == old(dm.cache)
    ensures parent.currentTaskId == old(parent.currentTaskId)
    ensures parent.currentTask == ParentAfterDelete(old(parent.currentTask), subtaskId, now)
  {
    var parentTask := parent.currentTask;
    if parentTask.Some? && Truthy(Get(parentTask.value, "subtaskIds")) {
      var edited := TaskDetail.WithoutSubtaskId(parentTask.value, subtaskId, now);
      if edited.Some? {
        parent.currentTask := edited;
        var db := dm.cache;
        var u := dm.Update(Tasks, parentTaskId, edited.value);
        StampedTaskRejected(db, parentTaskId, edited.value, dm.dateOk);
      }
    }
  }

  /**
   * The writes of `saveSubtask`: a record that was a draft is saved; any other is updated when
   * the store holds it, and saved when it does not or when the update throws.
   */
  method PersistSubtask(dm: DataLayer.DataManager, id: string, wasNew: bool, data: Record) returns (r: Result<Record, Error>)
    requires dm.Valid() && "status" in data
    modifies dm
    ensures dm.Valid() && dm.cache == old(dm.cache) && r.Failure?
  {
    if !wasNew {
      var existing := dm.GetRecord(Subtasks, Str(id));
      if existing.Some? {
        var db := dm.cache;
        r := dm.UpdateSubtask(Str(id), data);
        UpdateRejected(db, Str(id), data, dm.dateOk);
        // the update throws, and its `catch` saves the record as new
      }
    }
    // When the store lacks the row, the code's save (js/subtask-grid.js:137) throws and its
    // `catch` (line 154) saves again; both fail and change nothing, so one save stands for both.
    var db := dm.cache;
    r := dm.SaveSubtask(data);
    SaveRejected(db, data, dm.dateOk);
  }

  /** A subtask record carrying `status` is refused by `saveSubtask` and nothing changes. */
  lemma SaveRejected(db: Db, data: Record, dateOk: Value -> bool)
    requires "status" in data
    ensures AddSpec(db, "subtasks", SubtaskDefaults(data), dateOk).0 == db
    ensures AddSpec(db, "subtasks", SubtaskDefaults(data), dateOk).1.Failure?
  {
    StatusIsForeign();
    RepositoryLaws.AddForeignKeyRejected(db, Subtasks, SubtaskDefaults(data), "status", dateOk);
  }

  /** A patch carrying `status` is refused by `updateSubtask` and nothing changes. */
  lemma UpdateRejected(db: Db, id: Value, patch: Record, dateOk: Value -> bool)
    requires "status" in patch
    ensures UpdateSubtaskSpec(db, id, patch, dateOk).0 == db
    ensures UpdateSubtaskSpec(db, id, patch, dateOk).1.Failure?
  {
    StatusIsForeign();
    RepositoryLaws.UpdateSubtaskForeignKeyRejected(db, id, patch, "status", dateOk);
  }

  /** A task write carrying `updatedAt` is refused and nothing changes. */
  lemma StampedTaskRejected(db: Db, id: Value, task: Record, dateOk: Value -> bool)
    requires "updatedAt" in task
    ensures UpdateIn(db, Tasks, id, task, dateOk).0 == db
    ensures UpdateIn(db, Tasks, id, task, dateOk).1.Failure?
  {
    assert "updatedAt" !in AllowedFields(Tasks);
    RepositoryLaws.UpdateForeignKeyRejected(db, Tasks, id, task, "updatedAt", dateOk);
  }

  lemma StatusIsForeign()
    ensures "status" !in AllowedFields(Subtasks)
  {
    assert |"status"| == 6;
  }

  class SubtaskGrid {
    var subtasks: seq<Record>
    /** The id of the row being edited, or null. */
    var editingSubtask: Value
    /** The task whose subtasks the grid shows, set by `initialize`. */
    var parentTaskId: Value

    constructor (parentTaskId: Value)
      ensures subtasks == [] && editingSubtask == Null && this.parentTaskId == parentTaskId
    {
      subtasks := [];
      editingSubtask := Null;
      this.parentTaskId := parentTaskId;
    }

    /** `addNewSubtask()`: a fresh draft of the parent task at the end of the list becomes the edited row. */
    method AddNewSubtask(gen: Ids.IdGenerator)
      requires gen.Valid()
      modifies this, gen
      ensures gen.Valid() && gen.counters == old(gen.counters)["subtask" := old(gen.counters)["subtask"] + 1]
      ensures parentTaskId == old(parentTaskId)
      ensures var id := Ids.FormatId("subtask", old(gen.counters)["subtask"]);
        subtasks == old(subtasks) + [DraftSubtask(id, parentTaskId)] && editingSubtask == Str(id) && id !in old(gen.issued)
    {
      var id := Ids.NewId(gen, "subtask");
      subtasks := subtasks + [DraftSubtask(id, parentTaskId)];
      editingSubtask := Str(id);
    }

    /** `cancelEdit()` */
    method CancelEdit()
      modifies this
      ensures subtasks == CancelEditOf(old(subtasks), old(editingSubtask)) && editingSubtask == Null
      ensures parentTaskId == old(parentTaskId)
    {
      if Truthy(editingSubtask) {
        var subtask := Find(subtasks, editingSubtask);
        if subtask.Some? && IsDraft(subtask.value) {
          subtasks := RemoveId(subtasks, editingSubtask);
        }
      }
      editingSubtask := Null;
    }

    /**
     * `saveSubtask(subtaskId)`; `row` is the edited row's inputs, `None` when the page shows no
     * row for the id. A blank name is refused before anything changes. Every write fails, so the
     * `catch` alerts and returns before the edited row is cleared.
     */
    method SaveSubtask(dm: DataLayer.DataManager, subtaskId: string, row: Option<SubtaskRow>, now: string)
      requires dm.Valid()
      modifies this, dm
      ensures dm.Valid() && dm.cache == old(dm.cache) && parentTaskId == old(parentTaskId)
      ensures row.None? || Text.Trim(row.value.name) == "" ==> subtasks == old(subtasks) && editingSubtask == old(editingSubtask)
      ensures row.Some? && Text.Trim(row.value.name) != "" ==>
        && subtasks == SaveRow(old(subtasks), subtaskId, Text.Trim(row.value.name), row.value, parentTaskId, now)
        && editingSubtask == if Find(old(subtasks), Str(subtaskId)).Some? then old(editingSubtask) else Null
    {
      if row.None? {
        return;
      }
      var name := Text.Trim(row.value.name);
      if name == "" {
        return;
      }
      StoreRow(dm, subtaskId, name, row.value, now);
    }

    method StoreRow(dm: DataLayer.DataManager, subtaskId: string, name: string, row: SubtaskRow, now: string)
      requires dm.Valid()
      modifies this, dm
      ensures dm.Valid() && dm.cache == old(dm.cache) && parentTaskId == old(parentTaskId)
      ensures subtasks == SaveRow(old(subtasks), subtaskId, name, row, parentTaskId, now)
      ensures editingSubtask == if Find(old(subtasks), Str(subtaskId)).Some? then old(editingSubtask) else Null
    {
      var i := FindIndex(subtasks, Str(subtaskId));
      if i >= 0 {
        var wasNew := IsDraft(subtasks[i]);
        var subtask := EditedSubtask(subtasks[i], name, row, parentTaskId, now);
        subtasks := subtasks[i := subtask];
        var r := PersistSubtask(dm, subtaskId, wasNew, SubtaskData(subtask));
        return;
      }
      editingSubtask := Null;
    }

    /**
     * `deleteSubtask(subtaskId)`; `confirmed` is the answer to the confirmation dialog and
     * `parent` the task detail page, when there is one. The parent's list is edited only after
     * the delete succeeded; writing the parent back is refused (it carries `updatedAt`).
     */
    method DeleteSubtask(dm: DataLayer.DataManager, parent: TaskDetail.TaskDetailManager?, subtaskId: string, confirmed: bool, now: string)
      requires dm.Valid()
      modifies this, dm, parent
      ensures dm.Valid() && editingSubtask == old(editingSubtask) && parentTaskId == old(parentTaskId)
      ensures !confirmed ==> subtasks == old(subtasks) && dm.cache == old(dm.cache)
      ensures confirmed ==>
        && subtasks == RemoveId(old(subtasks), Str(subtaskId))
        && dm.cache == DeleteSubtaskSpec(old(dm.cache), subtaskId, dm.dateOk).0
      ensures parent != null ==> parent.currentTaskId == old(parent.currentTaskId)
      ensures parent != null ==>
        parent.currentTask == if confirmed && DeleteSubtaskSpec(old(dm.cache), subtaskId, dm.dateOk).1.Success? && Truthy(parentTaskId)
        then ParentAfterDelete(old(parent.currentTask), subtaskId, now)
        else old(parent.currentTask)
    {
      if !confirmed {
        return;
      }
      subtasks := RemoveId(subtasks, Str(subtaskId));
      var r := dm.DeleteSubtask(subtaskId);
      if r.Success? && Truthy(parentTaskId) && parent != null {
        UnlinkFromParent(dm, parent, parentTaskId, subtaskId, now);
      }
    }

    /** `getAllSubtasks()`: the saved rows, in list order. */
    function GetAllSubtasks(): (r: seq<Record>)
      reads this
      ensures forall x :: x in r <==> x in subtasks && !IsDraft(x)
    {
      FilterMembers(subtasks, NotDraft);
      Filter(subtasks, NotDraft)
    }

    /** `getAllSubtaskIds()`: the ids of the saved rows, in list order. */
    function GetAllSubtaskIds(): (r: seq<Value>)
      reads this
      ensures r == IdsOf(GetAllSubtasks())
      ensures forall i :: 0 <= i < |r| ==> r[i] == IdOf(GetAllSubtasks()[i])
    {
      IdsOf(Filter(subtasks, NotDraft))
    }

    /**
     * `getSavedSubtaskIds()`: the ids of the saved rows with a non-blank name, one per such row
     * in list order; each is among all saved ids, and each belongs to a named saved row.
     */
    function GetSavedSubtaskIds(): (r: seq<Value>)
      reads this
      ensures |r| == |Filter(subtasks, NamedNotDraft)|
      ensures forall i :: 0 <= i < |r| ==> r[i] == IdOf(Filter(subtasks, NamedNotDraft)[i])
      ensures forall v :: v in r ==> v in GetAllSubtaskIds()
      ensures forall v :: v in r ==> exists x :: x in subtasks && !IsDraft(x) && HasName(x) && IdOf(x) == v
      ensures forall x :: x in subtasks && !IsDraft(x) && HasName(x) ==> IdOf(x) in r
    {
      NamedIdsAmongSaved(subtasks);
      var named := Filter(subtasks, NamedNotDraft);
      FilterMembers(subtasks, NamedNotDraft);
      assert forall x :: x in named ==> IdOf(x) in IdsOf(named) by {
        forall x | x in named
          ensures IdOf(x) in IdsOf(named)
        {
          IdOfMember(named, x);
        }
      }
      assert forall v :: v in IdsOf(named) ==> exists x :: x in subtasks && !IsDraft(x) && HasName(x) && IdOf(x) == v by {
        forall v | v in IdsOf(named)
          ensures exists x :: x in subtasks && !IsDraft(x) && HasName(x) && IdOf(x) == v
        {
          var i :| 0 <= i < |named| && IdsOf(named)[i] == v;
          assert named[i] in named;
        }
      }
      IdsOf(named)
    }

    /** `getSubtaskStats()` with its `forEach` loop. */
    method GetSubtaskStats() returns (stats: map<string, int>)
      ensures stats == SubtaskStats(subtasks)
    {
      stats := StatsStart(|Filter(subtasks, NotDraft)|);
      var start := stats;
      var i := 0;
      while i < |subtasks|
        invariant 0 <= i <= |subtasks|
        invariant stats == Tally(subtasks[..i], "status", start)
      {
        assert subtasks[..i + 1][..i] == subtasks[..i];
        if !IsDraft(subtasks[i]) {
          stats := Bump(stats, Bucket(subtasks[i], "status"));
        }
        i := i + 1;
      }
      assert subtasks[..i] == subtasks;
    }

    /** `updateSubtaskStatus(subtaskId, newStatus)`: only a saved row is written; the write's error is caught. */
    method UpdateSubtaskStatus(dm: DataLayer.DataManager, subtaskId: string, newStatus: string)
      requires dm.Valid()
      modifies this, dm
      ensures dm.Valid() && editingSubtask == old(editingSubtask) && parentTaskId == old(parentTaskId)
      ensures subtasks == SetRowStatus(old(subtasks), subtaskId, newStatus)
      ensures dm.cache == (if Find(old(subtasks), Str(subtaskId)).Some? && !IsDraft(Find(old(subtasks), Str(subtaskId)).value)
        then UpdateSubtaskSpec(old(dm.cache), Str(subtaskId), map["status" := Str(newStatus)], dm.dateOk).0
        else old(dm.cache))
    {
      var i := FindIndex(subtasks, Str(subtaskId));
      if i >= 0 {
        var wasDraft := IsDraft(subtasks[i]);
        subtasks := subtasks[i := subtasks[i]["status" := Str(newStatus)]];
        if !wasDraft {
          var r := dm.UpdateSubtask(Str(subtaskId), map["status" := Str(newStatus)]);
        }
      }
    }

    /** `searchSubtasks(query)`; the returned list is what the restore handle puts back. */
    method SearchSubtasks(query: string) returns (original: seq<Record>)
      modifies this
      ensures original == old(subtasks) && subtasks == Filter(original, Matching("name", "description", query))
      ensures editingSubtask == old(editingSubtask) && parentTaskId == old(parentTaskId)
    {
      original := subtasks;
      subtasks := Filter(subtasks, Matching("name", "description", query));
    }

    /** `filterByStatus(status)`: `'all'` shows every row and returns no handle. */
    method FilterByStatus(status: string) returns (original: Option<seq<Record>>)
      modifies this
      ensures status == "all" ==> original == None && subtasks == old(subtasks)
      ensures status != "all" ==> original == Some(old(subtasks)) && subtasks == Filter(old(subtasks), FieldIs("status", status))
      ensures editingSubtask == old(editingSubtask) && parentTaskId == old(parentTaskId)
    {
      if status == "all" {
        return None;
      }
      original := Some(subtasks);
      subtasks := Filter(subtasks, FieldIs("status", status));
    }

    /** The `restore()` of a search or filter handle. */
    method Restore(original: seq<Record>)
      modifies this
      ensures subtasks == original && editingSubtask == old(editingSubtask) && parentTaskId == old(parentTaskId)
    {
      subtasks := original;
    }
  }

  // ---------------------------------------------------------------------------
  // Properties

  /** The draft is a new subtask of the given task, carrying the generated id. */
  lemma DraftSubtaskShape(id: string, taskId: Value)
    ensures var d := DraftSubtask(id, taskId);
      IsDraft(d) && IdOf(d) == Str(id) && Get(d, "taskId") == taskId
  {
  }

  /** The draft starts at `start`, unnamed, with no comments or efforts. */
  lemma DraftSubtaskEmpty(id: string, taskId: Value)
    ensures var d := DraftSubtask(id, taskId);
      Get(d, "status") == Str("start") && Get(d, "comments") == Arr([]) && Get(d, "efforts") == Arr([]) && !HasName(d)
  {
    var d := DraftSubtask(id, taskId);
    assert Get(d, "name") == Str("");
    BlankNameUnnamed(d);
  }

  /** A draft appended under a fresh, non-empty id is what `cancelEdit` removes, leaving the list as before. */
  lemma AddThenCancel(xs: seq<Record>, id: string, taskId: Value)
    requires id != "" && Absent(xs, Str(id))
    ensures CancelEditOf(xs + [DraftSubtask(id, taskId)], Str(id)) == xs
  {
    DraftSubtaskShape(id, taskId);
    CancelAppendedDraft(xs, DraftSubtask(id, taskId));
  }

  /**
   * The edits of a save: `createdAt` is set only for a former draft, `updatedAt` always, `isNew`
   * is cleared, the subtask joins the parent task, and fields not edited are kept.
   */
  lemma EditedSubtaskStamps(s: Record, name: string, row: SubtaskRow, parentTaskId: Value, now: string)
    ensures var e := EditedSubtask(s, name, row, parentTaskId, now);
      && Get(e, "createdAt") == (if IsDraft(s) then Str(now) else Get(s, "createdAt"))
      && Get(e, "updatedAt") == Str(now)
      && !IsDraft(e) && Get(e, "taskId") == parentTaskId
      && Get(e, "name") == Str(name) && Get(e, "status") == Str(row.status) && Get(e, "description") == Str(row.description)
      && (IsDraft(s) ==> Truthy(Get(e, "comments")) && Truthy(Get(e, "efforts")))
      && (!IsDraft(s) ==> Get(e, "comments") == Get(s, "comments") && Get(e, "efforts") == Get(s, "efforts"))
      && forall f :: f in s && f !in DataFields && f != "isNew" ==> f in e && e[f] == s[f]
  {
  }

  /** The parent's list loses every occurrence of the id and keeps the other ids. */
  lemma ParentLosesId(task: Option<Record>, subtaskId: string, now: string)
    ensures var t := ParentAfterDelete(task, subtaskId, now);
      && (t != task ==> t.Some? && subtaskId !in Refs(Get(t.value, "subtaskIds")))
      && (t != task ==> forall x :: x in Refs(Get(task.value, "subtaskIds")) && x != subtaskId ==> x in Refs(Get(t.value, "subtaskIds")))
      && (task.Some? && Get(task.value, "subtaskIds").Arr? ==> t != None && subtaskId !in Refs(Get(t.value, "subtaskIds")))
  {
    if task.Some? {
      TaskDetail.WithoutSubtaskIdRemoves(task.value, subtaskId, now);
    }
  }

  /** `getSubtaskStats`: `total` counts the saved rows (plus any whose status is literally `total`), every other bucket the saved rows with that status. */
  lemma SubtaskStatsCounts(xs: seq<Record>)
    ensures var s := SubtaskStats(xs);
      && Lookup(s, "total") == |Filter(xs, NotDraft)| + Count(xs, "status", "total")
      && (forall k :: k != "total" ==> Lookup(s, k) == Count(xs, "status", k))
      && s.Keys == {"total", "start", "done"} + Buckets(xs, "status")
  {
    StartBuckets(|Filter(xs, NotDraft)|);
    TallyCounts(xs, "status", StatsStart(|Filter(xs, NotDraft)|));
  }

  lemma StartBuckets(total: int)
    ensures forall k :: Lookup(StatsStart(total), k) == if k == "total" then total else 0
    ensures StatsStart(total).Keys == {"total", "start", "done"}
  {
  }
}
