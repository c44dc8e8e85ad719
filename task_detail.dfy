/**
 * The task detail page: the eight-entry `doneStatus` workflow, the step marks and buttons
 * the page renders for it, and the page's edits of the task it shows. Every write the page
 * sends is a whole task carrying `updatedAt`, which the task allow-list lacks.
 */
module TaskDetail {
  import opened Values
  import opened Wrappers
  import opened Schema
  import opened Repository
  import RepositoryLaws
  import DataLayer
  import Ids
  import Text

  const Workflow: seq<string> := [
    "ready_to_analyze", "complete_analyze", "ready_to_development", "complete_development",
    "ready_to_test", "test_done", "ready_to_production", "production_done"]

  /** `statusWorkflow.indexOf(status)`, -1 for a status outside the workflow. */
  function WorkflowIndex(status: Value): int {
    IndexOf(Workflow, status)
  }

  /** The workflow entries tell apart by length and first letter, so none repeats. */
  lemma WorkflowDistinct(i: nat, j: nat)
    requires i < j < |Workflow|
    ensures Workflow[i] != Workflow[j]
  {
    assert |Workflow[0]| == 16 && |Workflow[1]| == 16 && |Workflow[2]| == 20 && |Workflow[3]| == 20;
    assert |Workflow[4]| == 13 && |Workflow[5]| == 9 && |Workflow[6]| == 19 && |Workflow[7]| == 15;
    assert Workflow[0][0] != Workflow[1][0] && Workflow[2][0] != Workflow[3][0];
  }

  lemma WorkflowIndexOf(i: nat)
    requires i < |Workflow|
    ensures WorkflowIndex(Str(Workflow[i])) == i
  {
    forall j | 0 <= j < i
      ensures Workflow[j] != Workflow[i]
    {
      WorkflowDistinct(j, i);
    }
    IndexOfDistinct(Workflow, i);
  }

  /**
   * The status `nextStatus` moves to: the following entry, `ready_to_analyze` for a status
   * outside the workflow, nothing at `production_done`.
   */
  function NextStatusOf(status: Value): (r: Option<string>)
    ensures r.None? <==> status == Str("production_done")
    ensures WorkflowIndex(status) == -1 ==> r == Some("ready_to_analyze")
    ensures r.Some? ==> r.value in Workflow && WorkflowIndex(Str(r.value)) == WorkflowIndex(status) + 1
  {
    WorkflowIndexOf(|Workflow| - 1);
    var ci := WorkflowIndex(status);
    if ci < |Workflow| - 1 then
      WorkflowIndexOf(ci + 1);
      Some(Workflow[ci + 1])
    else None
  }

  /** The status `previousStatus` moves to: the entry before; nothing at the first entry or outside the workflow. */
  function PreviousStatusOf(status: Value): (r: Option<string>)
    ensures r.None? <==> status == Str("ready_to_analyze") || WorkflowIndex(status) == -1
    ensures r.Some? ==> r.value in Workflow && WorkflowIndex(Str(r.value)) == WorkflowIndex(status) - 1
  {
    WorkflowIndexOf(0);
    var ci := WorkflowIndex(status);
    if ci > 0 then
      WorkflowIndexOf(ci - 1);
      Some(Workflow[ci - 1])
    else None
  }

  /** Stepping forward and then back, or back and then forward, returns to the entry left. */
  lemma {:induction false} StepsInverse(i: nat)
    requires i < |Workflow|
    ensures i < |Workflow| - 1 ==> PreviousStatusOf(Str(NextStatusOf(Str(Workflow[i])).value)) == Some(Workflow[i])
    ensures i > 0 ==> NextStatusOf(Str(PreviousStatusOf(Str(Workflow[i])).value)) == Some(Workflow[i])
  {
    WorkflowIndexOf(i);
    if i < |Workflow| - 1 {
      WorkflowIndexOf(i + 1);
    }
    if i > 0 {
      WorkflowIndexOf(i - 1);
    }
  }

  // ---------------------------------------------------------------------------
  // `renderWorkflowStatus`: the page shows one step per workflow entry, in order.

  datatype Mark = Completed | Current | Upcoming

  function MarkOf(stepIndex: int, currentIndex: int): Mark {
    if stepIndex < currentIndex then Completed else if stepIndex == currentIndex then Current else Upcoming
  }

  function StepMarks(status: Value): seq<Mark> {
    seq(|Workflow|, k => MarkOf(k, WorkflowIndex(status)))
  }

  predicate PrevDisabled(status: Value) {
    WorkflowIndex(status) <= 0
  }

  predicate NextDisabled(status: Value) {
    WorkflowIndex(status) >= |Workflow| - 1
  }

  function NextLabel(status: Value): string {
    if NextDisabled(status) then "✓ Completed" else "Next Stage →"
  }

  /**
   * For a status in the workflow the steps before it are completed, it is the one current step and
   * the rest are upcoming; for any other status every step is upcoming.
   */
  lemma MarksShape(status: Value)
    ensures var marks := StepMarks(status);
      var ci := WorkflowIndex(status);
      && |marks| == |Workflow|
      && (forall k :: 0 <= k < |marks| ==> (marks[k] == Completed <==> k < ci))
      && (forall k :: 0 <= k < |marks| ==> (marks[k] == Current <==> k == ci))
      && (ci == -1 ==> forall k :: 0 <= k < |marks| ==> marks[k] == Upcoming)
  {
  }

  /** A button is disabled exactly when the move it triggers would change nothing. */
  lemma ButtonsMatchMoves(status: Value)
    ensures PrevDisabled(status) <==> PreviousStatusOf(status).None?
    ensures NextDisabled(status) <==> NextStatusOf(status).None?
    ensures NextLabel(status) == "✓ Completed" <==> status == Str("production_done")
  {
  }

  // ---------------------------------------------------------------------------
  // The page's edits of the shown task

  /** What the page reports after an action. */
  datatype Notice = Quiet | Succeeded | Failed

  /** `updateTaskStatus` edits the shown task: the new status and an `updatedAt` stamp. */
  function SetStatus(task: Record, status: string, now: string): Record {
    task["doneStatus" := Str(status)]["updatedAt" := Str(now)]
  }

  /** The record `handleCreateSubtask` saves, given the trimmed form fields. */
  function DetailSubtask(id: string, taskId: Value, name: string, description: string, now: string): Record {
    map["id" := Str(id), "taskId" := taskId, "name" := Str(name), "description" := Str(description),
        "status" := Str("start"), "comments" := Arr([]), "efforts" := Arr([]), "createdAt" := Str(now), "updatedAt" := Str(now)]
  }

  /** `subtaskIds = subtaskIds || []; subtaskIds.push(id)`: a truthy value that is not an array cannot be pushed to. */
  function WithSubtaskId(task: Record, id: string, now: string): Option<Record> {
    var ids := Get(task, "subtaskIds");
    if Truthy(ids) && !ids.Arr? then None
    else Some(task["subtaskIds" := Arr(Refs(ids) + [id])]["updatedAt" := Str(now)])
  }

  /** `subtaskIds.filter(x => x !== id)`: only an array has `filter`. */
  function WithoutSubtaskId(task: Record, id: string, now: string): Option<Record> {
    var ids := Get(task, "subtaskIds");
    if !ids.Arr? then None
    else Some(task["subtaskIds" := Arr(Without(ids.items, id))]["updatedAt" := Str(now)])
  }

  /** The local edit after a save: the id goes to the end of the list and every other field stays. */
  lemma WithSubtaskIdAppends(task: Record, id: string, now: string)
    ensures var r := WithSubtaskId(task, id, now);
      && (r.None? <==> Truthy(Get(task, "subtaskIds")) && !Get(task, "subtaskIds").Arr?)
      && (r.Some? ==>
        && Get(r.value, "subtaskIds") == Arr(Refs(Get(task, "subtaskIds")) + [id])
        && r.value.Keys == task.Keys + {"subtaskIds", "updatedAt"}
        && forall f :: f in task && f != "subtaskIds" && f != "updatedAt" ==> r.value[f] == task[f])
  {
  }

  /** The local edit after a delete: no occurrence of the id is left and every other id stays. */
  lemma WithoutSubtaskIdRemoves(task: Record, id: string, now: string)
    ensures var r := WithoutSubtaskId(task, id, now);
      && (r.None? <==> !Get(task, "subtaskIds").Arr?)
      && (r.Some? ==>
        && Get(r.value, "subtaskIds").Arr?
        && id !in Refs(Get(r.value, "subtaskIds"))
        && (forall x :: x in Refs(Get(task, "subtaskIds")) && x != id ==> x in Refs(Get(r.value, "subtaskIds")))
        && forall f :: f in task && f != "subtaskIds" && f != "updatedAt" ==> r.value[f] == task[f])
  {
  }

  /** `handleCreateSubtask` once the id is generated and the form fields are trimmed: save, then edit the shown task and write it. */
  function CreateFromDetail(db: Db, task: Option<Record>, taskId: Value, id: string, name: string, description: string, now: string, dateOk: Value -> bool): (Db, Option<Record>, Notice) {
    LinkFromDetail(AddSpec(db, "subtasks", SubtaskDefaults(DetailSubtask(id, taskId, name, description, now)), dateOk), task, taskId, id, now, dateOk)
  }

  /** After the save `w`: a saved subtask's id is added to the shown task, which is then written. */
  function LinkFromDetail(w: (Db, Result<Record, Error>), task: Option<Record>, taskId: Value, id: string, now: string, dateOk: Value -> bool): (Db, Option<Record>, Notice) {
    if w.1.Failure? || task.None? then (w.0, task, Failed)
    else
      match WithSubtaskId(task.value, id, now)
      case None => (w.0, task, Failed)
      case Some(t) =>
        var (db2, u) := UpdateIn(w.0, Tasks, taskId, t, dateOk);
        (db2, Some(t), if u.Success? then Succeeded else Failed)
  }

  /** `deleteSubtask(subtaskId)` on the detail page: confirm, cascade-delete, then edit the shown task and write it. */
  function DeleteFromDetail(db: Db, task: Option<Record>, taskId: Value, subtaskId: string, confirmed: bool, now: string, dateOk: Value -> bool): (Db, Option<Record>, Notice) {
    if !confirmed then (db, task, Quiet)
    else
      var (db1, r) := DeleteSubtaskSpec(db, subtaskId, dateOk);
      if r.Failure? || task.None? then (db1, task, Failed)
      else
        match WithoutSubtaskId(task.value, subtaskId, now)
        case None => (db1, task, Failed)
        case Some(t) =>
          var (db2, u) := UpdateIn(db1, Tasks, taskId, t, dateOk);
          (db2, Some(t), if u.Success? then Succeeded else Failed)
  }

  /** A status write is always refused: the task carries `updatedAt`, which tasks may not have. With records as values the store is left as it was. */
  lemma StatusWriteRejected(db: Db, id: Value, task: Record, status: string, now: string, dateOk: Value -> bool)
    ensures var (db', r) := UpdateIn(db, Tasks, id, SetStatus(task, status, now), dateOk);
      db' == db && r.Failure?
  {
    RepositoryLaws.UpdateForeignKeyRejected(db, Tasks, id, SetStatus(task, status, now), "updatedAt", dateOk);
  }

  /** Even without `updatedAt`, a workflow status is outside the `doneStatus` enum of tasks. */
  lemma WorkflowOutsideEnum(task: Record, i: nat)
    requires i < |Workflow|
    ensures EnumCheck(Tasks, task["doneStatus" := Str(Workflow[i])]).Some?
  {
    assert !InList(Str(Workflow[i]), TaskStatuses);
  }

  /** The subtask the page builds is always rejected, so creating one changes neither the data nor the shown task. */
  lemma DetailCreateRejected(db: Db, task: Option<Record>, taskId: Value, id: string, name: string, description: string, now: string, dateOk: Value -> bool)
    ensures CreateFromDetail(db, task, taskId, id, name, description, now, dateOk) == (db, task, Failed)
  {
    var sub := DetailSubtask(id, taskId, name, description, now);
    assert "status" in sub;
    ForeignSubtaskRejected(db, sub, dateOk);
  }

  /** A subtask carrying `status` is never stored. */
  lemma ForeignSubtaskRejected(db: Db, sub: Record, dateOk: Value -> bool)
    requires "status" in sub
    ensures var (db', r) := AddSpec(db, "subtasks", SubtaskDefaults(sub), dateOk);
      db' == db && r.Failure?
  {
    assert "status" in SubtaskDefaults(sub);
    RepositoryLaws.AddForeignKeyRejected(db, Subtasks, SubtaskDefaults(sub), "status", dateOk);
  }

  /**
   * A confirmed delete stores exactly what the cascade stores (the task write that follows is
   * rejected) and always reports failure; after a successful cascade the shown list has lost
   * every occurrence of the id, when it was an array.
   */
  lemma DetailDeleteOutcome(db: Db, task: Option<Record>, taskId: Value, subtaskId: string, confirmed: bool, now: string, dateOk: Value -> bool)
    ensures var (db', t', n) := DeleteFromDetail(db, task, taskId, subtaskId, confirmed, now, dateOk);
      && (!confirmed ==> db' == db && t' == task && n == Quiet)
      && (confirmed ==> db' == DeleteSubtaskSpec(db, subtaskId, dateOk).0 && n == Failed)
      && (confirmed && DeleteSubtaskSpec(db, subtaskId, dateOk).1.Success? && task.Some?
          && Get(task.value, "subtaskIds").Arr? ==>
            t'.Some? && subtaskId !in Refs(Get(t'.value, "subtaskIds")))
  {
    if confirmed {
      var (db1, r) := DeleteSubtaskSpec(db, subtaskId, dateOk);
      if r.Success? && task.Some? && Get(task.value, "subtaskIds").Arr? {
        var t := WithoutSubtaskId(task.value, subtaskId, now).value;
        RepositoryLaws.UpdateForeignKeyRejected(db1, Tasks, taskId, t, "updatedAt", dateOk);
      }
    }
  }

  class TaskDetailManager {
    var currentTask: Option<Record>
    var currentTaskId: Value

    constructor ()
      ensures currentTask == None && currentTaskId == Null
    {
      currentTask := None;
      currentTaskId := Null;
    }

    /** `init(taskId)`: load the task; a missing task is reported. */
    method Init(dm: DataLayer.DataManager, taskId: Value) returns (n: Notice)
      modifies this
      ensures currentTaskId == taskId && currentTask == Find(dm.cache.tasks, taskId)
      ensures n == Failed <==> currentTask.None?
    {
      currentTaskId := taskId;
      currentTask := dm.GetRecord(Tasks, taskId);
      assert currentTask == Find(dm.cache.tasks, taskId);
      n := if currentTask.None? then Failed else Quiet;
    }

    /** `updateTaskStatus(newStatus)`: edit the shown task, then write all of it. */
    method UpdateTaskStatus(dm: DataLayer.DataManager, newStatus: string, now: string) returns (n: Notice)
      requires dm.Valid()
      modifies this, dm
      ensures dm.Valid() && currentTaskId == old(currentTaskId)
      ensures old(currentTask).None? ==> currentTask == None && dm.cache == old(dm.cache) && n == Failed
      ensures old(currentTask).Some? ==>
        var t := SetStatus(old(currentTask).value, newStatus, now);
        var (db', r) := UpdateIn(old(dm.cache), Tasks, currentTaskId, t, dm.dateOk);
        && currentTask == Some(t)
        && dm.cache == db'
        && n == (if r.Success? then Succeeded else Failed)
    {
      if currentTask.None? {
        return Failed;
      }
      currentTask := Some(SetStatus(currentTask.value, newStatus, now));
      var r := dm.Update(Tasks, currentTaskId, currentTask.value);
      n := if r.Success? then Succeeded else Failed;
    }

    /** `nextStatus()` */
    method NextStatus(dm: DataLayer.DataManager, now: string) returns (n: Notice)
      requires dm.Valid()
      modifies this, dm
      ensures dm.Valid() && currentTaskId == old(currentTaskId)
      ensures old(currentTask).None? ==> currentTask == None && dm.cache == old(dm.cache) && n == Quiet
      ensures old(currentTask).Some? ==>
        var next := NextStatusOf(Get(old(currentTask).value, "doneStatus"));
        && (next.None? ==> currentTask == old(currentTask) && dm.cache == old(dm.cache) && n == Quiet)
        && (next.Some? ==>
            && currentTask == Some(SetStatus(old(currentTask).value, next.value, now))
            && dm.cache == UpdateIn(old(dm.cache), Tasks, currentTaskId, currentTask.value, dm.dateOk).0
            && n == (if UpdateIn(old(dm.cache), Tasks, currentTaskId, currentTask.value, dm.dateOk).1.Success? then Succeeded else Failed))
    {
      if currentTask.None? {
        return Quiet;
      }
      var currentIndex := WorkflowIndex(Get(currentTask.value, "doneStatus"));
      if currentIndex < |Workflow| - 1 {
        n := UpdateTaskStatus(dm, Workflow[currentIndex + 1], now);
      } else {
        n := Quiet;
      }
    }

    /** `previousStatus()` */
    method PreviousStatus(dm: DataLayer.DataManager, now: string) returns (n: Notice)
      requires dm.Valid()
      modifies this, dm
      ensures dm.Valid() && currentTaskId == old(currentTaskId)
      ensures old(currentTask).None? ==> currentTask == None && dm.cache == old(dm.cache) && n == Quiet
      ensures old(currentTask).Some? ==>
        var prev := PreviousStatusOf(Get(old(currentTask).value, "doneStatus"));
        && (prev.None? ==> currentTask == old(currentTask) && dm.cache == old(dm.cache) && n == Quiet)
        && (prev.Some? ==>
            && currentTask == Some(SetStatus(old(currentTask).value, prev.value, now))
            && dm.cache == UpdateIn(old(dm.cache), Tasks, currentTaskId, currentTask.value, dm.dateOk).0
            && n == (if UpdateIn(old(dm.cache), Tasks, currentTaskId, currentTask.value, dm.dateOk).1.Success? then Succeeded else Failed))
    {
      if currentTask.None? {
        return Quiet;
      }
      var currentIndex := WorkflowIndex(Get(currentTask.value, "doneStatus"));
      if currentIndex > 0 {
        n := UpdateTaskStatus(dm, Workflow[currentIndex - 1], now);
      } else {
        n := Quiet;
      }
    }

    /** `handleCreateSubtask(form)`: a fresh subtask id, then save and link. */
    method HandleCreateSubtask(dm: DataLayer.DataManager, gen: Ids.IdGenerator, name: string, description: string, now: string)
      returns (n: Notice)
      requires dm.Valid() && gen.Valid()
      modifies this, dm, gen
      ensures dm.Valid() && gen.Valid() && currentTaskId == old(currentTaskId)
      ensures gen.counters == old(gen.counters)["subtask" := old(gen.counters)["subtask"] + 1]
      ensures (dm.cache, currentTask, n)
        == CreateFromDetail(old(dm.cache), old(currentTask), currentTaskId, Ids.FormatId("subtask", old(gen.counters)["subtask"]),
             Text.Trim(name), Text.Trim(description), now, dm.dateOk)
    {
      var id := Ids.NewId(gen, "subtask");
      n := SaveAndLink(dm, id, Text.Trim(name), Text.Trim(description), now);
    }

    method SaveAndLink(dm: DataLayer.DataManager, id: string, name: string, description: string, now: string) returns (n: Notice)
      requires dm.Valid()
      modifies this, dm
      ensures dm.Valid() && currentTaskId == old(currentTaskId)
      ensures (dm.cache, currentTask, n) == CreateFromDetail(old(dm.cache), old(currentTask), currentTaskId, id, name, description, now, dm.dateOk)
    {
      var s := dm.SaveSubtask(DetailSubtask(id, currentTaskId, name, description, now));
      n := LinkSaved(dm, s, id, now);
    }

    method LinkSaved(dm: DataLayer.DataManager, s: Result<Record, Error>, id: string, now: string) returns (n: Notice)
      requires dm.Valid()
      modifies this, dm
      ensures dm.Valid() && currentTaskId == old(currentTaskId)
      ensures (dm.cache, currentTask, n) == LinkFromDetail((old(dm.cache), s), old(currentTask), currentTaskId, id, now, dm.dateOk)
    {
      if s.Failure? || currentTask.None? {
        return Failed;
      }
      var t := WithSubtaskId(currentTask.value, id, now);
      if t.None? {
        return Failed;
      }
      currentTask := t;
      var u := dm.Update(Tasks, currentTaskId, t.value);
      n := if u.Success? then Succeeded else Failed;
    }

    /** `deleteSubtask(subtaskId)`; `confirmed` is the answer to the confirmation dialog. */
    method DeleteSubtask(dm: DataLayer.DataManager, subtaskId: string, confirmed: bool, now: string) returns (n: Notice)
      requires dm.Valid()
      modifies this, dm
      ensures dm.Valid() && currentTaskId == old(currentTaskId)
      ensures (dm.cache, currentTask, n) == DeleteFromDetail(old(dm.cache), old(currentTask), currentTaskId, subtaskId, confirmed, now, dm.dateOk)
    {
      if !confirmed {
        return Quiet;
      }
      var r := dm.DeleteSubtask(subtaskId);
      if r.Failure? || currentTask.None? {
        return Failed;
      }
      var t := WithoutSubtaskId(currentTask.value, subtaskId, now);
      if t.None? {
        return Failed;
      }
      currentTask := t;
      var u := dm.Update(Tasks, currentTaskId, t.value);
      n := if u.Success? then Succeeded else Failed;
    }
  }
}
