/**
 * The subtask manager: index arithmetic over the four lifecycle stages, and the two
 * orchestrations it runs against the data manager (advance one stage, create under a task).
 */
module SubtaskManager {
  import opened Values
  import opened Wrappers
  import opened Schema
  import opened Repository
  import opened Lifecycle
  import opened DataLayer
  import opened Ids
  import RepositoryLaws

  /** `validateStageProgression`: unknown current stage, unknown new stage, regression, in that order. */
  function ValidateStageProgression(current: Value, next: Value): (r: Option<StageError>)
    ensures r == None <==> IsStage(current) && IsStage(next) && StageIndex(next) >= StageIndex(current)
    ensures !IsStage(current) ==> r == Some(InvalidCurrentStage(current))
    ensures IsStage(current) && !IsStage(next) ==> r == Some(InvalidNewStage(next))
    ensures IsStage(current) && IsStage(next) && r != None ==> r == Some(Regression(current, next))
  {
    var ci := StageIndex(current);
    var ni := StageIndex(next);
    if ci == -1 then Some(InvalidCurrentStage(current))
    else if ni == -1 then Some(InvalidNewStage(next))
    else if ni < ci then Some(Regression(current, next))
    else None
  }

  /** `getNextStage`: an error for an unknown stage, `null` at Production, else the following stage. */
  function GetNextStage(current: Value): (r: Result<Option<string>, StageError>)
    ensures !IsStage(current) <==> r == Failure(InvalidStage(current))
    ensures current == Str("Production") ==> r == Success(None)
    ensures IsStage(current) && current != Str("Production") ==>
      r.Success? && r.value.Some? && IsStage(Str(r.value.value)) && StageIndex(Str(r.value.value)) == StageIndex(current) + 1
  {
    var ci := StageIndex(current);
    if ci == -1 then Failure(InvalidStage(current))
    else if ci == |Stages| - 1 then
      StageIndexOfStage(3);
      Success(None)
    else
      StageIndexOfStage(ci + 1);
      Success(Some(Stages[ci + 1]))
  }

  /** `xs.slice(0, end)` */
  function SliceTo<T>(xs: seq<T>, end: int): seq<T> {
    if end < 0 then xs[..if |xs| + end < 0 then 0 else |xs| + end]
    else if end > |xs| then xs
    else xs[..end]
  }

  /** `xs.slice(start)` */
  function SliceFrom<T>(xs: seq<T>, start: int): seq<T> {
    if start < 0 then xs[if |xs| + start < 0 then 0 else |xs| + start..]
    else if start > |xs| then []
    else xs[start..]
  }

  /** `getPreviousStages`: an unknown stage gives `slice(0, -1)`, all but Production. */
  function GetPreviousStages(current: Value): seq<string> {
    SliceTo(Stages, StageIndex(current))
  }

  /** `getAvailableStages`: an unknown stage gives `slice(-1)`, just Production. */
  function GetAvailableStages(current: Value): seq<string> {
    SliceFrom(Stages, StageIndex(current))
  }

  /** `isStageAccessible`, with -1 for an unknown stage. */
  predicate IsStageAccessible(current: Value, target: Value) {
    StageIndex(target) >= StageIndex(current)
  }

  /**
   * The earlier and the available stages always make up the whole lifecycle; for a known
   * stage the available ones start at it, and for an unknown one only Production is available.
   */
  lemma StagesPartition(current: Value)
    ensures GetPreviousStages(current) + GetAvailableStages(current) == Stages
    ensures IsStage(current) ==>
      |GetPreviousStages(current)| == StageIndex(current) && GetAvailableStages(current)[0] == current.s
    ensures !IsStage(current) ==>
      GetPreviousStages(current) == ["Analyze", "Development", "Test"] && GetAvailableStages(current) == ["Production"]
  {
    var i := StageIndex(current);
    if i == -1 {
      assert Stages[..3] + Stages[3..] == Stages;
    } else {
      assert Stages[..i] + Stages[i..] == Stages;
    }
  }

  /**
   * Accessibility agrees with the progression check between known stages; from an unknown
   * stage every target is accessible, and an unknown target is never accessible from a known stage.
   */
  lemma AccessibleIffForward(current: Value, target: Value)
    ensures IsStage(current) && IsStage(target) ==>
      (IsStageAccessible(current, target) <==> ValidateStageProgression(current, target) == None)
    ensures !IsStage(current) ==> IsStageAccessible(current, target)
    ensures IsStage(current) && !IsStage(target) ==> !IsStageAccessible(current, target)
  {
  }

  /** The manager's guard and the data layer's guard accept the same stage changes. */
  lemma GuardsAgree(current: Value, next: Value)
    ensures ValidateStageProgression(current, next) == None <==> ValidateSubtaskProgression(current, next) == None
    ensures IsStage(current) ==> ValidateStageProgression(current, current) == None
  {
  }

  /** The stage `getNextStage` proposes always passes the data layer's progression guard. */
  lemma NextStageIsForward(current: Value, next: string)
    requires GetNextStage(current) == Success(Some(next))
    ensures ValidateSubtaskProgression(current, Str(next)) == None
    ensures StageIndex(Str(next)) == StageIndex(current) + 1
  {
  }

  // ---------------------------------------------------------------------------
  // advanceSubtask

  datatype ManagerError = SubtaskNotFound | Stage(stage: StageError) | AlreadyAtFinal | Data(data: Error)

  /** The write `advanceSubtask` sends: the next stage and a timestamp. */
  function AdvancePatch(next: string, now: Value): Record {
    map["taskType" := Str(next), "lastAdvanced" := now]
  }

  function AdvanceSubtaskSpec(db: Db, id: Value, now: Value, dateOk: Value -> bool): (Db, Result<Record, ManagerError>) {
    match Find(db.subtasks, id)
    case None => (db, Failure(SubtaskNotFound))
    case Some(s) =>
      match GetNextStage(Get(s, "taskType"))
      case Failure(e) => (db, Failure(Stage(e)))
      case Success(None) => (db, Failure(AlreadyAtFinal))
      case Success(Some(next)) => Relay(UpdateSubtaskSpec(db, id, AdvancePatch(next, now), dateOk))
  }

  /** A data-layer outcome as the manager reports it. */
  function Relay(w: (Db, Result<Record, Error>)): (Db, Result<Record, ManagerError>) {
    (w.0, if w.1.Failure? then Failure(Data(w.1.error)) else Success(w.1.value))
  }

  /**
   * Past the guards, a write that moves the stage forward and carries a key outside the
   * subtask allow-list passes the stage check and is refused by the schema.
   */
  lemma ForwardWriteRejected(db: Db, id: Value, patch: Record, k: string, dateOk: Value -> bool)
    requires Find(db.subtasks, id).Some?
    requires Lifecycle.ValidateSubtaskProgression(Get(Find(db.subtasks, id).value, "taskType"), Get(patch, "taskType")) == None
    requires k in patch && k !in AllowedFields(Subtasks)
    ensures var (db', u) := UpdateSubtaskSpec(db, id, patch, dateOk);
      db' == db && u.Failure? && u.error.SchemaErr? && u.error.schema.UnknownFields? && k in u.error.schema.extra
  {
    RepositoryLaws.UpdateForeignKeyRejected(db, Subtasks, id, patch, k, dateOk);
  }

  /**
   * The subtask allow-list has no `lastAdvanced`, so `advanceSubtask` never changes the data:
   * a present subtask at a stage before Production gets the schema's unknown-field error.
   */
  lemma AdvanceSubtaskRejected(db: Db, id: Value, now: Value, dateOk: Value -> bool)
    ensures var (db', r) := AdvanceSubtaskSpec(db, id, now, dateOk);
      && db' == db && r.Failure?
      && (Find(db.subtasks, id).None? ==> r.error == SubtaskNotFound)
      && (Find(db.subtasks, id).Some? && Get(Find(db.subtasks, id).value, "taskType") == Str("Production") ==> r.error == AlreadyAtFinal)
      && (Find(db.subtasks, id).Some? && IsStage(Get(Find(db.subtasks, id).value, "taskType"))
          && Get(Find(db.subtasks, id).value, "taskType") != Str("Production") ==>
          r.error.Data? && r.error.data.SchemaErr? && r.error.data.schema.UnknownFields? && "lastAdvanced" in r.error.data.schema.extra)
  {
    var found := Find(db.subtasks, id);
    if found.Some? {
      var g := GetNextStage(Get(found.value, "taskType"));
      if g.Success? && g.value.Some? {
        AdvanceRejectedAt(db, id, g.value.value, now, dateOk);
      }
    }
  }

  /** The subtask allow-list has no `lastAdvanced`. */
  lemma TimestampNotAllowed()
    ensures "lastAdvanced" !in AllowedFields(Subtasks)
  {
  }

  lemma AdvanceRejectedAt(db: Db, id: Value, next: string, now: Value, dateOk: Value -> bool)
    requires Find(db.subtasks, id).Some?
    requires GetNextStage(Get(Find(db.subtasks, id).value, "taskType")) == Success(Some(next))
    ensures var (db', r) := AdvanceSubtaskSpec(db, id, now, dateOk);
      db' == db && r.Failure? && r.error.Data? && r.error.data.SchemaErr? && r.error.data.schema.UnknownFields?
      && "lastAdvanced" in r.error.data.schema.extra
  {
    var patch := AdvancePatch(next, now);
    assert Get(patch, "taskType") == Str(next);
    NextStageIsForward(Get(Find(db.subtasks, id).value, "taskType"), next);
    TimestampNotAllowed();
    ForwardWriteRejected(db, id, patch, "lastAdvanced", dateOk);
  }

  method AdvanceSubtask(dm: DataManager, id: Value, now: Value) returns (r: Result<Record, ManagerError>)
    requires dm.Valid()
    modifies dm
    ensures dm.Valid()
    ensures (dm.cache, r) == AdvanceSubtaskSpec(old(dm.cache), id, now, dm.dateOk)
  {
    var subtask := dm.GetRecord(Subtasks, id);
    assert subtask == Find(dm.cache.subtasks, id);
    if subtask.None? {
      return Failure(SubtaskNotFound);
    }
    var next := GetNextStage(Get(subtask.value, "taskType"));
    if next.Failure? {
      return Failure(Stage(next.error));
    }
    if next.value.None? {
      return Failure(AlreadyAtFinal);
    }
    r := RelayUpdate(dm, id, AdvancePatch(next.value.value, now));
  }

  /** The manager's `updateSubtask` call, with a data-layer failure wrapped. */
  method RelayUpdate(dm: DataManager, id: Value, patch: Record) returns (r: Result<Record, ManagerError>)
    requires dm.Valid()
    modifies dm
    ensures dm.Valid()
    ensures (dm.cache, r) == Relay(UpdateSubtaskSpec(old(dm.cache), id, patch, dm.dateOk))
  {
    var u := dm.UpdateSubtask(id, patch);
    if u.Failure? {
      return Failure(Data(u.error));
    }
    return Success(u.value);
  }

  // ---------------------------------------------------------------------------
  // createSubtask

  /** The record `createSubtask` builds: always at Analyze, assignee defaulting to `''`. */
  function NewSubtask(id: string, data: Record): Record {
    map["id" := Str(id), "name" := Get(data, "name"), "dueDate" := Get(data, "dueDate"), "taskType" := Str("Analyze"),
        "assignee" := if Truthy(Get(data, "assignee")) then Get(data, "assignee") else Str("")]
  }

  /** `[...(task.subtaskIds || []), id]` as an update of the parent. */
  function AppendPatch(task: Record, id: string): Record {
    map["subtaskIds" := Arr(Refs(Get(task, "subtaskIds")) + [id])]
  }

  /** `createSubtask(taskId, data)` once the id `id` has been generated. */
  function CreateSubtaskSpec(db: Db, taskId: Value, id: string, data: Record, dateOk: Value -> bool): (Db, Result<Record, Error>) {
    LinkToTask(AddSpec(db, "subtasks", SubtaskDefaults(NewSubtask(id, data)), dateOk), taskId, id, dateOk)
  }

  /** After the save `w`: a saved subtask is appended to its parent's list when the parent exists. */
  function LinkToTask(w: (Db, Result<Record, Error>), taskId: Value, id: string, dateOk: Value -> bool): (Db, Result<Record, Error>) {
    if w.1.Failure? then w
    else
      match Find(w.0.tasks, taskId)
      case None => w
      case Some(t) =>
        var (db2, u) := UpdateIn(w.0, Tasks, taskId, AppendPatch(t, id), dateOk);
        if u.Failure? then (db2, Failure(u.error)) else (db2, w.1)
  }

  /** The save step: the new subtask, already at Analyze, is appended unchanged. */
  lemma CreateSaves(db: Db, id: string, data: Record, dateOk: Value -> bool)
    ensures var (db1, s) := AddSpec(db, "subtasks", SubtaskDefaults(NewSubtask(id, data)), dateOk);
      && (s.Failure? ==> db1 == db)
      && (s.Success? ==> s.value == NewSubtask(id, data) && db1 == db.(subtasks := db.subtasks + [s.value]))
  {
    var sub := NewSubtask(id, data);
    assert SubtaskDefaults(sub) == sub;
    RepositoryLaws.AddAppends(db, "subtasks", sub, dateOk);
    assert WithArrays(Subtasks, sub) == sub;
  }

  /**
   * The parent step: after a failed save, or when the parent update fails, nothing more
   * changes (the saved subtask stays); otherwise the saved record is the result and the
   * parent's reference list, when the parent exists, gains the id at the end.
   */
  lemma LinkAppends(w: (Db, Result<Record, Error>), taskId: Value, id: string, dateOk: Value -> bool)
    ensures var (db2, r) := LinkToTask(w, taskId, id, dateOk);
      && (r.Failure? ==> db2 == w.0)
      && (w.1.Failure? ==> r == w.1)
      && (r.Success? ==> r == w.1 && db2.subtasks == w.0.subtasks)
      && (r.Success? && Find(w.0.tasks, taskId).None? ==> db2 == w.0)
      && (r.Success? && Find(w.0.tasks, taskId).Some? ==>
        var i := FindIndex(w.0.tasks, taskId);
        && |db2.tasks| == |w.0.tasks|
        && Refs(Get(db2.tasks[i], "subtaskIds")) == Refs(Get(w.0.tasks[i], "subtaskIds")) + [id])
  {
    if w.1.Success? && Find(w.0.tasks, taskId).Some? {
      var patch := AppendPatch(Find(w.0.tasks, taskId).value, id);
      RepositoryLaws.UpdateSetsField(w.0, Tasks, taskId, patch, "subtaskIds", dateOk);
    }
  }

  /**
   * A created subtask is stored last, at Analyze; when the parent task exists and the update
   * succeeds, its `subtaskIds` is the old list with the new id appended.
   */
  lemma CreateSubtaskAppends(db: Db, taskId: Value, id: string, data: Record, dateOk: Value -> bool)
    ensures var (db', r) := CreateSubtaskSpec(db, taskId, id, data, dateOk);
      r.Success? ==>
        && r.value == NewSubtask(id, data)
        && Get(r.value, "taskType") == Str("Analyze")
        && db'.subtasks == db.subtasks + [r.value]
        && (Find(db.tasks, taskId).Some? ==>
            var i := FindIndex(db.tasks, taskId);
            && |db'.tasks| == |db.tasks|
            && Refs(Get(db'.tasks[i], "subtaskIds")) == Refs(Get(db.tasks[i], "subtaskIds")) + [id])
        && (Find(db.tasks, taskId).None? ==> db'.tasks == db.tasks)
  {
    var w := AddSpec(db, "subtasks", SubtaskDefaults(NewSubtask(id, data)), dateOk);
    CreateSaves(db, id, data, dateOk);
    LinkAppends(w, taskId, id, dateOk);
    if w.1.Success? {
      assert w.0.tasks == db.tasks;
    }
  }

  /** `createSubtask(taskId, subtaskData)`: generate the id, then save and link. */
  method CreateSubtask(dm: DataManager, gen: IdGenerator, taskId: Value, data: Record) returns (r: Result<Record, Error>)
    requires dm.Valid() && gen.Valid()
    modifies dm, gen
    ensures dm.Valid() && gen.Valid()
    ensures gen.counters == old(gen.counters)["subtask" := old(gen.counters)["subtask"] + 1]
    ensures (dm.cache, r) == CreateSubtaskSpec(old(dm.cache), taskId, FormatId("subtask", old(gen.counters)["subtask"]), data, dm.dateOk)
  {
    var id := NewId(gen, "subtask");
    r := SaveAndLink(dm, taskId, id, data);
  }

  /** The part of `createSubtask` after the id is generated. */
  method SaveAndLink(dm: DataManager, taskId: Value, id: string, data: Record) returns (r: Result<Record, Error>)
    requires dm.Valid()
    modifies dm
    ensures dm.Valid()
    ensures (dm.cache, r) == CreateSubtaskSpec(old(dm.cache), taskId, id, data, dm.dateOk)
  {
    var saved := dm.SaveSubtask(NewSubtask(id, data));
    r := LinkSaved(dm, taskId, id, saved);
  }

  /** After the save: the parent, when it exists, gets the id appended to `subtaskIds`. */
  method LinkSaved(dm: DataManager, taskId: Value, id: string, saved: Result<Record, Error>) returns (r: Result<Record, Error>)
    requires dm.Valid()
    modifies dm
    ensures dm.Valid()
    ensures (dm.cache, r) == LinkToTask((old(dm.cache), saved), taskId, id, dm.dateOk)
  {
    if saved.Failure? {
      return saved;
    }
    var task := dm.GetRecord(Tasks, taskId);
    assert task == Find(dm.cache.tasks, taskId);
    if task.Some? {
      var u := dm.Update(Tasks, taskId, AppendPatch(task.value, id));
      if u.Failure? {
        return Failure(u.error);
      }
    }
    return saved;
  }
}
