/**
 * The data manager object: the cache of the five collections, the abstract store that
 * `saveDataFile` writes to, and the log of relationship warnings. Every method is proved
 * to leave the cache as the matching function of module Repository says.
 */
module DataLayer {
  import opened Values
  import opened Wrappers
  import opened Schema
  import opened Repository
  import Lifecycle

  /** What a write on collection `name` logs: the relationship warning of the record it stored, if any. */
  function Logged(db: Db, name: string, r: Result<Record, Error>): seq<Warning> {
    if r.Success? && RelationshipWarning(db, name, r.value).Some? then [RelationshipWarning(db, name, r.value).value] else []
  }

  class DataManager {
    /** How `new Date(v)` judges a value; date parsing is not modelled. */
    const dateOk: Value -> bool
    var cache: Db
    /** What the store last received for each collection. */
    var persisted: Db
    /** The relationship warnings logged so far (they never block a write). */
    var warnings: seq<Warning>

    /** Every write is followed by a save of the collection it changed. */
    ghost predicate Valid()
      reads this
    {
      persisted == cache
    }

    /** The files' contents are loaded into the cache. */
    constructor (dateOk: Value -> bool, stored: Db)
      ensures Valid() && this.dateOk == dateOk && cache == stored && warnings == []
    {
      this.dateOk := dateOk;
      cache := stored;
      persisted := stored;
      warnings := [];
    }

    /** `getData(type)`: a copy of the collection, `[]` for a name that is not one. */
    function GetData(name: string): (rs: seq<Record>)
      reads this
      ensures ParseCollection(name).None? ==> rs == []
      ensures forall c :: ParseCollection(name) == Some(c) ==> rs == cache.Get(c)
    {
      Repository.GetData(cache, name)
    }

    /** `getProject`, `getIdea`, `getEvent`, `getTask`, `getSubtask`: the first record with the id. */
    function GetRecord(c: Collection, id: Value): (r: Option<Record>)
      reads this
      ensures r.Some? <==> !Absent(cache.Get(c), id)
      ensures r.Some? ==> r.value in cache.Get(c) && IdOf(r.value) == id
    {
      Find(cache.Get(c), id)
    }

    /** `saveDataFile(type)`, an abstract write that always succeeds. */
    method SaveDataFile(c: Collection)
      modifies this
      ensures persisted == old(persisted).Set(c, cache.Get(c))
      ensures cache == old(cache) && warnings == old(warnings)
    {
      persisted := persisted.Set(c, cache.Get(c));
    }

    method AddData(name: string, item: Record) returns (r: Result<Record, Error>)
      requires Valid()
      modifies this
      ensures Valid()
      ensures (cache, r) == AddSpec(old(cache), name, item, dateOk)
      ensures warnings == old(warnings) + Logged(old(cache), name, r)
    {
      var stored, err := ValidateSchema(name, item, dateOk);
      if err.Some? {
        return Failure(SchemaErr(err.value));
      }
      var c := ParseCollection(name).value;
      var w := RelationshipWarning(cache, name, stored);
      if w.Some? {
        warnings := warnings + [w.value];
      }
      cache := cache.Set(c, cache.Get(c) + [stored]);
      SaveDataFile(c);
      return Success(stored);
    }

    method UpdateData(name: string, id: Value, patch: Record) returns (r: Result<Record, Error>)
      requires Valid()
      modifies this
      ensures Valid()
      ensures (cache, r) == UpdateSpec(old(cache), name, id, patch, dateOk)
      ensures warnings == old(warnings) + Logged(old(cache), name, r)
    {
      var pc := ParseCollection(name);
      if pc.None? {
        return Failure(NotFound(name, id));
      }
      var c := pc.value;
      var rs := cache.Get(c);
      var index := FindIndex(rs, id);
      if index == -1 {
        return Failure(NotFound(name, id));
      }
      var merged, err := ValidateSchema(name, rs[index] + patch, dateOk);
      if err.Some? {
        return Failure(SchemaErr(err.value));
      }
      var w := RelationshipWarning(cache, name, merged);
      if w.Some? {
        warnings := warnings + [w.value];
      }
      cache := cache.Set(c, rs[index := merged]);
      SaveDataFile(c);
      return Success(merged);
    }

    method DeleteData(name: string, id: Value) returns (r: Result<bool, Error>)
      requires Valid()
      modifies this
      ensures Valid()
      ensures (cache, r) == DeleteSpec(old(cache), name, id)
      ensures warnings == old(warnings)
    {
      var pc := ParseCollection(name);
      if pc.None? {
        return Failure(NotFound(name, id));
      }
      var c := pc.value;
      var initialLength := |cache.Get(c)|;
      var kept := RemoveId(cache.Get(c), id);
      if |kept| == initialLength {
        return Failure(NotFound(name, id));
      }
      cache := cache.Set(c, kept);
      SaveDataFile(c);
      return Success(true);
    }

    // -------------------------------------------------------------------------
    // Entity-specific writes

    method SaveProject(item: Record) returns (r: Result<Record, Error>)
      requires Valid()
      modifies this
      ensures Valid()
      ensures (cache, r) == AddSpec(old(cache), "projects", ProjectDefaults(item), dateOk)
      ensures warnings == old(warnings) + Logged(old(cache), "projects", r)
    {
      r := AddData("projects", ProjectDefaults(item));
    }

    method SaveIdea(item: Record) returns (r: Result<Record, Error>)
      requires Valid()
      modifies this
      ensures Valid()
      ensures (cache, r) == AddSpec(old(cache), "ideas", IdeaDefaults(item), dateOk)
      ensures warnings == old(warnings) + Logged(old(cache), "ideas", r)
    {
      r := AddData("ideas", IdeaDefaults(item));
    }

    method SaveEvent(item: Record) returns (r: Result<Record, Error>)
      requires Valid()
      modifies this
      ensures Valid()
      ensures (cache, r) == AddSpec(old(cache), "events", item, dateOk)
      ensures warnings == old(warnings) + Logged(old(cache), "events", r)
    {
      r := AddData("events", item);
    }

    method SaveTask(item: Record) returns (r: Result<Record, Error>)
      requires Valid()
      modifies this
      ensures Valid()
      ensures (cache, r) == AddSpec(old(cache), "tasks", TaskDefaults(item), dateOk)
      ensures warnings == old(warnings) + Logged(old(cache), "tasks", r)
    {
      r := AddData("tasks", TaskDefaults(item));
    }

    method SaveSubtask(item: Record) returns (r: Result<Record, Error>)
      requires Valid()
      modifies this
      ensures Valid()
      ensures (cache, r) == AddSpec(old(cache), "subtasks", SubtaskDefaults(item), dateOk)
      ensures warnings == old(warnings) + Logged(old(cache), "subtasks", r)
    {
      r := AddData("subtasks", SubtaskDefaults(item));
    }

    /** `updateProject`, `updateIdea`, `updateEvent`, `updateTask`. */
    method Update(c: Collection, id: Value, patch: Record) returns (r: Result<Record, Error>)
      requires Valid()
      modifies this
      ensures Valid()
      ensures (cache, r) == UpdateIn(old(cache), c, id, patch, dateOk)
      ensures warnings == old(warnings) + Logged(old(cache), CollectionName(c), r)
    {
      ParseName(c);
      r := UpdateData(CollectionName(c), id, patch);
    }

    /** `deleteProject`, `deleteEvent`: no cascade. */
    method Delete(c: Collection, id: Value) returns (r: Result<bool, Error>)
      requires Valid()
      modifies this
      ensures Valid()
      ensures (cache, r) == DeleteIn(old(cache), c, id)
      ensures warnings == old(warnings)
    {
      ParseName(c);
      r := DeleteData(CollectionName(c), id);
    }

    method UpdateSubtask(id: Value, patch: Record) returns (r: Result<Record, Error>)
      requires Valid()
      modifies this
      ensures Valid()
      ensures (cache, r) == UpdateSubtaskSpec(old(cache), id, patch, dateOk)
      ensures warnings == old(warnings) + Logged(old(cache), "subtasks", r)
    {
      if Truthy(Get(patch, "taskType")) {
        var current := GetRecord(Subtasks, id);
        assert current == Find(cache.subtasks, id);
        if current.Some? {
          var e := Lifecycle.ValidateSubtaskProgression(Get(current.value, "taskType"), Get(patch, "taskType"));
          if e.Some? {
            return Failure(StageErr(e.value));
          }
        }
      }
      r := Update(Subtasks, id, patch);
    }

    method AdvanceSubtaskStage(id: Value) returns (r: Result<Record, Error>)
      requires Valid()
      modifies this
      ensures Valid()
      ensures (cache, r) == AdvanceSpec(old(cache), id, dateOk)
      ensures warnings == old(warnings) + Logged(old(cache), "subtasks", r)
    {
      var subtask := GetRecord(Subtasks, id);
      assert subtask == Find(cache.subtasks, id);
      if subtask.None? {
        return Failure(NotFound("subtasks", id));
      }
      var currentIndex := Lifecycle.StageIndex(Get(subtask.value, "taskType"));
      if currentIndex == |Lifecycle.Stages| - 1 {
        return Failure(StageErr(Lifecycle.AlreadyFinal));
      }
      var patch := map["taskType" := Str(Lifecycle.Stages[currentIndex + 1])];
      r := UpdateSubtask(id, patch);
    }

    // -------------------------------------------------------------------------
    // Cascades

    /** The loop over a snapshot of `c` that removes `id` from each record's `field`. */
    method StripRefs(c: Collection, field: string, id: string) returns (r: Result<bool, Error>)
      requires Valid()
      modifies this
      ensures Valid()
      ensures (cache, r) == Strip(old(cache), c, field, id, old(cache.Get(c)), dateOk)
      ensures old(warnings) <= warnings
    {
      var snapshot := cache.Get(c);
      var i := 0;
      while i < |snapshot|
        invariant 0 <= i <= |snapshot| && Valid()
        invariant old(warnings) <= warnings
        invariant Strip(old(cache), c, field, id, snapshot, dateOk) == Strip(cache, c, field, id, snapshot[i..], dateOk)
      {
        assert snapshot[i..][1..] == snapshot[i + 1..];
        var rec := snapshot[i];
        if RefersTo(Get(rec, field), id) {
          var u := Update(c, IdOf(rec), StripPatch(rec, field, id));
          if u.Failure? {
            return Failure(u.error);
          }
        }
        i := i + 1;
      }
      return Success(true);
    }

    method DeleteSubtask(id: string) returns (r: Result<bool, Error>)
      requires Valid()
      modifies this
      ensures Valid()
      ensures (cache, r) == DeleteSubtaskSpec(old(cache), id, dateOk)
      ensures old(warnings) <= warnings
    {
      r := StripRefs(Tasks, "subtaskIds", id);
      if r.Success? {
        r := Delete(Subtasks, Str(id));
      }
    }

    method DeleteTask(id: string) returns (r: Result<bool, Error>)
      requires Valid()
      modifies this
      ensures Valid()
      ensures (cache, r) == DeleteTaskSpec(old(cache), id, dateOk)
      ensures old(warnings) <= warnings
    {
      var subtaskIds := SubtasksOf(cache, id);
      var i := 0;
      while i < |subtaskIds|
        invariant 0 <= i <= |subtaskIds| && Valid()
        invariant old(warnings) <= warnings
        invariant DeleteSubtasks(old(cache), subtaskIds, dateOk) == DeleteSubtasks(cache, subtaskIds[i..], dateOk)
      {
        assert subtaskIds[i..][1..] == subtaskIds[i + 1..];
        r := DeleteSubtask(subtaskIds[i]);
        if r.Failure? {
          return;
        }
        i := i + 1;
      }
      r := StripRefs(Ideas, "taskIds", id);
      if r.Failure? {
        return;
      }
      r := StripRefs(Projects, "taskId", id);
      if r.Failure? {
        return;
      }
      r := Delete(Tasks, Str(id));
    }

    method DeleteIdea(id: string) returns (r: Result<bool, Error>)
      requires Valid()
      modifies this
      ensures Valid()
      ensures (cache, r) == DeleteIdeaSpec(old(cache), id, dateOk)
      ensures old(warnings) <= warnings
    {
      var taskIds := TasksOf(cache, id);
      var i := 0;
      while i < |taskIds|
        invariant 0 <= i <= |taskIds| && Valid()
        invariant old(warnings) <= warnings
        invariant DeleteTasks(old(cache), taskIds, dateOk) == DeleteTasks(cache, taskIds[i..], dateOk)
      {
        assert taskIds[i..][1..] == taskIds[i + 1..];
        r := DeleteTask(taskIds[i]);
        if r.Failure? {
          return;
        }
        i := i + 1;
      }
      r := Delete(Ideas, Str(id));
    }
  }
}
