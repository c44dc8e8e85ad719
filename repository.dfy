/**
 * The data layer's operations as functions over the five cached collections:
 * add, update (shallow merge), delete by id, the subtask lifecycle guard and the
 * cascading deletes. The class DataManager is proved to follow these definitions.
 */
module Repository {
  import opened Values
  import opened Wrappers
  import opened Schema
  import Lifecycle

  /** The in-memory cache: one array of records per collection. */
  datatype Db = Db(projects: seq<Record>, ideas: seq<Record>, events: seq<Record>, tasks: seq<Record>, subtasks: seq<Record>) {
    function Get(c: Collection): seq<Record> {
      match c
      case Projects => projects
      case Ideas => ideas
      case Events => events
      case Tasks => tasks
      case Subtasks => subtasks
    }

    function Set(c: Collection, rs: seq<Record>): (d: Db)
      ensures d.Get(c) == rs
      ensures forall c' :: c' != c ==> d.Get(c') == Get(c')
    {
      match c
      case Projects => this.(projects := rs)
      case Ideas => this.(ideas := rs)
      case Events => this.(events := rs)
      case Tasks => this.(tasks := rs)
      case Subtasks => this.(subtasks := rs)
    }
  }

  datatype Error =
    | SchemaErr(schema: SchemaError)
    | StageErr(stage: Lifecycle.StageError)
    | NotFound(name: string, id: Value)

  /** `getData(type)`: a collection that is not one of the five loads as `[]`. */
  function GetData(db: Db, name: string): seq<Record> {
    match ParseCollection(name)
    case None => []
    case Some(c) => db.Get(c)
  }

  /** `findIndex(item => item.id === id)` */
  function FindIndex(rs: seq<Record>, id: Value): (r: int)
    ensures -1 <= r < |rs|
    ensures r >= 0 ==> IdOf(rs[r]) == id && forall j :: 0 <= j < r ==> IdOf(rs[j]) != id
    ensures r == -1 <==> Absent(rs, id)
  {
    if rs == [] then -1
    else if IdOf(rs[0]) == id then 0
    else
      var k := FindIndex(rs[1..], id);
      assert forall j :: 1 <= j < |rs| ==> rs[j] == rs[1..][j - 1];
      assert rs == [rs[0]] + rs[1..];
      if k == -1 then -1 else k + 1
  }

  /** `find(item => item.id === id)` */
  function Find(rs: seq<Record>, id: Value): (r: Option<Record>)
    ensures r.Some? <==> !Absent(rs, id)
    ensures r.Some? ==> r.value in rs && IdOf(r.value) == id && r.value == rs[FindIndex(rs, id)]
  {
    var i := FindIndex(rs, id);
    if i >= 0 then Some(rs[i]) else None
  }

  /** No record of the collection carries `id`. */
  predicate Absent(rs: seq<Record>, id: Value) {
    forall x :: x in rs ==> IdOf(x) != id
  }

  predicate UniqueIds(rs: seq<Record>) {
    forall i, j :: 0 <= i < j < |rs| ==> IdOf(rs[i]) != IdOf(rs[j])
  }

  /** `filter(item => item.id !== id)` */
  function RemoveId(rs: seq<Record>, id: Value): (r: seq<Record>)
    ensures Absent(r, id)
    ensures forall x :: x in r <==> x in rs && IdOf(x) != id
    ensures |r| <= |rs|
    ensures |r| == |rs| <==> Absent(rs, id)
  {
    if rs == [] then []
    else
      var rest := RemoveId(rs[1..], id);
      assert rs == [rs[0]] + rs[1..];
      if IdOf(rs[0]) == id then rest else [rs[0]] + rest
  }

  // ---------------------------------------------------------------------------
  // Generic writes

  /** `addData(type, item)`: validate, then append. Relationship checking never blocks. */
  function AddSpec(db: Db, name: string, item: Record, dateOk: Value -> bool): (Db, Result<Record, Error>) {
    match ParseCollection(name)
    case None => (db, Failure(SchemaErr(InvalidType(name))))
    case Some(c) =>
      var (item', err) := CheckSchema(name, item, dateOk);
      if err.Some? then (db, Failure(SchemaErr(err.value)))
      else (db.Set(c, db.Get(c) + [item']), Success(item'))
  }

  /** `updateData` on a known collection: shallow merge, validate, store at the same index. */
  function UpdateIn(db: Db, c: Collection, id: Value, patch: Record, dateOk: Value -> bool): (Db, Result<Record, Error>) {
    var rs := db.Get(c);
    var i := FindIndex(rs, id);
    if i < 0 then (db, Failure(NotFound(CollectionName(c), id)))
    else
      var (merged, err) := CheckSchema(CollectionName(c), rs[i] + patch, dateOk);
      if err.Some? then (db, Failure(SchemaErr(err.value)))
      else (db.Set(c, rs[i := merged]), Success(merged))
  }

  /** `updateData(type, id, patch)`: an unknown type has an empty collection, so the id is not found. */
  function UpdateSpec(db: Db, name: string, id: Value, patch: Record, dateOk: Value -> bool): (Db, Result<Record, Error>) {
    match ParseCollection(name)
    case None => (db, Failure(NotFound(name, id)))
    case Some(c) => UpdateIn(db, c, id, patch, dateOk)
  }

  /** `deleteData` on a known collection: drop every record with the id; not found if none was dropped. */
  function DeleteIn(db: Db, c: Collection, id: Value): (Db, Result<bool, Error>) {
    var kept := RemoveId(db.Get(c), id);
    if |kept| == |db.Get(c)| then (db, Failure(NotFound(CollectionName(c), id)))
    else (db.Set(c, kept), Success(true))
  }

  function DeleteSpec(db: Db, name: string, id: Value): (Db, Result<bool, Error>) {
    match ParseCollection(name)
    case None => (db, Failure(NotFound(name, id)))
    case Some(c) => DeleteIn(db, c, id)
  }

  // ---------------------------------------------------------------------------
  // Entity-specific writes

  /** `data.field = data.field || dflt` */
  function Default(item: Record, field: string, dflt: Value): Record {
    item[field := if Truthy(Get(item, field)) then Get(item, field) else dflt]
  }

  function ProjectDefaults(item: Record): Record {
    Default(Default(Default(Default(item, "keywords", Arr([])), "ideaId", Arr([])), "eventId", Arr([])), "taskId", Arr([]))
  }

  function IdeaDefaults(item: Record): Record {
    Default(Default(item, "keywords", Arr([])), "taskIds", Arr([]))
  }

  function TaskDefaults(item: Record): Record {
    Default(item, "subtaskIds", Arr([]))
  }

  /** `saveSubtask`: a subtask without a stage starts at Analyze. */
  function SubtaskDefaults(item: Record): Record {
    Default(item, "taskType", Str("Analyze"))
  }

  /**
   * `updateSubtask(id, patch)`: when the patch carries a truthy `taskType` and the subtask
   * exists, the change must not go backwards in the lifecycle.
   */
  function UpdateSubtaskSpec(db: Db, id: Value, patch: Record, dateOk: Value -> bool): (Db, Result<Record, Error>) {
    if Truthy(Get(patch, "taskType")) && Find(db.subtasks, id).Some? then
      var e := Lifecycle.ValidateSubtaskProgression(Get(Find(db.subtasks, id).value, "taskType"), Get(patch, "taskType"));
      if e.Some? then (db, Failure(StageErr(e.value)))
      else UpdateIn(db, Subtasks, id, patch, dateOk)
    else UpdateIn(db, Subtasks, id, patch, dateOk)
  }

  /** `advanceSubtaskStage(id)`: move one stage forward; fails at Production and for a missing subtask. */
  function AdvanceSpec(db: Db, id: Value, dateOk: Value -> bool): (Db, Result<Record, Error>) {
    match Find(db.subtasks, id)
    case None => (db, Failure(NotFound("subtasks", id)))
    case Some(s) =>
      var ci := Lifecycle.StageIndex(Get(s, "taskType"));
      if ci == |Lifecycle.Stages| - 1 then (db, Failure(StageErr(Lifecycle.AlreadyFinal)))
      else UpdateSubtaskSpec(db, id, map["taskType" := Str(Lifecycle.Stages[ci + 1])], dateOk)
  }

  // ---------------------------------------------------------------------------
  // Cascades

  /** The patch that strips `id` from a record's reference field. */
  function StripPatch(r: Record, field: string, id: string): Record {
    map[field := Arr(Without(Refs(Get(r, field)), id))]
  }

  /**
   * The loop `for (const r of snapshot) if (r[field] && r[field].includes(id)) await update(r.id, {field: filtered})`,
   * stopping at the first failed update.
   */
  function Strip(db: Db, c: Collection, field: string, id: string, snap: seq<Record>, dateOk: Value -> bool): (Db, Result<bool, Error>)
    decreases |snap|
  {
    if snap == [] then (db, Success(true))
    else if RefersTo(Get(snap[0], field), id) then
      var (db1, r) := UpdateIn(db, c, IdOf(snap[0]), StripPatch(snap[0], field, id), dateOk);
      if r.Failure? then (db1, Failure(r.error)) else Strip(db1, c, field, id, snap[1..], dateOk)
    else Strip(db, c, field, id, snap[1..], dateOk)
  }

  /** `deleteSubtask(id)`: strip it from every task, then delete it. */
  function DeleteSubtaskSpec(db: Db, id: string, dateOk: Value -> bool): (Db, Result<bool, Error>) {
    var (db1, r) := Strip(db, Tasks, "subtaskIds", id, db.tasks, dateOk);
    if r.Failure? then (db1, r) else DeleteIn(db1, Subtasks, Str(id))
  }

  /** Delete each subtask in turn, stopping at the first failure. */
  function DeleteSubtasks(db: Db, ids: seq<string>, dateOk: Value -> bool): (Db, Result<bool, Error>)
    decreases |ids|
  {
    if ids == [] then (db, Success(true))
    else
      var (db1, r) := DeleteSubtaskSpec(db, ids[0], dateOk);
      if r.Failure? then (db1, r) else DeleteSubtasks(db1, ids[1..], dateOk)
  }

  /** The subtask ids the first task with this id lists. */
  function SubtasksOf(db: Db, id: string): seq<string> {
    match Find(db.tasks, Str(id))
    case None => []
    case Some(t) => Refs(Get(t, "subtaskIds"))
  }

  /** `deleteTask(id)`: delete its subtasks, strip it from ideas and projects, then delete it. */
  function DeleteTaskSpec(db: Db, id: string, dateOk: Value -> bool): (Db, Result<bool, Error>) {
    var (db1, r1) := DeleteSubtasks(db, SubtasksOf(db, id), dateOk);
    if r1.Failure? then (db1, r1)
    else
      var (db2, r2) := Strip(db1, Ideas, "taskIds", id, db1.ideas, dateOk);
      if r2.Failure? then (db2, r2)
      else
        var (db3, r3) := Strip(db2, Projects, "taskId", id, db2.projects, dateOk);
        if r3.Failure? then (db3, r3)
        else DeleteIn(db3, Tasks, Str(id))
  }

  function DeleteTasks(db: Db, ids: seq<string>, dateOk: Value -> bool): (Db, Result<bool, Error>)
    decreases |ids|
  {
    if ids == [] then (db, Success(true))
    else
      var (db1, r) := DeleteTaskSpec(db, ids[0], dateOk);
      if r.Failure? then (db1, r) else DeleteTasks(db1, ids[1..], dateOk)
  }

  function TasksOf(db: Db, id: string): seq<string> {
    match Find(db.ideas, Str(id))
    case None => []
    case Some(i) => Refs(Get(i, "taskIds"))
  }

  /** `deleteIdea(id)`: delete each listed task first, then the idea. */
  function DeleteIdeaSpec(db: Db, id: string, dateOk: Value -> bool): (Db, Result<bool, Error>) {
    var (db1, r) := DeleteTasks(db, TasksOf(db, id), dateOk);
    if r.Failure? then (db1, r) else DeleteIn(db1, Ideas, Str(id))
  }

  // ---------------------------------------------------------------------------
  // Relationship check (non-fatal)

  /** The ids in `refs` that no record of `target` carries. */
  function Dangling(refs: seq<string>, target: seq<Record>): (r: seq<string>)
    ensures forall x :: x in r <==> x in refs && Absent(target, Str(x))
  {
    if refs == [] then []
    else (if Absent(target, Str(refs[0])) then [refs[0]] else []) + Dangling(refs[1..], target)
  }

  /** The reference fields of a collection and the collection each one points into. */
  function RefFields(c: Collection): seq<(string, Collection)> {
    match c
    case Projects => [("ideaId", Ideas), ("eventId", Events), ("taskId", Tasks)]
    case Ideas => [("taskIds", Tasks)]
    case Tasks => [("subtaskIds", Subtasks)]
    case _ => []
  }

  datatype Warning = InvalidReferences(target: Collection, ids: seq<string>)

  function FirstDangling(db: Db, item: Record, fields: seq<(string, Collection)>): Option<Warning> {
    if fields == [] then None
    else
      var d := Dangling(Refs(Get(item, fields[0].0)), db.Get(fields[0].1));
      if d != [] then Some(InvalidReferences(fields[0].1, d)) else FirstDangling(db, item, fields[1..])
  }

  /**
   * `validateRelationships(type, item)`: the warning it logs, if any. The first dangling
   * reference group throws inside the check and is caught there, so at most one is reported.
   */
  function RelationshipWarning(db: Db, name: string, item: Record): Option<Warning> {
    match ParseCollection(name)
    case None => None
    case Some(c) => FirstDangling(db, item, RefFields(c))
  }

  /** Every reference of the record resolves to an existing record of the target collection. */
  predicate Resolves(db: Db, c: Collection, item: Record) {
    forall i, x :: 0 <= i < |RefFields(c)| && x in Refs(Get(item, RefFields(c)[i].0)) ==> !Absent(db.Get(RefFields(c)[i].1), Str(x))
  }
}
