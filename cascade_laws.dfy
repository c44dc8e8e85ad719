/**
 * The cascading deletes: what `deleteSubtask`, `deleteTask` and `deleteIdea` leave behind.
 * The reference-stripping loops update the first record carrying each id, so the
 * no-dangling-reference guarantees hold for collections whose ids are unique.
 */
module CascadeLaws {
  import opened Values
  import opened Wrappers
  import opened Schema
  import opened Repository
  import opened RepositoryLaws

  /** Same length and the same id at every position. */
  predicate SameIds(a: seq<Record>, b: seq<Record>) {
    |a| == |b| && forall k :: 0 <= k < |a| ==> IdOf(a[k]) == IdOf(b[k])
  }

  /** Every id missing from `a` is missing from `b` too. */
  ghost predicate AbsentKept(a: seq<Record>, b: seq<Record>) {
    forall v :: Absent(a, v) ==> Absent(b, v)
  }

  /** No record's array field `field` lists `id`. */
  predicate Clear(rs: seq<Record>, field: string, id: string) {
    forall x :: x in rs ==> !RefersTo(Get(x, field), id)
  }

  /** Position by position, `b`'s lists in `field` hold no id that `a`'s do not. */
  predicate NoNewRefs(a: seq<Record>, b: seq<Record>, field: string) {
    |a| == |b| && forall k, s :: 0 <= k < |a| && s in Refs(Get(b[k], field)) ==> s in Refs(Get(a[k], field))
  }

  /** Position by position, `b`'s lists in `field` keep every id of `a`'s except `id`. */
  predicate KeepsOtherRefs(a: seq<Record>, b: seq<Record>, field: string, id: string) {
    |a| == |b| && forall k, s :: 0 <= k < |a| && s in Refs(Get(a[k], field)) && s != id ==> s in Refs(Get(b[k], field))
  }

  /** After deleting task `t0`: every id a task listed is still listed by that task (not `t0`), or is no longer a subtask. */
  ghost predicate ShrinksAfter(db: Db, db': Db, t0: string) {
    forall t, s :: s in SubtasksOf(db, t) ==> (t != t0 && s in SubtasksOf(db', t)) || Absent(db'.subtasks, Str(s))
  }

  ghost predicate ListsShrink(db: Db, db': Db) {
    forall t, s :: s in SubtasksOf(db, t) ==> s in SubtasksOf(db', t) || Absent(db'.subtasks, Str(s))
  }

  lemma SameIdsKeepAbsent(a: seq<Record>, b: seq<Record>)
    requires SameIds(b, a)
    ensures AbsentKept(a, b)
  {
    forall v | Absent(a, v) ensures Absent(b, v) {
      forall y | y in b ensures IdOf(y) != v {
        var k :| 0 <= k < |b| && b[k] == y;
        assert a[k] in a;
      }
    }
  }

  lemma SameIdsKeepUnique(a: seq<Record>, b: seq<Record>)
    requires SameIds(b, a) && UniqueIds(a)
    ensures UniqueIds(b)
  {
  }

  lemma FindUnique(rs: seq<Record>, n: nat)
    requires UniqueIds(rs) && n < |rs|
    ensures FindIndex(rs, IdOf(rs[n])) == n
  {
    assert rs[n] in rs;
  }

  lemma MergeKeepsId(c: Collection, prior: Record, patch: Record)
    requires "id" !in patch
    ensures IdOf(WithArrays(c, prior + patch)) == IdOf(prior)
  {
    assert "id" !in ArrayFields(c);
  }

  /** A stored update whose patch has no `id` key keeps every record's id and touches one collection. */
  lemma UpdateKeepsIds(db: Db, c: Collection, id: Value, patch: Record, dateOk: Value -> bool)
    requires "id" !in patch
    ensures var (db', r) := UpdateIn(db, c, id, patch, dateOk);
      SameIds(db'.Get(c), db.Get(c)) && db' == db.Set(c, db'.Get(c))
  {
    UpdateStored(db, c, id, patch, dateOk);
    var rs := db.Get(c);
    var i := FindIndex(rs, id);
    if i >= 0 {
      MergeKeepsId(c, rs[i], patch);
    }
  }

  lemma {:induction false} StripFrame(db: Db, c: Collection, field: string, id: string, snap: seq<Record>, dateOk: Value -> bool)
    requires field != "id"
    ensures var (db', r) := Strip(db, c, field, id, snap, dateOk);
      SameIds(db'.Get(c), db.Get(c)) && db' == db.Set(c, db'.Get(c))
    decreases |snap|
  {
    if snap != [] {
      if RefersTo(Get(snap[0], field), id) {
        var (db1, r) := UpdateIn(db, c, IdOf(snap[0]), StripPatch(snap[0], field, id), dateOk);
        UpdateKeepsIds(db, c, IdOf(snap[0]), StripPatch(snap[0], field, id), dateOk);
        if r.Success? {
          StripFrame(db1, c, field, id, snap[1..], dateOk);
        }
      } else {
        StripFrame(db, c, field, id, snap[1..], dateOk);
      }
    }
  }

  /** One iteration of the stripping loop on the record at position `n`. */
  lemma StripStep(db: Db, c: Collection, field: string, id: string, n: nat, dateOk: Value -> bool)
    requires field != "id"
    requires UniqueIds(db.Get(c)) && n < |db.Get(c)|
    ensures var rs := db.Get(c);
      var (db1, r) := UpdateIn(db, c, IdOf(rs[n]), StripPatch(rs[n], field, id), dateOk);
      && (r.Failure? ==> db1 == db)
      && (r.Success? ==>
        && db1 == db.Set(c, rs[n := r.value])
        && Get(r.value, field) == Arr(Without(Refs(Get(rs[n], field)), id))
        && !RefersTo(Get(r.value, field), id)
        && UniqueIds(db1.Get(c)))
  {
    var rs := db.Get(c);
    var patch := StripPatch(rs[n], field, id);
    UpdateStored(db, c, IdOf(rs[n]), patch, dateOk);
    UpdateKeepsIds(db, c, IdOf(rs[n]), patch, dateOk);
    FindUnique(rs, n);
    var (db1, r) := UpdateIn(db, c, IdOf(rs[n]), patch, dateOk);
    if r.Success? {
      assert r.value[field] == patch[field];
      SameIdsKeepUnique(rs, db1.Get(c));
    }
  }

  /** The loop invariant of the stripping loop: everything before position `n` is already clear. */
  lemma {:induction false} StripClearsFrom(db: Db, c: Collection, field: string, id: string, snap: seq<Record>, n: nat, dateOk: Value -> bool)
    requires field != "id"
    requires UniqueIds(db.Get(c))
    requires n <= |db.Get(c)| && db.Get(c)[n..] == snap
    requires forall k :: 0 <= k < n ==> !RefersTo(Get(db.Get(c)[k], field), id)
    ensures var (db', r) := Strip(db, c, field, id, snap, dateOk);
      r.Success? ==> Clear(db'.Get(c), field, id)
    decreases |snap|
  {
    var rs := db.Get(c);
    if snap == [] {
      forall x | x in rs ensures !RefersTo(Get(x, field), id) {
        var k :| 0 <= k < |rs| && rs[k] == x;
      }
    } else {
      assert snap[0] == rs[n];
      assert rs[n + 1..] == snap[1..];
      if RefersTo(Get(snap[0], field), id) {
        var (db1, r) := UpdateIn(db, c, IdOf(snap[0]), StripPatch(snap[0], field, id), dateOk);
        StripStep(db, c, field, id, n, dateOk);
        if r.Success? {
          assert db1.Get(c)[n + 1..] == snap[1..];
          StripClearsFrom(db1, c, field, id, snap[1..], n + 1, dateOk);
        }
      } else {
        StripClearsFrom(db, c, field, id, snap[1..], n + 1, dateOk);
      }
    }
  }

  /** Stripping `id` from a collection with unique ids leaves no record listing it. */
  lemma StripClears(db: Db, c: Collection, field: string, id: string, dateOk: Value -> bool)
    requires field != "id"
    ensures var (db', r) := Strip(db, c, field, id, db.Get(c), dateOk);
      r.Success? && UniqueIds(db.Get(c)) ==> Clear(db'.Get(c), field, id)
  {
    if UniqueIds(db.Get(c)) {
      StripClearsFrom(db, c, field, id, db.Get(c), 0, dateOk);
    }
  }

  /**
   * `deleteSubtask(id)`: on success the subtask existed and is gone, and (task ids being
   * unique) no task lists it any more. Whatever the outcome, only task reference lists and
   * the subtask collection change.
   */
  lemma DeleteSubtaskClears(db: Db, id: string, dateOk: Value -> bool)
    ensures var (db', r) := DeleteSubtaskSpec(db, id, dateOk);
      && (r.Success? ==> !Absent(db.subtasks, Str(id)) && Absent(db'.subtasks, Str(id)))
      && (r.Success? && UniqueIds(db.tasks) ==> Clear(db'.tasks, "subtaskIds", id))
      && SameIds(db'.tasks, db.tasks)
      && AbsentKept(db.subtasks, db'.subtasks)
      && db'.projects == db.projects && db'.ideas == db.ideas && db'.events == db.events
  {
    var (db1, r) := Strip(db, Tasks, "subtaskIds", id, db.tasks, dateOk);
    StripFrame(db, Tasks, "subtaskIds", id, db.tasks, dateOk);
    StripClears(db, Tasks, "subtaskIds", id, dateOk);
    if r.Success? {
      DeleteRemovesAll(db1, Subtasks, Str(id));
    }
  }

  /** Deleting a list of subtasks changes only task reference lists and the subtask collection. */
  lemma {:induction false} DeleteSubtasksFrame(db: Db, ids: seq<string>, dateOk: Value -> bool)
    ensures var db' := DeleteSubtasks(db, ids, dateOk).0;
      && SameIds(db'.tasks, db.tasks)
      && AbsentKept(db.subtasks, db'.subtasks)
      && db' == db.(tasks := db'.tasks, subtasks := db'.subtasks)
    decreases |ids|
  {
    if ids != [] {
      var (db1, r) := DeleteSubtaskSpec(db, ids[0], dateOk);
      DeleteSubtaskClears(db, ids[0], dateOk);
      if r.Success? {
        DeleteSubtasksFrame(db1, ids[1..], dateOk);
      }
    }
  }

  /**
   * Deleting a list of subtasks in turn: on success every listed subtask existed, the list
   * named none twice, and none of them remains.
   */
  lemma {:induction false} DeleteSubtasksGone(db: Db, ids: seq<string>, dateOk: Value -> bool)
    ensures var (db', r) := DeleteSubtasks(db, ids, dateOk);
      && (r.Success? ==> forall s :: s in ids ==> !Absent(db.subtasks, Str(s)) && Absent(db'.subtasks, Str(s)))
      && (r.Success? ==> forall i, j :: 0 <= i < j < |ids| ==> ids[i] != ids[j])
    decreases |ids|
  {
    if ids != [] {
      var (db1, r) := DeleteSubtaskSpec(db, ids[0], dateOk);
      DeleteSubtaskClears(db, ids[0], dateOk);
      if r.Success? {
        var (db2, r2) := DeleteSubtasks(db1, ids[1..], dateOk);
        assert (db2, r2) == DeleteSubtasks(db, ids, dateOk);
        DeleteSubtasksGone(db1, ids[1..], dateOk);
        DeleteSubtasksFrame(db1, ids[1..], dateOk);
        if r2.Success? {
          forall s | s in ids ensures !Absent(db.subtasks, Str(s)) && Absent(db2.subtasks, Str(s)) {
            if s != ids[0] {
              assert s in ids[1..];
            }
          }
          forall i, j | 0 <= i < j < |ids| ensures ids[i] != ids[j] {
            assert ids[j] == ids[1..][j - 1];
            if i > 0 {
              assert ids[i] == ids[1..][i - 1];
            } else {
              assert ids[j] in ids[1..];
            }
          }
        }
      }
    }
  }

  /**
   * `deleteTask(id)`: on success the task existed and is gone, the subtasks it listed are
   * gone, and (for unique idea and project ids) no idea's `taskIds` and no project's `taskId`
   * lists it.
   */
  lemma DeleteTaskClears(db: Db, id: string, dateOk: Value -> bool)
    ensures var (db', r) := DeleteTaskSpec(db, id, dateOk);
      && (r.Success? ==> !Absent(db.tasks, Str(id)) && Absent(db'.tasks, Str(id)))
      && (r.Success? ==> forall s :: s in SubtasksOf(db, id) ==> Absent(db'.subtasks, Str(s)))
      && (r.Success? && UniqueIds(db.ideas) ==> Clear(db'.ideas, "taskIds", id))
      && (r.Success? && UniqueIds(db.projects) ==> Clear(db'.projects, "taskId", id))
      && AbsentKept(db.tasks, db'.tasks)
      && AbsentKept(db.subtasks, db'.subtasks)
      && SameIds(db'.ideas, db.ideas) && SameIds(db'.projects, db.projects)
      && db'.events == db.events
  {
    var (db1, r1) := DeleteSubtasks(db, SubtasksOf(db, id), dateOk);
    DeleteSubtasksFrame(db, SubtasksOf(db, id), dateOk);
    DeleteSubtasksGone(db, SubtasksOf(db, id), dateOk);
    SameIdsKeepAbsent(db.tasks, db1.tasks);
    if r1.Success? {
      var (db2, r2) := Strip(db1, Ideas, "taskIds", id, db1.ideas, dateOk);
      StripFrame(db1, Ideas, "taskIds", id, db1.ideas, dateOk);
      StripClears(db1, Ideas, "taskIds", id, dateOk);
      if r2.Success? {
        var (db3, r3) := Strip(db2, Projects, "taskId", id, db2.projects, dateOk);
        StripFrame(db2, Projects, "taskId", id, db2.projects, dateOk);
        StripClears(db2, Projects, "taskId", id, dateOk);
        if r3.Success? {
          DeleteRemovesAll(db3, Tasks, Str(id));
        }
      }
    }
  }

  /** Deleting a list of tasks in turn: on success every listed task existed and none remains. */
  lemma {:induction false} DeleteTasksLaw(db: Db, ids: seq<string>, dateOk: Value -> bool)
    ensures var (db', r) := DeleteTasks(db, ids, dateOk);
      && (r.Success? ==> forall t :: t in ids ==> !Absent(db.tasks, Str(t)) && Absent(db'.tasks, Str(t)))
      && AbsentKept(db.tasks, db'.tasks)
      && AbsentKept(db.subtasks, db'.subtasks)
      && SameIds(db'.ideas, db.ideas)
      && db'.events == db.events
    decreases |ids|
  {
    if ids != [] {
      var (db1, r) := DeleteTaskSpec(db, ids[0], dateOk);
      DeleteTaskClears(db, ids[0], dateOk);
      if r.Success? {
        DeleteTasksLaw(db1, ids[1..], dateOk);
        assert forall k :: 1 <= k < |ids| ==> ids[k] == ids[1..][k - 1];
      }
    }
  }

  lemma NoNewRefsTrans(a: seq<Record>, b: seq<Record>, c: seq<Record>, field: string)
    requires NoNewRefs(a, b, field) && NoNewRefs(b, c, field)
    ensures NoNewRefs(a, c, field)
  {
  }

  lemma KeepsOtherRefsTrans(a: seq<Record>, b: seq<Record>, c: seq<Record>, field: string, id: string)
    requires KeepsOtherRefs(a, b, field, id) && KeepsOtherRefs(b, c, field, id)
    ensures KeepsOtherRefs(a, c, field, id)
  {
  }

  /** Replacing position `n` by a record whose list is the old one without `id`. */
  lemma NarrowAt(rs: seq<Record>, n: nat, v: Record, field: string, id: string)
    requires n < |rs| && Get(v, field) == Arr(Without(Refs(Get(rs[n], field)), id))
    ensures NoNewRefs(rs, rs[n := v], field) && KeepsOtherRefs(rs, rs[n := v], field, id)
  {
  }

  /** The stripping loop only ever removes `id` from the lists it rewrites. */
  lemma {:induction false} StripNarrows(db: Db, c: Collection, field: string, id: string, snap: seq<Record>, n: nat, dateOk: Value -> bool)
    requires field != "id"
    requires UniqueIds(db.Get(c))
    requires n <= |db.Get(c)| && db.Get(c)[n..] == snap
    ensures var (db', r) := Strip(db, c, field, id, snap, dateOk);
      NoNewRefs(db.Get(c), db'.Get(c), field) && KeepsOtherRefs(db.Get(c), db'.Get(c), field, id)
    decreases |snap|
  {
    var rs := db.Get(c);
    if snap != [] {
      assert snap[0] == rs[n];
      assert rs[n + 1..] == snap[1..];
      if RefersTo(Get(snap[0], field), id) {
        var (db1, r) := UpdateIn(db, c, IdOf(snap[0]), StripPatch(snap[0], field, id), dateOk);
        StripStep(db, c, field, id, n, dateOk);
        if r.Success? {
          var (db', _) := Strip(db1, c, field, id, snap[1..], dateOk);
          assert db1.Get(c)[n + 1..] == snap[1..];
          NarrowAt(rs, n, r.value, field, id);
          StripNarrows(db1, c, field, id, snap[1..], n + 1, dateOk);
          NoNewRefsTrans(rs, db1.Get(c), db'.Get(c), field);
          KeepsOtherRefsTrans(rs, db1.Get(c), db'.Get(c), field, id);
        }
      } else {
        StripNarrows(db, c, field, id, snap[1..], n + 1, dateOk);
      }
    }
  }

  lemma SameIdsFindIndex(a: seq<Record>, b: seq<Record>, v: Value)
    requires SameIds(a, b)
    ensures FindIndex(a, v) == FindIndex(b, v)
  {
    var i, j := FindIndex(a, v), FindIndex(b, v);
    if i >= 0 {
      assert IdOf(b[i]) == v;
    }
    if j >= 0 {
      assert IdOf(a[j]) == v;
    }
  }

  /** A list the first task with id `t` held keeps every id but `id` when only `id` was stripped. */
  lemma KeepsSubtasksOf(db: Db, db': Db, x: string)
    requires SameIds(db'.tasks, db.tasks) && KeepsOtherRefs(db.tasks, db'.tasks, "subtaskIds", x)
    ensures forall t, s :: s in SubtasksOf(db, t) && s != x ==> s in SubtasksOf(db', t)
  {
    forall t, s | s in SubtasksOf(db, t) && s != x
      ensures s in SubtasksOf(db', t)
    {
      SameIdsFindIndex(db'.tasks, db.tasks, Str(t));
    }
  }

  /** `deleteSubtask(x)` with unique task ids: every listed id stays listed, unless it is no longer a subtask. */
  lemma DeleteSubtaskShrinks(db: Db, x: string, dateOk: Value -> bool)
    requires UniqueIds(db.tasks)
    ensures var (db', r) := DeleteSubtaskSpec(db, x, dateOk);
      r.Success? ==> ListsShrink(db, db')
  {
    var (db1, r) := Strip(db, Tasks, "subtaskIds", x, db.tasks, dateOk);
    StripFrame(db, Tasks, "subtaskIds", x, db.tasks, dateOk);
    StripNarrows(db, Tasks, "subtaskIds", x, db.tasks, 0, dateOk);
    KeepsSubtasksOf(db, db1, x);
    if r.Success? {
      var (db', r') := DeleteIn(db1, Subtasks, Str(x));
      if r'.Success? {
        assert db'.tasks == db1.tasks;
        assert Absent(db'.subtasks, Str(x));
      }
    }
  }

  lemma ListsShrinkTrans(db: Db, db1: Db, db2: Db)
    requires ListsShrink(db, db1) && ListsShrink(db1, db2) && AbsentKept(db1.subtasks, db2.subtasks)
    ensures ListsShrink(db, db2)
  {
  }

  lemma {:induction false} DeleteSubtasksShrink(db: Db, ids: seq<string>, dateOk: Value -> bool)
    requires UniqueIds(db.tasks)
    ensures var (db', r) := DeleteSubtasks(db, ids, dateOk);
      r.Success? ==> ListsShrink(db, db')
    decreases |ids|
  {
    if ids != [] {
      var (db1, r) := DeleteSubtaskSpec(db, ids[0], dateOk);
      DeleteSubtaskClears(db, ids[0], dateOk);
      DeleteSubtaskShrinks(db, ids[0], dateOk);
      if r.Success? {
        var (db2, r2) := DeleteSubtasks(db1, ids[1..], dateOk);
        SameIdsKeepUnique(db1.tasks, db.tasks);
        DeleteSubtasksShrink(db1, ids[1..], dateOk);
        DeleteSubtasksFrame(db1, ids[1..], dateOk);
        if r2.Success? {
          ListsShrinkTrans(db, db1, db2);
        }
      }
    }
  }

  lemma FindCons(x: Record, xs: seq<Record>, v: Value)
    ensures Find([x] + xs, v) == if IdOf(x) == v then Some(x) else Find(xs, v)
  {
    var ys := [x] + xs;
    assert ys[0] == x && ys[1..] == xs;
    if IdOf(x) != v {
      var k := FindIndex(xs, v);
      assert FindIndex(ys, v) == if k == -1 then -1 else k + 1;
      if k >= 0 {
        assert ys[k + 1] == xs[k];
      }
    }
  }

  lemma {:induction false} RemoveIdFind(rs: seq<Record>, gone: Value, v: Value)
    requires v != gone
    ensures Find(RemoveId(rs, gone), v) == Find(rs, v)
  {
    if rs != [] {
      var rest := RemoveId(rs[1..], gone);
      RemoveIdFind(rs[1..], gone, v);
      assert rs == [rs[0]] + rs[1..];
      FindCons(rs[0], rs[1..], v);
      if IdOf(rs[0]) != gone {
        assert RemoveId(rs, gone) == [rs[0]] + rest;
        FindCons(rs[0], rest, v);
      }
    }
  }

  lemma {:induction false} RemoveIdUnique(rs: seq<Record>, gone: Value)
    requires UniqueIds(rs)
    ensures UniqueIds(RemoveId(rs, gone))
  {
    if rs != [] {
      RemoveIdUnique(rs[1..], gone);
      var rest := RemoveId(rs[1..], gone);
      if IdOf(rs[0]) != gone {
        var r := [rs[0]] + rest;
        forall i, j | 0 <= i < j < |r| ensures IdOf(r[i]) != IdOf(r[j]) {
          if i == 0 {
            assert r[j] in rest && r[j] in rs[1..];
            var k :| 0 <= k < |rs[1..]| && rs[1..][k] == r[j];
            assert rs[k + 1] == r[j];
          } else {
            assert r[i] == rest[i - 1] && r[j] == rest[j - 1];
          }
        }
      }
    }
  }

  /** A list that gains no ids stays clear of `id`. */
  lemma ClearKept(a: seq<Record>, b: seq<Record>, field: string, id: string)
    requires NoNewRefs(a, b, field) && Clear(a, field, id)
    ensures Clear(b, field, id)
  {
    forall x | x in b ensures !RefersTo(Get(x, field), id) {
      var k :| 0 <= k < |b| && b[k] == x;
      assert a[k] in a;
      assert id !in Refs(Get(a[k], field));
    }
  }

  /** `deleteTask(t0)` keeps task ids unique. */
  lemma DeleteTaskKeepsUnique(db: Db, t0: string, dateOk: Value -> bool)
    requires UniqueIds(db.tasks)
    ensures UniqueIds(DeleteTaskSpec(db, t0, dateOk).0.tasks)
  {
    var (db1, r1) := DeleteSubtasks(db, SubtasksOf(db, t0), dateOk);
    DeleteSubtasksFrame(db, SubtasksOf(db, t0), dateOk);
    SameIdsKeepUnique(db1.tasks, db.tasks);
    if r1.Success? {
      var (db2, r2) := Strip(db1, Ideas, "taskIds", t0, db1.ideas, dateOk);
      StripFrame(db1, Ideas, "taskIds", t0, db1.ideas, dateOk);
      if r2.Success? {
        var (db3, r3) := Strip(db2, Projects, "taskId", t0, db2.projects, dateOk);
        StripFrame(db2, Projects, "taskId", t0, db2.projects, dateOk);
        if r3.Success? {
          RemoveIdUnique(db3.tasks, Str(t0));
          DeleteRemovesAll(db3, Tasks, Str(t0));
        }
      }
    }
  }

  /** With unique idea ids, `deleteTask(t0)` only removes ids from ideas' `taskIds`. */
  lemma DeleteTaskNarrowsIdeas(db: Db, t0: string, dateOk: Value -> bool)
    requires UniqueIds(db.ideas)
    ensures NoNewRefs(db.ideas, DeleteTaskSpec(db, t0, dateOk).0.ideas, "taskIds")
  {
    var (db1, r1) := DeleteSubtasks(db, SubtasksOf(db, t0), dateOk);
    DeleteSubtasksFrame(db, SubtasksOf(db, t0), dateOk);
    if r1.Success? {
      var (db2, r2) := Strip(db1, Ideas, "taskIds", t0, db1.ideas, dateOk);
      StripNarrows(db1, Ideas, "taskIds", t0, db1.ideas, 0, dateOk);
      if r2.Success? {
        var (db3, r3) := Strip(db2, Projects, "taskId", t0, db2.projects, dateOk);
        StripFrame(db2, Projects, "taskId", t0, db2.projects, dateOk);
        if r3.Success? {
          DeleteRemovesAll(db3, Tasks, Str(t0));
        }
      }
    }
  }

  /** With unique project ids, `deleteTask(t0)` only removes ids from projects' `taskId`. */
  lemma DeleteTaskNarrowsProjects(db: Db, t0: string, dateOk: Value -> bool)
    requires UniqueIds(db.projects)
    ensures NoNewRefs(db.projects, DeleteTaskSpec(db, t0, dateOk).0.projects, "taskId")
  {
    var (db1, r1) := DeleteSubtasks(db, SubtasksOf(db, t0), dateOk);
    DeleteSubtasksFrame(db, SubtasksOf(db, t0), dateOk);
    if r1.Success? {
      var (db2, r2) := Strip(db1, Ideas, "taskIds", t0, db1.ideas, dateOk);
      StripFrame(db1, Ideas, "taskIds", t0, db1.ideas, dateOk);
      if r2.Success? {
        var (db3, r3) := Strip(db2, Projects, "taskId", t0, db2.projects, dateOk);
        StripNarrows(db2, Projects, "taskId", t0, db2.projects, 0, dateOk);
        if r3.Success? {
          DeleteRemovesAll(db3, Tasks, Str(t0));
        }
      }
    }
  }

  /** A successful `deleteTask(t0)` removes `t0` from the tasks and leaves the subtasks as its subtask deletions left them. */
  lemma DeleteTaskStages(db: Db, t0: string, dateOk: Value -> bool)
    ensures var (db', r) := DeleteTaskSpec(db, t0, dateOk);
      var db1 := DeleteSubtasks(db, SubtasksOf(db, t0), dateOk).0;
      r.Success? ==> db'.tasks == RemoveId(db1.tasks, Str(t0)) && db'.subtasks == db1.subtasks
  {
    var (db1, r1) := DeleteSubtasks(db, SubtasksOf(db, t0), dateOk);
    if r1.Success? {
      var (db2, r2) := Strip(db1, Ideas, "taskIds", t0, db1.ideas, dateOk);
      StripFrame(db1, Ideas, "taskIds", t0, db1.ideas, dateOk);
      if r2.Success? {
        var (db3, r3) := Strip(db2, Projects, "taskId", t0, db2.projects, dateOk);
        StripFrame(db2, Projects, "taskId", t0, db2.projects, dateOk);
        assert db3.tasks == db1.tasks && db3.subtasks == db1.subtasks;
        DeleteRemovesAll(db3, Tasks, Str(t0));
      }
    }
  }

  /** Removing task `t0` leaves every other task's list where it was. */
  lemma RemoveTaskKeepsLists(db: Db, db': Db, t0: string)
    requires db'.tasks == RemoveId(db.tasks, Str(t0))
    ensures forall t, s :: t != t0 && s in SubtasksOf(db, t) ==> s in SubtasksOf(db', t)
  {
    forall t, s | t != t0 && s in SubtasksOf(db, t)
      ensures s in SubtasksOf(db', t)
    {
      RemoveIdFind(db.tasks, Str(t0), Str(t));
    }
  }

  /**
   * `deleteTask(t0)` with unique task ids: any other task still lists what it listed, or that
   * id is no longer a subtask, and whatever `t0` listed is no longer a subtask.
   */
  lemma DeleteTaskShrinks(db: Db, t0: string, dateOk: Value -> bool)
    ensures var (db', r) := DeleteTaskSpec(db, t0, dateOk);
      r.Success? && UniqueIds(db.tasks) ==> ShrinksAfter(db, db', t0)
  {
    var (db', r) := DeleteTaskSpec(db, t0, dateOk);
    if r.Success? && UniqueIds(db.tasks) {
      var (db1, r1) := DeleteSubtasks(db, SubtasksOf(db, t0), dateOk);
      DeleteSubtasksShrink(db, SubtasksOf(db, t0), dateOk);
      DeleteTaskClears(db, t0, dateOk);
      DeleteTaskStages(db, t0, dateOk);
      RemoveTaskKeepsLists(db1, db', t0);
    }
  }

  /** Deleting a list of tasks keeps task ids unique and, for unique idea (project) ids, only removes ids from their lists. */
  lemma {:induction false} DeleteTasksNarrow(db: Db, ids: seq<string>, dateOk: Value -> bool)
    ensures var (db', r) := DeleteTasks(db, ids, dateOk);
      && (UniqueIds(db.tasks) ==> UniqueIds(db'.tasks))
      && (UniqueIds(db.ideas) ==> NoNewRefs(db.ideas, db'.ideas, "taskIds"))
      && (UniqueIds(db.projects) ==> NoNewRefs(db.projects, db'.projects, "taskId"))
    decreases |ids|
  {
    if ids != [] {
      var (db1, r1) := DeleteTaskSpec(db, ids[0], dateOk);
      DeleteTaskClears(db, ids[0], dateOk);
      if UniqueIds(db.tasks) {
        DeleteTaskKeepsUnique(db, ids[0], dateOk);
      }
      if UniqueIds(db.ideas) {
        DeleteTaskNarrowsIdeas(db, ids[0], dateOk);
      }
      if UniqueIds(db.projects) {
        DeleteTaskNarrowsProjects(db, ids[0], dateOk);
      }
      if r1.Success? {
        var (db', r) := DeleteTasks(db1, ids[1..], dateOk);
        DeleteTasksNarrow(db1, ids[1..], dateOk);
        if UniqueIds(db.ideas) {
          SameIdsKeepUnique(db1.ideas, db.ideas);
          NoNewRefsTrans(db.ideas, db1.ideas, db'.ideas, "taskIds");
        }
        if UniqueIds(db.projects) {
          SameIdsKeepUnique(db1.projects, db.projects);
          NoNewRefsTrans(db.projects, db1.projects, db'.projects, "taskId");
        }
      }
    }
  }

  /** One step of `DeleteTasksSubtasksGone`: the first task's subtasks are gone and stay gone; the rest follow. */
  lemma GoneStep(db: Db, db1: Db, db': Db, t0: string, rest: seq<string>)
    requires ShrinksAfter(db, db1, t0)
    requires forall t, s :: t in rest && s in SubtasksOf(db1, t) ==> Absent(db'.subtasks, Str(s))
    requires AbsentKept(db1.subtasks, db'.subtasks)
    ensures forall t, s :: t in [t0] + rest && s in SubtasksOf(db, t) ==> Absent(db'.subtasks, Str(s))
  {
    forall t, s | t in [t0] + rest && s in SubtasksOf(db, t)
      ensures Absent(db'.subtasks, Str(s))
    {
      if !Absent(db1.subtasks, Str(s)) {
        assert t in rest;
      }
    }
  }

  /** Deleting a list of tasks with unique task ids: on success every subtask a listed task held is gone. */
  lemma {:induction false} DeleteTasksSubtasksGone(db: Db, ids: seq<string>, dateOk: Value -> bool)
    ensures var (db', r) := DeleteTasks(db, ids, dateOk);
      r.Success? && UniqueIds(db.tasks) ==>
        forall t, s :: t in ids && s in SubtasksOf(db, t) ==> Absent(db'.subtasks, Str(s))
    decreases |ids|
  {
    if ids != [] && UniqueIds(db.tasks) {
      var t0 := ids[0];
      var (db1, r1) := DeleteTaskSpec(db, t0, dateOk);
      if r1.Success? {
        DeleteTaskShrinks(db, t0, dateOk);
        DeleteTaskKeepsUnique(db, t0, dateOk);
        var (db', r) := DeleteTasks(db1, ids[1..], dateOk);
        DeleteTasksSubtasksGone(db1, ids[1..], dateOk);
        DeleteTasksLaw(db1, ids[1..], dateOk);
        if r.Success? {
          assert ids == [t0] + ids[1..];
          GoneStep(db, db1, db', t0, ids[1..]);
        }
      }
    }
  }

  /** Deleting a list of tasks: on success no idea's `taskIds` (unique idea ids) and no project's `taskId` (unique project ids) lists one of them. */
  lemma {:induction false} DeleteTasksRefsClear(db: Db, ids: seq<string>, dateOk: Value -> bool)
    ensures var (db', r) := DeleteTasks(db, ids, dateOk);
      && (r.Success? && UniqueIds(db.ideas) ==> forall t :: t in ids ==> Clear(db'.ideas, "taskIds", t))
      && (r.Success? && UniqueIds(db.projects) ==> forall t :: t in ids ==> Clear(db'.projects, "taskId", t))
    decreases |ids|
  {
    if ids != [] {
      var t0 := ids[0];
      var (db1, r1) := DeleteTaskSpec(db, t0, dateOk);
      if r1.Success? {
        var (db', r) := DeleteTasks(db1, ids[1..], dateOk);
        DeleteTaskClears(db, t0, dateOk);
        DeleteTasksRefsClear(db1, ids[1..], dateOk);
        DeleteTasksNarrow(db1, ids[1..], dateOk);
        if r.Success? && UniqueIds(db.ideas) {
          SameIdsKeepUnique(db1.ideas, db.ideas);
          ClearKept(db1.ideas, db'.ideas, "taskIds", t0);
          forall t | t in ids ensures Clear(db'.ideas, "taskIds", t) {
            if t != t0 {
              assert t in ids[1..];
            }
          }
        }
        if r.Success? && UniqueIds(db.projects) {
          SameIdsKeepUnique(db1.projects, db.projects);
          ClearKept(db1.projects, db'.projects, "taskId", t0);
          forall t | t in ids ensures Clear(db'.projects, "taskId", t) {
            if t != t0 {
              assert t in ids[1..];
            }
          }
        }
      }
    }
  }

  /**
   * `deleteIdea(id)`: on success the idea existed and is gone, and so is every task it listed.
   * With unique task ids every subtask those tasks held is gone too; with unique idea and
   * project ids no idea's `taskIds` and no project's `taskId` names a deleted task.
   */
  lemma DeleteIdeaClears(db: Db, id: string, dateOk: Value -> bool)
    ensures var (db', r) := DeleteIdeaSpec(db, id, dateOk);
      && (r.Success? ==> !Absent(db.ideas, Str(id)) && Absent(db'.ideas, Str(id)))
      && (r.Success? ==> forall t :: t in TasksOf(db, id) ==> !Absent(db.tasks, Str(t)) && Absent(db'.tasks, Str(t)))
      && (r.Success? && UniqueIds(db.tasks) ==>
            forall t, s :: t in TasksOf(db, id) && s in SubtasksOf(db, t) ==> Absent(db'.subtasks, Str(s)))
      && (r.Success? && UniqueIds(db.ideas) ==> forall t :: t in TasksOf(db, id) ==> Clear(db'.ideas, "taskIds", t))
      && (r.Success? && UniqueIds(db.projects) ==> forall t :: t in TasksOf(db, id) ==> Clear(db'.projects, "taskId", t))
      && AbsentKept(db.tasks, db'.tasks)
      && db'.events == db.events
  {
    var (db1, r) := DeleteTasks(db, TasksOf(db, id), dateOk);
    DeleteTasksLaw(db, TasksOf(db, id), dateOk);
    DeleteTasksSubtasksGone(db, TasksOf(db, id), dateOk);
    DeleteTasksRefsClear(db, TasksOf(db, id), dateOk);
    SameIdsKeepAbsent(db.ideas, db1.ideas);
    if r.Success? {
      DeleteRemovesAll(db1, Ideas, Str(id));
    }
  }
}
