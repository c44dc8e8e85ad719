/** What the data layer's writes guarantee, stated over the functions of module Repository. */
module RepositoryLaws {
  import opened Values
  import opened Wrappers
  import opened Schema
  import opened Repository
  import Lifecycle

  /**
   * `addData`: an unknown collection is refused; otherwise the write succeeds exactly when
   * the record conforms to the schema, whatever records (and ids) the collection already
   * holds, and then the record, with its absent array fields set to `[]`, is appended.
   */
  lemma AddAppends(db: Db, name: string, item: Record, dateOk: Value -> bool)
    ensures ParseCollection(name).None? ==> AddSpec(db, name, item, dateOk) == (db, Failure(SchemaErr(InvalidType(name))))
    ensures forall c :: ParseCollection(name) == Some(c) ==>
      var (db', r) := AddSpec(db, name, item, dateOk);
      && (r.Success? <==> Conforms(c, item, dateOk))
      && (r.Success? ==> r.value == WithArrays(c, item) && db' == db.Set(c, db.Get(c) + [r.value]))
      && (r.Failure? ==> db' == db)
  {
    match ParseCollection(name)
    case None =>
    case Some(c) =>
      assert CollectionName(c) == name;
      CheckSchemaAcceptsIff(c, item, dateOk);
      if CheckSchema(name, item, dateOk).1 == None {
        CheckSchemaStores(c, item, dateOk);
      }
  }

  /**
   * `updateData`: for a missing id nothing changes and the error is not-found. Otherwise the
   * write succeeds exactly when the shallow merge conforms; then only the first record with
   * the id is replaced, patch keys win, every other field of the old record is kept, and the
   * only new keys are array fields initialised to `[]`.
   */
  lemma UpdateMerges(db: Db, c: Collection, id: Value, patch: Record, dateOk: Value -> bool)
    ensures var rs := db.Get(c);
      var i := FindIndex(rs, id);
      var (db', r) := UpdateIn(db, c, id, patch, dateOk);
      && (i < 0 ==> db' == db && r == Failure(NotFound(CollectionName(c), id)))
      && (i >= 0 ==> (r.Success? <==> Conforms(c, rs[i] + patch, dateOk)))
      && (r.Failure? ==> db' == db)
      && (r.Success? ==>
        && i >= 0
        && db' == db.Set(c, rs[i := r.value])
        && (forall f :: f in patch ==> f in r.value && r.value[f] == patch[f])
        && (forall f :: f in rs[i] && f !in patch ==> f in r.value && r.value[f] == rs[i][f])
        && (forall f :: f in r.value && f !in rs[i] && f !in patch ==> f in ArrayFields(c) && r.value[f] == Arr([])))
  {
    var rs := db.Get(c);
    var i := FindIndex(rs, id);
    UpdateStored(db, c, id, patch, dateOk);
    if i >= 0 {
      CheckSchemaAcceptsIff(c, rs[i] + patch, dateOk);
      MergeFields(c, rs[i], patch);
    }
  }

  /** A successful update stores, at the record's index, a record whose field `f` is the patch's. */
  lemma UpdateSetsField(db: Db, c: Collection, id: Value, patch: Record, f: string, dateOk: Value -> bool)
    requires f in patch
    ensures var (db', r) := UpdateIn(db, c, id, patch, dateOk);
      && (r.Failure? ==> db' == db)
      && (r.Success? ==>
        var i := FindIndex(db.Get(c), id);
        && 0 <= i < |db.Get(c)|
        && db' == db.Set(c, db.Get(c)[i := r.value])
        && Get(r.value, f) == patch[f])
  {
    UpdateMerges(db, c, id, patch, dateOk);
  }

  /** What a successful `updateData` stores, and that a failed one stores nothing. */
  lemma UpdateStored(db: Db, c: Collection, id: Value, patch: Record, dateOk: Value -> bool)
    ensures var (db', r) := UpdateIn(db, c, id, patch, dateOk);
      && (r.Failure? ==> db' == db)
      && (r.Success? ==>
        var i := FindIndex(db.Get(c), id);
        i >= 0 && r.value == WithArrays(c, db.Get(c)[i] + patch) && db' == db.Set(c, db.Get(c)[i := r.value]))
  {
    var rs := db.Get(c);
    var i := FindIndex(rs, id);
    if i >= 0 && CheckSchema(CollectionName(c), rs[i] + patch, dateOk).1 == None {
      CheckSchemaStores(c, rs[i] + patch, dateOk);
    }
  }

  /** The fields of a stored shallow merge. */
  lemma MergeFields(c: Collection, prior: Record, patch: Record)
    ensures var m := WithArrays(c, prior + patch);
      && (forall f :: f in patch ==> f in m && m[f] == patch[f])
      && (forall f :: f in prior && f !in patch ==> f in m && m[f] == prior[f])
      && (forall f :: f in m && f !in prior && f !in patch ==> f in ArrayFields(c) && m[f] == Arr([]))
  {
  }

  /** `updateData` on a name that is not a collection always reports not-found. */
  lemma UpdateUnknownType(db: Db, name: string, id: Value, patch: Record, dateOk: Value -> bool)
    ensures ParseCollection(name).None? ==> UpdateSpec(db, name, id, patch, dateOk) == (db, Failure(NotFound(name, id)))
    ensures forall c :: ParseCollection(name) == Some(c) ==> UpdateSpec(db, name, id, patch, dateOk) == UpdateIn(db, c, id, patch, dateOk)
  {
  }

  /**
   * `deleteData`: removes every record with the id and nothing else; fails with not-found,
   * changing nothing, exactly when no record had the id.
   */
  lemma DeleteRemovesAll(db: Db, c: Collection, id: Value)
    ensures var (db', r) := DeleteIn(db, c, id);
      && (r.Success? <==> !Absent(db.Get(c), id))
      && (r.Failure? ==> db' == db && r == Failure(NotFound(CollectionName(c), id)))
      && (r.Success? ==> db' == db.Set(c, RemoveId(db.Get(c), id)) && Absent(db'.Get(c), id))
      && (forall x :: x in db'.Get(c) <==> x in db.Get(c) && (r.Success? ==> IdOf(x) != id))
  {
  }

  /** The filter keeps the order of what it keeps: filtering a concatenation filters each part. */
  lemma {:induction false} RemoveIdAppend(xs: seq<Record>, ys: seq<Record>, id: Value)
    ensures RemoveId(xs + ys, id) == RemoveId(xs, id) + RemoveId(ys, id)
  {
    if xs != [] {
      assert (xs + ys)[0] == xs[0] && (xs + ys)[1..] == xs[1..] + ys;
      RemoveIdAppend(xs[1..], ys, id);
    } else {
      assert xs + ys == ys;
    }
  }

  /** An update whose patch carries a key outside the allow-list never changes anything. */
  lemma UpdateForeignKeyRejected(db: Db, c: Collection, id: Value, patch: Record, k: string, dateOk: Value -> bool)
    requires k in patch && k !in AllowedFields(c)
    ensures var (db', r) := UpdateIn(db, c, id, patch, dateOk);
      && db' == db
      && (Absent(db.Get(c), id) ==> r == Failure(NotFound(CollectionName(c), id)))
      && (!Absent(db.Get(c), id) ==> r.Failure? && r.error.SchemaErr? && r.error.schema.UnknownFields? && k in r.error.schema.extra)
  {
    var rs := db.Get(c);
    var i := FindIndex(rs, id);
    if i >= 0 {
      ParseName(c);
      assert k in Extras(c, rs[i] + patch);
    }
  }

  /** A new record carrying a key outside the allow-list is refused and nothing changes. */
  lemma AddForeignKeyRejected(db: Db, c: Collection, item: Record, k: string, dateOk: Value -> bool)
    requires k in item && k !in AllowedFields(c)
    ensures var (db', r) := AddSpec(db, CollectionName(c), item, dateOk);
      db' == db && r.Failure? && r.error.SchemaErr? && r.error.schema.UnknownFields? && k in r.error.schema.extra
  {
    ParseName(c);
    assert k in Extras(c, item);
  }

  /** `updateSubtask` with a key outside the subtask allow-list never changes anything. */
  lemma UpdateSubtaskForeignKeyRejected(db: Db, id: Value, patch: Record, k: string, dateOk: Value -> bool)
    requires k in patch && k !in AllowedFields(Subtasks)
    ensures UpdateSubtaskSpec(db, id, patch, dateOk).0 == db && UpdateSubtaskSpec(db, id, patch, dateOk).1.Failure?
  {
    UpdateForeignKeyRejected(db, Subtasks, id, patch, k, dateOk);
  }

  // ---------------------------------------------------------------------------
  // Lifecycle

  /**
   * `updateSubtask`: a patch without a truthy `taskType` is a plain update; one with a
   * truthy `taskType` on an existing subtask is stored only if it does not go backwards.
   */
  lemma UpdateSubtaskForwardOnly(db: Db, id: Value, patch: Record, dateOk: Value -> bool)
    ensures !Truthy(Get(patch, "taskType")) ==> UpdateSubtaskSpec(db, id, patch, dateOk) == UpdateIn(db, Subtasks, id, patch, dateOk)
    ensures Find(db.subtasks, id).None? ==> UpdateSubtaskSpec(db, id, patch, dateOk) == UpdateIn(db, Subtasks, id, patch, dateOk)
    ensures UpdateSubtaskSpec(db, id, patch, dateOk).1.Success? ==> UpdateSubtaskSpec(db, id, patch, dateOk) == UpdateIn(db, Subtasks, id, patch, dateOk)
    ensures UpdateSubtaskSpec(db, id, patch, dateOk).1.Success? ==> Find(db.subtasks, id).Some?
    ensures var (db', r) := UpdateSubtaskSpec(db, id, patch, dateOk);
      r.Success? && Truthy(Get(patch, "taskType")) && Find(db.subtasks, id).Some? ==>
        var prior := Find(db.subtasks, id).value;
        && Get(r.value, "taskType") == Get(patch, "taskType")
        && Lifecycle.IsStage(Get(prior, "taskType"))
        && Lifecycle.IsStage(Get(r.value, "taskType"))
        && Lifecycle.StageIndex(Get(r.value, "taskType")) >= Lifecycle.StageIndex(Get(prior, "taskType"))
  {
    UpdateMerges(db, Subtasks, id, patch, dateOk);
  }

  /** When the stage guard does not object, `updateSubtask` is a plain update. */
  lemma UpdateSubtaskGuardPasses(db: Db, id: Value, patch: Record, dateOk: Value -> bool)
    requires !Truthy(Get(patch, "taskType")) || Find(db.subtasks, id).None?
      || Lifecycle.ValidateSubtaskProgression(Get(Find(db.subtasks, id).value, "taskType"), Get(patch, "taskType")) == None
    ensures UpdateSubtaskSpec(db, id, patch, dateOk) == UpdateIn(db, Subtasks, id, patch, dateOk)
  {
  }

  /**
   * `advanceSubtaskStage`: a missing subtask is not found; a subtask at Production is refused;
   * a subtask with an unknown stage cannot advance either; otherwise the stored subtask is
   * exactly one stage further on and the others are untouched.
   */
  lemma AdvanceGuards(db: Db, id: Value, dateOk: Value -> bool)
    ensures Find(db.subtasks, id).None? ==> AdvanceSpec(db, id, dateOk) == (db, Failure(NotFound("subtasks", id)))
    ensures Find(db.subtasks, id).Some? && Get(Find(db.subtasks, id).value, "taskType") == Str("Production") ==>
      AdvanceSpec(db, id, dateOk) == (db, Failure(StageErr(Lifecycle.AlreadyFinal)))
    ensures Find(db.subtasks, id).Some? && !Lifecycle.IsStage(Get(Find(db.subtasks, id).value, "taskType")) ==>
      AdvanceSpec(db, id, dateOk).1.Failure?
  {
    Lifecycle.StageIndexOfStage(3);
  }

  lemma AdvanceOneStage(db: Db, id: Value, dateOk: Value -> bool)
    ensures var (db', r) := AdvanceSpec(db, id, dateOk);
      r.Success? ==>
        var i := FindIndex(db.subtasks, id);
        var ci := Lifecycle.StageIndex(Get(db.subtasks[i], "taskType"));
        && 0 <= ci < |Lifecycle.Stages| - 1
        && Get(r.value, "taskType") == Str(Lifecycle.Stages[ci + 1])
        && Lifecycle.StageIndex(Get(r.value, "taskType")) == ci + 1
        && db' == db.(subtasks := db.subtasks[i := r.value])
  {
    var found := Find(db.subtasks, id);
    if found.Some? {
      var ci := Lifecycle.StageIndex(Get(found.value, "taskType"));
      if ci != |Lifecycle.Stages| - 1 {
        var patch := map["taskType" := Str(Lifecycle.Stages[ci + 1])];
        assert AdvanceSpec(db, id, dateOk) == UpdateSubtaskSpec(db, id, patch, dateOk);
        if UpdateSubtaskSpec(db, id, patch, dateOk).1.Success? {
          assert Get(patch, "taskType") == Str(Lifecycle.Stages[ci + 1]);
          SubtaskUpdateStores(db, id, patch, dateOk);
          Lifecycle.StageIndexOfStage(ci + 1);
        }
      }
    }
  }

  /** A successful subtask update of the stage stores the merge at the subtask's index. */
  lemma SubtaskUpdateStores(db: Db, id: Value, patch: Record, dateOk: Value -> bool)
    requires UpdateSubtaskSpec(db, id, patch, dateOk).1.Success?
    requires "taskType" in patch
    ensures var (db', r) := UpdateSubtaskSpec(db, id, patch, dateOk);
      var i := FindIndex(db.subtasks, id);
      && i >= 0
      && Get(r.value, "taskType") == patch["taskType"]
      && db' == db.(subtasks := db.subtasks[i := r.value])
  {
    UpdateSubtaskForwardOnly(db, id, patch, dateOk);
    UpdateMerges(db, Subtasks, id, patch, dateOk);
    var (db', r) := UpdateSubtaskSpec(db, id, patch, dateOk);
    var stored := db.subtasks[FindIndex(db.subtasks, id) := r.value];
    assert db' == db.Set(Subtasks, stored) == db.(subtasks := stored);
  }

  // ---------------------------------------------------------------------------
  // Relationships

  lemma {:induction false} FirstDanglingNoneIff(db: Db, item: Record, fs: seq<(string, Collection)>)
    ensures FirstDangling(db, item, fs) == None <==>
      forall i, x :: 0 <= i < |fs| && x in Refs(Get(item, fs[i].0)) ==> !Absent(db.Get(fs[i].1), Str(x))
  {
    if fs != [] {
      FirstDanglingNoneIff(db, item, fs[1..]);
      var d := Dangling(Refs(Get(item, fs[0].0)), db.Get(fs[0].1));
      if d != [] {
        assert d[0] in d;
      }
      assert forall i :: 1 <= i < |fs| ==> fs[i] == fs[1..][i - 1];
    }
  }

  /**
   * `validateRelationships` finds nothing to warn about exactly when every reference of the
   * record resolves; when it warns, the warning names only unresolved ids.
   */
  lemma RelationshipWarningIff(db: Db, c: Collection, item: Record)
    ensures RelationshipWarning(db, CollectionName(c), item) == None <==> Resolves(db, c, item)
    ensures var w := RelationshipWarning(db, CollectionName(c), item);
      w.Some? ==> w.value.ids != [] && forall x :: x in w.value.ids ==> Absent(db.Get(w.value.target), Str(x))
  {
    ParseName(c);
    FirstDanglingNoneIff(db, item, RefFields(c));
    FirstDanglingNames(db, item, RefFields(c));
  }

  lemma {:induction false} FirstDanglingNames(db: Db, item: Record, fs: seq<(string, Collection)>)
    ensures var w := FirstDangling(db, item, fs);
      w.Some? ==> w.value.ids != [] && forall x :: x in w.value.ids ==> Absent(db.Get(w.value.target), Str(x))
  {
    if fs != [] {
      FirstDanglingNames(db, item, fs[1..]);
    }
  }
}
