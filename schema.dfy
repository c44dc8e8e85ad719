/**
 * The data layer's strict schema check: per-collection allow-list, required fields,
 * array fields (initialised in place when absent), enum fields and date fields, in that order.
 */
module Schema {
  import opened Values
  import opened Wrappers
  import Lifecycle

  datatype Collection = Projects | Ideas | Events | Tasks | Subtasks

  function CollectionName(c: Collection): string {
    match c
    case Projects => "projects"
    case Ideas => "ideas"
    case Events => "events"
    case Tasks => "tasks"
    case Subtasks => "subtasks"
  }

  /** The collection a type name denotes, if any. */
  function ParseCollection(name: string): (r: Option<Collection>)
    ensures r.Some? ==> CollectionName(r.value) == name
    ensures r.None? ==> forall c: Collection :: CollectionName(c) != name
  {
    if name == "projects" then Some(Projects)
    else if name == "ideas" then Some(Ideas)
    else if name == "events" then Some(Events)
    else if name == "tasks" then Some(Tasks)
    else if name == "subtasks" then Some(Subtasks)
    else None
  }

  function AllowedFields(c: Collection): seq<string> {
    match c
    case Projects => ["id", "topic", "planDueDate", "name", "keywords", "ideaId", "eventId", "goal", "objective", "taskId"]
    case Ideas => ["id", "topic", "planDueDate", "name", "keywords", "goals", "objectives", "taskIds"]
    case Events => ["id", "name", "type", "eventDate", "duration", "location", "description", "status"]
    case Tasks => ["id", "name", "dueDate", "doneStatus", "notes", "subtaskIds"]
    case Subtasks => ["id", "name", "dueDate", "taskType", "assignee"]
  }

  function RequiredFields(c: Collection): seq<string> {
    match c
    case Projects => ["id", "topic", "planDueDate", "name"]
    case Ideas => ["id", "topic", "planDueDate", "name"]
    case Events => ["id", "name", "type", "eventDate"]
    case Tasks => ["id", "name", "dueDate", "doneStatus"]
    case Subtasks => ["id", "name", "dueDate", "taskType"]
  }

  function ArrayFields(c: Collection): seq<string> {
    match c
    case Projects => ["keywords", "ideaId", "eventId", "taskId"]
    case Ideas => ["keywords", "taskIds"]
    case Tasks => ["subtaskIds"]
    case _ => []
  }

  function DateFields(c: Collection): seq<string> {
    match c
    case Projects => ["planDueDate"]
    case Ideas => ["planDueDate"]
    case Events => ["eventDate"]
    case Tasks => ["dueDate"]
    case Subtasks => ["dueDate"]
  }

  const TaskStatuses: seq<string> := ["pending", "incomplete", "complete", "overdue"]
  const EventStatuses: seq<string> := ["planning", "scheduled", "in-progress", "completed", "cancelled"]

  /** The enum-valued field of a collection and its allowed values. */
  function EnumField(c: Collection): Option<(string, seq<string>)> {
    match c
    case Subtasks => Some(("taskType", Lifecycle.Stages))
    case Tasks => Some(("doneStatus", TaskStatuses))
    case Events => Some(("status", EventStatuses))
    case _ => None
  }

  datatype SchemaError =
    | InvalidType(name: string)
    | UnknownFields(extra: set<string>)
    | MissingFields(missing: seq<string>)
    | NotAnArray(field: string)
    | InvalidEnum(field: string, allowed: seq<string>)
    | InvalidDate(field: string)

  /** A required field counts as missing when absent, '', null or undefined. */
  predicate Missing(item: Record, f: string) {
    f !in item || item[f] == Str("") || item[f] == Null || item[f] == Undef
  }

  function Extras(c: Collection, item: Record): (r: set<string>)
    ensures forall k :: k in r <==> k in item && k !in AllowedFields(c)
  {
    set k | k in item && k !in AllowedFields(c)
  }

  /** `requiredFields.filter(missing)`, in schema order. */
  function MissingOf(fields: seq<string>, item: Record): (r: seq<string>)
    ensures forall f :: f in r <==> f in fields && Missing(item, f)
  {
    if fields == [] then []
    else (if Missing(item, fields[0]) then [fields[0]] else []) + MissingOf(fields[1..], item)
  }

  /**
   * The `forEach` over the array fields: an absent field becomes `[]`, a present
   * non-array stops the walk and is reported. Fields before it stay initialised.
   */
  function InitArrays(item: Record, fields: seq<string>): (Record, Option<string>)
    decreases |fields|
  {
    if fields == [] then (item, None)
    else if fields[0] !in item then InitArrays(item[fields[0] := Arr([])], fields[1..])
    else if !item[fields[0]].Arr? then (item, Some(fields[0]))
    else InitArrays(item, fields[1..])
  }

  /** `validTypes.includes(v)` */
  predicate InList(v: Value, xs: seq<string>) {
    v.Str? && v.s in xs
  }

  /** Enum membership is checked only for a truthy value. */
  function EnumCheck(c: Collection, item: Record): Option<SchemaError> {
    match EnumField(c)
    case None => None
    case Some((f, allowed)) =>
      if Truthy(Get(item, f)) && !InList(Get(item, f), allowed) then Some(InvalidEnum(f, allowed)) else None
  }

  /** The first date field holding a truthy value that does not parse. */
  function DateCheck(fields: seq<string>, item: Record, dateOk: Value -> bool): Option<SchemaError> {
    if fields == [] then None
    else if Truthy(Get(item, fields[0])) && !dateOk(Get(item, fields[0])) then Some(InvalidDate(fields[0]))
    else DateCheck(fields[1..], item, dateOk)
  }

  /**
   * `validateSchema(type, item)`: the item as it stands afterwards (array fields
   * initialised in place) and the error it throws, if any.
   */
  function CheckSchema(name: string, item: Record, dateOk: Value -> bool): (Record, Option<SchemaError>) {
    match ParseCollection(name)
    case None => (item, Some(InvalidType(name)))
    case Some(c) =>
      var extras := Extras(c, item);
      if extras != {} then (item, Some(UnknownFields(extras)))
      else
        var missing := MissingOf(RequiredFields(c), item);
        if missing != [] then (item, Some(MissingFields(missing)))
        else
          var (item', bad) := InitArrays(item, ArrayFields(c));
          if bad.Some? then (item', Some(NotAnArray(bad.value)))
          else
            var e := EnumCheck(c, item');
            if e.Some? then (item', e)
            else (item', DateCheck(DateFields(c), item', dateOk))
  }

  /** `validateSchema` with its `forEach` loop; mutation of the item is modelled by returning it. */
  method ValidateSchema(name: string, item: Record, dateOk: Value -> bool) returns (out: Record, err: Option<SchemaError>)
    ensures (out, err) == CheckSchema(name, item, dateOk)
  {
    var pc := ParseCollection(name);
    if pc.None? {
      return item, Some(InvalidType(name));
    }
    var c := pc.value;
    var extras := Extras(c, item);
    if extras != {} {
      return item, Some(UnknownFields(extras));
    }
    var missing := MissingOf(RequiredFields(c), item);
    if missing != [] {
      return item, Some(MissingFields(missing));
    }
    var fields := ArrayFields(c);
    out := item;
    var i := 0;
    while i < |fields|
      invariant 0 <= i <= |fields|
      invariant InitArrays(item, fields) == InitArrays(out, fields[i..])
    {
      var f := fields[i];
      assert fields[i..][1..] == fields[i + 1..];
      if f !in out {
        out := out[f := Arr([])];
      } else if !out[f].Arr? {
        return out, Some(NotAnArray(f));
      }
      i := i + 1;
    }
    err := EnumCheck(c, out);
    if err.None? {
      err := DateCheck(DateFields(c), out, dateOk);
    }
  }

  // ---------------------------------------------------------------------------
  // What the check means, stated declaratively.

  predicate EnumOk(c: Collection, item: Record) {
    match EnumField(c)
    case None => true
    case Some((f, allowed)) => Truthy(Get(item, f)) ==> InList(Get(item, f), allowed)
  }

  predicate DatesOk(c: Collection, item: Record, dateOk: Value -> bool) {
    forall f :: f in DateFields(c) && Truthy(Get(item, f)) ==> dateOk(Get(item, f))
  }

  /** A record the check accepts for collection `c`. */
  predicate Conforms(c: Collection, item: Record, dateOk: Value -> bool) {
    && (forall k :: k in item ==> k in AllowedFields(c))
    && (forall f :: f in RequiredFields(c) ==> !Missing(item, f))
    && (forall f :: f in ArrayFields(c) && f in item ==> item[f].Arr?)
    && EnumOk(c, item)
    && DatesOk(c, item, dateOk)
  }

  /** `item` with every absent array field set to `[]`. */
  function WithArrays(c: Collection, item: Record): Record {
    item + map f | f in ArrayFields(c) && f !in item :: Arr([])
  }

  lemma {:induction false} InitArraysNoneIff(item: Record, fields: seq<string>)
    ensures InitArrays(item, fields).1.None? <==> forall f :: f in fields && f in item ==> item[f].Arr?
    decreases |fields|
  {
    if fields != [] {
      var f := fields[0];
      if f !in item {
        var item1 := item[f := Arr([])];
        InitArraysNoneIff(item1, fields[1..]);
        if forall g :: g in fields[1..] && g in item1 ==> item1[g].Arr? {
          forall g | g in fields && g in item ensures item[g].Arr? {
            assert g != f;
            var j :| 0 <= j < |fields| && fields[j] == g;
            assert fields[1..][j - 1] == g;
            assert g in fields[1..] && g in item1;
            assert item1[g] == item[g];
          }
        }
      } else if item[f].Arr? {
        InitArraysNoneIff(item, fields[1..]);
      }
    }
  }

  lemma {:induction false} InitArraysFrame(item: Record, fields: seq<string>)
    ensures var out := InitArrays(item, fields).0;
      && (forall k :: k in item ==> k in out && out[k] == item[k])
      && (forall k :: k in out ==> k in item || k in fields)
    decreases |fields|
  {
    if fields != [] {
      var f := fields[0];
      if f !in item {
        InitArraysFrame(item[f := Arr([])], fields[1..]);
      } else if item[f].Arr? {
        InitArraysFrame(item, fields[1..]);
      }
    }
  }

  lemma {:induction false} InitArraysFills(item: Record, fields: seq<string>)
    requires InitArrays(item, fields).1.None?
    ensures forall f :: f in fields && f !in item ==> f in InitArrays(item, fields).0 && InitArrays(item, fields).0[f] == Arr([])
    decreases |fields|
  {
    if fields != [] {
      var f := fields[0];
      if f !in item {
        var item1 := item[f := Arr([])];
        InitArraysFills(item1, fields[1..]);
        InitArraysFrame(item1, fields[1..]);
      } else {
        InitArraysFills(item, fields[1..]);
      }
    }
  }

  lemma {:induction false} DateCheckNoneIff(fields: seq<string>, item: Record, dateOk: Value -> bool)
    ensures DateCheck(fields, item, dateOk).None? <==>
      forall f :: f in fields && Truthy(Get(item, f)) ==> dateOk(Get(item, f))
  {
    if fields != [] {
      DateCheckNoneIff(fields[1..], item, dateOk);
    }
  }

  lemma DateCheckAgrees(fields: seq<string>, item: Record, item': Record, dateOk: Value -> bool)
    requires forall f :: f in fields ==> Get(item, f) == Get(item', f)
    ensures DateCheck(fields, item, dateOk) == DateCheck(fields, item', dateOk)
  {
  }

  /** The array step never touches the enum or date fields. */
  lemma InitArraysKeepsChecks(c: Collection, item: Record, dateOk: Value -> bool)
    ensures var out := InitArrays(item, ArrayFields(c)).0;
      EnumCheck(c, out) == EnumCheck(c, item) && DateCheck(DateFields(c), out, dateOk) == DateCheck(DateFields(c), item, dateOk)
  {
    InitArraysFrame(item, ArrayFields(c));
    var out := InitArrays(item, ArrayFields(c)).0;
    forall f | f in DateFields(c) ensures Get(item, f) == Get(out, f) {
      NoFieldIsBoth(c, f);
    }
    DateCheckAgrees(DateFields(c), item, out, dateOk);
    assert Get(item, "taskType") == Get(out, "taskType");
    assert Get(item, "doneStatus") == Get(out, "doneStatus");
    assert Get(item, "status") == Get(out, "status");
  }

  lemma ExtrasEmptyIff(c: Collection, item: Record)
    ensures Extras(c, item) == {} <==> forall k :: k in item ==> k in AllowedFields(c)
  {
    if Extras(c, item) != {} {
      var k :| k in Extras(c, item);
    }
  }

  lemma MissingEmptyIff(fields: seq<string>, item: Record)
    ensures MissingOf(fields, item) == [] <==> forall f :: f in fields ==> !Missing(item, f)
  {
    var m := MissingOf(fields, item);
    if m != [] {
      assert m[0] in m;
    }
  }

  /** The staged check accepts a record exactly when it conforms to the declarative schema. */
  lemma CheckSchemaAcceptsIff(c: Collection, item: Record, dateOk: Value -> bool)
    ensures CheckSchema(CollectionName(c), item, dateOk).1 == None <==> Conforms(c, item, dateOk)
  {
    ParseName(c);
    ExtrasEmptyIff(c, item);
    MissingEmptyIff(RequiredFields(c), item);
    InitArraysNoneIff(item, ArrayFields(c));
    InitArraysKeepsChecks(c, item, dateOk);
    DateCheckNoneIff(DateFields(c), item, dateOk);
    assert EnumCheck(c, item).None? <==> EnumOk(c, item);
  }

  /** An accepted record is stored as the input with its absent array fields set to `[]`. */
  lemma CheckSchemaStores(c: Collection, item: Record, dateOk: Value -> bool)
    requires CheckSchema(CollectionName(c), item, dateOk).1 == None
    ensures CheckSchema(CollectionName(c), item, dateOk).0 == WithArrays(c, item)
  {
    ParseName(c);
    InitArraysFrame(item, ArrayFields(c));
    InitArraysFills(item, ArrayFields(c));
    var out := InitArrays(item, ArrayFields(c)).0;
    assert out.Keys == WithArrays(c, item).Keys;
  }

  lemma ParseName(c: Collection)
    ensures ParseCollection(CollectionName(c)) == Some(c)
  {
  }

  lemma NoFieldIsBoth(c: Collection, f: string)
    requires f in DateFields(c)
    ensures f !in ArrayFields(c) && f !in ["taskType", "doneStatus", "status"]
  {
  }

  /** Whatever the check accepts uses only the collection's allowed fields, before and after initialisation. */
  lemma AcceptedKeysAllowed(c: Collection, item: Record, dateOk: Value -> bool)
    requires CheckSchema(CollectionName(c), item, dateOk).1 == None
    ensures forall k :: k in CheckSchema(CollectionName(c), item, dateOk).0 ==> k in AllowedFields(c)
  {
    ParseName(c);
    InitArraysFrame(item, ArrayFields(c));
    assert forall f :: f in ArrayFields(c) ==> f in AllowedFields(c);
  }

  /**
   * The allow-list is checked first: an unknown type or any key outside the allow-list is
   * reported before anything else, naming exactly the extra keys.
   */
  lemma AllowListFirst(name: string, item: Record, dateOk: Value -> bool)
    ensures ParseCollection(name).None? ==> CheckSchema(name, item, dateOk) == (item, Some(InvalidType(name)))
    ensures ParseCollection(name).Some? && Extras(ParseCollection(name).value, item) != {} ==>
      CheckSchema(name, item, dateOk) == (item, Some(UnknownFields(Extras(ParseCollection(name).value, item))))
  {
  }

  /**
   * Once the allow-list passes, any required field that is absent, '', null or undefined
   * rejects the record, and the error lists exactly those fields.
   */
  lemma MissingRequiredRejects(c: Collection, item: Record, dateOk: Value -> bool, f: string)
    requires Extras(c, item) == {}
    requires f in RequiredFields(c) && Missing(item, f)
    ensures var err := CheckSchema(CollectionName(c), item, dateOk).1;
      err.Some? && err.value.MissingFields? && f in err.value.missing
      && forall g :: g in err.value.missing <==> g in RequiredFields(c) && Missing(item, g)
  {
  }
}
