/**
 * The file-backed REST endpoints: the type guard shared by every route and the
 * rewrites of a collection's JSON array done by `POST /api/:type` and
 * `DELETE /api/:type/:id`. The disk is a map from collection to file content;
 * a collection without an entry has no file yet.
 */
module Server {
  import opened Values
  import opened Wrappers
  import opened Schema
  import opened Repository

  /** A data file: a JSON array of records, some other JSON value, or text that cannot be read or parsed. */
  datatype Content = Items(items: seq<Record>) | NotArray | Unreadable

  /** A request body as `express.json()` hands it over: an array or an object. */
  datatype Body = ArrayBody(elements: seq<Record>) | ObjectBody(item: Record)

  datatype Response =
    | Data(content: Content)   // 200 with the file's contents
    | Saved                    // 200 `{ success: true }`
    | BadType                  // 400 `Invalid data type`
    | ItemNotFound             // 404 `Item not found`
    | ServerError              // 500: the file holds JSON that is not an array

  function Status(r: Response): (code: int)
    ensures code in {200, 400, 404, 500}
    ensures code == 400 <==> r == BadType
    ensures code == 404 <==> r == ItemNotFound
  {
    match r
    case Data(_) => 200
    case Saved => 200
    case BadType => 400
    case ItemNotFound => 404
    case ServerError => 500
  }

  type Disk = map<Collection, Content>

  /** `ensureFileExists`: a missing file is created holding `[]`. */
  function EnsureFile(disk: Disk, c: Collection): (d: Disk)
    ensures c in d && d.Keys == disk.Keys + {c}
    ensures forall c' :: c' in disk ==> d[c'] == disk[c']
  {
    if c in disk then disk else disk[c := Items([])]
  }

  /** `readJsonFile`: whatever cannot be read or parsed reads as `[]`. */
  function ReadJsonFile(f: Content): (r: Content)
    ensures r != Unreadable
    ensures f != Unreadable ==> r == f
  {
    if f.Unreadable? then Items([]) else f
  }

  /** The object body replaces the first element with an equal `id` or, when there is none, is appended. */
  function Upsert(xs: seq<Record>, item: Record): seq<Record> {
    var i := FindIndex(xs, IdOf(item));
    if i != -1 then xs[i := item] else xs + [item]
  }

  function ServeGet(disk: Disk, name: string): (Disk, Response) {
    match ParseCollection(name)
    case None => (disk, BadType)
    case Some(c) =>
      var d := EnsureFile(disk, c);
      (d, Data(ReadJsonFile(d[c])))
  }

  function ServePost(disk: Disk, name: string, body: Body): (Disk, Response) {
    match ParseCollection(name)
    case None => (disk, BadType)
    case Some(c) =>
      var d := EnsureFile(disk, c);
      var current := ReadJsonFile(d[c]);
      match body
      case ArrayBody(xs) => (d[c := Items(xs)], Saved)
      case ObjectBody(item) =>
        if current.Items? then (d[c := Items(Upsert(current.items, item))], Saved) else (d, ServerError)
  }

  function ServeDelete(disk: Disk, name: string, id: string): (Disk, Response) {
    match ParseCollection(name)
    case None => (disk, BadType)
    case Some(c) =>
      var d := EnsureFile(disk, c);
      var current := ReadJsonFile(d[c]);
      if !current.Items? then (d, ServerError)
      else
        var filtered := RemoveId(current.items, Str(id));
        if |filtered| == |current.items| then (d, ItemNotFound) else (d[c := Items(filtered)], Saved)
  }

  /** The disk and the three route handlers. Writes to a file always succeed. */
  class FileServer {
    var disk: Disk

    constructor (disk: Disk)
      ensures this.disk == disk
    {
      this.disk := disk;
    }

    /** `ensureFileExists` followed by `readJsonFile`. */
    method ReadCollection(c: Collection) returns (current: Content)
      modifies this
      ensures disk == EnsureFile(old(disk), c)
      ensures current == ReadJsonFile(disk[c])
    {
      if c !in disk {
        disk := disk[c := Items([])];
      }
      current := disk[c];
      if current.Unreadable? {
        current := Items([]);
      }
    }

    /** `GET /api/:type` */
    method HandleGet(name: string) returns (r: Response)
      modifies this
      ensures (disk, r) == ServeGet(old(disk), name)
    {
      var c := ParseCollection(name);
      if c.None? {
        return BadType;
      }
      var current := ReadCollection(c.value);
      r := Data(current);
    }

    /** `POST /api/:type`: an array replaces the file; an object is upserted by `id`. */
    method HandlePost(name: string, body: Body) returns (r: Response)
      modifies this
      ensures (disk, r) == ServePost(old(disk), name, body)
    {
      var c := ParseCollection(name);
      if c.None? {
        return BadType;
      }
      var current := ReadCollection(c.value);
      var updated: seq<Record>;
      if body.ArrayBody? {
        updated := body.elements;
      } else {
        if !current.Items? {
          return ServerError;
        }
        var xs := current.items;
        var existingIndex := FindIndex(xs, IdOf(body.item));
        if existingIndex != -1 {
          xs := xs[existingIndex := body.item];
          updated := xs;
        } else {
          updated := xs + [body.item];
        }
      }
      disk := disk[c.value := Items(updated)];
      r := Saved;
    }

    /** `DELETE /api/:type/:id` */
    method HandleDelete(name: string, id: string) returns (r: Response)
      modifies this
      ensures (disk, r) == ServeDelete(old(disk), name, id)
    {
      var c := ParseCollection(name);
      if c.None? {
        return BadType;
      }
      var current := ReadCollection(c.value);
      if !current.Items? {
        return ServerError;
      }
      var filteredData := RemoveId(current.items, Str(id));
      if |filteredData| == |current.items| {
        return ItemNotFound;
      }
      disk := disk[c.value := Items(filteredData)];
      r := Saved;
    }
  }

  // ---------------------------------------------------------------------------
  // Properties of the routes

  /** Every route answers 400 exactly for a name outside the five collections, and then touches no file. */
  lemma {:induction false} TypeGuard(disk: Disk, name: string, body: Body, id: string)
    ensures ServeGet(disk, name).1 == BadType <==> ParseCollection(name).None?
    ensures ServePost(disk, name, body).1 == BadType <==> ParseCollection(name).None?
    ensures ServeDelete(disk, name, id).1 == BadType <==> ParseCollection(name).None?
    ensures ParseCollection(name).None? ==>
      ServeGet(disk, name).0 == disk && ServePost(disk, name, body).0 == disk && ServeDelete(disk, name, id).0 == disk
  {
  }

  /** A file that cannot be read or parsed is served as `[]`; a missing file is created holding `[]`. */
  lemma ReadFailureIsEmpty(disk: Disk, c: Collection)
    requires c !in disk || disk[c] == Unreadable
    ensures ServeGet(disk, CollectionName(c)).1 == Data(Items([]))
    ensures c !in disk ==> ServeGet(disk, CollectionName(c)).0 == disk[c := Items([])]
  {
    ParseName(c);
  }

  /** An array body replaces the whole collection and leaves every other file as it was. */
  lemma PostArrayReplaces(disk: Disk, c: Collection, xs: seq<Record>)
    ensures var (d, r) := ServePost(disk, CollectionName(c), ArrayBody(xs));
      && r == Saved
      && d[c] == Items(xs)
      && d.Keys == disk.Keys + {c}
      && forall c' :: c' in disk && c' != c ==> d[c'] == disk[c']
  {
    ParseName(c);
  }

  /**
   * The upsert: the length grows by one exactly when no element had the id; every element at a
   * position other than the replaced one is unchanged; the object is what a lookup by its id finds.
   */
  lemma UpsertLaws(xs: seq<Record>, item: Record)
    ensures var r := Upsert(xs, item);
      && |r| == (if Absent(xs, IdOf(item)) then |xs| + 1 else |xs|)
      && (forall j :: 0 <= j < |xs| && j != FindIndex(xs, IdOf(item)) ==> r[j] == xs[j])
      && (forall x :: x in r ==> x in xs || x == item)
      && (forall x :: x in xs && IdOf(x) != IdOf(item) ==> x in r)
      && Find(r, IdOf(item)) == Some(item)
  {
    var id := IdOf(item);
    var i := FindIndex(xs, id);
    var r := Upsert(xs, item);
    if i != -1 {
      FirstMatchAfterReplace(xs, i, item);
    } else {
      FirstMatchAppended(xs, item);
    }
    forall x | x in xs && IdOf(x) != id
      ensures x in r
    {
      var k :| 0 <= k < |xs| && xs[k] == x;
      assert r[k] == x;
    }
  }

  /** Replacing the first element carrying an id by a record with that id keeps it first. */
  lemma FirstMatchAfterReplace(xs: seq<Record>, i: int, item: Record)
    requires 0 <= i < |xs| && i == FindIndex(xs, IdOf(item))
    ensures FindIndex(xs[i := item], IdOf(item)) == i
  {
    var ys := xs[i := item];
    assert IdOf(ys[i]) == IdOf(item);
    forall j | 0 <= j < i
      ensures IdOf(ys[j]) != IdOf(item)
    {
      assert ys[j] == xs[j];
    }
  }

  /** A record appended to a sequence lacking its id is the first one carrying it. */
  lemma FirstMatchAppended(xs: seq<Record>, item: Record)
    requires Absent(xs, IdOf(item))
    ensures FindIndex(xs + [item], IdOf(item)) == |xs|
  {
    var ys := xs + [item];
    assert IdOf(ys[|xs|]) == IdOf(item);
    forall j | 0 <= j < |xs|
      ensures IdOf(ys[j]) != IdOf(item)
    {
      assert ys[j] == xs[j] && xs[j] in xs;
    }
  }

  /** Posting the same object twice leaves the collection as posting it once. */
  lemma {:induction false} UpsertIdempotent(xs: seq<Record>, item: Record)
    ensures Upsert(Upsert(xs, item), item) == Upsert(xs, item)
  {
    var i := FindIndex(xs, IdOf(item));
    if i != -1 {
      FirstMatchAfterReplace(xs, i, item);
    } else {
      FirstMatchAppended(xs, item);
    }
  }

  /** After a successful object POST, reading the collection finds the object under its id. */
  lemma PostThenGet(disk: Disk, c: Collection, item: Record)
    ensures var (d, r) := ServePost(disk, CollectionName(c), ObjectBody(item));
      r == Saved ==>
        var g := ServeGet(d, CollectionName(c));
        && g.0 == d
        && g.1.Data? && g.1.content.Items?
        && Find(g.1.content.items, IdOf(item)) == Some(item)
  {
    ParseName(c);
    var cur := ReadJsonFile(EnsureFile(disk, c)[c]);
    if cur.Items? {
      UpsertLaws(cur.items, item);
    }
  }

  /**
   * DELETE answers 404 and writes nothing exactly when no element carries the id; otherwise
   * the file keeps, in order, exactly the elements with other ids.
   */
  lemma DeleteLaws(disk: Disk, c: Collection, id: string)
    ensures var d0 := EnsureFile(disk, c);
      var (d, r) := ServeDelete(disk, CollectionName(c), id);
      && (r == ServerError <==> !ReadJsonFile(d0[c]).Items?)
      && (r == ItemNotFound <==> ReadJsonFile(d0[c]).Items? && Absent(ReadJsonFile(d0[c]).items, Str(id)))
      && (r != Saved ==> d == d0)
      && (r == Saved ==>
        && d.Keys == d0.Keys
        && d[c].Items? && Absent(d[c].items, Str(id))
        && d[c].items == RemoveId(ReadJsonFile(d0[c]).items, Str(id))
        && (forall x :: x in d[c].items <==> x in ReadJsonFile(d0[c]).items && IdOf(x) != Str(id))
        && forall c' :: c' in d0 && c' != c ==> d[c'] == d0[c'])
  {
    ParseName(c);
  }
}
