/**
 * What the task grid and the subtask grid share: a list of row records, some of them
 * drafts (`isNew` truthy) that were never saved, the `filter` calls both grids make, and
 * the status buckets their `get...Stats` loops fill.
 */
module GridLists {
  import opened Values
  import opened Wrappers
  import opened Repository
  import Text

  /** `row.isNew` is truthy: a draft added in the grid and not yet saved. */
  predicate IsDraft(r: Record) {
    Truthy(Get(r, "isNew"))
  }

  /** `row.name && row.name.trim() !== ''` for a string name. */
  predicate HasName(r: Record) {
    Get(r, "name").Str? && Text.Trim(Get(r, "name").s) != ""
  }

  /** A row whose name is the empty string has no name. */
  lemma BlankNameUnnamed(r: Record)
    requires Get(r, "name") == Str("")
    ensures !HasName(r)
  {
    assert Text.TrimStart("") == "";
  }

  /** `` `${row[f1]} ${row[f2]}`.toLowerCase().includes(query.toLowerCase()) `` */
  predicate Mentions(r: Record, f1: string, f2: string, query: string) {
    Text.Includes(Text.Lower(JsString(Get(r, f1)) + " " + JsString(Get(r, f2))), Text.Lower(query))
  }

  /** The tests the grids filter their rows by. */
  datatype Keep =
    | NotDraft                                   // `!row.isNew`
    | NamedNotDraft                              // `!row.isNew && row.name && row.name.trim() !== ''`
    | Matching(f1: string, f2: string, query: string)   // the search test
    | FieldIs(field: string, value: string)      // `row[field] === value`

  predicate Keeps(k: Keep, r: Record) {
    match k
    case NotDraft => !IsDraft(r)
    case NamedNotDraft => !IsDraft(r) && HasName(r)
    case Matching(f1, f2, q) => Mentions(r, f1, f2, q)
    case FieldIs(f, v) => Get(r, f) == Str(v)
  }

  /** `rows.filter(test)`: the rows passing the test, in list order. */
  function Filter(xs: seq<Record>, k: Keep): (r: seq<Record>)
    ensures |r| <= |xs|
  {
    if xs == [] then []
    else (if Keeps(k, xs[0]) then [xs[0]] else []) + Filter(xs[1..], k)
  }

  /** The kept rows are exactly the rows passing the test. */
  lemma {:induction false} FilterMembers(xs: seq<Record>, k: Keep)
    ensures forall x :: x in Filter(xs, k) <==> x in xs && Keeps(k, x)
  {
    if xs != [] {
      FilterMembers(xs[1..], k);
      assert forall x :: x in xs <==> x == xs[0] || x in xs[1..];
    }
  }

  /** `rows.map(row => row.id)` */
  function IdsOf(xs: seq<Record>): (r: seq<Value>)
    ensures |r| == |xs| && forall i :: 0 <= i < |xs| ==> r[i] == IdOf(xs[i])
  {
    seq(|xs|, i requires 0 <= i < |xs| => IdOf(xs[i]))
  }

  /** Filtering a concatenation filters each part: the order of the rows is kept. */
  lemma {:induction false} FilterAppend(xs: seq<Record>, ys: seq<Record>, k: Keep)
    ensures Filter(xs + ys, k) == Filter(xs, k) + Filter(ys, k)
  {
    if xs == [] {
      assert xs + ys == ys;
    } else {
      var zs := xs + ys;
      var head := if Keeps(k, xs[0]) then [xs[0]] else [];
      assert zs[0] == xs[0] && zs[1..] == xs[1..] + ys;
      FilterAppend(xs[1..], ys, k);
      assert Filter(xs, k) == head + Filter(xs[1..], k);
      assert Filter(zs, k) == head + (Filter(xs[1..], k) + Filter(ys, k));
      Associative(head, Filter(xs[1..], k), Filter(ys, k));
    }
  }

  lemma Associative(a: seq<Record>, b: seq<Record>, c: seq<Record>)
    ensures (a + b) + c == a + (b + c)
  {
  }

  /** A filter drops nothing exactly when every row passes it, and filtering twice filters once. */
  lemma FilterAll(xs: seq<Record>, k: Keep)
    ensures Filter(xs, k) == xs <==> forall x :: x in xs ==> Keeps(k, x)
    ensures Filter(Filter(xs, k), k) == Filter(xs, k)
  {
    FilterMembers(xs, k);
    if forall x :: x in xs ==> Keeps(k, x) {
      assert forall i :: 0 <= i < |xs| ==> xs[i] in xs;
      FilterKeepsEvery(xs, k);
    }
    FilterTwice(xs, k);
  }

  lemma {:induction false} FilterKeepsEvery(xs: seq<Record>, k: Keep)
    requires forall i :: 0 <= i < |xs| ==> Keeps(k, xs[i])
    ensures Filter(xs, k) == xs
  {
    if xs != [] {
      FilterKeepsEvery(xs[1..], k);
      ConsSplit(xs);
    }
  }

  lemma ConsSplit(xs: seq<Record>)
    requires xs != []
    ensures xs == [xs[0]] + xs[1..]
  {
  }

  lemma {:induction false} FilterTwice(xs: seq<Record>, k: Keep)
    ensures Filter(Filter(xs, k), k) == Filter(xs, k)
  {
    if xs != [] {
      FilterTwice(xs[1..], k);
      var head := if Keeps(k, xs[0]) then [xs[0]] else [];
      FilterAppend(head, Filter(xs[1..], k), k);
      assert Filter(head, k) == head by {
        if head != [] {
          assert head[1..] == [];
        }
      }
    }
  }

  /** A named saved row is a saved row: filtering the saved rows by name filters all rows by name. */
  lemma {:induction false} NamedAmongSaved(xs: seq<Record>)
    ensures Filter(xs, NamedNotDraft) == Filter(Filter(xs, NotDraft), NamedNotDraft)
  {
    if xs != [] {
      NamedAmongSaved(xs[1..]);
      var head := if Keeps(NotDraft, xs[0]) then [xs[0]] else [];
      FilterAppend(head, Filter(xs[1..], NotDraft), NamedNotDraft);
      if head != [] {
        assert head[1..] == [];
      }
    }
  }

  /** The ids of the named saved rows are among the ids of all saved rows. */
  lemma NamedIdsAmongSaved(xs: seq<Record>)
    ensures forall v :: v in IdsOf(Filter(xs, NamedNotDraft)) ==> v in IdsOf(Filter(xs, NotDraft))
  {
    var named := Filter(xs, NamedNotDraft);
    var saved := Filter(xs, NotDraft);
    FilterMembers(xs, NamedNotDraft);
    FilterMembers(xs, NotDraft);
    forall v | v in IdsOf(named)
      ensures v in IdsOf(saved)
    {
      var i :| 0 <= i < |named| && IdsOf(named)[i] == v;
      assert named[i] in saved;
      IdOfMember(saved, named[i]);
    }
  }

  lemma IdOfMember(xs: seq<Record>, x: Record)
    requires x in xs
    ensures IdOf(x) in IdsOf(xs)
  {
    var j :| 0 <= j < |xs| && xs[j] == x;
    assert IdsOf(xs)[j] == IdOf(x);
  }

  /** The search test passes every row for the empty query. */
  lemma EmptyQueryKeepsAll(xs: seq<Record>, f1: string, f2: string)
    ensures Filter(xs, Matching(f1, f2, "")) == xs
  {
    forall x | x in xs
      ensures Keeps(Matching(f1, f2, ""), x)
    {
      assert Text.Lower("") == "";
    }
    FilterAll(xs, Matching(f1, f2, ""));
  }

  /** A row appended under an id no earlier row has is what a lookup by that id finds, and removing the id takes it away again. */
  lemma {:induction false} AppendedRecord(xs: seq<Record>, x: Record)
    requires Absent(xs, IdOf(x))
    ensures Find(xs + [x], IdOf(x)) == Some(x)
    ensures RemoveId(xs + [x], IdOf(x)) == xs
  {
    var zs := xs + [x];
    var i := FindIndex(zs, IdOf(x));
    assert zs[|xs|] == x;
    forall j | 0 <= j < |xs|
      ensures IdOf(zs[j]) != IdOf(x)
    {
      assert zs[j] == xs[j] && xs[j] in xs;
    }
    if xs == [] {
      assert zs[1..] == [];
    } else {
      assert zs[0] == xs[0] && xs[0] in xs && zs[1..] == xs[1..] + [x];
      AppendedRecord(xs[1..], x);
    }
  }

  /** `cancelEdit`: the edited row is dropped only while it is a draft. */
  function CancelEditOf(xs: seq<Record>, editing: Value): seq<Record> {
    if Truthy(editing) && Find(xs, editing).Some? && IsDraft(Find(xs, editing).value) then RemoveId(xs, editing) else xs
  }

  /** `cancelEdit` removes rows only when the edited one is a draft, and then every row with its id. */
  lemma CancelKeepsSaved(xs: seq<Record>, editing: Value)
    ensures var r := CancelEditOf(xs, editing);
      && (forall x :: x in r ==> x in xs)
      && (forall x :: x in xs && IdOf(x) != editing ==> x in r)
      && (r != xs ==> Truthy(editing) && Find(xs, editing).Some? && IsDraft(Find(xs, editing).value) && Absent(r, editing))
  {
  }

  /** A draft appended under a fresh id is what `cancelEdit` removes again. */
  lemma CancelAppendedDraft(xs: seq<Record>, d: Record)
    requires IsDraft(d) && Truthy(IdOf(d)) && Absent(xs, IdOf(d))
    ensures CancelEditOf(xs + [d], IdOf(d)) == xs
  {
    AppendedRecord(xs, d);
  }

  // ---------------------------------------------------------------------------
  // Status buckets

  /** `stats[key] || 0` */
  function Lookup(stats: map<string, int>, key: string): int {
    if key in stats then stats[key] else 0
  }

  /** `stats[key] = (stats[key] || 0) + 1` */
  function Bump(stats: map<string, int>, key: string): map<string, int> {
    stats[key := Lookup(stats, key) + 1]
  }

  /** The bucket a saved row counts in: `row[field]` as a property key. */
  function Bucket(r: Record, field: string): string {
    JsString(Get(r, field))
  }

  /** The `forEach` over the rows: each saved row bumps its bucket; drafts are skipped. */
  function Tally(xs: seq<Record>, field: string, start: map<string, int>): map<string, int>
    decreases |xs|
  {
    if xs == [] then start
    else
      var s := Tally(xs[..|xs| - 1], field, start);
      var x := xs[|xs| - 1];
      if IsDraft(x) then s else Bump(s, Bucket(x, field))
  }

  /** The saved rows whose bucket is `key`. */
  function Count(xs: seq<Record>, field: string, key: string): nat {
    if xs == [] then 0
    else (if !IsDraft(xs[0]) && Bucket(xs[0], field) == key then 1 else 0) + Count(xs[1..], field, key)
  }

  /** The buckets some saved row falls in. */
  function Buckets(xs: seq<Record>, field: string): set<string> {
    set x | x in xs && !IsDraft(x) :: Bucket(x, field)
  }

  lemma {:induction false} CountAppend(xs: seq<Record>, x: Record, field: string, key: string)
    ensures Count(xs + [x], field, key) == Count(xs, field, key) + (if !IsDraft(x) && Bucket(x, field) == key then 1 else 0)
  {
    if xs != [] {
      assert (xs + [x])[1..] == xs[1..] + [x];
      CountAppend(xs[1..], x, field, key);
    }
  }

  /** One more row: a saved row raises exactly its own bucket by one; a draft changes nothing. */
  lemma TallyStep(xs: seq<Record>, x: Record, field: string, start: map<string, int>)
    ensures var before := Tally(xs, field, start);
      var after := Tally(xs + [x], field, start);
      && (IsDraft(x) ==> after == before)
      && (!IsDraft(x) ==>
        && after.Keys == before.Keys + {Bucket(x, field)}
        && Lookup(after, Bucket(x, field)) == Lookup(before, Bucket(x, field)) + 1
        && forall k :: k != Bucket(x, field) ==> Lookup(after, k) == Lookup(before, k))
  {
    assert (xs + [x])[..|xs|] == xs;
  }

  /** Every bucket ends at its starting value plus the number of saved rows that fall in it. */
  lemma {:induction false} TallyCounts(xs: seq<Record>, field: string, start: map<string, int>)
    ensures forall k :: Lookup(Tally(xs, field, start), k) == Lookup(start, k) + Count(xs, field, k)
    ensures Tally(xs, field, start).Keys == start.Keys + Buckets(xs, field)
    decreases |xs|
  {
    if xs != [] {
      var init := xs[..|xs| - 1];
      var x := xs[|xs| - 1];
      assert xs == init + [x];
      TallyCounts(init, field, start);
      TallyStep(init, x, field, start);
      forall k
        ensures Count(xs, field, k) == Count(init, field, k) + (if !IsDraft(x) && Bucket(x, field) == k then 1 else 0)
      {
        CountAppend(init, x, field, k);
      }
      assert Buckets(xs, field) == Buckets(init, field) + (if IsDraft(x) then {} else {Bucket(x, field)});
    }
  }
}
