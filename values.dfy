/** JSON-like values as the data layer stores them, with JavaScript truthiness and property access. */
module Values {
  import Text

  /** A field value of a stored record. `Undef` is a key that is present with the value `undefined`. */
  datatype Value = Str(s: string) | Arr(items: seq<string>) | Bool(b: bool) | Null | Undef

  /** A flat record: field name to value. A key that is absent is not in the map. */
  type Record = map<string, Value>

  /** JavaScript truthiness: the empty string, false, null and undefined are falsy; arrays are truthy. */
  predicate Truthy(v: Value) {
    match v
    case Str(s) => s != ""
    case Arr(_) => true
    case Bool(b) => b
    case Null => false
    case Undef => false
  }

  /** `item[field]`: an absent key reads as undefined. */
  function Get(r: Record, field: string): Value {
    if field in r then r[field] else Undef
  }

  /** `item.id` */
  function IdOf(r: Record): Value {
    Get(r, "id")
  }

  /** The ids held in a reference field; a field that is not an array holds none. */
  function Refs(v: Value): seq<string> {
    if v.Arr? then v.items else []
  }

  /** `v && v.includes(id)` for a reference field. */
  predicate RefersTo(v: Value, id: string) {
    v.Arr? && id in v.items
  }

  /** `xs.filter(x => x !== id)` */
  function Without(xs: seq<string>, id: string): (r: seq<string>)
    ensures id !in r
    ensures forall x :: x in r <==> x in xs && x != id
    ensures |r| <= |xs|
  {
    if xs == [] then [] else if xs[0] == id then Without(xs[1..], id) else [xs[0]] + Without(xs[1..], id)
  }

  /** `String(v)`, as used for object keys and template strings. */
  function JsString(v: Value): string {
    match v
    case Str(s) => s
    case Arr(xs) => Text.Join(xs, ",")
    case Bool(b) => if b then "true" else "false"
    case Null => "null"
    case Undef => "undefined"
  }

  /** `xs.indexOf(v)` with strict equality: the first position holding `v`, or -1. */
  function IndexOf(xs: seq<string>, v: Value): (i: int)
    ensures -1 <= i < |xs|
    ensures i >= 0 ==> v == Str(xs[i]) && forall j :: 0 <= j < i ==> v != Str(xs[j])
    ensures i == -1 <==> !(v.Str? && v.s in xs)
  {
    IndexFrom(xs, v, 0)
  }

  /** The first position from `k` on holding `v`, or -1. */
  function IndexFrom(xs: seq<string>, v: Value, k: nat): (i: int)
    requires k <= |xs|
    ensures -1 <= i < |xs|
    ensures i >= 0 ==> k <= i && v == Str(xs[i]) && forall j :: k <= j < i ==> v != Str(xs[j])
    ensures i == -1 <==> forall j :: k <= j < |xs| ==> v != Str(xs[j])
    decreases |xs| - k
  {
    if k == |xs| then -1
    else if v == Str(xs[k]) then k
    else IndexFrom(xs, v, k + 1)
  }

  /** In a list whose entry `i` does not occur earlier, `indexOf` finds it at `i`. */
  lemma IndexOfDistinct(xs: seq<string>, i: nat)
    requires i < |xs|
    requires forall j :: 0 <= j < i ==> xs[j] != xs[i]
    ensures IndexOf(xs, Str(xs[i])) == i
  {
    var k := IndexOf(xs, Str(xs[i]));
    assert k >= 0 by {
      assert xs[i] in xs;
    }
  }
}
