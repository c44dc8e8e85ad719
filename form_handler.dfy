/**
 * The form handler: the validation rules, the per-field check with its fixed order of
 * messages, the whole-form check, and the serialisation of a form's key/value entries.
 * The handler holds no state of its own besides its rule table, so it is modelled as a
 * module of functions and methods.
 */
module FormHandler {
  import opened Wrappers
  import Text

  /**
   * What the browser decides and the model does not: the email pattern, `Date.parse`,
   * the numeric coercion, `parseInt` (`None` is NaN), the date comparison
   * `new Date(value) < new Date(min)` and `toLocaleDateString`.
   */
  datatype Foreign = Foreign(
    isEmail: string -> bool,
    parsesDate: string -> bool,
    isNumber: string -> bool,
    parseInt: string -> Option<int>,
    before: (string, string) -> bool,
    localeDate: string -> string)

  /**
   * An input, select or textarea as the checks see it: `type`, the `required` attribute,
   * the current value and the `data-min-length`, `data-max-length` and `data-min-date`
   * attributes, the empty string standing for an absent one.
   */
  datatype Field = Field(
    name: string, id: string, kind: string, required: bool, value: string,
    minLength: string, maxLength: string, minDate: string)

  // ---------------------------------------------------------------------------
  // Validation rules

  /** `value && value.trim().length > 0` */
  predicate Required(value: string) {
    value != "" && |Text.Trim(value)| > 0
  }

  /** `value && value.length >= min`; a NaN bound fails every comparison. */
  predicate MinLength(value: string, min: Option<int>) {
    value != "" && min.Some? && |value| >= min.value
  }

  /** `value && value.length <= max` */
  predicate MaxLength(value: string, max: Option<int>) {
    value != "" && max.Some? && |value| <= max.value
  }

  const RequiredMessage := "This field is required"

  /** The checks after the required test, in the order their messages are collected. */
  datatype Rule = EmailRule | DateRule | NumberRule | MinLengthRule | MaxLengthRule | MinDateRule

  /** When a rule reports its message for a non-empty value. */
  predicate Fails(env: Foreign, f: Field, r: Rule) {
    match r
    case EmailRule => f.kind == "email" && !env.isEmail(f.value)
    case DateRule => f.kind == "date" && !env.parsesDate(f.value)
    case NumberRule => f.kind == "number" && !env.isNumber(f.value)
    case MinLengthRule => f.minLength != "" && !MinLength(f.value, env.parseInt(f.minLength))
    case MaxLengthRule => f.maxLength != "" && !MaxLength(f.value, env.parseInt(f.maxLength))
    case MinDateRule => f.kind == "date" && f.minDate != "" && env.before(f.value, f.minDate)
  }

  function Message(env: Foreign, f: Field, r: Rule): string {
    match r
    case EmailRule => "Please enter a valid email address"
    case DateRule => "Please enter a valid date"
    case NumberRule => "Please enter a valid number"
    case MinLengthRule => "Minimum length is " + f.minLength + " characters"
    case MaxLengthRule => "Maximum length is " + f.maxLength + " characters"
    case MinDateRule => "Date must be after " + env.localeDate(f.minDate)
  }

  /** What one rule contributes: its message when it fails. */
  function Piece(env: Foreign, f: Field, r: Rule): seq<string> {
    if Fails(env, f, r) then [Message(env, f, r)] else []
  }

  /** The messages of the failing rules, in the fixed order email, date, number, minimum length, maximum length, earliest date. */
  function RuleErrors(env: Foreign, f: Field): seq<string> {
    Piece(env, f, EmailRule) + Piece(env, f, DateRule) + Piece(env, f, NumberRule)
    + Piece(env, f, MinLengthRule) + Piece(env, f, MaxLengthRule) + Piece(env, f, MinDateRule)
  }

  /**
   * The errors of one field: a required field left blank reports only that; an empty
   * optional field reports nothing; any other value reports each failing rule in order.
   */
  function FieldErrors(env: Foreign, f: Field): seq<string> {
    if f.required && Text.Trim(f.value) == "" then [RequiredMessage]
    else if f.value == "" then []
    else RuleErrors(env, f)
  }

  /** `validateField(field)`: the messages pushed one check after the other. */
  method ValidateField(env: Foreign, f: Field) returns (errors: seq<string>)
    ensures errors == FieldErrors(env, f)
  {
    errors := [];
    RequiredIsNotBlank(f.value);
    if f.required && !Required(f.value) {
      errors := errors + [RequiredMessage];
      return;
    }
    if f.value == "" {
      return;
    }
    errors := CheckRules(env, f);
  }

  /** The type-specific and attribute checks of `validateField`, each pushing its message. */
  method CheckRules(env: Foreign, f: Field) returns (errors: seq<string>)
    ensures errors == RuleErrors(env, f)
  {
    errors := [];
    if f.kind == "email" && !env.isEmail(f.value) {
      errors := errors + ["Please enter a valid email address"];
    }
    assert errors == Piece(env, f, EmailRule);
    if f.kind == "date" && !env.parsesDate(f.value) {
      errors := errors + ["Please enter a valid date"];
    }
    assert errors == Piece(env, f, EmailRule) + Piece(env, f, DateRule);
    if f.kind == "number" && !env.isNumber(f.value) {
      errors := errors + ["Please enter a valid number"];
    }
    assert errors == Piece(env, f, EmailRule) + Piece(env, f, DateRule) + Piece(env, f, NumberRule);
    if f.minLength != "" && !MinLength(f.value, env.parseInt(f.minLength)) {
      errors := errors + ["Minimum length is " + f.minLength + " characters"];
    }
    assert errors == Piece(env, f, EmailRule) + Piece(env, f, DateRule) + Piece(env, f, NumberRule)
      + Piece(env, f, MinLengthRule);
    if f.maxLength != "" && !MaxLength(f.value, env.parseInt(f.maxLength)) {
      errors := errors + ["Maximum length is " + f.maxLength + " characters"];
    }
    assert errors == Piece(env, f, EmailRule) + Piece(env, f, DateRule) + Piece(env, f, NumberRule)
      + Piece(env, f, MinLengthRule) + Piece(env, f, MaxLengthRule);
    if f.kind == "date" && f.minDate != "" && env.before(f.value, f.minDate) {
      errors := errors + ["Date must be after " + env.localeDate(f.minDate)];
    }
  }

  /** The required test passes exactly for a value that does not trim to nothing. */
  lemma RequiredIsNotBlank(value: string)
    ensures Required(value) <==> Text.Trim(value) != ""
  {
    if value == "" {
      assert Text.TrimStart(value) == "";
    }
  }

  /** No two rules share a message, and none says that the field is required. */
  lemma MessagesDistinct(env: Foreign, f: Field)
    ensures forall r :: Message(env, f, r) != RequiredMessage
    ensures forall r1, r2 :: r1 != r2 ==> Message(env, f, r1) != Message(env, f, r2)
  {
    var email, date, number := Message(env, f, EmailRule), Message(env, f, DateRule), Message(env, f, NumberRule);
    var min, max, after := Message(env, f, MinLengthRule), Message(env, f, MaxLengthRule), Message(env, f, MinDateRule);
    assert email[0] == date[0] == number[0] == 'P' && RequiredMessage[0] == 'T';
    assert email[21] == 'e' && date[21] == 'd' && number[21] == 'n';
    assert min[0] == max[0] == 'M' && min[1] == 'i' && max[1] == 'a';
    assert after[0] == 'D';
  }

  /**
   * Every message of a field names its cause: the required message appears exactly for a
   * required blank value, and then alone; a rule's message appears exactly when the value is
   * not empty, the required test passed, and the rule fails.
   */
  lemma ErrorsNameTheirRules(env: Foreign, f: Field)
    ensures RequiredMessage in FieldErrors(env, f) <==> f.required && Text.Trim(f.value) == ""
    ensures RequiredMessage in FieldErrors(env, f) ==> FieldErrors(env, f) == [RequiredMessage]
    ensures !f.required && f.value == "" ==> FieldErrors(env, f) == []
    ensures forall r :: Message(env, f, r) in FieldErrors(env, f) <==>
      !(f.required && Text.Trim(f.value) == "") && f.value != "" && Fails(env, f, r)
  {
    MessagesDistinct(env, f);
    assert RequiredMessage !in RuleErrors(env, f) by {
      assert forall r :: RequiredMessage !in Piece(env, f, r);
    }
    forall r
      ensures Message(env, f, r) in FieldErrors(env, f) <==>
        !(f.required && Text.Trim(f.value) == "") && f.value != "" && Fails(env, f, r)
    {
      if !(f.required && Text.Trim(f.value) == "") && f.value != "" {
        RuleMessageIff(env, f, r);
      }
    }
  }

  lemma RuleMessageIff(env: Foreign, f: Field, r: Rule)
    requires forall r1, r2 :: r1 != r2 ==> Message(env, f, r1) != Message(env, f, r2)
    ensures Message(env, f, r) in RuleErrors(env, f) <==> Fails(env, f, r)
  {
    var m := Message(env, f, r);
    assert forall r' :: m in Piece(env, f, r') <==> r' == r && Fails(env, f, r);
  }

  /** For a non-empty value, the length bounds pass exactly when the parsed bound is a number the length meets. */
  lemma LengthBounds(env: Foreign, f: Field)
    requires f.value != ""
    ensures !Fails(env, f, MinLengthRule) <==>
      f.minLength == "" || (env.parseInt(f.minLength).Some? && |f.value| >= env.parseInt(f.minLength).value)
    ensures !Fails(env, f, MaxLengthRule) <==>
      f.maxLength == "" || (env.parseInt(f.maxLength).Some? && |f.value| <= env.parseInt(f.maxLength).value)
  {
  }

  // ---------------------------------------------------------------------------
  // Whole-form check

  /** `input.name || input.id` */
  function KeyOf(f: Field): string {
    if f.name != "" then f.name else f.id
  }

  /** What the `forEach` learns from one field: the key it reports under and its errors. */
  type Report = (string, seq<string>)

  function Reports(env: Foreign, fs: seq<Field>): (r: seq<Report>)
    ensures |r| == |fs| && forall i :: 0 <= i < |fs| ==> r[i] == (KeyOf(fs[i]), FieldErrors(env, fs[i]))
  {
    seq(|fs|, i requires 0 <= i < |fs| => (KeyOf(fs[i]), FieldErrors(env, fs[i])))
  }

  /** The `errors` object after the `forEach`: a failing field sets its key; a passing one leaves the object alone. */
  function Collect(rs: seq<Report>): map<string, seq<string>>
    decreases |rs|
  {
    if rs == [] then map[]
    else
      var e := Collect(rs[..|rs| - 1]);
      var last := rs[|rs| - 1];
      if last.1 != [] then e[last.0 := last.1] else e
  }

  /** `rs[i]` is the last failing report under key `k`. */
  predicate LastFailing(rs: seq<Report>, i: int, k: string) {
    && 0 <= i < |rs| && rs[i].0 == k && rs[i].1 != []
    && forall j :: i < j < |rs| && rs[j].0 == k ==> rs[j].1 == []
  }

  lemma LastFailingExtends(init: seq<Report>, last: Report, i: int, k: string)
    requires LastFailing(init, i, k) && (last.1 == [] || last.0 != k)
    ensures LastFailing(init + [last], i, k)
  {
    var rs := init + [last];
    forall j | i < j < |rs| && rs[j].0 == k
      ensures rs[j].1 == []
    {
      if j < |init| {
        assert rs[j] == init[j];
      }
    }
  }

  /**
   * The form's errors hold only failing fields: each key holds the errors of the last
   * failing field with that key.
   */
  lemma {:induction false} CollectOnlyFailing(rs: seq<Report>)
    ensures forall k :: k in Collect(rs) ==> exists i :: LastFailing(rs, i, k) && Collect(rs)[k] == rs[i].1
    decreases |rs|
  {
    if rs != [] {
      var init := rs[..|rs| - 1];
      var last := rs[|rs| - 1];
      assert rs == init + [last];
      CollectOnlyFailing(init);
      var e := Collect(rs);
      forall k | k in e
        ensures exists i :: LastFailing(rs, i, k) && e[k] == rs[i].1
      {
        if last.1 != [] && k == last.0 {
          assert LastFailing(rs, |rs| - 1, k);
        } else {
          assert k in Collect(init) && e[k] == Collect(init)[k];
          var i :| LastFailing(init, i, k) && Collect(init)[k] == init[i].1;
          LastFailingExtends(init, last, i, k);
          assert rs[i] == init[i];
        }
      }
    }
  }

  /** Every failing field has its key in the form's errors. */
  lemma {:induction false} CollectReportsFailing(rs: seq<Report>)
    ensures forall i :: 0 <= i < |rs| && rs[i].1 != [] ==> rs[i].0 in Collect(rs)
    decreases |rs|
  {
    if rs != [] {
      var init := rs[..|rs| - 1];
      CollectReportsFailing(init);
      forall i | 0 <= i < |init|
        ensures rs[i] == init[i]
      {
      }
    }
  }

  /** No report carries an error. */
  predicate AllPass(rs: seq<Report>) {
    forall i :: 0 <= i < |rs| ==> rs[i].1 == []
  }

  lemma AllPassSnoc(rs: seq<Report>, i: nat)
    requires i < |rs|
    ensures AllPass(rs[..i + 1]) <==> AllPass(rs[..i]) && rs[i].1 == []
  {
    assert forall j :: 0 <= j < i ==> rs[..i + 1][j] == rs[..i][j];
    assert rs[..i + 1][i] == rs[i];
  }

  /**
   * `validateForm(form)`: every field is checked in document order; the form is valid
   * exactly when no field has errors, that is, when the errors object is empty.
   */
  method ValidateForm(env: Foreign, inputs: seq<Field>) returns (isValid: bool, errors: map<string, seq<string>>)
    ensures errors == Collect(Reports(env, inputs))
    ensures isValid <==> forall i :: 0 <= i < |inputs| ==> FieldErrors(env, inputs[i]) == []
    ensures isValid <==> errors == map[]
  {
    ghost var rs := Reports(env, inputs);
    errors := map[];
    isValid := true;
    for i := 0 to |inputs|
      invariant errors == Collect(rs[..i])
      invariant isValid <==> AllPass(rs[..i])
    {
      var fieldErrors := ValidateField(env, inputs[i]);
      assert rs[i] == (KeyOf(inputs[i]), fieldErrors);
      AllPassSnoc(rs, i);
      if |fieldErrors| > 0 {
        errors := errors[KeyOf(inputs[i]) := fieldErrors];
        isValid := false;
      }
      assert rs[..i + 1][..i] == rs[..i] && rs[..i + 1][i] == rs[i];
    }
    assert rs[..|inputs|] == rs;
    ValidIffNoErrors(rs);
  }

  /** All reports pass exactly when the collected errors are empty. */
  lemma ValidIffNoErrors(rs: seq<Report>)
    ensures AllPass(rs) <==> Collect(rs) == map[]
  {
    CollectReportsFailing(rs);
    CollectOnlyFailing(rs);
    if !AllPass(rs) {
      var i :| 0 <= i < |rs| && rs[i].1 != [];
      assert rs[i].0 in Collect(rs);
    }
  }

  // ---------------------------------------------------------------------------
  // Serialisation

  /** A property of the serialised object: one string, or the strings of a repeated key. */
  datatype FormValue = One(s: string) | Many(items: seq<string>)

  /** `if (data[key])`: an empty string is falsy, an array never. */
  predicate Truthy(v: FormValue) {
    v.Many? || v.s != ""
  }

  /** The property after one more entry `value` for a key that held `prev`. */
  function Step(prev: Option<FormValue>, value: string): FormValue {
    if prev.Some? && Truthy(prev.value) then
      match prev.value
      case Many(items) => Many(items + [value])
      case One(s) => Many([s, value])
    else One(value)
  }

  /** The object the `for` loop builds from the entries seen so far. */
  function Serialized(entries: seq<(string, string)>): map<string, FormValue>
    decreases |entries|
  {
    if entries == [] then map[]
    else
      var data := Serialized(entries[..|entries| - 1]);
      var e := entries[|entries| - 1];
      data[e.0 := Step(if e.0 in data then Some(data[e.0]) else None, e.1)]
  }

  /** `serializeForm(form)` over the `FormData` entries. */
  method SerializeForm(entries: seq<(string, string)>) returns (data: map<string, FormValue>)
    ensures data == Serialized(entries)
  {
    data := map[];
    for i := 0 to |entries|
      invariant data == Serialized(entries[..i])
    {
      var (key, value) := entries[i];
      if key in data && Truthy(data[key]) {
        if data[key].Many? {
          data := data[key := Many(data[key].items + [value])];
        } else {
          data := data[key := Many([data[key].s, value])];
        }
      } else {
        data := data[key := One(value)];
      }
      assert entries[..i + 1][..i] == entries[..i];
    }
    assert entries[..|entries|] == entries;
  }

  /** The values of the entries with this key, in entry order. */
  function ValuesOf(entries: seq<(string, string)>, key: string): seq<string>
    decreases |entries|
  {
    if entries == [] then []
    else ValuesOf(entries[..|entries| - 1], key) + (if entries[|entries| - 1].0 == key then [entries[|entries| - 1].1] else [])
  }

  /**
   * What a key's values become, read from its values alone: a single value stays a string;
   * a leading empty string is overwritten by the next value; from the first non-empty value
   * on, two or more values are kept together, in order.
   */
  function Group(vals: seq<string>): FormValue
    requires vals != []
  {
    if |vals| == 1 then One(vals[0])
    else if vals[0] == "" then Group(vals[1..])
    else Many(vals)
  }

  lemma {:induction false} GroupSnoc(vals: seq<string>, value: string)
    requires vals != []
    ensures Step(Some(Group(vals)), value) == Group(vals + [value])
  {
    if |vals| > 1 && vals[0] == "" {
      assert (vals + [value])[1..] == vals[1..] + [value];
      GroupSnoc(vals[1..], value);
    }
  }

  /** The serialised object has a property for each key in the entries, and it is the group of that key's values. */
  lemma {:induction false} SerializedGroups(entries: seq<(string, string)>)
    ensures forall key :: key in Serialized(entries) <==> ValuesOf(entries, key) != []
    ensures forall key :: key in Serialized(entries) ==> Serialized(entries)[key] == Group(ValuesOf(entries, key))
    decreases |entries|
  {
    if entries != [] {
      var init := entries[..|entries| - 1];
      var k, v := entries[|entries| - 1].0, entries[|entries| - 1].1;
      SerializedGroups(init);
      var before, after := Serialized(init), Serialized(entries);
      forall key
        ensures key in after <==> ValuesOf(entries, key) != []
        ensures key in after ==> after[key] == Group(ValuesOf(entries, key))
      {
        assert ValuesOf(entries, key) == ValuesOf(init, key) + (if key == k then [v] else []);
        if key == k {
          if ValuesOf(init, k) == [] {
            assert ValuesOf(entries, k) == [v];
          } else {
            GroupSnoc(ValuesOf(init, k), v);
          }
        } else {
          assert ValuesOf(entries, key) == ValuesOf(init, key);
        }
      }
    }
  }

  /**
   * The shapes of a property: a key seen once is a string; a key seen several times whose
   * first value is not empty is the array of all its values in order; an empty first value
   * is overwritten rather than grouped.
   */
  lemma SerializeShapes(entries: seq<(string, string)>, key: string)
    ensures var vals := ValuesOf(entries, key);
      && (vals == [] <==> key !in Serialized(entries))
      && (|vals| == 1 ==> key in Serialized(entries) && Serialized(entries)[key] == One(vals[0]))
      && (|vals| >= 2 && vals[0] != "" ==> key in Serialized(entries) && Serialized(entries)[key] == Many(vals))
      && (|vals| >= 2 && vals[0] == "" ==> key in Serialized(entries) && Serialized(entries)[key] == Group(vals[1..]))
  {
    SerializedGroups(entries);
  }
}
