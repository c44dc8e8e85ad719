/** Per-kind counters that hand out ids of the form `kind_NNN`. */
module Ids {
  import opened Wrappers

  const Kinds: set<string> := {"proj", "idea", "event", "task", "subtask", "effort", "comment"}

  /** Every counter at 1. */
  const Initial: map<string, int> := map k | k in Kinds :: 1

  predicate IsDigit(ch: char) {
    '0' <= ch <= '9'
  }

  function DigitChar(d: nat): char
    requires d < 10
  {
    "0123456789"[d]
  }

  function DigitValue(ch: char): (d: nat)
    requires IsDigit(ch)
    ensures d < 10
  {
    if ch == '0' then 0 else if ch == '1' then 1 else if ch == '2' then 2 else if ch == '3' then 3
    else if ch == '4' then 4 else if ch == '5' then 5 else if ch == '6' then 6 else if ch == '7' then 7
    else if ch == '8' then 8 else 9
  }

  /** `String(n)` for a non-negative integer. */
  function Decimal(n: nat): (s: string)
    ensures |s| >= 1 && forall i :: 0 <= i < |s| ==> IsDigit(s[i])
    ensures n >= 1 ==> s[0] != '0'
  {
    if n < 10 then [DigitChar(n)] else Decimal(n / 10) + [DigitChar(n % 10)]
  }

  /** The value of a string of decimal digits. */
  function ParseDecimal(s: string): nat
    requires forall i :: 0 <= i < |s| ==> IsDigit(s[i])
  {
    if s == [] then 0 else ParseDecimal(s[..|s| - 1]) * 10 + DigitValue(s[|s| - 1])
  }

  /** `s.padStart(width, ch)` */
  function PadStart(s: string, width: nat, ch: char): (r: string)
    ensures |r| >= width && |r| >= |s|
    ensures r[|r| - |s|..] == s
    ensures forall i :: 0 <= i < |r| - |s| ==> r[i] == ch
  {
    if |s| >= width then s else seq(width - |s|, _ => ch) + s
  }

  /** Drop leading zeros. */
  function StripZeros(s: string): string {
    if s != [] && s[0] == '0' then StripZeros(s[1..]) else s
  }

  /** `${type}_${String(n).padStart(3, '0')}` */
  function FormatId(kind: string, n: nat): string {
    kind + "_" + PadStart(Decimal(n), 3, '0')
  }

  lemma {:induction false} ParseDecimalOfDecimal(n: nat)
    ensures ParseDecimal(Decimal(n)) == n
  {
    var s := Decimal(n);
    if n < 10 {
      DigitRoundTrip(n);
      assert s[..0] == [];
    } else {
      ParseDecimalOfDecimal(n / 10);
      assert s[..|s| - 1] == Decimal(n / 10);
      DigitRoundTrip(n % 10);
      assert ParseDecimal(s) == (n / 10) * 10 + n % 10;
    }
  }

  lemma DigitRoundTrip(d: nat)
    requires d < 10
    ensures IsDigit(DigitChar(d)) && DigitValue(DigitChar(d)) == d
  {
  }

  lemma {:induction false} StripPadding(pad: string, s: string)
    requires forall i :: 0 <= i < |pad| ==> pad[i] == '0'
    requires s != [] && s[0] != '0'
    ensures StripZeros(pad + s) == s
    decreases |pad|
  {
    if pad == [] {
      assert pad + s == s;
    } else {
      assert (pad + s)[1..] == pad[1..] + s;
      StripPadding(pad[1..], s);
    }
  }

  /** The counter can be read back from the digits of a formatted id. */
  lemma CounterOfDigits(n: nat)
    requires n >= 1
    ensures var p := PadStart(Decimal(n), 3, '0');
      StripZeros(p) == Decimal(n) && ParseDecimal(StripZeros(p)) == n
  {
    var d := Decimal(n);
    var p := PadStart(d, 3, '0');
    assert p == p[..|p| - |d|] + d;
    StripPadding(p[..|p| - |d|], d);
    ParseDecimalOfDecimal(n);
  }

  /** The position of the first `_`, or the length when there is none. */
  function FirstSeparator(s: string): nat {
    if s == [] || s[0] == '_' then 0 else 1 + FirstSeparator(s[1..])
  }

  lemma {:induction false} FirstSeparatorAfter(a: string, x: string)
    requires '_' !in a
    ensures FirstSeparator(a + "_" + x) == |a|
  {
    if a != [] {
      assert (a + "_" + x)[1..] == a[1..] + "_" + x;
      assert a[0] in a;
      FirstSeparatorAfter(a[1..], x);
    }
  }

  lemma SplitAtSeparator(a: string, b: string, x: string, y: string)
    requires '_' !in a && '_' !in b
    requires a + "_" + x == b + "_" + y
    ensures a == b && x == y
  {
    FirstSeparatorAfter(a, x);
    FirstSeparatorAfter(b, y);
    assert a == (a + "_" + x)[..|a|];
    assert b == (b + "_" + y)[..|b|];
    assert x == (a + "_" + x)[|a| + 1..];
    assert y == (b + "_" + y)[|b| + 1..];
  }

  lemma KindHasNoSeparator(k: string)
    requires k in Kinds
    ensures '_' !in k
  {
    if k == "proj" {
    } else if k == "idea" {
    } else if k == "event" {
    } else if k == "task" {
    } else if k == "subtask" {
    } else if k == "effort" {
    } else {
      assert k == "comment";
    }
  }

  /** Two ids of known kinds with positive counters are equal only if kind and counter are. */
  lemma FormatIdInjective(k1: string, n1: nat, k2: string, n2: nat)
    requires k1 in Kinds && k2 in Kinds && n1 >= 1 && n2 >= 1
    ensures FormatId(k1, n1) == FormatId(k2, n2) <==> k1 == k2 && n1 == n2
  {
    if FormatId(k1, n1) == FormatId(k2, n2) {
      KindHasNoSeparator(k1);
      KindHasNoSeparator(k2);
      var p1 := PadStart(Decimal(n1), 3, '0');
      var p2 := PadStart(Decimal(n2), 3, '0');
      SplitAtSeparator(k1, k2, p1, p2);
      CounterOfDigits(n1);
      CounterOfDigits(n2);
    }
  }

  datatype IdError = UnknownIdType(kind: string)

  /** Every issued id was formatted from a counter value below the current one of its kind. */
  ghost predicate IssuedBelow(issued: set<string>, counters: map<string, int>) {
    forall s :: s in issued ==> exists k, n :: k in Kinds && k in counters && 1 <= n < counters[k] && s == FormatId(k, n)
  }

  /** Handing out `kind_n` and bumping that counter keeps every issued id below its counter. */
  lemma IssueNext(issued: set<string>, counters: map<string, int>, kind: string)
    requires IssuedBelow(issued, counters) && kind in Kinds && kind in counters && counters[kind] >= 1
    ensures FormatId(kind, counters[kind]) !in issued
    ensures IssuedBelow(issued + {FormatId(kind, counters[kind])}, counters[kind := counters[kind] + 1])
  {
    var n := counters[kind];
    if FormatId(kind, n) in issued {
      var k', n' :| k' in Kinds && k' in counters && 1 <= n' < counters[k'] && FormatId(kind, n) == FormatId(k', n');
      FormatIdInjective(kind, n, k', n');
    }
    var counters' := counters[kind := n + 1];
    forall s | s in issued + {FormatId(kind, n)}
      ensures exists k, m :: k in Kinds && k in counters' && 1 <= m < counters'[k] && s == FormatId(k, m)
    {
      if s == FormatId(kind, n) {
        assert kind in Kinds && kind in counters' && 1 <= n < counters'[kind];
      } else {
        var k, m :| k in Kinds && k in counters && 1 <= m < counters[k] && s == FormatId(k, m);
        assert k in counters' && 1 <= m < counters'[k];
      }
    }
  }

  /** `setCounter`'s stored value: `Math.max(1, parseInt(value) || 1)`; `None` is a value that does not parse. */
  function ClampCounter(value: Option<int>): (n: int)
    ensures n >= 1
    ensures value.Some? && value.value >= 1 ==> n == value.value
    ensures value.None? || value.value < 1 ==> n == 1
  {
    match value
    case None => 1
    case Some(v) => if v == 0 then 1 else if v > 1 then v else 1
  }

  class IdGenerator {
    var counters: map<string, int>
    /** The ids handed out since the counters were last reset or set. */
    ghost var issued: set<string>

    ghost predicate Valid()
      reads this
    {
      && counters.Keys == Kinds
      && (forall k :: k in counters ==> counters[k] >= 1)
      && IssuedBelow(issued, counters)
    }

    constructor ()
      ensures Valid() && counters == Initial && issued == {}
    {
      counters := Initial;
      issued := {};
    }

    /** `getNextId(type)`: the id the next `generateId(type)` returns. */
    function GetNextId(kind: string): (r: Result<string, IdError>)
      reads this
      requires Valid()
      ensures kind !in Kinds <==> r == Failure(UnknownIdType(kind))
      ensures r.Success? ==> r.value == FormatId(kind, counters[kind]) && |r.value| >= |kind| + 4
    {
      if kind !in counters then Failure(UnknownIdType(kind)) else Success(FormatId(kind, counters[kind]))
    }

    /** `generateId(type)`: the next id of that kind; bumps that counter only. Ids never repeat until a reset. */
    method GenerateId(kind: string) returns (r: Result<string, IdError>)
      requires Valid()
      modifies this
      ensures Valid()
      ensures r == old(GetNextId(kind))
      ensures kind !in Kinds ==> counters == old(counters) && issued == old(issued)
      ensures kind in Kinds ==> counters == old(counters)[kind := old(counters)[kind] + 1]
      ensures r.Success? ==> r.value !in old(issued) && issued == old(issued) + {r.value}
    {
      if kind !in counters {
        return Failure(UnknownIdType(kind));
      }
      var n := counters[kind];
      var id := FormatId(kind, n);
      IssueNext(issued, counters, kind);
      counters := counters[kind := n + 1];
      issued := issued + {id};
      return Success(id);
    }

    /** `setCounter(type, value)` */
    method SetCounter(kind: string, value: Option<int>) returns (r: Result<(), IdError>)
      requires Valid()
      modifies this
      ensures Valid()
      ensures kind !in Kinds ==> r == Failure(UnknownIdType(kind)) && counters == old(counters) && issued == old(issued)
      ensures kind in Kinds ==> r.Success? && counters == old(counters)[kind := ClampCounter(value)] && issued == {}
    {
      if kind !in counters {
        return Failure(UnknownIdType(kind));
      }
      counters := counters[kind := ClampCounter(value)];
      issued := {};
      return Success(());
    }

    /** `resetCounters()` */
    method ResetCounters()
      requires Valid()
      modifies this
      ensures Valid() && counters == Initial && issued == {}
    {
      counters := Initial;
      issued := {};
    }

    /** `getAllCounters()`: a copy of the counters, one per kind, each at least 1. */
    function GetAllCounters(): (r: map<string, int>)
      reads this
      requires Valid()
      ensures r.Keys == Kinds && forall k :: k in r ==> r[k] >= 1 && r[k] == counters[k]
    {
      counters
    }
  }

  /** `generateId(kind)` for a kind the caller names literally: it is known, so the call cannot fail. */
  method NewId(gen: IdGenerator, kind: string) returns (id: string)
    requires gen.Valid() && kind in Kinds
    modifies gen
    ensures gen.Valid()
    ensures id == FormatId(kind, old(gen.counters)[kind]) && id !in old(gen.issued)
    ensures gen.counters == old(gen.counters)[kind := old(gen.counters)[kind] + 1]
  {
    var r := gen.GenerateId(kind);
    id := r.value;
  }
}
