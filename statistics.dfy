/** `getTaskStatistics` and `getSubtaskStatistics`: counting reducers over a collection. */
module Statistics {
  import opened Values
  import Schema
  import Lifecycle

  /** `rs.filter(r => r[field] === v).length` */
  function CountValue(rs: seq<Record>, field: string, v: string): (n: nat)
    ensures n <= |rs|
  {
    if rs == [] then 0
    else (if Get(rs[0], field) == Str(v) then 1 else 0) + CountValue(rs[1..], field, v)
  }

  /** The records whose `field` holds none of `allowed`. */
  function CountOther(rs: seq<Record>, field: string, allowed: seq<string>): (n: nat)
    ensures n <= |rs|
  {
    if rs == [] then 0
    else (if Schema.InList(Get(rs[0], field), allowed) then 0 else 1) + CountOther(rs[1..], field, allowed)
  }

  /** `t.subtaskIds && t.subtaskIds.length > 0`: a non-empty array, or a non-empty string. */
  predicate HasSubtasks(t: Record) {
    var v := Get(t, "subtaskIds");
    (v.Arr? && |v.items| > 0) || (v.Str? && |v.s| > 0)
  }

  function CountWithSubtasks(rs: seq<Record>): (n: nat)
    ensures n <= |rs|
  {
    if rs == [] then 0
    else (if HasSubtasks(rs[0]) then 1 else 0) + CountWithSubtasks(rs[1..])
  }

  datatype TaskStats = TaskStats(total: nat, complete: nat, pending: nat, overdue: nat, incomplete: nat, withSubtasks: nat)

  function TaskStatistics(tasks: seq<Record>): TaskStats {
    TaskStats(|tasks|, CountValue(tasks, "doneStatus", "complete"), CountValue(tasks, "doneStatus", "pending"),
      CountValue(tasks, "doneStatus", "overdue"), CountValue(tasks, "doneStatus", "incomplete"), CountWithSubtasks(tasks))
  }

  datatype SubtaskStats = SubtaskStats(total: nat, analyze: nat, development: nat, test: nat, production: nat)

  function SubtaskStatistics(subtasks: seq<Record>): SubtaskStats {
    SubtaskStats(|subtasks|, CountValue(subtasks, "taskType", "Analyze"), CountValue(subtasks, "taskType", "Development"),
      CountValue(subtasks, "taskType", "Test"), CountValue(subtasks, "taskType", "Production"))
  }

  /** Four distinct values partition the records together with the rest. */
  lemma {:induction false} FourBuckets(rs: seq<Record>, field: string, a: string, b: string, c: string, d: string)
    requires a != b && a != c && a != d && b != c && b != d && c != d
    ensures CountValue(rs, field, a) + CountValue(rs, field, b) + CountValue(rs, field, c) + CountValue(rs, field, d)
      + CountOther(rs, field, [a, b, c, d]) == |rs|
  {
    if rs != [] {
      FourBuckets(rs[1..], field, a, b, c, d);
    }
  }

  lemma {:induction false} NoOtherIff(rs: seq<Record>, field: string, allowed: seq<string>)
    ensures CountOther(rs, field, allowed) == 0 <==> forall r :: r in rs ==> Schema.InList(Get(r, field), allowed)
  {
    if rs != [] {
      NoOtherIff(rs[1..], field, allowed);
      assert rs == [rs[0]] + rs[1..];
    }
  }

  /**
   * Each task lands in at most one of the four status buckets; the buckets add up to `total`
   * exactly when every task has one of the four schema statuses; `withSubtasks` never exceeds `total`.
   */
  lemma TaskBuckets(tasks: seq<Record>)
    ensures var s := TaskStatistics(tasks);
      && s.complete + s.pending + s.overdue + s.incomplete <= s.total
      && (s.complete + s.pending + s.overdue + s.incomplete == s.total <==>
          forall t :: t in tasks ==> Schema.InList(Get(t, "doneStatus"), Schema.TaskStatuses))
      && s.withSubtasks <= s.total
  {
    FourBuckets(tasks, "doneStatus", "complete", "pending", "overdue", "incomplete");
    NoOtherIff(tasks, "doneStatus", ["complete", "pending", "overdue", "incomplete"]);
    forall v: Value ensures Schema.InList(v, ["complete", "pending", "overdue", "incomplete"]) <==> Schema.InList(v, Schema.TaskStatuses) {
    }
  }

  /** The four stage buckets add up to `total` exactly when every subtask is at a lifecycle stage. */
  lemma SubtaskBuckets(subtasks: seq<Record>)
    ensures var s := SubtaskStatistics(subtasks);
      && s.analyze + s.development + s.test + s.production <= s.total
      && (s.analyze + s.development + s.test + s.production == s.total <==>
          forall t :: t in subtasks ==> Lifecycle.IsStage(Get(t, "taskType")))
  {
    FourBuckets(subtasks, "taskType", "Analyze", "Development", "Test", "Production");
    NoOtherIff(subtasks, "taskType", Lifecycle.Stages);
  }
}
