/** The forward-only subtask lifecycle Analyze < Development < Test < Production. */
module Lifecycle {
  import opened Values
  import opened Wrappers

  const Stages: seq<string> := ["Analyze", "Development", "Test", "Production"]

  /** Position of a `taskType` value in the lifecycle, -1 when it is not a stage. */
  function StageIndex(v: Value): int {
    IndexOf(Stages, v)
  }

  predicate IsStage(v: Value) {
    v.Str? && v.s in Stages
  }

  datatype StageError =
    | InvalidTaskType                    // data layer: one of the two stages is unknown
    | InvalidCurrentStage(current: Value)
    | InvalidNewStage(next: Value)
    | InvalidStage(stage: Value)
    | Regression(from: Value, to: Value)
    | AlreadyFinal

  /** The data layer's guard: both values must be stages and the new one must not come earlier. */
  function ValidateSubtaskProgression(current: Value, next: Value): (r: Option<StageError>)
    ensures r == None <==> IsStage(current) && IsStage(next) && StageIndex(next) >= StageIndex(current)
    ensures r.Some? && IsStage(current) && IsStage(next) ==> r == Some(Regression(current, next))
  {
    var ci := StageIndex(current);
    var ni := StageIndex(next);
    if ci == -1 || ni == -1 then Some(InvalidTaskType)
    else if ni < ci then Some(Regression(current, next))
    else None
  }

  /** Every ordered pair of stages is accepted exactly when it does not go backwards. */
  lemma {:induction false} ProgressionOrder(i: nat, j: nat)
    requires i < |Stages| && j < |Stages|
    ensures ValidateSubtaskProgression(Str(Stages[i]), Str(Stages[j])) == None <==> j >= i
  {
    StageIndexOfStage(i);
    StageIndexOfStage(j);
  }

  lemma StageIndexOfStage(i: nat)
    requires i < |Stages|
    ensures StageIndex(Str(Stages[i])) == i
  {
    var k := StageIndex(Str(Stages[i]));
    assert k >= 0 && Stages[k] == Stages[i];
  }
}
