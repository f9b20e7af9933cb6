/** The saga orchestrator of libs/saga/src/saga-orchestrator.service.ts. */
module Saga {
  import opened Collections
  import opened Redis

  datatype Status = PENDING | COMPLETED | FAILED | COMPENSATING | COMPENSATED

  datatype Step = Step(stepId: string, compensation: Option<string>, status: Status,
                       result: Option<string>, error: Option<string>)

  datatype SagaState = SagaState(steps: seq<Step>, currentStep: nat, status: Status)

  /** A compensate that runs past the end of the steps crashes before it saves anything. */
  datatype Error = NotFound | Crash

  // ----- the calls, as functions of the saga -----

  function Created(steps: seq<(string, Option<string>)>): SagaState {
    var pending := seq(|steps|, i requires 0 <= i < |steps| => Step(steps[i].0, steps[i].1, PENDING, None, None));
    SagaState(pending, 0, PENDING)
  }

  function Executed(s: SagaState, result: string): SagaState {
    var steps := if s.currentStep < |s.steps|
                 then s.steps[s.currentStep := s.steps[s.currentStep].(status := COMPLETED, result := Some(result))]
                 else s.steps;
    SagaState(steps, s.currentStep + 1, if s.currentStep + 1 >= |s.steps| then COMPLETED else s.status)
  }

  function FailedStep(s: SagaState, error: string): SagaState {
    var steps := if s.currentStep < |s.steps|
                 then s.steps[s.currentStep := s.steps[s.currentStep].(status := FAILED, error := Some(error))]
                 else s.steps;
    SagaState(steps, s.currentStep, COMPENSATING)
  }

  predicate Compensable(step: Step) {
    step.status == COMPLETED && step.compensation.Some?
  }

  function Marked(step: Step): Step {
    if Compensable(step) then step.(status := COMPENSATING) else step
  }

  predicate Overshot(s: SagaState) {
    s.currentStep > |s.steps|
  }

  function Compensating(s: SagaState): SagaState
    requires !Overshot(s)
  {
    s.(steps := seq(|s.steps|, i requires 0 <= i < |s.steps| =>
                      if i < s.currentStep then Marked(s.steps[i]) else s.steps[i]))
  }

  function Settled(step: Step): Step {
    if step.status == COMPENSATING then step.(status := COMPENSATED) else step
  }

  function AllCompensated(s: SagaState): SagaState {
    s.(steps := seq(|s.steps|, i requires 0 <= i < |s.steps| => Settled(s.steps[i])), status := COMPENSATED)
  }

  /** `order` lists exactly the compensable steps before `n`, last one first. */
  ghost predicate ReverseOrder(s: SagaState, n: nat, order: seq<nat>) {
    && (forall a, b :: 0 <= a < b < |order| ==> order[a] > order[b])
    && (forall i: nat :: i in order <==> i < n && i < |s.steps| && Compensable(s.steps[i]))
  }

  class SagaOrchestrator {
    const redis: RedisService<SagaState>

    constructor (redis: RedisService<SagaState>)
      ensures this.redis == redis
    {
      this.redis := redis;
    }

    ghost function Loaded(id: string): Option<SagaState>
      reads this, redis
    {
      Redis.Lookup(redis.entries, redis.now, "saga:" + id)
    }

    method SaveSaga(id: string, saga: SagaState)
      modifies redis`entries
      ensures redis.entries == Put(old(redis.entries), redis.now, "saga:" + id, saga, 3600)
      ensures Loaded(id) == Some(saga)
    {
      redis.Set("saga:" + id, saga, 3600);
    }

    /** `id` is the generated saga id. */
    method CreateSaga(id: string, steps: seq<(string, Option<string>)>)
      modifies redis`entries
      ensures redis.entries == Put(old(redis.entries), redis.now, "saga:" + id, Created(steps), 3600)
      ensures Loaded(id) == Some(Created(steps))
    {
      var pending := seq(|steps|, i requires 0 <= i < |steps| => Step(steps[i].0, steps[i].1, PENDING, None, None));
      SaveSaga(id, SagaState(pending, 0, PENDING));
    }

    method ExecuteStep(id: string, stepResult: string) returns (r: Result<Option<Step>, Error>)
      modifies redis`entries
      ensures match old(Loaded(id))
              case None => r == Err(NotFound) && redis.entries == old(redis.entries)
              case Some(s) =>
                && redis.entries == Put(old(redis.entries), redis.now, "saga:" + id, Executed(s, stepResult), 3600)
                && Loaded(id) == Some(Executed(s, stepResult))
                && r == Ok(if s.currentStep + 1 < |s.steps| then Some(s.steps[s.currentStep + 1]) else None)
    {
      var found := redis.Get("saga:" + id);
      if found.None? {
        return Err(NotFound);
      }
      var saga := found.value;
      var steps := saga.steps;
      if saga.currentStep < |steps| {
        steps := steps[saga.currentStep := steps[saga.currentStep].(status := COMPLETED, result := Some(stepResult))];
      }
      var next := saga.currentStep + 1;
      if next >= |steps| {
        SaveSaga(id, SagaState(steps, next, COMPLETED));
        return Ok(None);
      }
      SaveSaga(id, SagaState(steps, next, saga.status));
      return Ok(Some(steps[next]));
    }

    method FailStep(id: string, error: string) returns (r: Result<(), Error>)
      modifies redis`entries
      ensures match old(Loaded(id))
              case None => r == Err(NotFound) && redis.entries == old(redis.entries)
              case Some(s) =>
                && redis.entries == Put(old(redis.entries), redis.now, "saga:" + id, FailedStep(s, error), 3600)
                && r == Ok(()) && Loaded(id) == Some(FailedStep(s, error))
    {
      var found := redis.Get("saga:" + id);
      if found.None? {
        return Err(NotFound);
      }
      var saga := found.value;
      var steps := saga.steps;
      if saga.currentStep < |steps| {
        steps := steps[saga.currentStep := steps[saga.currentStep].(status := FAILED, error := Some(error))];
      }
      SaveSaga(id, SagaState(steps, saga.currentStep, COMPENSATING));
      return Ok(());
    }

    /** Returns the steps to compensate, last executed first; `order` gives their indices. */
    method Compensate(id: string) returns (r: Result<seq<Step>, Error>, ghost order: seq<nat>)
      modifies redis`entries
      ensures match old(Loaded(id))
              case None => r == Err(NotFound) && redis.entries == old(redis.entries)
              case Some(s) =>
                if Overshot(s) then r == Err(Crash) && redis.entries == old(redis.entries)
                else
                  && redis.entries == Put(old(redis.entries), redis.now, "saga:" + id, Compensating(s), 3600)
                  && Loaded(id) == Some(Compensating(s))
                  && (forall k :: s.currentStep <= k < |s.steps| ==> Loaded(id).value.steps[k] == s.steps[k])
                  && (forall k :: 0 <= k < s.currentStep && k !in order ==> Loaded(id).value.steps[k] == s.steps[k])
                  && ReverseOrder(s, s.currentStep, order)
                  && r.Ok? && |r.value| == |order|
                  && forall k :: 0 <= k < |order| ==> order[k] < |s.steps| && r.value[k] == Marked(s.steps[order[k]])
    {
      order := [];
      var found := redis.Get("saga:" + id);
      if found.None? {
        return Err(NotFound), order;
      }
      var saga := found.value;
      var steps := saga.steps;
      var compensationSteps: seq<Step> := [];
      var i := saga.currentStep - 1;
      while i >= 0
        invariant -1 <= i < saga.currentStep && |steps| == |saga.steps|
        invariant i + 1 < saga.currentStep ==> !Overshot(saga)
        invariant forall k :: 0 <= k < |steps| ==>
                    steps[k] == if i < k < saga.currentStep then Marked(saga.steps[k]) else saga.steps[k]
        invariant |order| == |compensationSteps|
        invariant forall a, b :: 0 <= a < b < |order| ==> order[a] > order[b]
        invariant forall k: nat :: k in order <==> i < k < saga.currentStep && k < |steps| && Compensable(saga.steps[k])
        invariant forall k :: 0 <= k < |order| ==>
                    i < order[k] < |steps| && compensationSteps[k] == Marked(saga.steps[order[k]])
      {
        if i >= |steps| {
          return Err(Crash), order;
        }
        var step := steps[i];
        if step.status == COMPLETED && step.compensation.Some? {
          steps := steps[i := step.(status := COMPENSATING)];
          compensationSteps := compensationSteps + [steps[i]];
          order := order + [i];
        }
        i := i - 1;
      }
      assert steps == Compensating(saga).steps;
      SaveSaga(id, saga.(steps := steps));
      return Ok(compensationSteps), order;
    }

    method MarkCompensated(id: string) returns (r: Result<(), Error>)
      modifies redis`entries
      ensures match old(Loaded(id))
              case None => r == Err(NotFound) && redis.entries == old(redis.entries)
              case Some(s) =>
                && redis.entries == Put(old(redis.entries), redis.now, "saga:" + id, AllCompensated(s), 3600)
                && r == Ok(()) && Loaded(id) == Some(AllCompensated(s))
    {
      var found := redis.Get("saga:" + id);
      if found.None? {
        return Err(NotFound);
      }
      var saga := found.value;
      var steps := saga.steps;
      for k := 0 to |steps|
        invariant |steps| == |saga.steps|
        invariant forall m :: 0 <= m < |steps| ==> steps[m] == if m < k then Settled(saga.steps[m]) else saga.steps[m]
      {
        if steps[k].status == COMPENSATING {
          steps := steps[k := steps[k].(status := COMPENSATED)];
        }
      }
      assert steps == AllCompensated(saga).steps;
      SaveSaga(id, saga.(steps := steps, status := COMPENSATED));
      return Ok(());
    }
  }

  // ----- call sequences -----

  datatype Call = Execute(result: string) | Fail(error: string) | Compensate | MarkCompensated

  function Next(s: SagaState, c: Call): SagaState {
    match c
    case Execute(r) => Executed(s, r)
    case Fail(e) => FailedStep(s, e)
    case Compensate => if Overshot(s) then s else Compensating(s)
    case MarkCompensated => AllCompensated(s)
  }

  /** The saga after the first `i` calls on a newly created one. */
  function At(steps: seq<(string, Option<string>)>, calls: seq<Call>, i: nat): SagaState
    requires i <= |calls|
  {
    if i == 0 then Created(steps) else Next(At(steps, calls, i - 1), calls[i - 1])
  }

  function Executions(calls: seq<Call>, i: nat): nat
    requires i <= |calls|
  {
    if i == 0 then 0 else Executions(calls, i - 1) + if calls[i - 1].Execute? then 1 else 0
  }

  /** Call `b` is a compensate made after step `i` was executed and before any call past the last step. */
  predicate Covers(calls: seq<Call>, n: nat, b: nat, i: nat)
    requires b < |calls|
  {
    calls[b] == Compensate && i < Executions(calls, b) <= n
  }

  predicate CoveredBefore(calls: seq<Call>, n: nat, j: nat, i: nat)
    requires j <= |calls|
  {
    exists b :: 0 <= b < j && Covers(calls, n, b, i)
  }

  /** Compensation of step `i` was started by an earlier compensate and finished by a markCompensated after it. */
  predicate SettledBefore(calls: seq<Call>, n: nat, j: nat, i: nat)
    requires j <= |calls|
  {
    exists b, m :: 0 <= b < m < j && Covers(calls, n, b, i) && calls[m] == MarkCompensated
  }

  /** Call `b` executes, or fails, step `i`. */
  predicate Executes(calls: seq<Call>, b: nat, i: nat)
    requires b < |calls|
  {
    calls[b].Execute? && Executions(calls, b) == i
  }

  predicate FailsStep(calls: seq<Call>, b: nat, i: nat)
    requires b < |calls|
  {
    calls[b].Fail? && Executions(calls, b) == i
  }

  /** Of the first `j` calls, `b` is the last that fails step `i`. */
  predicate LastToFail(calls: seq<Call>, j: nat, b: nat, i: nat)
    requires b < j <= |calls|
  {
    FailsStep(calls, b, i) && forall c :: b < c < j ==> !FailsStep(calls, c, i)
  }

  predicate FailedBefore(calls: seq<Call>, j: nat, i: nat)
    requires j <= |calls|
  {
    exists b :: 0 <= b < j && FailsStep(calls, b, i)
  }

  /** The step is as its definition and the call history say, after `j` calls. */
  ghost predicate StatusFits(steps: seq<(string, Option<string>)>, calls: seq<Call>, j: nat, i: nat, step: Step)
    requires j <= |calls| && i < |steps|
  {
    && step.stepId == steps[i].0 && step.compensation == steps[i].1
    && step.status ==
       (if i >= Executions(calls, j) then if FailedBefore(calls, j, i) then FAILED else PENDING
        else if steps[i].1.None? || !CoveredBefore(calls, |steps|, j, i) then COMPLETED
        else if SettledBefore(calls, |steps|, j, i) then COMPENSATED
        else COMPENSATING)
  }

  /** The result is the executing call's; the error is that of the last call that failed the step. */
  ghost predicate OutputsFit(calls: seq<Call>, j: nat, i: nat, step: Step)
    requires j <= |calls|
  {
    && (i >= Executions(calls, j) ==> step.result == None)
    && (forall b :: 0 <= b < j && Executes(calls, b, i) ==> step.result == Some(calls[b].result))
    && (!FailedBefore(calls, j, i) ==> step.error == None)
    && (forall b: nat :: b < j && LastToFail(calls, j, b, i) ==> step.error == Some(calls[b].error))
  }

  /** Call `b` sets the status of the saga: it executes the last step or goes past it, fails, or marks. */
  predicate Sets(calls: seq<Call>, n: nat, b: nat, status: Status)
    requires b < |calls|
  {
    match calls[b]
    case Execute(_) => status == COMPLETED && Executions(calls, b) + 1 >= n
    case Fail(_) => status == COMPENSATING
    case MarkCompensated => status == COMPENSATED
    case Compensate => false
  }

  predicate SetsSome(calls: seq<Call>, n: nat, b: nat)
    requires b < |calls|
  {
    exists status :: Sets(calls, n, b, status)
  }

  /** The status of the saga is the one last set, or that of a new saga. */
  ghost predicate SagaFits(calls: seq<Call>, n: nat, j: nat, status: Status)
    requires j <= |calls|
  {
    && ((forall b :: 0 <= b < j ==> !SetsSome(calls, n, b)) ==> status == PENDING)
    && (forall b, set' ::
          0 <= b < j && Sets(calls, n, b, set') && (forall c :: b < c < j ==> !SetsSome(calls, n, c)) ==>
            status == set')
  }

  /**
   * The call sequence determines the saga. The current step counts the executions; a step is
   * completed from its execution until a compensate covers it, compensating until it is marked, and
   * compensated from then on; before its execution it is pending, or failed once a call fails it.
   */
  lemma {:induction false} CallsKeepOrder(steps: seq<(string, Option<string>)>, calls: seq<Call>, j: nat)
    requires j <= |calls|
    ensures var s := At(steps, calls, j);
            && s.currentStep == Executions(calls, j) && |s.steps| == |steps|
            && forall i :: 0 <= i < |steps| ==> StatusFits(steps, calls, j, i, s.steps[i])
  {
    if j > 0 {
      CallsKeepOrder(steps, calls, j - 1);
      var s, s' := At(steps, calls, j - 1), At(steps, calls, j);
      forall i | 0 <= i < |steps| ensures StatusFits(steps, calls, j, i, s'.steps[i]) {
        StepFits(steps, calls, j, i, s);
      }
    }
  }

  lemma StepFits(steps: seq<(string, Option<string>)>, calls: seq<Call>, j: nat, i: nat, s: SagaState)
    requires 0 < j <= |calls| && i < |steps| == |s.steps| && s.currentStep == Executions(calls, j - 1)
    requires StatusFits(steps, calls, j - 1, i, s.steps[i])
    ensures StatusFits(steps, calls, j, i, Next(s, calls[j - 1]).steps[i])
  {
    CoverStep(calls, |steps|, j, i);
    SettleStep(calls, |steps|, j, i);
    FailStepBefore(calls, j, i);
  }

  /** A step that some call has failed has a last call that failed it. */
  lemma {:induction false} SomeLastFail(calls: seq<Call>, j: nat, i: nat) returns (b: nat)
    requires j <= |calls| && FailedBefore(calls, j, i)
    ensures b < j && LastToFail(calls, j, b, i)
  {
    if FailsStep(calls, j - 1, i) {
      b := j - 1;
    } else {
      FailStepBefore(calls, j, i);
      b := SomeLastFail(calls, j - 1, i);
    }
  }

  lemma FailStepBefore(calls: seq<Call>, j: nat, i: nat)
    requires 0 < j <= |calls|
    ensures FailedBefore(calls, j, i) <==> FailedBefore(calls, j - 1, i) || FailsStep(calls, j - 1, i)
  {
    if FailedBefore(calls, j, i) {
      var b :| 0 <= b < j && FailsStep(calls, b, i);
      assert b < j - 1 ==> FailedBefore(calls, j - 1, i);
    }
  }

  /** A mark settles exactly the steps that were covered before. */
  lemma SettleStep(calls: seq<Call>, n: nat, j: nat, i: nat)
    requires 0 < j <= |calls|
    ensures SettledBefore(calls, n, j, i) <==>
            SettledBefore(calls, n, j - 1, i) || (calls[j - 1] == MarkCompensated && CoveredBefore(calls, n, j - 1, i))
    ensures SettledBefore(calls, n, j - 1, i) ==> CoveredBefore(calls, n, j - 1, i)
  {
    if SettledBefore(calls, n, j, i) {
      var b, m :| 0 <= b < m < j && Covers(calls, n, b, i) && calls[m] == MarkCompensated;
      if m < j - 1 {
        assert SettledBefore(calls, n, j - 1, i);
      } else {
        assert CoveredBefore(calls, n, j - 1, i);
      }
    }
    if SettledBefore(calls, n, j - 1, i) {
      var b, m :| 0 <= b < m < j - 1 && Covers(calls, n, b, i) && calls[m] == MarkCompensated;
      assert CoveredBefore(calls, n, j - 1, i);
    }
    if calls[j - 1] == MarkCompensated && CoveredBefore(calls, n, j - 1, i) {
      var b :| 0 <= b < j - 1 && Covers(calls, n, b, i);
      assert SettledBefore(calls, n, j, i);
    }
  }

  /** It also determines what every step holds, and the status of the saga. */
  lemma {:induction false} CallsDetermineOutputs(steps: seq<(string, Option<string>)>, calls: seq<Call>, j: nat)
    requires j <= |calls|
    ensures var s := At(steps, calls, j);
            && |s.steps| == |steps| && SagaFits(calls, |steps|, j, s.status)
            && forall i :: 0 <= i < |steps| ==> OutputsFit(calls, j, i, s.steps[i])
  {
    CallsKeepOrder(steps, calls, j);
    if j > 0 {
      CallsDetermineOutputs(steps, calls, j - 1);
      CallsKeepOrder(steps, calls, j - 1);
      var s, s' := At(steps, calls, j - 1), At(steps, calls, j);
      SagaStatusStep(calls, |steps|, j, s);
      forall i | 0 <= i < |steps| ensures OutputsFit(calls, j, i, s'.steps[i]) {
        OutputsStep(steps, calls, j, i, s);
      }
    }
  }

  lemma SagaStatusStep(calls: seq<Call>, n: nat, j: nat, s: SagaState)
    requires 0 < j <= |calls| && |s.steps| == n && s.currentStep == Executions(calls, j - 1)
    requires SagaFits(calls, n, j - 1, s.status)
    ensures SagaFits(calls, n, j, Next(s, calls[j - 1]).status)
  {
    var status := Next(s, calls[j - 1]).status;
    assert SetsSome(calls, n, j - 1) ==> Sets(calls, n, j - 1, status);
    assert !SetsSome(calls, n, j - 1) ==> !Sets(calls, n, j - 1, COMPLETED) && !Sets(calls, n, j - 1, COMPENSATING)
                                          && !Sets(calls, n, j - 1, COMPENSATED) && status == s.status;
    forall b, set' | 0 <= b < j && Sets(calls, n, b, set') && (forall c :: b < c < j ==> !SetsSome(calls, n, c))
      ensures status == set'
    {
      assert SetsSome(calls, n, b);
      assert b < j - 1 ==> !SetsSome(calls, n, j - 1);
    }
  }

  lemma OutputsStep(steps: seq<(string, Option<string>)>, calls: seq<Call>, j: nat, i: nat, s: SagaState)
    requires 0 < j <= |calls| && i < |steps| == |s.steps| && s.currentStep == Executions(calls, j - 1)
    requires OutputsFit(calls, j - 1, i, s.steps[i])
    ensures OutputsFit(calls, j, i, Next(s, calls[j - 1]).steps[i])
  {
    FailStepBefore(calls, j, i);
    StepOutputs(calls, j, i, s);
    var step' := Next(s, calls[j - 1]).steps[i];
    forall b | 0 <= b < j && Executes(calls, b, i) ensures step'.result == Some(calls[b].result) {
      if b < j - 1 {
        ExecutionsGrow(calls, b + 1, j - 1);
      }
    }
    forall b: nat | b < j && LastToFail(calls, j, b, i) ensures step'.error == Some(calls[b].error) {
      if b < j - 1 {
        assert LastToFail(calls, j - 1, b, i) && !FailsStep(calls, j - 1, i);
      }
    }
  }

  /** One call sets the result of the step it executes and the error of the step it fails, and no others. */
  lemma StepOutputs(calls: seq<Call>, j: nat, i: nat, s: SagaState)
    requires 0 < j <= |calls| && i < |s.steps| && s.currentStep == Executions(calls, j - 1)
    ensures var call, step, step' := calls[j - 1], s.steps[i], Next(s, calls[j - 1]).steps[i];
            && step'.result == (if Executes(calls, j - 1, i) then Some(call.result) else step.result)
            && step'.error == (if FailsStep(calls, j - 1, i) then Some(call.error) else step.error)
  {
  }

  lemma CoverStep(calls: seq<Call>, n: nat, j: nat, i: nat)
    requires 0 < j <= |calls|
    ensures CoveredBefore(calls, n, j, i) <==> CoveredBefore(calls, n, j - 1, i) || Covers(calls, n, j - 1, i)
    ensures CoveredBefore(calls, n, j - 1, i) ==> i < Executions(calls, j - 1)
  {
    if CoveredBefore(calls, n, j, i) {
      var b :| 0 <= b < j && Covers(calls, n, b, i);
      if b < j - 1 {
        assert CoveredBefore(calls, n, j - 1, i);
      }
    }
    if CoveredBefore(calls, n, j - 1, i) {
      var b :| 0 <= b < j - 1 && Covers(calls, n, b, i);
      ExecutionsGrow(calls, b, j - 1);
      assert CoveredBefore(calls, n, j, i);
    }
  }

  lemma {:induction false} ExecutionsGrow(calls: seq<Call>, i: nat, j: nat)
    requires i <= j <= |calls|
    ensures Executions(calls, i) <= Executions(calls, j)
  {
    if i < j {
      ExecutionsGrow(calls, i, j - 1);
    }
  }

  /** A compensate call crashes exactly when more steps were executed than there are. */
  lemma CompensateCrashesIff(steps: seq<(string, Option<string>)>, calls: seq<Call>, j: nat)
    requires j < |calls| && calls[j] == Compensate
    ensures Overshot(At(steps, calls, j)) <==> Executions(calls, j) > |steps|
  {
    CallsKeepOrder(steps, calls, j);
  }

  /** Call `j` is a compensate that returns step `i`. */
  ghost predicate Returns(steps: seq<(string, Option<string>)>, calls: seq<Call>, j: nat, i: nat)
    requires j < |calls|
  {
    var s := At(steps, calls, j);
    calls[j] == Compensate && !Overshot(s) && i < s.currentStep && i < |s.steps| && Compensable(s.steps[i])
  }

  /**
   * A call returns step `i` exactly when it is the first compensate, of those that do not crash,
   * after the step was executed, and the step has a compensation.
   */
  lemma ReturnedIffFirst(steps: seq<(string, Option<string>)>, calls: seq<Call>, j: nat, i: nat)
    requires j < |calls| && i < |steps|
    ensures Returns(steps, calls, j, i) <==>
            steps[i].1.Some? && Covers(calls, |steps|, j, i) && !CoveredBefore(calls, |steps|, j, i)
  {
    CallsKeepOrder(steps, calls, j);
    assert StatusFits(steps, calls, j, i, At(steps, calls, j).steps[i]);
  }

  /** Hence no step is returned by two compensate calls, whatever happens between them. */
  lemma ReturnedAtMostOnce(steps: seq<(string, Option<string>)>, calls: seq<Call>, a: nat, b: nat, i: nat)
    requires a < b < |calls| && i < |steps|
    requires Returns(steps, calls, a, i)
    ensures !Returns(steps, calls, b, i)
  {
    ReturnedIffFirst(steps, calls, a, i);
    ReturnedIffFirst(steps, calls, b, i);
  }
}
