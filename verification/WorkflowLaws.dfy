// What a step does to a run, in terms of the step's own fields and of what its action replied.
module WorkflowLaws {
  import opened Wrappers
  import opened WorkflowModel
  import opened WorkflowSemantics
  import opened WorkflowTheorems

  // ----- Conditions -----

  // Equality is of values; "greater" holds only between two numbers of a JSON document.
  ghost predicate Holds(c: Condition, v: Value) {
    || (c.operator == Eq && v == c.value)
    || (c.operator == Neq && !(v == c.value))
    || (c.operator == Gt && exists r, bound :: v == Number(r) && c.value == Number(bound) && bound < r)
  }

  // Go cannot compare a map with a map, or a list with a list.
  ghost predicate Clashes(c: Condition, v: Value) {
    && c.operator in {Eq, Neq}
    && (((v.Object? || v == Itself) && (c.value.Object? || c.value == Itself)) || (v.List? && c.value.List?))
  }

  ghost predicate Decides(c: Condition, vars: Variables) {
    c.field in vars && (Holds(c, vars[c.field]) || Clashes(c, vars[c.field]))
  }

  ghost predicate FirstToDecide(conditions: seq<Condition>, vars: Variables, i: int) {
    && 0 <= i < |conditions| && Decides(conditions[i], vars)
    && forall j :: 0 <= j < i ==> !Decides(conditions[j], vars)
  }

  lemma MatchesIsHolds(c: Condition, vars: Variables)
    ensures Matches(c, vars) <==> c.field in vars && Holds(c, vars[c.field])
    ensures PanicsOn(c, vars) <==> c.field in vars && Clashes(c, vars[c.field])
  {
    if c.field in vars && c.operator == Gt && Matches(c, vars) {
      assert vars[c.field] == Number(vars[c.field].r) && c.value == Number(c.value.r);
    }
  }

  // The first condition that decides does: a clash panics, and otherwise its next step is the
  // result; the result is empty when none decides.
  lemma {:induction false} FirstConditionDecides(conditions: seq<Condition>, vars: Variables)
    ensures forall i :: FirstToDecide(conditions, vars, i) ==>
              EvaluateConditions(conditions, vars) ==
              if Clashes(conditions[i], vars[conditions[i].field]) then None else Some(conditions[i].nextStep)
    ensures (forall c :: c in conditions ==> !Decides(c, vars)) ==> EvaluateConditions(conditions, vars) == Some("")
  {
    if conditions != [] {
      var rest := conditions[1..];
      MatchesIsHolds(conditions[0], vars);
      FirstConditionDecides(rest, vars);
      assert conditions[0] in conditions && forall c :: c in rest ==> c in conditions;
      forall i | FirstToDecide(conditions, vars, i)
        ensures EvaluateConditions(conditions, vars) ==
                if Clashes(conditions[i], vars[conditions[i].field]) then None else Some(conditions[i].nextStep)
      {
        if i > 0 {
          assert !Decides(conditions[0], vars);
          assert forall j :: 0 <= j < i - 1 ==> rest[j] == conditions[j + 1];
          assert FirstToDecide(rest, vars, i - 1);
        }
      }
    }
  }

  // The three operators that are implemented: unequal is the negation of equal, greater is strict
  // and kept when the variable grows, and no other operator ever holds.
  lemma OperatorsMean(c: Condition, v: Value, r: real, more: real)
    ensures c.operator == Eq ==> (Holds(c, v) <==> !Holds(c.(operator := Neq), v))
    ensures c.operator == Gt && c.value == Number(r) ==> !Holds(c, Number(r)) && (more > r ==> Holds(c, Number(more)))
    ensures c.operator == Gt && more > r && Holds(c, Number(r)) ==> Holds(c, Number(more))
    ensures c.operator == Gt && !v.Number? ==> !Holds(c, v)
    ensures c.operator.OtherOperator? ==> !Holds(c, v)
  {
  }

  // ----- Where a step leads -----

  // The successor a step has of its own: the next step it names, else that of its first condition,
  // else none.
  ghost predicate OwnSuccessor(step: Step, id: string) {
    match step.nextStepID
    case Some(next) => if next == "" then FirstNext(step.conditions, id) else id == next
    case None => FirstNext(step.conditions, id)
  }

  ghost predicate FirstNext(conditions: seq<Condition>, id: string) {
    if |conditions| == 0 then id == "" else id == conditions[0].nextStep
  }

  // Where a run goes after one of its visits.
  function WhereNext(wf: Workflow, trace: seq<Visit>, k: nat): string
    requires |wf.steps| > 0 && k < |trace|
  {
    NextAfter(wf, trace[..k + 1])
  }

  // A run goes where the action says, and otherwise to the step's own successor.
  lemma StepLeadsOn(wf: Workflow, trace: seq<Visit>, k: nat)
    requires |wf.steps| > 0 && k < |trace|
    ensures var v := trace[k];
            if v.Tried? && v.last.result.nextStepID != "" then WhereNext(wf, trace, k) == v.last.result.nextStepID
            else OwnSuccessor(v.step, WhereNext(wf, trace, k))
  {
    assert trace[..k + 1][k] == trace[k];
  }

  // A condition step goes to the next step of its first condition that holds, if that is not empty,
  // and otherwise to its own successor.
  lemma ConditionStepLeads(wf: Workflow, env: Environment, vars: Variables, trace: seq<Visit>, k: nat)
    requires |wf.steps| > 0 && IsWalk(wf, env, vars, trace) && k < |trace|
    requires trace[k].Tried? && trace[k].step.kind.ConditionStep?
    ensures var step, now, next := trace[k].step, VariablesAfter(vars, trace[..k]), WhereNext(wf, trace, k);
            && (forall i :: FirstToDecide(step.conditions, now, i) ==>
                  && !Clashes(step.conditions[i], now[step.conditions[i].field])
                  && if step.conditions[i].nextStep != "" then next == step.conditions[i].nextStep
                     else OwnSuccessor(step, next))
            && ((forall c :: c in step.conditions ==> !Decides(c, now)) ==> OwnSuccessor(step, next))
  {
    var step, now := trace[k].step, VariablesAfter(vars, trace[..k]);
    assert WalkAt(wf, env, vars, trace, k);
    FirstConditionDecides(step.conditions, now);
    StepLeadsOn(wf, trace, k);
    assert EvaluateConditions(step.conditions, now).Some?;
    assert trace[k].last.result == ConditionOutcome(EvaluateConditions(step.conditions, now).value);
  }

  // ----- What a step leaves in the variables -----

  // After a step without an error that put something out: each key of the output under the step's
  // name, the whole output as the last one, and nothing else changed.  Nothing at all changes after a
  // step that was passed over, returned an error or put nothing out.
  lemma StepLeavesOutput(vars: Variables, trace: seq<Visit>, v: Visit)
    ensures var before, after := VariablesAfter(vars, trace), VariablesAfter(vars, trace + [v]);
            if v.Tried? && v.last.error == None && v.last.result.output.Some? then
              var output := v.last.result.output.value;
              && (forall k :: k in output ==>
                    "step_" + v.step.id + "_" + k in after && after["step_" + v.step.id + "_" + k] == output[k])
              && "last_step_output" in after && after["last_step_output"] == Object(output)
              && (forall x :: x in before ==> x in after)
              && (forall x :: x in after ==>
                    || x == "last_step_output"
                    || (exists k :: k in output && x == "step_" + v.step.id + "_" + k)
                    || (x in before && after[x] == before[x]))
            else after == before
  {
    assert (trace + [v])[..|trace|] == trace;
    if v.Tried? && v.last.error == None && v.last.result.output.Some? {
      OutputIsStored(VariablesAfter(vars, trace), v);
    }
  }

  lemma OutputIsStored(before: Variables, v: Visit)
    requires v.Tried? && v.last.error == None && v.last.result.output.Some?
    ensures var after, output := UpdateVariables(before, v), v.last.result.output.value;
            && (forall k :: k in output ==>
                  "step_" + v.step.id + "_" + k in after && after["step_" + v.step.id + "_" + k] == output[k])
            && "last_step_output" in after && after["last_step_output"] == Object(output)
            && (forall x :: x in before ==> x in after)
            && (forall x :: x in after ==>
                  || x == "last_step_output"
                  || (exists k :: k in output && x == "step_" + v.step.id + "_" + k)
                  || (x in before && after[x] == before[x]))
  {
    var after, output := UpdateVariables(before, v), v.last.result.output.value;
    var p := "step_" + v.step.id + "_";
    forall k | k in output ensures p + k in after && after[p + k] == output[k] {
      assert k in output.Keys && (p + k)[|p|..] == k;
      assert (p + k)[0] == 's' && "last_step_output"[0] == 'l';
    }
    forall x | x in after && x != "last_step_output" && !(x in before && after[x] == before[x])
      ensures exists k :: k in output && x == p + k
    {
      assert x in OutputVariables(v.step.id, output, output.Keys);
    }
  }

  // ----- How often a step is tried -----

  // How many retries a step is allowed: those it configures, else the workflow's, none if negative.
  ghost predicate AllowedRetries(retryAttempts: int, step: Step, n: int) {
    match step.config.maxRetries
    case Some(m) => n == m
    case None => if retryAttempts < 0 then n == 0 else n == retryAttempts
  }

  // A step all of whose attempts fail is tried once and then as often as allowed.
  lemma {:induction false} FailuresUseUpRetries(
    step: Step, env: Environment, call: nat, vars: Variables, attempt: nat, n: nat)
    requires attempt <= n && forall c: nat :: FailedAttempt(step, env, c, vars)
    ensures var r := RetryLoop(step, env, call, vars, attempt, n); r.RetryDone? && r.retryCount == n
    decreases n - attempt
  {
    assert FailedAttempt(step, env, call + attempt, vars);
    if attempt < n { FailuresUseUpRetries(step, env, call, vars, attempt + 1, n); }
  }

  lemma FailingStepIsTried(wf: Workflow, env: Environment, vars: Variables, s: Run, step: Step, n: nat)
    requires AllowedRetries(wf.retryAttempts, step, n)
    requires forall c: nat :: FailedAttempt(step, env, c, VariablesAfter(vars, s.trace))
    ensures var t := Try(wf, env, vars, s, step);
            |t.trace| == |s.trace| + 1 && t.trace[|s.trace|].Calls() == n + 1 && t.phase.Stopped? && !t.success
  {
    assert EffectiveRetries(wf.retryAttempts, step) == n;
    FailuresUseUpRetries(step, env, CallsAfter(s.trace), VariablesAfter(vars, s.trace), 0, n);
    TryAttempt(wf, env, vars, s, step);
    var r := RetryLoop(step, env, CallsAfter(s.trace), VariablesAfter(vars, s.trace), 0, n);
    assert ExecuteStep(step, env, CallsAfter(s.trace) + n, VariablesAfter(vars, s.trace)) == Some(r.last) by {
      RetryLoopStopsAtFirstSuccess(step, env, CallsAfter(s.trace), VariablesAfter(vars, s.trace), 0, n);
    }
    assert FailedAttempt(step, env, CallsAfter(s.trace) + n, VariablesAfter(vars, s.trace));
  }

  // ----- What is recorded and reported -----

  // The record of a visit.
  ghost predicate RecordMeans(v: Visit, e: StepExecution) {
    && e.stepID == v.step.id && e.stepName == v.step.name
    && match v
       case Passed(_) => e.status == Skipped && e.retryCount == 0 && e.output == map["skipped" := Boolean(true)]
       case Tried(_, last, retryCount) =>
         && e.retryCount == retryCount
         && (e.status == Completed <==> last.error == None && last.result.success)
         && (e.status == Failed <==> last.error.Some? || !last.result.success)
         && (e.status == Failed ==> e.errorMessage == last.error.GetOr(last.result.errorMessage))
         && (e.status == Completed ==> e.errorMessage == "")
         && e.output == last.result.output.GetOr(map[])
  }

  // A finished run has one record for each visit, in order.
  lemma RecordsMean(wf: Workflow, env: Environment, vars: Variables)
    requires RunWorkflow(wf, env, vars).Finished?
    ensures var trace, records := FinalRun(wf, env, vars).trace, RunWorkflow(wf, env, vars).result.stepsExecuted;
            |records| == |trace| && forall k :: 0 <= k < |trace| ==> RecordMeans(trace[k], records[k])
  {
  }

  // What a finished run reports: the limit; or the failure of its last visit, with its error or with
  // the message of its result; or the missing step; or that its context was cancelled; or nothing.
  lemma ReportsExactly(wf: Workflow, env: Environment, vars: Variables)
    requires RunWorkflow(wf, env, vars).Finished?
    ensures var trace, message := FinalRun(wf, env, vars).trace, RunWorkflow(wf, env, vars).result.errorMessage;
            if trace != [] && !trace[|trace| - 1].Succeeded() then
              var v := trace[|trace| - 1];
              message == match v.last.error
                         case Some(error) => StepFailed(v.step.id, v.Calls(), error)
                         case None => StepReported(v.last.result.errorMessage)
            else if |trace| == 2 * |wf.steps| then message == MaximumStepsExceeded
            else if NextAfter(wf, trace) != "" then message == StepNotFound(NextAfter(wf, trace))
            else message == if exists i: nat :: i < |trace| && env.cancelled(i) then Timeout else NoMessage
  {
    FinalRunInv(wf, env, vars);
    FinalMessage(wf, env, vars, Start(wf));
    var s := FinalRun(wf, env, vars);
    if s.trace != [] && !s.trace[|s.trace| - 1].Succeeded() { assert s.trace[|s.trace| - 1] in s.trace; }
  }

  // The message of a run so far.
  ghost predicate MessageMeans(wf: Workflow, env: Environment, s: Run)
    requires |wf.steps| > 0
  {
    match s.phase
    case Looping => s.message == if exists i: nat :: i < s.executed && env.cancelled(i) then Timeout else NoMessage
    case Stopped =>
      if s.trace != [] && !s.trace[|s.trace| - 1].Succeeded() then
        var v := s.trace[|s.trace| - 1];
        v.Tried? && s.message == match v.last.error
                                 case Some(error) => StepFailed(v.step.id, v.retryCount + 1, error)
                                 case None => StepReported(v.last.result.errorMessage)
      else s.message == StepNotFound(s.current)
    case Crashed => true
  }

  lemma AttemptMeans(wf: Workflow, env: Environment, s: Run, step: Step, last: Attempt, retryCount: nat)
    requires |wf.steps| > 0 && s.phase.Looping?
    requires s.message == if exists i: nat :: i < s.executed + 1 && env.cancelled(i) then Timeout else NoMessage
    ensures MessageMeans(wf, env, AfterAttempt(s, step, last, retryCount))
  {
  }

  lemma CancellationNoted(env: Environment, s: Run)
    requires s.message == if exists i: nat :: i < s.executed && env.cancelled(i) then Timeout else NoMessage
    ensures NoteCancellation(env, s).message ==
            if exists i: nat :: i < s.executed + 1 && env.cancelled(i) then Timeout else NoMessage
  {
  }

  lemma AdvanceMeans(wf: Workflow, env: Environment, vars: Variables, s: Run)
    requires |wf.steps| > 0 && s.phase.Looping? && AllSucceeded(s.trace)
    requires s.message == if exists i: nat :: i < s.executed + 1 && env.cancelled(i) then Timeout else NoMessage
    ensures MessageMeans(wf, env, Advance(wf, env, vars, s))
  {
    var found := FindStep(StepsAfter(wf.steps, s.trace), s.current);
    if found.Some? && found.value.enabled {
      var most := EffectiveRetries(wf.retryAttempts, found.value);
      if most >= 0 {
        var r := RetryLoop(found.value, env, CallsAfter(s.trace), VariablesAfter(vars, s.trace), 0, most);
        if r.RetryDone? { AttemptMeans(wf, env, s, found.value, r.last, r.retryCount); }
      }
    }
  }

  lemma {:induction false} FinalMessage(wf: Workflow, env: Environment, vars: Variables, s: Run)
    requires |wf.steps| > 0 && Shape(wf, env, vars, s) && MessageMeans(wf, env, s)
    ensures MessageMeans(wf, env, RunFrom(wf, env, vars, s))
    decreases if Guard(wf, s) then 1 + MaxSteps(wf) - s.executed else 0
  {
    if Guard(wf, s) {
      CancellationNoted(env, s);
      AdvanceMeans(wf, env, vars, NoteCancellation(env, s));
      IterateKeepsShape(wf, env, vars, s);
      FinalMessage(wf, env, vars, Iterate(wf, env, vars, s));
    }
  }

  // ----- What a run begins with, and what it does to its steps -----

  // Besides what the context holds already, a run begins with the data of its trigger and the
  // metadata.
  lemma RunBeginsWith(vars: Variables, triggerData: Value, metadata: Value)
    ensures var initial := InitialVariables(vars, triggerData, metadata);
            && initial.Keys == vars.Keys + {"trigger_data", "metadata"}
            && initial["trigger_data"] == triggerData && initial["metadata"] == metadata
            && forall k :: k in vars && k != "trigger_data" && k != "metadata" ==> initial[k] == vars[k]
  {
    assert "trigger_data"[0] != "metadata"[0];
  }

  // A step that was used is the same but for the "max_retries" of a webhook, which is gone.
  lemma UsedStepIsSame(step: Step)
    ensures var used := Used(step);
            && used == step.(config := used.config)
            && used.config == step.config.(maxRetries := used.config.maxRetries)
            && used.config.maxRetries == (if step.kind == Webhook then None else step.config.maxRetries)
  {
  }
}
