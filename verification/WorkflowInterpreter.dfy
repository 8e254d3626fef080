// The executor as the program writes it: loops that update the current step, the records and the
// variables of the execution context.
module WorkflowInterpreter {
  import opened Wrappers
  import opened WorkflowModel
  import opened WorkflowSemantics

  class ExecutionContext {
    var variables: Variables
    const triggerData: Value
    const metadata: Value

    constructor (triggerData: Value, metadata: Value)
      ensures this.triggerData == triggerData && this.metadata == metadata && variables == map[]
    {
      this.triggerData, this.metadata, variables := triggerData, metadata, map[];
    }
  }

  lemma {:induction false} FirstWithID(steps: seq<Step>, id: string, i: nat)
    requires i < |steps| && steps[i].id == id && forall j :: 0 <= j < i ==> steps[j].id != id
    ensures FindStep(steps, id) == Some(steps[i])
    ensures Overwritten(steps, id) == steps[i := Used(steps[i])]
  {
    if i > 0 {
      FirstWithID(steps[1..], id, i - 1);
      assert steps[i := Used(steps[i])] == [steps[0]] + steps[1..][i - 1 := Used(steps[i])];
    } else {
      assert steps[0 := Used(steps[0])] == [Used(steps[0])] + steps[1..];
    }
  }

  // The place of the first step with an ID.
  method Lookup(steps: array<Step>, id: string) returns (found: Option<nat>)
    ensures found.None? <==> FindStep(steps[..], id).None?
    ensures found.Some? ==>
              && found.value < steps.Length
              && FindStep(steps[..], id) == Some(steps[found.value])
              && Overwritten(steps[..], id) == steps[..][found.value := Used(steps[found.value])]
  {
    for i := 0 to steps.Length
      invariant forall j :: 0 <= j < i ==> steps[j].id != id
    {
      if steps[i].id == id {
        FirstWithID(steps[..], id, i);
        return Some(i);
      }
    }
    return None;
  }

  // Tries the i-th step until it succeeds or its retries, counted beforehand, are used up.
  method ExecuteWithRetries(
    steps: array<Step>, i: nat, env: Environment, firstCall: nat, vars: Variables, maxRetries: nat)
    returns (outcome: RetryOutcome)
    requires i < steps.Length
    modifies steps
    ensures outcome == RetryLoop(old(steps[i]), env, firstCall, vars, 0, maxRetries)
    ensures steps[..] == old(steps[..])[i := Used(old(steps[i]))]
  {
    var attempt: nat := 0;
    ghost var step := steps[i];
    while true
      invariant attempt <= maxRetries
      invariant steps[..] == old(steps[..])[i := if attempt == 0 then step else Used(step)]
      invariant RetryLoop(step, env, firstCall, vars, 0, maxRetries) ==
                RetryLoop(step, env, firstCall, vars, attempt, maxRetries)
      decreases maxRetries - attempt
    {
      var tried := ExecuteStep(steps[i], env, firstCall + attempt, vars);
      steps[i] := Used(steps[i]);
      if tried.None? {
        return RetryPanic;
      }
      if tried.value.Succeeded() || attempt == maxRetries {
        return RetryDone(tried.value, attempt);
      }
      attempt := attempt + 1;
    }
  }

  lemma OneMoreKey(id: string, output: Variables, keys: set<string>, key: string)
    requires keys <= output.Keys && key in output
    ensures OutputVariables(id, output, keys + {key}) ==
            OutputVariables(id, output, keys)[OutputPrefix(id) + key := output[key]]
  {
    var p := OutputPrefix(id);
    assert (set k | k in keys + {key} :: p + k) == (set k | k in keys :: p + k) + {p + key};
    assert (p + key)[|p|..] == key;
  }

  lemma UnionThenUpdate<K, V>(a: map<K, V>, b: map<K, V>, k: K, v: V)
    ensures (a + b)[k := v] == a + b[k := v]
  {
  }

  // Copies a step's output into the variables, key by key in whatever order the map gives them.
  method SaveOutput(ctx: ExecutionContext, id: string, output: Variables)
    modifies ctx
    ensures var prefixed := OutputVariables(id, output, output.Keys);
            ctx.variables == (old(ctx.variables) + prefixed)["last_step_output" := Object(output)]
  {
    ghost var before := ctx.variables;
    var remaining := output.Keys;
    ghost var done: set<string> := {};
    while remaining != {}
      invariant remaining + done == output.Keys
      invariant ctx.variables == before + OutputVariables(id, output, done)
      decreases |remaining|
    {
      var key :| key in remaining;
      var name := OutputPrefix(id) + key;
      OneMoreKey(id, output, done, key);
      UnionThenUpdate(before, OutputVariables(id, output, done), name, output[key]);
      ctx.variables := ctx.variables[name := output[key]];
      remaining, done := remaining - {key}, done + {key};
    }
    assert done == output.Keys;
    ctx.variables := ctx.variables["last_step_output" := Object(output)];
  }

  // Tries the i-th step and saves what it put out; nothing is returned on a panic.
  method TryStep(steps: array<Step>, i: nat, retryAttempts: int, env: Environment, ctx: ExecutionContext, calls: nat,
                 ghost wf: Workflow, ghost vars: Variables, ghost s: Run)
    returns (visit: Option<Visit>)
    requires i < steps.Length && wf.retryAttempts == retryAttempts
    requires calls == CallsAfter(s.trace) && ctx.variables == VariablesAfter(vars, s.trace)
    modifies ctx, steps
    ensures var step := old(steps[i]);
            && (visit.None? ==>
                  && Try(wf, env, vars, s, step) == s.(phase := Crashed)
                  && ctx.variables == old(ctx.variables))
            && (visit.Some? ==>
                  && visit.value.Tried? && visit.value == Tried(step, visit.value.last, visit.value.retryCount)
                  && Try(wf, env, vars, s, step) == AfterAttempt(s, step, visit.value.last, visit.value.retryCount)
                  && ctx.variables == UpdateVariables(old(ctx.variables), visit.value))
            && steps[..] == if EffectiveRetries(retryAttempts, step) < 0 then old(steps[..])
               else old(steps[..])[i := Used(step)]
  {
    var step := steps[i];
    var maxRetries := EffectiveRetries(retryAttempts, step);
    if maxRetries < 0 {
      return None;
    }
    var tried := ExecuteWithRetries(steps, i, env, calls, ctx.variables, maxRetries);
    if tried.RetryPanic? {
      return None;
    }
    if tried.last.error.None? && tried.last.result.output.Some? {
      SaveOutput(ctx, step.id, tried.last.result.output.value);
    }
    return Some(Tried(step, tried.last, tried.retryCount));
  }

  // The local variables of the step loop.
  datatype Progress = Progress(
    current: string,
    executed: nat,
    calls: nat,
    success: bool,
    message: Message,
    records: seq<StepExecution>,
    stopped: bool)

  ghost predicate Mirrors(r: Progress, s: Run) {
    && r.current == s.current && r.executed == s.executed && r.success == s.success && r.message == s.message
    && r.records == Records(s.trace) && r.calls == CallsAfter(s.trace)
    && s.phase == if r.stopped then Stopped else Looping
  }

  // What the variables and steps are at a point of the run.
  ghost predicate Current(variables: Variables, steps: seq<Step>, wf: Workflow, vars: Variables, s: Run) {
    variables == VariablesAfter(vars, s.trace) && steps == StepsAfter(wf.steps, s.trace)
  }

  // What a step that was tried, or passed over, does to the local variables.
  function Recorded(r: Progress, v: Visit): Progress {
    var recorded := r.(records := r.records + [v.Record()], calls := r.calls + v.Calls());
    if v.Tried? && v.last.error.Some? then
      var message := StepFailed(v.step.id, v.retryCount + 1, v.last.error.value);
      recorded.(success := false, message := message, stopped := true)
    else if v.Tried? && !v.last.result.success then
      recorded.(success := false, message := StepReported(v.last.result.errorMessage), stopped := true)
    else
      recorded.(current := v.Chosen(), executed := r.executed + 1)
  }

  lemma TryMirrors(r: Progress, wf: Workflow, vars: Variables, s: Run, v: Visit)
    requires Mirrors(r, s) && !r.stopped && v.Tried?
    ensures var t := AfterAttempt(s, v.step, v.last, v.retryCount);
            && Mirrors(Recorded(r, v), t)
            && Current(UpdateVariables(VariablesAfter(vars, s.trace), v),
               Overwritten(StepsAfter(wf.steps, s.trace), v.step.id), wf, vars, t)
  {
    TraceGrows(vars, s.trace, v);
    StepsGrow(wf.steps, s.trace, v);
  }

  lemma PassMirrors(r: Progress, wf: Workflow, vars: Variables, s: Run, step: Step)
    requires Mirrors(r, s) && !r.stopped
    ensures Mirrors(Recorded(r, Passed(step)), Pass(s, step))
    ensures Current(VariablesAfter(vars, s.trace), StepsAfter(wf.steps, s.trace), wf, vars, Pass(s, step))
  {
    TraceGrows(vars, s.trace, Passed(step));
    StepsGrow(wf.steps, s.trace, Passed(step));
  }

  // The body of the step loop; nothing is returned on a panic.
  method Continue(steps: array<Step>, retryAttempts: int, env: Environment, ctx: ExecutionContext, before: Progress,
                  ghost wf: Workflow, ghost vars: Variables, ghost s: Run)
    returns (next: Option<Progress>)
    requires wf.retryAttempts == retryAttempts && Mirrors(before, s) && Guard(wf, s)
    requires Current(ctx.variables, steps[..], wf, vars, s)
    modifies ctx, steps
    ensures var t := Iterate(wf, env, vars, s);
            && (next.None? ==>
                  && t.phase.Crashed? && ctx.variables == VariablesAfter(vars, t.trace)
                  && steps[..] == StepsLeft(wf, t))
            && (next.Some? ==> Mirrors(next.value, t) && Current(ctx.variables, steps[..], wf, vars, t))
  {
    var r := before;
    ghost var s1 := NoteCancellation(env, s);
    if env.cancelled(r.executed) {
      r := r.(success := false, message := Timeout);
    }
    var found := Lookup(steps, r.current);
    if found.None? {
      return Some(r.(success := false, message := StepNotFound(r.current), stopped := true));
    }
    var step := steps[found.value];
    if !step.enabled {
      PassMirrors(r, wf, vars, s1, step);
      return Some(Recorded(r, Passed(step)));
    }
    var tried := TryStep(steps, found.value, retryAttempts, env, ctx, r.calls, wf, vars, s1);
    if tried.None? {
      return None;
    }
    TryMirrors(r, wf, vars, s1, tried.value);
    return Some(Recorded(r, tried.value));
  }

  ghost predicate Follows(wf: Workflow, env: Environment, vars: Variables, s: Run, t: Run) {
    Guard(wf, s) && t == Iterate(wf, env, vars, s)
  }

  // The states of a run, one after the other.
  ghost predicate IsHistory(wf: Workflow, env: Environment, vars: Variables, states: seq<Run>) {
    && states != []
    && (forall k :: 0 <= k < |states| - 1 ==> Follows(wf, env, vars, states[k], states[k + 1]))
    && !Guard(wf, states[|states| - 1])
  }

  lemma {:induction false} History(wf: Workflow, env: Environment, vars: Variables, s: Run) returns (states: seq<Run>)
    ensures IsHistory(wf, env, vars, states) && states[0] == s && states[|states| - 1] == RunFrom(wf, env, vars, s)
    decreases if Guard(wf, s) then 1 + MaxSteps(wf) - s.executed else 0
  {
    if Guard(wf, s) {
      var rest := History(wf, env, vars, Iterate(wf, env, vars, s));
      states := [s] + rest;
      forall k | 0 <= k < |states| - 1 ensures Follows(wf, env, vars, states[k], states[k + 1]) {
        if k > 0 { assert Follows(wf, env, vars, rest[k - 1], rest[k]); }
      }
    } else {
      states := [s];
    }
  }

  lemma HistoryGoesOn(wf: Workflow, env: Environment, vars: Variables, states: seq<Run>, k: nat)
    requires IsHistory(wf, env, vars, states) && k < |states|
    ensures if Guard(wf, states[k]) then k + 1 < |states| && states[k + 1] == Iterate(wf, env, vars, states[k])
            else k == |states| - 1
  {
    if k < |states| - 1 { assert Follows(wf, env, vars, states[k], states[k + 1]); }
  }

  // The step loop from its first step on; nothing is returned on a panic.
  method RunSteps(steps: array<Step>, retryAttempts: int, env: Environment, ctx: ExecutionContext, first: Progress,
                  ghost wf: Workflow, ghost vars: Variables)
    returns (last: Option<Progress>)
    requires wf == Workflow(steps[..], retryAttempts) && steps.Length > 0 && ctx.variables == vars
    requires first == Progress(steps[0].id, 0, 0, true, NoMessage, [], false)
    modifies ctx, steps
    ensures var t := FinalRun(wf, env, vars);
            && (last.None? ==> t.phase.Crashed?)
            && (last.Some? ==> Mirrors(last.value, t))
            && ctx.variables == VariablesAfter(vars, t.trace) && steps[..] == StepsLeft(wf, t)
  {
    ghost var states := History(wf, env, vars, Start(wf));
    ghost var k := 0;
    var r := first;
    while !r.stopped && r.current != "" && r.executed < 2 * steps.Length
      invariant 0 <= k < |states|
      invariant Mirrors(r, states[k]) && Current(ctx.variables, steps[..], wf, vars, states[k])
      decreases |states| - k
    {
      var next := Continue(steps, retryAttempts, env, ctx, r, wf, vars, states[k]);
      HistoryGoesOn(wf, env, vars, states, k);
      k := k + 1;
      if next.None? {
        HistoryGoesOn(wf, env, vars, states, k);
        return None;
      }
      r := next.value;
    }
    HistoryGoesOn(wf, env, vars, states, k);
    return Some(r);
  }

  // ExecuteWorkflow.  The result, the variables and the steps left behind are those of the
  // reference run.
  method ExecuteWorkflow(
    steps: array<Step>, retryAttempts: int, env: Environment, ctx: ExecutionContext) returns (outcome: Outcome)
    modifies ctx, steps
    ensures var wf := Workflow(old(steps[..]), retryAttempts);
            var initial := InitialVariables(old(ctx.variables), ctx.triggerData, ctx.metadata);
            && outcome == RunWorkflow(wf, env, initial)
            && (steps.Length == 0 ==> ctx.variables == initial)
            && (steps.Length > 0 ==>
                  && ctx.variables == VariablesAfter(initial, FinalRun(wf, env, initial).trace)
                  && steps[..] == StepsLeft(wf, FinalRun(wf, env, initial)))
  {
    ctx.variables := ctx.variables["trigger_data" := ctx.triggerData];
    ctx.variables := ctx.variables["metadata" := ctx.metadata];
    if steps.Length == 0 {
      return NoSteps;
    }
    ghost var wf := Workflow(steps[..], retryAttempts);
    var first := Progress(steps[0].id, 0, 0, true, NoMessage, [], false);
    var last := RunSteps(steps, retryAttempts, env, ctx, first, wf, ctx.variables);
    if last.None? {
      return Panicked;
    }
    var r := last.value;
    if r.executed >= 2 * steps.Length {
      r := r.(success := false, message := MaximumStepsExceeded);
    }
    return Finished(ExecutionResult(r.success, r.message, r.records, ctx.variables));
  }

  lemma StepsGrow(steps: seq<Step>, trace: seq<Visit>, v: Visit)
    ensures StepsAfter(steps, trace + [v]) ==
            if v.Tried? then Overwritten(StepsAfter(steps, trace), v.step.id) else StepsAfter(steps, trace)
  {
    assert (trace + [v])[..|trace|] == trace;
  }

  lemma TraceGrows(vars: Variables, trace: seq<Visit>, v: Visit)
    ensures Records(trace + [v]) == Records(trace) + [v.Record()]
    ensures CallsAfter(trace + [v]) == CallsAfter(trace) + v.Calls()
    ensures VariablesAfter(vars, trace + [v]) == UpdateVariables(VariablesAfter(vars, trace), v)
  {
    assert (trace + [v])[..|trace|] == trace;
  }
}
