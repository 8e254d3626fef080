// What one iteration of the step loop does, as functions of the environment.
module WorkflowSemantics {
  import opened Wrappers
  import opened WorkflowModel

  // The step a step ID denotes: the first one that carries it.
  function FindStep(steps: seq<Step>, id: string): (r: Option<Step>)
    ensures r.Some? ==> r.value in steps && r.value.id == id
    ensures r.None? <==> forall s :: s in steps ==> s.id != id
  {
    if steps == [] then None
    else if steps[0].id == id then Some(steps[0])
    else FindStep(steps[1..], id)
  }

  // getNextStepID
  function NextStepID(step: Step): string {
    if step.nextStepID.Some? && step.nextStepID.value != "" then step.nextStepID.value
    else if |step.conditions| > 0 then step.conditions[0].nextStep
    else ""
  }

  predicate Matches(c: Condition, vars: Variables) {
    c.field in vars &&
    var v := vars[c.field];
    match c.operator
    case Eq => v == c.value
    case Neq => v != c.value
    case Gt => v.Number? && c.value.Number? && v.r > c.value.r
    case OtherOperator(_) => false
  }

  // Two maps, or two lists, cannot be compared: the comparison panics.
  predicate Incomparable(v: Value, w: Value) {
    (IsMap(v) && IsMap(w)) || (v.List? && w.List?)
  }

  predicate IsMap(v: Value) {
    v.Object? || v.Itself?
  }

  predicate PanicsOn(c: Condition, vars: Variables) {
    c.field in vars && (c.operator.Eq? || c.operator.Neq?) && Incomparable(vars[c.field], c.value)
  }

  // evaluateConditions; None is a panic.
  function EvaluateConditions(conditions: seq<Condition>, vars: Variables): Option<string> {
    if conditions == [] then Some("")
    else if PanicsOn(conditions[0], vars) then None
    else if Matches(conditions[0], vars) then Some(conditions[0].nextStep)
    else EvaluateConditions(conditions[1..], vars)
  }

  function ConditionOutcome(next: string): StepResult {
    StepResult(true,
               Some(map["condition_evaluated" := Boolean(true),
                        "next_step" := Text(next),
                        "message" := Text("Condition action evaluated successfully")]),
               "", next)
  }

  // executeConditionAction
  function ConditionResult(step: Step, vars: Variables): Option<StepResult> {
    var next := EvaluateConditions(step.conditions, vars);
    if next.Some? then Some(ConditionOutcome(next.value)) else None
  }

  // ----- Variables that contain themselves -----

  predicate Contains(v: Value) {
    match v
    case Itself => true
    case Object(fields) => exists k :: k in fields && Contains(fields[k])
    case List(items) => exists i :: 0 <= i < |items| && Contains(items[i])
    case _ => false
  }

  predicate SelfContaining(vars: Variables) {
    exists k :: k in vars && Contains(vars[k])
  }

  // A transform that keeps the map of variables as it is, unless what it writes afterwards takes its
  // place.
  predicate Keeps(step: Step) {
    && step.kind.Transform? && Readable(step) && step.config.keeps.Some?
    && step.config.keeps.value !in {"operation", "source", "target", "execution_time_ms"}
  }

  function KeptKey(target: string): string {
    if target == "output" then "transformed_data" else target
  }

  function KeptOutput(target: string): Variables {
    map["operation" := Text("map"), "source" := Text("input"), "target" := Text(target)][KeptKey(target) := Itself]
  }

  // A step that writes all the variables out as text, which never ends when they contain themselves.
  predicate WritesOut(step: Step) {
    && (step.kind.HTTP? || step.kind.Email? || step.kind.Slack? || step.kind.Webhook? || step.kind.Transform?)
    && Readable(step) && step.config.writesOut
  }

  datatype Attempt = Attempt(result: StepResult, error: Option<string>) {
    predicate Succeeded() { error.None? && result.success }
  }

  // A transform whose operation is unknown, or whose configuration cannot be read, returns a nil
  // result; a delay that is not a number is a failed type assertion.
  predicate Readable(step: Step) {
    && (step.kind.Transform? ==> step.config.operation.Some? && !step.config.operation.value.UnknownOperation?)
    && (step.kind.Delay? ==> step.config.delayIsNumber)
  }

  // executeStep.  None is the panic, on a nil result or in the action itself.
  function ExecuteStep(step: Step, env: Environment, call: nat, vars: Variables): Option<Attempt> {
    var reply :=
      if step.kind.ConditionStep? then ActionReply(ConditionResult(step, vars), None)
      else if step.kind.Unsupported? then
        ActionReply(Some(StepResult(true, Some(map[]), "", "")), Some("unsupported action type: " + step.kind.name))
      else if !Readable(step) || (WritesOut(step) && SelfContaining(vars)) then ActionReply(None, None)
      else if Keeps(step) then
        ActionReply(Some(StepResult(true, Some(KeptOutput(step.config.keeps.value)), "", "")), None)
      else env.action(call);
    match reply.result
    case None => None
    case Some(result) =>
      if reply.error.Some? then
        Some(Attempt(result.(success := false, errorMessage := reply.error.value), reply.error))
      else
        Some(Attempt(result, None))
  }

  function DefaultRetries(retryAttempts: int): nat {
    if retryAttempts < 0 then 0 else retryAttempts
  }

  function EffectiveRetries(retryAttempts: int, step: Step): int {
    if step.config.maxRetries.Some? then step.config.maxRetries.value else DefaultRetries(retryAttempts)
  }

  // A webhook overwrites the configuration of its own step by that of an HTTP call, which has no
  // "max_retries".
  function Used(step: Step): Step {
    if step.kind.Webhook? then step.(config := step.config.(maxRetries := None)) else step
  }

  // The steps after the one with this ID was tried.
  function Overwritten(steps: seq<Step>, id: string): (r: seq<Step>)
    ensures |r| == |steps|
  {
    if steps == [] then []
    else if steps[0].id == id then [Used(steps[0])] + steps[1..]
    else [steps[0]] + Overwritten(steps[1..], id)
  }

  datatype RetryOutcome = RetryPanic | RetryDone(last: Attempt, retryCount: nat)

  // The retry loop from a given attempt on.
  function RetryLoop(step: Step, env: Environment, firstCall: nat, vars: Variables, attempt: nat, maxRetries: nat)
    : RetryOutcome
    requires attempt <= maxRetries
    decreases maxRetries - attempt
  {
    match ExecuteStep(step, env, firstCall + attempt, vars)
    case None => RetryPanic
    case Some(a) =>
      if a.Succeeded() || attempt == maxRetries then RetryDone(a, attempt)
      else RetryLoop(step, env, firstCall, vars, attempt + 1, maxRetries)
  }

  // One entry of the history of a run: a disabled step passed over, or a step tried.
  datatype Visit = Passed(step: Step) | Tried(step: Step, last: Attempt, retryCount: nat) {
    predicate Succeeded() { Passed? || last.Succeeded() }
    // The step chosen to come next.
    function Chosen(): string {
      if Tried? && last.result.nextStepID != "" then last.result.nextStepID else NextStepID(step)
    }
    function Calls(): nat { if Passed? then 0 else retryCount + 1 }
    // createStepExecution
    function Record(): StepExecution {
      match this
      case Passed(step) =>
        StepExecution(step.id, step.name, Skipped, "", 0, map["skipped" := Boolean(true)])
      case Tried(step, last, retryCount) =>
        StepExecution(step.id, step.name,
                      if last.Succeeded() then Completed else Failed,
                      if last.error.Some? then last.error.value
                      else if !last.result.success then last.result.errorMessage else "",
                      retryCount,
                      if last.result.output.Some? then last.result.output.value else map[])
    }
  }

  function Records(trace: seq<Visit>): (r: seq<StepExecution>)
    ensures |r| == |trace|
    ensures forall k :: 0 <= k < |trace| ==> r[k] == trace[k].Record()
  {
    seq(|trace|, k requires 0 <= k < |trace| => trace[k].Record())
  }

  function OutputPrefix(id: string): string {
    "step_" + id + "_"
  }

  // The variables a step's output adds, restricted to some of its keys.
  function OutputVariables(id: string, output: Variables, keys: set<string>): Variables
    requires keys <= output.Keys
  {
    map x | x in (set k | k in keys :: OutputPrefix(id) + k) :: output[x[|OutputPrefix(id)|..]]
  }

  function UpdateVariables(vars: Variables, v: Visit): Variables {
    if v.Passed? || v.last.error.Some? || v.last.result.output.None? then vars
    else
      var output := v.last.result.output.value;
      (vars + OutputVariables(v.step.id, output, output.Keys))["last_step_output" := Object(output)]
  }

  function VariablesAfter(vars: Variables, trace: seq<Visit>): Variables {
    if trace == [] then vars
    else UpdateVariables(VariablesAfter(vars, trace[..|trace| - 1]), trace[|trace| - 1])
  }

  function CallsAfter(trace: seq<Visit>): nat {
    if trace == [] then 0
    else CallsAfter(trace[..|trace| - 1]) + trace[|trace| - 1].Calls()
  }

  function StepsAfter(steps: seq<Step>, trace: seq<Visit>): (r: seq<Step>)
    ensures |r| == |steps|
  {
    if trace == [] then steps
    else
      var before, last := StepsAfter(steps, trace[..|trace| - 1]), trace[|trace| - 1];
      if last.Tried? then Overwritten(before, last.step.id) else before
  }

  datatype Phase = Looping | Stopped | Crashed

  datatype Run = Run(
    current: string,
    executed: nat,
    trace: seq<Visit>,
    success: bool,
    message: Message,
    phase: Phase)

  function MaxSteps(wf: Workflow): nat { 2 * |wf.steps| }

  function Start(wf: Workflow): Run
    requires |wf.steps| > 0
  {
    Run(wf.steps[0].id, 0, [], true, NoMessage, Looping)
  }

  predicate Guard(wf: Workflow, s: Run) {
    s.phase.Looping? && s.current != "" && s.executed < MaxSteps(wf)
  }

  // What a step that was tried does to the run.
  function AfterAttempt(s: Run, step: Step, last: Attempt, retryCount: nat): Run {
    var v := Tried(step, last, retryCount);
    var t := s.(trace := s.trace + [v]);
    if last.error.Some? then
      t.(success := false, message := StepFailed(step.id, retryCount + 1, last.error.value), phase := Stopped)
    else if !last.result.success then
      t.(success := false, message := StepReported(last.result.errorMessage), phase := Stopped)
    else
      t.(current := v.Chosen(), executed := s.executed + 1)
  }

  // A cancelled context is noted, but the loop goes on.
  function NoteCancellation(env: Environment, s: Run): Run {
    if env.cancelled(s.executed) then s.(success := false, message := Timeout) else s
  }

  function Pass(s: Run, step: Step): Run {
    s.(trace := s.trace + [Passed(step)], current := NextStepID(step), executed := s.executed + 1)
  }

  function Try(wf: Workflow, env: Environment, vars: Variables, s: Run, step: Step): Run {
    var maxRetries := EffectiveRetries(wf.retryAttempts, step);
    if maxRetries < 0 then s.(phase := Crashed)
    else
      match RetryLoop(step, env, CallsAfter(s.trace), VariablesAfter(vars, s.trace), 0, maxRetries)
      case RetryPanic => s.(phase := Crashed)
      case RetryDone(last, retryCount) => AfterAttempt(s, step, last, retryCount)
  }

  // The body of the step loop after the look at the context.
  function Advance(wf: Workflow, env: Environment, vars: Variables, s: Run): Run {
    match FindStep(StepsAfter(wf.steps, s.trace), s.current)
    case None => s.(success := false, message := StepNotFound(s.current), phase := Stopped)
    case Some(step) => if step.enabled then Try(wf, env, vars, s, step) else Pass(s, step)
  }

  // The body of the step loop.
  function Iterate(wf: Workflow, env: Environment, vars: Variables, s: Run): Run {
    Advance(wf, env, vars, NoteCancellation(env, s))
  }

  function RunFrom(wf: Workflow, env: Environment, vars: Variables, s: Run): Run
    decreases if Guard(wf, s) then 1 + MaxSteps(wf) - s.executed else 0
  {
    if Guard(wf, s) then RunFrom(wf, env, vars, Iterate(wf, env, vars, s)) else s
  }

  function FinalRun(wf: Workflow, env: Environment, vars: Variables): Run
    requires |wf.steps| > 0
  {
    RunFrom(wf, env, vars, Start(wf))
  }

  // The checks after the loop.
  function Conclude(wf: Workflow, vars: Variables, s: Run): Outcome {
    if s.phase.Crashed? then Panicked
    else
      var limit := s.executed >= MaxSteps(wf);
      Finished(ExecutionResult(
                 s.success && !limit,
                 if limit then MaximumStepsExceeded else s.message,
                 Records(s.trace),
                 VariablesAfter(vars, s.trace)))
  }

  // The steps a run leaves behind.  A panic inside an attempt comes after the configuration is
  // overwritten.
  function StepsLeft(wf: Workflow, s: Run): seq<Step> {
    var steps := StepsAfter(wf.steps, s.trace);
    var found := FindStep(steps, s.current);
    if s.phase.Crashed? && found.Some? && EffectiveRetries(wf.retryAttempts, found.value) >= 0
    then Overwritten(steps, s.current) else steps
  }

  function RunWorkflow(wf: Workflow, env: Environment, vars: Variables): Outcome {
    if |wf.steps| == 0 then NoSteps else Conclude(wf, vars, FinalRun(wf, env, vars))
  }

  function InitialVariables(vars: Variables, triggerData: Value, metadata: Value): Variables {
    vars["trigger_data" := triggerData]["metadata" := metadata]
  }
}
