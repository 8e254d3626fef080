// internal/worker/executor.go: the interpreter that runs a workflow step by step.
//
// The actions themselves (HTTP calls, mails, database operations) are an oracle: an
// Environment says what the c-th call of executeStep gets back from its action, and whether
// the context is found cancelled at the start of the i-th iteration.  Everything proved
// holds for every environment.

module WorkflowModel {
  import opened Wrappers

  datatype Value =
    | Null
    | Boolean(b: bool)
    | Integer(i: int)   // what Go code stores, an HTTP status for example
    | Number(r: real)   // what a JSON document holds
    | Text(s: string)
    | List(items: seq<Value>)
    | Object(fields: map<string, Value>)
    | Itself   // the map of variables itself, shared

  type Variables = map<string, Value>

  // The operators that are implemented; any other never holds.
  datatype Operator = Eq | Neq | Gt | OtherOperator(name: string)

  datatype Condition = Condition(field: string, operator: Operator, value: Value, nextStep: string)

  // The type of a step.
  datatype Kind =
    | HTTP | Email | Slack | Webhook | Transform | ConditionStep | Delay | Database | Integration | Notification
    | Unsupported(name: string)

  // The operation of a transform; an empty one is a map.
  datatype Operation = Map | Filter | Template | Extract | Format | UnknownOperation(name: string)

  // What is read from a step's configuration: the optional "max_retries"; a transform's operation,
  // None when the configuration is not one of a transform at all; whether a delay's "delay_ms" is
  // absent or a number; under which target a transform keeps its input as it is, when that is the
  // map of variables (a map without rules on the source "input"); and whether all variables are
  // written out as text, as an HTTP call, a mail or a message does when its configuration can be
  // read, and a template on the source "input".
  datatype Config = Config(
    maxRetries: Option<int>,
    operation: Option<Operation>,
    delayIsNumber: bool,
    keeps: Option<string>,
    writesOut: bool)

  const NO_CONFIG := Config(None, Some(Map), true, None, false)

  datatype Step = Step(
    id: string,
    name: string,
    kind: Kind,
    enabled: bool,
    nextStepID: Option<string>,
    conditions: seq<Condition>,
    config: Config)

  datatype Workflow = Workflow(steps: seq<Step>, retryAttempts: int)

  datatype StepResult = StepResult(
    success: bool,
    output: Option<Variables>,
    errorMessage: string,
    nextStepID: string)

  datatype Status = Completed | Failed | Skipped

  // The record of one step in the execution log.
  datatype StepExecution = StepExecution(
    stepID: string,
    stepName: string,
    status: Status,
    errorMessage: string,
    retryCount: nat,
    output: Variables)

  datatype Message =
    | NoMessage
    | Timeout
    | StepNotFound(id: string)
    | StepFailed(id: string, attempts: nat, error: string)
    | StepReported(text: string)
    | MaximumStepsExceeded

  datatype ExecutionResult = ExecutionResult(
    success: bool,
    errorMessage: Message,
    stepsExecuted: seq<StepExecution>,
    finalVariables: Variables)

  // Panicked: a nil step result was dereferenced, or worse.
  datatype Outcome = NoSteps | Panicked | Finished(result: ExecutionResult)

  // What an action hands back; a nil result, or a panic of the action, is None.
  datatype ActionReply = ActionReply(result: Option<StepResult>, error: Option<string>)

  datatype Environment = Environment(action: nat -> ActionReply, cancelled: nat -> bool)
}
