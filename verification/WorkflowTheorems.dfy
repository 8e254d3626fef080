// What is true of every run of every workflow.
module WorkflowTheorems {
  import opened Wrappers
  import opened Pigeonhole
  import opened WorkflowModel
  import opened WorkflowSemantics

  // ----- What a run does to its own steps -----

  // Whether the step with an ID was tried.
  ghost predicate Touched(trace: seq<Visit>, id: string) {
    exists v :: v in trace && v.Tried? && v.step.id == id
  }

  lemma {:induction false} FindOverwritten(steps: seq<Step>, id: string, other: string)
    ensures FindStep(Overwritten(steps, id), other) ==
            var found := FindStep(steps, other);
            if found.Some? && other == id then Some(Used(found.value)) else found
  {
    if steps != [] && steps[0].id != id { FindOverwritten(steps[1..], id, other); }
  }

  // A webhook step loses its "max_retries" when it is first tried; no other step ever changes.
  lemma {:induction false} FindAfter(steps: seq<Step>, trace: seq<Visit>, id: string)
    ensures FindStep(StepsAfter(steps, trace), id) ==
            var found := FindStep(steps, id);
            if found.Some? && Touched(trace, id) then Some(Used(found.value)) else found
  {
    if trace != [] {
      var init, last := trace[..|trace| - 1], trace[|trace| - 1];
      FindAfter(steps, init, id);
      FindOverwritten(StepsAfter(steps, init), last.step.id, id);
      assert trace == init + [last];
      assert Touched(trace, id) <==> Touched(init, id) || (last.Tried? && last.step.id == id);
    }
  }

  // ----- A run is a walk -----

  // An attempt that came back, but not with success.
  ghost predicate FailedAttempt(step: Step, env: Environment, call: nat, vars: Variables) {
    var a := ExecuteStep(step, env, call, vars);
    a.Some? && !a.value.Succeeded()
  }

  // A visit replayed against the environment, after the visits before it: a disabled step is passed
  // over; an enabled one is tried until an attempt succeeds or the retries are used up.
  ghost predicate IsVisit(wf: Workflow, env: Environment, vars: Variables, before: seq<Visit>, v: Visit) {
    var now, call := VariablesAfter(vars, before), CallsAfter(before);
    && FindStep(StepsAfter(wf.steps, before), v.step.id) == Some(v.step)
    && (v.Passed? <==> !v.step.enabled)
    && (v.Tried? ==>
          && v.retryCount <= EffectiveRetries(wf.retryAttempts, v.step)
          && ExecuteStep(v.step, env, call + v.retryCount, now) == Some(v.last)
          && (v.last.Succeeded() || v.retryCount == EffectiveRetries(wf.retryAttempts, v.step))
          && forall c: nat :: call <= c < call + v.retryCount ==> FailedAttempt(v.step, env, c, now))
  }

  // The k-th visit is the chosen successor of the one before, and only the last may have failed.
  ghost predicate WalkAt(wf: Workflow, env: Environment, vars: Variables, trace: seq<Visit>, k: nat)
    requires |wf.steps| > 0 && k < |trace|
  {
    && trace[k].step.id != ""
    && trace[k].step.id == NextAfter(wf, trace[..k])
    && (k < |trace| - 1 ==> trace[k].Succeeded())
    && IsVisit(wf, env, vars, trace[..k], trace[k])
  }

  ghost predicate IsWalk(wf: Workflow, env: Environment, vars: Variables, trace: seq<Visit>)
    requires |wf.steps| > 0
  {
    forall k :: 0 <= k < |trace| ==> WalkAt(wf, env, vars, trace, k)
  }

  // The step ID a history leads to.
  function NextAfter(wf: Workflow, trace: seq<Visit>): string
    requires |wf.steps| > 0
  {
    if trace == [] then wf.steps[0].id else trace[|trace| - 1].Chosen()
  }

  predicate AllSucceeded(trace: seq<Visit>) {
    forall v :: v in trace ==> v.Succeeded()
  }

  lemma {:induction false} RetryLoopStopsAtFirstSuccess(
    step: Step, env: Environment, call: nat, vars: Variables, attempt: nat, maxRetries: nat)
    requires attempt <= maxRetries
    ensures var r := RetryLoop(step, env, call, vars, attempt, maxRetries);
            r.RetryDone? ==>
              && attempt <= r.retryCount <= maxRetries
              && ExecuteStep(step, env, call + r.retryCount, vars) == Some(r.last)
              && (r.last.Succeeded() || r.retryCount == maxRetries)
              && forall c: nat :: call + attempt <= c < call + r.retryCount ==> FailedAttempt(step, env, c, vars)
    decreases maxRetries - attempt
  {
    var a := ExecuteStep(step, env, call + attempt, vars);
    if a.Some? && !a.value.Succeeded() && attempt < maxRetries {
      RetryLoopStopsAtFirstSuccess(step, env, call, vars, attempt + 1, maxRetries);
      assert FailedAttempt(step, env, call + attempt, vars);
    }
  }

  // What holds of a run at every iteration, and when it is over.
  ghost predicate Shape(wf: Workflow, env: Environment, vars: Variables, s: Run)
    requires |wf.steps| > 0
  {
    && IsWalk(wf, env, vars, s.trace)
    && s.executed <= MaxSteps(wf)
    && (if s.phase.Stopped? && (s.message.StepFailed? || s.message.StepReported?) then
          |s.trace| == s.executed + 1 && !s.trace[s.executed].Succeeded() && s.executed < MaxSteps(wf)
        else
          |s.trace| == s.executed && AllSucceeded(s.trace) && s.current == NextAfter(wf, s.trace))
    && (s.phase.Stopped? && !(s.message.StepFailed? || s.message.StepReported?) ==>
          s.message == StepNotFound(s.current) && Dangling(wf, s.current) && s.executed < MaxSteps(wf))
  }

  predicate Dangling(wf: Workflow, id: string) {
    id != "" && FindStep(wf.steps, id).None?
  }

  // The success flag is lowered by a cancellation or a failure and never raised.
  ghost predicate Flag(env: Environment, s: Run) {
    if s.phase.Stopped? then !s.success
    else s.phase.Looping? ==>
      && (s.success <==> forall i: nat :: i < s.executed ==> !env.cancelled(i))
      && s.message in {NoMessage, Timeout}
  }

  ghost predicate Inv(wf: Workflow, env: Environment, vars: Variables, s: Run)
    requires |wf.steps| > 0
  {
    Shape(wf, env, vars, s) && Flag(env, s)
  }

  lemma WalkGrows(wf: Workflow, env: Environment, vars: Variables, trace: seq<Visit>, v: Visit)
    requires |wf.steps| > 0 && IsWalk(wf, env, vars, trace) && AllSucceeded(trace)
    requires v.step.id == NextAfter(wf, trace) != ""
    requires IsVisit(wf, env, vars, trace, v)
    ensures IsWalk(wf, env, vars, trace + [v])
  {
    var t := trace + [v];
    forall k | 0 <= k < |t| ensures WalkAt(wf, env, vars, t, k) {
      assert t[..k] == trace[..k];
      if k < |trace| {
        assert WalkAt(wf, env, vars, trace, k);
      } else {
        assert t[..k] == trace;
      }
    }
  }

  lemma AttemptKeepsShape(wf: Workflow, env: Environment, vars: Variables, s: Run, v: Visit)
    requires |wf.steps| > 0 && Shape(wf, env, vars, s) && Guard(wf, s)
    requires v.Tried? && v.step.id == s.current && IsVisit(wf, env, vars, s.trace, v)
    ensures Shape(wf, env, vars, AfterAttempt(s, v.step, v.last, v.retryCount))
  {
    WalkGrows(wf, env, vars, s.trace, v);
  }

  lemma TryKeepsShape(wf: Workflow, env: Environment, vars: Variables, s: Run, step: Step)
    requires |wf.steps| > 0 && Shape(wf, env, vars, s) && Guard(wf, s)
    requires FindStep(StepsAfter(wf.steps, s.trace), s.current) == Some(step) && step.enabled
    ensures Shape(wf, env, vars, Try(wf, env, vars, s, step))
  {
    var most := EffectiveRetries(wf.retryAttempts, step);
    if most >= 0 {
      var call, now := CallsAfter(s.trace), VariablesAfter(vars, s.trace);
      var r := RetryLoop(step, env, call, now, 0, most);
      RetryLoopStopsAtFirstSuccess(step, env, call, now, 0, most);
      if r.RetryDone? {
        AttemptKeepsShape(wf, env, vars, s, Tried(step, r.last, r.retryCount));
      }
    }
  }

  lemma IterateKeepsShape(wf: Workflow, env: Environment, vars: Variables, s: Run)
    requires |wf.steps| > 0 && Shape(wf, env, vars, s) && Guard(wf, s)
    ensures Shape(wf, env, vars, Iterate(wf, env, vars, s))
  {
    var s' := NoteCancellation(env, s);
    var found := FindStep(StepsAfter(wf.steps, s.trace), s.current);
    FindAfter(wf.steps, s.trace, s.current);
    if found.Some? {
      if found.value.enabled {
        TryKeepsShape(wf, env, vars, s', found.value);
      } else {
        WalkGrows(wf, env, vars, s.trace, Passed(found.value));
      }
    }
  }

  lemma IterateKeepsFlag(wf: Workflow, env: Environment, vars: Variables, s: Run)
    requires Flag(env, s) && Guard(wf, s)
    ensures Flag(env, Iterate(wf, env, vars, s))
  {
  }

  lemma {:induction false} RunFromKeepsInv(wf: Workflow, env: Environment, vars: Variables, s: Run)
    requires |wf.steps| > 0 && Inv(wf, env, vars, s)
    ensures var t := RunFrom(wf, env, vars, s); Inv(wf, env, vars, t) && !Guard(wf, t)
    decreases if Guard(wf, s) then 1 + MaxSteps(wf) - s.executed else 0
  {
    if Guard(wf, s) {
      IterateKeepsShape(wf, env, vars, s);
      IterateKeepsFlag(wf, env, vars, s);
      RunFromKeepsInv(wf, env, vars, Iterate(wf, env, vars, s));
    }
  }

  lemma FinalRunInv(wf: Workflow, env: Environment, vars: Variables)
    requires |wf.steps| > 0
    ensures Inv(wf, env, vars, FinalRun(wf, env, vars)) && !Guard(wf, FinalRun(wf, env, vars))
  {
    RunFromKeepsInv(wf, env, vars, Start(wf));
  }

  // Every record of a finished run is the record of one visit of a walk from the first step along
  // the chosen successors; there are at most 2n of them, and only the last can be a failure.
  lemma RunIsWalk(wf: Workflow, env: Environment, vars: Variables)
    requires RunWorkflow(wf, env, vars).Finished?
    ensures var r := RunWorkflow(wf, env, vars).result;
            var trace := FinalRun(wf, env, vars).trace;
            && IsWalk(wf, env, vars, trace)
            && r.stepsExecuted == Records(trace)
            && r.finalVariables == VariablesAfter(vars, trace)
            && |r.stepsExecuted| <= 2 * |wf.steps|
            && forall k :: 0 <= k < |r.stepsExecuted| - 1 ==> !r.stepsExecuted[k].status.Failed?
  {
    FinalRunInv(wf, env, vars);
    var trace := FinalRun(wf, env, vars).trace;
    forall k | 0 <= k < |trace| - 1 ensures trace[k].Succeeded() {
      assert WalkAt(wf, env, vars, trace, k);
    }
  }

  // A run is reported successful exactly when its context was never found cancelled, every step it
  // visited succeeded or was disabled, and the walk ended at "" in fewer than 2n steps.
  lemma SuccessExactly(wf: Workflow, env: Environment, vars: Variables)
    requires RunWorkflow(wf, env, vars).Finished?
    ensures var r := RunWorkflow(wf, env, vars).result;
            var trace := FinalRun(wf, env, vars).trace;
            r.success <==>
              && (forall i: nat :: i < |trace| ==> !env.cancelled(i))
              && (forall e :: e in r.stepsExecuted ==> !e.status.Failed?)
              && NextAfter(wf, trace) == ""
              && |trace| < 2 * |wf.steps|
  {
    FinalRunInv(wf, env, vars);
    var s := FinalRun(wf, env, vars);
    var r := RunWorkflow(wf, env, vars).result;
    assert forall k :: 0 <= k < |s.trace| ==> (r.stepsExecuted[k].status.Failed? <==> !s.trace[k].Succeeded());
    if forall e :: e in r.stepsExecuted ==> !e.status.Failed? {
      assert AllSucceeded(s.trace);
    }
  }

  // No step is retried more often, neither as configured nor, for a webhook, by default.
  ghost predicate RetriesWithin(wf: Workflow, most: nat) {
    forall s :: s in wf.steps ==>
      EffectiveRetries(wf.retryAttempts, s) <= most && EffectiveRetries(wf.retryAttempts, Used(s)) <= most
  }

  lemma VisitCalls(wf: Workflow, env: Environment, vars: Variables, before: seq<Visit>, v: Visit, most: nat)
    requires IsVisit(wf, env, vars, before, v) && RetriesWithin(wf, most)
    ensures v.Calls() <= most + 1
  {
    FindAfter(wf.steps, before, v.step.id);
  }

  lemma {:induction false} CallsBounded(
    wf: Workflow, env: Environment, vars: Variables, trace: seq<Visit>, k: nat, most: nat)
    requires |wf.steps| > 0 && IsWalk(wf, env, vars, trace) && k <= |trace|
    requires RetriesWithin(wf, most)
    ensures CallsAfter(trace[..k]) <= k * (most + 1)
  {
    if k > 0 {
      var init := trace[..k - 1];
      CallsBounded(wf, env, vars, trace, k - 1, most);
      assert WalkAt(wf, env, vars, trace, k - 1);
      VisitCalls(wf, env, vars, init, trace[k - 1], most);
      assert trace[..k][..k - 1] == init;
      assert CallsAfter(trace[..k]) == CallsAfter(init) + trace[k - 1].Calls();
      OneMore(k - 1, most + 1);
    }
  }

  lemma OneMore(k: nat, c: nat)
    ensures (k + 1) * c == k * c + c
  {
  }

  lemma Scale(a: nat, b: nat, c: nat)
    requires a <= b
    ensures a * c <= b * c
  {
  }

  // How many attempts the retry loop makes from one on.
  function AttemptsOf(step: Step, env: Environment, call: nat, vars: Variables, attempt: nat, maxRetries: nat): nat
    requires attempt <= maxRetries
    decreases maxRetries - attempt
  {
    var a := ExecuteStep(step, env, call + attempt, vars);
    if a.None? || a.value.Succeeded() || attempt == maxRetries then 1
    else 1 + AttemptsOf(step, env, call, vars, attempt + 1, maxRetries)
  }

  lemma {:induction false} AttemptsOfBounded(
    step: Step, env: Environment, call: nat, vars: Variables, attempt: nat, maxRetries: nat)
    requires attempt <= maxRetries
    ensures var n := AttemptsOf(step, env, call, vars, attempt, maxRetries);
            var r := RetryLoop(step, env, call, vars, attempt, maxRetries);
            n <= maxRetries - attempt + 1 && (r.RetryDone? ==> n == r.retryCount - attempt + 1)
    decreases maxRetries - attempt
  {
    if attempt < maxRetries { AttemptsOfBounded(step, env, call, vars, attempt + 1, maxRetries); }
  }

  // The attempts of the step a run crashed in.
  function LastAttempts(wf: Workflow, env: Environment, vars: Variables, s: Run): nat {
    var found := FindStep(StepsAfter(wf.steps, s.trace), s.current);
    if !s.phase.Crashed? || found.None? || EffectiveRetries(wf.retryAttempts, found.value) < 0 then 0
    else AttemptsOf(found.value, env, CallsAfter(s.trace), VariablesAfter(vars, s.trace), 0,
                    EffectiveRetries(wf.retryAttempts, found.value))
  }

  lemma LastAttemptsBounded(wf: Workflow, env: Environment, vars: Variables, s: Run, most: nat)
    requires RetriesWithin(wf, most)
    ensures LastAttempts(wf, env, vars, s) <= most + 1
  {
    var found := FindStep(StepsAfter(wf.steps, s.trace), s.current);
    FindAfter(wf.steps, s.trace, s.current);
    if found.Some? && EffectiveRetries(wf.retryAttempts, found.value) >= 0 {
      AttemptsOfBounded(found.value, env, CallsAfter(s.trace), VariablesAfter(vars, s.trace), 0,
                        EffectiveRetries(wf.retryAttempts, found.value));
    }
  }

  // A run makes at most 2n(R+1) attempts, those of the step it crashes in included, R being the
  // largest retry count of a step, or the workflow's own where that is larger and there is a
  // webhook.
  lemma AttemptsBounded(wf: Workflow, env: Environment, vars: Variables, most: nat)
    requires |wf.steps| > 0 && RetriesWithin(wf, most)
    ensures var s := FinalRun(wf, env, vars);
            CallsAfter(s.trace) + LastAttempts(wf, env, vars, s) <= MaxSteps(wf) * (most + 1)
  {
    var s := FinalRun(wf, env, vars);
    var m := |s.trace|;
    assert IsWalk(wf, env, vars, s.trace) && m <= MaxSteps(wf) by { FinalRunInv(wf, env, vars); }
    assert s.phase.Crashed? ==> m < MaxSteps(wf) by { PanicsExactly(wf, env, vars); }
    assert s.trace[..m] == s.trace;
    CallsBounded(wf, env, vars, s.trace, m, most);
    LastAttemptsBounded(wf, env, vars, s, most);
    OneMore(m, most + 1);
    Scale(if s.phase.Crashed? then m + 1 else m, MaxSteps(wf), most + 1);
  }

  // A workflow of one webhook that follows itself and is not to be retried.
  ghost predicate LoneWebhook(wf: Workflow, hook: Step) {
    && wf.steps == [hook] && hook.id != "" && hook.enabled && hook.kind.Webhook?
    && hook.nextStepID == Some(hook.id) && hook.config.maxRetries == Some(0)
  }

  // The first attempt of all succeeds, and no other.
  ghost predicate OnlyFirstSucceeds(env: Environment) {
    && env.action(0) == ActionReply(Some(StepResult(true, None, "", "")), None)
    && forall c: nat :: c > 0 ==> env.action(c).result.Some? && env.action(c).error.Some?
  }

  lemma {:induction false} HookFails(
    hook: Step, env: Environment, call: nat, vars: Variables, attempt: nat, maxRetries: nat)
    requires hook.kind.Webhook? && OnlyFirstSucceeds(env) && !SelfContaining(vars) && call > 0 && attempt <= maxRetries
    ensures var r := RetryLoop(hook, env, call, vars, attempt, maxRetries);
            r.RetryDone? && r.retryCount == maxRetries && r.last.error.Some?
    decreases maxRetries - attempt
  {
    if attempt < maxRetries { HookFails(hook, env, call, vars, attempt + 1, maxRetries); }
  }

  function HookVisit(hook: Step): Visit {
    Tried(hook, Attempt(StepResult(true, None, "", ""), None), 0)
  }

  lemma FirstHookVisit(wf: Workflow, env: Environment, vars: Variables, hook: Step)
    requires LoneWebhook(wf, hook) && OnlyFirstSucceeds(env) && !SelfContaining(vars)
    ensures SamePlace(Iterate(wf, env, vars, Start(wf)), Start(wf).(trace := [HookVisit(hook)], executed := 1))
  {
    assert RetryLoop(hook, env, 0, vars, 0, 0) == RetryDone(HookVisit(hook).last, 0);
    assert StepsAfter(wf.steps, []) == wf.steps;
  }

  lemma SecondHookVisit(wf: Workflow, env: Environment, vars: Variables, hook: Step, s: Run)
    requires LoneWebhook(wf, hook) && OnlyFirstSucceeds(env) && !SelfContaining(vars)
    requires SamePlace(s, Start(wf).(trace := [HookVisit(hook)], executed := 1))
    ensures var t := Iterate(wf, env, vars, s);
            && t.phase.Stopped? && |t.trace| == 2 && t.trace[..1] == s.trace
            && t.trace[1].Calls() == DefaultRetries(wf.retryAttempts) + 1
  {
    assert HookVisit(hook) in s.trace;
    FindAfter(wf.steps, s.trace, hook.id);
    assert CallsAfter(s.trace) == 1 && VariablesAfter(vars, s.trace) == vars by { assert s.trace[..0] == []; }
    HookFails(Used(hook), env, 1, VariablesAfter(vars, s.trace), 0, DefaultRetries(wf.retryAttempts));
    TryAttempt(wf, env, vars, NoteCancellation(env, s), Used(hook));
  }

  lemma TryAttempt(wf: Workflow, env: Environment, vars: Variables, s: Run, step: Step)
    ensures var most := EffectiveRetries(wf.retryAttempts, step);
            most >= 0 ==>
              var r := RetryLoop(step, env, CallsAfter(s.trace), VariablesAfter(vars, s.trace), 0, most);
              r.RetryDone? ==> Try(wf, env, vars, s, step) == AfterAttempt(s, step, r.last, r.retryCount)
  {
  }

  // The count configured for a webhook holds for its first visit only: here it is tried once, and
  // then as often as the workflow's own retry count says.
  lemma WebhookForgetsRetries(wf: Workflow, env: Environment, vars: Variables, hook: Step)
    requires LoneWebhook(wf, hook) && OnlyFirstSucceeds(env) && !SelfContaining(vars)
    ensures CallsAfter(FinalRun(wf, env, vars).trace) == 2 + DefaultRetries(wf.retryAttempts)
  {
    var s1 := Iterate(wf, env, vars, Start(wf));
    FirstHookVisit(wf, env, vars, hook);
    var s2 := Iterate(wf, env, vars, s1);
    SecondHookVisit(wf, env, vars, hook, s1);
    assert RunFrom(wf, env, vars, s2) == s2;
    assert Guard(wf, s1) && RunFrom(wf, env, vars, s1) == RunFrom(wf, env, vars, s2);
    assert Guard(wf, Start(wf)) && FinalRun(wf, env, vars) == RunFrom(wf, env, vars, s1);
    assert CallsAfter(s2.trace) == CallsAfter(s1.trace) + s2.trace[1].Calls();
  }

  // ----- When the executor panics -----

  // The retry loop panics exactly when an attempt does, all attempts before it having failed.
  ghost predicate PanicsAt(step: Step, env: Environment, call: nat, vars: Variables, attempt: nat, c: nat) {
    && ExecuteStep(step, env, call + c, vars).None?
    && forall d: nat :: call + attempt <= d < call + c ==> FailedAttempt(step, env, d, vars)
  }

  lemma PanicsLater(step: Step, env: Environment, call: nat, vars: Variables, attempt: nat, c: nat)
    requires attempt < c && FailedAttempt(step, env, call + attempt, vars)
    ensures PanicsAt(step, env, call, vars, attempt, c) <==> PanicsAt(step, env, call, vars, attempt + 1, c)
  {
    if PanicsAt(step, env, call, vars, attempt + 1, c) {
      forall d: nat | call + attempt <= d < call + c ensures FailedAttempt(step, env, d, vars) {
        assert d == call + attempt || call + (attempt + 1) <= d;
      }
    }
  }

  lemma {:induction false} RetryLoopPanics(
    step: Step, env: Environment, call: nat, vars: Variables, attempt: nat, maxRetries: nat)
    requires attempt <= maxRetries
    ensures RetryLoop(step, env, call, vars, attempt, maxRetries).RetryPanic? <==>
            exists c: nat :: attempt <= c <= maxRetries && PanicsAt(step, env, call, vars, attempt, c)
    decreases maxRetries - attempt
  {
    var a := ExecuteStep(step, env, call + attempt, vars);
    if a.None? {
      assert PanicsAt(step, env, call, vars, attempt, attempt);
    } else if a.value.Succeeded() || attempt == maxRetries {
      forall c: nat | attempt <= c <= maxRetries ensures !PanicsAt(step, env, call, vars, attempt, c) {
        if c > attempt { assert !FailedAttempt(step, env, call + attempt, vars); }
      }
    } else {
      assert FailedAttempt(step, env, call + attempt, vars);
      RetryLoopPanics(step, env, call, vars, attempt + 1, maxRetries);
      if c: nat :| attempt <= c <= maxRetries && PanicsAt(step, env, call, vars, attempt, c) {
        assert attempt < c;
        PanicsLater(step, env, call, vars, attempt, c);
      }
      var next := attempt + 1;
      if c: nat :| next <= c <= maxRetries && PanicsAt(step, env, call, vars, next, c) {
        PanicsLater(step, env, call, vars, attempt, c);
      }
    }
  }

  // Trying a step ends in a panic: it has a negative retry count, so that the retry loop makes no
  // attempt at all, or one of its attempts gets a nil result.
  ghost predicate Panics(wf: Workflow, env: Environment, vars: Variables, trace: seq<Visit>, step: Step) {
    var most := EffectiveRetries(wf.retryAttempts, step);
    most < 0 ||
    exists c: nat :: 0 <= c <= most && PanicsAt(step, env, CallsAfter(trace), VariablesAfter(vars, trace), 0, c)
  }

  // The history leads to an enabled step that panics.
  ghost predicate LeadsToPanic(wf: Workflow, env: Environment, vars: Variables, trace: seq<Visit>)
    requires |wf.steps| > 0
  {
    var id := NextAfter(wf, trace);
    var found := FindStep(StepsAfter(wf.steps, trace), id);
    id != "" && found.Some? && found.value.enabled && Panics(wf, env, vars, trace, found.value)
  }

  lemma TryPanics(wf: Workflow, env: Environment, vars: Variables, s: Run, step: Step)
    requires s.phase.Looping?
    ensures var t := Try(wf, env, vars, s, step);
            && (t.phase.Crashed? <==> Panics(wf, env, vars, s.trace, step))
            && (t.phase.Crashed? ==> t == s.(phase := Crashed))
  {
    var most := EffectiveRetries(wf.retryAttempts, step);
    if most >= 0 { RetryLoopPanics(step, env, CallsAfter(s.trace), VariablesAfter(vars, s.trace), 0, most); }
  }

  lemma IteratePanics(wf: Workflow, env: Environment, vars: Variables, s: Run)
    requires |wf.steps| > 0 && Guard(wf, s) && s.current == NextAfter(wf, s.trace)
    ensures var t := Iterate(wf, env, vars, s);
            && (t.phase.Crashed? <==> LeadsToPanic(wf, env, vars, s.trace))
            && (t.phase.Crashed? ==> t.trace == s.trace && t.executed == s.executed)
  {
    var found := FindStep(StepsAfter(wf.steps, s.trace), s.current);
    if found.Some? && found.value.enabled { TryPanics(wf, env, vars, NoteCancellation(env, s), found.value); }
  }

  lemma StoppedHere(wf: Workflow, env: Environment, vars: Variables, t: Run)
    requires |wf.steps| > 0 && Shape(wf, env, vars, t) && t.phase.Stopped?
    ensures !(AllSucceeded(t.trace) && LeadsToPanic(wf, env, vars, t.trace))
  {
    FindAfter(wf.steps, t.trace, t.current);
    if t.message.StepFailed? || t.message.StepReported? { assert t.trace[t.executed] in t.trace; }
  }

  lemma {:induction false} RunFromPanics(wf: Workflow, env: Environment, vars: Variables, s: Run)
    requires |wf.steps| > 0 && Shape(wf, env, vars, s) && !s.phase.Crashed?
    ensures var t := RunFrom(wf, env, vars, s);
            t.phase.Crashed? <==>
              && AllSucceeded(t.trace) && |t.trace| < MaxSteps(wf)
              && LeadsToPanic(wf, env, vars, t.trace)
    decreases if Guard(wf, s) then 1 + MaxSteps(wf) - s.executed else 0
  {
    if Guard(wf, s) {
      var t := Iterate(wf, env, vars, s);
      IterateKeepsShape(wf, env, vars, s);
      IteratePanics(wf, env, vars, s);
      if t.phase.Crashed? {
        assert RunFrom(wf, env, vars, t) == t;
      } else {
        RunFromPanics(wf, env, vars, t);
      }
    } else if s.phase.Stopped? {
      StoppedHere(wf, env, vars, s);
    }
  }

  // A run brings the executor down exactly when its walk gets, without a failure and within the
  // limit, to an enabled step that has a negative retry count or gets a nil result.
  lemma PanicsExactly(wf: Workflow, env: Environment, vars: Variables)
    requires |wf.steps| > 0
    ensures var trace := FinalRun(wf, env, vars).trace;
            RunWorkflow(wf, env, vars).Panicked? <==>
              AllSucceeded(trace) && |trace| < MaxSteps(wf) && LeadsToPanic(wf, env, vars, trace)
  {
    FinalRunInv(wf, env, vars);
    RunFromPanics(wf, env, vars, Start(wf));
  }

  ghost predicate Plain(output: Option<Variables>) {
    output.Some? ==> !SelfContaining(output.value)
  }

  // Nothing comes back nil from the actions proper, and none of their outputs contains the map of
  // variables.
  ghost predicate Replies(env: Environment) {
    forall c: nat :: env.action(c).result.Some? && Plain(env.action(c).result.value.output)
  }

  // The check a caller can make of a step: its retry count is not negative, its action can read its
  // configuration, and its conditions compare with no map and no list.
  predicate WellConfigured(wf: Workflow, step: Step) {
    && EffectiveRetries(wf.retryAttempts, step) >= 0
    && Readable(step)
    && (step.kind.ConditionStep? ==> forall c :: c in step.conditions ==> ComparesPlainly(c))
  }

  predicate ComparesPlainly(c: Condition) {
    c.operator.Eq? || c.operator.Neq? ==> !IsMap(c.value) && !c.value.List?
  }

  lemma {:induction false} PlainConditions(conditions: seq<Condition>, vars: Variables)
    requires forall c :: c in conditions ==> ComparesPlainly(c)
    ensures EvaluateConditions(conditions, vars).Some?
  {
    if conditions != [] {
      assert conditions[0] in conditions && forall c :: c in conditions[1..] ==> c in conditions;
      PlainConditions(conditions[1..], vars);
    }
  }

  lemma WellConfiguredReplies(wf: Workflow, env: Environment, step: Step, call: nat, vars: Variables)
    requires Replies(env) && WellConfigured(wf, step)
    ensures ExecuteStep(step, env, call, vars).None? <==> WritesOut(step) && SelfContaining(vars)
  {
    if step.kind.ConditionStep? { PlainConditions(step.conditions, vars); }
  }

  // With such actions, trying a well configured step panics exactly when it writes out variables
  // that contain themselves.
  lemma ConfiguredPanics(wf: Workflow, env: Environment, vars: Variables, trace: seq<Visit>, step: Step)
    requires Replies(env) && WellConfigured(wf, step)
    ensures Panics(wf, env, vars, trace, step) <==> WritesOut(step) && SelfContaining(VariablesAfter(vars, trace))
  {
    var call, now := CallsAfter(trace), VariablesAfter(vars, trace);
    WellConfiguredReplies(wf, env, step, call, now);
    if WritesOut(step) && SelfContaining(now) {
      assert PanicsAt(step, env, call, now, 0, 0);
    } else {
      forall c: nat ensures ExecuteStep(step, env, c, now).Some? {
        WellConfiguredReplies(wf, env, step, c, now);
      }
    }
  }

  // ----- Variables that contain themselves -----

  lemma PlainUpdate(vars: Variables, v: Visit)
    requires !SelfContaining(vars) && (v.Tried? ==> Plain(v.last.result.output))
    ensures !SelfContaining(UpdateVariables(vars, v))
  {
    var after := UpdateVariables(vars, v);
    if v.Tried? && v.last.error.None? && v.last.result.output.Some? {
      var output := v.last.result.output.value;
      forall k | k in after ensures !Contains(after[k]) {
        if k == "last_step_output" {
          assert after[k] == Object(output);
        } else if k in OutputVariables(v.step.id, output, output.Keys) {
          var key :| key in output.Keys && k == OutputPrefix(v.step.id) + key;
          assert k[|OutputPrefix(v.step.id)|..] == key;
        }
      }
    }
  }

  // An attempt of a step that keeps nothing puts out nothing that contains the variables.
  lemma PlainAttempt(env: Environment, step: Step, call: nat, vars: Variables)
    requires Replies(env) && !Keeps(step)
    ensures var a := ExecuteStep(step, env, call, vars); a.Some? ==> Plain(a.value.result.output)
  {
  }

  // Where no enabled step keeps the map of variables, they never contain themselves.
  lemma {:induction false} VariablesStayPlain(
    wf: Workflow, env: Environment, vars: Variables, trace: seq<Visit>, k: nat)
    requires |wf.steps| > 0 && Replies(env) && IsWalk(wf, env, vars, trace) && k <= |trace|
    requires !SelfContaining(vars) && forall s :: s in wf.steps && s.enabled ==> !Keeps(s)
    ensures !SelfContaining(VariablesAfter(vars, trace[..k]))
  {
    if k > 0 {
      var init, v := trace[..k - 1], trace[k - 1];
      VariablesStayPlain(wf, env, vars, trace, k - 1);
      assert WalkAt(wf, env, vars, trace, k - 1);
      FindAfter(wf.steps, init, v.step.id);
      if v.Tried? { PlainAttempt(env, v.step, CallsAfter(init) + v.retryCount, VariablesAfter(vars, init)); }
      PlainUpdate(VariablesAfter(vars, init), v);
      assert trace[..k][..k - 1] == init;
    }
  }

  // Every run finishes if all enabled steps are well configured and either none of them keeps the
  // map of variables as it is, or none writes the variables out.  The replies of the actions are
  // assumed only where the steps leave them a choice: a transform that formats a single variable
  // which contains the others is among the panics of the oracle.
  lemma NeverPanics(wf: Workflow, env: Environment, vars: Variables)
    requires |wf.steps| > 0 && Replies(env) && !SelfContaining(vars)
    requires forall s :: s in wf.steps && s.enabled ==> WellConfigured(wf, s)
    requires (forall s :: s in wf.steps && s.enabled ==> !Keeps(s))
             || (forall s :: s in wf.steps && s.enabled ==> !WritesOut(s))
    ensures RunWorkflow(wf, env, vars).Finished?
  {
    var trace := FinalRun(wf, env, vars).trace;
    PanicsExactly(wf, env, vars);
    FinalRunInv(wf, env, vars);
    assert trace[..|trace|] == trace;
    var found := FindStep(StepsAfter(wf.steps, trace), NextAfter(wf, trace));
    FindAfter(wf.steps, trace, NextAfter(wf, trace));
    if found.Some? && found.value.enabled {
      ConfiguredPanics(wf, env, vars, trace, found.value);
      if forall s :: s in wf.steps && s.enabled ==> !Keeps(s) { VariablesStayPlain(wf, env, vars, trace, |trace|); }
    }
  }

  // Two steps, both well configured: one keeps the map of variables, the next writes them out.
  ghost predicate KeepThenWrite(wf: Workflow, keep: Step, write: Step) {
    && wf.steps == [keep, write] && keep.id != "" && write.id != "" && keep.id != write.id
    && keep.enabled && Keeps(keep) && !WritesOut(keep) && keep.nextStepID == Some(write.id)
    && write.enabled && WritesOut(write)
    && WellConfigured(wf, keep) && WellConfigured(wf, write)
  }

  function KeepVisit(keep: Step): Visit
    requires Keeps(keep)
  {
    Tried(keep, Attempt(StepResult(true, Some(KeptOutput(keep.config.keeps.value)), "", ""), None), 0)
  }

  lemma KeptContainsItself(keep: Step, vars: Variables)
    requires Keeps(keep)
    ensures SelfContaining(UpdateVariables(vars, KeepVisit(keep)))
  {
    var output := KeptOutput(keep.config.keeps.value);
    var after := UpdateVariables(vars, KeepVisit(keep));
    var key := KeptKey(keep.config.keeps.value);
    assert key in output && output[key] == Itself && Contains(output[key]);
    assert after["last_step_output"] == Object(output);
    assert Contains(Object(output));
  }

  // Such a workflow always brings the executor down: the variables come to contain themselves, and
  // writing them out does not end.
  lemma KeepVisited(wf: Workflow, env: Environment, vars: Variables, keep: Step, write: Step)
    requires KeepThenWrite(wf, keep, write)
    ensures var s := Iterate(wf, env, vars, Start(wf));
            && s.trace == [KeepVisit(keep)] && s.current == write.id && s.executed == 1 && s.phase.Looping?
            && SelfContaining(VariablesAfter(vars, s.trace))
  {
    var s0, v := Start(wf), KeepVisit(keep);
    assert FindStep(StepsAfter(wf.steps, []), keep.id) == Some(keep);
    assert RetryLoop(keep, env, 0, vars, 0, EffectiveRetries(wf.retryAttempts, keep)) == RetryDone(v.last, 0);
    TryAttempt(wf, env, vars, NoteCancellation(env, s0), keep);
    assert VariablesAfter(vars, [v]) == UpdateVariables(vars, v) by { assert [v][..0] == []; }
    KeptContainsItself(keep, vars);
  }

  // Such a workflow always brings the executor down: the variables come to contain themselves, and
  // writing them out does not end.
  lemma KeptVariablesPanic(wf: Workflow, env: Environment, vars: Variables, keep: Step, write: Step)
    requires KeepThenWrite(wf, keep, write)
    ensures RunWorkflow(wf, env, vars).Panicked?
  {
    var s0 := Start(wf);
    var s1 := Iterate(wf, env, vars, s0);
    KeepVisited(wf, env, vars, keep, write);
    FindAfter(wf.steps, s1.trace, write.id);
    assert wf.steps[1..][0] == write;
    WritingPanics(wf, env, vars, s1, write);
    var s2 := Iterate(wf, env, vars, s1);
    assert RunFrom(wf, env, vars, s2) == s2;
    assert RunFrom(wf, env, vars, s1) == RunFrom(wf, env, vars, s2);
    assert RunFrom(wf, env, vars, s0) == RunFrom(wf, env, vars, s1);
  }

  lemma WritingPanics(wf: Workflow, env: Environment, vars: Variables, s: Run, write: Step)
    requires |wf.steps| > 0 && Guard(wf, s) && s.current == NextAfter(wf, s.trace)
    requires FindStep(StepsAfter(wf.steps, s.trace), s.current) == Some(write) && write.enabled && WritesOut(write)
    requires SelfContaining(VariablesAfter(vars, s.trace))
    ensures Iterate(wf, env, vars, s).phase.Crashed?
  {
    if EffectiveRetries(wf.retryAttempts, write) >= 0 {
      assert PanicsAt(write, env, CallsAfter(s.trace), VariablesAfter(vars, s.trace), 0, 0);
    }
    IteratePanics(wf, env, vars, s);
  }

  // A step that is not even tried, or cannot read its configuration.
  predicate Unusable(wf: Workflow, step: Step) {
    EffectiveRetries(wf.retryAttempts, step) < 0 || !Readable(step)
  }

  // An unusable enabled first step always brings the executor down: one with a negative
  // "max_retries", a transform with an unknown operation, a delay that is not a number.
  lemma BadConfigurationPanics(wf: Workflow, env: Environment, vars: Variables)
    requires |wf.steps| > 0 && wf.steps[0].id != "" && wf.steps[0].enabled && Unusable(wf, wf.steps[0])
    ensures RunWorkflow(wf, env, vars).Panicked?
  {
    var s, step := Start(wf), wf.steps[0];
    if EffectiveRetries(wf.retryAttempts, step) >= 0 {
      assert PanicsAt(step, env, CallsAfter([]), VariablesAfter(vars, []), 0, 0);
    }
    assert FindStep(StepsAfter(wf.steps, []), step.id) == Some(step);
    IteratePanics(wf, env, vars, s);
    var t := Iterate(wf, env, vars, s);
    assert RunFrom(wf, env, vars, t) == t;
  }

  // ----- Cancellation -----

  // Two runs are at the same place, whatever their flags and messages.
  ghost predicate SamePlace(s: Run, t: Run) {
    s.trace == t.trace && s.current == t.current && s.executed == t.executed && s.phase == t.phase
  }

  lemma TryTogether(wf: Workflow, env1: Environment, env2: Environment, vars: Variables, s: Run, t: Run, step: Step)
    requires env1.action == env2.action && SamePlace(s, t)
    ensures SamePlace(Try(wf, env1, vars, s, step), Try(wf, env2, vars, t, step))
  {
    var most := EffectiveRetries(wf.retryAttempts, step);
    if most >= 0 { SameAttempts(step, env1, env2, CallsAfter(s.trace), VariablesAfter(vars, s.trace), 0, most); }
  }

  lemma AdvanceTogether(wf: Workflow, env1: Environment, env2: Environment, vars: Variables, s: Run, t: Run)
    requires env1.action == env2.action && SamePlace(s, t)
    ensures SamePlace(Advance(wf, env1, vars, s), Advance(wf, env2, vars, t))
  {
    var found := FindStep(StepsAfter(wf.steps, s.trace), s.current);
    if found.Some? && found.value.enabled { TryTogether(wf, env1, env2, vars, s, t, found.value); }
  }

  lemma IterateTogether(wf: Workflow, env1: Environment, env2: Environment, vars: Variables, s: Run, t: Run)
    requires env1.action == env2.action && SamePlace(s, t)
    ensures SamePlace(Iterate(wf, env1, vars, s), Iterate(wf, env2, vars, t))
  {
    AdvanceTogether(wf, env1, env2, vars, NoteCancellation(env1, s), NoteCancellation(env2, t));
  }

  lemma {:induction false} SameAttempts(
    step: Step, env1: Environment, env2: Environment, call: nat, vars: Variables, attempt: nat, maxRetries: nat)
    requires attempt <= maxRetries && env1.action == env2.action
    ensures RetryLoop(step, env1, call, vars, attempt, maxRetries) ==
            RetryLoop(step, env2, call, vars, attempt, maxRetries)
    decreases maxRetries - attempt
  {
    if attempt < maxRetries { SameAttempts(step, env1, env2, call, vars, attempt + 1, maxRetries); }
  }

  lemma {:induction false} RunTogether(
    wf: Workflow, env1: Environment, env2: Environment, vars: Variables, s: Run, t: Run)
    requires env1.action == env2.action && SamePlace(s, t)
    ensures SamePlace(RunFrom(wf, env1, vars, s), RunFrom(wf, env2, vars, t))
    decreases if Guard(wf, s) then 1 + MaxSteps(wf) - s.executed else 0
  {
    if Guard(wf, s) {
      IterateTogether(wf, env1, env2, vars, s, t);
      RunTogether(wf, env1, env2, vars, Iterate(wf, env1, vars, s), Iterate(wf, env2, vars, t));
    }
  }

  // Cancelling does not stop a workflow: whenever the context is found cancelled, a run makes the
  // same visits and attempts, keeps the same records and variables and ends at the same place as
  // one that is never cancelled.
  lemma CancellationDoesNotStop(wf: Workflow, env: Environment, calm: Environment, vars: Variables)
    requires |wf.steps| > 0 && env.action == calm.action
    ensures SamePlace(FinalRun(wf, env, vars), FinalRun(wf, calm, vars))
    ensures var a, b := RunWorkflow(wf, env, vars), RunWorkflow(wf, calm, vars);
            && (a.Panicked? <==> b.Panicked?)
            && (a.Finished? ==>
                  && a.result.stepsExecuted == b.result.stepsExecuted
                  && a.result.finalVariables == b.result.finalVariables)
  {
    RunTogether(wf, env, calm, vars, Start(wf), Start(wf));
  }

  // ----- The loop detector -----

  ghost function StepIDs(wf: Workflow): set<string> {
    set s | s in wf.steps :: s.id
  }

  lemma {:induction false} StepIDsCount(steps: seq<Step>)
    ensures |set s | s in steps :: s.id| <= |steps|
  {
    if steps != [] {
      var init, last := steps[..|steps| - 1], steps[|steps| - 1];
      StepIDsCount(init);
      assert steps == init + [last];
      assert (set s | s in steps :: s.id) == (set s | s in init :: s.id) + {last.id};
    }
  }

  // Whatever the conditions and the actions do, a run that is reported as a loop did visit some
  // step twice.
  lemma LimitMeansRevisit(wf: Workflow, env: Environment, vars: Variables) returns (i: nat, j: nat)
    requires RunWorkflow(wf, env, vars).Finished?
    requires RunWorkflow(wf, env, vars).result.errorMessage == MaximumStepsExceeded
    ensures var records := RunWorkflow(wf, env, vars).result.stepsExecuted;
            i < j < |records| && records[i].stepID == records[j].stepID
  {
    FinalRunInv(wf, env, vars);
    var trace := FinalRun(wf, env, vars).trace;
    var ids := seq(|trace|, k requires 0 <= k < |trace| => trace[k].step.id);
    StepIDsCount(wf.steps);
    forall k | 0 <= k < |ids| ensures ids[k] in StepIDs(wf) {
      assert WalkAt(wf, env, vars, trace, k);
      FindAfter(wf.steps, trace[..k], trace[k].step.id);
    }
    i, j := Collision(ids, StepIDs(wf));
    assert trace[i].Record().stepID == trace[j].Record().stepID;
  }

  // No enabled step chooses its successor at run time.
  ghost predicate StaticSuccessors(wf: Workflow, env: Environment) {
    && (forall s :: s in wf.steps && s.enabled ==> !s.kind.ConditionStep? || s.conditions == [])
    && (forall c: nat :: env.action(c).result.Some? ==> env.action(c).result.value.nextStepID == "")
  }

  // The walk through the workflow's own graph, which stays where it ends.
  predicate Terminal(wf: Workflow, id: string) {
    id == "" || FindStep(wf.steps, id).None?
  }

  function Successor(wf: Workflow, id: string): string {
    if Terminal(wf, id) then id else NextStepID(FindStep(wf.steps, id).value)
  }

  function Walk(wf: Workflow, k: nat): string
    requires |wf.steps| > 0
  {
    if k == 0 then wf.steps[0].id else Successor(wf, Walk(wf, k - 1))
  }

  lemma {:induction false} TerminalStays(wf: Workflow, i: nat, k: nat)
    requires |wf.steps| > 0 && i <= k && Terminal(wf, Walk(wf, i))
    ensures Walk(wf, k) == Walk(wf, i)
  {
    if i < k { TerminalStays(wf, i, k - 1); }
  }

  lemma {:induction false} WalkShifts(wf: Workflow, i: nat, j: nat, m: nat)
    requires |wf.steps| > 0 && Walk(wf, i) == Walk(wf, j)
    ensures Walk(wf, i + m) == Walk(wf, j + m)
  {
    if m > 0 { WalkShifts(wf, i, j, m - 1); }
  }

  // A walk that returns to a step goes round for ever: nothing new is reached.
  lemma {:induction false} WalkIsPeriodic(wf: Workflow, i: nat, j: nat, k: nat) returns (early: nat)
    requires |wf.steps| > 0 && i < j && Walk(wf, i) == Walk(wf, j)
    ensures early < j && Walk(wf, k) == Walk(wf, early)
    decreases k
  {
    if k < j {
      early := k;
    } else {
      WalkShifts(wf, i, j, k - j);
      early := WalkIsPeriodic(wf, i, j, k - (j - i));
    }
  }

  // The walk ends within n moves or not at all.
  lemma EndsSoonOrNever(wf: Workflow, k: nat)
    requires |wf.steps| > 0 && Terminal(wf, Walk(wf, k))
    ensures Terminal(wf, Walk(wf, |wf.steps|))
  {
    var n := |wf.steps|;
    if !Terminal(wf, Walk(wf, n)) {
      forall m: nat | m <= n ensures !Terminal(wf, Walk(wf, m)) {
        if Terminal(wf, Walk(wf, m)) { TerminalStays(wf, m, n); }
      }
      var ids := seq(n + 1, m requires 0 <= m <= n => Walk(wf, m));
      StepIDsCount(wf.steps);
      forall m | 0 <= m < |ids| ensures ids[m] in StepIDs(wf) {
        assert FindStep(wf.steps, ids[m]).value in wf.steps;
      }
      var i, j := Collision(ids, StepIDs(wf));
      var early := WalkIsPeriodic(wf, i, j, k);
      assert false;
    }
  }

  lemma StaticVisit(wf: Workflow, env: Environment, vars: Variables, before: seq<Visit>, v: Visit)
    requires StaticSuccessors(wf, env) && IsVisit(wf, env, vars, before, v) && v.step.id != ""
    ensures !Terminal(wf, v.step.id) && v.Chosen() == Successor(wf, v.step.id)
  {
    FindAfter(wf.steps, before, v.step.id);
    if v.Tried? {
      var a := ExecuteStep(v.step, env, CallsAfter(before) + v.retryCount, VariablesAfter(vars, before)).value;
      assert a.result.nextStepID == "";
    }
  }

  // The k-th visit moves along the graph.
  ghost predicate GraphAt(wf: Workflow, trace: seq<Visit>, k: nat)
    requires |wf.steps| > 0 && k < |trace|
  {
    && !Terminal(wf, NextAfter(wf, trace[..k]))
    && NextAfter(wf, trace[..k + 1]) == Successor(wf, NextAfter(wf, trace[..k]))
  }

  lemma StaticMove(wf: Workflow, env: Environment, vars: Variables, trace: seq<Visit>, k: nat)
    requires |wf.steps| > 0 && StaticSuccessors(wf, env)
    requires k < |trace| && WalkAt(wf, env, vars, trace, k)
    ensures GraphAt(wf, trace, k)
  {
    assert trace[..k + 1][k] == trace[k];
    StaticVisit(wf, env, vars, trace[..k], trace[k]);
  }

  lemma {:induction false} FollowGraph(wf: Workflow, trace: seq<Visit>, k: nat)
    requires |wf.steps| > 0 && k <= |trace|
    requires forall i :: 0 <= i < |trace| ==> GraphAt(wf, trace, i)
    ensures NextAfter(wf, trace[..k]) == Walk(wf, k)
    ensures k < |trace| ==> !Terminal(wf, Walk(wf, k))
  {
    if k > 0 {
      FollowGraph(wf, trace, k - 1);
      assert GraphAt(wf, trace, k - 1);
    }
    if k < |trace| {
      assert GraphAt(wf, trace, k);
    }
  }

  // A run with static successors follows the graph.
  lemma StaticRunFollowsGraph(wf: Workflow, env: Environment, vars: Variables, trace: seq<Visit>, k: nat)
    requires |wf.steps| > 0 && StaticSuccessors(wf, env) && IsWalk(wf, env, vars, trace)
    requires k <= |trace|
    ensures NextAfter(wf, trace[..k]) == Walk(wf, k)
    ensures k < |trace| ==> !Terminal(wf, Walk(wf, k))
  {
    forall i | 0 <= i < |trace| ensures GraphAt(wf, trace, i) {
      StaticMove(wf, env, vars, trace, i);
    }
    FollowGraph(wf, trace, k);
  }

  // The loop detector is exact.  When successors are static and no visited step fails, a run is
  // reported as a loop exactly when the graph walk from the first step never ends, and a missing
  // step exactly when the walk reaches an ID no step has; it succeeds exactly when the walk reaches
  // "" and no iteration found the context cancelled.
  lemma LoopDetectorExact(wf: Workflow, env: Environment, vars: Variables)
    requires RunWorkflow(wf, env, vars).Finished? && StaticSuccessors(wf, env)
    requires forall e :: e in RunWorkflow(wf, env, vars).result.stepsExecuted ==> !e.status.Failed?
    ensures var r := RunWorkflow(wf, env, vars).result;
            && (r.errorMessage == MaximumStepsExceeded <==> forall k: nat :: !Terminal(wf, Walk(wf, k)))
            && (r.success <==>
                  && (exists k: nat :: Walk(wf, k) == "")
                  && forall i: nat :: i < |r.stepsExecuted| ==> !env.cancelled(i))
            && (r.errorMessage.StepNotFound? <==> exists k: nat :: Dangling(wf, Walk(wf, k)))
            && (r.errorMessage != MaximumStepsExceeded ==> |r.stepsExecuted| <= |wf.steps|)
  {
    FinalRunInv(wf, env, vars);
    var s := FinalRun(wf, env, vars);
    var r := RunWorkflow(wf, env, vars).result;
    var trace := s.trace;
    var m := |trace|;
    assert forall k :: 0 <= k < m ==> (r.stepsExecuted[k].status.Failed? <==> !trace[k].Succeeded());
    StaticRunFollowsGraph(wf, env, vars, trace, m);
    assert trace[..m] == trace;
    if s.executed >= MaxSteps(wf) {
      forall k: nat ensures !Terminal(wf, Walk(wf, k)) {
        if Terminal(wf, Walk(wf, k)) {
          EndsSoonOrNever(wf, k);
          StaticRunFollowsGraph(wf, env, vars, trace, |wf.steps|);
        }
      }
    } else {
      assert Terminal(wf, Walk(wf, m));
      forall k: nat | Terminal(wf, Walk(wf, k)) ensures Walk(wf, k) == Walk(wf, m) {
        if k < m {
          StaticRunFollowsGraph(wf, env, vars, trace, k);
        } else {
          TerminalStays(wf, m, k);
        }
      }
      EndsSoonOrNever(wf, m);
      if m > |wf.steps| { StaticRunFollowsGraph(wf, env, vars, trace, |wf.steps|); }
    }
  }

  // ----- Where the loop detector is not exact -----

  // Whatever the conditions and the actions do, a loop is reported exactly when a run made 2n visits
  // and none of them failed, whether or not the walk had ended by then.
  lemma LimitReachedExactly(wf: Workflow, env: Environment, vars: Variables)
    requires RunWorkflow(wf, env, vars).Finished?
    ensures var r := RunWorkflow(wf, env, vars).result;
            r.errorMessage == MaximumStepsExceeded <==>
              |r.stepsExecuted| == 2 * |wf.steps| && forall e :: e in r.stepsExecuted ==> !e.status.Failed?
  {
    FinalRunInv(wf, env, vars);
    var s := FinalRun(wf, env, vars);
    var r := RunWorkflow(wf, env, vars).result;
    assert forall k :: 0 <= k < |s.trace| ==> (r.stepsExecuted[k].status.Failed? <==> !s.trace[k].Succeeded());
    if s.executed < MaxSteps(wf) && |s.trace| == MaxSteps(wf) {
      assert r.stepsExecuted[s.executed] in r.stepsExecuted;
    }
  }

  // Two steps: one that chooses its successor by its own last choice (itself twice more, then the
  // other), and one that ends the workflow.
  ghost predicate Staircase(wf: Workflow, up: Step, top: Step) {
    && wf.steps == [up, top] && up.id != "" && top.id != "" && up.id != top.id
    && up.enabled && up.kind.ConditionStep? && up.nextStepID == Some(up.id)
    && up.conditions == [Condition(LastChoice(up), Eq, Text(top.id), ""),
                         Condition(LastChoice(up), Eq, Text(up.id), top.id),
                         Condition(LastChoice(up), Eq, Text(""), up.id)]
    && top.enabled && top.kind.Integration? && top.nextStepID == None && top.conditions == []
    && EffectiveRetries(wf.retryAttempts, up) == 0 && EffectiveRetries(wf.retryAttempts, top) == 0
  }

  // The variable that holds what a condition step chose last.
  function LastChoice(step: Step): string {
    OutputPrefix(step.id) + "next_step"
  }

  const STAIRCASE := Workflow(
    [Step("A", "Climb", ConditionStep, true, Some("A"),
          [Condition("step_A_next_step", Eq, Text("B"), ""), Condition("step_A_next_step", Eq, Text("A"), "B"),
           Condition("step_A_next_step", Eq, Text(""), "A")], NO_CONFIG),
     Step("B", "Land", Integration, true, None, [], NO_CONFIG)], 0)

  lemma StaircaseExists()
    ensures Staircase(STAIRCASE, STAIRCASE.steps[0], STAIRCASE.steps[1])
  {
    assert LastChoice(STAIRCASE.steps[0]) == "step_A_next_step";
  }

  // Every action succeeds at once, and the context is never cancelled.
  ghost predicate Calm(env: Environment) {
    && (forall c: nat :: env.action(c) == ActionReply(Some(StepResult(true, None, "", "")), None))
    && (forall i: nat :: !env.cancelled(i))
  }

  function Climb(up: Step, next: string): Visit {
    Tried(up, Attempt(ConditionOutcome(next), None), 0)
  }

  lemma ClimbRemembers(vars: Variables, up: Step, next: string)
    ensures var w := UpdateVariables(vars, Climb(up, next));
            LastChoice(up) in w && w[LastChoice(up)] == Text(next)
  {
    var output := Climb(up, next).last.result.output.value;
    assert "next_step" in output.Keys;
    assert LastChoice(up)[|OutputPrefix(up.id)|..] == "next_step";
    assert LastChoice(up)[0] != "last_step_output"[0];
  }

  // The successor the conditions pick.
  ghost predicate Picks(vars: Variables, up: Step, top: Step, next: string) {
    if LastChoice(up) !in vars then next == ""
    else if vars[LastChoice(up)] == Text("") then next == up.id
    else vars[LastChoice(up)] == Text(up.id) && next == top.id
  }

  lemma ClimbAttempt(wf: Workflow, env: Environment, up: Step, top: Step, vars: Variables, call: nat, next: string)
    requires Staircase(wf, up, top) && Picks(vars, up, top, next)
    ensures ExecuteStep(up, env, call, vars) == Some(Climb(up, next).last)
  {
    var cs := up.conditions;
    assert cs[1..][0] == cs[1] && cs[1..][1..][0] == cs[2] && cs[1..][1..][1..] == [];
    assert EvaluateConditions(cs[1..][1..], vars) == Some(if Matches(cs[2], vars) then up.id else "");
    assert EvaluateConditions(cs[1..], vars) ==
           if Matches(cs[1], vars) then Some(top.id) else EvaluateConditions(cs[1..][1..], vars);
    assert EvaluateConditions(cs, vars) == Some(next);
  }

  // One successful attempt of an enabled step without retries moves a run on by one visit.
  lemma OneVisit(wf: Workflow, env: Environment, vars: Variables, s: Run, step: Step, last: Attempt)
    requires Guard(wf, s) && !env.cancelled(s.executed)
    requires FindStep(wf.steps, s.current) == Some(step) && step.enabled && !step.kind.Webhook?
    requires EffectiveRetries(wf.retryAttempts, step) == 0
    requires ExecuteStep(step, env, CallsAfter(s.trace), VariablesAfter(vars, s.trace)) == Some(last)
             && last.Succeeded()
    ensures RunFrom(wf, env, vars, s) == RunFrom(wf, env, vars, Onward(s, Tried(step, last, 0)))
  {
    FindAfter(wf.steps, s.trace, s.current);
    assert Iterate(wf, env, vars, s) == Try(wf, env, vars, s, step);
    assert RetryLoop(step, env, CallsAfter(s.trace), VariablesAfter(vars, s.trace), 0, 0) == RetryDone(last, 0);
  }

  function Onward(s: Run, v: Visit): Run {
    s.(trace := s.trace + [v], current := v.Chosen(), executed := s.executed + 1)
  }

  lemma ClimbOnce(wf: Workflow, env: Environment, vars: Variables, up: Step, top: Step, s: Run, next: string)
    requires Staircase(wf, up, top) && Calm(env) && Guard(wf, s) && s.current == up.id
    requires Picks(VariablesAfter(vars, s.trace), up, top, next)
    ensures RunFrom(wf, env, vars, s) == RunFrom(wf, env, vars, Onward(s, Climb(up, next)))
    ensures var w := VariablesAfter(vars, s.trace + [Climb(up, next)]);
            LastChoice(up) in w && w[LastChoice(up)] == Text(next)
  {
    assert (s.trace + [Climb(up, next)])[..|s.trace|] == s.trace;
    ClimbAttempt(wf, env, up, top, VariablesAfter(vars, s.trace), CallsAfter(s.trace), next);
    OneVisit(wf, env, vars, s, up, Climb(up, next).last);
    ClimbRemembers(VariablesAfter(vars, s.trace), up, next);
  }

  lemma LandOnce(wf: Workflow, env: Environment, vars: Variables, up: Step, top: Step, s: Run)
    requires Staircase(wf, up, top) && Calm(env) && Guard(wf, s) && s.current == top.id && s.executed == 3
    ensures var t := RunFrom(wf, env, vars, s);
            exists v: Visit :: v.Succeeded() && t == Onward(s, v) && v.Chosen() == ""
  {
    var landed := Attempt(StepResult(true, None, "", ""), None);
    assert FindStep(wf.steps, top.id) == Some(top) by { assert wf.steps[1..][0] == top; }
    OneVisit(wf, env, vars, s, top, landed);
    assert Tried(top, landed, 0).Succeeded();
  }

  lemma ClimbToTop(wf: Workflow, env: Environment, up: Step, top: Step, s2: Run)
    requires Staircase(wf, up, top) && Calm(env)
    requires s2.phase.Looping? && s2.executed == 2 && s2.current == up.id
             && Picks(VariablesAfter(map[], s2.trace), up, top, top.id)
    ensures var t := RunFrom(wf, env, map[], s2); t.phase.Looping? && t.current == "" && t.executed == 4
  {
    ClimbOnce(wf, env, map[], up, top, s2, top.id);
    LandOnce(wf, env, map[], up, top, Onward(s2, Climb(up, top.id)));
  }

  lemma StaircaseRun(wf: Workflow, env: Environment, up: Step, top: Step)
    requires Staircase(wf, up, top) && Calm(env)
    ensures var s := FinalRun(wf, env, map[]);
            s.phase.Looping? && s.current == "" && s.executed == 4
  {
    var s0 := Start(wf);
    var s1 := Onward(s0, Climb(up, ""));
    ClimbOnce(wf, env, map[], up, top, s0, "");
    var s2 := Onward(s1, Climb(up, up.id));
    ClimbOnce(wf, env, map[], up, top, s1, up.id);
    ClimbToTop(wf, env, up, top, s2);
  }

  // With successors chosen at run time the detector can be wrong: this run ends by itself, every
  // step having succeeded, but on its 2n-th visit, and is reported as a loop.
  lemma FinishedRunReportedAsLoop(wf: Workflow, env: Environment, up: Step, top: Step)
    requires Staircase(wf, up, top) && Calm(env)
    ensures var outcome := RunWorkflow(wf, env, map[]);
            && outcome.Finished?
            && outcome.result.errorMessage == MaximumStepsExceeded && !outcome.result.success
            && (forall e :: e in outcome.result.stepsExecuted ==> !e.status.Failed?)
            && NextAfter(wf, FinalRun(wf, env, map[]).trace) == ""
  {
    StaircaseRun(wf, env, up, top);
    FinalRunInv(wf, env, map[]);
    var trace := FinalRun(wf, env, map[]).trace;
    forall k | 0 <= k < |trace| ensures !trace[k].Record().status.Failed? {
      assert trace[k] in trace;
    }
  }
}
