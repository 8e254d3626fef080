// What is true of a notification over every sequence of operations.
module NotificationTheorems {
  import opened Wrappers
  import opened NotificationModel
  import opened NotificationSemantics

  function Successes(mailed: seq<Delivery>): nat {
    if mailed == [] then 0
    else Successes(mailed[..|mailed| - 1]) + if mailed[|mailed| - 1].Delivered? then 1 else 0
  }

  lemma SuccessesStep(mailed: seq<Delivery>, d: Delivery)
    ensures Successes(mailed + [d]) == Successes(mailed) + if d.Delivered? then 1 else 0
  {
    assert (mailed + [d])[..|mailed|] == mailed;
  }

  // ----- Safety: any operations but Resend, with the database failing as it likes -----

  ghost predicate Safe(a: Account) {
    var n := a.doc;
    && 0 <= n.attempts <= n.maxAttempts && 1 <= n.maxAttempts <= 10
    && |a.mailed| <= n.attempts + 1
    && Successes(a.mailed) <= 1
    && (n.status == Pending || n.status == Scheduled ==> a.mailed == [] && n.attempts == 0)
    && (n.status == Failed ==> Successes(a.mailed) == 0)
    && (n.status == Sent ==> Successes(a.mailed) == 1)
    && (n.status == Cancelled ==> a.mailed == [])
  }

  lemma HandleSendErrorKeepsSafe(a: Account, n: Notification, recoverable: bool, w: Weather, k: nat)
    requires Safe(a) && Successes(a.mailed) == 0 && a.doc.status == Processing
    requires n.status == Processing && n.attempts == a.doc.attempts && n.maxAttempts == a.doc.maxAttempts
    ensures Safe(HandleSendError(a, n, recoverable, w, k))
  {
  }

  // Before a send the stored document is still pending, or failed with its attempt charged.
  lemma SendNowKeepsSafe(a: Account, n: Notification, w: Weather, k: nat)
    requires Safe(a) && a.doc == n && Successes(a.mailed) == 0
    requires n.status != Cancelled && n.status != Sent
    requires |a.mailed| <= n.attempts
    ensures Safe(SendNow(a, n, w, k))
  {
    var n1 := n.(status := Processing);
    if Accepts(n1, w, k) {
      SuccessesStep(a.mailed, w.mail);
      var b := Write(a, n1, w, k).(mailed := a.mailed + [w.mail]);
      if w.mail.Rejected? {
        HandleSendErrorKeepsSafe(b, n1, w.mail.recoverable, w, k + 1);
      }
    }
  }

  lemma RetryKeepsSafe(a: Account, w: Weather)
    requires Safe(a)
    ensures Safe(Apply(a, Retry(w))) && Apply(a, Retry(w)).doc.maxAttempts == a.doc.maxAttempts
  {
    var n1 := Charged(a.doc, w.clock(0));
    if a.doc.IsRetryable(w.now) && a.doc.CanRetry(w.clock(0)) && Accepts(n1, w, 0) {
      SendNowKeepsSafe(Write(a, n1, w, 0), n1, w, 1);
    }
  }

  lemma ApplyKeepsSafe(a: Account, op: Operation)
    requires Safe(a) && !op.Resend?
    ensures Safe(Apply(a, op))
    ensures Apply(a, op).doc.maxAttempts == a.doc.maxAttempts
    ensures a.doc.status == Sent || a.doc.status == Cancelled ==> Apply(a, op) == a
  {
    var n, w := a.doc, op.w;
    match op
    case Process(_) =>
      if n.IsPending(w.now) { SendNowKeepsSafe(a, n, w, 0); }
    case ProcessScheduled(_) =>
      var n1 := n.(status := Pending);
      if n.IsDue(w.now) && Accepts(n1, w, 0) { SendNowKeepsSafe(Write(a, n1, w, 0), n1, w, 1); }
    case Retry(_) => RetryKeepsSafe(a, w);
    case Cancel(_) =>
  }

  ghost predicate WithoutResend(ops: seq<Operation>) {
    forall op :: op in ops ==> !op.Resend?
  }

  lemma {:induction false} RunKeepsSafe(a: Account, ops: seq<Operation>)
    requires Safe(a) && WithoutResend(ops)
    ensures Safe(RunAll(a, ops)) && RunAll(a, ops).doc.maxAttempts == a.doc.maxAttempts
    ensures a.doc.status == Sent || a.doc.status == Cancelled ==> RunAll(a, ops) == a
    decreases |ops|
  {
    if ops != [] {
      ApplyKeepsSafe(a, ops[0]);
      RunKeepsSafe(Apply(a, ops[0]), ops[1..]);
    }
  }

  lemma CreatedIsSafe(maxAttempts: int, scheduledAt: Option<int>, w: Weather)
    requires Creatable(maxAttempts, scheduledAt, w.now)
    ensures Safe(Create(maxAttempts, scheduledAt, w))
    ensures Create(maxAttempts, scheduledAt, w).doc.maxAttempts == NewNotification(maxAttempts, scheduledAt).maxAttempts
  {
    var n := NewNotification(maxAttempts, scheduledAt);
    if n.ShouldProcess(w.clock(0)) { SendNowKeepsSafe(Account(n, []), n, w, 1); }
  }

  // From creation on, however the database behaves: Attempts never exceeds MaxAttempts, the mail
  // service is called at most MaxAttempts + 1 times and at most one of the calls succeeds; a
  // notification stored as sent was delivered exactly once, one stored as cancelled never.
  lemma DeliveredAtMostOnce(maxAttempts: int, scheduledAt: Option<int>, w: Weather, ops: seq<Operation>)
    requires Creatable(maxAttempts, scheduledAt, w.now) && WithoutResend(ops)
    ensures var a := RunAll(Create(maxAttempts, scheduledAt, w), ops);
            var limit := if maxAttempts == 0 then DEFAULT_MAX_ATTEMPTS else maxAttempts;
            && 0 <= a.doc.attempts <= a.doc.maxAttempts == limit
            && |a.mailed| <= limit + 1
            && Successes(a.mailed) <= 1
            && (a.doc.status == Sent ==> Successes(a.mailed) == 1)
            && (a.doc.status == Failed ==> Successes(a.mailed) == 0)
            && (a.doc.status == Cancelled ==> a.mailed == [])
  {
    CreatedIsSafe(maxAttempts, scheduledAt, w);
    RunKeepsSafe(Create(maxAttempts, scheduledAt, w), ops);
  }

  // Sent and cancelled notifications are final: nothing but Resend changes them or mails them.
  lemma FinalStates(maxAttempts: int, scheduledAt: Option<int>, w: Weather, ops: seq<Operation>, more: seq<Operation>)
    requires Creatable(maxAttempts, scheduledAt, w.now) && WithoutResend(ops) && WithoutResend(more)
    ensures var a := RunAll(Create(maxAttempts, scheduledAt, w), ops);
            a.doc.status == Sent || a.doc.status == Cancelled ==> RunAll(a, more) == a
  {
    CreatedIsSafe(maxAttempts, scheduledAt, w);
    RunKeepsSafe(Create(maxAttempts, scheduledAt, w), ops);
    RunKeepsSafe(RunAll(Create(maxAttempts, scheduledAt, w), ops), more);
  }

  // Resend is what breaks the bound: it delivers a sent notification again exactly when both writes
  // before the send are accepted and the mail service takes the mail.
  lemma ResendDeliversTwice(a: Account, w: Weather)
    requires Safe(a) && a.doc.status == Sent
    ensures Successes(Apply(a, Resend(w)).mailed) == 2 <==>
            w.mail.Delivered? && Accepts(a.doc, w, 0) && Accepts(a.doc, w, 1)
  {
    SuccessesStep(a.mailed, w.mail);
  }

  // ----- Exactly how often a notification that never succeeds is sent -----

  // Attempts after a history of failures: every send but the first was charged by the retry, and a
  // recoverable failure is charged once more while the limit is not reached.
  function ChargedFor(mailed: seq<Delivery>, limit: int): int {
    if mailed == [] then 0
    else
      var before := if |mailed| == 1 then 0 else ChargedFor(mailed[..|mailed| - 1], limit) + 1;
      var last := mailed[|mailed| - 1];
      if before < limit && last.Rejected? && last.recoverable then before + 1 else before
  }

  ghost predicate AllFail(ops: seq<Operation>) {
    forall op :: op in ops ==> !op.Resend? && Undelivered(op.w)
  }

  // The mail service refuses, and the database accepts every write.
  ghost predicate Undelivered(w: Weather) {
    w.mail.Rejected? && forall k: nat :: w.write(k)
  }

  ghost predicate Failing(a: Account) {
    && a.doc.scheduledAt.None? && 1 <= a.doc.maxAttempts <= 10 && 0 <= a.doc.attempts
    && (forall d :: d in a.mailed ==> d.Rejected?)
    && (a.doc.status == Pending ==> a.mailed == [] && a.doc.attempts == 0)
    && (a.doc.status == Failed ==>
          && a.mailed != []
          && a.doc.attempts == ChargedFor(a.mailed, a.doc.maxAttempts) <= a.doc.maxAttempts)
    && a.doc.status in {Pending, Failed, Cancelled}
  }

  lemma SendNowFails(a: Account, w: Weather, k: nat)
    requires a.doc.scheduledAt.None? && 1 <= a.doc.maxAttempts <= 10 && 0 <= a.doc.attempts <= a.doc.maxAttempts
    requires a.doc.status == Pending || a.doc.status == Failed
    requires forall d :: d in a.mailed ==> d.Rejected?
    requires a.doc.attempts == if a.mailed == [] then 0 else ChargedFor(a.mailed, a.doc.maxAttempts) + 1
    requires Undelivered(w)
    ensures var b := SendNow(a, a.doc, w, k); Failing(b) && b.doc.status == Failed && b.mailed == a.mailed + [w.mail]
  {
    assert (a.mailed + [w.mail])[..|a.mailed|] == a.mailed;
  }

  lemma ApplyKeepsFailing(a: Account, op: Operation)
    requires Failing(a) && !op.Resend? && Undelivered(op.w)
    ensures Failing(Apply(a, op)) && Apply(a, op).doc.maxAttempts == a.doc.maxAttempts
  {
    var n, w := a.doc, op.w;
    match op
    case Process(_) =>
      if n.IsPending(w.now) { SendNowFails(a, w, 0); }
    case ProcessScheduled(_) =>
    case Retry(_) =>
      if n.IsRetryable(w.now) && n.CanRetry(w.clock(0)) {
        var b := Write(a, Charged(n, w.clock(0)), w, 0);
        assert b.doc == Charged(n, w.clock(0));
        SendNowFails(b, w, 1);
      }
    case Cancel(_) =>
  }

  lemma {:induction false} RunKeepsFailing(a: Account, ops: seq<Operation>)
    requires Failing(a) && AllFail(ops)
    ensures Failing(RunAll(a, ops)) && RunAll(a, ops).doc.maxAttempts == a.doc.maxAttempts
    decreases |ops|
  {
    if ops != [] {
      ApplyKeepsFailing(a, ops[0]);
      RunKeepsFailing(Apply(a, ops[0]), ops[1..]);
    }
  }

  ghost predicate All(mailed: seq<Delivery>, d: Delivery) {
    forall e :: e in mailed ==> e == d
  }

  // Each send charges one attempt or two, the first one none or one.
  lemma {:induction false} ChargeBounds(mailed: seq<Delivery>, limit: int)
    requires limit >= 1 && mailed != []
    ensures |mailed| - 1 <= ChargedFor(mailed, limit) <= 2 * |mailed| - 1
    ensures All(mailed, Rejected(true)) && ChargedFor(mailed, limit) <= limit ==>
              ChargedFor(mailed, limit) == Min(2 * |mailed| - 1, limit) && 2 * |mailed| - 3 < limit
    ensures All(mailed, Rejected(false)) ==> ChargedFor(mailed, limit) == |mailed| - 1
  {
    var init, last := mailed[..|mailed| - 1], mailed[|mailed| - 1];
    if init != [] {
      ChargeBounds(init, limit);
      assert forall d :: d in init ==> d in mailed;
    }
    assert last in mailed;
  }

  // When its attempts are used up, a notification that was never delivered has been sent between
  // floor(M/2)+1 and M+1 times: floor(M/2)+1 if every failure was recoverable (the retry path
  // charges such a failure twice), M+1 if none was.
  lemma SendsWhenExhausted(maxAttempts: int, w: Weather, ops: seq<Operation>)
    requires Creatable(maxAttempts, None, w.now) && Undelivered(w) && AllFail(ops)
    ensures var a := RunAll(Create(maxAttempts, None, w), ops);
            var m := a.doc.maxAttempts;
            a.doc.status == Failed && a.doc.attempts >= m ==>
              && m / 2 + 1 <= |a.mailed| <= m + 1
              && (All(a.mailed, Rejected(true)) ==> |a.mailed| == m / 2 + 1)
              && (All(a.mailed, Rejected(false)) ==> |a.mailed| == m + 1)
  {
    var start := Create(maxAttempts, None, w);
    assert Failing(start) by { SendNowFails(Account(NewNotification(maxAttempts, None), []), w, 1); }
    RunKeepsFailing(start, ops);
    var a := RunAll(start, ops);
    if a.doc.status == Failed { ChargeBounds(a.mailed, a.doc.maxAttempts); }
  }

  // A retry that comes late enough, as long as attempts are left.
  ghost predicate LateRetry(a: Account, op: Operation) {
    op.Retry? && (a.doc.attempts < a.doc.maxAttempts ==>
      a.doc.nextRetryAt.Some? ==> a.doc.nextRetryAt.value <= op.w.now && a.doc.nextRetryAt.value < op.w.clock(0))
  }

  ghost predicate LateRetries(a: Account, ops: seq<Operation>)
    requires a.doc.attempts >= 0
    decreases |ops|
  {
    ops == [] || (LateRetry(a, ops[0]) && (ApplyKeepsAttempts(a, ops[0]); LateRetries(Apply(a, ops[0]), ops[1..])))
  }

  lemma RetryChargesAndSends(a: Account, op: Operation)
    requires Failing(a) && a.doc.status == Failed && Undelivered(op.w) && LateRetry(a, op)
    ensures var b := Apply(a, op);
            && Failing(b) && b.doc.status == Failed && b.doc.maxAttempts == a.doc.maxAttempts
            && (if a.doc.attempts < a.doc.maxAttempts
               then b.doc.attempts > a.doc.attempts && |b.mailed| == |a.mailed| + 1 else b == a)
  {
    var n, w := a.doc, op.w;
    if n.attempts < n.maxAttempts {
      var b := Write(a, Charged(n, w.clock(0)), w, 0);
      assert b.doc == Charged(n, w.clock(0));
      SendNowFails(b, w, 1);
      assert Apply(a, op) == SendNow(b, b.doc, w, 1);
    }
  }

  // M retries that come late enough do use the attempts up.
  lemma {:induction false} RetriesExhaust(a: Account, ops: seq<Operation>)
    requires Failing(a) && a.doc.status == Failed && AllFail(ops) && LateRetries(a, ops)
    requires |ops| >= a.doc.maxAttempts - a.doc.attempts
    ensures var b := RunAll(a, ops); b.doc.status == Failed && b.doc.attempts == b.doc.maxAttempts == a.doc.maxAttempts
    decreases |ops|
  {
    if ops != [] {
      RetryChargesAndSends(a, ops[0]);
      RetriesExhaust(Apply(a, ops[0]), ops[1..]);
    }
  }

  // ----- Retries keep their distance -----

  // The clock never shows less than it did.
  ghost predicate Forward(w: Weather) {
    w.now <= w.clock(0) && forall i: nat, j: nat :: i <= j ==> w.clock(i) <= w.clock(j)
  }

  // The notification is not to be tried before a time, whatever happens to it (but Resend).
  ghost predicate NotBefore(a: Account, at: int) {
    && a.doc.attempts >= 0
    && a.doc.status != Pending && a.doc.status != Scheduled
    && (a.doc.status == Failed ==> a.doc.nextRetryAt.Some? && a.doc.nextRetryAt.value >= at)
  }

  lemma SendNowKeepsNotBefore(a: Account, n: Notification, w: Weather, k: nat, at: int)
    requires Forward(w) && n == a.doc && n.attempts >= 1 && NotBefore(a, at) && n.status == Failed
    requires at <= w.clock(0) + NextRetryIn(n.attempts)
    ensures NotBefore(SendNow(a, n, w, k), at)
  {
  }

  // Whether a retry gets as far as being charged.
  ghost predicate Retries(a: Account, w: Weather)
    requires a.doc.attempts >= 0
  {
    a.doc.IsRetryable(w.now) && a.doc.CanRetry(w.clock(0)) && Accepts(Charged(a.doc, w.clock(0)), w, 0)
  }

  lemma RetrySetsTheClock(a: Account, w: Weather)
    requires Forward(w) && a.doc.attempts >= 0 && Retries(a, w)
    ensures NotBefore(Apply(a, Retry(w)), w.clock(0) + NextRetryIn(a.doc.attempts + 1))
  {
    var n1 := Charged(a.doc, w.clock(0));
    SendNowKeepsNotBefore(Write(a, n1, w, 0), n1, w, 1, w.clock(0) + NextRetryIn(n1.attempts));
  }

  lemma ApplyKeepsNotBefore(a: Account, op: Operation, at: int)
    requires NotBefore(a, at) && Forward(op.w) && !op.Resend?
    ensures NotBefore(Apply(a, op), at)
  {
    if op.Retry? && Retries(a, op.w) { RetrySetsTheClock(a, op.w); }
  }

  ghost predicate ForwardOps(ops: seq<Operation>) {
    forall op :: op in ops ==> Forward(op.w) && !op.Resend?
  }

  lemma {:induction false} RunKeepsNotBefore(a: Account, ops: seq<Operation>, at: int)
    requires NotBefore(a, at) && ForwardOps(ops)
    ensures NotBefore(RunAll(a, ops), at)
    decreases |ops|
  {
    if ops != [] {
      ApplyKeepsNotBefore(a, ops[0], at);
      RunKeepsNotBefore(Apply(a, ops[0]), ops[1..], at);
    }
  }

  // After a retry at time t that raised Attempts to k, no later retry happens before
  // t + 1.1 * min(5min * 2^(k-1), 24h), whatever operations and failures lie between.
  lemma RetriesAreSpaced(a: Account, first: Weather, between: seq<Operation>, second: Weather)
    requires a.doc.attempts >= 0 && Forward(first) && Retries(a, first) && ForwardOps(between)
    ensures var b := RunAll(Apply(a, Retry(first)), between);
            var d := RetryDelay(a.doc.attempts + 1);
            Retries(b, second) ==> second.clock(0) > first.clock(0) + d + d / 10
  {
    RetrySetsTheClock(a, first);
    RunKeepsNotBefore(Apply(a, Retry(first)), between, first.clock(0) + NextRetryIn(a.doc.attempts + 1));
  }

  // ----- Scheduled notifications -----

  // Update refuses a notification whose scheduled time has passed, so a due notification is mailed
  // only when its scheduled time has not passed by the clock of the second write either.
  lemma DueNotificationIsSentExactly(a: Account, w: Weather)
    requires a.doc.attempts >= 0 && a.doc.IsDue(w.now) && Forward(w)
    ensures Apply(a, ProcessScheduled(w)).mailed != a.mailed <==>
              w.write(0) && w.write(1) && 1 <= a.doc.maxAttempts <= 10 && w.clock(1) == a.doc.scheduledAt.value
  {
    var n1 := a.doc.(status := Pending);
    if Accepts(n1, w, 0) {
      var b := SendNow(Write(a, n1, w, 0), n1, w, 1);
      if Accepts(n1.(status := Processing), w, 1) {
        assert b.mailed == a.mailed + [w.mail];
        assert |b.mailed| == |a.mailed| + 1;
      }
    }
  }

  ghost predicate AfterSchedule(w: Weather, at: int) {
    forall k: nat :: at < w.clock(k)
  }

  // Once its time has passed a scheduled notification is stuck: no operation at all changes it any
  // more, not even cancelling or resending it.
  lemma {:induction false} OverdueIsStuck(a: Account, ops: seq<Operation>)
    requires a.doc.attempts >= 0 && a.doc.scheduledAt.Some?
    requires forall op :: op in ops ==> AfterSchedule(op.w, a.doc.scheduledAt.value)
    ensures RunAll(a, ops) == a
    decreases |ops|
  {
    if ops != [] {
      assert AfterSchedule(ops[0].w, a.doc.scheduledAt.value);
      assert Apply(a, ops[0]) == a;
      OverdueIsStuck(a, ops[1..]);
    }
  }
}
