// What one operation does to a stored notification, field by field.
module NotificationLaws {
  import opened Wrappers
  import opened Powers
  import opened NotificationModel
  import opened NotificationSemantics
  import opened NotificationTheorems

  // ----- Writes and the schedule of retries -----

  // A write is refused by the database, or by the validation of the limit and of the scheduled time.
  lemma WriteIsAccepted(n: Notification, w: Weather, k: nat)
    ensures Accepts(n, w, k) <==>
              && w.write(k) && n.maxAttempts in {1, 2, 3, 4, 5, 6, 7, 8, 9, 10}
              && (n.scheduledAt.Some? ==> !(n.scheduledAt.value < w.clock(k)))
  {
  }

  // The delays in seconds: five minutes at first, then doubling with a tenth added, a day and a tenth
  // from the tenth attempt on.
  lemma RetrySchedule(attempts: nat)
    ensures NextRetryIn(0) == 300_000_000_000 && NextRetryIn(1) == 330_000_000_000
    ensures 1 <= attempts <= 9 ==> NextRetryIn(attempts) == 330_000_000_000 * Pow2(attempts - 1)
    ensures attempts >= 10 ==> NextRetryIn(attempts) == 95_040_000_000_000
  {
    assert Pow2(0) == 1;
    Pow2Monotone(0, if attempts == 0 then 0 else attempts - 1);
    assert Pow2(8) == 256 && Pow2(9) == 512;
    if 1 <= attempts <= 9 {
      Pow2Monotone(attempts - 1, 8);
    } else if attempts >= 10 {
      Pow2Monotone(9, attempts - 1);
    }
  }

  // A new notification: scheduled if it has a time, three attempts if none are asked for.
  lemma NewIsFresh(maxAttempts: int, scheduledAt: Option<int>)
    ensures var n := NewNotification(maxAttempts, scheduledAt);
            && (n.status == Scheduled <==> scheduledAt.Some?) && (n.status == Pending <==> scheduledAt.None?)
            && n.attempts == 0 && n.scheduledAt == scheduledAt && n.nextRetryAt == None && n.errors == []
            && (maxAttempts != 0 ==> n.maxAttempts == maxAttempts) && (maxAttempts == 0 ==> n.maxAttempts == 3)
  {
  }

  // ----- One send -----

  // The stored notification after a send from write k on: the write before the mail, the one with the
  // error, and the last.
  ghost predicate SendMeans(a: Account, w: Weather, k: nat, b: Account)
    requires a.doc.attempts >= 0
  {
    var n := a.doc;
    if !Accepts(n, w, k) then b == a
    else
      && b.mailed == a.mailed + [w.mail]
      && b.doc.maxAttempts == n.maxAttempts && b.doc.scheduledAt == n.scheduledAt
      && match w.mail
         case Delivered =>
           && b.doc.status == (if Accepts(n, w, k + 1) then Sent else Processing)
           && b.doc.attempts == n.attempts && b.doc.nextRetryAt == n.nextRetryAt && b.doc.errors == n.errors
         case Rejected(recoverable) =>
           var last := Accepts(n, w, k + 2);
           var again := last && recoverable && n.attempts < n.maxAttempts;
           && b.doc.status == (if last then Failed else Processing)
           && b.doc.attempts == n.attempts + (if again then 1 else 0)
           && b.doc.nextRetryAt == (if again then Some(w.clock(k + 2) + NextRetryIn(n.attempts)) else n.nextRetryAt)
           && b.doc.errors == n.errors + if last || Accepts(n, w, k + 1)
                                         then [NotificationError(w.clock(k + 1), recoverable)] else []
  }

  lemma SendDoes(a: Account, w: Weather, k: nat)
    requires a.doc.attempts >= 0
    ensures SendMeans(a, w, k, SendNow(a, a.doc, w, k))
  {
  }

  // ----- The operations that send -----

  // When an operation gets as far as sending, and from which write on.
  ghost predicate Goes(a: Account, op: Operation) {
    var n, w := a.doc, op.w;
    match op
    case Process(_) => n.status == Pending && (n.scheduledAt.Some? ==> n.scheduledAt.value <= w.now)
    case ProcessScheduled(_) =>
      n.status == Scheduled && n.scheduledAt.Some? && n.scheduledAt.value <= w.now && Accepts(n, w, 0)
    case Retry(_) =>
      && n.status == Failed && n.attempts < n.maxAttempts
      && (n.nextRetryAt.Some? ==> n.nextRetryAt.value <= w.now && n.nextRetryAt.value < w.clock(0))
      && Accepts(n, w, 0)
    case _ => false
  }

  function FirstWrite(op: Operation): nat {
    if op.Process? then 0 else 1
  }

  // The stored notification it sends.
  ghost predicate Ready(a: Account, op: Operation, b: Account)
    requires a.doc.attempts >= 0
  {
    && b.mailed == a.mailed
    && match op
       case Process(_) => b == a
       case ProcessScheduled(_) => b.doc == a.doc.(status := Pending)
       case Retry(w) =>
         b.doc == a.doc.(attempts := a.doc.attempts + 1,
                         nextRetryAt := Some(w.clock(0) + NextRetryIn(a.doc.attempts + 1)))
       case _ => true
  }

  predicate Sends(op: Operation) {
    op.Process? || op.ProcessScheduled? || op.Retry?
  }

  // Such an operation sends what it made ready, or does nothing at all.
  lemma OperationSends(a: Account, op: Operation) returns (b: Account)
    requires Sends(op) && a.doc.attempts >= 0
    ensures b.doc.attempts >= 0 && b.doc.maxAttempts == a.doc.maxAttempts && b.doc.scheduledAt == a.doc.scheduledAt
    ensures Ready(a, op, b)
    ensures if Goes(a, op) then SendMeans(b, op.w, FirstWrite(op), Apply(a, op)) else Apply(a, op) == a
  {
    var n, w := a.doc, op.w;
    match op
    case Process(_) => b := a; SendDoes(b, w, 0);
    case ProcessScheduled(_) => b := a.(doc := n.(status := Pending)); SendDoes(b, w, 1);
    case Retry(_) => b := a.(doc := Charged(n, w.clock(0))); SendDoes(b, w, 1);
  }

  // A notification that was not sent is stored as sent exactly when the operation got to the mail
  // service, which delivered, and the write after that was accepted.  It is left in processing
  // exactly when the write before the mail was the last of those that change its status to be
  // accepted.
  lemma SentExactly(a: Account, op: Operation)
    requires Sends(op) && a.doc.attempts >= 0 && a.doc.status != Sent
    ensures var n, w, k, after := a.doc, op.w, FirstWrite(op), Apply(a, op).doc.status;
            var mailed := Goes(a, op) && Accepts(n, w, k);
            && (after == Sent <==> mailed && w.mail == Delivered && Accepts(n, w, k + 1))
            && (after == Processing <==>
                  if mailed then !Accepts(n, w, if w.mail == Delivered then k + 1 else k + 2)
                  else n.status == Processing)
  {
    var b := OperationSends(a, op);
    WriteIsAccepted(a.doc, op.w, FirstWrite(op));
    WriteIsAccepted(b.doc, op.w, FirstWrite(op));
  }

  // The same for a notification that is created and sent at once.
  lemma CreatedIsSentExactly(maxAttempts: int, scheduledAt: Option<int>, w: Weather)
    requires Creatable(maxAttempts, scheduledAt, w.now)
    ensures var n, after := NewNotification(maxAttempts, scheduledAt), Create(maxAttempts, scheduledAt, w);
            var mailed := (scheduledAt.Some? ==> scheduledAt.value <= w.clock(0)) && Accepts(n, w, 1);
            && after.mailed == (if mailed then [w.mail] else [])
            && (after.doc.status == Sent <==> mailed && w.mail == Delivered && Accepts(n, w, 2))
            && (after.doc.status == Processing <==>
                  mailed && !Accepts(n, w, if w.mail == Delivered then 2 else 3))
  {
    SendDoes(Account(NewNotification(maxAttempts, scheduledAt), []), w, 1);
  }

  // ----- Delivered is stored as sent -----

  // Every write of an operation is accepted.
  ghost predicate NoRefusal(n: Notification, w: Weather) {
    forall k: nat :: Accepts(n, w, k)
  }

  ghost predicate NoRefusals(n: Notification, ops: seq<Operation>) {
    forall op :: op in ops ==> NoRefusal(n, op.w)
  }

  ghost predicate DeliveredIsSent(a: Account) {
    Successes(a.mailed) == 1 ==> a.doc.status == Sent
  }

  lemma SendKeepsDeliveredIsSent(a: Account, w: Weather, k: nat, b: Account)
    requires a.doc.attempts >= 0 && NoRefusal(a.doc, w) && SendMeans(a, w, k, b) && Successes(a.mailed) == 0
    ensures DeliveredIsSent(b) && b.doc.status in {Sent, Failed}
  {
    SuccessesStep(a.mailed, w.mail);
    assert Accepts(a.doc, w, k) && Accepts(a.doc, w, k + 1) && Accepts(a.doc, w, k + 2);
  }

  lemma StepKeepsDeliveredIsSent(a: Account, op: Operation)
    requires Safe(a) && DeliveredIsSent(a) && !op.Resend? && NoRefusal(a.doc, op.w)
    ensures DeliveredIsSent(Apply(a, op))
    ensures Apply(a, op).doc.maxAttempts == a.doc.maxAttempts && Apply(a, op).doc.scheduledAt == a.doc.scheduledAt
  {
    if Sends(op) {
      var b := OperationSends(a, op);
      if Goes(a, op) {
        forall k: nat ensures Accepts(b.doc, op.w, k) {
          assert Accepts(a.doc, op.w, k);
        }
        SendKeepsDeliveredIsSent(b, op.w, FirstWrite(op), Apply(a, op));
      }
    }
  }

  lemma {:induction false} RunKeepsDeliveredIsSent(a: Account, ops: seq<Operation>)
    requires Safe(a) && DeliveredIsSent(a) && WithoutResend(ops) && NoRefusals(a.doc, ops)
    ensures DeliveredIsSent(RunAll(a, ops))
    decreases |ops|
  {
    if ops != [] {
      var b := Apply(a, ops[0]);
      assert ops[0] in ops && forall op :: op in ops[1..] ==> op in ops;
      StepKeepsDeliveredIsSent(a, ops[0]);
      ApplyKeepsSafe(a, ops[0]);
      forall op | op in ops[1..] ensures NoRefusal(b.doc, op.w) {
        assert NoRefusal(a.doc, op.w);
        forall k: nat ensures Accepts(b.doc, op.w, k) {
          assert Accepts(a.doc, op.w, k);
        }
      }
      RunKeepsDeliveredIsSent(b, ops[1..]);
    }
  }

  // Over any operations but resend whose writes are all accepted, a notification is stored as sent
  // exactly when it was delivered once.
  lemma SentExactlyIfDelivered(maxAttempts: int, scheduledAt: Option<int>, w: Weather, ops: seq<Operation>)
    requires Creatable(maxAttempts, scheduledAt, w.now) && WithoutResend(ops)
    requires var n := NewNotification(maxAttempts, scheduledAt); NoRefusal(n, w) && NoRefusals(n, ops)
    ensures var a := RunAll(Create(maxAttempts, scheduledAt, w), ops);
            a.doc.status == Sent <==> Successes(a.mailed) == 1
  {
    var n, a := NewNotification(maxAttempts, scheduledAt), Create(maxAttempts, scheduledAt, w);
    CreatedIsSafe(maxAttempts, scheduledAt, w);
    SendDoes(Account(n, []), w, 1);
    if n.ShouldProcess(w.clock(0)) { SendKeepsDeliveredIsSent(Account(n, []), w, 1, a); }
    forall op | op in ops ensures NoRefusal(a.doc, op.w) {
      assert NoRefusal(n, op.w);
      forall k: nat ensures Accepts(a.doc, op.w, k) {
        assert Accepts(n, op.w, k);
      }
    }
    RunKeepsDeliveredIsSent(a, ops);
    RunKeepsSafe(a, ops);
  }

  // ----- Cancel and resend -----

  // Cancel changes the status of a pending or scheduled notification, if its write is accepted, and
  // nothing else of any.
  lemma CancelDoes(a: Account, w: Weather)
    requires a.doc.attempts >= 0
    ensures Apply(a, Cancel(w)) ==
            if a.doc.status in {Pending, Scheduled} && Accepts(a.doc, w, 0)
            then a.(doc := a.doc.(status := Cancelled)) else a
  {
  }

  // Resend sets the status and the attempts back, but the empty errors and the empty time of the next
  // retry are not written: the old ones stay.
  lemma ResendKeepsErrors(a: Account, w: Weather) returns (b: Account)
    requires a.doc.attempts >= 0
    ensures b == a.(doc := a.doc.(status := Pending, attempts := 0))
    ensures !Accepts(a.doc, w, 0) ==> Apply(a, Resend(w)) == a
    ensures Accepts(a.doc, w, 0) && !Accepts(a.doc, w, 1) ==> Apply(a, Resend(w)) == b
    ensures Accepts(a.doc, w, 0) && Accepts(a.doc, w, 1) && w.mail == Delivered ==>
              && Apply(a, Resend(w)).doc.errors == a.doc.errors
              && Apply(a, Resend(w)).doc.nextRetryAt == a.doc.nextRetryAt
              && Apply(a, Resend(w)).doc.attempts == 0
  {
    b := a.(doc := a.doc.(status := Pending, attempts := 0));
  }
}
