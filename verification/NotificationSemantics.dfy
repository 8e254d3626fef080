// The life of one notification under the operations of the service.
module NotificationSemantics {
  import opened Wrappers
  import opened NotificationModel

  // One call of the mail service.
  datatype Delivery = Delivered | Rejected(recoverable: bool)

  // What the world does during one operation: when it runs, which writes the database accepts,
  // what the k-th look at the clock shows and what the mail service answers.
  datatype Weather = Weather(now: int, write: nat -> bool, clock: nat -> int, mail: Delivery)

  // The stored document of a notification and the calls of the mail service made for it.
  datatype Account = Account(doc: Notification, mailed: seq<Delivery>)

  // Update validates the notification before it writes.
  predicate Accepts(n: Notification, w: Weather, k: nat) {
    w.write(k) && n.Validates(w.clock(k))
  }

  function Write(a: Account, n: Notification, w: Weather, k: nat): Account {
    if Accepts(n, w, k) then a.(doc := Merge(a.doc, n)) else a
  }

  // What handleSendError makes of the notification after adding the error.
  function AfterError(n: Notification, recoverable: bool, now: int): Notification
    requires n.attempts >= 0
  {
    if n.attempts >= n.maxAttempts then n.(status := Failed)
    else if recoverable then
      n.(nextRetryAt := Some(now + NextRetryIn(n.attempts)), attempts := n.attempts + 1, status := Failed)
    else n.(status := Failed)
  }

  // handleSendError
  function HandleSendError(a: Account, n: Notification, recoverable: bool, w: Weather, k: nat): Account
    requires n.attempts >= 0
  {
    var n1 := n.(errors := n.errors + [NotificationError(w.clock(k), recoverable)]);
    var n2 := AfterError(n1, recoverable, w.clock(k + 1));
    Write(Write(a, n1, w, k), n2, w, k + 1)
  }

  // sendNotificationNow, for a copy n of the stored document.
  function SendNow(a: Account, n: Notification, w: Weather, k: nat): Account
    requires n.attempts >= 0
  {
    var n1 := n.(status := Processing);
    if !Accepts(n1, w, k) then a
    else
      var b := Write(a, n1, w, k).(mailed := a.mailed + [w.mail]);
      if w.mail.Delivered? then Write(b, n1.(status := Sent), w, k + 1)
      else HandleSendError(b, n1, w.mail.recoverable, w, k + 1)
  }

  datatype Operation =
    | Process(w: Weather)
    | ProcessScheduled(w: Weather)
    | Retry(w: Weather)
    | Cancel(w: Weather)
    | Resend(w: Weather)

  // The retry path charges an attempt of its own before sending.
  function Charged(n: Notification, now: int): Notification
    requires n.attempts >= 0
  {
    n.(attempts := n.attempts + 1, nextRetryAt := Some(now + NextRetryIn(n.attempts + 1)))
  }

  function Apply(a: Account, op: Operation): Account
    requires a.doc.attempts >= 0
  {
    var n, w := a.doc, op.w;
    match op
    case Process(_) => if n.IsPending(w.now) then SendNow(a, n, w, 0) else a
    case ProcessScheduled(_) =>
      var n1 := n.(status := Pending);
      if n.IsDue(w.now) && Accepts(n1, w, 0) then SendNow(Write(a, n1, w, 0), n1, w, 1) else a
    case Retry(_) =>
      var n1 := Charged(n, w.clock(0));
      if n.IsRetryable(w.now) && n.CanRetry(w.clock(0)) && Accepts(n1, w, 0)
      then SendNow(Write(a, n1, w, 0), n1, w, 1) else a
    case Cancel(_) =>
      if n.status == Pending || n.status == Scheduled then Write(a, n.(status := Cancelled), w, 0) else a
    case Resend(_) =>
      var n1 := n.(status := Pending, attempts := 0, errors := [], nextRetryAt := None);
      if Accepts(n1, w, 0) then SendNow(Write(a, n1, w, 0), n1, w, 1) else a
  }

  // SendEmail: the account of a notification just created, and sent at once when it should be.
  predicate Creatable(maxAttempts: int, scheduledAt: Option<int>, now: int) {
    NewNotification(maxAttempts, scheduledAt).Validates(now)
  }

  function Create(maxAttempts: int, scheduledAt: Option<int>, w: Weather): Account
    requires Creatable(maxAttempts, scheduledAt, w.now)
  {
    var n := NewNotification(maxAttempts, scheduledAt);
    var a := Account(n, []);
    if n.ShouldProcess(w.clock(0)) then SendNow(a, n, w, 1) else a
  }

  lemma ApplyKeepsAttempts(a: Account, op: Operation)
    requires a.doc.attempts >= 0
    ensures Apply(a, op).doc.attempts >= 0
  {
  }

  function RunAll(a: Account, ops: seq<Operation>): (r: Account)
    requires a.doc.attempts >= 0
    ensures r.doc.attempts >= 0
    decreases |ops|
  {
    if ops == [] then a
    else
      ApplyKeepsAttempts(a, ops[0]);
      RunAll(Apply(a, ops[0]), ops[1..])
  }
}
