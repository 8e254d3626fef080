// internal/models/notification.go and the parts of internal/repository/notification_repository.go
// the notification service depends on.
//
// Time is in nanoseconds.  The message (recipients, subject, body) never changes after creation
// and is left out; what remains is what the state machine reads and writes.
module NotificationModel {
  import opened Wrappers
  import opened Powers

  const SECOND: int := 1_000_000_000
  const DEFAULT_RETRY_DELAY: int := 5 * 60 * SECOND
  const MAX_RETRY_DELAY: int := 24 * 60 * 60 * SECOND
  const DEFAULT_MAX_ATTEMPTS: int := 3

  datatype Status = Pending | Processing | Sent | Failed | Cancelled | Scheduled

  datatype NotificationError = NotificationError(at: int, recoverable: bool)

  datatype Notification = Notification(
    status: Status,
    attempts: int,
    maxAttempts: int,
    scheduledAt: Option<int>,
    nextRetryAt: Option<int>,
    errors: seq<NotificationError>)
  {
    predicate CanRetry(now: int) {
      status == Failed && attempts < maxAttempts && (nextRetryAt.None? || nextRetryAt.value < now)
    }

    predicate ShouldProcess(now: int) {
      (status == Pending || status == Scheduled) && (scheduledAt.Some? ==> scheduledAt.value <= now)
    }

    // Validate, as far as it depends on these fields.
    predicate Validates(now: int) {
      1 <= maxAttempts <= 10 && (scheduledAt.Some? ==> now <= scheduledAt.value)
    }

    // The queries that pick notifications to work on.
    predicate IsPending(now: int) {
      status == Pending && (scheduledAt.Some? ==> scheduledAt.value <= now)
    }

    predicate IsDue(now: int) {
      status == Scheduled && scheduledAt.Some? && scheduledAt.value <= now
    }

    predicate IsRetryable(now: int) {
      status == Failed && attempts < maxAttempts && (nextRetryAt.Some? ==> nextRetryAt.value <= now)
    }
  }

  // ToEmailNotification
  function NewNotification(maxAttempts: int, scheduledAt: Option<int>): Notification {
    Notification(if scheduledAt.Some? then Scheduled else Pending, 0,
                 if maxAttempts == 0 then DEFAULT_MAX_ATTEMPTS else maxAttempts, scheduledAt, None, [])
  }

  // A stored document after "$set" of a notification: empty optional fields are not written.
  function Merge(stored: Notification, n: Notification): Notification {
    n.(nextRetryAt := if n.nextRetryAt.None? then stored.nextRetryAt else n.nextRetryAt,
    errors := if n.errors == [] then stored.errors else n.errors,
    scheduledAt := if n.scheduledAt.None? then stored.scheduledAt else n.scheduledAt)
  }

  // ----- Backoff -----

  function Min(a: int, b: int): int {
    if a <= b then a else b
  }

  // min(5min * 2^(a-1), 24h)
  function RetryDelay(attempts: int): int
    requires attempts >= 1
  {
    Min(DEFAULT_RETRY_DELAY * Pow2(attempts - 1), MAX_RETRY_DELAY)
  }

  // The doubling loop of CalculateNextRetry saturates at 24 hours and never holds more than 48.
  method DoublingDelay(attempts: int) returns (delay: int)
    requires attempts >= 1
    ensures delay == RetryDelay(attempts)
  {
    delay := DEFAULT_RETRY_DELAY;
    var i := 1;
    while i < attempts
      invariant 1 <= i <= attempts
      invariant delay == DEFAULT_RETRY_DELAY * Pow2(i - 1) <= MAX_RETRY_DELAY
    {
      delay := delay * 2;
      assert delay <= 2 * MAX_RETRY_DELAY;
      if delay > MAX_RETRY_DELAY {
        Pow2Monotone(i, attempts - 1);
        delay := MAX_RETRY_DELAY;
        break;
      }
      i := i + 1;
    }
  }

  // What CalculateNextRetry adds to the current time; the jitter is a tenth, rounded down.
  function NextRetryIn(attempts: int): (d: int)
    requires attempts >= 0
    ensures d >= DEFAULT_RETRY_DELAY
  {
    if attempts == 0 then DEFAULT_RETRY_DELAY
    else
      Pow2Monotone(0, attempts - 1);
      RetryDelay(attempts) + RetryDelay(attempts) / 10
  }

  method CalculateNextRetry(attempts: int, now: int) returns (at: int)
    requires attempts >= 0
    ensures at == now + NextRetryIn(attempts)
  {
    if attempts == 0 {
      return now + DEFAULT_RETRY_DELAY;
    }
    var delay := DoublingDelay(attempts);
    at := now + (delay + delay / 10);
  }
}
