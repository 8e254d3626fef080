// internal/services/notification_service.go: the service, with the collection of stored
// notifications and its counters updated in place.
module NotificationServices {
  import opened Wrappers
  import opened Pigeonhole
  import opened NotificationModel
  import opened NotificationSemantics
  import opened NotificationTheorems

  type Accounts = map<int, Account>

  // The weather each notification meets during one operation.
  type Forecast = int -> Weather

  ghost predicate Sane(accounts: Accounts) {
    forall id :: id in accounts ==> accounts[id].doc.attempts >= 0
  }

  // The answer of a query: distinct stored notifications, no more than the limit.
  ghost predicate Selection(ids: seq<int>, accounts: Accounts, limit: nat) {
    && |ids| <= limit
    && Distinct(ids)
    && (forall i :: 0 <= i < |ids| ==> ids[i] in accounts)
  }

  // The three batch operations of the service.
  datatype Batch = PendingBatch | ScheduledBatch | RetryBatch {
    function Op(w: Weather): Operation {
      match this
      case PendingBatch => Process(w)
      case ScheduledBatch => Operation.ProcessScheduled(w)
      case RetryBatch => Retry(w)
    }
  }

  // The operation of a batch applied to each of some notifications.
  ghost function ApplyAll(accounts: Accounts, ids: seq<int>, batch: Batch, f: Forecast): Accounts
    requires Sane(accounts)
  {
    map id | id in accounts :: if id in ids then Apply(accounts[id], batch.Op(f(id))) else accounts[id]
  }

  // How many calls of the mail service lie between two states, by how they ended.
  function Gained(before: Account, after: Account): int {
    Successes(after.mailed) - Successes(before.mailed)
  }

  function Lost(before: Account, after: Account): int {
    |after.mailed| - |before.mailed| - Gained(before, after)
  }

  // The same, summed over the notifications of a batch.
  ghost function DeliveredAmong(accounts: Accounts, ids: seq<int>, batch: Batch, f: Forecast): int
    requires Sane(accounts) && forall id :: id in ids ==> id in accounts
  {
    if ids == [] then 0
    else
      var init, last := ids[..|ids| - 1], ids[|ids| - 1];
      assert last in ids;
      DeliveredAmong(accounts, init, batch, f) + Gained(accounts[last], Apply(accounts[last], batch.Op(f(last))))
  }

  ghost function RefusedAmong(accounts: Accounts, ids: seq<int>, batch: Batch, f: Forecast): int
    requires Sane(accounts) && forall id :: id in ids ==> id in accounts
  {
    if ids == [] then 0
    else
      var init, last := ids[..|ids| - 1], ids[|ids| - 1];
      assert last in ids;
      RefusedAmong(accounts, init, batch, f) + Lost(accounts[last], Apply(accounts[last], batch.Op(f(last))))
  }

  datatype ProcessingResult = ProcessingResult(processed: nat, success: nat, errors: nat)

  class NotificationService {
    var accounts: Accounts
    var isProcessing: bool
    var sentToday: int
    var failedToday: int

    constructor ()
      ensures accounts == map[] && !isProcessing && sentToday == 0 && failedToday == 0
    {
      accounts, isProcessing, sentToday, failedToday := map[], false, 0, 0;
    }

    // The repository's Update.
    method Update(id: int, n: Notification, w: Weather, k: nat) returns (ok: bool)
      requires id in accounts
      modifies this`accounts
      ensures ok == Accepts(n, w, k)
      ensures accounts == old(accounts)[id := Write(old(accounts)[id], n, w, k)]
    {
      ok := w.write(k) && n.Validates(w.clock(k));
      if ok {
        var stored := accounts[id];
        accounts := accounts[id := stored.(doc := Merge(stored.doc, n))];
      }
    }

    method HandleSendError(id: int, n: Notification, recoverable: bool, w: Weather, k: nat)
      requires id in accounts && n.attempts >= 0
      modifies this`accounts, this`failedToday
      ensures var after := NotificationSemantics.HandleSendError(old(accounts)[id], n, recoverable, w, k);
              accounts == old(accounts)[id := after]
      ensures failedToday == old(failedToday) + 1
    {
      var m := n.(errors := n.errors + [NotificationError(w.clock(k), recoverable)]);
      var _ := Update(id, m, w, k);
      if m.attempts >= m.maxAttempts {
        m := m.(status := Failed);
      } else if recoverable {
        var next := CalculateNextRetry(m.attempts, w.clock(k + 1));
        m := m.(nextRetryAt := Some(next));
        m := m.(attempts := m.attempts + 1);
        m := m.(status := Failed);
      } else {
        m := m.(status := Failed);
      }
      var _ := Update(id, m, w, k + 1);
      failedToday := failedToday + 1;
    }

    method SendNotificationNow(id: int, n: Notification, w: Weather, k: nat) returns (ok: bool)
      requires id in accounts && n.attempts >= 0
      modifies this`accounts, this`sentToday, this`failedToday
      ensures accounts == old(accounts)[id := SendNow(old(accounts)[id], n, w, k)]
      ensures var before, after := old(accounts)[id], SendNow(old(accounts)[id], n, w, k);
              && sentToday == old(sentToday) + Gained(before, after)
              && failedToday == old(failedToday) + Lost(before, after)
              && Gained(before, after) == if ok then 1 else 0
    {
      SendNowMails(accounts[id], n, w, k);
      var m := n.(status := Processing);
      ok := Update(id, m, w, k);
      if !ok {
        return;
      }
      var stored := accounts[id];
      accounts := accounts[id := stored.(mailed := stored.mailed + [w.mail])];
      if w.mail.Rejected? {
        HandleSendError(id, m, w.mail.recoverable, w, k + 1);
        return false;
      }
      m := m.(status := Sent);
      var _ := Update(id, m, w, k + 1);
      sentToday := sentToday + 1;
    }

    // SendEmail after validating the request.  Nothing is stored when Create fails; a failure to
    // send is not an error.
    method SendEmail(id: int, maxAttempts: int, scheduledAt: Option<int>, w: Weather, inserted: bool) returns (ok: bool)
      requires id !in accounts
      modifies this`accounts, this`sentToday, this`failedToday
      ensures ok == (Creatable(maxAttempts, scheduledAt, w.now) && inserted)
      ensures accounts == if ok then old(accounts)[id := NotificationSemantics.Create(maxAttempts, scheduledAt, w)]
              else old(accounts)
      ensures sentToday == old(sentToday) + if ok then Successes(accounts[id].mailed) else 0
      ensures failedToday == old(failedToday) + if ok then |accounts[id].mailed| - Successes(accounts[id].mailed) else 0
    {
      var n := NewNotification(maxAttempts, scheduledAt);
      if !n.Validates(w.now) || !inserted {
        return false;
      }
      accounts := accounts[id := Account(n, [])];
      if n.ShouldProcess(w.clock(0)) {
        var _ := SendNotificationNow(id, n, w, 1);
      }
      return true;
    }

    // ProcessPendingNotifications.  Each selected notification is processed, the others are left
    // alone.  A mail delivered here is counted twice in sentToday: once when it is sent, once
    // when the totals of the batch are added; and likewise for the errors.
    method ProcessPending(ids: seq<int>, now: int, f: Forecast) returns (r: Result<ProcessingResult, string>)
      requires Sane(accounts) && Selection(ids, accounts, 100)
      requires forall id :: id in ids ==> accounts[id].doc.IsPending(now) && f(id).now == now
      modifies this
      ensures isProcessing == old(isProcessing)
      ensures old(isProcessing) ==>
                && r.Err? && accounts == old(accounts)
                && sentToday == old(sentToday) && failedToday == old(failedToday)
      ensures !old(isProcessing) ==>
                && accounts == ApplyAll(old(accounts), ids, PendingBatch, f)
                && r.Ok? && r.value.processed == |ids| == r.value.success + r.value.errors
                && r.value.success == DeliveredAmong(old(accounts), ids, PendingBatch, f)
                && sentToday == old(sentToday) + 2 * r.value.success
                && failedToday == old(failedToday) + RefusedAmong(old(accounts), ids, PendingBatch, f) + r.value.errors
    {
      if isProcessing {
        return Err("processing already in progress");
      }
      isProcessing := true;
      ghost var before := accounts;
      var success: nat, errors: nat := 0, 0;
      for i := 0 to |ids|
        invariant accounts == ApplyAll(before, ids[..i], PendingBatch, f)
        invariant success == DeliveredAmong(before, ids[..i], PendingBatch, f) && success + errors == i
        invariant sentToday == old(sentToday) + success
        invariant failedToday == old(failedToday) + RefusedAmong(before, ids[..i], PendingBatch, f)
        invariant isProcessing
      {
        var id := ids[i];
        TallyMore(before, ids, i, PendingBatch, f);
        OneMore(before, ids, i, PendingBatch, f);
        var ok := SendNotificationNow(id, accounts[id].doc, f(id), 0);
        if ok {
          success := success + 1;
        } else {
          errors := errors + 1;
        }
      }
      assert ids[..|ids|] == ids;
      sentToday := sentToday + success;
      failedToday := failedToday + errors;
      isProcessing := false;
      return Ok(ProcessingResult(|ids|, success, errors));
    }

    method ProcessScheduledOne(id: int, w: Weather)
      requires id in accounts && accounts[id].doc.attempts >= 0 && accounts[id].doc.IsDue(w.now)
      modifies this`accounts, this`sentToday, this`failedToday
      ensures accounts == old(accounts)[id := Apply(old(accounts)[id], Operation.ProcessScheduled(w))]
      ensures sentToday == old(sentToday) + Gained(old(accounts)[id], accounts[id])
      ensures failedToday == old(failedToday) + Lost(old(accounts)[id], accounts[id])
    {
      var n := accounts[id].doc.(status := Pending);
      var ok := Update(id, n, w, 0);
      if ok {
        var _ := SendNotificationNow(id, n, w, 1);
      }
    }

    // ProcessScheduledNotifications
    method ProcessScheduled(ids: seq<int>, now: int, f: Forecast)
      requires Sane(accounts) && Selection(ids, accounts, 50)
      requires forall id :: id in ids ==> accounts[id].doc.IsDue(now) && f(id).now == now
      modifies this`accounts, this`sentToday, this`failedToday
      ensures accounts == ApplyAll(old(accounts), ids, ScheduledBatch, f)
      ensures sentToday == old(sentToday) + DeliveredAmong(old(accounts), ids, ScheduledBatch, f)
      ensures failedToday == old(failedToday) + RefusedAmong(old(accounts), ids, ScheduledBatch, f)
    {
      ghost var before := accounts;
      for i := 0 to |ids|
        invariant accounts == ApplyAll(before, ids[..i], ScheduledBatch, f)
        invariant sentToday == old(sentToday) + DeliveredAmong(before, ids[..i], ScheduledBatch, f)
        invariant failedToday == old(failedToday) + RefusedAmong(before, ids[..i], ScheduledBatch, f)
      {
        TallyMore(before, ids, i, ScheduledBatch, f);
        OneMore(before, ids, i, ScheduledBatch, f);
        ProcessScheduledOne(ids[i], f(ids[i]));
      }
      assert ids[..|ids|] == ids;
    }

    method RetryOne(id: int, w: Weather)
      requires id in accounts && accounts[id].doc.attempts >= 0 && accounts[id].doc.IsRetryable(w.now)
      modifies this`accounts, this`sentToday, this`failedToday
      ensures accounts == old(accounts)[id := Apply(old(accounts)[id], Retry(w))]
      ensures sentToday == old(sentToday) + Gained(old(accounts)[id], accounts[id])
      ensures failedToday == old(failedToday) + Lost(old(accounts)[id], accounts[id])
    {
      ghost var a := accounts[id];
      var n := accounts[id].doc;
      if !n.CanRetry(w.clock(0)) {
        return;
      }
      n := n.(attempts := n.attempts + 1);
      var next := CalculateNextRetry(n.attempts, w.clock(0));
      n := n.(nextRetryAt := Some(next));
      assert n == Charged(a.doc, w.clock(0));
      var ok := Update(id, n, w, 0);
      if ok {
        assert Apply(a, Retry(w)) == SendNow(Write(a, n, w, 0), n, w, 1);
        var _ := SendNotificationNow(id, n, w, 1);
      }
    }

    // RetryFailedNotifications
    method RetryFailed(ids: seq<int>, now: int, f: Forecast)
      requires Sane(accounts) && Selection(ids, accounts, 25)
      requires forall id :: id in ids ==> accounts[id].doc.IsRetryable(now) && f(id).now == now
      modifies this`accounts, this`sentToday, this`failedToday
      ensures accounts == ApplyAll(old(accounts), ids, RetryBatch, f)
      ensures sentToday == old(sentToday) + DeliveredAmong(old(accounts), ids, RetryBatch, f)
      ensures failedToday == old(failedToday) + RefusedAmong(old(accounts), ids, RetryBatch, f)
    {
      ghost var before := accounts;
      for i := 0 to |ids|
        invariant accounts == ApplyAll(before, ids[..i], RetryBatch, f)
        invariant sentToday == old(sentToday) + DeliveredAmong(before, ids[..i], RetryBatch, f)
        invariant failedToday == old(failedToday) + RefusedAmong(before, ids[..i], RetryBatch, f)
      {
        TallyMore(before, ids, i, RetryBatch, f);
        OneMore(before, ids, i, RetryBatch, f);
        RetryOne(ids[i], f(ids[i]));
      }
      assert ids[..|ids|] == ids;
    }

    method CancelNotification(id: int, w: Weather) returns (ok: bool)
      requires Sane(accounts)
      modifies this`accounts
      ensures ok <==> id in old(accounts) && old(accounts)[id].doc.status in {Pending, Scheduled}
                      && Accepts(old(accounts)[id].doc.(status := Cancelled), w, 0)
      ensures accounts == if id in old(accounts) then old(accounts)[id := Apply(old(accounts)[id], Cancel(w))]
              else old(accounts)
      ensures ok ==> accounts[id].doc.status == Cancelled
    {
      if id !in accounts {
        return false;
      }
      var n := accounts[id].doc;
      if n.status != Pending && n.status != Scheduled {
        return false;
      }
      n := n.(status := Cancelled);
      ok := Update(id, n, w, 0);
    }

    method ResendNotification(id: int, w: Weather) returns (ok: bool)
      requires Sane(accounts)
      modifies this`accounts, this`sentToday, this`failedToday
      ensures accounts == if id in old(accounts) then old(accounts)[id := Apply(old(accounts)[id], Resend(w))]
              else old(accounts)
      ensures ok <==> id in old(accounts) && Gained(old(accounts)[id], accounts[id]) == 1
      ensures sentToday == old(sentToday) + if id in old(accounts) then Gained(old(accounts)[id], accounts[id]) else 0
      ensures failedToday == old(failedToday) + if id in old(accounts) then Lost(old(accounts)[id], accounts[id]) else 0
    {
      if id !in accounts {
        return false;
      }
      var n := accounts[id].doc.(status := Pending, attempts := 0, errors := [], nextRetryAt := None);
      ok := Update(id, n, w, 0);
      if ok {
        ok := SendNotificationNow(id, n, w, 1);
      }
    }
  }

  // What a send adds to the calls of the mail service.
  lemma SendNowMails(a: Account, n: Notification, w: Weather, k: nat)
    requires n.attempts >= 0
    ensures var b := SendNow(a, n, w, k);
            var mailed := Accepts(n.(status := Processing), w, k);
            && Gained(a, b) == (if mailed && w.mail.Delivered? then 1 else 0)
            && Lost(a, b) == (if mailed && w.mail.Rejected? then 1 else 0)
  {
    SuccessesStep(a.mailed, w.mail);
  }

  lemma TallyMore(accounts: Accounts, ids: seq<int>, i: nat, batch: Batch, f: Forecast)
    requires Sane(accounts) && Selection(ids, accounts, |ids|) && i < |ids|
    ensures ids[i] in ids && ids[i] in accounts && accounts[ids[i]].doc.attempts >= 0
    ensures var before, after := accounts[ids[i]], Apply(accounts[ids[i]], batch.Op(f(ids[i])));
            && DeliveredAmong(accounts, ids[..i + 1], batch, f) ==
               DeliveredAmong(accounts, ids[..i], batch, f) + Gained(before, after)
            && RefusedAmong(accounts, ids[..i + 1], batch, f) ==
               RefusedAmong(accounts, ids[..i], batch, f) + Lost(before, after)
  {
    var some := ids[..i + 1];
    assert some[..i] == ids[..i] && some[i] == ids[i];
  }

  lemma OneMore(accounts: Accounts, ids: seq<int>, i: nat, batch: Batch, f: Forecast)
    requires Sane(accounts) && Selection(ids, accounts, |ids|) && i < |ids|
    ensures ids[i] in ids && ids[i] in accounts && accounts[ids[i]].doc.attempts >= 0
    ensures ApplyAll(accounts, ids[..i], batch, f)[ids[i]] == accounts[ids[i]]
    ensures ApplyAll(accounts, ids[..i + 1], batch, f) ==
            ApplyAll(accounts, ids[..i], batch, f)[ids[i] := Apply(accounts[ids[i]], batch.Op(f(ids[i])))]
  {
    var some := ids[..i + 1];
    assert some == ids[..i] + [ids[i]];
    assert some[..i] == ids[..i] && some[i] == ids[i];
    assert ids[i] !in ids[..i];
  }

  // A batch keeps every stored notification within its bounds.
  lemma BatchKeepsSafe(accounts: Accounts, ids: seq<int>, batch: Batch, f: Forecast)
    requires Sane(accounts) && forall id :: id in accounts ==> Safe(accounts[id])
    ensures var after := ApplyAll(accounts, ids, batch, f);
            after.Keys == accounts.Keys && forall id :: id in after ==> Safe(after[id])
  {
    forall id | id in accounts ensures Safe(Apply(accounts[id], batch.Op(f(id)))) {
      ApplyKeepsSafe(accounts[id], batch.Op(f(id)));
    }
  }
}
