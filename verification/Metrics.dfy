// The metrics collector of internal/worker/monitoring.go: counters and three indexes that must
// agree with them.  Durations are in milliseconds; averages and error rates are left out.
module Metrics {
  import opened MapSums
  import opened Pigeonhole

  datatype ActionMetrics = ActionMetrics(count: int, successes: int, failures: int, min: int, max: int, total: int)

  datatype PeriodStats = PeriodStats(processed: int, succeeded: int, failed: int)

  ghost function Executions(m: map<string, ActionMetrics>): map<string, int> {
    map a | a in m :: m[a].successes + m[a].failures
  }

  ghost function Totals(m: map<string, ActionMetrics>): map<string, int> {
    map a | a in m :: m[a].total
  }

  ghost function Processed<K>(m: map<K, PeriodStats>): map<K, int> {
    map k | k in m :: m[k].processed
  }

  ghost function Succeeded<K>(m: map<K, PeriodStats>): map<K, int> {
    map k | k in m :: m[k].succeeded
  }

  // Min * n <= total <= max * n over the n executions, whatever retries add to the count.
  ghost predicate Between(a: ActionMetrics) {
    var n := a.successes + a.failures;
    n >= 1 && a.min * n <= a.total <= a.max * n && a.min <= a.max && n <= a.count
  }

  function Tally<K>(m: map<K, PeriodStats>, k: K, success: bool): map<K, PeriodStats> {
    var s := if k in m then m[k] else PeriodStats(0, 0, 0);
    m[k := PeriodStats(s.processed + 1,
                       s.succeeded + (if success then 1 else 0),
                       s.failed + (if success then 0 else 1))]
  }

  lemma TallySums<K>(m: map<K, PeriodStats>, k: K, success: bool)
    ensures Sum(Processed(Tally(m, k, success))) == Sum(Processed(m)) + 1
    ensures Sum(Succeeded(Tally(m, k, success))) == Sum(Succeeded(m)) + if success then 1 else 0
  {
    var t := Tally(m, k, success);
    assert Processed(t) == Processed(m)[k := t[k].processed];
    assert Succeeded(t) == Succeeded(m)[k := t[k].succeeded];
    SumUpdate(Processed(m), k, t[k].processed);
    SumUpdate(Succeeded(m), k, t[k].succeeded);
  }

  function Recorded(a: ActionMetrics, ms: int, success: bool): ActionMetrics {
    ActionMetrics(a.count + 1, a.successes + (if success then 1 else 0), a.failures + (if success then 0 else 1),
                  if ms < a.min then ms else a.min, if ms > a.max then ms else a.max, a.total + ms)
  }

  lemma Scale(a: int, b: int, n: nat)
    requires a <= b
    ensures a * n <= b * n
  {
  }

  lemma RecordedBetween(a: ActionMetrics, ms: int, success: bool)
    requires Between(a) || (a.successes == a.failures == a.total == 0 && a.min == a.max == ms && a.count >= 0)
    ensures Between(Recorded(a, ms, success))
  {
    var b, n := Recorded(a, ms, success), a.successes + a.failures;
    Scale(b.min, a.min, n);
    Scale(a.max, b.max, n);
    assert b.min * (n + 1) == b.min * n + b.min && b.max * (n + 1) == b.max * n + b.max;
  }

  lemma RecordSums(m: map<string, ActionMetrics>, action: string, a: ActionMetrics)
    ensures Sum(Executions(m[action := a])) == Sum(Executions(m)) - At(Executions(m), action) + a.successes + a.failures
    ensures Sum(Totals(m[action := a])) == Sum(Totals(m)) - At(Totals(m), action) + a.total
  {
    assert Executions(m[action := a]) == Executions(m)[action := a.successes + a.failures];
    assert Totals(m[action := a]) == Totals(m)[action := a.total];
    SumUpdate(Executions(m), action, a.successes + a.failures);
    SumUpdate(Totals(m), action, a.total);
  }

  datatype Metrics = Metrics(
    processed: int,
    succeeded: int,
    failed: int,
    retried: int,
    time: int,
    actions: map<string, ActionMetrics>,
    hourly: map<int, PeriodStats>,
    daily: map<int, PeriodStats>)

  const RESET: Metrics := Metrics(0, 0, 0, 0, 0, map[], map[], map[])

  // RecordTaskProcessed, at some hour of some day.
  function Record(m: Metrics, action: string, ms: int, success: bool, hour: int, day: int): Metrics {
    var a := if action in m.actions then m.actions[action] else ActionMetrics(0, 0, 0, ms, ms, 0);
    Metrics(m.processed + 1, m.succeeded + (if success then 1 else 0), m.failed + (if success then 0 else 1),
            m.retried, m.time + ms,
            m.actions[action := Recorded(a, ms, success)],
            Tally(m.hourly, hour, success), Tally(m.daily, day, success))
  }

  // RecordTaskRetried: a retry raises the action's count, if the action is known.
  function Retried(m: Metrics, action: string): Metrics {
    m.(retried := m.retried + 1,
    actions := if action in m.actions
               then m.actions[action := m.actions[action].(count := m.actions[action].count + 1)]
               else m.actions)
  }

  // CleanupOldStats
  function Cleaned(m: Metrics, cutoff: int): Metrics {
    m.(daily := Unless(m.daily, cutoff, m.daily.Keys))
  }

  // The days kept when some have been looked at.
  function Unless(m: map<int, PeriodStats>, cutoff: int, seen: set<int>): map<int, PeriodStats> {
    map d | d in m && (d >= cutoff || d !in seen) :: m[d]
  }

  datatype Event =
    | Process(action: string, ms: int, success: bool, hour: int, day: int)
    | Retry(action: string)
    | Clean(cutoff: int)
    | Reset

  function Apply(m: Metrics, e: Event): Metrics {
    match e
    case Process(action, ms, success, hour, day) => Record(m, action, ms, success, hour, day)
    case Retry(action) => Retried(m, action)
    case Clean(cutoff) => Cleaned(m, cutoff)
    case Reset => RESET
  }

  function Run(m: Metrics, events: seq<Event>): Metrics
    decreases |events|
  {
    if events == [] then m else Run(Apply(m, events[0]), events[1..])
  }

  // The action and hour indexes agree with the counters.
  ghost predicate Agrees(m: Metrics) {
    && m.processed == m.succeeded + m.failed
    && m.processed == Sum(Executions(m.actions))
    && m.processed == Sum(Processed(m.hourly))
    && m.succeeded == Sum(Succeeded(m.hourly))
    && m.time == Sum(Totals(m.actions))
  }

  ghost predicate AllBetween(m: Metrics) {
    forall a :: a in m.actions ==> Between(m.actions[a])
  }

  lemma RecordKeepsAgreement(m: Metrics, action: string, ms: int, success: bool, hour: int, day: int)
    requires Agrees(m) && AllBetween(m)
    ensures Agrees(Record(m, action, ms, success, hour, day)) && AllBetween(Record(m, action, ms, success, hour, day))
  {
    var a := if action in m.actions then m.actions[action] else ActionMetrics(0, 0, 0, ms, ms, 0);
    RecordedBetween(a, ms, success);
    RecordSums(m.actions, action, Recorded(a, ms, success));
    TallySums(m.hourly, hour, success);
  }

  lemma StepKeepsAgreement(m: Metrics, e: Event)
    requires Agrees(m) && AllBetween(m)
    ensures Agrees(Apply(m, e)) && AllBetween(Apply(m, e))
  {
    match e
    case Process(action, ms, success, hour, day) => RecordKeepsAgreement(m, action, ms, success, hour, day);
    case Retry(action) =>
      if action in m.actions {
        RecordSums(m.actions, action, m.actions[action].(count := m.actions[action].count + 1));
      }
    case Clean(_) =>
    case Reset => EmptySums();
  }

  lemma {:induction false} RunKeepsAgreement(m: Metrics, events: seq<Event>)
    requires Agrees(m) && AllBetween(m)
    ensures Agrees(Run(m, events)) && AllBetween(Run(m, events))
    decreases |events|
  {
    if events != [] {
      StepKeepsAgreement(m, events[0]);
      RunKeepsAgreement(Apply(m, events[0]), events[1..]);
    }
  }

  // Since the last reset, whatever was recorded, retried and cleaned up: the tasks processed are
  // the successes and failures summed over the actions, and the tasks summed over the hours; the
  // total time is the durations summed over the actions; and each action's total lies between its
  // shortest and longest duration times its executions.
  lemma IndexesAgree(events: seq<Event>)
    ensures var m := Run(RESET, events);
            && m.processed == m.succeeded + m.failed == Sum(Executions(m.actions)) == Sum(Processed(m.hourly))
            && m.time == Sum(Totals(m.actions))
            && forall a :: a in m.actions ==>
                 var x := m.actions[a];
                 x.min * (x.successes + x.failures) <= x.total <= x.max * (x.successes + x.failures)
  {
    EmptySums();
    RunKeepsAgreement(RESET, events);
    var m := Run(RESET, events);
    assert forall a :: a in m.actions ==> Between(m.actions[a]);
  }

  lemma EmptySums()
    ensures Agrees(RESET)
  {
    assert Executions(map[]).Keys == {} && Totals(map[]).Keys == {};
    assert Processed<int>(map[]).Keys == {} && Succeeded<int>(map[]).Keys == {};
  }

  class MetricsCollector {
    var tasksProcessed: int
    var tasksSucceeded: int
    var tasksFailed: int
    var tasksRetried: int
    var totalProcessTime: int
    var actionMetrics: map<string, ActionMetrics>
    var hourlyStats: map<int, PeriodStats>
    var dailyStats: map<int, PeriodStats>

    function View(): Metrics
      reads this
    {
      Metrics(tasksProcessed, tasksSucceeded, tasksFailed, tasksRetried, totalProcessTime,
              actionMetrics, hourlyStats, dailyStats)
    }

    constructor ()
      ensures View() == RESET
    {
      tasksProcessed, tasksSucceeded, tasksFailed, tasksRetried, totalProcessTime := 0, 0, 0, 0, 0;
      actionMetrics, hourlyStats, dailyStats := map[], map[], map[];
    }

    method RecordTaskProcessed(action: string, ms: int, success: bool, hour: int, day: int)
      modifies this
      ensures View() == Record(old(View()), action, ms, success, hour, day)
    {
      tasksProcessed := tasksProcessed + 1;
      totalProcessTime := totalProcessTime + ms;
      if success {
        tasksSucceeded := tasksSucceeded + 1;
      } else {
        tasksFailed := tasksFailed + 1;
      }
      UpdateActionMetrics(action, ms, success);
      hourlyStats := Tally(hourlyStats, hour, success);
      dailyStats := Tally(dailyStats, day, success);
    }

    method UpdateActionMetrics(action: string, ms: int, success: bool)
      modifies this`actionMetrics
      ensures actionMetrics ==
              old(actionMetrics)[action := Recorded(if action in old(actionMetrics) then old(actionMetrics)[action]
                                                    else ActionMetrics(0, 0, 0, ms, ms, 0), ms, success)]
    {
      if action !in actionMetrics {
        actionMetrics := actionMetrics[action := ActionMetrics(0, 0, 0, ms, ms, 0)];
      }
      var metrics := actionMetrics[action];
      metrics := metrics.(count := metrics.count + 1, total := metrics.total + ms);
      if success {
        metrics := metrics.(successes := metrics.successes + 1);
      } else {
        metrics := metrics.(failures := metrics.failures + 1);
      }
      if ms < metrics.min {
        metrics := metrics.(min := ms);
      }
      if ms > metrics.max {
        metrics := metrics.(max := ms);
      }
      actionMetrics := actionMetrics[action := metrics];
    }

    method RecordTaskRetried(action: string)
      modifies this`tasksRetried, this`actionMetrics
      ensures View() == Retried(old(View()), action)
    {
      tasksRetried := tasksRetried + 1;
      if action in actionMetrics {
        var metrics := actionMetrics[action];
        actionMetrics := actionMetrics[action := metrics.(count := metrics.count + 1)];
      }
    }

    method ResetMetrics()
      modifies this
      ensures View() == RESET
    {
      tasksProcessed, tasksSucceeded, tasksFailed, tasksRetried, totalProcessTime := 0, 0, 0, 0, 0;
      actionMetrics, hourlyStats, dailyStats := map[], map[], map[];
    }

    method CleanupOldStats(cutoff: int)
      modifies this`dailyStats
      ensures View() == Cleaned(old(View()), cutoff)
    {
      ghost var before := dailyStats;
      var remaining := dailyStats.Keys;
      while remaining != {}
        invariant remaining <= before.Keys
        invariant dailyStats == Unless(before, cutoff, before.Keys - remaining)
        decreases |remaining|
      {
        HasMember(remaining);
        var d :| d in remaining;
        if d < cutoff {
          dailyStats := dailyStats - {d};
        }
        remaining := remaining - {d};
      }
      assert before.Keys - remaining == before.Keys;
    }
  }
}
