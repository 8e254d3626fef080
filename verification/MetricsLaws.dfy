// What the metrics count, in terms of what was recorded since the last reset.
module MetricsLaws {
  import opened Metrics

  lemma {:induction false} RunMore(m: Metrics, events: seq<Event>, e: Event)
    ensures Run(m, events + [e]) == Apply(Run(m, events), e)
    decreases |events|
  {
    if events == [] {
      assert events + [e] == [e] && [e][1..] == [];
      assert Run(Apply(m, e), []) == Apply(m, e);
    } else {
      assert (events + [e])[0] == events[0] && (events + [e])[1..] == events[1..] + [e];
      RunMore(Apply(m, events[0]), events[1..], e);
    }
  }

  // ----- Counting events since the last reset -----

  function Tasks(events: seq<Event>, success: bool): nat {
    if events == [] then 0
    else
      match events[|events| - 1]
      case Reset => 0
      case Process(_, _, s, _, _) => Tasks(events[..|events| - 1], success) + if s == success then 1 else 0
      case _ => Tasks(events[..|events| - 1], success)
  }

  function OfAction(events: seq<Event>, action: string, success: bool): nat {
    if events == [] then 0
    else
      match events[|events| - 1]
      case Reset => 0
      case Process(a, _, s, _, _) =>
        OfAction(events[..|events| - 1], action, success) + if a == action && s == success then 1 else 0
      case _ => OfAction(events[..|events| - 1], action, success)
  }

  function InHour(events: seq<Event>, hour: int, success: bool): nat {
    if events == [] then 0
    else
      match events[|events| - 1]
      case Reset => 0
      case Process(_, _, s, h, _) =>
        InHour(events[..|events| - 1], hour, success) + if h == hour && s == success then 1 else 0
      case _ => InHour(events[..|events| - 1], hour, success)
  }

  // Those of a day, since it was last cleaned up.
  function OnDay(events: seq<Event>, day: int, success: bool): nat {
    if events == [] then 0
    else
      match events[|events| - 1]
      case Reset => 0
      case Process(_, _, s, _, d) =>
        OnDay(events[..|events| - 1], day, success) + if d == day && s == success then 1 else 0
      case Clean(cutoff) => if day < cutoff then 0 else OnDay(events[..|events| - 1], day, success)
      case Retry(_) => OnDay(events[..|events| - 1], day, success)
  }

  // The time some action took altogether.
  function Spent(events: seq<Event>, action: string): int {
    if events == [] then 0
    else
      match events[|events| - 1]
      case Reset => 0
      case Process(a, ms, _, _, _) => Spent(events[..|events| - 1], action) + if a == action then ms else 0
      case _ => Spent(events[..|events| - 1], action)
  }

  // Whether it once took so long.
  predicate Took(events: seq<Event>, action: string, ms: int) {
    events != [] &&
    match events[|events| - 1]
    case Reset => false
    case Process(a, t, _, _, _) => (a == action && t == ms) || Took(events[..|events| - 1], action, ms)
    case _ => Took(events[..|events| - 1], action, ms)
  }

  function Retries(events: seq<Event>): nat {
    if events == [] then 0
    else
      match events[|events| - 1]
      case Reset => 0
      case Retry(_) => Retries(events[..|events| - 1]) + 1
      case _ => Retries(events[..|events| - 1])
  }

  // ----- The metrics are those counts -----

  ghost predicate ActionCounts(a: ActionMetrics, events: seq<Event>, action: string) {
    && a.successes == OfAction(events, action, true) && a.failures == OfAction(events, action, false)
    && a.total == Spent(events, action)
    && Took(events, action, a.min) && Took(events, action, a.max)
    && (forall ms :: Took(events, action, ms) ==> a.min <= ms <= a.max)
  }

  ghost predicate PeriodCounts(s: PeriodStats, succeeded: nat, failed: nat) {
    s.succeeded == succeeded && s.failed == failed && s.processed == succeeded + failed
  }

  ghost predicate ActionsCount(m: Metrics, events: seq<Event>) {
    forall a :: if a in m.actions then ActionCounts(m.actions[a], events, a)
                else OfAction(events, a, true) == OfAction(events, a, false) == Spent(events, a) == 0
                     && forall ms :: !Took(events, a, ms)
  }

  ghost predicate HoursCount(m: Metrics, events: seq<Event>) {
    forall h :: if h in m.hourly then PeriodCounts(m.hourly[h], InHour(events, h, true), InHour(events, h, false))
                else InHour(events, h, true) == InHour(events, h, false) == 0
  }

  ghost predicate DaysCount(m: Metrics, events: seq<Event>) {
    forall d :: if d in m.daily then PeriodCounts(m.daily[d], OnDay(events, d, true), OnDay(events, d, false))
                else OnDay(events, d, true) == OnDay(events, d, false) == 0
  }

  ghost predicate Counts(m: Metrics, events: seq<Event>) {
    && m.succeeded == Tasks(events, true) && m.failed == Tasks(events, false)
    && m.processed == Tasks(events, true) + Tasks(events, false)
    && m.retried == Retries(events)
    && ActionsCount(m, events) && HoursCount(m, events) && DaysCount(m, events)
  }

  // What one event more changes.
  lemma OneMoreEvent(events: seq<Event>, e: Event)
    ensures (events + [e])[|events|] == e && (events + [e])[..|events|] == events
  {
  }

  lemma ActionsStep(m: Metrics, events: seq<Event>, e: Event)
    requires ActionsCount(m, events)
    ensures ActionsCount(Apply(m, e), events + [e])
  {
    var n, all := Apply(m, e), events + [e];
    OneMoreEvent(events, e);
    forall a
      ensures if a in n.actions then ActionCounts(n.actions[a], all, a)
              else OfAction(all, a, true) == OfAction(all, a, false) == Spent(all, a) == 0
                   && forall ms :: !Took(all, a, ms)
    {
      ActionStep(m, events, e, a);
    }
  }

  lemma ActionStep(m: Metrics, events: seq<Event>, e: Event, a: string)
    requires if a in m.actions then ActionCounts(m.actions[a], events, a)
             else OfAction(events, a, true) == OfAction(events, a, false) == Spent(events, a) == 0
                  && forall ms :: !Took(events, a, ms)
    ensures var n, all := Apply(m, e), events + [e];
            if a in n.actions then ActionCounts(n.actions[a], all, a)
            else OfAction(all, a, true) == OfAction(all, a, false) == Spent(all, a) == 0
                 && forall ms :: !Took(all, a, ms)
  {
    var all := events + [e];
    OneMoreEvent(events, e);
    forall ms ensures Took(all, a, ms) <==>
        match e
        case Reset => false
        case Process(b, t, _, _, _) => (b == a && t == ms) || Took(events, a, ms)
        case _ => Took(events, a, ms) {
    }
  }

  lemma HoursStep(m: Metrics, events: seq<Event>, e: Event)
    requires HoursCount(m, events)
    ensures HoursCount(Apply(m, e), events + [e])
  {
    OneMoreEvent(events, e);
  }

  lemma DaysStep(m: Metrics, events: seq<Event>, e: Event)
    requires DaysCount(m, events)
    ensures DaysCount(Apply(m, e), events + [e])
  {
    OneMoreEvent(events, e);
  }

  // Over every run the metrics are the counts of what was recorded since the last reset: the totals,
  // the successes, failures, total time and least and greatest duration of each action, the tasks of
  // each hour, and those of each day since it was last cleaned up.
  lemma {:induction false} MetricsAreCounts(events: seq<Event>)
    ensures Counts(Run(RESET, events), events)
  {
    if events != [] {
      var init, e := events[..|events| - 1], events[|events| - 1];
      var m := Run(RESET, init);
      MetricsAreCounts(init);
      assert events == init + [e];
      RunMore(RESET, init, e);
      ActionsStep(m, init, e);
      HoursStep(m, init, e);
      DaysStep(m, init, e);
      OneMoreEvent(init, e);
    }
  }
}
