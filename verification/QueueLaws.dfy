// Where the operations on the queue put which task.
module QueueLaws {
  import opened Wrappers
  import opened QueueModel
  import opened QueueTheorems

  // What a task gets before it is pushed: an ID and a time of creation if it has none, and three
  // retries if it asks for none.  Nothing else of it changes.
  lemma PreparedMeans(t: Task, now: int)
    ensures var p := Prepared(t, now);
            && p.kind == t.kind && p.payload == t.payload && p.retryCount == t.retryCount
            && p.scheduledAt == t.scheduledAt
            && p.id == (if t.id == None then Some(now) else t.id)
            && p.createdAt == (if t.createdAt == None then Some(now) else t.createdAt)
            && p.maxRetries == (if t.maxRetries == 0 then 3 else t.maxRetries)
  {
  }

  // ----- Scheduled tasks -----

  // The entries whose second has come, and began after 1970, in order.
  function Ripe(es: seq<Entry>, now: int): seq<Entry> {
    if es == [] then [] else (if 0 <= es[0].score <= now then [es[0]] else []) + Ripe(es[1..], now)
  }

  lemma {:induction false} RipeNone(es: seq<Entry>, now: int)
    requires Sorted(es) && es != [] && es[0].score > now
    ensures Ripe(es, now) == []
    decreases |es|
  {
    if |es| > 1 {
      assert forall i :: 0 <= i < |es[1..]| ==> es[1..][i] == es[i + 1];
      RipeNone(es[1..], now);
    }
  }

  // What is selected are the first of them.
  lemma {:induction false} DueIsFirstRipe(es: seq<Entry>, now: int, count: nat)
    requires Sorted(es)
    ensures var ripe := Ripe(es, now);
            Due(es, now, count) == if |ripe| <= count then ripe else ripe[..count]
  {
    if es != [] && count > 0 {
      var tail := es[1..];
      assert forall i :: 0 <= i < |tail| ==> tail[i] == es[i + 1];
      if es[0].score > now {
        RipeNone(es, now);
      } else {
        DueIsFirstRipe(tail, now, if es[0].score < 0 then count else count - 1);
        if es[0].score >= 0 { assert Ripe(es, now)[1..] == Ripe(tail, now); }
      }
    }
  }

  // The jobs of some entries that are, or are not, workflow executions, as they are pushed.
  function JobsOf(es: seq<Entry>, workflows: bool, now: int): seq<Job> {
    if es == [] then []
    else
      var j := es[0].job;
      (if (j.task.kind == WorkflowExecution) == workflows then [j.(task := Prepared(j.task, now))] else [])
      + JobsOf(es[1..], workflows, now)
  }

  // The entries that are not among some others.
  function Except(es: seq<Entry>, others: seq<Entry>): seq<Entry> {
    if es == [] then [] else (if es[0] in others then [] else [es[0]]) + Except(es[1..], others)
  }

  // What was put at the end of the high and the default list.
  ghost predicate Grown(s: Store, r: Store, high: seq<Job>, normal: seq<Job>) {
    r.high == s.high + high && r.normal == s.normal + normal && r.low == s.low && r.failed == s.failed
  }

  lemma GrownTwice(s: Store, m: Store, r: Store, high1: seq<Job>, normal1: seq<Job>, high2: seq<Job>, normal2: seq<Job>)
    requires Grown(s, m, high1, normal1) && Grown(m, r, high2, normal2)
    ensures Grown(s, r, high1 + high2, normal1 + normal2)
  {
  }

  lemma MoveOne(s: Store, e: Entry, now: int)
    ensures var r := Enqueue(s.(scheduled := ZRem(s.scheduled, e.job.task)), TargetQueue(e.job.task), e.job, now);
            && Grown(s, r, JobsOf([e], true, now), JobsOf([e], false, now))
            && r.scheduled == ZRem(s.scheduled, e.job.task)
  {
    assert [e][1..] == [];
  }

  lemma {:induction false} JobsOfMore(e: Entry, es: seq<Entry>, workflows: bool, now: int)
    ensures JobsOf([e] + es, workflows, now) == JobsOf([e], workflows, now) + JobsOf(es, workflows, now)
  {
    assert ([e] + es)[1..] == es && [e][1..] == [];
  }

  lemma {:induction false} MoveAllPlaces(s: Store, due: seq<Entry>, now: int)
    ensures Grown(s, MoveAll(s, due, now), JobsOf(due, true, now), JobsOf(due, false, now))
    decreases |due|
  {
    if due != [] {
      var e, rest := due[0], due[1..];
      var s1 := Enqueue(s.(scheduled := ZRem(s.scheduled, e.job.task)), TargetQueue(e.job.task), e.job, now);
      MoveOne(s, e, now);
      MoveAllPlaces(s1, rest, now);
      assert due == [e] + rest;
      JobsOfMore(e, rest, true, now);
      JobsOfMore(e, rest, false, now);
      GrownTwice(s, s1, MoveAll(s1, rest, now), JobsOf([e], true, now), JobsOf([e], false, now),
                 JobsOf(rest, true, now), JobsOf(rest, false, now));
    }
  }

  lemma {:induction false} ExceptNone(es: seq<Entry>)
    ensures Except(es, []) == es
  {
    if es != [] { ExceptNone(es[1..]); }
  }

  // Removing one member and then others is removing them all.
  lemma {:induction false} ExceptMore(es: seq<Entry>, e: Entry, others: seq<Entry>)
    requires DistinctMembers(es) && e in es
    ensures Except(ZRem(es, e.job.task), others) == Except(es, [e] + others)
  {
    var tail := es[1..];
    assert forall i :: 0 <= i < |tail| ==> tail[i] == es[i + 1];
    assert DistinctMembers(tail);
    if es[0].job.task == e.job.task {
      var k :| 0 <= k < |es| && es[k] == e;
      assert es[0] == e;
      NotAmong(tail, e, others);
    } else {
      ExceptMore(tail, e, others);
    }
  }

  lemma {:induction false} NotAmong(es: seq<Entry>, e: Entry, others: seq<Entry>)
    requires e !in es
    ensures Except(es, [e] + others) == Except(es, others)
  {
    if es != [] {
      assert es[0] in es && forall x :: x in es[1..] ==> x in es;
      NotAmong(es[1..], e, others);
    }
  }

  lemma RestAreMembers(es: seq<Entry>, due: seq<Entry>)
    requires due != [] && AllMembers(due, es) && DistinctMembers(due)
    ensures due[0] in es && AllMembers(due[1..], ZRem(es, due[0].job.task)) && DistinctMembers(due[1..])
  {
    var rest := due[1..];
    assert due[0] in due && forall i :: 0 <= i < |rest| ==> rest[i] == due[i + 1];
    ZRemKeeps(es, due[0].job.task);
    forall x | x in rest ensures x in ZRem(es, due[0].job.task) {
      var k :| 0 <= k < |rest| && rest[k] == x;
      assert due[k + 1] == x && due[0].job.task != x.job.task && due[k + 1] in due;
    }
  }

  lemma {:induction false} MoveAllLeaves(s: Store, due: seq<Entry>, now: int)
    requires DistinctMembers(s.scheduled) && AllMembers(due, s.scheduled) && DistinctMembers(due)
    ensures MoveAll(s, due, now).scheduled == Except(s.scheduled, due)
    decreases |due|
  {
    if due == [] {
      ExceptNone(s.scheduled);
    } else {
      var e, rest := due[0], due[1..];
      MoveOne(s, e, now);
      ZRemDistinct(s.scheduled, e.job.task);
      RestAreMembers(s.scheduled, due);
      MoveAllLeaves(
        Enqueue(s.(scheduled := ZRem(s.scheduled, e.job.task)), TargetQueue(e.job.task), e.job, now), rest, now);
      assert due == [e] + rest;
      ExceptMore(s.scheduled, e, rest);
    }
  }

  lemma {:induction false} ZRemDistinct(es: seq<Entry>, t: Task)
    requires DistinctMembers(es)
    ensures DistinctMembers(ZRem(es, t))
  {
    if es != [] {
      var tail := es[1..];
      assert forall i :: 0 <= i < |tail| ==> tail[i] == es[i + 1];
      if es[0].job.task != t {
        ZRemDistinct(tail, t);
        ZRemKeeps(tail, t);
        var rest := ZRem(tail, t);
        forall k | 0 <= k < |rest| ensures rest[k].job.task != es[0].job.task {
          assert rest[k] in rest;
          var i :| 0 <= i < |tail| && tail[i] == rest[k];
          assert es[i + 1].job.task != es[0].job.task;
        }
      }
    }
  }

  // Of the tasks whose second has come, the first hundred are moved, in order of score: workflow
  // executions to the end of the high list, all others to the end of the default list.  The other
  // lists do not change, and the sorted set loses those entries only.
  lemma ScheduledGoWhere(s: Store, now: int)
    requires GoodSet(s.scheduled)
    ensures var ripe, r := Ripe(s.scheduled, now / 1_000_000_000), ProcessScheduled(s, now);
            var due := if |ripe| <= 100 then ripe else ripe[..100];
            && r.high == s.high + JobsOf(due, true, now)
            && r.normal == s.normal + JobsOf(due, false, now)
            && r.low == s.low && r.failed == s.failed
            && r.scheduled == Except(s.scheduled, due)
  {
    var due := Due(s.scheduled, Unix(now), 100);
    DueIsFirstRipe(s.scheduled, Unix(now), 100);
    DueIsSubsequence(s.scheduled, Unix(now), 100);
    MoveAllPlaces(s, due, now);
    MoveAllLeaves(s, due, now);
  }

  // ----- Retries and deliveries -----

  // A task with retries left goes to the end of the low list with one retry more; one without goes
  // to the end of the failed list as it is.  No other list changes.
  lemma RetryGoesWhere(s: Store, j: Job, now: int)
    ensures var r := Retry(s, j, now);
            && r.high == s.high && r.normal == s.normal && r.scheduled == s.scheduled
            && if j.task.retryCount < j.task.maxRetries then
                 && r.failed == s.failed
                 && r.low == s.low + [j.(task := Prepared(j.task.(retryCount := j.task.retryCount + 1), now))]
               else r.low == s.low && r.failed == s.failed + [j.(task := Prepared(j.task, now))]
  {
  }

  // A delivery is from the first list named that is not empty.
  lemma {:induction false} FirstNonEmptyExactly(s: Store, names: seq<Queue>)
    ensures match FirstNonEmpty(s, names)
            case Some(q) =>
              exists i :: 0 <= i < |names| && names[i] == q && s.Get(q) != []
                          && forall j :: 0 <= j < i ==> s.Get(names[j]) == []
            case None => forall i :: 0 <= i < |names| ==> s.Get(names[i]) == []
  {
    if names != [] {
      var rest := names[1..];
      assert forall i :: 0 <= i < |rest| ==> rest[i] == names[i + 1];
      FirstNonEmptyExactly(s, rest);
      var q := FirstNonEmpty(s, names);
      if s.Get(names[0]) != [] {
        assert names[0] == q.value;
      } else if q.Some? {
        var i :| 0 <= i < |rest| && rest[i] == q.value && s.Get(q.value) != []
                 && forall j :: 0 <= j < i ==> s.Get(rest[j]) == [];
        assert names[i + 1] == q.value;
        forall j | 0 <= j < i + 1 ensures s.Get(names[j]) == [] {
          if j > 0 { assert rest[j - 1] == names[j]; }
        }
      } else {
        forall i | 0 <= i < |names| ensures s.Get(names[i]) == [] {
          if i > 0 { assert rest[i - 1] == names[i]; }
        }
      }
    }
  }

  // An entry put in at a place: behind those that are not later, before those that are.
  ghost predicate InsertedAt(es: seq<Entry>, e: Entry, r: seq<Entry>, i: int) {
    && 0 <= i <= |es| && r == es[..i] + [e] + es[i..]
    && (forall j :: 0 <= j < i ==> es[j].score <= e.score)
    && (forall j :: i <= j < |es| ==> e.score < es[j].score)
  }

  lemma InsertedBehind(first: Entry, es: seq<Entry>, e: Entry, r: seq<Entry>, i: int)
    requires InsertedAt(es, e, r, i) && first.score <= e.score
    ensures InsertedAt([first] + es, e, [first] + r, i + 1)
  {
    var all := [first] + es;
    assert all[..i + 1] == [first] + es[..i] && all[i + 1..] == es[i..];
    forall j | 0 <= j < |all| ensures j > 0 ==> all[j] == es[j - 1] {
    }
  }

  lemma {:induction false} InsertedWhere(es: seq<Entry>, e: Entry) returns (i: int)
    requires Sorted(es)
    ensures InsertedAt(es, e, Insert(es, e), i)
  {
    if es == [] || e.score < es[0].score {
      i := 0;
      assert es[..0] == [] && es[0..] == es;
    } else {
      var tail := es[1..];
      assert forall k :: 0 <= k < |tail| ==> tail[k] == es[k + 1];
      i := InsertedWhere(tail, e);
      InsertedBehind(es[0], tail, e, Insert(tail, e), i);
      assert es == [es[0]] + tail;
      i := i + 1;
    }
  }

  // A task that is scheduled is a member at its second, behind the members that are not later, unless
  // its encoding is a member already; all other members stay as they are, in their order.
  lemma ScheduledWhere(s: Store, j: Job, at: int)
    requires GoodSet(s.scheduled)
    ensures var t, r := j.task.(scheduledAt := Some(at)), Schedule(s, j, at);
            && r == s.(scheduled := r.scheduled)
            && if exists e :: e in s.scheduled && e.job.task == t then r == s
               else exists i :: InsertedAt(s.scheduled, Entry(j.(task := t), at / 1_000_000_000), r.scheduled, i)
  {
    var t := j.task.(scheduledAt := Some(at));
    if !IsMember(s.scheduled, t) { var i := InsertedWhere(s.scheduled, Entry(j.(task := t), Unix(at))); }
  }
}
