// What is true of every run of producers, consumers and one scheduler.
module QueueTheorems {
  import opened Wrappers
  import opened QueueModel

  type Name = (Kind, int)

  // hands: the jobs consumers hold.  submitted, done: the tasks clients handed in, and those
  // consumers finished.  pushed, popped: what went into and came out of a queue, in order.
  datatype System = System(
    store: Store,
    hands: seq<Job>,
    submitted: multiset<Name>,
    done: multiset<Name>,
    pushed: map<Queue, seq<Job>>,
    popped: map<Queue, seq<Job>>)

  const START: System := System(EMPTY, [], multiset{}, multiset{}, NOTHING, NOTHING)
  const NOTHING: map<Queue, seq<Job>> := map[High := [], Default := [], Low := [], Failed := []]

  datatype Event =
    | Submit(q: Queue, task: Task, now: int)
    | Plan(task: Task, at: int)
    | Deliver(names: seq<Queue>)
    | Finish(i: nat)
    | GiveBack(i: nat, now: int)
    | Tick(now: int)

  function Fresh(t: Task): Job { Job(t, 0) }

  // What was appended to a queue between two stores.
  function Appended(before: Store, after: Store, q: Queue): seq<Job> {
    if |before.Get(q)| <= |after.Get(q)| then after.Get(q)[|before.Get(q)|..] else []
  }

  function Logged(y: System, store: Store): System {
    y.(store := store, pushed := map q | q in y.pushed :: y.pushed[q] + Appended(y.store, store, q))
  }

  function Without(js: seq<Job>, i: nat): seq<Job>
    requires i < |js|
  {
    js[..i] + js[i + 1..]
  }

  function Apply(y: System, e: Event): System {
    match e
    case Submit(q, task, now) =>
      Logged(y, Enqueue(y.store, q, Fresh(task), now)).(submitted := y.submitted + multiset{task.Identity()})
    case Plan(task, at) =>
      y.(store := Schedule(y.store, Fresh(task), at), submitted := y.submitted + multiset{task.Identity()})
    case Deliver(names) =>
      (match FirstNonEmpty(y.store, if names == [] then BY_PRIORITY else names)
       case None => y
       case Some(q) =>
         var js := y.store.Get(q);
         if js == [] || q !in y.popped then y
         else y.(store := y.store.Set(q, js[1..]), hands := y.hands + [Job(js[0].task, js[0].deliveries + 1)],
                 popped := y.popped[q := y.popped[q] + [js[0]]]))
    case Finish(i) =>
      if i < |y.hands|
      then y.(hands := Without(y.hands, i), done := y.done + multiset{y.hands[i].task.Identity()})
      else y
    case GiveBack(i, now) =>
      if i < |y.hands| then Logged(y, Retry(y.store, y.hands[i], now)).(hands := Without(y.hands, i)) else y
    case Tick(now) => Logged(y, ProcessScheduled(y.store, now))
  }

  function Run(y: System, events: seq<Event>): System
    decreases |events|
  {
    if events == [] then y else Run(Apply(y, events[0]), events[1..])
  }

  // ----- Conservation -----

  // How many of some jobs are of a task.
  function Count(js: seq<Job>, n: Name): nat {
    if js == [] then 0 else One(js[0], n) + Count(js[1..], n)
  }

  function One(j: Job, n: Name): nat {
    if j.task.Identity() == n then 1 else 0
  }

  function EntryCount(es: seq<Entry>, n: Name): nat {
    if es == [] then 0 else One(es[0].job, n) + EntryCount(es[1..], n)
  }

  lemma {:induction false} CountConcat(a: seq<Job>, b: seq<Job>, n: Name)
    ensures Count(a + b, n) == Count(a, n) + Count(b, n)
  {
    if a == [] {
      assert a + b == b;
    } else {
      assert (a + b)[1..] == a[1..] + b;
      CountConcat(a[1..], b, n);
    }
  }

  lemma CountMore(js: seq<Job>, j: Job, n: Name)
    ensures Count(js + [j], n) == Count(js, n) + One(j, n)
  {
    CountConcat(js, [j], n);
    assert [j][1..] == [];
  }

  lemma CountWithout(js: seq<Job>, i: nat, n: Name)
    requires i < |js|
    ensures Count(js, n) == Count(Without(js, i), n) + One(js[i], n)
  {
    assert js == js[..i] + ([js[i]] + js[i + 1..]);
    CountConcat(js[..i], [js[i]] + js[i + 1..], n);
    CountConcat(js[..i], js[i + 1..], n);
  }

  lemma {:induction false} InsertCount(es: seq<Entry>, e: Entry, n: Name)
    ensures EntryCount(Insert(es, e), n) == EntryCount(es, n) + One(e.job, n)
  {
    if !(es == [] || e.score < es[0].score) {
      InsertCount(es[1..], e, n);
      assert Insert(es, e)[1..] == Insert(es[1..], e);
    } else {
      assert ([e] + es)[1..] == es;
    }
  }

  lemma {:induction false} ZRemCount(es: seq<Entry>, j: Job, n: Name)
    requires IsMember(es, j.task)
    ensures EntryCount(es, n) == EntryCount(ZRem(es, j.task), n) + One(j, n)
  {
    if es[0].job.task != j.task {
      assert IsMember(es[1..], j.task);
      ZRemCount(es[1..], j, n);
      assert ZRem(es, j.task)[1..] == ZRem(es[1..], j.task);
    }
  }

  function Stored(s: Store, n: Name): nat {
    Count(s.high, n) + Count(s.normal, n) + Count(s.low, n) + Count(s.failed, n) + EntryCount(s.scheduled, n)
  }

  lemma SetStores(s: Store, q: Queue, js: seq<Job>, n: Name)
    ensures Stored(s.Set(q, js), n) + Count(s.Get(q), n) == Stored(s, n) + Count(js, n)
  {
  }

  lemma EnqueueStores(s: Store, q: Queue, j: Job, now: int, n: Name)
    ensures Stored(Enqueue(s, q, j, now), n) == Stored(s, n) + One(j, n)
  {
    var pushed := j.(task := Prepared(j.task, now));
    CountMore(s.Get(q), pushed, n);
    SetStores(s, q, s.Get(q) + [pushed], n);
  }

  ghost predicate DistinctMembers(es: seq<Entry>) {
    forall i, j :: 0 <= i < j < |es| ==> es[i].job.task != es[j].job.task
  }

  // The entries still to be moved are members.
  ghost predicate AllMembers(due: seq<Entry>, es: seq<Entry>) {
    forall e :: e in due ==> e in es
  }

  lemma {:induction false} ZRemKeeps(es: seq<Entry>, t: Task)
    ensures forall e :: e in es && e.job.task != t ==> e in ZRem(es, t)
    ensures forall e :: e in ZRem(es, t) ==> e in es
  {
    if es != [] && es[0].job.task != t {
      ZRemKeeps(es[1..], t);
    }
  }

  lemma {:induction false} MoveAllStores(s: Store, due: seq<Entry>, now: int, n: Name)
    requires AllMembers(due, s.scheduled) && DistinctMembers(due)
    ensures Stored(MoveAll(s, due, now), n) == Stored(s, n)
    decreases |due|
  {
    if due != [] {
      var j := due[0].job;
      assert due[0] in s.scheduled;
      var s1 := s.(scheduled := ZRem(s.scheduled, j.task));
      var s2 := Enqueue(s1, TargetQueue(j.task), j, now);
      ZRemCount(s.scheduled, j, n);
      ZRemKeeps(s.scheduled, j.task);
      EnqueueStores(s1, TargetQueue(j.task), j, now, n);
      assert s2.scheduled == s1.scheduled;
      forall e | e in due[1..] ensures e in s2.scheduled {
        var k :| 0 <= k < |due[1..]| && due[1..][k] == e;
        assert due[k + 1] == e && due[0].job.task != e.job.task;
        assert due[k + 1] in due;
      }
      MoveAllStores(s2, due[1..], now, n);
    }
  }

  lemma {:induction false} DueIsSubsequence(es: seq<Entry>, now: int, count: nat)
    requires DistinctMembers(es)
    ensures var due := Due(es, now, count);
            && AllMembers(due, es) && DistinctMembers(due) && |due| <= count
            && forall e :: e in due ==> 0 <= e.score <= now
  {
    if !(es == [] || count == 0 || es[0].score > now) {
      var rest := if es[0].score < 0 then Due(es[1..], now, count) else Due(es[1..], now, count - 1);
      assert DistinctMembers(es[1..]) by {
        forall i, j | 0 <= i < j < |es[1..]| ensures es[1..][i].job.task != es[1..][j].job.task {
          assert es[i + 1].job.task != es[j + 1].job.task;
        }
      }
      DueIsSubsequence(es[1..], now, if es[0].score < 0 then count else count - 1);
      forall e | e in rest ensures e.job.task != es[0].job.task {
        assert e in es[1..];
        var k :| 0 <= k < |es[1..]| && es[1..][k] == e;
        assert es[k + 1] == e;
      }
    }
  }

  // ----- The sorted set -----

  ghost predicate Sorted(es: seq<Entry>) {
    forall i, j :: 0 <= i < j < |es| ==> es[i].score <= es[j].score
  }

  // Members are distinct, in order of score, and scored by their own time.
  ghost predicate GoodSet(es: seq<Entry>) {
    && DistinctMembers(es) && Sorted(es)
    && forall e :: e in es ==>
         e.job.task.scheduledAt.Some? && e.score == Unix(e.job.task.scheduledAt.value)
  }

  lemma {:induction false} InsertMembers(es: seq<Entry>, e: Entry)
    ensures |Insert(es, e)| == |es| + 1
    ensures forall x :: x in Insert(es, e) <==> x in es || x == e
  {
    if !(es == [] || e.score < es[0].score) {
      InsertMembers(es[1..], e);
    }
  }

  lemma {:induction false} InsertGood(es: seq<Entry>, e: Entry)
    requires GoodSet(es) && !IsMember(es, e.job.task)
    requires e.job.task.scheduledAt.Some? && e.score == Unix(e.job.task.scheduledAt.value)
    ensures GoodSet(Insert(es, e))
  {
    if es == [] || e.score < es[0].score {
    } else {
      assert forall i :: 0 <= i < |es[1..]| ==> es[1..][i] == es[i + 1];
      assert GoodSet(es[1..]);
      InsertGood(es[1..], e);
      InsertMembers(es[1..], e);
      ConsGood(es[0], Insert(es[1..], e));
    }
  }

  lemma ConsGood(e: Entry, es: seq<Entry>)
    requires GoodSet(es)
    requires e.job.task.scheduledAt.Some? && e.score == Unix(e.job.task.scheduledAt.value)
    requires forall x :: x in es ==> x.job.task != e.job.task && e.score <= x.score
    ensures GoodSet([e] + es)
  {
  }

  lemma {:induction false} ZRemGood(es: seq<Entry>, t: Task)
    requires GoodSet(es)
    ensures GoodSet(ZRem(es, t))
  {
    if es != [] {
      assert forall i :: 0 <= i < |es[1..]| ==> es[1..][i] == es[i + 1];
      assert GoodSet(es[1..]);
      if es[0].job.task != t {
        ZRemGood(es[1..], t);
        ZRemKeeps(es[1..], t);
        ConsGood(es[0], ZRem(es[1..], t));
      }
    }
  }

  lemma {:induction false} MoveAllGood(s: Store, due: seq<Entry>, now: int)
    requires GoodSet(s.scheduled)
    ensures GoodSet(MoveAll(s, due, now).scheduled)
    decreases |due|
  {
    if due != [] {
      var j := due[0].job;
      ZRemGood(s.scheduled, j.task);
      MoveAllGood(Enqueue(s.(scheduled := ZRem(s.scheduled, j.task)), TargetQueue(j.task), j, now), due[1..], now);
    }
  }

  lemma ScheduleGood(s: Store, j: Job, at: int)
    requires GoodSet(s.scheduled)
    ensures GoodSet(Schedule(s, j, at).scheduled)
  {
    var t := j.task.(scheduledAt := Some(at));
    if !IsMember(s.scheduled, t) { InsertGood(s.scheduled, Entry(j.(task := t), Unix(at))); }
  }

  // ----- Conservation over runs -----

  function Total(y: System, n: Name): nat {
    Stored(y.store, n) + Count(y.hands, n) + y.done[n]
  }

  // Everything submitted is in one place: stored, in a consumer's hands, or finished.
  ghost predicate Conserved(y: System) {
    forall n :: Total(y, n) == y.submitted[n]
  }

  // A plan whose encoding the sorted set already holds.
  predicate Collides(y: System, e: Event) {
    e.Plan? && IsMember(y.store.scheduled, e.task.(scheduledAt := Some(e.at)))
  }

  // What a step adds to the tasks in the system.
  function Added(y: System, e: Event, n: Name): nat {
    match e
    case Submit(_, task, _) => One(Fresh(task), n)
    case Plan(task, _) => if Collides(y, e) then 0 else One(Fresh(task), n)
    case _ => 0
  }

  lemma RetryStores(s: Store, j: Job, now: int, n: Name)
    ensures Stored(Retry(s, j, now), n) == Stored(s, n) + One(j, n)
  {
    if j.task.retryCount >= j.task.maxRetries {
      EnqueueStores(s, Failed, j, now, n);
    } else {
      EnqueueStores(s, Low, j.(task := j.task.(retryCount := j.task.retryCount + 1)), now, n);
    }
  }

  lemma DeliverTotal(y: System, names: seq<Queue>, n: Name)
    ensures Total(Apply(y, Deliver(names)), n) == Total(y, n)
  {
    var q := FirstNonEmpty(y.store, if names == [] then BY_PRIORITY else names);
    if q.Some? && y.store.Get(q.value) != [] && q.value in y.popped {
      var js := y.store.Get(q.value);
      SetStores(y.store, q.value, js[1..], n);
      CountMore(y.hands, Job(js[0].task, js[0].deliveries + 1), n);
    }
  }

  lemma GiveBackTotal(y: System, i: nat, now: int, n: Name)
    ensures Total(Apply(y, GiveBack(i, now)), n) == Total(y, n)
  {
    if i < |y.hands| {
      CountWithout(y.hands, i, n);
      RetryStores(y.store, y.hands[i], now, n);
    }
  }

  lemma StepTotal(y: System, e: Event, n: Name)
    requires GoodSet(y.store.scheduled)
    ensures Total(Apply(y, e), n) == Total(y, n) + Added(y, e, n)
  {
    match e
    case Submit(q, task, now) => EnqueueStores(y.store, q, Fresh(task), now, n);
    case Plan(task, at) =>
      var t := task.(scheduledAt := Some(at));
      InsertCount(y.store.scheduled, Entry(Fresh(task).(task := t), Unix(at)), n);
    case Deliver(names) => DeliverTotal(y, names, n);
    case Finish(i) => if i < |y.hands| { CountWithout(y.hands, i, n); }
    case GiveBack(i, now) => GiveBackTotal(y, i, now, n);
    case Tick(now) =>
      DueIsSubsequence(y.store.scheduled, Unix(now), 100);
      MoveAllStores(y.store, Due(y.store.scheduled, Unix(now), 100), now, n);
  }

  // What a step adds to the tasks submitted.
  function Offered(e: Event, n: Name): nat {
    if e.Submit? || e.Plan? then One(Fresh(e.task), n) else 0
  }

  lemma StepSubmits(y: System, e: Event, n: Name)
    ensures Apply(y, e).submitted[n] == y.submitted[n] + Offered(e, n)
  {
  }

  // A step loses no task, unless it plans one whose encoding is already scheduled; then the two
  // become one.
  lemma StepConservesExactly(y: System, e: Event)
    requires Conserved(y) && GoodSet(y.store.scheduled)
    ensures Conserved(Apply(y, e)) <==> !Collides(y, e)
  {
    if Collides(y, e) {
      var n := e.task.Identity();
      StepTotal(y, e, n);
      StepSubmits(y, e, n);
      assert Total(y, n) == y.submitted[n];
      assert Total(Apply(y, e), n) != Apply(y, e).submitted[n];
    } else {
      forall n ensures Total(Apply(y, e), n) == Apply(y, e).submitted[n] {
        StepTotal(y, e, n);
        StepSubmits(y, e, n);
        assert Total(y, n) == y.submitted[n];
      }
    }
  }

  lemma StepKeepsGoodSet(y: System, e: Event)
    requires GoodSet(y.store.scheduled)
    ensures GoodSet(Apply(y, e).store.scheduled)
  {
    match e
    case Plan(task, at) => ScheduleGood(y.store, Fresh(task), at);
    case Tick(now) => MoveAllGood(y.store, Due(y.store.scheduled, Unix(now), 100), now);
    case _ =>
  }

  ghost predicate NoCollisions(y: System, events: seq<Event>)
    decreases |events|
  {
    events == [] || (!Collides(y, events[0]) && NoCollisions(Apply(y, events[0]), events[1..]))
  }

  // What is missing of a task: of those submitted, how many copies are nowhere.
  function Missing(y: System, n: Name): int {
    y.submitted[n] - Total(y, n)
  }

  lemma StepMisses(y: System, e: Event, n: Name)
    requires GoodSet(y.store.scheduled)
    ensures Missing(Apply(y, e), n) ==
            Missing(y, n) + if Collides(y, e) && e.task.Identity() == n then 1 else 0
  {
    StepTotal(y, e, n);
    StepSubmits(y, e, n);
  }

  // What is missing never comes back.
  lemma {:induction false} RunMisses(y: System, events: seq<Event>, n: Name)
    requires GoodSet(y.store.scheduled)
    ensures Missing(Run(y, events), n) >= Missing(y, n)
    decreases |events|
  {
    if events != [] {
      StepMisses(y, events[0], n);
      StepKeepsGoodSet(y, events[0]);
      RunMisses(Apply(y, events[0]), events[1..], n);
    }
  }

  lemma {:induction false} RunConserves(y: System, events: seq<Event>)
    requires Conserved(y) && GoodSet(y.store.scheduled)
    ensures Conserved(Run(y, events)) <==> NoCollisions(y, events)
    decreases |events|
  {
    if events != [] {
      var z := Apply(y, events[0]);
      StepConservesExactly(y, events[0]);
      StepKeepsGoodSet(y, events[0]);
      if Collides(y, events[0]) {
        var n := events[0].task.Identity();
        assert Total(y, n) == y.submitted[n];
        StepMisses(y, events[0], n);
        RunMisses(z, events[1..], n);
        assert Total(Run(y, events), n) != Run(y, events).submitted[n];
      } else {
        RunConserves(z, events[1..]);
      }
    }
  }

  // From empty queues, every task submitted is in exactly one of the lists, the sorted set, a
  // consumer's hands or done at the end of a run, exactly when no task was scheduled in it whose
  // encoding was scheduled already.
  lemma TasksAreConserved(events: seq<Event>)
    ensures Conserved(Run(START, events)) <==> NoCollisions(START, events)
  {
    RunConserves(START, events);
  }

  // ----- Order -----

  ghost predicate Fifo(y: System) {
    && y.pushed.Keys == y.popped.Keys == {High, Default, Low, Failed}
    && forall q :: q in y.pushed ==> y.pushed[q] == y.popped[q] + y.store.Get(q)
  }

  ghost predicate Extends(before: Store, after: Store) {
    forall q: Queue :: before.Get(q) <= after.Get(q)
  }

  lemma {:induction false} MoveAllExtends(s: Store, due: seq<Entry>, now: int)
    ensures Extends(s, MoveAll(s, due, now))
    decreases |due|
  {
    if due != [] {
      var j := due[0].job;
      var s1 := Enqueue(s.(scheduled := ZRem(s.scheduled, j.task)), TargetQueue(j.task), j, now);
      assert Extends(s, s1);
      MoveAllExtends(s1, due[1..], now);
      assert forall q: Queue :: s.Get(q) <= s1.Get(q) <= MoveAll(s, due, now).Get(q);
    }
  }

  lemma LoggedKeepsFifo(y: System, store: Store)
    requires Fifo(y) && Extends(y.store, store)
    ensures Fifo(Logged(y, store))
  {
    var z := Logged(y, store);
    forall q | q in z.pushed ensures z.pushed[q] == z.popped[q] + z.store.Get(q) {
      Regroup(y.popped[q], y.store.Get(q), store.Get(q));
    }
  }

  lemma Regroup(popped: seq<Job>, before: seq<Job>, after: seq<Job>)
    requires before <= after
    ensures popped + before + after[|before|..] == popped + after
  {
    assert after == before + after[|before|..];
  }

  lemma DeliverKeepsFifo(y: System, names: seq<Queue>)
    requires Fifo(y)
    ensures Fifo(Apply(y, Deliver(names)))
  {
    var q := FirstNonEmpty(y.store, if names == [] then BY_PRIORITY else names);
    if q.Some? && y.store.Get(q.value) != [] {
      var js := y.store.Get(q.value);
      assert y.popped[q.value] + js == y.popped[q.value] + [js[0]] + js[1..];
    }
  }

  lemma EnqueueExtends(s: Store, q: Queue, j: Job, now: int)
    ensures Extends(s, Enqueue(s, q, j, now))
  {
  }

  lemma StepKeepsFifo(y: System, e: Event)
    requires Fifo(y)
    ensures Fifo(Apply(y, e))
  {
    match e
    case Submit(q, task, now) =>
      EnqueueExtends(y.store, q, Fresh(task), now);
      LoggedKeepsFifo(y, Enqueue(y.store, q, Fresh(task), now));
    case Plan(_, _) =>
    case Deliver(names) => DeliverKeepsFifo(y, names);
    case Finish(_) =>
    case GiveBack(i, now) =>
      if i < |y.hands| {
        var j := y.hands[i];
        EnqueueExtends(y.store, Failed, j, now);
        EnqueueExtends(y.store, Low, j.(task := j.task.(retryCount := j.task.retryCount + 1)), now);
        LoggedKeepsFifo(y, Retry(y.store, j, now));
      }
    case Tick(now) =>
      MoveAllExtends(y.store, Due(y.store.scheduled, Unix(now), 100), now);
      LoggedKeepsFifo(y, ProcessScheduled(y.store, now));
  }

  lemma {:induction false} RunKeepsFifo(y: System, events: seq<Event>)
    requires Fifo(y)
    ensures Fifo(Run(y, events))
    decreases |events|
  {
    if events != [] {
      StepKeepsFifo(y, events[0]);
      RunKeepsFifo(Apply(y, events[0]), events[1..]);
    }
  }

  // Every queue hands its tasks out in the order they went in: over any run, what was popped,
  // followed by what is waiting, is what was pushed.
  lemma QueuesAreFifo(events: seq<Event>, q: Queue)
    ensures var y := Run(START, events);
            q in y.pushed && q in y.popped && y.pushed[q] == y.popped[q] + y.store.Get(q)
  {
    RunKeepsFifo(START, events);
  }

  // A consumer of the default queues is served from a queue only when those before it are empty.
  lemma PriorityIsStrict(s: Store)
    ensures match FirstNonEmpty(s, BY_PRIORITY)
            case Some(High) => s.high != []
            case Some(Default) => s.high == [] && s.normal != []
            case Some(Low) => s.high == [] && s.normal == [] && s.low != []
            case Some(Failed) => false
            case None => s.high == [] && s.normal == [] && s.low == []
  {
    var last, two := [Queue.Low], [Queue.Default, Queue.Low];
    assert last[1..] == [] && two[1..] == last && BY_PRIORITY[1..] == two;
    assert FirstNonEmpty(s, last) == if s.low != [] then Some(Queue.Low) else None;
    assert FirstNonEmpty(s, two) == if s.normal != [] then Some(Queue.Default) else FirstNonEmpty(s, last);
    assert FirstNonEmpty(s, BY_PRIORITY) == if s.high != [] then Some(Queue.High) else FirstNonEmpty(s, two);
  }

  // ----- How often a task is delivered -----

  function Limit(t: Task): int {
    if t.maxRetries > 0 then t.maxRetries else 0
  }

  // Waiting: delivered at most once for each retry.  Given up: once more.
  ghost predicate Waiting(j: Job) {
    j.deliveries <= j.task.retryCount <= Limit(j.task) && j.task.maxRetries != 0
  }

  ghost predicate GivenUp(j: Job) {
    j.deliveries <= j.task.retryCount + 1 <= Limit(j.task) + 1 && j.task.maxRetries != 0
  }

  ghost predicate Counted(y: System) {
    && (forall i :: 0 <= i < |y.store.high| ==> Waiting(y.store.high[i]))
    && (forall i :: 0 <= i < |y.store.normal| ==> Waiting(y.store.normal[i]))
    && (forall i :: 0 <= i < |y.store.low| ==> Waiting(y.store.low[i]))
    && (forall i :: 0 <= i < |y.store.failed| ==> GivenUp(y.store.failed[i]))
    && (forall i :: 0 <= i < |y.hands| ==> GivenUp(y.hands[i]))
    && (forall e :: e in y.store.scheduled ==> e.job.deliveries == 0 && e.job.task.retryCount == 0)
  }

  // Clients submit tasks that were never retried, to a ready queue, and consume ready queues.
  ghost predicate Regular(e: Event) {
    match e
    case Submit(q, task, _) => q != Failed && task.retryCount == 0
    case Plan(task, _) => task.retryCount == 0
    case Deliver(names) => Failed !in names
    case _ => true
  }

  lemma {:induction false} MoveAllKeepsCounted(y: System, due: seq<Entry>, now: int)
    requires Counted(y) && forall e :: e in due ==> e.job.deliveries == 0 && e.job.task.retryCount == 0
    ensures Counted(y.(store := MoveAll(y.store, due, now)))
    decreases |due|
  {
    if due != [] {
      var j, s := due[0].job, y.store;
      assert due[0] in due;
      ZRemKeeps(s.scheduled, j.task);
      var s1 := Enqueue(s.(scheduled := ZRem(s.scheduled, j.task)), TargetQueue(j.task), j, now);
      assert Waiting(j.(task := Prepared(j.task, now)));
      assert Counted(y.(store := s1));
      MoveAllKeepsCounted(y.(store := s1), due[1..], now);
    }
  }

  lemma {:induction false} FirstNonEmptyIsNamed(s: Store, names: seq<Queue>)
    ensures var q := FirstNonEmpty(s, names); q.Some? ==> q.value in names && s.Get(q.value) != []
  {
    if names != [] && s.Get(names[0]) == [] { FirstNonEmptyIsNamed(s, names[1..]); }
  }

  lemma DeliverKeepsCounted(y: System, names: seq<Queue>)
    requires Counted(y) && Failed !in names
    ensures Counted(Apply(y, Deliver(names)))
  {
    var asked := if names == [] then BY_PRIORITY else names;
    FirstNonEmptyIsNamed(y.store, asked);
    var q := FirstNonEmpty(y.store, asked);
    if q.Some? {
      assert q.value != Failed;
      assert Waiting(y.store.Get(q.value)[0]);
    }
  }

  lemma StepKeepsCounted(y: System, e: Event)
    requires Counted(y) && GoodSet(y.store.scheduled) && Regular(e)
    ensures Counted(Apply(y, e))
  {
    match e
    case Submit(q, task, now) =>
      assert Waiting(Fresh(task).(task := Prepared(task, now)));
    case Plan(task, at) =>
      var t := task.(scheduledAt := Some(at));
      InsertMembers(y.store.scheduled, Entry(Fresh(task).(task := t), Unix(at)));
    case Deliver(names) => DeliverKeepsCounted(y, names);
    case Finish(_) =>
    case GiveBack(i, now) =>
    case Tick(now) =>
      DueIsSubsequence(y.store.scheduled, Unix(now), 100);
      MoveAllKeepsCounted(y, Due(y.store.scheduled, Unix(now), 100), now);
  }

  lemma {:induction false} RunKeepsCounted(y: System, events: seq<Event>)
    requires Counted(y) && GoodSet(y.store.scheduled) && forall e :: e in events ==> Regular(e)
    ensures Counted(Run(y, events))
    decreases |events|
  {
    if events != [] {
      StepKeepsCounted(y, events[0]);
      StepKeepsGoodSet(y, events[0]);
      RunKeepsCounted(Apply(y, events[0]), events[1..]);
    }
  }

  // A task is delivered at most MaxRetries + 1 times before it is put on the failed list or
  // finished; MaxRetries 0 means 3, and a negative one means none.
  lemma DeliveriesAreBounded(events: seq<Event>)
    requires forall e :: e in events ==> Regular(e)
    ensures var y := Run(START, events);
            && (forall i :: 0 <= i < |y.hands| ==> y.hands[i].deliveries <= Limit(y.hands[i].task) + 1)
            && (forall i :: 0 <= i < |y.store.failed| ==>
               y.store.failed[i].deliveries <= Limit(y.store.failed[i].task) + 1)
  {
    RunKeepsCounted(START, events);
    var y := Run(START, events);
    assert forall i :: 0 <= i < |y.hands| ==> GivenUp(y.hands[i]);
  }

  // ----- When scheduled tasks become ready -----

  lemma {:induction false} DueIsComplete(es: seq<Entry>, now: int, count: nat, e: Entry)
    requires Sorted(es) && e in es && 0 <= e.score <= now && |Due(es, now, count)| < count
    ensures e in Due(es, now, count)
  {
    if es[0].score <= now {
      assert forall i :: 0 <= i < |es[1..]| ==> es[1..][i] == es[i + 1];
      if e != es[0] {
        DueIsComplete(es[1..], now, if es[0].score < 0 then count else count - 1, e);
      }
    }
  }

  // A task is made ready exactly when the second it is planned for has begun: never a whole second
  // early, and on the first tick after its time unless a hundred others are due.  A time before
  // 1970 never comes.
  lemma ReadyOnTime(es: seq<Entry>, now: int, e: Entry)
    requires GoodSet(es) && e in es
    ensures var at := e.job.task.scheduledAt.value;
            var due := Due(es, Unix(now), 100);
            && (e in due ==> at < now + SECOND && at >= 0)
            && (0 <= at <= now && |due| < 100 ==> e in due)
            && (at < 0 ==> e !in due)
  {
    DueIsSubsequence(es, Unix(now), 100);
    if 0 <= e.score <= Unix(now) && |Due(es, Unix(now), 100)| < 100 { DueIsComplete(es, Unix(now), 100, e); }
  }
}
