// What is true of the pool under every interleaving of its steps.
module PoolTheorems {
  import opened Wrappers
  import opened Pigeonhole
  import opened MapSums
  import opened PoolModel

  lemma {:induction false} RunConcat(p: Pool, a: seq<Event>, b: seq<Event>)
    ensures Run(p, a + b) == Run(Run(p, a), b)
    decreases |a|
  {
    if a == [] {
      assert a + b == b;
    } else {
      assert (a + b)[0] == a[0] && (a + b)[1..] == a[1..] + b;
      RunConcat(Apply(p, a[0]), a[1..], b);
    }
  }

  lemma RunOne(p: Pool, e: Event)
    ensures Run(p, [e]) == Apply(p, e)
  {
    assert [e][1..] == [];
    assert Run(Apply(p, e), []) == Apply(p, e);
  }

  // ----- What a scan knows -----

  // No eligible worker was seen with a shorter channel.
  ghost predicate LeastSeen(c: Call, id: int) {
    && id in c.seen && c.seen[id].eligible
    && forall k :: k in c.seen && c.seen[k].eligible ==> c.seen[id].load <= c.seen[k].load
  }

  // A scan has looked at the workers it has not left, and favours the best of them.
  ghost predicate CallGood(workers: Workers, c: Call) {
    && c.left + c.seen.Keys == workers.Keys && c.left !! c.seen.Keys
    && (c.best.Some? ==> LeastSeen(c, c.best.value))
    && (c.best.None? ==> forall k :: k in c.seen ==> !c.seen[k].eligible)
  }

  ghost predicate CallsGood(p: Pool) {
    forall call :: call in p.calls ==> CallGood(p.workers, p.calls[call])
  }

  lemma LookKeepsGood(workers: Workers, c: Call, id: int, r: Reading)
    requires CallGood(workers, c) && id in c.left
    ensures CallGood(workers, Look(c, id, r))
  {
  }

  lemma StepKeepsCalls(p: Pool, e: Event)
    requires CallsGood(p)
    ensures CallsGood(Apply(p, e))
    ensures !e.Create? ==> Apply(p, e).workers.Keys == p.workers.Keys
  {
    var q := Apply(p, e);
    if e.LookAt? && q != p { LookKeepsGood(p.workers, p.calls[e.call], e.id, Read(p.workers[e.id])); }
    assert q.calls == map[] || q.workers.Keys == p.workers.Keys;
  }

  // ----- Conservation of load and of tasks -----

  ghost predicate StatsAgree(w: Worker) {
    if w.phase.Reported? then w.succeeded + w.failed == w.processed + 1 else w.succeeded + w.failed == w.processed
  }

  ghost predicate Inv(p: Pool) {
    && p.load + p.uncounted == Sum(Helds(p.workers))
    && p.Accepted() == Sum(Receiveds(p.workers))
    && (forall id :: id in p.workers ==> StatsAgree(p.workers[id]) && |p.workers[id].queue| <= p.capacity)
    && CallsGood(p)
  }

  // How replacing one worker moves the sums.
  lemma SumsMove(workers: Workers, id: int, w: Worker)
    ensures var before := if id in workers then workers[id] else NewWorker();
            && Sum(Helds(workers[id := w])) == Sum(Helds(workers)) - before.Held() + w.Held()
            && Sum(Receiveds(workers[id := w])) == Sum(Receiveds(workers)) - before.Received() + w.Received()
  {
    assert Helds(workers[id := w]) == Helds(workers)[id := w.Held()];
    assert Receiveds(workers[id := w]) == Receiveds(workers)[id := w.Received()];
    SumUpdate(Helds(workers), id, w.Held());
    SumUpdate(Receiveds(workers), id, w.Received());
  }

  ghost function Before(p: Pool, id: int): Worker {
    if id in p.workers then p.workers[id] else NewWorker()
  }

  // A step that replaces one worker keeps the invariant when the counters move with it.
  lemma PutKeepsInv(p: Pool, q: Pool, id: int, w: Worker)
    requires Inv(p) && q.workers == p.workers[id := w] && q.capacity == p.capacity && CallsGood(q)
    requires StatsAgree(w) && |w.queue| <= p.capacity
    requires q.load + q.uncounted - p.load - p.uncounted == w.Held() - Before(p, id).Held()
    requires q.Accepted() - p.Accepted() == w.Received() - Before(p, id).Received()
    ensures Inv(q)
  {
    SumsMove(p.workers, id, w);
  }

  lemma CallEnds(calls: map<int, Call>, call: int)
    requires call in calls
    ensures |calls - {call}| == |calls| - 1
  {
    assert calls == (calls - {call})[call := calls[call]];
  }

  lemma PlacedKeepsInv(p: Pool, call: int, id: int)
    requires Inv(p) && call in p.calls && id in p.workers && |p.workers[id].queue| < p.capacity
    requires CallsGood(Placed(p, call, id))
    ensures Inv(Placed(p, call, id))
  {
    var w := p.workers[id];
    CallEnds(p.calls, call);
    PutKeepsInv(p, Placed(p, call, id), id, w.(queue := w.queue + [p.calls[call].task]));
  }

  lemma RefusedKeepsInv(p: Pool, call: int)
    requires Inv(p) && call in p.calls
    ensures Inv(Refused(p, call))
  {
    CallEnds(p.calls, call);
  }

  lemma SendKeepsInv(p: Pool, call: int)
    requires Inv(p) && call in p.calls && p.calls[call].left == {}
    ensures Inv(Sent(p, call))
  {
    if CanSend(p, call) {
      StepKeepsCalls(p, Send(call));
      PlacedKeepsInv(p, call, p.calls[call].best.value);
    } else {
      RefusedKeepsInv(p, call);
    }
  }

  // A step of one worker.
  predicate OfWorker(e: Event) {
    e.Activate? || e.Take? || e.Report? || e.Close? || e.Uncount?
  }

  lemma WorkerKeepsInv(p: Pool, e: Event)
    requires Inv(p) && OfWorker(e) && Apply(p, e) != p
    ensures Inv(Apply(p, e))
  {
    StepKeepsCalls(p, e);
    PutKeepsInv(p, Apply(p, e), e.id, Apply(p, e).workers[e.id]);
  }

  lemma CreateKeepsInv(p: Pool)
    requires Inv(p) && p.calls == map[] && p.uncounted == 0
    ensures Inv(Apply(p, Create))
  {
    PutKeepsInv(p, Apply(p, Create), NextID(p.workers), NewWorker());
  }

  lemma BeginKeepsInv(p: Pool, call: int, task: Task)
    requires Inv(p) && call !in p.calls
    ensures Inv(Apply(p, Begin(call, task)))
  {
    StepKeepsCalls(p, Begin(call, task));
    var q := Apply(p, Begin(call, task));
    assert |q.calls| == |p.calls| + 1;
  }

  lemma LookKeepsInv(p: Pool, call: int, id: int)
    requires Inv(p) && call in p.calls
    ensures Inv(Apply(p, LookAt(call, id)))
  {
    StepKeepsCalls(p, LookAt(call, id));
    var q := Apply(p, LookAt(call, id));
    assert q.calls.Keys == p.calls.Keys;
    SameSize(q.calls, p.calls);
  }

  lemma ApplyKeepsInv(p: Pool, e: Event)
    requires Inv(p)
    ensures Inv(Apply(p, e))
  {
    match e
    case Create => if p.calls == map[] && p.uncounted == 0 { CreateKeepsInv(p); }
    case Begin(call, task) => if call !in p.calls { BeginKeepsInv(p, call, task); }
    case LookAt(call, id) => if call in p.calls { LookKeepsInv(p, call, id); }
    case Send(call) => if call in p.calls && p.calls[call].left == {} { SendKeepsInv(p, call); }
    case Count =>
    case _ => if Apply(p, e) != p { WorkerKeepsInv(p, e); }
  }

  lemma {:induction false} RunKeepsInv(p: Pool, events: seq<Event>)
    requires Inv(p)
    ensures Inv(Run(p, events))
    decreases |events|
  {
    if events != [] {
      ApplyKeepsInv(p, events[0]);
      RunKeepsInv(Apply(p, events[0]), events[1..]);
    }
  }

  lemma EmptyInv(capacity: Capacity)
    ensures Inv(EmptyPool(capacity))
  {
    assert Helds(map[]) == map[] && Receiveds(map[]) == map[];
  }

  // Under every interleaving from an empty pool: the shared load, with the sends not counted yet,
  // is the number of tasks in channels or taken and not yet counted down; every task offered was
  // dropped, is being dispatched, or is in a channel, running or processed; each worker's successes
  // and failures add up to what it processed, or one more between the result and the update of its
  // statistics.
  lemma LoadIsConserved(capacity: Capacity, events: seq<Event>)
    ensures var p := Run(EmptyPool(capacity), events);
            && p.load + p.uncounted == Sum(Helds(p.workers))
            && p.offered == p.dropped + |p.calls| + Sum(Receiveds(p.workers))
            && forall id :: id in p.workers ==>
                 var w := p.workers[id];
                 && w.processed <= w.succeeded + w.failed <= w.processed + 1
                 && (w.phase.Waiting? || w.phase.Closing? ==> w.succeeded + w.failed == w.processed)
  {
    EmptyInv(capacity);
    RunKeepsInv(EmptyPool(capacity), events);
  }

  // ----- Least-loaded dispatch -----

  ghost predicate NoSends(events: seq<Event>) {
    forall e :: e in events ==> !e.Send?
  }

  // The channels are no longer than a scan saw them.
  ghost predicate Shrunk(p: Pool, call: int) {
    && call in p.calls
    && forall k :: k in p.calls[call].seen && k in p.workers ==>
         |p.workers[k].queue| <= p.calls[call].seen[k].load
  }

  lemma QueuesShrink(p: Pool, e: Event)
    requires !e.Send? && CallsGood(p)
    ensures forall k :: k in p.workers && k in Apply(p, e).workers ==>
            |Apply(p, e).workers[k].queue| <= |p.workers[k].queue|
  {
  }

  lemma LookKeepsShrunk(p: Pool, other: int, id: int, call: int)
    requires Shrunk(p, call)
    ensures Shrunk(Apply(p, LookAt(other, id)), call)
  {
  }

  lemma StepKeepsShrunk(p: Pool, e: Event, call: int)
    requires CallsGood(p) && Shrunk(p, call) && !e.Send?
    ensures Shrunk(Apply(p, e), call)
  {
    if e.LookAt? {
      LookKeepsShrunk(p, e.call, e.id, call);
    } else {
      QueuesShrink(p, e);
      SameCall(p, e, call);
      assert CallGood(p.workers, p.calls[call]);
    }
  }

  lemma SameCall(p: Pool, e: Event, call: int)
    requires call in p.calls && !e.Send? && !e.LookAt?
    ensures call in Apply(p, e).calls && Apply(p, e).calls[call] == p.calls[call]
  {
  }

  lemma {:induction false} RunKeepsShrunk(p: Pool, events: seq<Event>, call: int)
    requires CallsGood(p) && Shrunk(p, call) && NoSends(events)
    ensures CallsGood(Run(p, events)) && Shrunk(Run(p, events), call)
    decreases |events|
  {
    if events != [] {
      assert events[0] in events && forall e :: e in events[1..] ==> e in events;
      StepKeepsCalls(p, events[0]);
      StepKeepsShrunk(p, events[0], call);
      RunKeepsShrunk(Apply(p, events[0]), events[1..], call);
    }
  }

  ghost predicate SeenWithRoom(c: Call, capacity: Capacity) {
    exists k :: k in c.seen && c.seen[k].eligible && c.seen[k].load < capacity
  }

  function Queued(workers: Workers, id: int, task: Task): Workers
    requires id in workers
  {
    workers[id := workers[id].(queue := workers[id].queue + [task])]
  }

  // What becomes of the task of a finished scan.
  ghost predicate TaskPlaced(q: Pool, r: Pool, c: Call) {
    exists id :: LeastSeen(c, id) && id in q.workers && |q.workers[id].queue| < q.capacity
                 && r.workers == Queued(q.workers, id, c.task) && r.dropped == q.dropped
  }

  ghost predicate TaskDropped(q: Pool, r: Pool, c: Call) {
    && r.workers == q.workers && r.dropped == q.dropped + 1
    && ((forall k :: k in c.seen ==> !c.seen[k].eligible)
        || exists id :: LeastSeen(c, id) && id in q.workers && |q.workers[id].queue| >= q.capacity)
  }

  lemma SendOfScan(q: Pool, call: int)
    requires CallsGood(q) && call in q.calls && q.calls[call].left == {}
    ensures var c, r := q.calls[call], Apply(q, Send(call));
            c.seen.Keys == q.workers.Keys && (TaskPlaced(q, r, c) || TaskDropped(q, r, c))
  {
    var c := q.calls[call];
    assert CallGood(q.workers, c);
    if c.best.Some? { assert LeastSeen(c, c.best.value) && c.best.value in q.workers; }
  }

  lemma SendOfShrunk(q: Pool, call: int)
    requires CallsGood(q) && Shrunk(q, call) && q.calls[call].left == {}
    ensures var c, r := q.calls[call], Apply(q, Send(call));
            r.dropped != q.dropped ==> !SeenWithRoom(c, q.capacity)
  {
    var c := q.calls[call];
    assert CallGood(q.workers, c);
    if c.best.Some? {
      assert LeastSeen(c, c.best.value) && c.best.value in q.workers;
      assert |q.workers[c.best.value].queue| <= c.seen[c.best.value].load;
    }
  }

  lemma {:induction false} RunKeepsCall(p: Pool, events: seq<Event>, call: int)
    requires CallsGood(p) && call in p.calls && Send(call) !in events
    ensures CallsGood(Run(p, events)) && call in Run(p, events).calls
    decreases |events|
  {
    if events != [] {
      assert events[0] in events && forall e :: e in events[1..] ==> e in events;
      StepKeepsCalls(p, events[0]);
      RunKeepsCall(Apply(p, events[0]), events[1..], call);
    }
  }

  // While workers run and other calls dispatch between the looks of a scan and its send: it has
  // looked at every worker; its task goes to one that no eligible worker was seen to be shorter
  // than, unless that one is full by then, or no worker was eligible when it was looked at.  As long
  // as no other call sends in between, it is dropped only if every worker that was eligible when
  // looked at was full then.
  lemma DispatchAmidWork(p: Pool, call: int, task: Task, events: seq<Event>)
    requires Inv(p) && call !in p.calls && Send(call) !in events
    requires var q := Run(Apply(p, Begin(call, task)), events); call in q.calls ==> q.calls[call].left == {}
    ensures var q := Run(Apply(p, Begin(call, task)), events);
            && call in q.calls
            && var c, r := q.calls[call], Apply(q, Send(call));
               && c.seen.Keys == q.workers.Keys
               && (TaskPlaced(q, r, c) || TaskDropped(q, r, c))
               && (NoSends(events) && r.dropped != q.dropped ==> !SeenWithRoom(c, q.capacity))
  {
    var p1 := Apply(p, Begin(call, task));
    StepKeepsCalls(p, Begin(call, task));
    RunKeepsCall(p1, events, call);
    var q := Run(p1, events);
    SendOfScan(q, call);
    if NoSends(events) {
      RunKeepsShrunk(p1, events, call);
      SendOfShrunk(q, call);
    }
  }

  // ----- A dispatch that nothing interrupts -----

  ghost predicate Least(workers: Workers, id: int) {
    && id in workers && workers[id].Eligible()
    && forall k :: k in workers && workers[k].Eligible() ==> |workers[id].queue| <= |workers[k].queue|
  }

  function LookAll(c: Call, order: seq<int>, workers: Workers): Call
    requires forall k :: k in order ==> k in workers
    decreases |order|
  {
    if order == [] then c else LookAll(Look(c, order[0], Read(workers[order[0]])), order[1..], workers)
  }

  function Looks(call: int, order: seq<int>): (events: seq<Event>)
    ensures forall e :: e in events ==> e.LookAt?
  {
    if order == [] then [] else [LookAt(call, order[0])] + Looks(call, order[1..])
  }

  lemma {:induction false} RunLooks(p: Pool, call: int, order: seq<int>)
    requires call in p.calls && Lists(order, p.calls[call].left) && p.calls[call].left <= p.workers.Keys
    ensures Run(p, Looks(call, order)) == p.(calls := p.calls[call := LookAll(p.calls[call], order, p.workers)])
    decreases |order|
  {
    if order == [] {
      assert p.calls[call := p.calls[call]] == p.calls;
    } else {
      var id := order[0];
      var events := Looks(call, order);
      assert order[0] in order;
      var q := Apply(p, LookAt(call, id));
      assert q == p.(calls := p.calls[call := Look(p.calls[call], id, Read(p.workers[id]))]);
      assert forall k :: k in order[1..] <==> k in order && k != id;
      RunLooks(q, call, order[1..]);
      assert events[0] == LookAt(call, id) && events[1..] == Looks(call, order[1..]);
    }
  }

  // Readings that are those of the workers.
  ghost predicate Fresh(workers: Workers, c: Call) {
    forall k :: k in c.seen && k in workers ==> c.seen[k] == Read(workers[k])
  }

  lemma {:induction false} LookAllKeepsGood(workers: Workers, c: Call, order: seq<int>)
    requires CallGood(workers, c) && Lists(order, c.left)
    ensures (forall k :: k in order ==> k in workers) && var d := LookAll(c, order, workers);
            && CallGood(workers, d) && d.left == {} && d.task == c.task
            && (Fresh(workers, c) ==> Fresh(workers, d))
    decreases |order|
  {
    if order != [] {
      assert order[0] in order;
      var d := Look(c, order[0], Read(workers[order[0]]));
      LookKeepsGood(workers, c, order[0], Read(workers[order[0]]));
      assert forall k :: k in order[1..] <==> k in order && k != order[0];
      LookAllKeepsGood(workers, d, order[1..]);
    } else {
      assert forall k :: k !in c.left;
    }
  }

  function DispatchEvents(call: int, task: Task, order: seq<int>): seq<Event> {
    [Begin(call, task)] + (Looks(call, order) + [Send(call)])
  }

  ghost predicate HasRoom(p: Pool) {
    exists k :: k in p.workers && p.workers[k].Eligible() && |p.workers[k].queue| < p.capacity
  }

  // What an uninterrupted dispatch does.
  ghost predicate Dispatched(p: Pool, q: Pool, task: Task) {
    if HasRoom(p) then
      exists id :: Least(p.workers, id)
                   && q == p.(workers := Queued(p.workers, id, task),
                              offered := p.offered + 1, uncounted := p.uncounted + 1)
    else q == p.(offered := p.offered + 1, dropped := p.dropped + 1)
  }

  lemma SendOfFresh(p: Pool, q: Pool, call: int)
    requires call !in p.calls && call in q.calls
    requires q == p.(calls := p.calls[call := q.calls[call]], offered := p.offered + 1)
    requires CallGood(p.workers, q.calls[call]) && Fresh(p.workers, q.calls[call]) && q.calls[call].left == {}
    ensures Dispatched(p, Sent(q, call), q.calls[call].task) && (CanSend(q, call) <==> HasRoom(p))
  {
    var c := q.calls[call];
    assert q.calls - {call} == p.calls;
    assert forall k :: k in p.workers ==> k in c.seen && c.seen[k] == Read(p.workers[k]);
    if c.best.Some? { assert Least(p.workers, c.best.value); }
  }

  // The state at the end of an uninterrupted scan.
  function Scanned(p: Pool, call: int, task: Task, order: seq<int>): Pool
    requires forall k :: k in order ==> k in p.workers
  {
    p.(calls := p.calls[call := LookAll(Call(task, p.workers.Keys, map[], None), order, p.workers)],
    offered := p.offered + 1)
  }

  lemma RunDispatch(p: Pool, call: int, task: Task, order: seq<int>)
    requires call !in p.calls && Lists(order, p.workers.Keys)
    ensures var q := Scanned(p, call, task, order);
            && Run(p, DispatchEvents(call, task, order)) == Sent(q, call)
            && CallGood(p.workers, q.calls[call]) && Fresh(p.workers, q.calls[call])
            && q.calls[call].left == {} && q.calls[call].task == task
  {
    var p1 := Apply(p, Begin(call, task));
    var looks := Looks(call, order);
    RunOne(p, Begin(call, task));
    RunConcat(p, [Begin(call, task)], looks + [Send(call)]);
    RunConcat(p1, looks, [Send(call)]);
    RunScan(p, call, task, order);
    RunOne(Scanned(p, call, task, order), Send(call));
  }

  lemma RunScan(p: Pool, call: int, task: Task, order: seq<int>)
    requires call !in p.calls && Lists(order, p.workers.Keys)
    ensures var q := Scanned(p, call, task, order);
            && Run(Apply(p, Begin(call, task)), Looks(call, order)) == q
            && CallGood(p.workers, q.calls[call]) && Fresh(p.workers, q.calls[call])
            && q.calls[call].left == {} && q.calls[call].task == task
  {
    var p1 := Apply(p, Begin(call, task));
    RunLooks(p1, call, order);
    LookAllKeepsGood(p.workers, Call(task, p.workers.Keys, map[], None), order);
    var d := LookAll(p1.calls[call], order, p.workers);
    assert p1.calls[call := d] == p.calls[call := d];
  }

  // Run without interruption, in whatever order the map is ranged over, a dispatch gives its task to
  // an eligible worker with the shortest channel, and drops it exactly when no eligible worker has
  // room.
  lemma DispatchIsLeastLoaded(p: Pool, call: int, task: Task, order: seq<int>)
    requires call !in p.calls && Lists(order, p.workers.Keys)
    ensures Dispatched(p, Run(p, DispatchEvents(call, task, order)), task)
  {
    RunDispatch(p, call, task, order);
    SendOfFresh(p, Scanned(p, call, task, order), call);
  }

  // ----- Dispatching alone keeps the channels of the eligible workers level -----

  ghost predicate Level(workers: Workers) {
    forall j, k :: j in workers && k in workers && workers[j].Eligible() && workers[k].Eligible() ==>
      |workers[j].queue| <= |workers[k].queue| + 1
  }

  // Dispatches one after the other, and no worker doing anything.
  ghost predicate OneByOne(p: Pool, events: seq<Event>)
    decreases |events|
  {
    events == [] ||
    (var e := events[0];
     && (e.Begin? || e.LookAt? || e.Send? || e.Count?) && (e.Begin? ==> p.calls == map[])
     && OneByOne(Apply(p, e), events[1..]))
  }

  ghost predicate LevelInv(p: Pool) {
    && Level(p.workers) && CallsGood(p)
    && (forall call :: call in p.calls ==> Fresh(p.workers, p.calls[call]))
    && (forall c, d :: c in p.calls && d in p.calls ==> c == d)
  }

  lemma SendKeepsLevel(p: Pool, call: int)
    requires LevelInv(p) && call in p.calls && p.calls[call].left == {}
    ensures LevelInv(Sent(p, call))
  {
    var c := p.calls[call];
    assert CallGood(p.workers, c);
    assert forall k :: k in p.workers ==> k in c.seen && c.seen[k] == Read(p.workers[k]);
    assert forall d :: d in p.calls ==> d == call;
    assert p.calls - {call} == map[];
  }

  lemma {:induction false} DispatchesStayLevel(p: Pool, events: seq<Event>)
    requires LevelInv(p) && OneByOne(p, events)
    ensures Level(Run(p, events).workers)
    decreases |events|
  {
    if events != [] {
      var e := events[0];
      StepKeepsCalls(p, e);
      if e.Send? && e.call in p.calls && p.calls[e.call].left == {} { SendKeepsLevel(p, e.call); }
      DispatchesStayLevel(Apply(p, e), events[1..]);
    }
  }

  // ----- Unhealthy workers -----

  // No task of the worker ends well.
  ghost predicate NoSuccess(events: seq<Event>, id: int) {
    forall e :: e in events ==> e != Report(id, true)
  }

  // The scans under way that favour a worker.
  ghost function Aimed(p: Pool, id: int): set<int> {
    set call | call in p.calls && p.calls[call].best == Some(id)
  }

  lemma AimedShrinks(p: Pool, e: Event, id: int)
    requires id in p.workers && !p.workers[id].healthy && CallsGood(p)
    ensures Aimed(Apply(p, e), id) <= Aimed(p, id)
  {
  }

  lemma UnhealthyPlaced(p: Pool, call: int, id: int, to: int)
    requires id in p.workers && call in p.calls && p.calls[call].best == Some(to) && to in p.workers
    ensures var q := Placed(p, call, to);
            && q.workers[id].healthy == p.workers[id].healthy && q.workers[id].Started() == p.workers[id].Started()
            && q.workers[id].Received() == p.workers[id].Received() + (if id == to then 1 else 0)
            && |Aimed(q, id)| == |Aimed(p, id)| - (if id == to then 1 else 0)
  {
    assert Aimed(Placed(p, call, to), id) == Aimed(p, id) - {call};
  }

  lemma UnhealthySend(p: Pool, call: int, id: int)
    requires id in p.workers && !p.workers[id].healthy && CallsGood(p) && call in p.calls && p.calls[call].left == {}
    ensures var q := Sent(p, call);
            && id in q.workers && !q.workers[id].healthy && q.workers[id].Started() == p.workers[id].Started()
            && p.workers[id].Received() <= q.workers[id].Received()
            && q.workers[id].Received() + |Aimed(q, id)| <= p.workers[id].Received() + |Aimed(p, id)|
  {
    if CanSend(p, call) {
      UnhealthyPlaced(p, call, id, p.calls[call].best.value);
    } else {
      SubsetSize(Aimed(Refused(p, call), id), Aimed(p, id));
    }
  }

  lemma UnhealthyStep(p: Pool, e: Event, id: int)
    requires id in p.workers && !p.workers[id].healthy && e != Report(id, true) && CallsGood(p)
    ensures var q := Apply(p, e);
            && id in q.workers && !q.workers[id].healthy
            && p.workers[id].Received() <= q.workers[id].Received()
            && q.workers[id].Received() + |Aimed(q, id)| <= p.workers[id].Received() + |Aimed(p, id)|
            && q.workers[id].Started() >= p.workers[id].Started()
  {
    if e.Send? && e.call in p.calls && p.calls[e.call].left == {} {
      UnhealthySend(p, e.call, id);
    } else {
      AimedShrinks(p, e, id);
      SubsetSize(Aimed(Apply(p, e), id), Aimed(p, id));
    }
  }

  lemma {:induction false} UnhealthyRun(p: Pool, events: seq<Event>, id: int)
    requires id in p.workers && !p.workers[id].healthy && NoSuccess(events, id) && CallsGood(p)
    ensures var q := Run(p, events);
            && id in q.workers && !q.workers[id].healthy
            && p.workers[id].Received() <= q.workers[id].Received()
            && q.workers[id].Received() + |Aimed(q, id)| <= p.workers[id].Received() + |Aimed(p, id)|
            && q.workers[id].Started() >= p.workers[id].Started()
    decreases |events|
  {
    if events != [] {
      assert events[0] in events && forall e :: e in events[1..] ==> e in events;
      UnhealthyStep(p, events[0], id);
      StepKeepsCalls(p, events[0]);
      UnhealthyRun(Apply(p, events[0]), events[1..], id);
    }
  }

  // An unhealthy worker with q tasks in its channel is sent at most as many more as scans under way
  // favour it, and starts at most q and those, unless one succeeds.  With a single dispatcher that
  // is one, or none when no scan is under way.
  lemma UnhealthyRunsOutOfWork(p: Pool, events: seq<Event>, id: int)
    requires id in p.workers && !p.workers[id].healthy && NoSuccess(events, id) && CallsGood(p)
    ensures var q := Run(p, events);
            && id in q.workers
            && 0 <= q.workers[id].Received() - p.workers[id].Received() <= |Aimed(p, id)| <= |p.calls|
            && 0 <= q.workers[id].Started() - p.workers[id].Started() <= |p.workers[id].queue| + |Aimed(p, id)|
  {
    UnhealthyRun(p, events, id);
    SubsetSize(Aimed(p, id), p.calls.Keys);
  }

  // The bound is reached: a finished scan that favours a worker sends to it even if it has turned
  // unhealthy since.
  lemma UnhealthyIsSentOneMore(p: Pool, call: int, id: int)
    requires call in Aimed(p, id) && p.calls[call].left == {} && id in p.workers && |p.workers[id].queue| < p.capacity
    ensures Apply(p, Send(call)).workers[id].Received() == p.workers[id].Received() + 1
  {
  }

  // ----- Dead pools -----

  // A worker that can never become healthy again: unhealthy, with nothing left to run.
  ghost predicate Stranded(w: Worker) {
    !w.healthy && w.queue == [] && !w.phase.Running?
  }

  ghost predicate NoCreate(events: seq<Event>) {
    forall e :: e in events ==> !e.Create?
  }

  // Until a worker is added, no task is placed any more.
  ghost predicate Dead(p: Pool) {
    forall events :: NoCreate(events) ==> Run(p, events).Accepted() == p.Accepted()
  }

  // Every worker is stranded, and no scan under way favours one.
  ghost predicate Exhausted(p: Pool) {
    && (forall id :: id in p.workers ==> Stranded(p.workers[id]))
    && (forall call :: call in p.calls ==> p.calls[call].best.None?)
  }

  lemma ExhaustedSend(p: Pool, call: int)
    requires Exhausted(p) && call in p.calls
    ensures Sent(p, call) == Refused(p, call) && Refused(p, call).Accepted() == p.Accepted()
  {
    CallEnds(p.calls, call);
  }

  lemma ExhaustedStep(p: Pool, e: Event)
    requires Exhausted(p) && !e.Create?
    ensures Exhausted(Apply(p, e)) && Apply(p, e).Accepted() == p.Accepted()
  {
    if e.Send? && e.call in p.calls { ExhaustedSend(p, e.call); }
  }

  lemma {:induction false} StrandedPoolDropsEverything(p: Pool, events: seq<Event>)
    requires Exhausted(p) && NoCreate(events)
    ensures Run(p, events).Accepted() == p.Accepted()
    decreases |events|
  {
    if events != [] {
      assert events[0] in events && forall e :: e in events[1..] ==> e in events;
      ExhaustedStep(p, events[0]);
      StrandedPoolDropsEverything(Apply(p, events[0]), events[1..]);
    }
  }

  // A worker that is not stranded can come back: its task under way succeeds, or its next one.
  function Revival(id: int): seq<Event> {
    [Activate(id), Report(id, true), Close(id), Uncount(id), Take(id), Report(id, true)]
  }

  // The first half of a revival: the task under way is finished.
  function Finished(w: Worker): Worker {
    var active := w.(active := true);
    var reported :=
      if w.phase.Running? then active.(phase := Reported, healthy := true, succeeded := w.succeeded + 1)
      else active;
    if reported.phase.Reported? then reported.(phase := Closing, processed := w.processed + 1) else reported
  }

  lemma FirstHalf(p: Pool, id: int)
    requires id in p.workers
    ensures var q := Apply(Apply(Apply(p, Activate(id)), Report(id, true)), Close(id));
            && q.calls == p.calls && q.capacity == p.capacity && q.Accepted() == p.Accepted()
            && q.workers == p.workers[id := Finished(p.workers[id])]
  {
  }

  lemma SecondHalf(p: Pool, id: int)
    requires id in p.workers && p.workers[id].active && (p.workers[id].phase.Waiting? || p.workers[id].phase.Closing?)
    ensures var q := Apply(Apply(Apply(p, Uncount(id)), Take(id)), Report(id, true));
            && q.calls == p.calls && q.capacity == p.capacity && q.Accepted() == p.Accepted()
            && q.workers == p.workers[id := Succeeded(p.workers[id])]
  {
  }

  // The second half: its next task succeeds.
  function Succeeded(w: Worker): Worker {
    if w.queue == [] then w.(phase := Waiting)
    else w.(queue := w.queue[1..], phase := Reported, healthy := true, succeeded := w.succeeded + 1)
  }

  lemma RunRevival(p: Pool, id: int)
    requires id in p.workers
    ensures var q := Run(p, Revival(id));
            && q.calls == p.calls && q.capacity == p.capacity && q.Accepted() == p.Accepted()
            && q.workers == p.workers[id := Succeeded(Finished(p.workers[id]))]
  {
    RunSix(p, Revival(id));
    FirstHalf(p, id);
    SecondHalf(Apply(Apply(Apply(p, Activate(id)), Report(id, true)), Close(id)), id);
  }

  lemma RunSix(p: Pool, es: seq<Event>)
    requires |es| == 6
    ensures Run(p, es) == Apply(Apply(Apply(Apply(Apply(Apply(p, es[0]), es[1]), es[2]), es[3]), es[4]), es[5])
  {
    var a, b := es[..3], es[3..];
    assert es == a + b;
    RunConcat(p, a, b);
    RunThree(p, a);
    RunThree(Run(p, a), b);
  }

  lemma RunThree(p: Pool, es: seq<Event>)
    requires |es| == 3
    ensures Run(p, es) == Apply(Apply(Apply(p, es[0]), es[1]), es[2])
  {
    assert es == [es[0]] + ([es[1]] + [es[2]]);
    RunConcat(p, [es[0]], [es[1]] + [es[2]]);
    RunConcat(Apply(p, es[0]), [es[1]], [es[2]]);
    RunOne(p, es[0]);
    RunOne(Apply(p, es[0]), es[1]);
    RunOne(Apply(Apply(p, es[0]), es[1]), es[2]);
  }

  // A pool with room places the next task.
  lemma RoomIsUsed(p: Pool) returns (events: seq<Event>)
    requires HasRoom(p)
    ensures NoCreate(events) && Run(p, events).Accepted() == p.Accepted() + 1
  {
    var call := MaxID(p.calls.Keys) + 1;
    var order := Enumerate(p.workers.Keys);
    DispatchIsLeastLoaded(p, call, 0, order);
    events := DispatchEvents(call, 0, order);
  }

  lemma WorkerComesBack(p: Pool, id: int) returns (events: seq<Event>)
    requires Inv(p) && id in p.workers && !Stranded(p.workers[id])
    ensures NoCreate(events) && Run(p, events).Accepted() == p.Accepted() + 1
  {
    var q := Run(p, Revival(id));
    RunRevival(p, id);
    assert q.workers[id].Eligible() && |q.workers[id].queue| < q.capacity;
    var more := RoomIsUsed(q);
    events := Revival(id) + more;
    RunConcat(p, Revival(id), more);
  }

  lemma {:induction false} LookAllFavours(workers: Workers, c: Call, order: seq<int>)
    requires forall k :: k in order ==> k in workers && !workers[k].Eligible()
    ensures LookAll(c, order, workers).best == c.best && LookAll(c, order, workers).task == c.task
    decreases |order|
  {
    if order != [] {
      assert order[0] in order && forall k :: k in order[1..] ==> k in order;
      LookAllFavours(workers, Look(c, order[0], Read(workers[order[0]])), order[1..]);
    }
  }

  // A scan under way that favours a stranded worker still sends it its task.
  lemma ScanFinishes(p: Pool, call: int) returns (events: seq<Event>)
    requires Inv(p) && call in p.calls && p.calls[call].best.Some?
    requires forall id :: id in p.workers ==> Stranded(p.workers[id])
    ensures NoCreate(events) && Run(p, events).Accepted() == p.Accepted() + 1
  {
    var c := p.calls[call];
    assert CallGood(p.workers, c);
    var order := Enumerate(c.left);
    RunLooks(p, call, order);
    LookAllKeepsGood(p.workers, c, order);
    LookAllFavours(p.workers, c, order);
    var q := Run(p, Looks(call, order));
    assert q.calls.Keys == p.calls.Keys;
    SameSize(q.calls, p.calls);
    events := Looks(call, order) + [Send(call)];
    RunConcat(p, Looks(call, order), [Send(call)]);
    RunOne(q, Send(call));
    SendToStranded(q, call);
  }

  lemma SameSize(a: map<int, Call>, b: map<int, Call>)
    requires a.Keys == b.Keys
    ensures |a| == |b|
  {
    assert |a| == |a.Keys| && |b| == |b.Keys|;
  }

  lemma SendToStranded(q: Pool, call: int)
    requires call in q.calls && q.calls[call].left == {} && q.calls[call].best.Some?
    requires q.calls[call].best.value in q.workers && q.workers[q.calls[call].best.value].queue == []
    ensures Apply(q, Send(call)).Accepted() == q.Accepted() + 1
  {
    CallEnds(q.calls, call);
  }

  // Health is only regained by a success.  A pool places no task any more, until a worker is added,
  // exactly when every worker is unhealthy with nothing left to run, and no scan under way favours
  // one.
  lemma PoolIsDeadExactly(p: Pool)
    requires Inv(p)
    ensures Dead(p) <==> Exhausted(p)
  {
    if Exhausted(p) {
      forall events | NoCreate(events) ensures Run(p, events).Accepted() == p.Accepted() {
        StrandedPoolDropsEverything(p, events);
      }
    } else if id :| id in p.workers && !Stranded(p.workers[id]) {
      var events := WorkerComesBack(p, id);
    } else {
      var call :| call in p.calls && p.calls[call].best.Some?;
      var events := ScanFinishes(p, call);
    }
  }
}
