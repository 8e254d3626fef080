// Which worker runs which task when: the order of tasks under every interleaving.
module PoolLaws {
  import opened Wrappers
  import opened PoolModel
  import opened PoolTheorems

  // The pool with its history.  begun: the task of every call under way, as it was begun.  sent: the
  // tasks sent to each worker; started: those it took.  Both in order.
  datatype Log = Log(pool: Pool, begun: map<int, Task>, sent: map<int, seq<Task>>, started: map<int, seq<Task>>)

  function Of(m: map<int, seq<Task>>, id: int): seq<Task> {
    if id in m then m[id] else []
  }

  function More(m: map<int, seq<Task>>, id: int, task: Task): map<int, seq<Task>> {
    m[id := Of(m, id) + [task]]
  }

  // A call that ends without its task being dropped sends it to the worker its scan favours.
  predicate SendsTo(l: Log, call: int, q: Pool) {
    && call in l.pool.calls && call !in q.calls && call in l.begun
    && q.dropped == l.pool.dropped && l.pool.calls[call].best.Some?
  }

  function Step(l: Log, e: Event): Log {
    var p, q := l.pool, Apply(l.pool, e);
    match e
    case Begin(call, task) => Log(q, if call in p.calls then l.begun else l.begun[call := task], l.sent, l.started)
    case Send(call) =>
      if SendsTo(l, call, q) then Log(q, l.begun, More(l.sent, p.calls[call].best.value, l.begun[call]), l.started)
      else Log(q, l.begun, l.sent, l.started)
    case Take(id) =>
      if id in p.workers && id in q.workers && p.workers[id].phase.Waiting? && q.workers[id].phase.Running? then
        Log(q, l.begun, l.sent, More(l.started, id, q.workers[id].phase.task))
      else Log(q, l.begun, l.sent, l.started)
    case _ => Log(q, l.begun, l.sent, l.started)
  }

  function History(l: Log, events: seq<Event>): Log
    decreases |events|
  {
    if events == [] then l else History(Step(l, events[0]), events[1..])
  }

  ghost predicate InOrder(l: Log) {
    && (forall call :: call in l.pool.calls ==> call in l.begun && l.pool.calls[call].task == l.begun[call])
    && (forall id :: id in l.pool.workers ==> Of(l.sent, id) == Of(l.started, id) + l.pool.workers[id].queue)
    && (forall id :: id !in l.pool.workers ==> Of(l.sent, id) == Of(l.started, id) == [])
    && CallsGood(l.pool)
  }

  lemma SendKeepsOrder(l: Log, call: int)
    requires InOrder(l) && call in l.pool.calls && l.pool.calls[call].left == {}
    ensures InOrder(Step(l, Send(call)))
  {
    var p, m := l.pool, Step(l, Send(call));
    StepKeepsCalls(p, Send(call));
    if CanSend(p, call) {
      var id := p.calls[call].best.value;
      assert Of(m.sent, id) == Of(l.sent, id) + [p.calls[call].task];
      assert m.pool.workers[id].queue == p.workers[id].queue + [p.calls[call].task];
    }
  }

  lemma StartedFirst(started: seq<Task>, queue: seq<Task>)
    requires queue != []
    ensures started + [queue[0]] + queue[1..] == started + queue
  {
  }

  lemma TakeKeepsOrder(l: Log, id: int)
    requires InOrder(l) && id in l.pool.workers && Apply(l.pool, Take(id)) != l.pool
    ensures InOrder(Step(l, Take(id)))
  {
    var w := l.pool.workers[id];
    StepKeepsCalls(l.pool, Take(id));
    StartedFirst(Of(l.started, id), w.queue);
    var m := Step(l, Take(id));
    assert m.pool.workers[id] == w.(queue := w.queue[1..], phase := Running(w.queue[0]));
    assert m.started == More(l.started, id, w.queue[0]);
  }

  // All other steps leave the channels and the history alone.
  lemma OtherKeepsOrder(l: Log, e: Event)
    requires InOrder(l) && !e.Create? && !e.Send? && !e.Take?
    ensures InOrder(Step(l, e))
  {
    StepKeepsCalls(l.pool, e);
  }

  lemma CreateKeepsOrder(l: Log)
    requires InOrder(l)
    ensures InOrder(Step(l, Create))
  {
    StepKeepsCalls(l.pool, Create);
    assert NextID(l.pool.workers) !in l.pool.workers;
  }

  lemma StepKeepsOrder(l: Log, e: Event)
    requires InOrder(l)
    ensures InOrder(Step(l, e))
  {
    match e
    case Create => CreateKeepsOrder(l);
    case Send(call) => if call in l.pool.calls && l.pool.calls[call].left == {} { SendKeepsOrder(l, call); }
    case Take(id) => if Apply(l.pool, e) != l.pool { TakeKeepsOrder(l, id); }
    case _ => OtherKeepsOrder(l, e);
  }

  lemma {:induction false} HistoryKeepsOrder(l: Log, events: seq<Event>)
    requires InOrder(l)
    ensures InOrder(History(l, events)) && History(l, events).pool == Run(l.pool, events)
    decreases |events|
  {
    if events != [] {
      StepKeepsOrder(l, events[0]);
      HistoryKeepsOrder(Step(l, events[0]), events[1..]);
    }
  }

  // Under every interleaving each worker starts its tasks in the order they were sent to it: what was
  // sent to it, as the tasks their calls began with, is what it started followed by its channel.
  lemma WorkersAreFifo(capacity: Capacity, events: seq<Event>, id: int)
    ensures var l := History(Log(EmptyPool(capacity), map[], map[], map[]), events);
            && l.pool == Run(EmptyPool(capacity), events)
            && (id in l.pool.workers ==> Of(l.sent, id) == Of(l.started, id) + l.pool.workers[id].queue)
  {
    HistoryKeepsOrder(Log(EmptyPool(capacity), map[], map[], map[]), events);
  }

  // A worker that is added is healthy and idle, though not active yet; its ID is new, and the next
  // after the largest in use, or 0.
  lemma NewWorkerIsFresh(p: Pool) returns (id: int)
    requires p.calls == map[] && p.uncounted == 0
    ensures id !in p.workers && id >= 0 && (forall k :: k in p.workers ==> k < id) && (id > 0 ==> id - 1 in p.workers)
    ensures Apply(p, Create) == p.(workers := p.workers[id := Worker([], false, true, Waiting, 0, 0, 0)])
  {
    id := NextID(p.workers);
    assert id > 0 ==> id - 1 in p.workers.Keys;
    assert id !in p.workers.Keys;
  }
}
