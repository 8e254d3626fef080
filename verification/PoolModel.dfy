// internal/worker/pool.go as interleaved atomic steps of dispatchers and workers.
module PoolModel {
  import opened Wrappers
  import opened Pigeonhole

  type Task = int

  // Where a worker's goroutine is: waiting for a task, running one, past the result of one, or
  // past the update of its statistics but not of the shared load.
  datatype Phase = Waiting | Running(task: Task) | Reported | Closing

  datatype Worker = Worker(
    queue: seq<Task>,
    active: bool,
    healthy: bool,
    phase: Phase,
    processed: nat,
    succeeded: nat,
    failed: nat)
  {
    predicate Eligible() { active && healthy }
    // Tasks in the channel, and the one taken while it still weighs on the shared load.
    function Held(): nat { |queue| + if phase.Waiting? then 0 else 1 }
    // Tasks in the channel, running or done.
    function Received(): nat { |queue| + Started() }
    function Started(): nat { processed + if phase.Running? || phase.Reported? then 1 else 0 }
  }

  type Workers = map<int, Worker>

  // The size of a worker's channel, ten by default.
  type Capacity = n: int | n >= 1 witness 1

  // What one look at a worker, under its own lock, shows.
  datatype Reading = Reading(load: nat, eligible: bool)

  function Read(w: Worker): Reading {
    Reading(|w.queue|, w.Eligible())
  }

  // A call of dispatchToOptimalWorker under way: the workers it has not looked at yet, what it saw
  // of the others, and the worker it favours so far.
  datatype Call = Call(task: Task, left: set<int>, seen: map<int, Reading>, best: Option<int>)

  // uncounted: tasks sent to a channel whose sender has not raised the load yet.
  // offered and dropped: tasks that were to be dispatched, and those that could not be placed.
  datatype Pool = Pool(
    workers: Workers,
    capacity: Capacity,
    calls: map<int, Call>,
    load: int,
    uncounted: nat,
    offered: nat,
    dropped: nat)
  {
    // Tasks that were placed.
    function Accepted(): int { offered - dropped - |calls| }
  }

  function NewWorker(): Worker {
    Worker([], false, true, Waiting, 0, 0, 0)
  }

  // Whether a reading is better than the one favoured so far.
  predicate Better(r: Reading, seen: map<int, Reading>, best: Option<int>) {
    r.eligible && (best.Some? && best.value in seen ==> r.load < seen[best.value].load)
  }

  function Look(c: Call, id: int, r: Reading): Call {
    Call(c.task, c.left - {id}, c.seen[id := r], if Better(r, c.seen, c.best) then Some(id) else c.best)
  }

  datatype Event =
    | Create
    | Activate(id: int)
    | Begin(call: int, task: Task)
    | LookAt(call: int, id: int)
    | Send(call: int)
    | Count
    | Take(id: int)
    | Report(id: int, ok: bool)
    | Close(id: int)
    | Uncount(id: int)

  function MaxID(ids: set<int>): (m: int)
    ensures m >= -1 && (m != -1 ==> m in ids) && forall k :: k in ids ==> k <= m
  {
    if ids == {} then -1
    else
      MaxExists(ids);
      var m :| m in ids && forall k :: k in ids ==> k <= m;
      if m > -1 then m else -1
  }

  lemma {:induction false} MaxExists(ids: set<int>)
    requires ids != {}
    ensures exists m :: m in ids && forall k :: k in ids ==> k <= m
    decreases |ids|
  {
    HasMember(ids);
    var j :| j in ids;
    if ids == {j} {
      assert forall k :: k in ids ==> k <= j;
    } else {
      MaxExists(ids - {j});
      var m :| m in ids - {j} && forall k :: k in ids - {j} ==> k <= m;
      var top := if j > m then j else m;
      assert top in ids && forall k :: k in ids ==> k <= top by {
        forall k | k in ids ensures k <= top { if k != j { assert k in ids - {j}; } }
      }
    }
  }

  // getNextWorkerID
  function NextID(workers: Workers): int {
    MaxID(workers.Keys) + 1
  }

  function Put(p: Pool, id: int, w: Worker): Pool {
    p.(workers := p.workers[id := w])
  }

  // What a finished scan does with its task: a send that does not block.
  function Placed(p: Pool, call: int, id: int): Pool
    requires call in p.calls && id in p.workers
  {
    var w := p.workers[id];
    Put(p, id, w.(queue := w.queue + [p.calls[call].task])).(calls := p.calls - {call}, uncounted := p.uncounted + 1)
  }

  function Refused(p: Pool, call: int): Pool {
    p.(calls := p.calls - {call}, dropped := p.dropped + 1)
  }

  predicate CanSend(p: Pool, call: int)
    requires call in p.calls
  {
    var best := p.calls[call].best;
    best.Some? && best.value in p.workers && |p.workers[best.value].queue| < p.capacity
  }

  function Sent(p: Pool, call: int): Pool
    requires call in p.calls
  {
    if CanSend(p, call) then Placed(p, call, p.calls[call].best.value) else Refused(p, call)
  }

  // Each step of the system; a step that is not enabled changes nothing.  The map of workers is
  // locked against changes while tasks are dispatched.
  function Apply(p: Pool, e: Event): Pool {
    match e
    case Create => if p.calls == map[] && p.uncounted == 0 then Put(p, NextID(p.workers), NewWorker()) else p
    case Activate(id) => if id in p.workers then Put(p, id, p.workers[id].(active := true)) else p
    case Begin(call, task) =>
      if call in p.calls then p
      else p.(calls := p.calls[call := Call(task, p.workers.Keys, map[], None)], offered := p.offered + 1)
    case LookAt(call, id) =>
      if call in p.calls && id in p.calls[call].left && id in p.workers then
        p.(calls := p.calls[call := Look(p.calls[call], id, Read(p.workers[id]))])
      else p
    case Send(call) => if call in p.calls && p.calls[call].left == {} then Sent(p, call) else p
    case Count => if p.uncounted > 0 then p.(uncounted := p.uncounted - 1, load := p.load + 1) else p
    case Take(id) =>
      if id in p.workers && p.workers[id].active && p.workers[id].phase.Waiting? && p.workers[id].queue != [] then
        var w := p.workers[id];
        Put(p, id, w.(queue := w.queue[1..], phase := Running(w.queue[0])))
      else p
    case Report(id, ok) =>
      if id in p.workers && p.workers[id].phase.Running? then
        var w := p.workers[id];
        Put(p, id, w.(phase := Reported, healthy := ok,
                      succeeded := w.succeeded + if ok then 1 else 0, failed := w.failed + if ok then 0 else 1))
      else p
    case Close(id) =>
      if id in p.workers && p.workers[id].phase.Reported? then
        Put(p, id, p.workers[id].(phase := Closing, processed := p.workers[id].processed + 1))
      else p
    case Uncount(id) =>
      if id in p.workers && p.workers[id].phase.Closing? then
        Put(p, id, p.workers[id].(phase := Waiting)).(load := p.load - 1)
      else p
  }

  function Run(p: Pool, events: seq<Event>): Pool
    decreases |events|
  {
    if events == [] then p else Run(Apply(p, events[0]), events[1..])
  }

  function EmptyPool(capacity: Capacity): Pool {
    Pool(map[], capacity, map[], 0, 0, 0, 0)
  }

  ghost function Helds(workers: Workers): map<int, int> {
    map id | id in workers :: workers[id].Held()
  }

  ghost function Receiveds(workers: Workers): map<int, int> {
    map id | id in workers :: workers[id].Received()
  }
}
