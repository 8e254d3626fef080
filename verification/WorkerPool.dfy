// The pool's objects: workers with their channel, flags and counters, the engine's shared load,
// and the map of workers.  Each method is one or more of the atomic steps of PoolModel.
module WorkerPools {
  import opened Wrappers
  import opened PoolModel
  import opened PoolTheorems
  import opened Pigeonhole

  class Engine {
    var currentLoad: int

    constructor ()
      ensures currentLoad == 0
    {
      currentLoad := 0;
    }
  }

  class PoolWorker {
    var tasksCh: seq<Task>
    var isActive: bool
    var isHealthy: bool
    var phase: Phase
    var processed: nat
    var succeeded: nat
    var failed: nat

    function View(): Worker
      reads this
    {
      Worker(tasksCh, isActive, isHealthy, phase, processed, succeeded, failed)
    }

    constructor ()
      ensures View() == NewWorker()
    {
      tasksCh, isActive, isHealthy, phase := [], false, true, Waiting;
      processed, succeeded, failed := 0, 0, 0;
    }

    // One turn of the worker's loop: takes a task, runs it with some result, and does the deferred
    // bookkeeping.
    method ProcessNext(engine: Engine, ok: bool)
      requires isActive && phase.Waiting? && tasksCh != []
      modifies this, engine
      ensures View() == Worker(old(tasksCh)[1..], true, ok, Waiting, old(processed) + 1,
                               old(succeeded) + (if ok then 1 else 0), old(failed) + (if ok then 0 else 1))
      ensures engine.currentLoad == old(engine.currentLoad) - 1
    {
      var task := tasksCh[0];
      tasksCh, phase := tasksCh[1..], Running(task);
      if ok {
        succeeded := succeeded + 1;
        isHealthy := true;
      } else {
        failed := failed + 1;
        isHealthy := false;
      }
      phase := Reported;
      processed := processed + 1;
      phase := Closing;
      engine.currentLoad := engine.currentLoad - 1;
      phase := Waiting;
    }
  }

  class WorkerPool {
    var workers: map<int, PoolWorker>
    const engine: Engine
    const capacity: Capacity
    const maxWorkers: nat
    ghost var offered: nat
    ghost var dropped: nat

    ghost predicate Valid()
      reads this
    {
      forall i, j :: i in workers && j in workers && i != j ==> workers[i] != workers[j]
    }

    ghost function Views(): Workers
      reads this, workers.Values
    {
      map id | id in workers :: workers[id].View()
    }

    ghost function View(): Pool
      reads this, engine, workers.Values
    {
      Pool(Views(), capacity, map[], engine.currentLoad, 0, offered, dropped)
    }

    // A change of one worker object is a change at one ID.
    twostate lemma OneChanged(id: int)
      requires old(Valid()) && workers == old(workers) && id in workers
      requires forall j :: j in workers && j != id ==> old(allocated(workers[j])) && unchanged(workers[j])
      ensures Views() == old(Views())[id := workers[id].View()]
    {
      forall j | j in workers && j != id ensures workers[j].View() == old(workers[j].View()) {
        assert unchanged(workers[j]);
      }
    }

    constructor (engine: Engine, capacity: Capacity, maxWorkers: nat)
      ensures Valid() && View() == EmptyPool(capacity).(load := engine.currentLoad)
      ensures this.engine == engine && this.maxWorkers == maxWorkers
    {
      this.engine, this.capacity, this.maxWorkers, workers := engine, capacity, maxWorkers, map[];
      offered, dropped := 0, 0;
    }

    method GetNextWorkerID() returns (id: int)
      ensures id == NextID(View().workers)
    {
      var max := -1;
      var remaining := workers.Keys;
      while remaining != {}
        invariant remaining <= workers.Keys
        invariant max >= -1 && (max != -1 ==> max in workers)
        invariant forall k :: k in workers && k !in remaining ==> k <= max
        decreases |remaining|
      {
        HasMember(remaining);
        var k :| k in remaining;
        if k > max {
          max := k;
        }
        remaining := remaining - {k};
      }
      assert View().workers.Keys == workers.Keys;
      return max + 1;
    }

    // scaleUp: one more worker, unless there are as many as allowed.
    method ScaleUp() returns (created: bool)
      requires Valid()
      modifies this
      ensures Valid() && created == (|old(workers)| < maxWorkers)
      ensures View() == if created then Apply(old(View()), Create) else old(View())
    {
      if |workers| >= maxWorkers {
        return false;
      }
      var id := GetNextWorkerID();
      var worker := new PoolWorker();
      ghost var before := View();
      workers := workers[id := worker];
      assert View().workers == before.workers[id := NewWorker()];
      return true;
    }

    // The scan over the workers, in an arbitrary order.
    method FindBest(ghost task: Task) returns (best: Option<int>, order: seq<int>)
      ensures Lists(order, workers.Keys) && workers.Keys == Views().Keys
      ensures best == LookAll(Call(task, workers.Keys, map[], None), order, Views()).best
      ensures best.Some? ==> best.value in workers
    {
      ghost var views := Views();
      order := AnyOrder(workers.Keys);
      best := None;
      var lowestLoad: nat := 0;
      for i := 0 to |order|
        invariant Scanning(task, views, order[..i], best, lowestLoad)
        invariant best.Some? ==> best.value in workers
      {
        var id := order[i];
        var w := workers[id];
        ScanningMore(task, views, order, i, best, lowestLoad);
        assert order[i] in order;
        var load := |w.tasksCh|;
        if w.isActive && w.isHealthy && (best.None? || load < lowestLoad) {
          best, lowestLoad := Some(id), load;
        }
      }
      assert order[..|order|] == order;
    }

    // dispatchToOptimalWorker, when nothing else happens meanwhile: a send that does not block, and
    // then the count.
    method DispatchToOptimalWorker(task: Task) returns (sent: bool)
      requires Valid()
      modifies this`offered, this`dropped, engine, workers.Values
      ensures exists order :: IsDispatch(old(View()), View(), task, order, sent)
      ensures sent <==> HasRoom(old(View()))
    {
      ghost var p := View();
      var best, order := FindBest(task);
      DispatchEffect(p, task, order, best);
      sent := best.Some? && |workers[best.value].tasksCh| < capacity;
      if sent {
        SendAndCount(best.value, task);
      } else {
        Drop();
      }
      assert IsDispatch(p, View(), task, order, sent);
    }

    method Drop()
      modifies this`offered, this`dropped
      ensures View() == old(View()).(offered := old(offered) + 1, dropped := old(dropped) + 1)
    {
      offered, dropped := offered + 1, dropped + 1;
    }

    method SendAndCount(id: int, task: Task)
      requires Valid() && id in workers
      modifies this`offered, engine, workers[id]
      ensures View() == Counted(old(View()), id, task)
    {
      Send(id, task);
      engine.currentLoad := engine.currentLoad + 1;
      offered := offered + 1;
    }

    method Send(id: int, task: Task)
      requires Valid() && id in workers
      modifies workers[id]
      ensures Views() == Queued(old(Views()), id, task)
    {
      var w := workers[id];
      w.tasksCh := w.tasksCh + [task];
      OneChanged(id);
    }

    // A worker's turn, as four atomic steps.
    method ProcessNext(id: int, ok: bool)
      requires Valid() && id in workers && workers[id].isActive && workers[id].phase.Waiting?
               && workers[id].tasksCh != []
      modifies engine, workers[id]
      ensures View() == Apply(Apply(Apply(Apply(old(View()), Take(id)), Report(id, ok)), Close(id)), Uncount(id))
    {
      ghost var p := View();
      var w := workers[id];
      ghost var before := w.View();
      w.ProcessNext(engine, ok);
      OneChanged(id);
      TurnIsFourSteps(p, id, ok);
    }
  }

  ghost predicate IsDispatch(p: Pool, q: Pool, task: Task, order: seq<int>, sent: bool) {
    && Lists(order, p.workers.Keys)
    && q == var r := Run(p, DispatchEvents(0, task, order)); if sent then Apply(r, Count) else r
  }

  // A task placed and counted.
  function Counted(p: Pool, id: int, task: Task): Pool
    requires id in p.workers
  {
    p.(workers := Queued(p.workers, id, task), offered := p.offered + 1, load := p.load + 1)
  }

  // The net effect of a dispatch, by what the scan finds.
  lemma DispatchEffect(p: Pool, task: Task, order: seq<int>, best: Option<int>)
    requires p.calls == map[] && p.uncounted == 0 && Lists(order, p.workers.Keys)
    requires best == LookAll(Call(task, p.workers.Keys, map[], None), order, p.workers).best
    ensures best.Some? ==> best.value in p.workers
    ensures if best.Some? && |p.workers[best.value].queue| < p.capacity
            then HasRoom(p) && IsDispatch(p, Counted(p, best.value, task), task, order, true)
            else
              && !HasRoom(p)
              && IsDispatch(p, p.(offered := p.offered + 1, dropped := p.dropped + 1), task, order, false)
  {
    var q := Scanned(p, 0, task, order);
    RunDispatch(p, 0, task, order);
    SendOfFresh(p, q, 0);
    assert q.calls - {0} == p.calls;
  }

  // The net effect of a worker's four steps.
  lemma TurnIsFourSteps(p: Pool, id: int, ok: bool)
    requires id in p.workers && p.workers[id].active && p.workers[id].phase.Waiting? && p.workers[id].queue != []
    ensures var w := p.workers[id];
            Apply(Apply(Apply(Apply(p, Take(id)), Report(id, ok)), Close(id)), Uncount(id)) ==
            Put(p, id, Worker(w.queue[1..], true, ok, Waiting, w.processed + 1,
                              w.succeeded + (if ok then 1 else 0), w.failed + (if ok then 0 else 1)))
            .(load := p.load - 1)
  {
    var w := p.workers[id];
    var p1 := Apply(p, Take(id));
    var w1 := w.(queue := w.queue[1..], phase := Running(w.queue[0]));
    assert p1 == Put(p, id, w1);
    var p2 := Apply(p1, Report(id, ok));
    var w2 := w1.(phase := Reported, healthy := ok,
                  succeeded := w.succeeded + (if ok then 1 else 0), failed := w.failed + (if ok then 0 else 1));
    assert p2 == Put(p, id, w2);
    var p3 := Apply(p2, Close(id));
    assert p3 == Put(p, id, w2.(phase := Closing, processed := w.processed + 1));
  }

  lemma {:induction false} LookAllMore(c: Call, order: seq<int>, id: int, workers: Workers)
    requires id in workers && forall k :: k in order ==> k in workers
    ensures LookAll(c, order + [id], workers) == Look(LookAll(c, order, workers), id, Read(workers[id]))
    decreases |order|
  {
    if order == [] {
      assert order + [id] == [id] && [id][1..] == [];
    } else {
      assert (order + [id])[1..] == order[1..] + [id];
      assert order[0] in order && forall k :: k in order[1..] ==> k in order;
      LookAllMore(Look(c, order[0], Read(workers[order[0]])), order[1..], id, workers);
    }
  }

  // What the variables of the scan hold when it has looked at some workers.
  ghost predicate Scanning(task: Task, workers: Workers, order: seq<int>, best: Option<int>, lowest: nat) {
    && (forall k :: k in order ==> k in workers)
    && var c := LookAll(Call(task, workers.Keys, map[], None), order, workers);
       && (forall k :: k in c.seen <==> k in order) && c.best == best
       && (best.Some? ==> best.value in order && c.seen[best.value].load == lowest)
  }

  lemma ScanningMore(task: Task, workers: Workers, order: seq<int>, i: nat, best: Option<int>, lowest: nat)
    requires Lists(order, workers.Keys) && i < |order| && Scanning(task, workers, order[..i], best, lowest)
    ensures order[i] in workers
    ensures var w := workers[order[i]];
            var better := w.active && w.healthy && (best.None? || |w.queue| < lowest);
            Scanning(task, workers, order[..i + 1],
                     if better then Some(order[i]) else best, if better then |w.queue| else lowest)
  {
    assert order[i] in order && order[i] !in order[..i];
    assert order[..i + 1] == order[..i] + [order[i]];
    assert forall k :: k in order[..i + 1] <==> k in order[..i] || k == order[i];
    var start := Call(task, workers.Keys, map[], None);
    LookAllMore(start, order[..i], order[i], workers);
    var c, d := LookAll(start, order[..i], workers), LookAll(start, order[..i + 1], workers);
    assert d == Look(c, order[i], Read(workers[order[i]]));
    assert best.Some? ==> best.value != order[i] && best.value in c.seen;
    assert forall k :: k in d.seen <==> k in c.seen || k == order[i];
  }
}
