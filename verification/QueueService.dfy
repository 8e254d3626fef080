// The service's operations on the stored lists.
module QueueServices {
  import opened Wrappers
  import opened QueueModel

  class QueueService {
    var store: Store

    constructor ()
      ensures store == EMPTY
    {
      store := EMPTY;
    }

    // EnqueueTask; reached says whether Redis takes the push.
    method EnqueueTask(q: Queue, j: Job, now: int, reached: bool) returns (r: Result<Task, string>)
      modifies this
      ensures r.Ok? <==> reached
      ensures store == if reached then Enqueue(old(store), q, j, now) else old(store)
      ensures r.Ok? ==> r.value == Prepared(j.task, now)
    {
      var task := j.task;
      if task.id.None? {
        task := task.(id := Some(now));
      }
      if task.createdAt.None? {
        task := task.(createdAt := Some(now));
      }
      if task.maxRetries == 0 {
        task := task.(maxRetries := 3);
      }
      if !reached {
        return Err("failed to enqueue task");
      }
      store := store.Push(q, j.(task := task));
      return Ok(task);
    }

    // DequeueTask: nothing when all the queues are empty.
    method DequeueTask(queueNames: seq<Queue>) returns (r: Option<Job>)
      modifies this
      ensures var names := if queueNames == [] then BY_PRIORITY else queueNames;
              var from := FirstNonEmpty(old(store), names);
              && (from.None? ==> r.None? && store == old(store))
              && (from.Some? ==>
                    var js := old(store).Get(from.value);
                    && js != [] && r == Some(Job(js[0].task, js[0].deliveries + 1))
                    && store == old(store).Set(from.value, js[1..]))
    {
      var names := if queueNames == [] then BY_PRIORITY else queueNames;
      for i := 0 to |names|
        invariant store == old(store)
        invariant FirstNonEmpty(store, names) == FirstNonEmpty(store, names[i..])
      {
        var js := store.Get(names[i]);
        if js != [] {
          store := store.Set(names[i], js[1..]);
          return Some(Job(js[0].task, js[0].deliveries + 1));
        }
      }
      return None;
    }

    method ScheduleTask(j: Job, at: int, reached: bool) returns (ok: bool)
      modifies this
      ensures ok == reached
      ensures store == if reached then Schedule(old(store), j, at) else old(store)
    {
      if !reached {
        return false;
      }
      var task := j.task.(scheduledAt := Some(at));
      store := store.(scheduled := ZAdd(store.scheduled, Entry(j.(task := task), Unix(at))));
      return true;
    }

    // ProcessScheduledTasks, when Redis answers.
    method ProcessScheduledTasks(now: int)
      modifies this
      ensures store == ProcessScheduled(old(store), now)
    {
      var due := Due(store.scheduled, Unix(now), 100);
      for i := 0 to |due|
        invariant MoveAll(store, due[i..], now) == ProcessScheduled(old(store), now)
      {
        var j := due[i].job;
        store := store.(scheduled := ZRem(store.scheduled, j.task));
        var queueName := Default;
        if j.task.kind == WorkflowExecution {
          queueName := High;
        }
        var _ := EnqueueTask(queueName, j, now, true);
      }
    }

    method RetryFailedTask(j: Job, now: int, reached: bool) returns (r: Result<Task, string>)
      modifies this
      ensures r.Ok? <==> reached
      ensures store == if reached then Retry(old(store), j, now) else old(store)
    {
      if j.task.retryCount >= j.task.maxRetries {
        r := EnqueueTask(Failed, j, now, reached);
        return;
      }
      var task := j.task.(retryCount := j.task.retryCount + 1);
      r := EnqueueTask(Low, j.(task := task), now, reached);
    }
  }
}
