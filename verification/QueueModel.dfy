// internal/services/queue_service.go: tasks in Redis lists and a sorted set.
//
// A list is written oldest first, so LPUSH appends and BRPOP takes the first element.  A task's
// JSON encoding stands for the task: two tasks are the same member of the sorted set when all
// their fields agree.  Times are in nanoseconds; scores are whole seconds.
module QueueModel {
  import opened Wrappers

  const SECOND: int := 1_000_000_000

  datatype Kind = WorkflowExecution | Notification | WebhookCall | SlackMessage

  // id None is the empty ID, createdAt None the zero time.
  datatype Task = Task(
    id: Option<int>,
    kind: Kind,
    payload: int,
    retryCount: int,
    maxRetries: int,
    createdAt: Option<int>,
    scheduledAt: Option<int>)
  {
    // What never changes about a task.
    function Identity(): (Kind, int) { (kind, payload) }
  }

  // A task and how often it has been delivered to a consumer.
  datatype Job = Job(task: Task, deliveries: nat)

  datatype Queue = High | Default | Low | Failed

  datatype Entry = Entry(job: Job, score: int)

  datatype Store = Store(high: seq<Job>, normal: seq<Job>, low: seq<Job>, failed: seq<Job>, scheduled: seq<Entry>)
  {
    function Get(q: Queue): seq<Job> {
      match q
      case High => high
      case Default => normal
      case Low => low
      case Failed => failed
    }

    function Push(q: Queue, j: Job): Store {
      Set(q, Get(q) + [j])
    }

    function Set(q: Queue, js: seq<Job>): (s: Store)
      ensures s.Get(q) == js && s.scheduled == scheduled
      ensures forall p: Queue :: p != q ==> s.Get(p) == Get(p)
    {
      match q
      case High => this.(high := js)
      case Default => this.(normal := js)
      case Low => this.(low := js)
      case Failed => this.(failed := js)
    }
  }

  const EMPTY: Store := Store([], [], [], [], [])

  // What EnqueueTask fills in before it pushes.
  function Prepared(t: Task, now: int): Task {
    t.(id := if t.id.None? then Some(now) else t.id,
    createdAt := if t.createdAt.None? then Some(now) else t.createdAt,
    maxRetries := if t.maxRetries == 0 then 3 else t.maxRetries)
  }

  function Enqueue(s: Store, q: Queue, j: Job, now: int): Store {
    s.Push(q, j.(task := Prepared(j.task, now)))
  }

  // The first non-empty queue of a list of names.
  function FirstNonEmpty(s: Store, names: seq<Queue>): Option<Queue> {
    if names == [] then None
    else if s.Get(names[0]) != [] then Some(names[0])
    else FirstNonEmpty(s, names[1..])
  }

  const BY_PRIORITY: seq<Queue> := [High, Default, Low]

  function Unix(t: int): int { t / SECOND }

  predicate IsMember(entries: seq<Entry>, t: Task) {
    exists e :: e in entries && e.job.task == t
  }

  // ZADD: a new member goes behind the members whose score is not greater.
  function Insert(entries: seq<Entry>, e: Entry): seq<Entry> {
    if entries == [] || e.score < entries[0].score then [e] + entries
    else [entries[0]] + Insert(entries[1..], e)
  }

  function ZAdd(entries: seq<Entry>, e: Entry): seq<Entry> {
    if IsMember(entries, e.job.task) then entries else Insert(entries, e)
  }

  function Schedule(s: Store, j: Job, at: int): Store {
    var t := j.task.(scheduledAt := Some(at));
    s.(scheduled := ZAdd(s.scheduled, Entry(j.(task := t), Unix(at))))
  }

  // ZRANGEBYSCORE 0 now LIMIT 0 count, on entries in order of score.
  function Due(entries: seq<Entry>, now: int, count: nat): seq<Entry> {
    if entries == [] || count == 0 || entries[0].score > now then []
    else if entries[0].score < 0 then Due(entries[1..], now, count)
    else [entries[0]] + Due(entries[1..], now, count - 1)
  }

  // ZREM of a member.
  function ZRem(entries: seq<Entry>, t: Task): seq<Entry> {
    if entries == [] then []
    else if entries[0].job.task == t then entries[1..]
    else [entries[0]] + ZRem(entries[1..], t)
  }

  function TargetQueue(t: Task): Queue {
    if t.kind == WorkflowExecution then High else Default
  }

  function MoveAll(s: Store, due: seq<Entry>, now: int): Store
    decreases |due|
  {
    if due == [] then s
    else
      var j := due[0].job;
      MoveAll(Enqueue(s.(scheduled := ZRem(s.scheduled, j.task)), TargetQueue(j.task), j, now), due[1..], now)
  }

  function ProcessScheduled(s: Store, now: int): Store {
    MoveAll(s, Due(s.scheduled, Unix(now), 100), now)
  }

  function Retry(s: Store, j: Job, now: int): Store {
    if j.task.retryCount >= j.task.maxRetries then Enqueue(s, Failed, j, now)
    else Enqueue(s, Low, j.(task := j.task.(retryCount := j.task.retryCount + 1)), now)
  }
}
