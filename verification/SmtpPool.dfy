// The connection pool of pkg/email/smtp_service.go: a bounded channel of connections, shared by
// senders, the initial fill and the clean-up worker, up to the shutdown of the service.
module SmtpPool {
  import opened Wrappers
  import opened Pigeonhole

  type Conn = nat

  // held: taken from the pool, or created, but neither checked out nor back yet.
  datatype Pool = Pool(
    channel: seq<Conn>,
    checkedOut: set<Conn>,
    held: set<Conn>,
    closed: set<Conn>,
    created: nat,
    activeConns: int,
    capacity: nat)

  datatype Event =
    | Create              // createConnection succeeds
    | Take                // a receive from the channel that finds a connection
    | Lend(c: Conn)       // getConnection hands a held connection out
    | GiveBack(c: Conn)   // releaseConnection counts it down
    | Offer(c: Conn)      // a send to the channel; when it is full the connection is closed
    | Close(c: Conn)      // an invalid connection is closed

  function Apply(p: Pool, e: Event): Pool {
    match e
    case Create => p.(held := p.held + {p.created}, created := p.created + 1)
    case Take => if p.channel == [] then p else p.(channel := p.channel[1..], held := p.held + {p.channel[0]})
    case Lend(c) =>
      if c in p.held
      then p.(held := p.held - {c}, checkedOut := p.checkedOut + {c}, activeConns := p.activeConns + 1)
      else p
    case GiveBack(c) =>
      if c in p.checkedOut
      then p.(checkedOut := p.checkedOut - {c}, held := p.held + {c}, activeConns := p.activeConns - 1)
      else p
    case Offer(c) =>
      if c !in p.held then p
      else if |p.channel| < p.capacity then p.(held := p.held - {c}, channel := p.channel + [c])
      else p.(held := p.held - {c}, closed := p.closed + {c})
    case Close(c) => if c in p.held then p.(held := p.held - {c}, closed := p.closed + {c}) else p
  }

  function Run(p: Pool, events: seq<Event>): Pool
    decreases |events|
  {
    if events == [] then p else Run(Apply(p, events[0]), events[1..])
  }

  function Fresh(capacity: nat): Pool {
    Pool([], {}, {}, {}, 0, 0, capacity)
  }

  // The number of places a connection is in.
  function Places(p: Pool, c: Conn): nat {
    (if c in p.channel then 1 else 0) + (if c in p.checkedOut then 1 else 0)
    + (if c in p.held then 1 else 0) + (if c in p.closed then 1 else 0)
  }

  ghost predicate Owned(p: Pool) {
    && (forall c: Conn :: Places(p, c) == if c < p.created then 1 else 0)
    && Distinct(p.channel)
    && |p.channel| <= p.capacity
    && p.activeConns == |p.checkedOut|
  }

  lemma Receive(channel: seq<Conn>)
    requires channel != [] && Distinct(channel)
    ensures Distinct(channel[1..])
    ensures forall c: Conn :: c in channel[1..] <==> c in channel && c != channel[0]
  {
    assert forall c :: c in channel <==> c == channel[0] || c in channel[1..];
  }

  lemma StepKeepsOwned(p: Pool, e: Event)
    requires Owned(p)
    ensures Owned(Apply(p, e))
  {
    var q := Apply(p, e);
    if e.Take? && p.channel != [] { Receive(p.channel); }
    if e.Lend? || e.GiveBack? || e.Offer? || e.Close? { assert Places(p, e.c) <= 1; }
    if e.Create? { assert Places(p, p.created) == 0; }
    forall c: Conn ensures Places(q, c) == if c < q.created then 1 else 0 {
      assert Places(p, c) == if c < p.created then 1 else 0;
    }
  }

  lemma {:induction false} RunKeepsOwned(p: Pool, events: seq<Event>)
    requires Owned(p)
    ensures Owned(Run(p, events))
    decreases |events|
  {
    if events != [] {
      StepKeepsOwned(p, events[0]);
      RunKeepsOwned(Apply(p, events[0]), events[1..]);
    }
  }

  // Under every interleaving before shutdown each connection ever created is in exactly one of the
  // pool, use, somebody's hands between the two, or closed, so a closed one is never pooled or
  // handed out; the pool is within its capacity; activeConns counts the connections in use.
  lemma ConnectionsHaveOneOwner(capacity: nat, events: seq<Event>, c: Conn)
    ensures var p := Run(Fresh(capacity), events);
            && Places(p, c) == (if c < p.created then 1 else 0)
            && |p.channel| <= capacity && Distinct(p.channel)
            && p.activeConns == |p.checkedOut|
  {
    RunKeepsOwned(Fresh(capacity), events);
    RunKeepsCapacity(Fresh(capacity), events);
    assert Owned(Run(Fresh(capacity), events));
  }

  lemma {:induction false} RunKeepsCapacity(p: Pool, events: seq<Event>)
    ensures Run(p, events).capacity == p.capacity
    decreases |events|
  {
    if events != [] { RunKeepsCapacity(Apply(p, events[0]), events[1..]); }
  }

  // ----- The order of the channel -----

  // What was put into the channel and what was taken out of it, in order.
  function PutIn(p: Pool, events: seq<Event>): seq<Conn>
    decreases |events|
  {
    if events == [] then []
    else
      var q := Apply(p, events[0]);
      (if events[0].Offer? && |q.channel| > |p.channel| then [events[0].c] else []) + PutIn(q, events[1..])
  }

  function TakenOut(p: Pool, events: seq<Event>): seq<Conn>
    decreases |events|
  {
    if events == [] then []
    else
      var q := Apply(p, events[0]);
      (if events[0].Take? && p.channel != [] then [p.channel[0]] else []) + TakenOut(q, events[1..])
  }

  lemma OneStepOfChannel(p: Pool, e: Event)
    ensures p.channel + PutIn(p, [e]) == TakenOut(p, [e]) + Apply(p, e).channel
  {
    var q := Apply(p, e);
    assert [e][1..] == [] && PutIn(q, []) == [] && TakenOut(q, []) == [];
    if e.Take? && p.channel != [] { assert p.channel == [p.channel[0]] + p.channel[1..]; }
  }

  lemma FirstOfChannel(p: Pool, e: Event, rest: seq<Event>)
    ensures PutIn(p, [e] + rest) == PutIn(p, [e]) + PutIn(Apply(p, e), rest)
    ensures TakenOut(p, [e] + rest) == TakenOut(p, [e]) + TakenOut(Apply(p, e), rest)
  {
    assert ([e] + rest)[1..] == rest && [e][1..] == [];
  }

  lemma {:induction false} ChannelKeepsOrder(p: Pool, events: seq<Event>)
    ensures p.channel + PutIn(p, events) == TakenOut(p, events) + Run(p, events).channel
    decreases |events|
  {
    if events != [] {
      var e, q, rest := events[0], Apply(p, events[0]), events[1..];
      OneStepOfChannel(p, e);
      ChannelKeepsOrder(q, rest);
      assert events == [e] + rest;
      FirstOfChannel(p, e, rest);
      Regroup(p.channel, PutIn(p, [e]), PutIn(q, rest),
              TakenOut(p, [e]), q.channel, TakenOut(q, rest), Run(q, rest).channel);
    }
  }

  lemma Regroup(
    channel: seq<Conn>, putFirst: seq<Conn>, putRest: seq<Conn>, takenFirst: seq<Conn>, next: seq<Conn>,
    takenRest: seq<Conn>, last: seq<Conn>)
    requires channel + putFirst == takenFirst + next && next + putRest == takenRest + last
    ensures channel + (putFirst + putRest) == (takenFirst + takenRest) + last
  {
    assert channel + (putFirst + putRest) == (channel + putFirst) + putRest;
    assert (takenFirst + next) + putRest == takenFirst + (next + putRest);
  }

  // Under every interleaving connections leave the pool in the order they came into it.
  lemma ConnectionsAreFifo(capacity: nat, events: seq<Event>)
    ensures var p := Fresh(capacity);
            PutIn(p, events) == TakenOut(p, events) + Run(p, events).channel
  {
    ChannelKeepsOrder(Fresh(capacity), events);
  }

  // A connection given back and offered goes to the end of the pool if there is room, and is closed
  // otherwise; one given back and closed is closed.  It is not counted any more.
  lemma ReleaseMeans(p: Pool, c: Conn)
    requires Owned(p) && c in p.checkedOut
    ensures var q := p.(checkedOut := p.checkedOut - {c}, activeConns := p.activeConns - 1);
            && Apply(Apply(p, GiveBack(c)), Offer(c)) ==
               (if |p.channel| < p.capacity then q.(channel := p.channel + [c]) else q.(closed := p.closed + {c}))
            && Apply(Apply(p, GiveBack(c)), Close(c)) == q.(closed := p.closed + {c})
  {
    assert Places(p, c) <= 1;
    assert p.held + {c} - {c} == p.held;
  }

  // ----- The service's own operations, each run to its end -----

  function Only(c: Conn, valid: set<Conn>): seq<Conn> {
    if c in valid then [c] else []
  }

  function Kept(channel: seq<Conn>, valid: set<Conn>): seq<Conn> {
    if channel == [] then [] else Only(channel[0], valid) + Kept(channel[1..], valid)
  }

  function Dropped(channel: seq<Conn>, valid: set<Conn>): set<Conn> {
    set c | c in channel && c !in valid
  }

  function Unless(c: Conn, valid: set<Conn>): set<Conn> {
    if c in valid then {} else {c}
  }

  lemma DrainOne(channel: seq<Conn>, valid: set<Conn>, alive: seq<Conn>, closed: set<Conn>)
    requires channel != []
    ensures alive + Kept(channel, valid) == alive + Only(channel[0], valid) + Kept(channel[1..], valid)
    ensures closed + Dropped(channel, valid) == closed + Unless(channel[0], valid) + Dropped(channel[1..], valid)
  {
    assert forall c :: c in channel <==> c == channel[0] || c in channel[1..];
  }

  lemma {:induction false} KeptLength(channel: seq<Conn>, valid: set<Conn>)
    ensures |Kept(channel, valid)| <= |channel|
  {
    if channel != [] { KeptLength(channel[1..], valid); }
  }

  lemma {:induction false} KeptMembers(channel: seq<Conn>, valid: set<Conn>)
    ensures forall c :: c in Kept(channel, valid) <==> c in channel && c in valid
    ensures Distinct(channel) ==> Distinct(Kept(channel, valid))
  {
    if channel != [] {
      var head, tail := channel[0], channel[1..];
      KeptMembers(tail, valid);
      assert forall c :: c in channel <==> c == head || c in tail;
      if Distinct(channel) { assert head !in tail; }
    }
  }

  // The valid connections are kept in their order.
  lemma {:induction false} KeptInOrder(a: seq<Conn>, b: seq<Conn>, c: Conn, valid: set<Conn>)
    ensures Kept(a + b, valid) == Kept(a, valid) + Kept(b, valid)
    ensures Kept([c], valid) == if c in valid then [c] else []
    ensures Kept([], valid) == []
  {
    assert [c][1..] == [];
    if a == [] {
      assert a + b == b;
    } else {
      assert (a + b)[1..] == a[1..] + b;
      KeptInOrder(a[1..], b, c, valid);
    }
  }

  // Keeping the valid connections and closing the others leaves every connection in one place.
  lemma CleaningKeepsOwned(p: Pool, valid: set<Conn>)
    requires Owned(p)
    ensures Owned(p.(channel := Kept(p.channel, valid), closed := p.closed + Dropped(p.channel, valid)))
  {
    var q := p.(channel := Kept(p.channel, valid), closed := p.closed + Dropped(p.channel, valid));
    KeptMembers(p.channel, valid);
    KeptLength(p.channel, valid);
    forall c: Conn ensures Places(q, c) == if c < q.created then 1 else 0 {
      assert Places(q, c) == Places(p, c);
    }
  }

  // What getConnection does to the pool once it has nothing valid from the channel.
  function Connected(p: Pool): Pool {
    Apply(Apply(p, Create), Lend(p.created))
  }

  lemma ConnectedEffect(p: Pool)
    requires Owned(p)
    ensures p.created !in p.checkedOut && p.created !in p.held
    ensures Connected(p) == p.(checkedOut := p.checkedOut + {p.created}, created := p.created + 1,
                               activeConns := p.activeConns + 1)
    ensures Owned(Connected(p))
  {
    assert Places(p, p.created) == 0;
    StepKeepsOwned(p, Create);
    StepKeepsOwned(Apply(p, Create), Lend(p.created));
  }

  // A connection taken from the channel is lent or closed.
  lemma TakenEffect(p: Pool)
    requires Owned(p) && p.channel != []
    ensures var c := p.channel[0];
            && c !in p.checkedOut && c !in p.held
            && Apply(Apply(p, Take), Lend(c)) ==
               p.(channel := p.channel[1..], checkedOut := p.checkedOut + {c}, activeConns := p.activeConns + 1)
            && Apply(Apply(p, Take), Close(c)) == p.(channel := p.channel[1..], closed := p.closed + {c})
            && Owned(Apply(Apply(p, Take), Lend(c))) && Owned(Apply(Apply(p, Take), Close(c)))
  {
    var c := p.channel[0];
    assert c in p.channel && Places(p, c) <= 1;
    StepKeepsOwned(p, Take);
    StepKeepsOwned(Apply(p, Take), Lend(c));
    StepKeepsOwned(Apply(p, Take), Close(c));
  }

  class SMTPService {
    var connPool: seq<Conn>
    var activeConns: int
    var inUse: set<Conn>
    const maxConnections: nat
    ghost var closed: set<Conn>
    var created: nat

    ghost function View(): Pool
      reads this
    {
      Pool(connPool, inUse, {}, closed, created, activeConns, maxConnections)
    }

    constructor (maxConnections: nat)
      ensures View() == Fresh(maxConnections)
    {
      this.maxConnections, connPool, activeConns, inUse, closed, created := maxConnections, [], 0, {}, {}, 0;
    }

    // A new connection, handed out.
    method Connect(canConnect: bool) returns (r: Option<Conn>)
      requires Owned(View())
      modifies this
      ensures Owned(View())
      ensures if canConnect then r == Some(old(created)) && View() == Connected(old(View()))
              else r == None && View() == old(View())
    {
      if !canConnect {
        return None;
      }
      ConnectedEffect(View());
      var conn := created;
      created := created + 1;
      inUse := inUse + {conn};
      activeConns := activeConns + 1;
      return Some(conn);
    }

    // getConnection: a pooled connection if it is still valid, and otherwise a new one.
    method GetConnection(valid: set<Conn>, canConnect: bool) returns (r: Option<Conn>)
      requires Owned(View())
      modifies this
      ensures Owned(View())
      ensures var p := old(View());
              if p.channel != [] && p.channel[0] in valid then
                r == Some(p.channel[0]) && View() == Apply(Apply(p, Take), Lend(p.channel[0]))
              else
                var q := if p.channel == [] then p else Apply(Apply(p, Take), Close(p.channel[0]));
                if canConnect then r == Some(q.created) && View() == Connected(q) else r == None && View() == q
    {
      ghost var p := View();
      if connPool != [] {
        TakenEffect(p);
        var conn := connPool[0];
        connPool := connPool[1..];
        if conn in valid {
          inUse := inUse + {conn};
          activeConns := activeConns + 1;
          assert View() == Apply(Apply(p, Take), Lend(conn));
          return Some(conn);
        }
        closed := closed + {conn};
        assert View() == Apply(Apply(p, Take), Close(conn));
      }
      r := Connect(canConnect);
    }

    // releaseConnection: back to the pool when valid and there is room, and closed otherwise.
    method ReleaseConnection(conn: Conn, valid: bool)
      requires Owned(View()) && conn in inUse
      modifies this
      ensures Owned(View())
      ensures View() == Apply(Apply(old(View()), GiveBack(conn)), if valid then Offer(conn) else Close(conn))
    {
      ghost var p := View();
      StepKeepsOwned(p, GiveBack(conn));
      StepKeepsOwned(Apply(p, GiveBack(conn)), Offer(conn));
      StepKeepsOwned(Apply(p, GiveBack(conn)), Close(conn));
      activeConns := activeConns - 1;
      inUse := inUse - {conn};
      if valid && |connPool| < maxConnections {
        connPool := connPool + [conn];
      } else {
        closed := closed + {conn};
      }
    }

    method Drain(valid: set<Conn>) returns (alive: seq<Conn>)
      modifies this`connPool, this`closed
      ensures connPool == [] && alive == Kept(old(connPool), valid)
      ensures closed == old(closed) + Dropped(old(connPool), valid)
    {
      alive := [];
      while connPool != []
        invariant alive + Kept(connPool, valid) == Kept(old(connPool), valid)
        invariant closed + Dropped(connPool, valid) == old(closed) + Dropped(old(connPool), valid)
        decreases |connPool|
      {
        ghost var aliveBefore, closedBefore := alive, closed;
        DrainOne(connPool, valid, alive, closed);
        var conn := connPool[0];
        connPool := connPool[1..];
        if conn in valid {
          alive := alive + [conn];
        } else {
          closed := closed + {conn};
        }
        assert alive == aliveBefore + Only(conn, valid) && closed == closedBefore + Unless(conn, valid);
      }
    }

    // Puts connections into an empty channel, in order, and closes those it has no room for.
    method Refill(alive: seq<Conn>)
      requires connPool == []
      modifies this`connPool, this`closed
      ensures var room := if |alive| < maxConnections then |alive| else maxConnections;
              connPool == alive[..room] && closed == old(closed) + set c | c in alive[room..]
    {
      for i := 0 to |alive|
        invariant connPool == alive[..if i < maxConnections then i else maxConnections]
        invariant closed == old(closed) + set k | maxConnections <= k < i :: alive[k]
      {
        var conn := alive[i];
        if |connPool| < maxConnections {
          connPool := connPool + [conn];
        } else {
          closed := closed + {conn};
        }
      }
    }

    // cleanupConnections: drains the channel and puts the valid connections back in order.
    method CleanupConnections(valid: set<Conn>)
      requires Owned(View())
      modifies this`connPool, this`closed
      ensures Owned(View())
      ensures connPool == Kept(old(connPool), valid)
      ensures closed == old(closed) + Dropped(old(connPool), valid)
    {
      ghost var p := View();
      CleaningKeepsOwned(p, valid);
      KeptLength(connPool, valid);
      var alive := Drain(valid);
      Refill(alive);
      assert closed == p.closed + Dropped(p.channel, valid);
      assert View() == p.(channel := Kept(p.channel, valid), closed := p.closed + Dropped(p.channel, valid));
    }
  }
}
