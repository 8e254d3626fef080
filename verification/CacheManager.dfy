// pkg/cache/manager.go over pkg/cache/redis_cache.go: cached values with a time to live, without a
// secondary cache.  Cached values are opaque.
module CacheModel {
  import opened Wrappers

  type Value = int

  // A stored value: when it was fetched, when it was stored and how long it lives.  Redis keeps a
  // value stored with a time to live of zero for ever.
  datatype Entry = Entry(value: Value, fetchedAt: int, storedAt: int, ttl: int) {
    predicate Alive(now: int) { ttl > 0 ==> now < storedAt + ttl }
  }

  // redisCacheService.Set falls back to the default.
  function EffectiveTTL(ttl: int, defaultTTL: int): int {
    if ttl <= 0 then defaultTTL else ttl
  }

  // A value fetched but not yet stored: GetOrSet or a warm-up task between its two steps.
  datatype Fetched = Fetched(value: Value, at: int, ttl: int)

  // One key of the cache, with the fetches under way.
  datatype Key = Key(entry: Option<Entry>, pending: seq<Fetched>, now: int, invalidatedAt: Option<int>)

  datatype Event =
    | Fetch(value: Value, ttl: int, at: int)
    | Store(i: nat, at: int)
    | Invalidate(at: int)

  const UNUSED: Key := Key(None, [], 0, None)

  // Events that would turn the clock back do not happen.
  function Apply(k: Key, e: Event, defaultTTL: int): Key {
    if e.at < k.now then k
    else
      var k := k.(now := e.at);
      match e
      case Fetch(value, ttl, at) => k.(pending := k.pending + [Fetched(value, at, ttl)])
      case Store(i, at) =>
        if i < |k.pending| then
          var f := k.pending[i];
          k.(entry := Some(Entry(f.value, f.at, at, EffectiveTTL(f.ttl, defaultTTL))),
          pending := k.pending[..i] + k.pending[i + 1..])
        else k
      case Invalidate(at) => k.(entry := None, invalidatedAt := Some(at))
  }

  function Run(k: Key, events: seq<Event>, defaultTTL: int): Key
    decreases |events|
  {
    if events == [] then k else Run(Apply(k, events[0], defaultTTL), events[1..], defaultTTL)
  }

  // A hit returns the stored value while it lives.
  function Get(k: Key, at: int): Option<Value> {
    if k.entry.Some? && k.entry.value.Alive(at) then Some(k.entry.value.value) else None
  }
}

module CacheTheorems {
  import opened Wrappers
  import opened CacheModel

  ghost predicate Ordered(k: Key) {
    && (forall f :: f in k.pending ==> f.at <= k.now)
    && (k.entry.Some? ==> k.entry.value.fetchedAt <= k.entry.value.storedAt <= k.now)
    && (k.invalidatedAt.Some? ==> k.invalidatedAt.value <= k.now)
  }

  // Nothing here, stored or on its way, was fetched before the last invalidation.
  ghost predicate Current(k: Key) {
    k.invalidatedAt.Some? ==>
      && (k.entry.Some? ==> k.entry.value.fetchedAt >= k.invalidatedAt.value)
      && forall f :: f in k.pending ==> f.at >= k.invalidatedAt.value
  }

  lemma StepKeepsOrdered(k: Key, e: Event, defaultTTL: int)
    requires Ordered(k)
    ensures Ordered(Apply(k, e, defaultTTL))
    ensures Current(k) && (e.Invalidate? ==> k.pending == []) ==> Current(Apply(k, e, defaultTTL))
  {
    if e.Store? && e.i < |k.pending| { assert k.pending[e.i] in k.pending; }
  }

  // Every fetch is stored (or given up) before the key is invalidated.
  ghost predicate NoFetchAcross(k: Key, events: seq<Event>, defaultTTL: int)
    decreases |events|
  {
    events == [] ||
    ((events[0].Invalidate? ==> k.pending == [])
        && NoFetchAcross(Apply(k, events[0], defaultTTL), events[1..], defaultTTL))
  }

  lemma {:induction false} RunKeepsOrdered(k: Key, events: seq<Event>, defaultTTL: int)
    requires Ordered(k)
    ensures Ordered(Run(k, events, defaultTTL))
    ensures Current(k) && NoFetchAcross(k, events, defaultTTL) ==> Current(Run(k, events, defaultTTL))
    decreases |events|
  {
    if events != [] {
      StepKeepsOrdered(k, events[0], defaultTTL);
      RunKeepsOrdered(Apply(k, events[0], defaultTTL), events[1..], defaultTTL);
    }
  }

  ghost predicate PositiveTTLs(events: seq<Event>, defaultTTL: int, most: int) {
    forall e :: e in events && e.Fetch? ==> 0 < EffectiveTTL(e.ttl, defaultTTL) <= most
  }

  ghost predicate Bounded(k: Key, defaultTTL: int, most: int) {
    && (k.entry.Some? ==> 0 < k.entry.value.ttl <= most)
    && forall f :: f in k.pending ==> 0 < EffectiveTTL(f.ttl, defaultTTL) <= most
  }

  lemma {:induction false} RunKeepsBounded(k: Key, events: seq<Event>, defaultTTL: int, most: int)
    requires Bounded(k, defaultTTL, most) && PositiveTTLs(events, defaultTTL, most)
    ensures Bounded(Run(k, events, defaultTTL), defaultTTL, most)
    decreases |events|
  {
    if events != [] {
      var e := events[0];
      assert e in events;
      if e.Store? && e.i < |k.pending| { assert k.pending[e.i] in k.pending; }
      assert Bounded(Apply(k, e, defaultTTL), defaultTTL, most);
      assert forall x :: x in events[1..] ==> x in events;
      RunKeepsBounded(Apply(k, e, defaultTTL), events[1..], defaultTTL, most);
    }
  }

  // Under every interleaving of fetches, stores and invalidations, a hit at time t returns a value
  // stored after t - ttl.
  lemma StalenessIsBounded(events: seq<Event>, defaultTTL: int, most: int, t: int)
    requires PositiveTTLs(events, defaultTTL, most)
    ensures var k := Run(UNUSED, events, defaultTTL);
            Get(k, t).Some? ==> k.entry.value.storedAt > t - k.entry.value.ttl >= t - most
  {
    RunKeepsBounded(UNUSED, events, defaultTTL, most);
  }

  // GetOrSet and a warm-up run without interruption are a fetch and a store.
  lemma FetchAndStore(k: Key, value: Value, ttl: int, at: int, defaultTTL: int)
    requires k.pending == [] && k.now <= at
    ensures Run(k, [Fetch(value, ttl, at), Store(0, at)], defaultTTL)
         == k.(entry := Some(Entry(value, at, at, EffectiveTTL(ttl, defaultTTL))), now := at)
  {
    var events := [Fetch(value, ttl, at), Store(0, at)];
    var k1 := Apply(k, events[0], defaultTTL);
    assert k1.pending == [Fetched(value, at, ttl)];
    var k2 := Apply(k1, events[1], defaultTTL);
    assert events[1..] == [events[1]] && [events[1]][1..] == [];
    assert Run(k1, [events[1]], defaultTTL) == Run(k2, [], defaultTTL) == k2;
  }

  // A value is stored for the time to live it is given, if that is positive, and for the default one
  // otherwise; it is a hit exactly until then, and for ever if that is not positive either.
  lemma HitExactly(k: Key, value: Value, ttl: int, at: int, defaultTTL: int, t: int)
    requires k.pending == [] && k.now <= at
    ensures var stored := Run(k, [Fetch(value, ttl, at), Store(0, at)], defaultTTL);
            && (ttl > 0 ==> Get(stored, t) == if t < at + ttl then Some(value) else None)
            && (ttl <= 0 && defaultTTL > 0 ==> Get(stored, t) == if t < at + defaultTTL then Some(value) else None)
            && (ttl <= 0 && defaultTTL <= 0 ==> Get(stored, t) == Some(value))
  {
    FetchAndStore(k, value, ttl, at, defaultTTL);
  }

  // Without a default, a value stored with no time to live is a hit at every later time.
  lemma WithoutDefaultForever(k: Key, value: Value, at: int, t: int)
    requires k.pending == [] && k.now <= at
    ensures Get(Run(k, [Fetch(value, 0, at), Store(0, at)], 0), t) == Some(value)
  {
    FetchAndStore(k, value, 0, at, 0);
  }

  // When no fetch is under way at an invalidation, as when operations are atomic, no value fetched
  // before the last invalidation is ever returned.
  lemma NoStaleHits(events: seq<Event>, defaultTTL: int, t: int)
    requires NoFetchAcross(UNUSED, events, defaultTTL)
    ensures var k := Run(UNUSED, events, defaultTTL);
            Get(k, t).Some? && k.invalidatedAt.Some? ==> k.entry.value.fetchedAt >= k.invalidatedAt.value
  {
    RunKeepsOrdered(UNUSED, events, defaultTTL);
  }

  ghost predicate NoInvalidation(events: seq<Event>) {
    forall e :: e in events ==> !e.Invalidate?
  }

  // Everything stored or on its way was fetched at some time or later.
  ghost predicate FetchedSince(k: Key, at: int) {
    && (k.entry.Some? ==> k.entry.value.fetchedAt >= at)
    && (forall f :: f in k.pending ==> f.at >= at)
  }

  lemma {:induction false} RunKeepsFetchedSince(k: Key, events: seq<Event>, defaultTTL: int, at: int)
    requires FetchedSince(k, at) && k.now >= at
    ensures FetchedSince(Run(k, events, defaultTTL), at)
    decreases |events|
  {
    if events != [] {
      var e := events[0];
      if e.Store? && e.i < |k.pending| { assert k.pending[e.i] in k.pending; }
      RunKeepsFetchedSince(Apply(k, e, defaultTTL), events[1..], defaultTTL, at);
    }
  }

  // A hit on a value fetched before a time.
  predicate StaleHit(k: Key, t: int, at: int) {
    Get(k, t).Some? && k.entry.value.fetchedAt < at
  }

  // After this invalidation, nothing that happens until the next one makes an old value a hit.
  ghost predicate InvalidationHolds(k: Key, at: int, defaultTTL: int) {
    forall events, t :: NoInvalidation(events) ==>
        !StaleHit(Run(Apply(k, Invalidate(at), defaultTTL), events, defaultTTL), t, at)
  }

  lemma StoreBringsBack(k: Key, at: int, defaultTTL: int, i: nat)
    requires k.now <= at && i < |k.pending| && k.pending[i].at < at
    ensures !InvalidationHolds(k, at, defaultTTL)
  {
    var k1 := Apply(k, Invalidate(at), defaultTTL);
    var events := [Store(i, at)];
    var k2 := Apply(k1, events[0], defaultTTL);
    assert events[1..] == [] && Run(k1, events, defaultTTL) == Run(k2, [], defaultTTL) == k2;
    assert StaleHit(Run(k1, events, defaultTTL), at, at);
  }

  // An invalidation is effective exactly when no value fetched before it is still to be stored:
  // a fetch that straddles it brings the old value back as soon as it is stored.
  lemma StraddlingFetchIsStale(k: Key, at: int, defaultTTL: int)
    requires k.now <= at
    ensures InvalidationHolds(k, at, defaultTTL) <==> forall f :: f in k.pending ==> f.at >= at
  {
    if forall f :: f in k.pending ==> f.at >= at {
      var k1 := Apply(k, Invalidate(at), defaultTTL);
      forall events, t | NoInvalidation(events) ensures !StaleHit(Run(k1, events, defaultTTL), t, at) {
        RunKeepsFetchedSince(k1, events, defaultTTL, at);
      }
    } else {
      var i :| 0 <= i < |k.pending| && k.pending[i].at < at;
      StoreBringsBack(k, at, defaultTTL, i);
    }
  }
}

// The manager on all keys, one operation at a time.
module CacheManagers {
  import opened Wrappers
  import opened CacheModel

  class CacheManager {
    var entries: map<string, Entry>
    var hits: nat
    var misses: nat
    var sets: nat
    var deletes: nat
    var invalidations: nat
    const enabled: bool
    const defaultTTL: int

    constructor (enabled: bool, defaultTTL: int)
      ensures entries == map[] && this.enabled == enabled && this.defaultTTL == defaultTTL
    {
      this.enabled, this.defaultTTL, entries := enabled, defaultTTL, map[];
      hits, misses, sets, deletes, invalidations := 0, 0, 0, 0, 0;
    }

    predicate Holds(key: string, now: int)
      reads this
    {
      enabled && key in entries && entries[key].Alive(now)
    }

    method Get(key: string, now: int) returns (r: Option<Value>)
      modifies this`hits, this`misses
      ensures r == if Holds(key, now) then Some(entries[key].value) else None
      ensures hits == old(hits) + (if r.Some? then 1 else 0) && misses == old(misses) + if r.Some? then 0 else 1
    {
      if enabled && key in entries && entries[key].Alive(now) {
        hits := hits + 1;
        return Some(entries[key].value);
      }
      misses := misses + 1;
      return None;
    }

    method Set(key: string, value: Value, ttl: int, fetchedAt: int, now: int) returns (ok: bool)
      modifies this`entries, this`sets
      ensures ok == enabled && sets == old(sets) + 1
      ensures entries == if enabled
                         then old(entries)[key := Entry(value, fetchedAt, now, EffectiveTTL(ttl, defaultTTL))]
                         else old(entries)
    {
      sets := sets + 1;
      if !enabled {
        return false;
      }
      var life := ttl;
      if life <= 0 {
        life := defaultTTL;
      }
      entries := entries[key := Entry(value, fetchedAt, now, life)];
      return true;
    }

    // GetOrSet: the cached value, or the fetched one, which is then cached; nothing is cached when
    // the fetch fails.
    method GetOrSet(key: string, ttl: int, fetch: Option<Value>, now: int) returns (r: Option<Value>)
      modifies this`entries, this`hits, this`misses, this`sets
      ensures r == if old(Holds(key, now)) then Some(old(entries)[key].value) else fetch
      ensures entries == if !old(Holds(key, now)) && fetch.Some? && enabled
                         then old(entries)[key := Entry(fetch.value, now, now, EffectiveTTL(ttl, defaultTTL))]
                         else old(entries)
      ensures if old(Holds(key, now)) then hits == old(hits) + 1 && misses == old(misses) && sets == old(sets)
              else hits == old(hits) && misses == old(misses) + 1 && sets == old(sets) + if fetch.Some? then 1 else 0
    {
      r := Get(key, now);
      if r.Some? {
        return;
      }
      if fetch.None? {
        return None;
      }
      var _ := Set(key, fetch.value, ttl, now, now);
      return fetch;
    }

    method InvalidateKey(key: string) returns (ok: bool)
      modifies this`entries, this`deletes, this`invalidations
      ensures ok == enabled && entries == if enabled then old(entries) - {key} else old(entries)
      ensures invalidations == old(invalidations) + 1 && deletes == old(deletes) + 1
    {
      invalidations := invalidations + 1;
      deletes := deletes + 1;
      if enabled {
        entries := entries - {key};
      }
      return enabled;
    }

    // executeWarmupTask: fetches only what is not there.
    method ExecuteWarmup(key: string, ttl: int, fetch: Option<Value>, now: int) returns (ok: bool)
      modifies this`entries, this`sets
      ensures ok <==> old(Holds(key, now)) || (fetch.Some? && enabled)
      ensures entries == if !old(Holds(key, now)) && fetch.Some? && enabled
                         then old(entries)[key := Entry(fetch.value, now, now, EffectiveTTL(ttl, defaultTTL))]
                         else old(entries)
      ensures sets == old(sets) + if !old(Holds(key, now)) && fetch.Some? then 1 else 0
    {
      if enabled && key in entries && entries[key].Alive(now) {
        return true;
      }
      if fetch.None? {
        return false;
      }
      ok := Set(key, fetch.value, ttl, now, now);
    }
  }
}
