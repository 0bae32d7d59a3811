/** The shared inventory cache: coalesced refreshes against a target that can change under them. */
module Inventory {
  import opened Wrappers

  type Url = string
  type Request = nat

  const FORCE_INTERVAL := 5

  /** A load: the target it reads, when it began, and at what generation of the cache. */
  datatype Load = Load(url: Url, begun: nat, generation: nat)

  /** `data` is the load the cached inventory came from. */
  datatype Cache = Cache(ts: int, key: Option<Url>, data: Option<Load>, generation: nat)

  /**
   `lock` is the request that holds the lock, `loads` what each request past it is waiting for,
   `waiting` those queued; `events` counts steps, and `invalidated` is the last invalidation's.
   */
  datatype State = State(cache: Cache, url: Url, ttl: nat, lock: Option<Request>, loads: map<Request, Load>,
                         waiting: map<Request, bool>, events: nat, invalidated: nat)

  datatype Event =
    | Ask(req: Request, force: bool)               // a refresh starts and queues for the lock
    | Enter(req: Request, now: int)                // it gets the lock
    | Finish(req: Request, now: int)               // its load is back
    | Abort(req: Request)                          // its load raised
    | Invalidate
    | Switch(url: Url)                             // the active connection changes

  function Init(url: Url, ttl: nat): State {
    State(Cache(0, None, None, 0), url, ttl, None, map[], map[], 1, 0)
  }

  /** The cached data is for this target and young enough. */
  predicate Fresh(c: Cache, url: Url, now: int, maxAge: int) {
    c.data.Some? && c.key == Some(url) && now - c.ts < maxAge
  }

  function Act(s: State, e: Event): State {
    match e
    case Ask(req, force) => if req in s.waiting || req in s.loads then s else s.(waiting := s.waiting[req := force])
    case Enter(req, now) =>
      if req !in s.waiting || s.lock.Some? then s
      else
        var s' := s.(waiting := s.waiting - {req});
        if Fresh(s.cache, s.url, now, if s.waiting[req] then FORCE_INTERVAL else s.ttl) then s'
        else s'.(lock := Some(req), loads := s.loads[req := Load(s.url, s.events, s.cache.generation)])
    case Finish(req, now) =>
      if req !in s.loads then s
      else
        var load, s' := s.loads[req], s.(lock := None, loads := s.loads - {req});
        if load.url == s.url && load.generation == s.cache.generation then
          s'.(cache := s.cache.(ts := now, key := Some(load.url), data := Some(load)))
        else s'
    case Abort(req) => if req !in s.loads then s else s.(lock := None, loads := s.loads - {req})
    case Invalidate =>
      s.(cache := Cache(0, None, None, s.cache.generation + 1), invalidated := s.events)
    case Switch(url) => s.(url := url)
  }

  function Step(s: State, e: Event): State {
    var s' := Act(s, e);
    s'.(events := s.events + 1)
  }

  function Run(s: State, events: seq<Event>): State
    decreases |events|
  {
    if events == [] then s else Run(Step(s, events[0]), events[1..])
  }

  /** A load is of the current generation exactly when it began after the last invalidation. */
  predicate LoadOk(s: State, load: Load) {
    && load.begun < s.events && load.generation <= s.cache.generation
    && (load.generation == s.cache.generation <==> load.begun > s.invalidated)
  }

  predicate Inv(s: State) {
    && s.invalidated < s.events
    && (forall r :: r in s.loads ==> s.lock == Some(r) && LoadOk(s, s.loads[r]))
    && (s.cache.data.Some? ==>
          && LoadOk(s, s.cache.data.value)
          && s.cache.data.value.generation == s.cache.generation
          && s.cache.key == Some(s.cache.data.value.url))
  }

  lemma StepKeepsInv(s: State, e: Event)
    requires Inv(s)
    ensures Inv(Step(s, e)) && s.invalidated <= Step(s, e).invalidated
  {
  }

  lemma {:induction false} RunKeepsInv(s: State, events: seq<Event>)
    requires Inv(s)
    ensures Inv(Run(s, events))
    decreases |events|
  {
    if events != [] {
      StepKeepsInv(s, events[0]);
      RunKeepsInv(Step(s, events[0]), events[1..]);
    }
  }

  /** At most one load is in flight at any time, and the request that began it has the lock. */
  lemma OneLoadInFlight(url: Url, ttl: nat, events: seq<Event>, r1: Request, r2: Request)
    ensures var s := Run(Init(url, ttl), events);
      && (r1 in s.loads ==> s.lock == Some(r1))
      && (r1 in s.loads && r2 in s.loads ==> r1 == r2)
  {
    RunKeepsInv(Init(url, ttl), events);
  }

  /**
   In every interleaving of refreshes, invalidations and target switches, cached data
   comes from a load begun after the latest invalidation, against the key it is under.
   */
  lemma CachedIsCurrent(url: Url, ttl: nat, events: seq<Event>)
    ensures var s := Run(Init(url, ttl), events);
      s.cache.data.Some? ==>
        && s.cache.data.value.begun > s.invalidated
        && s.cache.key == Some(s.cache.data.value.url)
  {
    RunKeepsInv(Init(url, ttl), events);
  }

  /** What fetch answers from the cache was read from the target active now, since the last invalidation. */
  lemma AnsweredFromCache(url: Url, ttl: nat, events: seq<Event>)
    ensures var s := Run(Init(url, ttl), events);
      s.cache.data.Some? && s.cache.key == Some(s.url) ==>
        s.cache.data.value.url == s.url && s.cache.data.value.begun > s.invalidated
  {
    RunKeepsInv(Init(url, ttl), events);
  }

  /** A load in flight when the cache is invalidated is never published, whatever happens before it is back. */
  lemma {:induction false} StaleLoadNeverPublished(s: State, events: seq<Event>, load: Load)
    requires Inv(s) && load.begun <= s.invalidated
    ensures Run(s, events).cache.data != Some(load)
    decreases |events|
  {
    if events == [] {
    } else {
      StepKeepsInv(s, events[0]);
      StaleLoadNeverPublished(Step(s, events[0]), events[1..], load);
    }
  }

  /** The cache and its lock, updated in place. */
  class InventoryCache {
    var cache: Cache
    var url: Url
    var ttl: nat
    var lock: Option<Request>
    var loads: map<Request, Load>
    var waiting: map<Request, bool>
    var events: nat
    ghost var invalidated: nat

    constructor (url: Url, ttl: nat)
      ensures View() == Init(url, ttl)
    {
      this.url, this.ttl := url, ttl;
      cache, lock, loads, waiting := Cache(0, None, None, 0), None, map[], map[];
      events, invalidated := 1, 0;
    }

    ghost function View(): State
      reads this
    {
      State(cache, url, ttl, lock, loads, waiting, events, invalidated)
    }

    /** Read from the target active now, by a load begun since the last invalidation. */
    ghost predicate Current(load: Load)
      reads this
    {
      load.url == url && load.begun > invalidated
    }

    /** A refresh starts: it queues for the lock. */
    method AskRefresh(req: Request, force: bool)
      requires req !in waiting && req !in loads
      modifies this
      ensures View() == Step(old(View()), Ask(req, force))
      ensures waiting == old(waiting)[req := force] && loads == old(loads) && lock == old(lock) && cache == old(cache)
      ensures Inv(old(View())) ==> Inv(View())
    {
      if Inv(View()) {
        StepKeepsInv(View(), Ask(req, force));
      }
      waiting := waiting[req := force];
      events := events + 1;
    }

    /** With the lock: answers from the cache when it is fresh, else begins a load. */
    method EnterRefresh(req: Request, now: int) returns (answer: Option<Load>)
      requires req in waiting && req !in loads && lock.None? && Inv(View())
      modifies this
      ensures View() == Step(old(View()), Enter(req, now)) && Inv(View())
      ensures answer.Some? <==>
        cache.data.Some? && cache.key == Some(url) && now - cache.ts < if old(waiting)[req] then 5 else ttl
      ensures answer.Some? ==> answer == cache.data && Current(answer.value) && lock.None? && loads == old(loads)
      ensures answer.None? ==> lock == Some(req) && req in loads && loads == old(loads)[req := loads[req]]
      ensures answer.None? ==> loads[req].url == url && loads[req].begun == old(events) > invalidated
      ensures waiting == old(waiting) - {req} && cache == old(cache) && url == old(url)
    {
      StepKeepsInv(View(), Enter(req, now));
      var key := url;
      var maxAge := if waiting[req] then FORCE_INTERVAL else ttl;
      waiting := waiting - {req};
      answer := None;
      if cache.data.Some? && cache.key == Some(key) && now - cache.ts < maxAge {
        answer := cache.data;
      } else {
        lock, loads := Some(req), loads[req := Load(key, events, cache.generation)];
      }
      events := events + 1;
    }

    /** The load is back: published only for the same target and generation it began with, which keeps the cache current. */
    method FinishRefresh(req: Request, now: int) returns (answer: Load)
      requires req in loads && Inv(View())
      modifies this
      ensures View() == Step(old(View()), Finish(req, now)) && Inv(View())
      ensures answer == old(loads)[req] && lock.None? && loads == map[]
      ensures if Current(answer) then cache.ts == now && cache.key == Some(url) && cache.data == Some(answer)
        else cache == old(cache)
      ensures waiting == old(waiting) && url == old(url) && invalidated == old(invalidated)
    {
      StepKeepsInv(View(), Finish(req, now));
      answer := loads[req];
      if answer.url == url && answer.generation == cache.generation {
        cache := cache.(ts := now, key := Some(answer.url), data := Some(answer));
      }
      lock, loads := None, loads - {req};
      events := events + 1;
    }

    method InvalidateInventory()
      modifies this
      ensures View() == Step(old(View()), Invalidate)
      ensures cache.data.None? && cache.key.None? && invalidated == old(events)
      ensures loads == old(loads) && lock == old(lock) && waiting == old(waiting) && url == old(url)
    {
      cache := Cache(0, None, None, cache.generation + 1);
      invalidated := events;
      events := events + 1;
    }

    /**
     What fetch does without waiting: it answers with cached data for this target, fresh or stale, and
     starts a refresh when it is stale. What it answers was read from the target active now, by a load begun
     since the last invalidation; it has to wait only when there is no such data in the cache.
     */
    method FetchCached(now: int) returns (answer: Option<Load>, refreshInBackground: bool)
      requires Inv(View())
      ensures answer.Some? ==> Current(answer.value) && answer == cache.data
      ensures answer.None? ==> cache.data.None? || cache.data.value.url != url
      ensures refreshInBackground <==> answer.Some? && now - cache.ts >= ttl
    {
      var sameTarget := cache.data.Some? && cache.key == Some(url);
      answer := if sameTarget then cache.data else None;
      refreshInBackground := sameTarget && now - cache.ts >= ttl;
    }
  }
}
