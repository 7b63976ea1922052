/**
 The request-scoped cache, `src/common/cache/request-cache.ts`, and its accessor
 `src/common/cache/request-cache-accessor.ts`.
 */
module RequestCaching {
  import opened Common

  /** What an asynchronous load ends in: a value or an exception. */
  datatype Outcome<+V> = Resolved(value: V) | Rejected(error: string)

  /** The promise of a running load. Every caller holding it sees the same outcome. */
  class Promise<V> {
    const key: string
    var outcome: Option<Outcome<V>>

    /** Calling the loader is what creates its promise. */
    constructor (key: string)
      ensures this.key == key && outcome == None
    {
      this.key := key;
      outcome := None;
    }

    /** A promise settles once. */
    method Settle(o: Outcome<V>)
      modifies this
      ensures outcome == if old(outcome).Some? then old(outcome) else Some(o)
    {
      if outcome.None? {
        outcome := Some(o);
      }
    }
  }

  class RequestCache<V> {
    var store: map<string, Promise<V>>

    constructor ()
      ensures store == map[]
    {
      store := map[];
    }

    /** Joins the load already started under the key, or starts one. */
    method GetOrLoad(key: string) returns (pending: Promise<V>)
      modifies this
      ensures key in old(store) ==> pending == old(store)[key] && store == old(store)
      ensures key !in old(store) ==>
                fresh(pending) && pending.key == key && pending.outcome == None && store == old(store)[key := pending]
    {
      if key in store {
        return store[key];
      }
      pending := new Promise(key);
      store := store[key := pending];
    }
  }

  /** The part of the request context the cache uses. The cache itself is created on demand. */
  class RequestContext<V> {
    var requestCache: RequestCache?<V>
    var requestHits: nat
    var requestMisses: nat

    constructor ()
      ensures requestCache == null && requestHits == 0 && requestMisses == 0
    {
      requestCache := null;
      requestHits := 0;
      requestMisses := 0;
    }

    ghost function Store(): map<string, Promise<V>>
      reads this, requestCache
    {
      if requestCache == null then map[] else requestCache.store
    }

    method GetRequestCache() returns (cache: RequestCache<V>)
      modifies this`requestCache
      ensures requestCache == cache && Store() == old(Store())
      ensures old(requestCache) == null ==> fresh(cache)
      ensures old(requestCache) != null ==> cache == old(requestCache)
    {
      if requestCache == null {
        requestCache := new RequestCache();
      }
      return requestCache;
    }
  }

  /** The part of `loadOncePerRequest` before its `await`: counts the call and joins or starts the load. */
  method LoadOncePerRequest<V>(ctx: RequestContext?<V>, key: string) returns (pending: Promise<V>)
    modifies if ctx == null then {} else {ctx} + if ctx.requestCache == null then {} else {ctx.requestCache}
    ensures ctx == null ==> fresh(pending) && pending.key == key && pending.outcome == None
    ensures ctx != null && key in old(ctx.Store()) ==>
              && pending == old(ctx.Store())[key] && ctx.Store() == old(ctx.Store())
              && ctx.requestHits == old(ctx.requestHits) + 1 && ctx.requestMisses == old(ctx.requestMisses)
    ensures ctx != null && key !in old(ctx.Store()) ==>
              && fresh(pending) && pending.key == key && pending.outcome == None
              && ctx.Store() == old(ctx.Store())[key := pending]
              && ctx.requestHits == old(ctx.requestHits) && ctx.requestMisses == old(ctx.requestMisses) + 1
  {
    var cache: RequestCache<V>;
    if ctx == null {
      cache := new RequestCache();
    } else {
      cache := ctx.GetRequestCache();
      if key in cache.store {
        ctx.requestHits := ctx.requestHits + 1;
      } else {
        ctx.requestMisses := ctx.requestMisses + 1;
      }
    }
    pending := cache.GetOrLoad(key);
  }
}

/**
 One request's calls to `loadOncePerRequest`, and the settling of the loads they start, in any
 order. Loaders are asynchronous: none settles, or calls back, before the call that starts it is done.
 */
module SingleFlight {
  import opened Common
  import opened RequestCaching

  /** A load that was started, with its outcome once it has one. */
  datatype Load<+V> = Load(key: string, outcome: Option<Outcome<V>>)

  datatype Call = Call(key: string, load: nat)

  datatype World<V> = World(
    hasContext: bool,
    store: map<string, nat>,
    loads: seq<Load<V>>,
    calls: seq<Call>,
    hits: nat,
    misses: nat)

  datatype Event<+V> =
    | Ask(key: string)
    | Settle(load: nat, outcome: Outcome<V>)

  function Init<V>(hasContext: bool): World<V> {
    World(hasContext, map[], [], [], 0, 0)
  }

  function Step<V>(w: World<V>, e: Event<V>): World<V> {
    match e
    case Ask(key) =>
      if !w.hasContext then
        w.(loads := w.loads + [Load(key, None)], calls := w.calls + [Call(key, |w.loads|)])
      else if key in w.store then
        w.(calls := w.calls + [Call(key, w.store[key])], hits := w.hits + 1)
      else
        w.(store := w.store[key := |w.loads|],
           loads := w.loads + [Load(key, None)],
           calls := w.calls + [Call(key, |w.loads|)],
           misses := w.misses + 1)
    case Settle(i, outcome) =>
      if i < |w.loads| && w.loads[i].outcome.None?
      then w.(loads := w.loads[i := Load(w.loads[i].key, Some(outcome))])
      else w
  }

  function Run<V>(w: World<V>, events: seq<Event<V>>): World<V>
    decreases events
  {
    if events == [] then w else Run(Step(w, events[0]), events[1..])
  }

  function KeysAsked<V>(events: seq<Event<V>>): set<string> {
    if events == [] then {} else KeysAsked(events[1..]) + if events[0].Ask? then {events[0].key} else {}
  }

  function Asks<V>(events: seq<Event<V>>): nat {
    if events == [] then 0 else Asks(events[1..]) + if events[0].Ask? then 1 else 0
  }

  ghost predicate Inv<V>(w: World<V>) {
    && w.hasContext
    && (forall k :: k in w.store ==> w.store[k] < |w.loads| && w.loads[w.store[k]].key == k)
    && (forall i :: 0 <= i < |w.loads| ==> w.loads[i].key in w.store && w.store[w.loads[i].key] == i)
    && (forall j :: 0 <= j < |w.calls| ==> w.calls[j].key in w.store && w.calls[j].load == w.store[w.calls[j].key])
    && |w.store| == w.misses == |w.loads|
    && w.hits + w.misses == |w.calls|
  }

  /** The callers of one key share one load, hence one outcome. */
  ghost predicate OneLoadPerKey<V>(w: World<V>) {
    && (forall i, j :: 0 <= i < j < |w.loads| ==> w.loads[i].key != w.loads[j].key)
    && (forall i :: 0 <= i < |w.calls| ==>
          w.calls[i].load < |w.loads| && w.loads[w.calls[i].load].key == w.calls[i].key)
    && (forall i, j :: 0 <= i < |w.calls| && 0 <= j < |w.calls| && w.calls[i].key == w.calls[j].key ==>
          w.calls[i].load == w.calls[j].load)
  }

  lemma StepKeepsInv<V>(w: World<V>, e: Event<V>)
    requires Inv(w)
    ensures Inv(Step(w, e))
  {
    if e.Ask? {
      if e.key in w.store {
        HitKeepsInv(w, e);
      } else {
        MissKeepsInv(w, e);
      }
    } else {
      SettleKeepsInv(w, e);
    }
  }

  lemma HitKeepsInv<V>(w: World<V>, e: Event<V>)
    requires Inv(w) && e.Ask? && e.key in w.store
    ensures Inv(Step(w, e))
  {
  }

  lemma MissKeepsInv<V>(w: World<V>, e: Event<V>)
    requires Inv(w) && e.Ask? && e.key !in w.store
    ensures Inv(Step(w, e))
  {
    var w' := Step(w, e);
    assert forall i :: 0 <= i < |w.loads| ==> w'.loads[i] == w.loads[i];
    assert forall j :: 0 <= j < |w.calls| ==> w'.calls[j] == w.calls[j];
  }

  lemma SettleKeepsInv<V>(w: World<V>, e: Event<V>)
    requires Inv(w) && e.Settle?
    ensures Inv(Step(w, e))
  {
  }

  lemma {:induction false} RunKeepsInv<V>(w: World<V>, events: seq<Event<V>>)
    requires Inv(w)
    ensures Inv(Run(w, events))
    decreases events
  {
    if events != [] {
      StepKeepsInv(w, events[0]);
      RunKeepsInv(Step(w, events[0]), events[1..]);
    }
  }

  lemma {:induction false} RunCollectsKeys<V>(w: World<V>, events: seq<Event<V>>)
    requires w.hasContext
    ensures Run(w, events).store.Keys == w.store.Keys + KeysAsked(events)
    ensures |Run(w, events).calls| == |w.calls| + Asks(events)
    decreases events
  {
    if events != [] {
      RunCollectsKeys(Step(w, events[0]), events[1..]);
    }
  }

  lemma InvGivesOneLoadPerKey<V>(w: World<V>)
    requires Inv(w)
    ensures OneLoadPerKey(w)
    ensures w.misses == |w.loads| == |w.store.Keys| && w.hits + w.misses == |w.calls|
  {
    assert |w.store| == |w.store.Keys|;
  }

  /**
   Within a request each key is loaded at most once, however calls and settlings interleave; all
   callers of a key share its outcome; the counters are exact.
   */
  lemma SingleFlightPerRequest<V>(events: seq<Event<V>>)
    ensures var w := Run(Init<V>(true), events);
            && OneLoadPerKey(w)
            && w.misses == |w.loads| == |KeysAsked(events)|
            && w.hits + w.misses == |w.calls| == Asks(events)
  {
    var start := Init<V>(true);
    var w := Run(start, events);
    assert OneLoadPerKey(w) && w.misses == |w.loads| == |w.store.Keys| && w.hits + w.misses == |w.calls| by {
      RunKeepsInv(start, events);
      InvGivesOneLoadPerKey(w);
    }
    assert w.store.Keys == KeysAsked(events) && |w.calls| == Asks(events) by {
      RunCollectsKeys(start, events);
    }
  }

  /** A load that has an outcome keeps it, failures included: callers yet to come get the same one. */
  lemma {:induction false} OutcomesAreFinal<V>(w: World<V>, events: seq<Event<V>>, i: nat)
    requires i < |w.loads|
    ensures var w' := Run(w, events);
            && i < |w'.loads|
            && w'.loads[i].key == w.loads[i].key
            && (w.loads[i].outcome.Some? ==> w'.loads[i] == w.loads[i])
    decreases events
  {
    if events != [] {
      OutcomesAreFinal(Step(w, events[0]), events[1..], i);
    }
  }

  /** Without a request context nothing is shared and nothing is counted: every call loads. */
  lemma {:induction false} NoContextNoSharing<V>(w: World<V>, events: seq<Event<V>>)
    requires !w.hasContext && |w.calls| == |w.loads|
    requires forall j :: 0 <= j < |w.calls| ==> w.calls[j].load == j
    ensures var w' := Run(w, events);
            && |w'.loads| == |w'.calls| == |w.calls| + Asks(events)
            && (forall j :: 0 <= j < |w'.calls| ==> w'.calls[j].load == j)
            && w'.hits == w.hits && w'.misses == w.misses
    decreases events
  {
    if events != [] {
      NoContextNoSharing(Step(w, events[0]), events[1..]);
    }
  }
}

/** The request cache as objects does what the steps of `SingleFlight` say. */
module SingleFlightRefinement {
  import opened Common
  import opened RequestCaching
  import opened SingleFlight

  /** The context, and the promises of the loads started so far, stand for the state. */
  ghost predicate Represents<V(!new)>(ctx: RequestContext<V>, promises: seq<Promise<V>>, w: World<V>)
    reads ctx, ctx.requestCache, promises
  {
    && w.hasContext
    && NoDuplicates(promises) && |promises| == |w.loads|
    && (forall i :: 0 <= i < |promises| ==>
          promises[i].key == w.loads[i].key && promises[i].outcome == w.loads[i].outcome)
    && ctx.Store().Keys == w.store.Keys
    && (forall k :: k in w.store ==> w.store[k] < |promises| && ctx.Store()[k] == promises[w.store[k]])
    && ctx.requestHits == w.hits && ctx.requestMisses == w.misses
  }

  /** A new context stands for the start. */
  method NewContext<V(!new)>() returns (ctx: RequestContext<V>)
    ensures fresh(ctx) && Represents(ctx, [], Init(true))
  {
    ctx := new RequestContext();
  }

  /** A call to `loadOncePerRequest` is the step of asking, and returns the promise of the load of that call. */
  method AskOnce<V(!new)>(ctx: RequestContext<V>, key: string, ghost promises: seq<Promise<V>>, ghost w: World<V>)
    returns (pending: Promise<V>, ghost promises': seq<Promise<V>>)
    requires Represents(ctx, promises, w)
    modifies {ctx} + if ctx.requestCache == null then {} else {ctx.requestCache}
    ensures Represents(ctx, promises', Step(w, Ask(key)))
    ensures var calls := Step(w, Ask(key)).calls;
            |calls| == |w.calls| + 1 && calls[|w.calls|].key == key
            && calls[|w.calls|].load < |promises'| && pending == promises'[calls[|w.calls|].load]
  {
    ghost var isKnown := key in ctx.Store();
    pending := LoadOncePerRequest(ctx, key);
    promises' := if isKnown then promises else promises + [pending];
  }

  /** The end of a load is the step of settling: its promise keeps the first outcome. */
  method SettleOnce<V(!new)>(
    ctx: RequestContext<V>, i: nat, outcome: Outcome<V>, promise: Promise<V>, ghost promises: seq<Promise<V>>,
    ghost w: World<V>)
    requires Represents(ctx, promises, w) && i < |promises| && promise == promises[i]
    modifies promise
    ensures Represents(ctx, promises, Step(w, Settle(i, outcome)))
  {
    promise.Settle(outcome);
  }
}
