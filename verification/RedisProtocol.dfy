/**
 `getOrLoad` of `src/common/cache/redis-cache.ts` under concurrency, for one key: many processes read
 through the key while the source changes, and those who change it delete the key, as
 `src/repositories/vendor-price-override.repository.ts` does for the overrides of a vendor and version.
 Keys do not share anything, so one key stands for all.
 */
module RedisProtocol {
  import opened Common
  import opened History
  import opened TtlCaching

  /** How far a call has got: each stage ends at an `await`. */
  datatype Flight<+V> = AwaitRedis | AwaitSource | Read(reading: Reading<V>)

  datatype Answer<+V> = Answer(ticket: nat, at: int, fromCache: bool, reading: Reading<V>)

  /** `sets` holds the writes to Redis that are under way: they are not awaited. */
  datatype World<V> = World(
    now: int,
    source: V,
    past: seq<Moment<V>>,
    redis: Slot<Reading<V>>,
    flights: map<nat, Flight<V>>,
    sets: map<nat, Reading<V>>,
    asked: nat,
    answers: seq<Answer<V>>)

  /** A lost connection shows as a reply that is not `up`, a `SetLost`, or a missing `Delete`. */
  datatype Event<+V> =
    | Tick(to: int)
    | Change(value: V)
    | Ask
    | Reply(ticket: nat, up: bool)
    | Query(ticket: nat)
    | Settle(ticket: nat)
    | Fail(ticket: nat)
    | SetLands(ticket: nat)
    | SetLost(ticket: nat)
    | Delete

  /** `lag` bounds the delay between reading the source and storing what was read. */
  datatype Config = Config(ttlMs: int, lag: nat)

  function Init<V>(start: int, v: V): World<V> {
    World(start, v, [Moment(start, v)], EmptySlot(), map[], map[], 0, [])
  }

  predicate MaySettle<V>(c: Config, w: World<V>, ticket: nat) {
    ticket in w.flights && w.flights[ticket].Read? && w.now - w.flights[ticket].reading.at <= c.lag
  }

  predicate MayLand<V>(c: Config, w: World<V>, ticket: nat) {
    ticket in w.sets && w.now - w.sets[ticket].at <= c.lag
  }

  function Replied<V>(w: World<V>, ticket: nat, up: bool): World<V> {
    if ticket !in w.flights || !w.flights[ticket].AwaitRedis? then w
    else if up && w.redis.Lookup(w.now).Some? then
      w.(flights := w.flights - {ticket},
         answers := w.answers + [Answer(ticket, w.now, true, w.redis.value.value)])
    else w.(flights := w.flights[ticket := AwaitSource])
  }

  function Queried<V>(w: World<V>, ticket: nat): World<V> {
    if ticket in w.flights && w.flights[ticket].AwaitSource?
    then w.(flights := w.flights[ticket := Read(Reading(w.source, w.now, Latest(w.past)))])
    else w
  }

  /** The load is answered, and its write to Redis starts. */
  function Settled<V>(c: Config, w: World<V>, ticket: nat): World<V> {
    if !MaySettle(c, w, ticket) then w
    else
      var reading := w.flights[ticket].reading;
      w.(flights := w.flights - {ticket},
         sets := w.sets[ticket := reading],
         answers := w.answers + [Answer(ticket, w.now, false, reading)])
  }

  function Landed<V>(c: Config, w: World<V>, ticket: nat): World<V> {
    if MayLand(c, w, ticket)
    then w.(redis := Stored(c.ttlMs, w.sets[ticket], w.now), sets := w.sets - {ticket})
    else w
  }

  function Step<V>(c: Config, w: World<V>, e: Event<V>): World<V> {
    match e
    case Tick(to) => if w.now <= to then w.(now := to) else w
    case Change(v) => w.(source := v, past := w.past + [Moment(w.now, v)])
    case Ask => w.(asked := w.asked + 1, flights := w.flights[w.asked := AwaitRedis])
    case Reply(ticket, up) => Replied(w, ticket, up)
    case Query(ticket) => Queried(w, ticket)
    case Settle(ticket) => Settled(c, w, ticket)
    case Fail(ticket) => w.(flights := w.flights - {ticket})
    case SetLands(ticket) => Landed(c, w, ticket)
    case SetLost(ticket) => w.(sets := w.sets - {ticket})
    case Delete => w.(redis := EmptySlot())
  }

  function Run<V>(c: Config, w: World<V>, events: seq<Event<V>>): World<V>
    decreases events
  {
    if events == [] then w else Run(c, Step(c, w, events[0]), events[1..])
  }

  // ---------- every answer is a recent value of the source

  ghost predicate Recent<V>(c: Config, w: World<V>, a: Answer<V>) {
    && Genuine(w.past, a.reading)
    && a.reading.at <= a.at <= w.now
    && (a.fromCache ==> a.at - c.ttlMs - c.lag < a.reading.at)
    && (!a.fromCache ==> a.at - c.lag <= a.reading.at)
  }

  ghost predicate Inv<V>(c: Config, w: World<V>) {
    && UpTo(w.past, w.source, w.now)
    && (w.redis.value.Some? ==>
          && Genuine(w.past, w.redis.value.value) && w.redis.value.value.at <= w.now
          && w.redis.expiresAt - c.ttlMs - c.lag <= w.redis.value.value.at)
    && (forall t :: t in w.flights ==> t < w.asked)
    && (forall t :: t in w.flights && w.flights[t].Read? ==>
          Genuine(w.past, w.flights[t].reading) && w.flights[t].reading.at <= w.now)
    && (forall t :: t in w.sets ==> Genuine(w.past, w.sets[t]) && w.sets[t].at <= w.now)
    && (forall i :: 0 <= i < |w.answers| ==> w.answers[i].ticket < w.asked && Recent(c, w, w.answers[i]))
  }

  lemma RepliedKeepsInv<V(!new)>(c: Config, w: World<V>, ticket: nat, up: bool)
    requires Inv(c, w)
    ensures Inv(c, Replied(w, ticket, up))
  {
  }

  lemma SettledKeepsInv<V(!new)>(c: Config, w: World<V>, ticket: nat)
    requires Inv(c, w)
    ensures Inv(c, Settled(c, w, ticket))
  {
  }

  lemma StepKeepsInv<V(!new)>(c: Config, w: World<V>, e: Event<V>)
    requires Inv(c, w)
    ensures Inv(c, Step(c, w, e))
  {
    if e.Reply? {
      RepliedKeepsInv(c, w, e.ticket, e.up);
    } else if e.Settle? {
      SettledKeepsInv(c, w, e.ticket);
    }
  }

  lemma {:induction false} RunKeepsInv<V(!new)>(c: Config, w: World<V>, events: seq<Event<V>>)
    requires Inv(c, w)
    ensures Inv(c, Run(c, w, events))
    decreases events
  {
    if events != [] {
      StepKeepsInv(c, w, events[0]);
      RunKeepsInv(c, Step(c, w, events[0]), events[1..]);
    }
  }

  /** In every interleaving, outages included, every answer was the source's value less than ttl + lag before. */
  lemma AnswersAreRecent<V(!new)>(c: Config, start: int, v: V, events: seq<Event<V>>)
    ensures var w := Run(c, Init(start, v), events);
            forall i :: 0 <= i < |w.answers| ==> Recent(c, w, w.answers[i])
  {
    RunKeepsInv(c, Init(start, v), events);
  }

  ghost predicate NotAnsweredSince<V>(before: World<V>, w: World<V>, ticket: nat) {
    && ticket < w.asked && ticket !in w.flights && |before.answers| <= |w.answers|
    && forall i :: |before.answers| <= i < |w.answers| ==> w.answers[i].ticket != ticket
  }

  lemma {:induction false} NeverAnswered<V>(
    c: Config, before: World<V>, w: World<V>, ticket: nat, events: seq<Event<V>>)
    requires NotAnsweredSince(before, w, ticket)
    ensures NotAnsweredSince(before, Run(c, w, events), ticket)
    decreases events
  {
    if events != [] {
      NeverAnswered(c, before, Step(c, w, events[0]), ticket, events[1..]);
    }
  }

  /** A call whose load fails is rejected: it gets no answer in any continuation, and leaves the cache alone. */
  lemma FailedLoadIsNotAnswered<V>(c: Config, w: World<V>, ticket: nat, events: seq<Event<V>>)
    requires ticket < w.asked
    ensures NotAnsweredSince(w, Run(c, Step(c, w, Fail(ticket)), events), ticket)
    ensures Step(c, w, Fail(ticket)).redis == w.redis
  {
    NeverAnswered(c, w, Step(c, w, Fail(ticket)), ticket, events);
  }

  // ---------- what a delete guarantees to later reads

  ghost predicate LaterAnswersFresh<V>(before: World<V>, w: World<V>) {
    forall i :: 0 <= i < |w.answers| && before.asked <= w.answers[i].ticket ==>
      Latest(before.past) <= w.answers[i].reading.moment
  }

  /** However the run continues, a call made after the delete gets a value read at or after it. */
  ghost predicate DeleteIsEffective<V(!new)>(c: Config, w: World<V>) {
    forall events :: LaterAnswersFresh(w, Run(c, Step(c, w, Delete), events))
  }

  /** An outdated reading that may still be written to Redis. */
  ghost predicate StaleWriteAhead<V>(c: Config, w: World<V>) {
    c.ttlMs > 0 &&
    ((exists t :: MayLand(c, w, t) && w.sets[t].moment < Latest(w.past))
     || (exists t :: MaySettle(c, w, t) && w.flights[t].reading.moment < Latest(w.past)))
  }

  ghost predicate NoLiveStaleCopy<V>(c: Config, before: World<V>, w: World<V>) {
    && |before.past| <= |w.past|
    && before.asked <= w.asked
    && (w.redis.value.Some? ==>
          Latest(before.past) <= w.redis.value.value.moment || w.redis.expiresAt <= w.now)
    && (forall t :: MayLand(c, w, t) ==> Latest(before.past) <= w.sets[t].moment || c.ttlMs <= 0)
    && (forall t: nat :: MaySettle(c, w, t) ==>
          Latest(before.past) <= w.flights[t].reading.moment || (c.ttlMs <= 0 && t < before.asked))
    && LaterAnswersFresh(before, w)
  }

  lemma StepKeepsNoLiveStaleCopy<V>(c: Config, before: World<V>, w: World<V>, e: Event<V>)
    requires NoLiveStaleCopy(c, before, w)
    ensures NoLiveStaleCopy(c, before, Step(c, w, e))
  {
  }

  lemma {:induction false} RunKeepsNoLiveStaleCopy<V>(c: Config, before: World<V>, w: World<V>, events: seq<Event<V>>)
    requires NoLiveStaleCopy(c, before, w)
    ensures NoLiveStaleCopy(c, before, Run(c, w, events))
    decreases events
  {
    if events != [] {
      StepKeepsNoLiveStaleCopy(c, before, w, events[0]);
      RunKeepsNoLiveStaleCopy(c, before, Step(c, w, events[0]), events[1..]);
    }
  }

  lemma RunCons<V>(c: Config, w: World<V>, e: Event<V>, events: seq<Event<V>>)
    ensures Run(c, w, [e] + events) == Run(c, Step(c, w, e), events)
  {
    assert ([e] + events)[1..] == events;
  }

  /** A stale write lands after the delete and is served to the next call. */
  lemma StaleSetIsServed<V>(c: Config, before: World<V>, w: World<V>, t: nat) returns (events: seq<Event<V>>)
    requires c.ttlMs > 0 && MayLand(c, w, t) && w.sets[t].moment < Latest(before.past) && before.asked <= w.asked
    ensures !LaterAnswersFresh(before, Run(c, w, events))
  {
    var n := w.asked;
    var w1 := Step(c, w, SetLands(t));
    var w2 := Step(c, w1, Ask);
    var w3 := Step(c, w2, Reply(n, true));
    events := [SetLands(t)] + ([Ask] + ([Reply(n, true)] + []));
    RunCons(c, w, SetLands(t), [Ask] + ([Reply(n, true)] + []));
    RunCons(c, w1, Ask, [Reply(n, true)] + []);
    RunCons(c, w2, Reply(n, true), []);
    assert w3.answers[|w.answers|] == Answer(n, w.now, true, w.sets[t]);
  }

  /**
   A delete that reaches Redis protects all later reads exactly when no outdated reading can still be
   written, by a write under way or by a load about to finish, however later loads overlap.
   */
  lemma DeleteIsEffectiveIff<V(!new)>(c: Config, w: World<V>)
    requires Inv(c, w)
    ensures DeleteIsEffective(c, w) <==> !StaleWriteAhead(c, w)
  {
    var w1 := Step(c, w, Delete);
    if StaleWriteAhead(c, w) {
      if t :| MayLand(c, w, t) && w.sets[t].moment < Latest(w.past) {
        var events := StaleSetIsServed(c, w, w1, t);
      } else {
        var t :| MaySettle(c, w, t) && w.flights[t].reading.moment < Latest(w.past);
        var rest := StaleSetIsServed(c, w, Step(c, w1, Settle(t)), t);
        RunCons(c, w1, Settle(t), rest);
        assert !LaterAnswersFresh(w, Run(c, w1, [Settle(t)] + rest));
      }
    } else {
      forall events ensures LaterAnswersFresh(w, Run(c, w1, events)) {
        RunKeepsNoLiveStaleCopy(c, w, w1, events);
      }
    }
  }
}

/** For any one key, the cache as an object does what the steps of `RedisProtocol` say. */
module RedisRefinement {
  import opened Common
  import opened History
  import opened TtlCaching
  import opened RedisCaching
  import opened RedisProtocol

  /** What Redis holds under the key is the protocol's slot, without the marks. */
  ghost predicate Represents<V>(cache: RedisCache<V>, key: string, w: World<V>)
    reads cache
  {
    if w.redis.value.None? then key !in cache.store
    else key in cache.store && cache.store[key] == Slot(Some(Some(w.redis.value.value.value)), w.redis.expiresAt)
  }

  /** Nothing is cached in a new cache. */
  method NewCache<V>(connected: bool, key: string, ghost start: int, ghost v: V) returns (cache: RedisCache<V>)
    ensures fresh(cache) && cache.connected == connected && Represents(cache, key, Init(start, v))
  {
    cache := new RedisCache(connected);
  }

  /** A `get` is the step of the reply: it gives the answer of that step or, if there is none, nothing. */
  method GetOnce<V>(cache: RedisCache<V>, key: string, now: int, ghost c: Config, ghost ticket: nat, ghost w: World<V>)
    returns (value: Option<V>)
    requires Represents(cache, key, w) && now == w.now && ticket in w.flights && w.flights[ticket].AwaitRedis?
    modifies cache
    ensures cache.connected == old(cache.connected) && cache.store == old(cache.store)
    ensures var w' := Step(c, w, Reply(ticket, cache.connected));
            && Represents(cache, key, w')
            && (value.None? ==> w'.answers == w.answers && ticket in w'.flights && w'.flights[ticket].AwaitSource?)
            && (value.Some? ==>
                  && ticket !in w'.flights && |w'.answers| == |w.answers| + 1
                  && w'.answers[|w.answers|].ticket == ticket && w'.answers[|w.answers|].fromCache
                  && w'.answers[|w.answers|].reading.value == value.value)
  {
    value := cache.Get(key, now);
  }

  /** A `set` is the landing of the write or, without a connection, its loss. */
  method SetOnce<V>(
    cache: RedisCache<V>, key: string, value: V, ttlSeconds: int, now: int, ghost c: Config, ghost ticket: nat,
    ghost w: World<V>)
    requires Represents(cache, key, w) && now == w.now && c.ttlMs == 1000 * ttlSeconds
    requires MayLand(c, w, ticket) && value == w.sets[ticket].value
    modifies cache
    ensures cache.connected == old(cache.connected)
    ensures Represents(cache, key, Step(c, w, if cache.connected then SetLands(ticket) else SetLost(ticket)))
    ensures forall k :: k != key && k in cache.store ==> k in old(cache.store) && cache.store[k] == old(cache.store)[k]
    ensures forall k :: k in old(cache.store) ==> k in cache.store
  {
    cache.Set(key, Some(value), ttlSeconds, now);
  }

  /** A `del` is the step of deleting or, without a connection, none. */
  method DelOnce<V>(cache: RedisCache<V>, key: string, ghost c: Config, ghost w: World<V>)
    requires Represents(cache, key, w)
    modifies cache
    ensures cache.connected == old(cache.connected)
    ensures Represents(cache, key, if cache.connected then Step(c, w, Delete) else w)
    ensures forall k :: k != key ==> (k in cache.store <==> k in old(cache.store))
    ensures forall k :: k in cache.store ==> cache.store[k] == old(cache.store)[k]
  {
    cache.Del(key);
  }

  /** The steps of a call that nothing interleaves with: one reply, or also the query, the end and the write. */
  ghost function CallAlone<V>(w: World<V>, up: bool, isHit: bool): seq<Event<V>> {
    var n := w.asked;
    if isHit then [Ask] + ([Reply(n, up)] + [])
    else [Ask] + ([Reply(n, up)] + ([Query(n)] + ([Settle(n)] + ([if up then SetLands(n) else SetLost(n)] + []))))
  }

  lemma HitIsRun<V>(c: Config, w: World<V>)
    requires w.redis.Lookup(w.now).Some?
    ensures Run(c, w, CallAlone(w, true, true))
         == w.(asked := w.asked + 1, flights := w.flights - {w.asked},
               answers := w.answers + [Answer(w.asked, w.now, true, w.redis.value.value)])
  {
    var w1 := w.(asked := w.asked + 1, flights := w.flights[w.asked := AwaitRedis]);
    RunCons(c, w1, Reply(w.asked, true), []);
    RunCons(c, w, Ask, [Reply(w.asked, true)] + []);
    assert w1.flights - {w.asked} == w.flights - {w.asked};
  }

  lemma MissIsRun<V>(c: Config, w: World<V>, up: bool)
    requires !up || w.redis.Lookup(w.now).None?
    ensures var w', reading := Run(c, w, CallAlone(w, up, false)), Reading(w.source, w.now, Latest(w.past));
            && w'.answers == w.answers + [Answer(w.asked, w.now, false, reading)]
            && w'.redis == (if up then Stored(c.ttlMs, reading, w.now) else w.redis)
            && w'.now == w.now && w'.asked == w.asked + 1
  {
    var n, reading := w.asked, Reading(w.source, w.now, Latest(w.past));
    var last := if up then SetLands(n) else SetLost(n);
    var w1 := Step(c, w, Ask);
    var w2 := Step(c, w1, Reply(n, up));
    var w3 := Step(c, w2, Query(n));
    var w4 := Step(c, w3, Settle(n));
    var w5 := Step(c, w4, last);
    assert w2.flights[n] == AwaitSource && w2.now == w.now && w2.source == w.source && w2.past == w.past;
    assert w3.flights[n] == Read(reading) && w3.answers == w.answers;
    assert w4.sets[n] == reading && w4.redis == w.redis;
    hide Step;
    RunCons(c, w4, last, []);
    RunCons(c, w3, Settle(n), [last] + []);
    RunCons(c, w2, Query(n), [Settle(n)] + ([last] + []));
    RunCons(c, w1, Reply(n, up), [Query(n)] + ([Settle(n)] + ([last] + [])));
    RunCons(c, w, Ask, [Reply(n, up)] + ([Query(n)] + ([Settle(n)] + ([last] + []))));
  }

  /** `getOrLoad` with nothing in between is a run of the protocol, and gives the answer of that run. */
  method GetOrLoadOnce<V>(
    cache: RedisCache<V>, key: string, ttlSeconds: int, loaded: V, now: int, ghost c: Config, ghost w: World<V>)
    returns (value: Option<V>)
    requires Represents(cache, key, w) && now == w.now && c.ttlMs == 1000 * ttlSeconds && loaded == w.source
    modifies cache
    ensures cache.connected == old(cache.connected)
    ensures var isHit := cache.connected && w.redis.Lookup(w.now).Some?;
            var w' := Run(c, w, CallAlone(w, cache.connected, isHit));
            && Represents(cache, key, w')
            && |w'.answers| == |w.answers| + 1 && w'.answers[|w.answers|].fromCache == isHit
            && value == Some(w'.answers[|w.answers|].reading.value)
            && cache.hits == old(cache.hits) + (if isHit then 1 else 0)
            && cache.misses == old(cache.misses) + (if isHit then 0 else 1)
  {
    if cache.connected && w.redis.Lookup(w.now).Some? {
      HitIsRun(c, w);
    } else {
      MissIsRun(c, w, cache.connected);
    }
    hide Run, CallAlone;
    value := cache.GetOrLoad(key, ttlSeconds, Some(loaded), now);
  }
}
