/**
 The in-memory TTL cache, `src/common/cache/ttl-cache.ts`, and the per-version map of such caches
 kept by `src/repositories/pricing.repository.ts`.
 */
module TtlCaching {
  import opened Common

  /** The two mutable fields of a cache. A missing value is `undefined`. */
  datatype Slot<+T> = Slot(value: Option<T>, expiresAt: int) {

    /** What the `cached` getter answers at time `now`. */
    function Lookup(now: int): Option<T> {
      if now < expiresAt then value else None
    }
  }

  function EmptySlot<T>(): Slot<T> {
    Slot(None, 0)
  }

  /** The slot after a load that resolved to `v` was stored at time `now`. */
  function Stored<T>(ttlMs: int, v: T, now: int): Slot<T> {
    Slot(Some(v), now + ttlMs)
  }

  /**
   `getOrLoad` is split at its one `await`: `Cached` is the part before it, `Store` the part after.
   The clock is a parameter.
   */
  class TtlCache<T> {
    const ttlMs: int
    var value: Option<T>
    var expiresAt: int

    ghost function View(): Slot<T>
      reads this
    {
      Slot(value, expiresAt)
    }

    constructor (ttlMs: int)
      ensures this.ttlMs == ttlMs && View() == EmptySlot()
    {
      this.ttlMs := ttlMs;
      value := None;
      expiresAt := 0;
    }

    method Cached(now: int) returns (hit: Option<T>)
      ensures hit == View().Lookup(now)
    {
      if now < expiresAt && value.Some? {
        return value;
      }
      return None;
    }

    method Store(v: T, now: int)
      modifies this
      ensures View() == Stored(ttlMs, v, now)
    {
      value := Some(v);
      expiresAt := now + ttlMs;
    }

    method Invalidate()
      modifies this
      ensures View() == EmptySlot()
    {
      value := None;
      expiresAt := 0;
    }
  }

  /** One cache per product version, created on first use. */
  class VersionCaches<T> {
    const ttlMs: int
    var caches: map<string, TtlCache<T>>

    /** Distinct versions own distinct caches. */
    ghost predicate Valid()
      reads this
    {
      && (forall v :: v in caches ==> caches[v].ttlMs == ttlMs)
      && (forall v, w :: v in caches && w in caches && caches[v] == caches[w] ==> v == w)
    }

    ghost function View(): map<string, Slot<T>>
      reads this, caches.Values
    {
      map v | v in caches :: caches[v].View()
    }

    constructor (ttlMs: int)
      ensures Valid() && View() == map[] && this.ttlMs == ttlMs
    {
      this.ttlMs := ttlMs;
      caches := map[];
    }

    /** A version never asked for before starts with an empty cache; nothing else changes. */
    method CacheFor(version: string) returns (cache: TtlCache<T>)
      requires Valid()
      modifies this
      ensures Valid() && version in caches && caches[version] == cache
      ensures View() == if version in old(View()) then old(View()) else old(View())[version := EmptySlot()]
    {
      if version in caches {
        return caches[version];
      }
      cache := new TtlCache(ttlMs);
      caches := caches[version := cache];
    }

    /** Empties one version's cache and leaves every other version untouched. */
    method InvalidateVersion(version: string)
      requires Valid()
      modifies caches.Values
      ensures Valid() && caches == old(caches)
      ensures View() == if version in old(View()) then old(View())[version := EmptySlot()] else old(View())
    {
      if version in caches {
        caches[version].Invalidate();
      }
    }

    /** Empties every version's cache. */
    method InvalidateAll()
      requires Valid()
      modifies caches.Values
      ensures Valid() && caches == old(caches)
      ensures forall v :: v in View() ==> View()[v] == EmptySlot()
    {
      var left := caches.Keys;
      while left != {}
        invariant left <= caches.Keys
        invariant forall v :: v in caches.Keys - left ==> caches[v].View() == EmptySlot()
        decreases left
      {
        var v :| v in left;
        caches[v].Invalidate();
        left := left - {v};
      }
    }
  }
}

/**
 The cache under concurrency. Every `getOrLoad` call runs in atomic segments separated by its
 `await`; segments of different calls, changes of the source, invalidations and the passing of
 time interleave in any order. An event that is not possible in a state leaves the state as it is,
 so a run is any sequence of events.
 */
module TtlProtocol {
  import opened Common
  import opened History
  import opened TtlCaching

  /** A load that has been started: either still to read the source, or read and still to be stored. */
  datatype Flight<+V> = Waiting | Read(reading: Reading<V>)

  /** What a `getOrLoad` call resolved to, and when. */
  datatype Answer<+V> = Answer(ticket: nat, at: int, fromCache: bool, reading: Reading<V>)

  datatype World<V> = World(
    now: int,
    source: V,
    past: seq<Moment<V>>,
    slot: Slot<Reading<V>>,
    flights: map<nat, Flight<V>>,
    asked: nat,
    answers: seq<Answer<V>>)

  datatype Event<+V> =
    | Tick(to: int)
    | Change(value: V)
    | Ask
    | Query(ticket: nat)
    | Settle(ticket: nat)
    | Fail(ticket: nat)
    | Invalidate

  /** `lag` bounds the delay between a load's reading of the source and its being stored. */
  datatype Config = Config(ttlMs: int, lag: int)

  function Init<V>(start: int, v: V): World<V> {
    World(start, v, [Moment(start, v)], EmptySlot(), map[], 0, [])
  }

  predicate MaySettle<V>(c: Config, w: World<V>, ticket: nat) {
    ticket in w.flights && w.flights[ticket].Read? && w.now - w.flights[ticket].reading.at <= c.lag
  }

  function Step<V>(c: Config, w: World<V>, e: Event<V>): World<V> {
    match e
    case Tick(to) =>
      if w.now <= to then w.(now := to) else w
    case Change(v) =>
      w.(source := v, past := w.past + [Moment(w.now, v)])
    case Ask =>
      var ticket := w.asked;
      match w.slot.Lookup(w.now) {
        case Some(hit) => w.(asked := ticket + 1, answers := w.answers + [Answer(ticket, w.now, true, hit)])
        case None => w.(asked := ticket + 1, flights := w.flights[ticket := Waiting])
      }
    case Query(ticket) =>
      if ticket in w.flights && w.flights[ticket].Waiting?
      then w.(flights := w.flights[ticket := Read(Reading(w.source, w.now, Latest(w.past)))])
      else w
    case Settle(ticket) =>
      if MaySettle(c, w, ticket) then
        var reading := w.flights[ticket].reading;
        w.(slot := Stored(c.ttlMs, reading, w.now),
           flights := w.flights - {ticket},
           answers := w.answers + [Answer(ticket, w.now, false, reading)])
      else w
    case Fail(ticket) =>
      w.(flights := w.flights - {ticket})
    case Invalidate =>
      w.(slot := EmptySlot())
  }

  function Run<V>(c: Config, w: World<V>, events: seq<Event<V>>): World<V>
    decreases events
  {
    if events == [] then w else Run(c, Step(c, w, events[0]), events[1..])
  }

  // ---------- every answer is a recent value of the source

  /** The answer was the source's value within the promised window before it was given. */
  ghost predicate Recent<V>(c: Config, w: World<V>, a: Answer<V>) {
    && Genuine(w.past, a.reading)
    && a.reading.at <= a.at <= w.now
    && (a.fromCache ==> a.at - c.ttlMs - c.lag < a.reading.at)
    && (!a.fromCache ==> a.at - c.lag <= a.reading.at)
  }

  ghost predicate Inv<V>(c: Config, w: World<V>) {
    && UpTo(w.past, w.source, w.now)
    && (w.slot.value.Some? ==>
          && Genuine(w.past, w.slot.value.value) && w.slot.value.value.at <= w.now
          && w.slot.expiresAt - c.ttlMs - c.lag <= w.slot.value.value.at)
    && (forall t :: t in w.flights ==> t < w.asked)
    && (forall t :: t in w.flights && w.flights[t].Read? ==>
          Genuine(w.past, w.flights[t].reading) && w.flights[t].reading.at <= w.now)
    && (forall i :: 0 <= i < |w.answers| ==> w.answers[i].ticket < w.asked && Recent(c, w, w.answers[i]))
  }

  lemma StepKeepsInv<V(!new)>(c: Config, w: World<V>, e: Event<V>)
    requires Inv(c, w)
    ensures Inv(c, Step(c, w, e))
  {
  }

  lemma {:induction false} RunKeepsInv<V(!new)>(c: Config, w: World<V>, events: seq<Event<V>>)
    requires Inv(c, w)
    ensures Inv(c, Run(c, w, events))
    decreases events
  {
    if events != [] {
      StepKeepsInv(c, w, events[0]);
      RunKeepsInv(c, Step(c, w, events[0]), events[1..]);
    }
  }

  /** In every run, every answer was the source's value less than ttl + lag before it was given. */
  lemma AnswersAreRecent<V(!new)>(c: Config, start: int, v: V, events: seq<Event<V>>)
    ensures var w := Run(c, Init(start, v), events);
            forall i :: 0 <= i < |w.answers| ==> Recent(c, w, w.answers[i])
  {
    RunKeepsInv(c, Init(start, v), events);
  }

  lemma {:induction false} RunSnoc<V>(c: Config, w: World<V>, events: seq<Event<V>>, e: Event<V>)
    ensures Run(c, w, events + [e]) == Step(c, Run(c, w, events), e)
    decreases events
  {
    if events == [] {
      assert [e][1..] == [];
    } else {
      assert (events + [e])[1..] == events[1..] + [e];
      RunSnoc(c, Step(c, w, events[0]), events[1..], e);
    }
  }

  /** The bound is attained: a cached answer can be exactly `ttl + lag - 1` old, after the source changed. */
  lemma StalenessBoundIsSharp<V>(c: Config, start: int, before: V, after: V) returns (events: seq<Event<V>>)
    requires c.ttlMs > 0 && c.lag >= 0
    ensures var w := Run(c, Init(start, before), events);
            && |w.answers| == 2
            && w.source == after
            && w.answers[1] == Answer(1, start + c.ttlMs + c.lag - 1, true, Reading(before, start, 0))
  {
    var w0 := Init(start, before);
    var w1 := w0.(asked := 1, flights := map[0 := Waiting]);
    var w2 := w1.(flights := map[0 := Read(Reading(before, start, 0))]);
    var w3 := w2.(source := after, past := w0.past + [Moment(start, after)]);
    var w4 := w3.(now := start + c.lag);
    var w5 := Step(c, w4, Settle(0));
    var w6 := w5.(now := start + c.lag + c.ttlMs - 1);
    var script := [Ask, Query(0), Change(after), Tick(w4.now), Settle(0), Tick(w6.now), Ask];
    var stages := [w0, w1, w2, w3, w4, w5, w6, Step(c, w6, Ask)];
    assert w4 == Step(c, w3, script[3]) && w6 == Step(c, w5, script[5]);
    events := [];
    for i := 0 to |script|
      invariant Run(c, w0, events) == stages[i]
    {
      RunSnoc(c, w0, events, script[i]);
      events := events + [script[i]];
    }
  }

  ghost predicate NotAnsweredSince<V>(before: World<V>, w: World<V>, ticket: nat) {
    && ticket < w.asked && ticket !in w.flights && |before.answers| <= |w.answers|
    && forall i :: |before.answers| <= i < |w.answers| ==> w.answers[i].ticket != ticket
  }

  lemma {:induction false} NeverAnswered<V>(
    c: Config, before: World<V>, w: World<V>, ticket: nat, events: seq<Event<V>>)
    requires NotAnsweredSince(before, w, ticket)
    ensures NotAnsweredSince(before, Run(c, w, events), ticket)
    decreases events
  {
    if events != [] {
      NeverAnswered(c, before, Step(c, w, events[0]), ticket, events[1..]);
    }
  }

  /** A call whose load fails is rejected: it gets no answer in any continuation, and leaves the cache alone. */
  lemma FailedLoadIsNotAnswered<V>(c: Config, w: World<V>, ticket: nat, events: seq<Event<V>>)
    requires ticket < w.asked
    ensures NotAnsweredSince(w, Run(c, Step(c, w, Fail(ticket)), events), ticket)
    ensures Step(c, w, Fail(ticket)).slot == w.slot
  {
    NeverAnswered(c, w, Step(c, w, Fail(ticket)), ticket, events);
  }

  // ---------- what an invalidation guarantees to later reads

  /** A load that read an outdated value and may still be stored, to be served from the cache. */
  ghost predicate StaleLoadInFlight<V>(c: Config, w: World<V>) {
    c.ttlMs > 0 && exists t :: MaySettle(c, w, t) && w.flights[t].reading.moment < Latest(w.past)
  }

  /** However the run continues, a call made after the invalidation gets a value read at or after it. */
  ghost predicate InvalidationIsEffective<V(!new)>(c: Config, w: World<V>) {
    forall events :: LaterAnswersFresh(w, Run(c, Step(c, w, Invalidate), events))
  }

  ghost predicate LaterAnswersFresh<V>(before: World<V>, w: World<V>) {
    forall i :: 0 <= i < |w.answers| && before.asked <= w.answers[i].ticket ==>
      Latest(before.past) <= w.answers[i].reading.moment
  }

  /** Every copy outdated in `before` has lost its way to a later caller. */
  ghost predicate NoLiveStaleCopy<V>(c: Config, before: World<V>, w: World<V>) {
    && |before.past| <= |w.past|
    && before.asked <= w.asked
    && (w.slot.value.Some? ==> Latest(before.past) <= w.slot.value.value.moment || w.slot.expiresAt <= w.now)
    && (forall t :: t in w.flights && w.flights[t].Read? ==>
          || Latest(before.past) <= w.flights[t].reading.moment
          || !MaySettle(c, w, t)
          || (c.ttlMs <= 0 && t < before.asked))
    && LaterAnswersFresh(before, w)
  }

  lemma {:induction false} NoLiveStaleCopyIsKept<V>(c: Config, before: World<V>, w: World<V>, events: seq<Event<V>>)
    requires NoLiveStaleCopy(c, before, w)
    ensures NoLiveStaleCopy(c, before, Run(c, w, events))
    decreases events
  {
    if events != [] {
      NoLiveStaleCopyIsKept(c, before, Step(c, w, events[0]), events[1..]);
    }
  }

  /** A stale load in flight across the invalidation is stored afterwards and served to a later caller. */
  lemma StaleLoadIsServedLater<V>(c: Config, w: World<V>, t: nat) returns (events: seq<Event<V>>)
    requires c.ttlMs > 0 && MaySettle(c, w, t) && w.flights[t].reading.moment < Latest(w.past)
    ensures !LaterAnswersFresh(w, Run(c, Step(c, w, Invalidate), events))
  {
    events := [Settle(t), Ask];
    var w1 := Step(c, w, Invalidate);
    var w2 := Step(c, w1, Settle(t));
    var w3 := Step(c, w2, Ask);
    assert events[1..] == [Ask];
    assert Run(c, w1, events) == Run(c, w2, [Ask]) == Run(c, w3, []) == w3;
    assert w3.answers[|w.answers| + 1] == Answer(w.asked, w.now, true, w.flights[t].reading);
  }

  /**
   An invalidation protects all later reads exactly when no stale load is in flight when it runs,
   however later loads overlap.
   */
  lemma InvalidationIsEffectiveIff<V(!new)>(c: Config, w: World<V>)
    requires Inv(c, w)
    ensures InvalidationIsEffective(c, w) <==> !StaleLoadInFlight(c, w)
  {
    if StaleLoadInFlight(c, w) {
      var t :| MaySettle(c, w, t) && w.flights[t].reading.moment < Latest(w.past);
      var events := StaleLoadIsServedLater(c, w, t);
    } else {
      forall events ensures LaterAnswersFresh(w, Run(c, Step(c, w, Invalidate), events)) {
        NoLiveStaleCopyIsKept(c, w, Step(c, w, Invalidate), events);
      }
    }
  }
}
