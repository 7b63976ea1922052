/**
 The shared Redis cache, `src/common/cache/redis-cache.ts`. Redis itself is a map from keys to
 values with an expiry; the clock and the state of the connection are explicit.
 */
module RedisCaching {
  import opened Common
  import opened TtlCaching

  /** SCAN asks for this many keys at a time. */
  const SCAN_COUNT: nat := 100

  predicate HasPrefix(key: string, prefix: string) {
    prefix <= key
  }

  /** What is left of a store when the keys with a prefix are gone. */
  function WithoutPrefix<V>(store: map<string, V>, prefix: string): map<string, V> {
    map k | k in store && !HasPrefix(k, prefix) :: store[k]
  }

  /** A key that has not expired. What it holds is a JSON text, that of a value or `null`. */
  predicate IsLive<V>(store: map<string, Slot<Option<V>>>, key: string, now: int) {
    key in store && store[key].value.Some? && now < store[key].expiresAt
  }

  class RedisCache<V> {
    var connected: bool
    var store: map<string, Slot<Option<V>>>
    var hits: nat
    var misses: nat

    constructor (connected: bool)
      ensures this.connected == connected && store == map[] && hits == 0 && misses == 0
    {
      this.connected := connected;
      store := map[];
      hits := 0;
      misses := 0;
    }

    /** Nothing without a connection and nothing for a key that is absent or has expired. */
    method Get(key: string, now: int) returns (value: Option<V>)
      modifies this`hits
      ensures connected && IsLive(store, key, now) ==> Some(value) == store[key].value && hits == old(hits) + 1
      ensures !connected || !IsLive(store, key, now) ==> value == None && hits == old(hits)
    {
      if !connected || key !in store {
        return None;
      }
      var raw := store[key].Lookup(now);
      if raw.None? {
        return None;
      }
      hits := hits + 1;
      return raw.value;
    }

    method Set(key: string, value: Option<V>, ttlSeconds: int, now: int)
      modifies this`store
      ensures store == if connected then old(store)[key := Slot(Some(value), now + ttlSeconds * 1000)] else old(store)
    {
      if connected {
        store := store[key := Slot(Some(value), now + ttlSeconds * 1000)];
      }
    }

    /**
     The whole of `getOrLoad` when nothing else runs in between and the load resolves to `loaded`.
     One call counts once, as a hit or a miss, except that a cached `null` counts as both.
     */
    method GetOrLoad(key: string, ttlSeconds: int, loaded: Option<V>, now: int) returns (value: Option<V>)
      modifies this`hits, this`misses, this`store
      ensures var cached := if connected && IsLive(old(store), key, now) then old(store)[key].value.value else None;
              if cached.Some? then
                value == cached && store == old(store) && hits == old(hits) + 1 && misses == old(misses)
              else
                && value == loaded && misses == old(misses) + 1
                && hits == old(hits) + (if connected && IsLive(old(store), key, now) then 1 else 0)
                && store == if connected then old(store)[key := Slot(Some(loaded), now + ttlSeconds * 1000)]
                            else old(store)
    {
      value := Get(key, now);
      if value.None? {
        misses := misses + 1;
        value := loaded;
        Set(key, value, ttlSeconds, now);
      }
    }

    method Del(key: string)
      modifies this`store
      ensures store == if connected then old(store) - {key} else old(store)
    {
      if connected {
        store := store - {key};
      }
    }

    /** Scans in batches and deletes what matches; afterwards exactly the other keys are left. */
    method DelByPrefix(prefix: string)
      modifies this`store
      ensures store == if connected then WithoutPrefix(old(store), prefix) else old(store)
    {
      if !connected {
        return;
      }
      ghost var before := store;
      var unscanned := store.Keys;
      while unscanned != {}
        invariant unscanned <= store.Keys <= before.Keys
        invariant forall k :: k in before ==> (k in store <==> k in unscanned || !HasPrefix(k, prefix))
        invariant forall k :: k in store ==> store[k] == before[k]
        decreases unscanned
      {
        var batch := NextBatch(unscanned);
        unscanned := unscanned - batch;
        store := store - (set k | k in batch && HasPrefix(k, prefix));
      }
    }

    static method NextBatch(keys: set<string>) returns (batch: set<string>)
      requires keys != {}
      ensures {} < batch <= keys
    {
      batch := {};
      while |batch| < SCAN_COUNT && batch != keys
        invariant batch <= keys
        decreases keys - batch
      {
        assert keys == batch + (keys - batch);
        var k :| k in keys - batch;
        batch := batch + {k};
      }
    }
  }

  /**
   A value stored while connected is read back, and counted as a hit, until its time to live is over and
   not after; what other keys give does not change. Without a connection nothing is given.
   */
  method ReadBack<V>(
    cache: RedisCache<V>, key: string, value: V, ttlSeconds: int, at: int, other: string, later: int)
    returns (stored: Option<V>, beside: Option<V>)
    requires other != key
    modifies cache
    ensures cache.connected == old(cache.connected)
    ensures cache.connected && later < at + 1000 * ttlSeconds ==> stored == Some(value)
    ensures cache.connected && later >= at + 1000 * ttlSeconds ==> stored == None
    ensures cache.connected && IsLive(old(cache.store), other, later) ==> Some(beside) == old(cache.store)[other].value
    ensures !cache.connected ==> stored == None && beside == None
  {
    cache.Set(key, Some(value), ttlSeconds, at);
    stored := cache.Get(key, later);
    beside := cache.Get(other, later);
  }
}
