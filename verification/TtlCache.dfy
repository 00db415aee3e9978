/** app/services/cache.py: a cache with a time-to-live per item, lazy expiry and
    least-recently-used eviction.  Each call takes its reading of the monotonic clock
    as an argument. */
module TtlCache {
  import opened Wrappers
  import opened OrderedDict

  type Instant = real
  type Capacity = n: int | 1 <= n witness 1

  datatype Entry<+V> = Entry(value: V, expiresAt: Instant, lastAccess: Instant)

  type Cache<V> = Dict<Entry<V>>

  // ----- What each operation does to the dictionary -----

  predicate Expired<V>(e: Entry<V>, now: Instant) {
    now > e.expiresAt
  }

  /** The keys that have not expired. */
  function LiveKeys<V>(c: Cache<V>, now: Instant): set<string> {
    set k | k in c.store && !Expired(c.store[k], now)
  }

  function Purge<V>(c: Cache<V>, now: Instant): Cache<V> {
    Retain(c, LiveKeys(c, now))
  }

  /** Of the first `n` keys of `order`, the first with the smallest last access, as Python's `min` picks it. */
  function FirstLeast<V>(store: map<string, Entry<V>>, order: seq<string>, n: nat): (k: string)
    requires 0 < n <= |order| && forall x :: x in order ==> x in store
    ensures k in order
    ensures forall i :: 0 <= i < n ==> store[k].lastAccess <= store[order[i]].lastAccess
  {
    if n == 1 then order[0]
    else
      var best := FirstLeast(store, order, n - 1);
      if store[order[n - 1]].lastAccess < store[best].lastAccess then order[n - 1] else best
  }

  function Victim<V>(c: Cache<V>): (k: string)
    requires c.store.Keys != {}
    ensures k in c.store
    ensures forall x :: x in c.store ==> c.store[k].lastAccess <= c.store[x].lastAccess
  {
    assert forall x :: x in c.order <==> x in Elements(c.order);
    FirstLeast(c.store, c.order, |c.order|)
  }

  predicate Full<V>(c: Cache<V>, size: Capacity, key: string) {
    |c.store| >= size && key !in c.store
  }

  /** The key evicted while live to make room for `key`, if any. */
  function Evicted<V>(c: Cache<V>, size: Capacity, key: string, now: Instant): (r: Option<string>)
  {
    if !Full(c, size, key) then None
    else
      var p := Purge(c, now);
      if Full(p, size, key) then Some(Victim(p)) else None
  }

  function MakeRoom<V>(c: Cache<V>, size: Capacity, key: string, now: Instant): Cache<V>
  {
    var p := if Full(c, size, key) then Purge(c, now) else c;
    if Full(p, size, key) then Drop(p, Victim(p)) else p
  }

  function CacheGet<V>(c: Cache<V>, key: string, now: Instant): (Cache<V>, Option<V>)
  {
    if key !in c.store then (c, None)
    else
      var e := c.store[key];
      if Expired(e, now) then (Drop(c, key), None)
      else (Put(c, key, e.(lastAccess := now)), Some(e.value))
  }

  function CacheSet<V>(c: Cache<V>, size: Capacity, key: string, value: V, life: real, now: Instant): Cache<V>
  {
    Put(MakeRoom(c, size, key, now), key, Entry(value, now + life, now))
  }

  /** `ttl or self._ttl`: an absent or zero argument means the default. */
  function Or(ttl: Option<int>, default: int): (r: int)
    ensures ttl == None || ttl == Some(0) ==> r == default
    ensures ttl != None && ttl != Some(0) ==> ttl == Some(r)
  {
    if ttl.None? || ttl.value == 0 then default else ttl.value
  }

  // ----- The class -----

  class TTLCache<V> {
    const ttl: int
    const maxSize: Capacity
    var dict: Cache<V>

    constructor (defaultTtl: Option<int>, size: Option<int>, settingsTtl: int, settingsMaxSize: int)
      requires Or(size, settingsMaxSize) >= 1
      ensures ttl == Or(defaultTtl, settingsTtl) && maxSize == Or(size, settingsMaxSize)
      ensures dict == Empty()
    {
      ttl := Or(defaultTtl, settingsTtl);
      maxSize := Or(size, settingsMaxSize);
      dict := Empty();
    }

    method Get(key: string, now: Instant) returns (r: Option<V>)
      modifies this
      ensures (dict, r) == CacheGet(old(dict), key, now)
    {
      if key !in dict.store {
        return None;
      }
      var e := dict.store[key];
      if now > e.expiresAt {
        dict := Drop(dict, key);
        return None;
      }
      dict := Put(dict, key, Entry(e.value, e.expiresAt, now));
      return Some(e.value);
    }

    method Set(key: string, value: V, ttl: Option<int>, now: Instant)
      modifies this
      ensures dict == CacheSet(old(dict), maxSize, key, value, Or(ttl, this.ttl) as real, now)
    {
      if |dict.store| >= maxSize && key !in dict.store {
        EvictExpired(now);
      }
      if |dict.store| >= maxSize && key !in dict.store {
        var lru := LeastRecentlyUsed();
        dict := Drop(dict, lru);
      }
      dict := Put(dict, key, Entry(value, now + Or(ttl, this.ttl) as real, now));
    }

    method Delete(key: string) returns (removed: bool)
      modifies this
      ensures dict == Drop(old(dict), key)
      ensures removed <==> key in old(dict).store
    {
      removed := key in dict.store;
      dict := Drop(dict, key);
    }

    method Clear()
      modifies this
      ensures dict == Empty()
    {
      dict := Empty();
    }

    method Len(now: Instant) returns (n: nat)
      modifies this
      ensures dict == Purge(old(dict), now) && n == |Purge(old(dict), now).store|
    {
      EvictExpired(now);
      n := |dict.store|;
    }

    /** Collects the expired keys in one pass over the dictionary, then deletes them one by one. */
    method EvictExpired(now: Instant)
      modifies this
      ensures dict == Purge(old(dict), now)
    {
      var start := dict;
      var expired: seq<string> := [];
      assert forall k :: k in start.order <==> k in Elements(start.order);
      for i := 0 to |start.order|
        invariant dict == start
        invariant forall k :: k in expired <==> k in start.order[..i] && Expired(start.store[k], now)
      {
        assert start.order[..i + 1] == start.order[..i] + [start.order[i]];
        if now > start.store[start.order[i]].expiresAt {
          expired := expired + [start.order[i]];
        }
      }
      assert start.order[..|start.order|] == start.order;
      RetainAll(start, start.store.Keys);
      assert start.store.Keys - Elements(expired[..0]) == start.store.Keys;
      for i := 0 to |expired|
        invariant dict == Retain(start, start.store.Keys - Elements(expired[..i]))
      {
        var kept := start.store.Keys - Elements(expired[..i]);
        assert expired[..i + 1] == expired[..i] + [expired[i]];
        RetainTwice(start, kept, dict.store.Keys - {expired[i]});
        assert kept * (dict.store.Keys - {expired[i]}) == start.store.Keys - Elements(expired[..i + 1]);
        dict := Drop(dict, expired[i]);
      }
      assert expired[..|expired|] == expired;
      assert start.store.Keys - Elements(expired) == LiveKeys(start, now);
    }

    method LeastRecentlyUsed() returns (lru: string)
      requires dict.store.Keys != {}
      ensures lru == Victim(dict)
    {
      assert forall k :: k in dict.order <==> k in Elements(dict.order);
      lru := LeastAccessed(dict.store, dict.order);
    }
  }

  /** The pass over the keys made by `min(self._store, key=...)`. */
  method LeastAccessed<V>(store: map<string, Entry<V>>, order: seq<string>) returns (lru: string)
    requires order != [] && forall x :: x in order ==> x in store
    ensures lru == FirstLeast(store, order, |order|)
  {
    lru := order[0];
    for i := 1 to |order|
      invariant lru == FirstLeast(store, order, i)
    {
      if store[order[i]].lastAccess < store[lru].lastAccess {
        lru := order[i];
      }
    }
  }
}
