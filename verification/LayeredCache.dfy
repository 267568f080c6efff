/**
  `LayeredCache` of src/mes_dashboard/core/cache.py: a per-process memory cache in front
  of a Redis cache.  Redis is a map from keys to a value and an expiry; a read or a write
  may fail without the caller noticing.  A stored value may be the null value (None).
*/
module LayeredCache {
  import opened Options
  import opened MemoryCache

  const CACHE_TTL_DEFAULT := 60

  /** The JSON value a key holds in Redis, and when Redis drops it. */
  type Shared<J> = map<Key, (Option<J>, real)>

  function SharedGet<J>(m: Shared<J>, key: Key, now: real, ok: bool): Option<J> {
    if ok && key in m && now < m[key].1 then m[key].0 else None
  }

  function SharedSet<J>(m: Shared<J>, key: Key, value: Option<J>, ttl: int, now: real, ok: bool): Shared<J> {
    if ok then m[key := (value, now + Lifetime(ttl))] else m
  }

  /** A memory hit counts only when the stored value is not null. */
  function Served<J>(hit: Option<Option<J>>): Option<J> {
    match hit
    case Some(value) => value
    case None => None
  }

  /** One whole `get`: memory at t1, Redis at t2, backfill at t3. */
  function LayeredGet<J>(s: Store<Option<J>>, maxSize: nat, shared: Option<Shared<J>>, key: Key, ok: bool,
        t1: real, t2: real, t3: real)
    : (Store<Option<J>>, Option<J>)
  {
    var (s1, hit) := AfterGet(s, key, t1);
    if Served(hit).Some? then (s1, Served(hit))
    else if shared.None? then (s1, None)
    else
      match SharedGet(shared.value, key, t2, ok)
      case None => (s1, None)
      case Some(v) => (AfterSet(s1, maxSize, key, Some(v), CACHE_TTL_DEFAULT, t3, t3), Some(v))
  }

  class RedisJSONCache<J(!new)> {
    var data: Shared<J>

    constructor ()
      ensures data == map[]
    {
      data := map[];
    }

    method Get(key: Key, now: real, ok: bool) returns (r: Option<J>)
      ensures r == SharedGet(data, key, now, ok)
    {
      if !ok || key !in data {
        return None;
      }
      if data[key].1 <= now {
        return None;
      }
      return data[key].0;
    }

    /**
      A write that Redis takes is what later reads get, up to its lifetime and not beyond; a
      write that fails leaves every read as it was, and no write affects another key.
    */
    method Set(key: Key, value: Option<J>, ttl: int, now: real, ok: bool)
      modifies this
      ensures data == SharedSet(old(data), key, value, ttl, now, ok)
      ensures ok ==> forall t, up ::
                SharedGet(data, key, t, up) == if up && t < now + Lifetime(ttl) then value else None
      ensures !ok ==> forall t, up :: SharedGet(data, key, t, up) == SharedGet(old(data), key, t, up)
      ensures forall k, t, up :: k != key ==> SharedGet(data, k, t, up) == SharedGet(old(data), k, t, up)
    {
      if ok {
        data := data[key := (value, now + Lifetime(ttl))];
      }
    }
  }

  class LayeredCache<J(!new)> {
    const l1: MemoryTTLCache<Option<J>>
    const l2: RedisJSONCache?<J>
    var l1Hits: nat
    var l2Hits: nat
    var misses: nat
    var writes: nat

    ghost predicate Valid()
      reads this, l1
    {
      l1.Valid()
    }

    ghost function SharedNow(): Option<Shared<J>>
      reads l2
    {
      if l2 == null then None else Some(l2.data)
    }

    constructor (l1: MemoryTTLCache<Option<J>>, l2: RedisJSONCache?<J>)
      requires l1.Valid()
      ensures Valid() && this.l1 == l1 && this.l2 == l2
      ensures l1Hits == l2Hits == misses == writes == 0
    {
      this.l1, this.l2 := l1, l2;
      l1Hits, l2Hits, misses, writes := 0, 0, 0, 0;
    }

    method Get(key: Key, ok: bool, t1: real, t2: real, t3: real) returns (r: Option<J>)
      requires Valid()
      modifies this, l1
      ensures Valid()
      ensures (l1.store, r) == LayeredGet(old(l1.store), l1.maxSize, SharedNow(), key, ok, t1, t2, t3)
      ensures writes == old(writes)
      ensures l1Hits + l2Hits + misses == old(l1Hits + l2Hits + misses) + 1
      ensures r.None? <==> misses == old(misses) + 1
      ensures l1Hits > old(l1Hits) <==> Served(AfterGet(old(l1.store), key, t1).1).Some?
    {
      var hit := l1.Get(key, t1);
      r := Served(hit);
      if r.Some? {
        l1Hits := l1Hits + 1;
        return;
      }
      if l2 == null {
        misses := misses + 1;
        return None;
      }
      r := l2.Get(key, t2, ok);
      if r.Some? {
        l1.Set(key, r, CACHE_TTL_DEFAULT, t3, t3);
        l2Hits := l2Hits + 1;
        return;
      }
      misses := misses + 1;
    }

    method Set(key: Key, value: Option<J>, ttl: int, ok: bool, t1: real, t2: real)
      requires Valid()
      modifies this`writes, l1, l2
      ensures Valid()
      ensures writes == old(writes) + 1
      ensures l1.store == AfterSet(old(l1.store), l1.maxSize, key, value, ttl, t1, t1)
      ensures l2 != null ==> l2.data == SharedSet(old(l2.data), key, value, ttl, t2, ok)
    {
      writes := writes + 1;
      l1.Set(key, value, ttl, t1, t1);
      if l2 != null {
        l2.Set(key, value, ttl, t2, ok);
      }
    }
  }
}
