/**
  The in-process LRU and TTL cache of src/mes_dashboard/core/cache.py.

  An OrderedDict is a sequence of entries with distinct keys, least recently used
  first.  Each call happens atomically (the code holds a lock) and carries the clock
  readings it takes.  Whole runs are sequences of calls, so the eviction theorem can
  speak about the history of a key.
*/
module MemoryCache {
  import opened Options

  type Key = string

  datatype Entry<V> = Entry(key: Key, value: V, expiresAt: real)

  type Store<V> = seq<Entry<V>>

  ghost predicate Distinct<V(!new)>(s: Store<V>) {
    Pairwise(s, (a, b) => a != b)
  }

  predicate Has<V>(s: Store<V>, key: Key) {
    exists i :: 0 <= i < |s| && s[i].key == key
  }

  function Lookup<V>(s: Store<V>, key: Key): Option<Entry<V>> {
    if s == [] then None
    else if s[0].key == key then Some(s[0])
    else Lookup(s[1..], key)
  }

  /** `pop(key, None)` */
  function Without<V>(s: Store<V>, key: Key): Store<V> {
    if s == [] then []
    else if s[0].key == key then Without(s[1..], key)
    else [s[0]] + Without(s[1..], key)
  }

  /** What remains after `_evict_expired_locked(now)`. */
  function Live<V>(s: Store<V>, now: real): Store<V> {
    if s == [] then []
    else if s[0].expiresAt <= now then Live(s[1..], now)
    else [s[0]] + Live(s[1..], now)
  }

  /** max(ttl, 1): the least number of seconds that is at least one and at least the ttl. */
  function Lifetime(ttl: int): (seconds: real)
    ensures seconds >= 1.0 && seconds >= ttl as real && (seconds == 1.0 || seconds == ttl as real)
  {
    if ttl < 1 then 1.0 else ttl as real
  }

  function AfterGet<V>(s: Store<V>, key: Key, now: real): (Store<V>, Option<V>) {
    match Lookup(s, key)
    case None => (s, None)
    case Some(e) =>
      if e.expiresAt <= now then (Without(s, key), None)
      else (Without(s, key) + [e], Some(e.value))
  }

  /** What `set` leaves in place before it appends the new entry. */
  function Room<V>(s: Store<V>, maxSize: nat, key: Key, now: real): Store<V> {
    var live := Live(s, now);
    if Has(live, key) then Without(live, key)
    else if |live| >= maxSize > 0 then live[1..]
    else live
  }

  function AfterSet<V>(s: Store<V>, maxSize: nat, key: Key, value: V, ttl: int, stamp: real, now: real): Store<V> {
    Room(s, maxSize, key, now) + [Entry(key, value, stamp + Lifetime(ttl))]
  }

  // ---------------------------------------------------------------------------
  // The sequence operations
  // ---------------------------------------------------------------------------

  lemma {:induction false} LookupFinds<V(!new)>(s: Store<V>, key: Key)
    ensures Lookup(s, key).Some? <==> Has(s, key)
    ensures Lookup(s, key).Some? ==> Lookup(s, key).value in s && Lookup(s, key).value.key == key
  {
    if s != [] {
      LookupFinds(s[1..], key);
      if s[0].key != key && Has(s, key) {
        var i :| 0 <= i < |s| && s[i].key == key;
        assert s[1..][i - 1].key == key;
      }
      if Has(s[1..], key) {
        var i :| 0 <= i < |s[1..]| && s[1..][i].key == key;
        assert s[i + 1].key == key;
      }
    }
  }

  /** Every pair of keys, in store order, is related. */
  ghost predicate Pairwise<V(!new)>(s: Store<V>, rel: (Key, Key) -> bool) {
    forall i, j :: 0 <= i < j < |s| ==> rel(s[i].key, s[j].key)
  }

  lemma {:induction false} PairwiseCons<V(!new)>(e: Entry<V>, rest: Store<V>, s: Store<V>, rel: (Key, Key) -> bool)
    requires Pairwise(s, rel) && s != [] && s[0] == e
    requires Pairwise(rest, rel) && forall x :: x in rest ==> x in s[1..]
    ensures Pairwise([e] + rest, rel)
  {
    var whole := [e] + rest;
    forall i, j | 0 <= i < j < |whole|
      ensures rel(whole[i].key, whole[j].key)
    {
      assert whole[j] == rest[j - 1];
      if i == 0 {
        assert rest[j - 1] in s[1..];
        var k :| 0 <= k < |s[1..]| && s[1..][k] == rest[j - 1];
        assert s[k + 1] == rest[j - 1];
      } else {
        assert whole[i] == rest[i - 1];
      }
    }
  }

  lemma {:induction false} PairwiseSnoc<V(!new)>(s: Store<V>, e: Entry<V>, rel: (Key, Key) -> bool)
    requires Pairwise(s, rel) && forall x :: x in s ==> rel(x.key, e.key)
    ensures Pairwise(s + [e], rel)
  {
    var whole := s + [e];
    forall i, j | 0 <= i < j < |whole|
      ensures rel(whole[i].key, whole[j].key)
    {
      assert s[i] in s;
    }
  }

  lemma {:induction false} WithoutKeeps<V(!new)>(s: Store<V>, key: Key, rel: (Key, Key) -> bool)
    ensures forall e :: e in Without(s, key) <==> e in s && e.key != key
    ensures Pairwise(s, rel) ==> Pairwise(Without(s, key), rel)
  {
    if s != [] {
      WithoutKeeps(s[1..], key, rel);
      assert forall e :: e in s <==> e == s[0] || e in s[1..];
      assert forall i :: 0 <= i < |s[1..]| ==> s[1..][i] == s[i + 1];
      if Pairwise(s, rel) && s[0].key != key {
        assert Pairwise(s[1..], rel);
        PairwiseCons(s[0], Without(s[1..], key), s, rel);
      }
    }
  }

  lemma {:induction false} LiveKeeps<V(!new)>(s: Store<V>, now: real, rel: (Key, Key) -> bool)
    ensures forall e :: e in Live(s, now) <==> e in s && e.expiresAt > now
    ensures |Live(s, now)| <= |s|
    ensures Pairwise(s, rel) ==> Pairwise(Live(s, now), rel)
  {
    if s != [] {
      LiveKeeps(s[1..], now, rel);
      assert forall e :: e in s <==> e == s[0] || e in s[1..];
      assert forall i :: 0 <= i < |s[1..]| ==> s[1..][i] == s[i + 1];
      if Pairwise(s, rel) && s[0].expiresAt > now {
        assert Pairwise(s[1..], rel);
        PairwiseCons(s[0], Live(s[1..], now), s, rel);
      }
    }
  }

  lemma {:induction false} WithoutShrinks<V(!new)>(s: Store<V>, key: Key)
    requires Has(s, key)
    ensures |Without(s, key)| < |s|
  {
    WithoutLength(s[1..], key);
    if s[0].key != key {
      var i :| 0 <= i < |s| && s[i].key == key;
      assert s[1..][i - 1].key == key;
      WithoutShrinks(s[1..], key);
    }
  }

  lemma {:induction false} WithoutLength<V(!new)>(s: Store<V>, key: Key)
    ensures |Without(s, key)| <= |s|
    ensures !Has(s, key) ==> Without(s, key) == s
  {
    if s != [] {
      WithoutLength(s[1..], key);
      if !Has(s, key) {
        assert s[0].key != key;
        assert forall i :: 0 <= i < |s[1..]| ==> s[1..][i] == s[i + 1];
        assert s == [s[0]] + s[1..];
      }
    }
  }

  lemma {:induction false} GetKeepsValid<V(!new)>(s: Store<V>, key: Key, now: real)
    requires Distinct(s)
    ensures var (s', _) := AfterGet(s, key, now); Distinct(s') && |s'| <= |s|
  {
    LookupFinds(s, key);
    WithoutKeeps(s, key, (a, b) => a != b);
    WithoutLength(s, key);
    if Has(s, key) {
      WithoutShrinks(s, key);
      PairwiseSnoc(Without(s, key), Lookup(s, key).value, (a, b) => a != b);
    }
  }

  lemma {:induction false} RoomShape<V(!new)>(s: Store<V>, maxSize: nat, key: Key, now: real, rel: (Key, Key) -> bool)
    requires |s| <= maxSize && maxSize >= 1
    ensures |Room(s, maxSize, key, now)| < maxSize
    ensures forall e :: e in Room(s, maxSize, key, now) ==> e in s && e.key != key
    ensures Pairwise(s, rel) ==> Pairwise(Room(s, maxSize, key, now), rel)
  {
    var live := Live(s, now);
    LiveKeeps(s, now, rel);
    WithoutKeeps(live, key, rel);
    if Has(live, key) {
      WithoutShrinks(live, key);
    } else {
      assert forall e :: e in live ==> e.key != key;
    }
  }

  /** An entry `set` drops has expired, or was the front of a full store. */
  lemma {:induction false} RoomDrops<V(!new)>(s: Store<V>, maxSize: nat, key: Key, now: real, e: Entry<V>)
    requires maxSize >= 1
    requires e in s && e.key != key && e !in Room(s, maxSize, key, now)
    ensures e.expiresAt <= now ||
            (|Live(s, now)| >= maxSize && !Has(Live(s, now), key) && Live(s, now)[0] == e)
  {
    var live := Live(s, now);
    LiveKeeps(s, now, (a, b) => true);
    WithoutKeeps(live, key, (a, b) => true);
    if e.expiresAt > now {
      assert e in live;
      assert forall j :: 0 < j < |live| ==> live[1..][j - 1] == live[j];
    }
  }

  lemma {:induction false} SetKeepsValid<V(!new)>(s: Store<V>, maxSize: nat, key: Key, value: V, ttl: int,
        stamp: real, now: real)
    requires Distinct(s) && |s| <= maxSize && maxSize >= 1
    ensures var s' := AfterSet(s, maxSize, key, value, ttl, stamp, now); Distinct(s') && |s'| <= maxSize
  {
    RoomShape(s, maxSize, key, now, (a, b) => a != b);
    PairwiseSnoc(Room(s, maxSize, key, now), Entry(key, value, stamp + Lifetime(ttl)), (a, b) => a != b);
  }

  // ---------------------------------------------------------------------------
  // The class
  // ---------------------------------------------------------------------------

  class MemoryTTLCache<V(!new)> {
    var store: Store<V>
    const maxSize: nat
    var hits: nat
    var misses: nat

    ghost predicate Valid()
      reads this
    {
      maxSize >= 1 && |store| <= maxSize && Distinct(store)
    }

    constructor (size: int)
      ensures Valid() && store == [] && hits == 0 && misses == 0
      ensures maxSize == (if size < 1 then 1 else size)
    {
      maxSize := if size < 1 then 1 else size;
      store := [];
      hits, misses := 0, 0;
    }

    method EvictExpired(now: real)
      modifies this`store
      ensures store == Live(old(store), now)
    {
      var kept := [];
      var i := 0;
      while i < |store|
        invariant 0 <= i <= |store|
        invariant kept + Live(store[i..], now) == Live(store, now)
      {
        assert store[i..] == [store[i]] + store[i + 1..];
        if store[i].expiresAt > now {
          kept := kept + [store[i]];
        }
        i := i + 1;
      }
      store := kept;
    }

    method Get(key: Key, now: real) returns (r: Option<V>)
      requires Valid()
      modifies this`store, this`hits, this`misses
      ensures Valid() && (store, r) == AfterGet(old(store), key, now)
      ensures hits == old(hits) + (if r.Some? then 1 else 0)
      ensures misses == old(misses) + (if r.Some? then 0 else 1)
    {
      GetKeepsValid(store, key, now);
      var payload := Lookup(store, key);
      if payload.None? {
        misses := misses + 1;
        return None;
      }
      if payload.value.expiresAt <= now {
        store := Without(store, key);
        misses := misses + 1;
        return None;
      }
      hits := hits + 1;
      store := Without(store, key) + [payload.value];
      return Some(payload.value.value);
    }

    method Set(key: Key, value: V, ttl: int, stamp: real, now: real)
      requires Valid()
      modifies this`store
      ensures Valid() && store == AfterSet(old(store), maxSize, key, value, ttl, stamp, now)
    {
      SetKeepsValid(store, maxSize, key, value, ttl, stamp, now);
      EvictExpired(now);
      if Has(store, key) {
        store := Without(store, key);
      } else if |store| >= maxSize {
        store := store[1..];
      }
      store := store + [Entry(key, value, stamp + Lifetime(ttl))];
    }
  }
}
