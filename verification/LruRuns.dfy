/**
  Whole runs of one `MemoryTTLCache`: what a hit returns, and why a key can be missing.

  A run is the sequence of `get` and `set` calls made so far.  The last touch of a key is
  its last `set` or hit, and the rivals of a key are the other keys touched since then.
*/
module LruRuns {
  import opened Options
  import opened MemoryCache
  import opened Sets

  datatype Call<V> =
    | GetCall(key: Key, now: real)
    | SetCall(key: Key, value: V, ttl: int, stamp: real, now: real)

  function Step<V>(maxSize: nat, s: Store<V>, c: Call<V>): (Store<V>, Option<V>) {
    match c
    case GetCall(key, now) => AfterGet(s, key, now)
    case SetCall(key, value, ttl, stamp, now) =>
      (AfterSet(s, maxSize, key, value, ttl, stamp, now), None)
  }

  function Run<V>(maxSize: nat, calls: seq<Call<V>>): Store<V> {
    if calls == [] then []
    else Step(maxSize, Run(maxSize, calls[..|calls| - 1]), calls[|calls| - 1]).0
  }

  /** What the last call of the run returned. */
  function Answer<V>(maxSize: nat, calls: seq<Call<V>>): Option<V>
    requires calls != []
  {
    Step(maxSize, Run(maxSize, calls[..|calls| - 1]), calls[|calls| - 1]).1
  }

  /** The last call is a `set`, or a `get` that hit. */
  predicate Touches<V>(maxSize: nat, calls: seq<Call<V>>)
    requires calls != []
  {
    calls[|calls| - 1].SetCall? || Answer(maxSize, calls).Some?
  }

  function LastTouch<V>(maxSize: nat, calls: seq<Call<V>>, key: Key): int {
    if calls == [] then -1
    else if calls[|calls| - 1].key == key && Touches(maxSize, calls) then |calls| - 1
    else LastTouch(maxSize, calls[..|calls| - 1], key)
  }

  function LastSet<V>(calls: seq<Call<V>>, key: Key): int {
    if calls == [] then -1
    else if calls[|calls| - 1].key == key && calls[|calls| - 1].SetCall? then |calls| - 1
    else LastSet(calls[..|calls| - 1], key)
  }

  /** The distinct other keys set or hit since the last touch of `key`. */
  function Rivals<V>(maxSize: nat, calls: seq<Call<V>>, key: Key): set<Key> {
    if calls == [] then {}
    else if !Touches(maxSize, calls) then Rivals(maxSize, calls[..|calls| - 1], key)
    else if calls[|calls| - 1].key == key then {}
    else Rivals(maxSize, calls[..|calls| - 1], key) + {calls[|calls| - 1].key}
  }

  /** When the value last set for a key stops being served. */
  function Expiry<V>(calls: seq<Call<V>>, key: Key): real
    requires 0 <= LastSet(calls, key) < |calls| && calls[LastSet(calls, key)].SetCall?
  {
    var c := calls[LastSet(calls, key)];
    c.stamp + Lifetime(c.ttl)
  }

  /** The call drops the key if its reading of the clock is past the expiry: any `set`, but only the key's own `get`. */
  predicate Inspects<V>(c: Call<V>, key: Key) {
    c.SetCall? || c.key == key
  }

  /**
    Some call that inspects the key, made since its last `set`, read the clock at or past the
    expiry.  A call reads the clock before it takes the lock, so readings need not grow in
    lock order and the call that dropped the entry need not be the last one.
  */
  ghost predicate FoundExpired<V>(calls: seq<Call<V>>, key: Key) {
    && 0 <= LastSet(calls, key) < |calls| && calls[LastSet(calls, key)].SetCall?
    && exists i :: LastSet(calls, key) < i < |calls| && Inspects(calls[i], key) && Expiry(calls, key) <= calls[i].now
  }

  lemma {:induction false} LastSetIsASet<V(!new)>(calls: seq<Call<V>>, key: Key)
    ensures -1 <= LastSet(calls, key) < |calls|
    ensures LastSet(calls, key) >= 0 ==>
              calls[LastSet(calls, key)].SetCall? && calls[LastSet(calls, key)].key == key
    ensures forall i :: LastSet(calls, key) < i < |calls| ==> !(calls[i].SetCall? && calls[i].key == key)
  {
    if calls != [] {
      LastSetIsASet(calls[..|calls| - 1], key);
    }
  }

  lemma {:induction false} LastTouchBounds<V(!new)>(maxSize: nat, calls: seq<Call<V>>, key: Key)
    ensures LastSet(calls, key) <= LastTouch(maxSize, calls, key) < |calls|
  {
    if calls != [] {
      LastTouchBounds(maxSize, calls[..|calls| - 1], key);
    }
  }

  /** The rivals are exactly the keys touched later than `key`. */
  lemma {:induction false} RivalsAreTheLaterTouches<V(!new)>(maxSize: nat, calls: seq<Call<V>>, key: Key, other: Key)
    requires other != key
    ensures other in Rivals(maxSize, calls, key) <==>
            LastTouch(maxSize, calls, other) > LastTouch(maxSize, calls, key)
  {
    if calls != [] {
      var pre := calls[..|calls| - 1];
      RivalsAreTheLaterTouches(maxSize, pre, key, other);
      LastTouchBounds(maxSize, pre, key);
      LastTouchBounds(maxSize, pre, other);
    }
  }

  // ---------------------------------------------------------------------------
  // What every call keeps
  // ---------------------------------------------------------------------------

  ghost predicate Current<V>(calls: seq<Call<V>>, e: Entry<V>) {
    var n := LastSet(calls, e.key);
    && 0 <= n < |calls|
    && calls[n].SetCall?
    && calls[n].value == e.value
    && e.expiresAt == calls[n].stamp + Lifetime(calls[n].ttl)
  }

  ghost predicate Inv<V(!new)>(maxSize: nat, calls: seq<Call<V>>) {
    var s := Run(maxSize, calls);
    && |s| <= maxSize
    && Pairwise(s, (a, b) => LastTouch(maxSize, calls, a) < LastTouch(maxSize, calls, b))
    && forall e :: e in s ==> Current(calls, e)
  }

  lemma {:induction false} OrderMoves<V(!new)>(maxSize: nat, calls: seq<Call<V>>, s: Store<V>)
    requires calls != []
    requires Pairwise(s, (a, b) =>
               LastTouch(maxSize, calls[..|calls| - 1], a) < LastTouch(maxSize, calls[..|calls| - 1], b))
    requires Touches(maxSize, calls) ==> forall e :: e in s ==> e.key != calls[|calls| - 1].key
    ensures Pairwise(s, (a, b) => LastTouch(maxSize, calls, a) < LastTouch(maxSize, calls, b))
  {
    forall i, j | 0 <= i < j < |s|
      ensures LastTouch(maxSize, calls, s[i].key) < LastTouch(maxSize, calls, s[j].key)
    {
      assert s[i] in s && s[j] in s;
    }
  }

  lemma {:induction false} CurrentMoves<V(!new)>(calls: seq<Call<V>>, e: Entry<V>)
    requires calls != [] && Current(calls[..|calls| - 1], e)
    requires calls[|calls| - 1].SetCall? ==> calls[|calls| - 1].key != e.key
    ensures Current(calls, e)
  {
  }

  lemma {:induction false} OrderIsDistinct<V(!new)>(maxSize: nat, calls: seq<Call<V>>, s: Store<V>)
    requires Pairwise(s, (a, b) => LastTouch(maxSize, calls, a) < LastTouch(maxSize, calls, b))
    ensures Distinct(s)
  {
  }

  lemma {:induction false} InvGet<V(!new)>(maxSize: nat, calls: seq<Call<V>>)
    requires calls != [] && calls[|calls| - 1].GetCall?
    requires Inv(maxSize, calls[..|calls| - 1])
    ensures Inv(maxSize, calls)
  {
    var pre := calls[..|calls| - 1];
    var c := calls[|calls| - 1];
    var s := Run(maxSize, pre);
    var before := (a, b) => LastTouch(maxSize, pre, a) < LastTouch(maxSize, pre, b);
    var after := (a, b) => LastTouch(maxSize, calls, a) < LastTouch(maxSize, calls, b);
    LookupFinds(s, c.key);
    WithoutKeeps(s, c.key, before);
    WithoutLength(s, c.key);
    OrderMoves(maxSize, calls, Without(s, c.key));
    forall e | e in Run(maxSize, calls)
      ensures Current(calls, e)
    {
      assert e in s;
      CurrentMoves(calls, e);
    }
    if Touches(maxSize, calls) {
      WithoutShrinks(s, c.key);
      var e := Lookup(s, c.key).value;
      forall x | x in Without(s, c.key)
        ensures after(x.key, e.key)
      {
        LastTouchBounds(maxSize, pre, x.key);
      }
      PairwiseSnoc(Without(s, c.key), e, after);
    } else {
      if Lookup(s, c.key).None? {
        OrderMoves(maxSize, calls, s);
      }
    }
  }

  lemma {:induction false} InvSet<V(!new)>(maxSize: nat, calls: seq<Call<V>>)
    requires maxSize >= 1 && calls != [] && calls[|calls| - 1].SetCall?
    requires Inv(maxSize, calls[..|calls| - 1])
    ensures Inv(maxSize, calls)
  {
    var pre := calls[..|calls| - 1];
    var c := calls[|calls| - 1];
    var s := Run(maxSize, pre);
    var room := Room(s, maxSize, c.key, c.now);
    RoomShape(s, maxSize, c.key, c.now, (a, b) => LastTouch(maxSize, pre, a) < LastTouch(maxSize, pre, b));
    OrderMoves(maxSize, calls, room);
    forall e | e in room
      ensures Current(calls, e)
    {
      CurrentMoves(calls, e);
    }
    var e := Entry(c.key, c.value, c.stamp + Lifetime(c.ttl));
    forall x | x in room
      ensures LastTouch(maxSize, calls, x.key) < LastTouch(maxSize, calls, e.key)
    {
      LastTouchBounds(maxSize, pre, x.key);
    }
    PairwiseSnoc(room, e, (a, b) => LastTouch(maxSize, calls, a) < LastTouch(maxSize, calls, b));
  }

  /** Size bound, recency order and up-to-date entries, after every run. */
  lemma {:induction false} RunsKeepRecencyOrder<V(!new)>(maxSize: nat, calls: seq<Call<V>>)
    requires maxSize >= 1
    ensures Inv(maxSize, calls) && Distinct(Run(maxSize, calls))
  {
    if calls != [] {
      RunsKeepRecencyOrder(maxSize, calls[..|calls| - 1]);
      if calls[|calls| - 1].GetCall? {
        InvGet(maxSize, calls);
      } else {
        InvSet(maxSize, calls);
      }
    }
    OrderIsDistinct(maxSize, calls, Run(maxSize, calls));
  }

  // ---------------------------------------------------------------------------
  // Hits and misses
  // ---------------------------------------------------------------------------

  /** A hit returns the value last set for that key, before it expired. */
  lemma {:induction false} HitReturnsLastSet<V(!new)>(maxSize: nat, calls: seq<Call<V>>)
    requires maxSize >= 1 && calls != [] && calls[|calls| - 1].GetCall?
    requires Answer(maxSize, calls).Some?
    ensures var c := calls[|calls| - 1];
            var n := LastSet(calls, c.key);
            0 <= n < |calls| && calls[n].SetCall? && calls[n].key == c.key &&
            Answer(maxSize, calls) == Some(calls[n].value) &&
            c.now < calls[n].stamp + Lifetime(calls[n].ttl)
  {
    var pre := calls[..|calls| - 1];
    RunsKeepRecencyOrder(maxSize, pre);
    LookupFinds(Run(maxSize, pre), calls[|calls| - 1].key);
    LastSetIsASet(calls, calls[|calls| - 1].key);
  }

  ghost function KeysOf<V>(s: Store<V>): set<Key> {
    set e | e in s :: e.key
  }

  lemma {:induction false} DistinctKeysCount<V(!new)>(s: Store<V>)
    requires Distinct(s)
    ensures |KeysOf(s)| == |s|
  {
    if s != [] {
      var rest := s[1..];
      RestIsDistinct(s);
      DistinctKeysCount(rest);
      KeysOfCons(s);
    }
  }

  lemma {:induction false} RestIsDistinct<V(!new)>(s: Store<V>)
    requires s != [] && Distinct(s)
    ensures Distinct(s[1..]) && s[0].key !in KeysOf(s[1..])
  {
    var rest := s[1..];
    assert forall i :: 0 <= i < |rest| ==> rest[i] == s[i + 1];
  }

  lemma {:induction false} KeysOfCons<V(!new)>(s: Store<V>)
    requires s != []
    ensures KeysOf(s) == KeysOf(s[1..]) + {s[0].key}
  {
    assert s == [s[0]] + s[1..];
  }

  /** When the front of a full store goes, the rest of the store and the new key are its rivals. */
  lemma {:induction false} FrontHasRivals<V(!new)>(maxSize: nat, pre: seq<Call<V>>, live: Store<V>, newKey: Key)
    requires live != [] && !Has(live, newKey)
    requires Pairwise(live, (a, b) => LastTouch(maxSize, pre, a) < LastTouch(maxSize, pre, b))
    ensures |Rivals(maxSize, pre, live[0].key) + {newKey}| >= |live|
  {
    var key := live[0].key;
    OrderIsDistinct(maxSize, pre, live);
    DistinctKeysCount(live);
    var others := KeysOf(live) - {key} + {newKey};
    forall k | k in others
      ensures k in Rivals(maxSize, pre, key) + {newKey}
    {
      if k != newKey {
        var j :| 0 <= j < |live| && live[j].key == k;
        RivalsAreTheLaterTouches(maxSize, pre, key, k);
      }
    }
    SubsetCard(others, Rivals(maxSize, pre, key) + {newKey});
    assert live[0].key in KeysOf(live) && newKey !in KeysOf(live);
  }

  /** A `set` of another key removes `key` only if it expired or was the front of a full store. */
  lemma {:induction false} EvictionNeedsRivals<V(!new)>(maxSize: nat, calls: seq<Call<V>>, key: Key)
    requires maxSize >= 1 && calls != [] && calls[|calls| - 1].SetCall?
    requires key != calls[|calls| - 1].key
    requires Has(Run(maxSize, calls[..|calls| - 1]), key) && !Has(Run(maxSize, calls), key)
    ensures 0 <= LastSet(calls, key) < |calls| && calls[LastSet(calls, key)].SetCall?
    ensures Expiry(calls, key) <= calls[|calls| - 1].now || |Rivals(maxSize, calls, key)| >= maxSize
  {
    var pre := calls[..|calls| - 1];
    var c := calls[|calls| - 1];
    var s := Run(maxSize, pre);
    RunsKeepRecencyOrder(maxSize, pre);
    var i :| 0 <= i < |s| && s[i].key == key;
    assert s[i] in s && Current(pre, s[i]);
    CurrentMoves(calls, s[i]);
    var room := Room(s, maxSize, c.key, c.now);
    assert forall n :: 0 <= n < |room| ==> Run(maxSize, calls)[n] == room[n];
    assert s[i] !in room;
    RoomDrops(s, maxSize, c.key, c.now, s[i]);
    if s[i].expiresAt > c.now {
      LiveKeeps(s, c.now, (a, b) => LastTouch(maxSize, pre, a) < LastTouch(maxSize, pre, b));
      FrontHasRivals(maxSize, pre, Live(s, c.now), c.key);
    }
  }

  /** A `get` removes a key only when it is that key's own and it has expired. */
  lemma {:induction false} GetDropsOnlyExpired<V(!new)>(maxSize: nat, calls: seq<Call<V>>, key: Key)
    requires maxSize >= 1 && calls != [] && calls[|calls| - 1].GetCall?
    requires Has(Run(maxSize, calls[..|calls| - 1]), key) && !Has(Run(maxSize, calls), key)
    ensures 0 <= LastSet(calls, key) < |calls| && calls[LastSet(calls, key)].SetCall?
    ensures calls[|calls| - 1].key == key && Expiry(calls, key) <= calls[|calls| - 1].now
  {
    var pre := calls[..|calls| - 1];
    var c := calls[|calls| - 1];
    var s := Run(maxSize, pre);
    var after := Run(maxSize, calls);
    RunsKeepRecencyOrder(maxSize, pre);
    LookupFinds(s, c.key);
    WithoutKeeps(s, c.key, (a, b) => true);
    var i :| 0 <= i < |s| && s[i].key == key;
    assert forall x :: x in s && x.key != c.key ==> x in after;
    assert s[i] in s;
    var e := Lookup(s, key).value;
    CurrentMoves(calls, e);
    assert e.expiresAt > c.now ==> e in after;
  }

  /** A key that was set and is no longer stored was found expired or has `maxSize` rivals. */
  lemma {:induction false} AbsenceExplained<V(!new)>(maxSize: nat, calls: seq<Call<V>>, key: Key)
    requires maxSize >= 1
    requires LastSet(calls, key) >= 0 && !Has(Run(maxSize, calls), key)
    ensures FoundExpired(calls, key) || |Rivals(maxSize, calls, key)| >= maxSize
  {
    LastSetIsASet(calls, key);
    var pre := calls[..|calls| - 1];
    var c := calls[|calls| - 1];
    if Has(Run(maxSize, pre), key) {
      if c.GetCall? {
        GetDropsOnlyExpired(maxSize, calls, key);
      } else {
        SetStores(maxSize, calls);
        EvictionNeedsRivals(maxSize, calls, key);
      }
    } else {
      AbsencePersists(maxSize, calls, key);
      AbsenceExplained(maxSize, pre, key);
      SubsetCard(Rivals(maxSize, pre, key), Rivals(maxSize, calls, key));
    }
  }

  lemma {:induction false} SetStores<V(!new)>(maxSize: nat, calls: seq<Call<V>>)
    requires calls != [] && calls[|calls| - 1].SetCall?
    ensures Has(Run(maxSize, calls), calls[|calls| - 1].key)
  {
    var after := Run(maxSize, calls);
    assert after[|after| - 1].key == calls[|calls| - 1].key;
  }

  lemma {:induction false} AbsencePersists<V(!new)>(maxSize: nat, calls: seq<Call<V>>, key: Key)
    requires calls != [] && LastSet(calls, key) >= 0
    requires !Has(Run(maxSize, calls[..|calls| - 1]), key) && !Has(Run(maxSize, calls), key)
    ensures LastSet(calls, key) == LastSet(calls[..|calls| - 1], key)
    ensures Rivals(maxSize, calls[..|calls| - 1], key) <= Rivals(maxSize, calls, key)
  {
    if calls[|calls| - 1].SetCall? {
      SetStores(maxSize, calls);
    } else {
      LookupFinds(Run(maxSize, calls[..|calls| - 1]), calls[|calls| - 1].key);
    }
  }

  /**
    The eviction theorem: a `get` that misses was preceded by no `set` of that key, or some
    call since then found the value last set expired, or at least `maxSize` distinct other
    keys were set or hit since the key's own last touch.
  */
  lemma {:induction false} MissExplained<V(!new)>(maxSize: nat, calls: seq<Call<V>>)
    requires maxSize >= 1 && calls != [] && calls[|calls| - 1].GetCall?
    requires Answer(maxSize, calls).None?
    ensures var key := calls[|calls| - 1].key;
            || LastSet(calls, key) == -1
            || FoundExpired(calls, key)
            || |Rivals(maxSize, calls, key)| >= maxSize
  {
    var key := calls[|calls| - 1].key;
    var s := Run(maxSize, calls[..|calls| - 1]);
    LastSetIsASet(calls, key);
    if LastSet(calls, key) >= 0 {
      LookupFinds(s, key);
      WithoutKeeps(s, key, (a, b) => true);
      assert Lookup(s, key).Some? ==> !Has(Without(s, key), key);
      AbsenceExplained(maxSize, calls, key);
    }
  }

  lemma {:induction false} SetKeepsOnlyLive<V(!new)>(s: Store<V>, maxSize: nat, c: Call<V>, e: Entry<V>)
    requires c.SetCall? && e in AfterSet(s, maxSize, c.key, c.value, c.ttl, c.stamp, c.now) && e.key != c.key
    ensures e in s && e.expiresAt > c.now
  {
    LiveKeeps(s, c.now, (a, b) => true);
    WithoutKeeps(Live(s, c.now), c.key, (a, b) => true);
  }

  lemma {:induction false} GetKeepsOnlyLive<V(!new)>(s: Store<V>, key: Key, now: real, e: Entry<V>)
    requires Distinct(s) && e in AfterGet(s, key, now).0
    ensures e in s && (e.key == key ==> e.expiresAt > now)
  {
    LookupFinds(s, key);
    WithoutKeeps(s, key, (a, b) => true);
  }

  /** A call that inspects a stored key and reads the clock at or past its expiry drops it. */
  lemma {:induction false} InspectionDrops<V(!new)>(maxSize: nat, calls: seq<Call<V>>, key: Key)
    requires maxSize >= 1 && calls != []
    requires var c := calls[|calls| - 1]; Inspects(c, key) && !(c.SetCall? && c.key == key)
    requires 0 <= LastSet(calls, key) < |calls| && calls[LastSet(calls, key)].SetCall?
    requires Expiry(calls, key) <= calls[|calls| - 1].now
    ensures !Has(Run(maxSize, calls), key)
  {
    var pre := calls[..|calls| - 1];
    RunsKeepRecencyOrder(maxSize, pre);
    assert forall e :: e in Run(maxSize, pre) ==> Current(pre, e);
    forall e | e in Run(maxSize, calls)
      ensures e.key != key
    {
      if e.key == key {
        StoredBefore(maxSize, calls, e);
      }
    }
  }

  /** An entry the last call did not set was stored before it, and alive if that call inspected it. */
  lemma {:induction false} StoredBefore<V(!new)>(maxSize: nat, calls: seq<Call<V>>, e: Entry<V>)
    requires maxSize >= 1 && calls != [] && e in Run(maxSize, calls)
    requires var c := calls[|calls| - 1]; !(c.SetCall? && c.key == e.key)
    ensures e in Run(maxSize, calls[..|calls| - 1])
    ensures Inspects(calls[|calls| - 1], e.key) ==> e.expiresAt > calls[|calls| - 1].now
  {
    var c := calls[|calls| - 1];
    var s := Run(maxSize, calls[..|calls| - 1]);
    if c.SetCall? {
      SetKeepsOnlyLive(s, maxSize, c, e);
    } else {
      RunsKeepRecencyOrder(maxSize, calls[..|calls| - 1]);
      GetKeepsOnlyLive(s, c.key, c.now, e);
    }
  }

  /** Once found expired a key stays away until it is set again. */
  lemma {:induction false} ExpiredIsGone<V(!new)>(maxSize: nat, calls: seq<Call<V>>, key: Key)
    requires maxSize >= 1 && FoundExpired(calls, key)
    ensures !Has(Run(maxSize, calls), key)
  {
    var n := |calls| - 1;
    var pre := calls[..n];
    LastSetIsASet(calls, key);
    if Inspects(calls[n], key) && Expiry(calls, key) <= calls[n].now {
      InspectionDrops(maxSize, calls, key);
    } else {
      ExpiredIsGone(maxSize, pre, key);
      forall e | e in Run(maxSize, calls)
        ensures e.key != key
      {
        if e.key == key {
          StoredBefore(maxSize, calls, e);
        }
      }
    }
  }

  /**
    For a key that was set and has fewer than `maxSize` rivals a `get` misses exactly if some
    call since that `set` found it expired, and otherwise returns the value set.
  */
  lemma {:induction false} RecentKeyMissesExactlyWhen<V(!new)>(maxSize: nat, calls: seq<Call<V>>)
    requires maxSize >= 1 && calls != [] && calls[|calls| - 1].GetCall?
    requires var key := calls[|calls| - 1].key; LastSet(calls, key) >= 0 && |Rivals(maxSize, calls, key)| < maxSize
    ensures 0 <= LastSet(calls, calls[|calls| - 1].key) < |calls|
    ensures var key := calls[|calls| - 1].key;
            var c := calls[LastSet(calls, key)];
            c.SetCall? && Answer(maxSize, calls) == if FoundExpired(calls, key) then None else Some(c.value)
  {
    var key := calls[|calls| - 1].key;
    var s := Run(maxSize, calls[..|calls| - 1]);
    LastSetIsASet(calls, key);
    if Answer(maxSize, calls).None? {
      MissExplained(maxSize, calls);
    } else {
      HitReturnsLastSet(maxSize, calls);
      LookupFinds(s, key);
      assert Has(Run(maxSize, calls), key) by {
        var after := Run(maxSize, calls);
        assert after[|after| - 1].key == key;
      }
      if FoundExpired(calls, key) {
        ExpiredIsGone(maxSize, calls, key);
      }
    }
  }

  /**
    The reading of the missing `get` itself need not be past the expiry.  A `get` that reads
    the clock before the expiry misses such a key exactly if an earlier call, with a later
    reading but first at the lock, has found it expired.
  */
  lemma {:induction false} LateReaderMissesExactlyWhen<V(!new)>(maxSize: nat, calls: seq<Call<V>>)
    requires maxSize >= 1 && calls != [] && calls[|calls| - 1].GetCall?
    requires var key := calls[|calls| - 1].key; LastSet(calls, key) >= 0 && |Rivals(maxSize, calls, key)| < maxSize
    requires var key := calls[|calls| - 1].key;
             0 <= LastSet(calls, key) < |calls| && calls[LastSet(calls, key)].SetCall? &&
             calls[|calls| - 1].now < Expiry(calls, key)
    ensures Answer(maxSize, calls).None? <==> FoundExpired(calls[..|calls| - 1], calls[|calls| - 1].key)
  {
    RecentKeyMissesExactlyWhen(maxSize, calls);
    FoundByAnEarlierCall(calls, calls[|calls| - 1].key);
  }

  lemma {:induction false} FoundByAnEarlierCall<V(!new)>(calls: seq<Call<V>>, key: Key)
    requires calls != [] && calls[|calls| - 1].GetCall?
    requires 0 <= LastSet(calls, key) < |calls| && calls[LastSet(calls, key)].SetCall?
    requires calls[|calls| - 1].now < Expiry(calls, key)
    ensures FoundExpired(calls, key) <==> FoundExpired(calls[..|calls| - 1], key)
  {
    var n := |calls| - 1;
    var pre := calls[..n];
    assert LastSet(pre, key) == LastSet(calls, key) < n;
    assert Expiry(pre, key) == Expiry(calls, key);
    if FoundExpired(calls, key) {
      var i :| LastSet(calls, key) < i < |calls| && Inspects(calls[i], key) && Expiry(calls, key) <= calls[i].now;
      assert pre[i] == calls[i];
    }
  }

  /** Such a run: the clean-up of another key's `set` is first at the lock. */
  lemma {:induction false} LateReaderMisses<V(!new)>(a: Key, b: Key, v: V)
    requires a != b
    ensures var calls := [SetCall(a, v, 10, 0.0, 0.0), SetCall(b, v, 10, 11.0, 11.0), GetCall(a, 9.0)];
            && Answer(2, calls).None? && |Rivals(2, calls, a)| < 2
            && LastSet(calls, a) == 0 && 9.0 < Expiry(calls, a)
  {
    var first, second, third := SetCall(a, v, 10, 0.0, 0.0), SetCall(b, v, 10, 11.0, 11.0), GetCall(a, 9.0);
    var one, two, three := [first], [first, second], [first, second, third];
    assert one[..0] == [] && two[..1] == one && three[..2] == two;
    assert Run(2, one) == [Entry(a, v, 10.0)];
    assert Live(Run(2, one), 11.0) == [];
    assert Run(2, two) == [Entry(b, v, 21.0)];
    assert LastSet(one, a) == 0 && LastSet(two, a) == 0 && LastSet(three, a) == 0;
    assert Lookup(Run(2, two), a).None?;
    assert Rivals(2, one, a) == {} && Rivals(2, two, a) == {b} && Rivals(2, three, a) == {b};
  }
}
