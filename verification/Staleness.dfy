/**
  Bounded staleness of the layered cache: any number of processes, each with its own
  memory cache and any number of threads, over one Redis.

  Reading the clock, taking the memory lock and talking to Redis are separate steps, so
  other threads may run between them.  `delay` bounds the pauses: how long after its clock
  reading a `set` may still write to memory and to Redis, how long after its clock reading a
  `get` may look into memory, and how long after its Redis read it may still backfill.  A
  thread that stops for good simply takes no further step.
*/
module Staleness {
  import opened Options
  import opened MemoryCache
  import opened LayeredCache

  datatype Tid = Tid(process: nat, thread: nat)

  datatype Thread<J> =
    | Idle
    | Setting(key: Key, value: Option<J>, ttl: int, since: real)
    | Storing(key: Key, value: Option<J>, ttl: int, since: real)
    | Looking(key: Key, since: real)
    | Missed(key: Key)
    | Filling(key: Key, found: J, since: real)
    | Stamped(key: Key, found: J, since: real, stamp: real)

  /** A `set` call whose clock reading was `at`. */
  datatype Given<J> = Given(key: Key, value: Option<J>, ttl: int, at: real)

  datatype World<J> = World(
    now: real,
    memory: map<nat, Store<Option<J>>>,
    shared: Shared<J>,
    threads: map<Tid, Thread<J>>,
    given: seq<Given<J>>)

  datatype Action<J> =
    | Wait(duration: real)
    | BeginSet(tid: Tid, key: Key, value: Option<J>, ttl: int)
    | SetMemory(tid: Tid)
    | EndSet(tid: Tid, ok: bool)
    | BeginGet(tid: Tid, key: Key)
    | ReadMemory(tid: Tid)
    | ReadShared(tid: Tid, ok: bool)
    | Stamp(tid: Tid)
    | Fill(tid: Tid)

  function Memory<J>(w: World<J>, process: nat): Store<Option<J>> {
    if process in w.memory then w.memory[process] else []
  }

  function ThreadOf<J>(w: World<J>, tid: Tid): Thread<J> {
    if tid in w.threads then w.threads[tid] else Idle
  }

  predicate Enabled<J>(delay: real, w: World<J>, a: Action<J>) {
    match a
    case Wait(duration) => duration >= 0.0
    case BeginSet(tid, _, _, _) => ThreadOf(w, tid).Idle?
    case SetMemory(tid) => ThreadOf(w, tid).Setting? && w.now <= ThreadOf(w, tid).since + delay
    case EndSet(tid, _) => ThreadOf(w, tid).Storing? && w.now <= ThreadOf(w, tid).since + delay
    case BeginGet(tid, _) => ThreadOf(w, tid).Idle?
    case ReadMemory(tid) => ThreadOf(w, tid).Looking? && w.now <= ThreadOf(w, tid).since + delay
    case ReadShared(tid, _) => ThreadOf(w, tid).Missed?
    case Stamp(tid) => ThreadOf(w, tid).Filling? && w.now <= ThreadOf(w, tid).since + delay
    case Fill(tid) => ThreadOf(w, tid).Stamped? && w.now <= ThreadOf(w, tid).since + delay
  }

  function Next<J>(maxSize: nat, delay: real, w: World<J>, a: Action<J>): World<J>
    requires Enabled(delay, w, a)
  {
    match a
    case Wait(duration) => w.(now := w.now + duration)
    case BeginSet(tid, key, value, ttl) =>
      w.(threads := w.threads[tid := Setting(key, value, ttl, w.now)],
         given := w.given + [Given(key, value, ttl, w.now)])
    case SetMemory(tid) =>
      var t := ThreadOf(w, tid);
      w.(memory := w.memory[tid.process := AfterSet(Memory(w, tid.process), maxSize, t.key, t.value, t.ttl,
                                                    t.since, w.now)],
         threads := w.threads[tid := Storing(t.key, t.value, t.ttl, t.since)])
    case EndSet(tid, ok) =>
      var t := ThreadOf(w, tid);
      w.(shared := SharedSet(w.shared, t.key, t.value, t.ttl, w.now, ok),
         threads := w.threads[tid := Idle])
    case BeginGet(tid, key) => w.(threads := w.threads[tid := Looking(key, w.now)])
    case ReadMemory(tid) =>
      var t := ThreadOf(w, tid);
      var (s, hit) := AfterGet(Memory(w, tid.process), t.key, t.since);
      w.(memory := w.memory[tid.process := s],
         threads := w.threads[tid := if Served(hit).Some? then Idle else Missed(t.key)])
    case ReadShared(tid, ok) =>
      var key := ThreadOf(w, tid).key;
      w.(threads := w.threads[tid :=
           match SharedGet(w.shared, key, w.now, ok)
           case None => Idle
           case Some(v) => Filling(key, v, w.now)])
    case Stamp(tid) =>
      var t := ThreadOf(w, tid);
      w.(threads := w.threads[tid := Stamped(t.key, t.found, t.since, w.now)])
    case Fill(tid) =>
      var t := ThreadOf(w, tid);
      w.(memory := w.memory[tid.process := AfterSet(Memory(w, tid.process), maxSize, t.key, Some(t.found),
                                                    CACHE_TTL_DEFAULT, t.stamp, w.now)],
         threads := w.threads[tid := Idle])
  }

  /** The key and value a `get` hands to its caller in this step, if it does. */
  function Returned<J>(w: World<J>, a: Action<J>): Option<(Key, J)> {
    match a
    case ReadMemory(tid) =>
      var t := ThreadOf(w, tid);
      if t.Looking? then
        match Served(AfterGet(Memory(w, tid.process), t.key, t.since).1)
        case Some(v) => Some((t.key, v))
        case None => None
      else None
    case Fill(tid) =>
      if ThreadOf(w, tid).Stamped? then Some((ThreadOf(w, tid).key, ThreadOf(w, tid).found)) else None
    case _ => None
  }

  predicate Legal<J>(maxSize: nat, delay: real, w: World<J>, run: seq<Action<J>>)
    decreases |run|
  {
    run == [] || (Enabled(delay, w, run[0]) && Legal(maxSize, delay, Next(maxSize, delay, w, run[0]), run[1..]))
  }

  function After<J>(maxSize: nat, delay: real, w: World<J>, run: seq<Action<J>>): World<J>
    requires Legal(maxSize, delay, w, run)
    decreases |run|
  {
    if run == [] then w else After(maxSize, delay, Next(maxSize, delay, w, run[0]), run[1..])
  }

  function Start<J>(): World<J> {
    World(0.0, map[], map[], map[], [])
  }

  // ---------------------------------------------------------------------------
  // Where a value may have come from
  // ---------------------------------------------------------------------------

  /** Some `set` gave this value to this key with a lifetime that reaches past `t`. */
  ghost predicate Fresh<J(!new)>(given: seq<Given<J>>, key: Key, value: Option<J>, t: real) {
    exists i :: 0 <= i < |given| && given[i].key == key && given[i].value == value &&
                t < given[i].at + Lifetime(given[i].ttl)
  }

  /** Same, with a lifetime that reaches up to `t`. */
  ghost predicate Covered<J(!new)>(given: seq<Given<J>>, key: Key, value: Option<J>, t: real) {
    exists i :: 0 <= i < |given| && given[i].key == key && given[i].value == value &&
                t <= given[i].at + Lifetime(given[i].ttl)
  }

  lemma {:induction false} CoveredGrows<J(!new)>(given: seq<Given<J>>, g: Given<J>, key: Key, value: Option<J>, t: real)
    ensures Covered(given, key, value, t) ==> Covered(given + [g], key, value, t)
    ensures Fresh(given, key, value, t) ==> Fresh(given + [g], key, value, t)
    ensures t <= g.at + Lifetime(g.ttl) ==> Covered(given + [g], g.key, g.value, t)
  {
    var more := given + [g];
    assert forall i :: 0 <= i < |given| ==> more[i] == given[i];
    assert more[|given|] == g;
  }

  ghost predicate StoreOk<J(!new)>(given: seq<Given<J>>, s: Store<Option<J>>, slack: real) {
    forall e :: e in s ==> Covered(given, e.key, e.value, e.expiresAt - slack)
  }

  ghost predicate ThreadOk<J(!new)>(given: seq<Given<J>>, t: Thread<J>, delay: real) {
    match t
    case Setting(key, value, ttl, since) => Covered(given, key, value, since + Lifetime(ttl))
    case Storing(key, value, ttl, since) => Covered(given, key, value, since + Lifetime(ttl))
    case Filling(key, found, since) => Fresh(given, key, Some(found), since - delay)
    case Stamped(key, found, since, stamp) => Fresh(given, key, Some(found), since - delay) && stamp <= since + delay
    case _ => true
  }

  ghost predicate Inv<J(!new)>(w: World<J>, delay: real, slack: real) {
    && (forall p :: StoreOk(w.given, Memory(w, p), slack))
    && (forall k :: k in w.shared ==> Covered(w.given, k, w.shared[k].0, w.shared[k].1 - delay))
    && (forall t :: ThreadOk(w.given, ThreadOf(w, t), delay))
  }

  lemma {:induction false} StoreOkGet<J(!new)>(given: seq<Given<J>>, s: Store<Option<J>>, slack: real,
        key: Key, now: real)
    requires StoreOk(given, s, slack)
    ensures StoreOk(given, AfterGet(s, key, now).0, slack)
    ensures var r := Served(AfterGet(s, key, now).1); r.Some? ==> Fresh(given, key, r, now - slack)
  {
    LookupFinds(s, key);
    WithoutKeeps(s, key, (a, b) => true);
  }

  lemma {:induction false} StoreOkSet<J(!new)>(given: seq<Given<J>>, s: Store<Option<J>>, slack: real,
        maxSize: nat, key: Key, value: Option<J>, ttl: int, stamp: real, now: real)
    requires StoreOk(given, s, slack)
    requires Covered(given, key, value, stamp + Lifetime(ttl) - slack)
    ensures StoreOk(given, AfterSet(s, maxSize, key, value, ttl, stamp, now), slack)
  {
    LiveKeeps(s, now, (a, b) => true);
    WithoutKeeps(Live(s, now), key, (a, b) => true);
    assert forall e :: e in Room(s, maxSize, key, now) ==> e in s;
  }

  lemma {:induction false} GivenGrows<J(!new)>(w: World<J>, g: Given<J>, delay: real, slack: real)
    requires Inv(w, delay, slack)
    ensures Inv(w.(given := w.given + [g]), delay, slack)
  {
    var w' := w.(given := w.given + [g]);
    forall p, e | e in Memory(w', p)
      ensures Covered(w'.given, e.key, e.value, e.expiresAt - slack)
    {
      assert StoreOk(w.given, Memory(w, p), slack) && Memory(w', p) == Memory(w, p);
      CoveredGrows(w.given, g, e.key, e.value, e.expiresAt - slack);
    }
    forall k | k in w'.shared
      ensures Covered(w'.given, k, w'.shared[k].0, w'.shared[k].1 - delay)
    {
      CoveredGrows(w.given, g, k, w.shared[k].0, w.shared[k].1 - delay);
    }
    forall t
      ensures ThreadOk(w'.given, ThreadOf(w', t), delay)
    {
      assert ThreadOk(w.given, ThreadOf(w, t), delay) && ThreadOf(w', t) == ThreadOf(w, t);
      match ThreadOf(w, t)
      case Setting(key, value, ttl, since) => CoveredGrows(w.given, g, key, value, since + Lifetime(ttl));
      case Storing(key, value, ttl, since) => CoveredGrows(w.given, g, key, value, since + Lifetime(ttl));
      case Filling(key, found, since) => CoveredGrows(w.given, g, key, Some(found), since - delay);
      case Stamped(key, found, since, _) => CoveredGrows(w.given, g, key, Some(found), since - delay);
      case _ =>
    }
  }

  /** Replacing one memory cache and one thread by good ones keeps the invariant. */
  lemma {:induction false} InvUpdates<J(!new)>(w: World<J>, w': World<J>, tid: Tid, s: Store<Option<J>>,
        t: Thread<J>, delay: real,
        slack: real)
    requires Inv(w, delay, slack)
    requires w'.given == w.given && w'.shared == w.shared
    requires w'.memory == w.memory[tid.process := s] && w'.threads == w.threads[tid := t]
    requires StoreOk(w.given, s, slack) && ThreadOk(w.given, t, delay)
    ensures Inv(w', delay, slack)
  {
    forall p
      ensures StoreOk(w'.given, Memory(w', p), slack)
    {
      assert StoreOk(w.given, Memory(w, p), slack);
    }
    forall u
      ensures ThreadOk(w'.given, ThreadOf(w', u), delay)
    {
      assert ThreadOk(w.given, ThreadOf(w, u), delay);
    }
  }

  /** So does replacing one thread alone. */
  lemma {:induction false} InvThread<J(!new)>(w: World<J>, w': World<J>, tid: Tid, t: Thread<J>, delay: real,
        slack: real)
    requires Inv(w, delay, slack)
    requires w' == w.(threads := w.threads[tid := t]) && ThreadOk(w.given, t, delay)
    ensures Inv(w', delay, slack)
  {
    forall p
      ensures StoreOk(w'.given, Memory(w', p), slack)
    {
      assert StoreOk(w.given, Memory(w, p), slack);
    }
    forall u
      ensures ThreadOk(w'.given, ThreadOf(w', u), delay)
    {
      assert ThreadOk(w.given, ThreadOf(w, u), delay);
    }
  }

  lemma {:induction false} InvSetStep<J(!new)>(maxSize: nat, delay: real, slack: real, w: World<J>, a: Action<J>)
    requires delay >= 0.0 && slack >= 0.0 && Enabled(delay, w, a) && Inv(w, delay, slack)
    requires a.BeginSet? || a.SetMemory?
    ensures Inv(Next(maxSize, delay, w, a), delay, slack)
  {
    var w' := Next(maxSize, delay, w, a);
    match a
    case BeginSet(tid, key, value, ttl) =>
      var g := Given(key, value, ttl, w.now);
      GivenGrows(w, g, delay, slack);
      CoveredGrows(w.given, g, key, value, w.now + Lifetime(ttl));
      InvThread(w.(given := w.given + [g]), w', tid, Setting(key, value, ttl, w.now), delay, slack);
    case SetMemory(tid) =>
      var t := ThreadOf(w, tid);
      assert ThreadOk(w.given, t, delay) && StoreOk(w.given, Memory(w, tid.process), slack);
      StoreOkSet(w.given, Memory(w, tid.process), slack, maxSize, t.key, t.value, t.ttl, t.since, w.now);
      InvUpdates(w, w', tid, w'.memory[tid.process], w'.threads[tid], delay, slack);
  }

  lemma {:induction false} InvGetStep<J(!new)>(maxSize: nat, delay: real, slack: real, w: World<J>, a: Action<J>)
    requires delay >= 0.0 && slack >= 0.0 && Enabled(delay, w, a) && Inv(w, delay, slack)
    requires a.BeginGet? || a.ReadMemory? || a.ReadShared? || a.Stamp?
    ensures Inv(Next(maxSize, delay, w, a), delay, slack)
  {
    var w' := Next(maxSize, delay, w, a);
    match a
    case BeginGet(tid, key) => InvThread(w, w', tid, w'.threads[tid], delay, slack);
    case ReadMemory(tid) =>
      var t := ThreadOf(w, tid);
      assert StoreOk(w.given, Memory(w, tid.process), slack);
      StoreOkGet(w.given, Memory(w, tid.process), slack, t.key, t.since);
      InvUpdates(w, w', tid, w'.memory[tid.process], w'.threads[tid], delay, slack);
    case ReadShared(tid, ok) => InvThread(w, w', tid, w'.threads[tid], delay, slack);
    case Stamp(tid) =>
      assert ThreadOk(w.given, ThreadOf(w, tid), delay);
      InvThread(w, w', tid, w'.threads[tid], delay, slack);
  }

  lemma {:induction false} InvFill<J(!new)>(maxSize: nat, delay: real, slack: real, w: World<J>, tid: Tid)
    requires delay >= 0.0 && Enabled(delay, w, Fill(tid)) && Inv(w, delay, slack)
    requires slack >= CACHE_TTL_DEFAULT as real + 2.0 * delay
    ensures Inv(Next(maxSize, delay, w, Fill(tid)), delay, slack)
  {
    var t := ThreadOf(w, tid);
    assert ThreadOk(w.given, t, delay);
    assert StoreOk(w.given, Memory(w, tid.process), slack);
    assert Covered(w.given, t.key, Some(t.found), t.stamp + Lifetime(CACHE_TTL_DEFAULT) - slack);
    StoreOkSet(w.given, Memory(w, tid.process), slack, maxSize, t.key, Some(t.found), CACHE_TTL_DEFAULT, t.stamp, w.now);
    var w' := Next(maxSize, delay, w, Fill(tid));
    InvUpdates(w, w', tid, w'.memory[tid.process], Idle, delay, slack);
  }

  /** Every step keeps the invariant; only a backfill needs the larger slack. */
  lemma {:induction false} InvStep<J(!new)>(maxSize: nat, delay: real, slack: real, w: World<J>, a: Action<J>)
    requires delay >= 0.0 && slack >= 0.0 && Enabled(delay, w, a) && Inv(w, delay, slack)
    requires a.Fill? ==> slack >= CACHE_TTL_DEFAULT as real + 2.0 * delay
    ensures Inv(Next(maxSize, delay, w, a), delay, slack)
  {
    match a
    case Wait(_) =>
      var w' := Next(maxSize, delay, w, a);
      assert forall p :: Memory(w', p) == Memory(w, p);
      assert forall t :: ThreadOf(w', t) == ThreadOf(w, t);
    case EndSet(tid, ok) => InvShared(maxSize, delay, slack, w, tid, ok);
    case Fill(tid) => InvFill(maxSize, delay, slack, w, tid);
    case _ =>
      if a.BeginSet? || a.SetMemory? {
        InvSetStep(maxSize, delay, slack, w, a);
      } else {
        InvGetStep(maxSize, delay, slack, w, a);
      }
  }

  lemma {:induction false} InvShared<J(!new)>(maxSize: nat, delay: real, slack: real, w: World<J>, tid: Tid, ok: bool)
    requires delay >= 0.0 && Enabled(delay, w, EndSet(tid, ok)) && Inv(w, delay, slack)
    ensures Inv(Next(maxSize, delay, w, EndSet(tid, ok)), delay, slack)
  {
    var w' := Next(maxSize, delay, w, EndSet(tid, ok));
    var t := ThreadOf(w, tid);
    assert ThreadOk(w.given, t, delay);
    forall k | k in w'.shared
      ensures Covered(w'.given, k, w'.shared[k].0, w'.shared[k].1 - delay)
    {
      if k !in w.shared || w'.shared[k] != w.shared[k] {
        assert k == t.key && w'.shared[k] == (t.value, w.now + Lifetime(t.ttl));
      }
    }
    forall u
      ensures ThreadOk(w'.given, ThreadOf(w', u), delay)
    {
      assert ThreadOk(w.given, ThreadOf(w, u), delay);
    }
    assert forall p :: Memory(w', p) == Memory(w, p);
  }

  ghost predicate Backfills<J(!new)>(run: seq<Action<J>>) {
    exists a :: a in run && a.Fill?
  }

  lemma {:induction false} InvRun<J(!new)>(maxSize: nat, delay: real, slack: real, w: World<J>, run: seq<Action<J>>)
    requires delay >= 0.0 && slack >= 0.0 && Legal(maxSize, delay, w, run) && Inv(w, delay, slack)
    requires Backfills(run) ==> slack >= CACHE_TTL_DEFAULT as real + 2.0 * delay
    ensures Inv(After(maxSize, delay, w, run), delay, slack)
    decreases |run|
  {
    if run != [] {
      assert run[0] in run && forall a :: a in run[1..] ==> a in run;
      InvStep(maxSize, delay, slack, w, run[0]);
      InvRun(maxSize, delay, slack, Next(maxSize, delay, w, run[0]), run[1..]);
    }
  }

  /**
    Bounded staleness.  In every interleaving, a value a `get` takes from the cache at time t
    was given by a `set` of that key at some t0 with t < t0 + max(ttl, 1) + 60 + 3 * delay;
    when no backfill has happened yet, t < t0 + max(ttl, 1) + delay.  For a `get` served from
    memory t is the time it looks, which may be up to `delay` after it read the clock.
  */
  lemma {:induction false} BoundedStaleness<J(!new)>(maxSize: nat, delay: real, run: seq<Action<J>>, a: Action<J>)
    requires delay >= 0.0 && Legal(maxSize, delay, Start<J>(), run)
    requires Enabled(delay, After(maxSize, delay, Start<J>(), run), a)
    requires Returned(After(maxSize, delay, Start<J>(), run), a).Some?
    ensures var w := After(maxSize, delay, Start<J>(), run);
            var (key, v) := Returned(w, a).value;
            && Fresh(w.given, key, Some(v), w.now - CACHE_TTL_DEFAULT as real - 3.0 * delay)
            && (!Backfills(run) && !a.Fill? ==> Fresh(w.given, key, Some(v), w.now - delay))
  {
    var w := After(maxSize, delay, Start<J>(), run);
    var slack := CACHE_TTL_DEFAULT as real + 2.0 * delay;
    InvRun(maxSize, delay, slack, Start<J>(), run);
    match a
    case ReadMemory(tid) =>
      var t := ThreadOf(w, tid);
      assert StoreOk(w.given, Memory(w, tid.process), slack);
      StoreOkGet(w.given, Memory(w, tid.process), slack, t.key, t.since);
      if !Backfills(run) {
        InvRun(maxSize, delay, 0.0, Start<J>(), run);
        assert StoreOk(w.given, Memory(w, tid.process), 0.0);
        StoreOkGet(w.given, Memory(w, tid.process), 0.0, t.key, t.since);
      }
    case Fill(tid) =>
      assert ThreadOk(w.given, ThreadOf(w, tid), delay);
  }

  /** A `get` whose parts run back to back at one instant is exactly `LayeredGet`. */
  lemma {:induction false} WholeGetIsItsSteps<J(!new)>(maxSize: nat, w: World<J>, tid: Tid, key: Key, ok: bool)
    requires ThreadOf(w, tid).Idle?
    ensures var (s, r) := LayeredGet(Memory(w, tid.process), maxSize, Some(w.shared), key, ok, w.now, w.now, w.now);
            var w0 := Next(maxSize, 0.0, w, BeginGet(tid, key));
            && Enabled(0.0, w0, ReadMemory(tid))
            && var w1 := Next(maxSize, 0.0, w0, ReadMemory(tid));
            if Returned(w0, ReadMemory(tid)).Some? then
              r == Some(Returned(w0, ReadMemory(tid)).value.1) && Memory(w1, tid.process) == s
            else
              && Enabled(0.0, w1, ReadShared(tid, ok))
              && var w2 := Next(maxSize, 0.0, w1, ReadShared(tid, ok));
                 if ThreadOf(w2, tid).Filling? then
                   && Enabled(0.0, w2, Stamp(tid))
                   && var w3 := Next(maxSize, 0.0, w2, Stamp(tid));
                   && Enabled(0.0, w3, Fill(tid))
                   && Returned(w3, Fill(tid)) == Some((key, ThreadOf(w2, tid).found))
                   && r == Some(ThreadOf(w2, tid).found)
                   && Memory(Next(maxSize, 0.0, w3, Fill(tid)), tid.process) == s
                 else
                   r == None && Memory(w2, tid.process) == s
  {
    var w0 := Next(maxSize, 0.0, w, BeginGet(tid, key));
    assert Memory(w0, tid.process) == Memory(w, tid.process);
    var w1 := Next(maxSize, 0.0, w0, ReadMemory(tid));
    if Returned(w0, ReadMemory(tid)).None? {
      var w2 := Next(maxSize, 0.0, w1, ReadShared(tid, ok));
      assert Memory(w2, tid.process) == Memory(w1, tid.process);
      if ThreadOf(w2, tid).Filling? {
        var w3 := Next(maxSize, 0.0, w2, Stamp(tid));
        assert Memory(w3, tid.process) == Memory(w2, tid.process);
      }
    }
  }

  /** A `set` whose parts run back to back at one instant does to memory and Redis what `LayeredCache.Set` does. */
  lemma {:induction false} WholeSetIsItsSteps<J(!new)>(maxSize: nat, w: World<J>, tid: Tid, key: Key,
        value: Option<J>, ttl: int, ok: bool)
    requires ThreadOf(w, tid).Idle?
    ensures var w1 := Next(maxSize, 0.0, w, BeginSet(tid, key, value, ttl));
            && Enabled(0.0, w1, SetMemory(tid))
            && var w2 := Next(maxSize, 0.0, w1, SetMemory(tid));
            && Enabled(0.0, w2, EndSet(tid, ok))
            && var w3 := Next(maxSize, 0.0, w2, EndSet(tid, ok));
            && ThreadOf(w3, tid).Idle?
            && Memory(w3, tid.process) == AfterSet(Memory(w, tid.process), maxSize, key, value, ttl, w.now, w.now)
            && w3.shared == SharedSet(w.shared, key, value, ttl, w.now, ok)
  {
    var w1 := Next(maxSize, 0.0, w, BeginSet(tid, key, value, ttl));
    assert Memory(w1, tid.process) == Memory(w, tid.process);
  }

  // ---------------------------------------------------------------------------
  // The bound is sharp
  // ---------------------------------------------------------------------------

  /** After some idle time a `get` reads the clock, and pauses before it looks. */
  function LookRun<J>(tid: Tid, key: Key, idle: real, pause: real): seq<Action<J>> {
    [Wait(idle), BeginGet(tid, key), Wait(pause)]
  }

  /** The backfill of a value just found in Redis, after a pause, and then the next `get`. */
  function FillerRun<J>(key: Key, pause: real, idle: real): seq<Action<J>> {
    [Wait(pause), Stamp(Tid(1, 0)), Fill(Tid(1, 0))] + LookRun(Tid(1, 0), key, idle, pause)
  }

  /** The reader's part: it finds the value in Redis after `gap`, and backfills. */
  function ReaderRun<J>(key: Key, pause: real, gap: real, idle: real): seq<Action<J>> {
    [Wait(gap), BeginGet(Tid(1, 0), key), ReadMemory(Tid(1, 0)), ReadShared(Tid(1, 0), true)]
    + FillerRun(key, pause, idle)
  }

  /** One process sets the key at time 0 and writes it to Redis after a pause; then the reader's part. */
  function StaleRun<J>(key: Key, v: J, ttl: int, pause: real, gap: real, idle: real): seq<Action<J>> {
    var writer := Tid(0, 0);
    [BeginSet(writer, key, Some(v), ttl), SetMemory(writer), Wait(pause), EndSet(writer, true)]
    + ReaderRun(key, pause, gap, idle)
  }

  /** A run that may be taken from `w` and ends in `last`. */
  ghost predicate Reaches<J>(maxSize: nat, delay: real, w: World<J>, run: seq<Action<J>>, last: World<J>) {
    Legal(maxSize, delay, w, run) && After(maxSize, delay, w, run) == last
  }

  lemma {:induction false} StepThenRun<J(!new)>(maxSize: nat, delay: real, w: World<J>, run: seq<Action<J>>,
        w': World<J>, last: World<J>)
    requires run != [] && Enabled(delay, w, run[0]) && Next(maxSize, delay, w, run[0]) == w'
    requires Reaches(maxSize, delay, w', run[1..], last)
    ensures Reaches(maxSize, delay, w, run, last)
  {
  }

  lemma {:induction false} LookServes<J(!new)>(maxSize: nat, delay: real, w: World<J>, tid: Tid, key: Key,
        idle: real, pause: real, last: World<J>)
    requires 0.0 <= pause && 0.0 <= idle && ThreadOf(w, tid).Idle?
    requires last == w.(now := w.now + idle + pause, threads := w.threads[tid := Looking(key, w.now + idle)])
    ensures Reaches(maxSize, delay, w, LookRun<J>(tid, key, idle, pause), last)
  {
    var run := LookRun<J>(tid, key, idle, pause);
    var w1 := Next(maxSize, delay, w, run[0]);
    var w2 := Next(maxSize, delay, w1, run[1]);
    StepThenRun(maxSize, delay, w2, run[2..], last, last);
    StepThenRun(maxSize, delay, w1, run[1..], w2, last);
    StepThenRun(maxSize, delay, w, run, w1, last);
  }

  lemma {:induction false} FillerServes<J(!new)>(maxSize: nat, delay: real, w: World<J>, key: Key, v: J, pause: real,
        idle: real, last: World<J>)
    requires maxSize >= 1 && 0.0 <= pause <= delay && 0.0 <= idle
    requires Memory(w, 1) == [] && ThreadOf(w, Tid(1, 0)) == Filling(key, v, w.now)
    requires last == World(w.now + pause + idle + pause, w.memory[1 := [Entry(key, Some(v), w.now + pause + 60.0)]],
                           w.shared, w.threads[Tid(1, 0) := Looking(key, w.now + pause + idle)], w.given)
    ensures Reaches(maxSize, delay, w, FillerRun<J>(key, pause, idle), last)
  {
    var run := FillerRun<J>(key, pause, idle);
    var w1 := Next(maxSize, delay, w, run[0]);
    var w2 := Next(maxSize, delay, w1, run[1]);
    assert Memory(w2, 1) == [];
    var w3 := Next(maxSize, delay, w2, run[2]);
    assert w3.memory[1] == [Entry(key, Some(v), w.now + pause + 60.0)];
    assert run[3..] == LookRun(Tid(1, 0), key, idle, pause);
    LookServes(maxSize, delay, w3, Tid(1, 0), key, idle, pause, last);
    StepThenRun(maxSize, delay, w2, run[2..], w3, last);
    StepThenRun(maxSize, delay, w1, run[1..], w2, last);
    StepThenRun(maxSize, delay, w, run, w1, last);
  }

  /** The reader has found nothing in memory, and the value in Redis. */
  lemma {:induction false} ReaderFinds<J(!new)>(maxSize: nat, delay: real, w: World<J>, key: Key, v: J, last: World<J>)
    requires delay >= 0.0 && Memory(w, 1) == [] && ThreadOf(w, Tid(1, 0)).Idle?
    requires key in w.shared && w.shared[key].0 == Some(v) && w.now < w.shared[key].1
    requires last == w.(memory := w.memory[1 := []], threads := w.threads[Tid(1, 0) := Filling(key, v, w.now)])
    ensures Reaches(maxSize, delay, w, [BeginGet(Tid(1, 0), key), ReadMemory(Tid(1, 0)), ReadShared(Tid(1, 0), true)],
                    last)
  {
    var run: seq<Action<J>> := [BeginGet(Tid(1, 0), key), ReadMemory(Tid(1, 0)), ReadShared(Tid(1, 0), true)];
    var w1 := Next(maxSize, delay, w, run[0]);
    assert Memory(w1, 1) == [] && Lookup(Memory(w1, 1), key).None?;
    var w2 := Next(maxSize, delay, w1, run[1]);
    assert w2 == w.(memory := w.memory[1 := []], threads := w.threads[Tid(1, 0) := Missed(key)]);
    StepThenRun(maxSize, delay, w2, run[2..], last, last);
    StepThenRun(maxSize, delay, w1, run[1..], w2, last);
    StepThenRun(maxSize, delay, w, run, w1, last);
  }

  lemma {:induction false} ReachesThen<J(!new)>(maxSize: nat, delay: real, w: World<J>, run: seq<Action<J>>,
        mid: World<J>, more: seq<Action<J>>, last: World<J>)
    requires Reaches(maxSize, delay, w, run, mid) && Reaches(maxSize, delay, mid, more, last)
    ensures Reaches(maxSize, delay, w, run + more, last)
    decreases |run|
  {
    if run == [] {
      assert run + more == more;
    } else {
      assert (run + more)[1..] == run[1..] + more;
      ReachesThen(maxSize, delay, Next(maxSize, delay, w, run[0]), run[1..], mid, more, last);
    }
  }

  lemma {:induction false} ReaderServes<J(!new)>(maxSize: nat, delay: real, w: World<J>, key: Key, v: J, pause: real,
        gap: real, idle: real, last: World<J>)
    requires maxSize >= 1 && 0.0 <= pause <= delay && 0.0 <= gap && 0.0 <= idle
    requires Memory(w, 1) == [] && ThreadOf(w, Tid(1, 0)).Idle?
    requires key in w.shared && w.shared[key].0 == Some(v) && w.now + gap < w.shared[key].1
    requires var at := w.now + gap + pause;
             last == World(at + idle + pause, w.memory[1 := [Entry(key, Some(v), at + 60.0)]],
                           w.shared, w.threads[Tid(1, 0) := Looking(key, at + idle)], w.given)
    ensures Reaches(maxSize, delay, w, ReaderRun(key, pause, gap, idle), last)
  {
    var run := ReaderRun<J>(key, pause, gap, idle);
    var w1 := Next(maxSize, delay, w, run[0]);
    var w2 := w1.(memory := w1.memory[1 := []], threads := w1.threads[Tid(1, 0) := Filling(key, v, w1.now)]);
    ReaderFinds(maxSize, delay, w1, key, v, w2);
    assert w2.memory[1 := last.memory[1]] == last.memory;
    assert w2.threads[Tid(1, 0) := Looking(key, w2.now + pause + idle)] == last.threads;
    FillerServes(maxSize, delay, w2, key, v, pause, idle, last);
    ReachesThen(maxSize, delay, w1, run[1..4], w2, FillerRun(key, pause, idle), last);
    assert run[1..] == run[1..4] + FillerRun(key, pause, idle);
    StepThenRun(maxSize, delay, w, run, w1, last);
  }

  lemma {:induction false} StaleRunServes<J(!new)>(maxSize: nat, delay: real, key: Key, v: J, ttl: int, pause: real,
        gap: real, idle: real, age: real)
    requires maxSize >= 1 && 0.0 <= pause <= delay && 0.0 <= gap < Lifetime(ttl) && 0.0 <= idle < 60.0
    requires age == 3.0 * pause + gap + idle
    ensures Serves(maxSize, delay, key, v, ttl, age, StaleRun(key, v, ttl, pause, gap, idle), ReadMemory(Tid(1, 0)))
  {
    var run := StaleRun(key, v, ttl, pause, gap, idle);
    var w0 := Start<J>();
    var w1 := Next(maxSize, delay, w0, run[0]);
    var w2 := Next(maxSize, delay, w1, run[1]);
    var w3 := Next(maxSize, delay, w2, run[2]);
    var w4 := Next(maxSize, delay, w3, run[3]);
    var at := w4.now + gap + pause;
    var last := World(at + idle + pause, w4.memory[1 := [Entry(key, Some(v), at + 60.0)]],
                      w4.shared, w4.threads[Tid(1, 0) := Looking(key, at + idle)], w4.given);
    assert run[4..] == ReaderRun(key, pause, gap, idle);
    ReaderServes(maxSize, delay, w4, key, v, pause, gap, idle, last);
    StepThenRun(maxSize, delay, w3, run[3..], w4, last);
    StepThenRun(maxSize, delay, w2, run[2..], w3, last);
    StepThenRun(maxSize, delay, w1, run[1..], w2, last);
    StepThenRun(maxSize, delay, w0, run, w1, last);
    LastServes(last, Tid(1, 0), key, v);
  }

  lemma {:induction false} LastServes<J(!new)>(w: World<J>, tid: Tid, key: Key, v: J)
    requires var s := Memory(w, tid.process); |s| == 1 && s[0].key == key && s[0].value == Some(v)
    requires ThreadOf(w, tid).Looking? && ThreadOf(w, tid).key == key
    requires ThreadOf(w, tid).since < Memory(w, tid.process)[0].expiresAt
    ensures Returned(w, ReadMemory(tid)) == Some((key, v))
  {
  }

  /** The run, and then the step, serve a value that was set at time 0 and is that old. */
  ghost predicate Serves<J(!new)>(maxSize: nat, delay: real, key: Key, v: J, ttl: int, age: real, run: seq<Action<J>>,
        a: Action<J>) {
    && Legal(maxSize, delay, Start<J>(), run)
    && var w := After(maxSize, delay, Start<J>(), run);
       w.now == age && w.given == [Given(key, Some(v), ttl, 0.0)] && Enabled(delay, w, a) &&
       Returned(w, a) == Some((key, v))
  }

  /** For every ttl, every longest pause and every age below the bound, some run serves a value that old. */
  lemma {:induction false} StalenessBoundIsSharp<J(!new)>(maxSize: nat, delay: real, key: Key, v: J, ttl: int,
        age: real)
    requires maxSize >= 1 && delay >= 0.0
    requires 0.0 <= age < Lifetime(ttl) + CACHE_TTL_DEFAULT as real + 3.0 * delay
    ensures exists run: seq<Action<J>>, a: Action<J> :: Serves(maxSize, delay, key, v, ttl, age, run, a)
  {
    var pause := if age >= 3.0 * delay then delay else age / 3.0;
    var rest := age - 3.0 * pause;
    var gap :=
      if rest < 60.0 then 0.0
      else if rest <= Lifetime(ttl) then rest - 30.0
      else (rest - 60.0 + Lifetime(ttl)) / 2.0;
    var run := StaleRun(key, v, ttl, pause, gap, rest - gap);
    StaleRunServes(maxSize, delay, key, v, ttl, pause, gap, rest - gap, age);
  }

  /** One process sets a key and reads it after `gap`, with a pause before it looks. */
  function OwnRun<J>(key: Key, v: J, ttl: int, gap: real, pause: real): seq<Action<J>> {
    var own := Tid(0, 0);
    [BeginSet(own, key, Some(v), ttl), SetMemory(own), EndSet(own, true)] + LookRun(own, key, gap, pause)
  }

  lemma {:induction false} OwnRunServes<J(!new)>(maxSize: nat, delay: real, key: Key, v: J, ttl: int, gap: real,
        pause: real, age: real)
    requires maxSize >= 1 && 0.0 <= pause <= delay && 0.0 <= gap < Lifetime(ttl) && age == gap + pause
    ensures Serves(maxSize, delay, key, v, ttl, age, OwnRun(key, v, ttl, gap, pause), ReadMemory(Tid(0, 0)))
  {
    var run := OwnRun(key, v, ttl, gap, pause);
    var own := Tid(0, 0);
    var w0 := Start<J>();
    var w1 := Next(maxSize, delay, w0, run[0]);
    var w2 := Next(maxSize, delay, w1, run[1]);
    assert Memory(w1, 0) == [] && w2.memory[0] == [Entry(key, Some(v), Lifetime(ttl))];
    var w3 := Next(maxSize, delay, w2, run[2]);
    var last := w3.(now := gap + pause, threads := w3.threads[own := Looking(key, gap)]);
    assert run[3..] == LookRun(own, key, gap, pause);
    LookServes(maxSize, delay, w3, own, key, gap, pause, last);
    StepThenRun(maxSize, delay, w2, run[2..], w3, last);
    StepThenRun(maxSize, delay, w1, run[1..], w2, last);
    StepThenRun(maxSize, delay, w0, run, w1, last);
    LastServes(last, own, key, v);
  }

  /** The bound without a backfill is sharp too. */
  lemma {:induction false} MemoryBoundIsSharp<J(!new)>(maxSize: nat, delay: real, key: Key, v: J, ttl: int, age: real)
    requires maxSize >= 1 && delay >= 0.0 && 0.0 <= age < Lifetime(ttl) + delay
    ensures exists run: seq<Action<J>>, a: Action<J> ::
              !Backfills(run) && !a.Fill? && Serves(maxSize, delay, key, v, ttl, age, run, a)
  {
    var pause := if age >= delay then delay else age;
    var run := OwnRun(key, v, ttl, age - pause, pause);
    OwnRunServes(maxSize, delay, key, v, ttl, age - pause, pause, age);
    assert !Backfills(run);
  }
}
