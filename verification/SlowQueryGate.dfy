/**
  The slow-query gate of src/mes_dashboard/core/database.py: a lazily made semaphore and two
  counters, taken by both slow readers, while dispose_engine may drop the global semaphore at
  any moment.  Every thread keeps the semaphore object it fetched and releases that one.

  The steps are those between which another thread can run: the two reads of the global are
  separate, and so are the counter updates and the semaphore operations.
*/
module SlowQueryGate {
  import opened Options

  /**
    `Creating`: saw no semaphore.  `Fetching`: about to return the global.  `Fetched`: has its
    local `sem`, None if the global was dropped meanwhile.  `Waiting`: counted as waiting.
    `Left`: out of acquire, still counted.  `Granted`: not counted as active yet.
    `Releasing`: no longer counted, the permit not yet returned.
  */
  datatype Phase =
    | Idle
    | Creating
    | Fetching
    | Fetched(sem: Option<nat>)
    | Waiting(sem: Option<nat>)
    | Left(granted: Option<nat>)
    | Granted(held: nat)
    | Active(held: nat)
    | Releasing(held: nat)

  datatype Semaphore = Semaphore(cap: nat, permits: nat)

  /** `current` is _SLOW_QUERY_SEMAPHORE; objects stay in `sems` as long as some thread may hold them. */
  datatype World = World(
    threads: seq<Phase>, sems: seq<Semaphore>, current: Option<nat>, waiting: int, active: int)

  /** GiveUp is the 60 s timeout, and the AttributeError of a thread that fetched None. */
  datatype Step =
    | Check
    | Create(cap: nat)
    | Fetch
    | CountWaiting
    | Acquire
    | GiveUp
    | LeaveWaiting
    | Begin
    | Finish
    | Release

  datatype Action = Move(t: nat, step: Step) | Dispose

  function Start(n: nat): World {
    World(seq(n, _ => Idle), [], None, 0, 0)
  }

  predicate Ready(w: World, p: Phase, step: Step) {
    match step
    case Check => p.Idle?
    case Create(_) => p.Creating?
    case Fetch => p.Fetching?
    case CountWaiting => p.Fetched?
    case Acquire =>
      (match p
       case Waiting(Some(s)) => s < |w.sems| && w.sems[s].permits > 0
       case _ => false)
    case GiveUp => p.Waiting?
    case LeaveWaiting => p.Left?
    case Begin => p.Granted?
    case Finish => p.Active?
    case Release => p.Releasing? && p.held < |w.sems|
  }

  predicate Enabled(w: World, a: Action) {
    match a
    case Dispose => true
    case Move(t, step) => t < |w.threads| && Ready(w, w.threads[t], step)
  }

  /** The thread's own next phase. */
  function Advanced(w: World, p: Phase, step: Step): Phase
    requires Ready(w, p, step)
  {
    match step
    case Check => if w.current.None? then Creating else Fetching
    case Create(_) => Fetching
    case Fetch => Fetched(w.current)
    case CountWaiting => Waiting(p.sem)
    case Acquire => Left(p.sem)
    case GiveUp => Left(None)
    case LeaveWaiting => if p.granted.Some? then Granted(p.granted.value) else Idle
    case Begin => Active(p.held)
    case Finish => Releasing(p.held)
    case Release => Idle
  }

  function WithPermits(sems: seq<Semaphore>, s: nat, change: int): seq<Semaphore>
    requires s < |sems| && sems[s].permits + change >= 0
  {
    sems[s := Semaphore(sems[s].cap, sems[s].permits + change)]
  }

  function Next(w: World, a: Action): World
    requires Enabled(w, a)
  {
    match a
    case Dispose => w.(current := None)
    case Move(t, step) =>
      var p := w.threads[t];
      var v := w.(threads := w.threads[t := Advanced(w, p, step)]);
      match step
      case Create(cap) => v.(sems := w.sems + [Semaphore(cap, cap)], current := Some(|w.sems|))
      case CountWaiting => v.(waiting := w.waiting + 1)
      case Acquire => v.(sems := WithPermits(w.sems, p.sem.value, -1))
      case LeaveWaiting => v.(waiting := w.waiting - 1)
      case Begin => v.(active := w.active + 1)
      case Finish => v.(active := w.active - 1)
      case Release => v.(sems := WithPermits(w.sems, p.held, 1))
      case _ => v
  }

  predicate Reaches(w: World, run: seq<Action>, last: World)
    decreases |run|
  {
    if run == [] then w == last
    else Enabled(w, run[0]) && Reaches(Next(w, run[0]), run[1..], last)
  }

  // ---------------------------------------------------------------------------
  // Counting threads
  // ---------------------------------------------------------------------------

  /**
    A section of the readers' code: the counted wait, the counted query, between finding no
    semaphore and making one, or owning a permit of `sem`.
  */
  datatype Section = InWait | InQuery | InMaking | Owning(sem: nat)

  predicate In(p: Phase, s: Section) {
    match s
    case InWait => p.Waiting? || p.Left?
    case InQuery => p.Active?
    case InMaking => p.Creating?
    case Owning(sem) =>
      (p.Left? && p.granted == Some(sem)) || ((p.Granted? || p.Active? || p.Releasing?) && p.held == sem)
  }

  function Count(threads: seq<Phase>, s: Section): nat {
    if threads == [] then 0 else (if In(threads[0], s) then 1 else 0) + Count(threads[1..], s)
  }

  lemma {:induction false} CountMoved(threads: seq<Phase>, t: nat, p: Phase, s: Section)
    requires t < |threads|
    ensures Count(threads[t := p], s)
            == Count(threads, s) - (if In(threads[t], s) then 1 else 0) + (if In(p, s) then 1 else 0)
  {
    if t == 0 {
      assert threads[t := p][1..] == threads[1..];
    } else {
      assert threads[t := p][1..] == threads[1..][t - 1 := p];
      CountMoved(threads[1..], t - 1, p, s);
    }
  }

  lemma {:induction false} CountPositive(threads: seq<Phase>, t: nat, s: Section)
    requires t < |threads| && In(threads[t], s)
    ensures Count(threads, s) > 0
  {
    if t > 0 {
      CountPositive(threads[1..], t - 1, s);
    }
  }

  lemma {:induction false} CountZero(threads: seq<Phase>, s: Section)
    requires forall t :: 0 <= t < |threads| ==> !In(threads[t], s)
    ensures Count(threads, s) == 0
  {
    if threads != [] {
      CountZero(threads[1..], s);
    }
  }

  lemma {:induction false} CountAtMostAll(threads: seq<Phase>, s: Section)
    ensures Count(threads, s) <= |threads|
  {
    if threads != [] {
      CountAtMostAll(threads[1..], s);
    }
  }

  lemma {:induction false} CountAtStart(n: nat, s: Section)
    ensures Count(Start(n).threads, s) == 0
  {
    if n > 0 {
      assert Start(n).threads[1..] == Start(n - 1).threads;
      CountAtStart(n - 1, s);
    }
  }

  // ---------------------------------------------------------------------------
  // The invariant
  // ---------------------------------------------------------------------------

  predicate References(p: Phase, n: nat) {
    match p
    case Fetched(sem) => sem.Some? ==> sem.value < n
    case Waiting(sem) => sem.Some? ==> sem.value < n
    case Left(granted) => granted.Some? ==> granted.value < n
    case Granted(held) => held < n
    case Active(held) => held < n
    case Releasing(held) => held < n
    case _ => true
  }

  predicate Known(w: World) {
    && (w.current.Some? ==> w.current.value < |w.sems|)
    && forall t :: 0 <= t < |w.threads| ==> References(w.threads[t], |w.sems|)
  }

  predicate CountersExact(w: World) {
    w.waiting == Count(w.threads, InWait) && w.active == Count(w.threads, InQuery)
  }

  /** A semaphore no thread has seen is full; any other has given out what its permits lack. */
  predicate PermitsConserved(w: World) {
    forall s :: 0 <= s < |w.sems| ==> w.sems[s].permits + Count(w.threads, Owning(s)) == w.sems[s].cap
  }

  predicate Inv(w: World) {
    Known(w) && CountersExact(w) && PermitsConserved(w)
  }

  lemma {:induction false} StepKeepsKnown(w: World, a: Action, v: World)
    requires Known(w) && Enabled(w, a) && v == Next(w, a)
    ensures Known(v) && |w.sems| <= |v.sems| && |v.threads| == |w.threads|
    ensures forall s :: 0 <= s < |w.sems| ==> v.sems[s].cap == w.sems[s].cap
  {
  }

  lemma {:induction false} StepKeepsCounters(w: World, a: Action, v: World)
    requires CountersExact(w) && Enabled(w, a) && v == Next(w, a)
    ensures CountersExact(v)
  {
    if a != Dispose {
      CountMoved(w.threads, a.t, v.threads[a.t], InWait);
      CountMoved(w.threads, a.t, v.threads[a.t], InQuery);
    }
  }

  lemma {:induction false} UnseenIsUnowned(threads: seq<Phase>, n: nat)
    requires forall t :: 0 <= t < |threads| ==> References(threads[t], n)
    ensures Count(threads, Owning(n)) == 0
  {
    if threads != [] {
      UnseenIsUnowned(threads[1..], n);
    }
  }

  lemma {:induction false} StepKeepsPermits(w: World, a: Action, v: World)
    requires Known(w) && PermitsConserved(w) && Enabled(w, a) && v == Next(w, a)
    ensures PermitsConserved(v)
  {
    if a != Dispose {
      forall s | 0 <= s < |v.sems| ensures v.sems[s].permits + Count(v.threads, Owning(s)) == v.sems[s].cap {
        if s < |w.sems| {
          StepKeepsPermit(w, a, v, s);
        } else {
          NewSemaphoreIsFull(w, a, v);
        }
      }
    }
  }

  lemma {:induction false} StepKeepsPermit(w: World, a: Action, v: World, s: nat)
    requires Known(w) && PermitsConserved(w) && Enabled(w, a) && a != Dispose && v == Next(w, a) && s < |w.sems|
    ensures s < |v.sems| && v.sems[s].permits + Count(v.threads, Owning(s)) == v.sems[s].cap
  {
    CountMoved(w.threads, a.t, v.threads[a.t], Owning(s));
    StepMovesPermit(w, a, v, s);
  }

  /** A thread takes a permit where it begins to own one, and gives it back where it ceases to. */
  lemma {:induction false} StepMovesPermit(w: World, a: Action, v: World, s: nat)
    requires Enabled(w, a) && a != Dispose && v == Next(w, a) && s < |w.sems|
    ensures s < |v.sems| && v.sems[s].cap == w.sems[s].cap
    ensures v.sems[s].permits - (if In(w.threads[a.t], Owning(s)) then 1 else 0)
            == w.sems[s].permits - (if In(v.threads[a.t], Owning(s)) then 1 else 0)
  {
  }

  lemma {:induction false} NewSemaphoreIsFull(w: World, a: Action, v: World)
    requires Known(w) && Enabled(w, a) && a != Dispose && v == Next(w, a) && |w.sems| < |v.sems|
    ensures |v.sems| == |w.sems| + 1
    ensures v.sems[|w.sems|].permits == v.sems[|w.sems|].cap && Count(v.threads, Owning(|w.sems|)) == 0
  {
    CountMoved(w.threads, a.t, v.threads[a.t], Owning(|w.sems|));
    UnseenIsUnowned(w.threads, |w.sems|);
  }

  lemma {:induction false} RunKeepsInv(w: World, run: seq<Action>, last: World)
    requires Inv(w) && Reaches(w, run, last)
    ensures Inv(last)
    decreases |run|
  {
    if run != [] {
      var next := Next(w, run[0]);
      StepKeepsKnown(w, run[0], next);
      StepKeepsCounters(w, run[0], next);
      StepKeepsPermits(w, run[0], next);
      RunKeepsInv(next, run[1..], last);
    }
  }

  lemma {:induction false} StartIsInv(n: nat)
    ensures Inv(Start(n))
  {
    CountAtStart(n, InWait);
    CountAtStart(n, InQuery);
  }

  // ---------------------------------------------------------------------------
  // What the gate guarantees
  // ---------------------------------------------------------------------------

  /**
    In every interleaving, with timeouts, errors, abandoned iterators and disposals: the
    counters are the threads in their sections, and every semaphore ever made has exactly the
    permits its owners do not hold, dropped or not.
  */
  lemma {:induction false} CountersAndPermits(n: nat, run: seq<Action>, w: World)
    requires Reaches(Start(n), run, w)
    ensures w.waiting == Count(w.threads, InWait) && w.active == Count(w.threads, InQuery)
    ensures forall s :: 0 <= s < |w.sems| ==> w.sems[s].permits + Count(w.threads, Owning(s)) == w.sems[s].cap
  {
    StartIsInv(n);
    RunKeepsInv(Start(n), run, w);
  }

  /** When every reader has returned or raised, nothing has leaked. */
  lemma {:induction false} QuietMeansClean(n: nat, run: seq<Action>, w: World)
    requires Reaches(Start(n), run, w) && forall t :: 0 <= t < |w.threads| ==> w.threads[t].Idle?
    ensures w.waiting == 0 && w.active == 0
    ensures forall s :: 0 <= s < |w.sems| ==> w.sems[s].permits == w.sems[s].cap
  {
    CountersAndPermits(n, run, w);
    CountZero(w.threads, InWait);
    CountZero(w.threads, InQuery);
    forall s | 0 <= s < |w.sems| ensures w.sems[s].permits == w.sems[s].cap {
      CountZero(w.threads, Owning(s));
    }
  }

  function Caps(sems: seq<Semaphore>): nat {
    if sems == [] then 0 else Caps(sems[..|sems| - 1]) + sems[|sems| - 1].cap
  }

  /** Threads owning a permit of one of the first n semaphores. */
  function Owners(threads: seq<Phase>, n: nat): nat {
    if n == 0 then 0 else Owners(threads, n - 1) + Count(threads, Owning(n - 1))
  }

  lemma {:induction false} OwnersSplit(threads: seq<Phase>, n: nat)
    requires threads != []
    ensures Owners(threads, n)
            == Owners(threads[1..], n) + if exists s :: 0 <= s < n && In(threads[0], Owning(s)) then 1 else 0
  {
    if n > 0 {
      OwnersSplit(threads, n - 1);
    }
  }

  lemma {:induction false} OwnersOfNone(n: nat)
    ensures Owners([], n) == 0
  {
    if n > 0 {
      OwnersOfNone(n - 1);
    }
  }

  lemma {:induction false} ActiveAreOwners(threads: seq<Phase>, n: nat)
    requires forall t :: 0 <= t < |threads| ==> References(threads[t], n)
    ensures Count(threads, InQuery) <= Owners(threads, n)
  {
    if threads == [] {
      OwnersOfNone(n);
    } else {
      ActiveAreOwners(threads[1..], n);
      OwnersSplit(threads, n);
      if threads[0].Active? {
        assert In(threads[0], Owning(threads[0].held));
      }
    }
  }

  lemma {:induction false} OwnersWithinCaps(threads: seq<Phase>, sems: seq<Semaphore>)
    requires forall s :: 0 <= s < |sems| ==> sems[s].permits + Count(threads, Owning(s)) == sems[s].cap
    ensures Owners(threads, |sems|) <= Caps(sems)
  {
    if sems != [] {
      OwnersWithinCaps(threads, sems[..|sems| - 1]);
    }
  }

  /** Running slow queries never exceed the capacities of the semaphores made so far, taken together. */
  lemma {:induction false} ActiveWithinCaps(n: nat, run: seq<Action>, w: World)
    requires Reaches(Start(n), run, w)
    ensures w.active <= Caps(w.sems)
  {
    StartIsInv(n);
    RunKeepsInv(Start(n), run, w);
    InvBoundsActive(w);
  }

  lemma {:induction false} InvBoundsActive(w: World)
    requires Inv(w)
    ensures w.active <= Caps(w.sems)
  {
    ActiveAreOwners(w.threads, |w.sems|);
    OwnersWithinCaps(w.threads, w.sems);
  }

  // ---------------------------------------------------------------------------
  // The limit, and the race that breaks it
  // ---------------------------------------------------------------------------

  /** In this step a thread finds no semaphore although another one is already making it. */
  predicate Races(w: World, a: Action) {
    a.Move? && a.step.Check? && w.current.None? && exists t :: 0 <= t < |w.threads| && w.threads[t].Creating?
  }

  predicate NoRaceNoDispose(w: World, run: seq<Action>)
    decreases |run|
  {
    run == []
    || (run[0] != Dispose && !Races(w, run[0]) && (Enabled(w, run[0]) ==> NoRaceNoDispose(Next(w, run[0]), run[1..])))
  }

  predicate OneMaker(w: World) {
    && |w.sems| <= 1
    && (|w.sems| == 1 <==> w.current.Some?)
    && (forall t :: 0 <= t < |w.threads| && w.threads[t].Creating? ==> w.sems == [])
    && (forall t, u :: 0 <= t < u < |w.threads| ==> !(w.threads[t].Creating? && w.threads[u].Creating?))
  }

  lemma {:induction false} StepKeepsOneMaker(w: World, a: Action, v: World)
    requires OneMaker(w) && Enabled(w, a) && v == Next(w, a) && a != Dispose && !Races(w, a)
    ensures OneMaker(v)
  {
  }

  lemma {:induction false} RunKeepsOneMaker(w: World, run: seq<Action>, last: World)
    requires OneMaker(w) && Reaches(w, run, last) && NoRaceNoDispose(w, run)
    ensures OneMaker(last)
    decreases |run|
  {
    if run != [] {
      StepKeepsOneMaker(w, run[0], Next(w, run[0]));
      RunKeepsOneMaker(Next(w, run[0]), run[1..], last);
    }
  }

  /** slow_max_concurrent holds for every run without a disposal in which the lazy initialisation is not raced. */
  lemma {:induction false} LimitHoldsWithoutRace(n: nat, run: seq<Action>, w: World)
    requires Reaches(Start(n), run, w) && NoRaceNoDispose(Start(n), run)
    ensures |w.sems| <= 1
    ensures w.active <= if w.sems == [] then 0 else w.sems[0].cap
  {
    RunKeepsOneMaker(Start(n), run, w);
    ActiveWithinCaps(n, run, w);
    if w.sems != [] {
      assert w.sems[..0] == [];
    }
  }

  predicate NoDispose(run: seq<Action>) {
    forall i :: 0 <= i < |run| ==> run[i] != Dispose
  }

  function Made(w: World): nat {
    |w.sems| + Count(w.threads, InMaking)
  }

  /** Every thread that has found no semaphore makes one. */
  lemma {:induction false} StepKeepsMade(w: World, a: Action)
    requires Enabled(w, a) && a != Dispose
    ensures Made(Next(w, a)) >= Made(w) && (Races(w, a) ==> Made(Next(w, a)) >= 2)
  {
    CountMoved(w.threads, a.t, Next(w, a).threads[a.t], InMaking);
    if Races(w, a) {
      var t :| 0 <= t < |w.threads| && w.threads[t].Creating?;
      CountPositive(w.threads, t, InMaking);
    }
  }

  lemma {:induction false} RunKeepsMade(w: World, run: seq<Action>, last: World)
    requires Reaches(w, run, last) && NoDispose(run)
    ensures Made(last) >= Made(w) && (!NoRaceNoDispose(w, run) ==> Made(last) >= 2)
    decreases |run|
  {
    if run != [] {
      StepKeepsMade(w, run[0]);
      RunKeepsMade(Next(w, run[0]), run[1..], last);
    }
  }

  /** A run without a disposal that has finished its makings made one semaphore at most exactly if it was not raced. */
  lemma {:induction false} OneSemaphoreExactlyWithoutRace(n: nat, run: seq<Action>, w: World)
    requires Reaches(Start(n), run, w) && NoDispose(run)
    requires forall t :: 0 <= t < |w.threads| ==> !w.threads[t].Creating?
    ensures |w.sems| <= 1 <==> NoRaceNoDispose(Start(n), run)
  {
    if NoRaceNoDispose(Start(n), run) {
      LimitHoldsWithoutRace(n, run, w);
    } else {
      RunKeepsMade(Start(n), run, w);
      CountZero(w.threads, InMaking);
    }
  }

  // ---------------------------------------------------------------------------
  // Warm start
  // ---------------------------------------------------------------------------

  /** The semaphore is there and nobody is about to make another: what a caller can see to before starting readers. */
  predicate Warm(w: World) {
    && w.current == Some(0) && |w.sems| == 1
    && forall t :: 0 <= t < |w.threads| ==> !w.threads[t].Creating?
  }

  lemma {:induction false} RunKeepsWarm(w: World, run: seq<Action>, last: World)
    requires Warm(w) && Known(w) && Reaches(w, run, last) && NoDispose(run)
    ensures Warm(last) && last.sems[0].cap == w.sems[0].cap
    decreases |run|
  {
    if run != [] {
      StepKeepsKnown(w, run[0], Next(w, run[0]));
      StepKeepsWarm(w, run[0], Next(w, run[0]));
      RunKeepsWarm(Next(w, run[0]), run[1..], last);
    }
  }

  lemma {:induction false} StepKeepsWarm(w: World, a: Action, v: World)
    requires Warm(w) && Enabled(w, a) && v == Next(w, a) && a != Dispose
    ensures Warm(v)
  {
  }

  /** From a warm start, with readers anywhere in their code, no run without a disposal exceeds the limit. */
  lemma {:induction false} WarmStartKeepsLimit(w: World, run: seq<Action>, last: World)
    requires Inv(w) && Warm(w) && Reaches(w, run, last) && NoDispose(run)
    ensures last.active <= w.sems[0].cap
  {
    RunKeepsWarm(w, run, last);
    RunKeepsInv(w, run, last);
    InvBoundsActive(last);
    assert last.sems[..0] == [];
  }

  // ---------------------------------------------------------------------------
  // Cold start: when the limit can be exceeded
  // ---------------------------------------------------------------------------

  /** Every semaphore is made with the configured limit. */
  predicate Configured(run: seq<Action>, cap: nat) {
    forall i :: 0 <= i < |run| && run[i].Move? && run[i].step.Create? ==> run[i].step.cap == cap
  }

  predicate Plain(run: seq<Action>, cap: nat) {
    NoDispose(run) && Configured(run, cap)
  }

  lemma {:induction false} ConfiguredCaps(w: World, run: seq<Action>, last: World, cap: nat)
    requires Reaches(w, run, last) && Configured(run, cap)
    requires forall s :: 0 <= s < |w.sems| ==> w.sems[s].cap == cap
    ensures forall s :: 0 <= s < |last.sems| ==> last.sems[s].cap == cap
    ensures |last.threads| == |w.threads|
    decreases |run|
  {
    if run != [] {
      ConfiguredCaps(Next(w, run[0]), run[1..], last, cap);
    }
  }

  lemma {:induction false} NoCapsNoPermits(sems: seq<Semaphore>)
    requires forall s :: 0 <= s < |sems| ==> sems[s].cap == 0
    ensures Caps(sems) == 0
  {
    if sems != [] {
      NoCapsNoPermits(sems[..|sems| - 1]);
    }
  }

  lemma {:induction false} WithinLimitOtherwise(n: nat, cap: nat, run: seq<Action>, w: World)
    requires cap == 0 || n <= cap
    requires Reaches(Start(n), run, w) && Configured(run, cap)
    ensures w.active <= cap
  {
    ConfiguredCaps(Start(n), run, w, cap);
    CountersAndPermits(n, run, w);
    CountAtMostAll(w.threads, InQuery);
    if cap == 0 {
      ActiveWithinCaps(n, run, w);
      NoCapsNoPermits(w.sems);
    }
  }

  lemma {:induction false} StepThenRun(w: World, a: Action, rest: seq<Action>, last: World)
    requires Enabled(w, a) && Reaches(Next(w, a), rest, last)
    ensures Reaches(w, [a] + rest, last)
  {
    assert ([a] + rest)[1..] == rest;
  }

  /** From the permit to the running query. */
  lemma {:induction false} Starts(w: World, t: nat, s: nat, cap: nat, rest: seq<Action>, v: World,
        last: World) returns (run: seq<Action>)
    requires t < |w.threads| && w.threads[t] == Left(Some(s))
    requires v == w.(threads := w.threads[t := Active(s)], waiting := w.waiting - 1, active := w.active + 1)
    requires Reaches(v, rest, last) && Plain(rest, cap)
    ensures Reaches(w, run, last) && Plain(run, cap)
  {
    var granted := Next(w, Move(t, LeaveWaiting));
    assert granted.threads == w.threads[t := Granted(s)];
    assert granted.threads[t := Active(s)] == v.threads;
    StepThenRun(granted, Move(t, Begin), rest, last);
    StepThenRun(w, Move(t, LeaveWaiting), [Move(t, Begin)] + rest, last);
    run := [Move(t, LeaveWaiting)] + ([Move(t, Begin)] + rest);
  }

  /** From a fetched semaphore with a free permit to the running query. */
  lemma {:induction false} Proceeds(w: World, t: nat, s: nat, cap: nat, rest: seq<Action>, v: World,
        last: World) returns (run: seq<Action>)
    requires t < |w.threads| && w.threads[t] == Fetched(Some(s)) && s < |w.sems| && w.sems[s].permits > 0
    requires v == w.(threads := w.threads[t := Active(s)], sems := WithPermits(w.sems, s, -1), active := w.active + 1)
    requires Reaches(v, rest, last) && Plain(rest, cap)
    ensures Reaches(w, run, last) && Plain(run, cap)
  {
    var counted := Next(w, Move(t, CountWaiting));
    var left := Next(counted, Move(t, Acquire));
    assert left.threads == w.threads[t := Left(Some(s))];
    assert left.threads[t := Active(s)] == v.threads;
    var tail := Starts(left, t, s, cap, rest, v, last);
    StepThenRun(counted, Move(t, Acquire), tail, last);
    StepThenRun(w, Move(t, CountWaiting), [Move(t, Acquire)] + tail, last);
    run := [Move(t, CountWaiting)] + ([Move(t, Acquire)] + tail);
  }

  /** A thread that saw no semaphore makes its own, whatever the others have made meanwhile, and gets in. */
  lemma {:induction false} MakerGetsIn(w: World, t: nat, cap: nat, rest: seq<Action>, v: World,
        last: World) returns (run: seq<Action>)
    requires t < |w.threads| && w.threads[t] == Creating && cap > 0
    requires v == w.(threads := w.threads[t := Active(|w.sems|)], sems := w.sems + [Semaphore(cap, cap - 1)],
                     current := Some(|w.sems|), active := w.active + 1)
    requires Reaches(v, rest, last) && Plain(rest, cap)
    ensures Reaches(w, run, last) && Plain(run, cap)
  {
    var w1 := Next(w, Move(t, Create(cap)));
    var w2 := Next(w1, Move(t, Fetch));
    assert w2.threads == w.threads[t := Fetched(Some(|w.sems|))];
    assert WithPermits(w2.sems, |w.sems|, -1) == w.sems + [Semaphore(cap, cap - 1)];
    assert w2.threads[t := Active(|w.sems|)] == w.threads[t := Active(|w.sems|)];
    var run2 := Proceeds(w2, t, |w.sems|, cap, rest, v, last);
    StepThenRun(w1, Move(t, Fetch), run2, last);
    var run1 := [Move(t, Fetch)] + run2;
    StepThenRun(w, Move(t, Create(cap)), run1, last);
    run := [Move(t, Create(cap))] + run1;
  }

  lemma {:induction false} ReachesThen(w: World, run: seq<Action>, v: World, more: seq<Action>, last: World)
    requires Reaches(w, run, v) && Reaches(v, more, last)
    ensures Reaches(w, run + more, last)
    decreases |run|
  {
    if run == [] {
      assert run + more == more;
    } else {
      assert (run + more)[1..] == run[1..] + more;
      ReachesThen(Next(w, run[0]), run[1..], v, more, last);
    }
  }

  /** A thread that finds the semaphore gets in while it has a permit. */
  lemma {:induction false} FinderGetsIn(w: World, t: nat, s: nat, cap: nat) returns (run: seq<Action>, v: World)
    requires t < |w.threads| && w.threads[t] == Idle
    requires w.current == Some(s) && s < |w.sems| && w.sems[s].permits > 0
    ensures v == w.(threads := w.threads[t := Active(s)], sems := WithPermits(w.sems, s, -1), active := w.active + 1)
    ensures Reaches(w, run, v) && Plain(run, cap)
  {
    v := w.(threads := w.threads[t := Active(s)], sems := WithPermits(w.sems, s, -1), active := w.active + 1);
    var w1 := Next(w, Move(t, Check));
    var w2 := Next(w1, Move(t, Fetch));
    assert w2.threads == w.threads[t := Fetched(Some(s))];
    assert w2.threads[t := Active(s)] == w.threads[t := Active(s)];
    var run2 := Proceeds(w2, t, s, cap, [], v, v);
    StepThenRun(w1, Move(t, Fetch), run2, v);
    var run1 := [Move(t, Fetch)] + run2;
    StepThenRun(w, Move(t, Check), run1, v);
    run := [Move(t, Check)] + run1;
  }

  /** Thread 0 made the semaphore and is in, thread 1 is about to make another, k more are in and the others idle. */
  predicate Crowded(w: World, cap: nat, k: nat) {
    && k < cap < |w.threads|
    && w.threads[0] == Active(0) && w.threads[1] == Creating
    && (forall t :: k + 2 <= t < |w.threads| ==> w.threads[t] == Idle)
    && w.sems == [Semaphore(cap, cap - 1 - k)] && w.current == Some(0) && w.active == k + 1
  }

  /** The other threads come in until the semaphore has no permit left. */
  lemma {:induction false} FillsUp(w: World, cap: nat, k: nat) returns (run: seq<Action>, v: World)
    requires Crowded(w, cap, k)
    ensures Crowded(v, cap, cap - 1) && Reaches(w, run, v) && Plain(run, cap)
    decreases cap - k
  {
    if k == cap - 1 {
      run, v := [], w;
    } else {
      var first, mid := FinderGetsIn(w, k + 2, 0, cap);
      var more;
      more, v := FillsUp(mid, cap, k + 1);
      ReachesThen(w, first, mid, more, v);
      run := first + more;
    }
  }

  /** Two threads check before either has made the semaphore; the first then makes it and gets in. */
  lemma {:induction false} TwoFindNone(n: nat, cap: nat) returns (run: seq<Action>, v: World)
    requires 1 <= cap < n
    ensures Crowded(v, cap, 0) && Reaches(Start(n), run, v) && Plain(run, cap)
  {
    var w0 := Start(n);
    var w1 := w0.(threads := w0.threads[0 := Creating]);
    var w2 := w0.(threads := w0.threads[0 := Creating][1 := Creating]);
    v := w2.(threads := w2.threads[0 := Active(0)], sems := [Semaphore(cap, cap - 1)], current := Some(0), active := 1);
    assert v.sems == [] + [Semaphore(cap, cap - 1)];
    var run2 := MakerGetsIn(w2, 0, cap, [], v, v);
    StepThenRun(w1, Move(1, Check), run2, v);
    var run1 := [Move(1, Check)] + run2;
    StepThenRun(w0, Move(0, Check), run1, v);
    run := [Move(0, Check)] + run1;
  }

  /** For every limit and every greater number of threads, a raced initialisation lets one query too many run. */
  lemma {:induction false} RaceExceedsLimit(n: nat, cap: nat) returns (run: seq<Action>, w: World)
    requires 1 <= cap < n
    ensures Reaches(Start(n), run, w) && NoDispose(run) && Configured(run, cap) && w.active == cap + 1
  {
    var start, crowded := TwoFindNone(n, cap);
    var filling, full := FillsUp(crowded, cap, 0);
    w := full.(threads := full.threads[1 := Active(1)], sems := full.sems + [Semaphore(cap, cap - 1)],
               current := Some(1), active := cap + 1);
    var last := MakerGetsIn(full, 1, cap, [], w, w);
    ReachesThen(crowded, filling, full, last, w);
    ReachesThen(Start(n), start, crowded, filling + last, w);
    run := start + (filling + last);
  }

  /**
    From a cold start with one configured limit, the threads and the limit alone decide whether
    some run, with or without disposals, has more queries running than the limit.
  */
  lemma {:induction false} LimitExceedableExactlyWhen(n: nat, cap: nat)
    ensures (exists run, w :: Reaches(Start(n), run, w) && Configured(run, cap) && NoDispose(run) && w.active > cap)
            <==> 1 <= cap < n
    ensures (exists run, w :: Reaches(Start(n), run, w) && Configured(run, cap) && w.active > cap) <==> 1 <= cap < n
  {
    if 1 <= cap < n {
      var run, w := RaceExceedsLimit(n, cap);
    } else {
      forall run, w | Reaches(Start(n), run, w) && Configured(run, cap) ensures w.active <= cap {
        WithinLimitOtherwise(n, cap, run, w);
      }
    }
  }

  // ---------------------------------------------------------------------------
  // Disposals, and progress
  // ---------------------------------------------------------------------------

  /** The first k threads are running queries, the others idle, and no semaphore is in place. */
  predicate DisposedUnder(w: World, k: nat) {
    && k <= |w.threads| && w.current.None? && w.active == k
    && (forall t :: k <= t < |w.threads| ==> w.threads[t] == Idle)
  }

  /** After every disposal the next reader makes a fresh semaphore, and gets in. */
  lemma {:induction false} NextGetsIn(w: World, cap: nat, k: nat) returns (run: seq<Action>, v: World)
    requires cap > 0 && DisposedUnder(w, k) && k < |w.threads|
    ensures DisposedUnder(v, k + 1) && |v.threads| == |w.threads| && Reaches(w, run, v) && Configured(run, cap)
  {
    var w1 := Next(w, Move(k, Check));
    var w2 := w1.(threads := w1.threads[k := Active(|w1.sems|)], sems := w1.sems + [Semaphore(cap, cap - 1)],
                  current := Some(|w1.sems|), active := w1.active + 1);
    var entering := MakerGetsIn(w1, k, cap, [], w2, w2);
    v := Next(w2, Dispose);
    assert [Dispose][1..] == [] && Reaches(v, [], v);
    ReachesThen(w1, entering, w2, [Dispose], v);
    StepThenRun(w, Move(k, Check), entering + [Dispose], v);
    run := [Move(k, Check)] + (entering + [Dispose]);
  }

  lemma {:induction false} DisposalsLetIn(w: World, cap: nat, k: nat) returns (run: seq<Action>, v: World)
    requires cap > 0 && DisposedUnder(w, k)
    ensures DisposedUnder(v, |w.threads|) && |v.threads| == |w.threads| && Reaches(w, run, v) && Configured(run, cap)
    decreases |w.threads| - k
  {
    if k == |w.threads| {
      run, v := [], w;
    } else {
      var first, mid := NextGetsIn(w, cap, k);
      var more;
      more, v := DisposalsLetIn(mid, cap, k + 1);
      ReachesThen(w, first, mid, more, v);
      run := first + more;
    }
  }

  /** With a disposal after every reader's start all readers run at once, whatever positive limit each semaphore has. */
  lemma {:induction false} DisposalsLetAllIn(n: nat, cap: nat) returns (run: seq<Action>, w: World)
    requires cap > 0
    ensures Reaches(Start(n), run, w) && Configured(run, cap) && w.active == n
  {
    run, w := DisposalsLetIn(Start(n), cap, 0);
  }

  /** In every reachable state every reader that has begun can take its next step. */
  lemma {:induction false} ReaderNeverStuck(n: nat, run: seq<Action>, w: World, t: nat)
    requires Reaches(Start(n), run, w) && t < |w.threads| && w.threads[t] != Idle
    ensures exists step :: Enabled(w, Move(t, step)) && !step.Check?
  {
    StartIsInv(n);
    RunKeepsInv(Start(n), run, w);
    var step := match w.threads[t]
      case Idle => Check
      case Creating => Create(1)
      case Fetching => Fetch
      case Fetched(_) => CountWaiting
      case Waiting(_) => GiveUp
      case Left(_) => LeaveWaiting
      case Granted(_) => Begin
      case Active(_) => Finish
      case Releasing(_) => Release;
    assert Enabled(w, Move(t, step));
  }
}
