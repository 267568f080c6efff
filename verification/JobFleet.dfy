/**
  Several chunked jobs over one heavy-query limiter: each runs the life cycle of
  JobLifecycle, and entering or leaving its slot is an acquire or a release of
  HeavyQuerySlots under an owner id of its own.  A job that crashes takes no further step.

  Two questions about the limit: how many jobs can be fetching at once, and how many of
  those that were granted a slot.
*/
module JobFleet {
  import opened Options
  import opened Sets
  import J = JobLifecycle
  import S = HeavyQuerySlots

  /** `held[k]` is the grant job k was given at the door, until it is returned. */
  datatype Fleet = Fleet(world: S.World, jobs: seq<J.Job>, held: seq<Option<nat>>)

  datatype Action =
    | Step(k: nat, a: J.Action)
    | Wait(duration: real)
    | ExpireKey
    | Observe

  function Open(jobs: seq<J.Job>): Fleet {
    Fleet(S.START, jobs, seq(|jobs|, _ => None))
  }

  /** The limiter's answer decides how a job enters its slot. */
  ghost predicate Enabled(ttl: int, limit: int, f: Fleet, a: Action) {
    && |f.held| == |f.jobs|
    && match a
       case Wait(duration) => duration >= 0.0
       case ExpireKey => S.Enabled(f.world, S.ExpireKey)
       case Observe => true
       case Step(k, ja) =>
         && k < |f.jobs| && J.Enabled(f.jobs[k], ja)
         && (ja.EnterSlot? ==> ja.granted == S.AcquireScript(f.world.slots, f.world.now, k, ttl, limit).1)
         && (f.held[k].Some? ==> f.held[k].value < |f.world.grants|)
  }

  function Next(ttl: int, limit: int, f: Fleet, a: Action): Fleet
    requires Enabled(ttl, limit, f, a)
  {
    match a
    case Wait(duration) => f.(world := S.Next(ttl, limit, f.world, S.Wait(duration)))
    case ExpireKey => f.(world := S.Next(ttl, limit, f.world, S.ExpireKey))
    case Observe => f.(world := S.Next(ttl, limit, f.world, S.Observe))
    case Step(k, ja) =>
      var g := f.(jobs := f.jobs[k := J.Next(f.jobs[k], ja)]);
      if ja.EnterSlot? then
        g.(world := S.Next(ttl, limit, f.world, S.Acquire(k)),
           held := f.held[k := if ja.granted then Some(|f.world.grants|) else None])
      else if ja.LeaveSlot? && f.held[k].Some? then
        g.(world := S.Next(ttl, limit, f.world, S.Release(f.held[k].value)), held := f.held[k := None])
      else g
  }

  ghost predicate Reaches(ttl: int, limit: int, f: Fleet, run: seq<Action>, last: Fleet)
    decreases |run|
  {
    if run == [] then f == last
    else Enabled(ttl, limit, f, run[0]) && Reaches(ttl, limit, Next(ttl, limit, f, run[0]), run[1..], last)
  }

  /** A job before its first step, with something to fetch. */
  predicate IsFresh(j: J.Job) {
    |j.chunks| > 0 && j == J.Start(j.reduction, j.parallel, |j.chunks|)
  }

  predicate AllFresh(jobs: seq<J.Job>) {
    forall k :: 0 <= k < |jobs| ==> IsFresh(jobs[k])
  }

  /** Some chunk of the job is being fetched. */
  predicate Fetches(j: J.Job) {
    exists c :: 0 <= c < |j.chunks| && j.chunks[c] == J.Running
  }

  function Fetching(f: Fleet): set<nat> {
    set k: nat | k < |f.jobs| && Fetches(f.jobs[k])
  }

  /** The jobs whose slot is granted, not returned and younger than 2 * ttl. */
  ghost predicate HoldsLive(ttl: int, f: Fleet, k: nat) {
    && k < |f.held| && f.held[k].Some? && f.held[k].value < |f.world.grants|
    && S.IsLive(ttl, f.world, f.held[k].value)
  }

  ghost function FetchingUnderSlot(ttl: int, f: Fleet): set<nat> {
    set k | k in Fetching(f) && HoldsLive(ttl, f, k)
  }

  // ---------------------------------------------------------------------------
  // What every run keeps
  // ---------------------------------------------------------------------------

  /** Between entering and leaving the slot. */
  predicate Inside(p: J.Phase) {
    3 <= J.Rank(p) <= 5
  }

  /** What a job's own state says about its slot agrees with the grant it holds. */
  predicate JobHolds(f: Fleet, k: nat)
    requires k < |f.jobs| && |f.held| == |f.jobs|
  {
    f.held[k].Some? <==> f.jobs[k].slot.acquired && Inside(f.jobs[k].phase)
  }

  predicate HeldIsOpen(f: Fleet, k: nat)
    requires k < |f.held|
  {
    f.held[k].Some? ==>
      && f.held[k].value < |f.world.grants|
      && f.world.grants[f.held[k].value].open && f.world.grants[f.held[k].value].owner == k
  }

  predicate OpenIsHeld(f: Fleet, i: nat)
    requires i < |f.world.grants|
  {
    f.world.grants[i].open ==> f.world.grants[i].owner < |f.held| && f.held[f.world.grants[i].owner] == Some(i)
  }

  ghost predicate Linked(f: Fleet) {
    && |f.held| == |f.jobs|
    && (forall k: nat :: k < |f.held| ==> HeldIsOpen(f, k))
    && (forall i: nat :: i < |f.world.grants| ==> OpenIsHeld(f, i))
  }

  ghost predicate JobsOk(f: Fleet) {
    && |f.held| == |f.jobs|
    && (forall k: nat :: k < |f.jobs| ==> JobHolds(f, k))
    && (forall k: nat :: k < |f.jobs| ==> J.SlotOk(f.jobs[k]))
  }

  ghost predicate Inv(ttl: int, limit: int, f: Fleet) {
    JobsOk(f) && Linked(f) && S.Inv(ttl, limit, f.world)
  }

  /** How a step moves the slot of the job that takes it. */
  lemma {:induction false} StepMovesSlot(j: J.Job, a: J.Action, k: J.Job)
    requires J.SlotOk(j) && J.Enabled(j, a) && k == J.Next(j, a)
    ensures a.EnterSlot? ==> !(j.slot.acquired && Inside(j.phase)) && Inside(k.phase) && k.slot.acquired == a.granted
    ensures a.LeaveSlot? ==> !Inside(k.phase)
    ensures !a.EnterSlot? && !a.LeaveSlot? ==>
              (k.slot.acquired && Inside(k.phase) <==> j.slot.acquired && Inside(j.phase))
  {
    if !a.EnterSlot? && !a.LeaveSlot? {
      OtherStepKeepsSlot(j, a, k);
      OtherStepStaysInside(j, a, k);
    }
  }

  lemma {:induction false} OtherStepKeepsSlot(j: J.Job, a: J.Action, k: J.Job)
    requires J.Enabled(j, a) && k == J.Next(j, a) && !a.EnterSlot? && !a.LeaveSlot?
    ensures k.slot == j.slot
  {
  }

  lemma {:induction false} OtherStepStaysInside(j: J.Job, a: J.Action, k: J.Job)
    requires J.Enabled(j, a) && k == J.Next(j, a) && !a.EnterSlot? && !a.LeaveSlot?
    ensures Inside(k.phase) <==> Inside(j.phase)
  {
  }

  lemma {:induction false} JobsStep(f: Fleet, k: nat, j: J.Job, h: Option<nat>, g: Fleet)
    requires JobsOk(f) && k < |f.jobs| && g.jobs == f.jobs[k := j] && g.held == f.held[k := h]
    requires J.SlotOk(j) && (h.Some? <==> j.slot.acquired && Inside(j.phase))
    ensures JobsOk(g)
  {
    forall i: nat | i < |g.jobs| ensures JobHolds(g, i) && J.SlotOk(g.jobs[i]) {
      if i != k {
        assert JobHolds(f, i) && J.SlotOk(f.jobs[i]);
      }
    }
  }

  lemma {:induction false} LinkedEnter(f: Fleet, k: nat, g: Fleet)
    requires Linked(f) && k < |f.held| && f.held[k].None? && |g.jobs| == |f.jobs|
    requires g.held == f.held[k := Some(|f.world.grants|)]
    requires g.world.grants == f.world.grants + [S.Grant(k, f.world.now, true)]
    ensures Linked(g)
  {
    forall i: nat | i < |g.held| ensures HeldIsOpen(g, i) {
      assert HeldIsOpen(f, i);
    }
    forall i: nat | i < |g.world.grants| ensures OpenIsHeld(g, i) {
      if i < |f.world.grants| {
        assert OpenIsHeld(f, i);
      }
    }
  }

  lemma {:induction false} LinkedLeave(f: Fleet, k: nat, i: nat, g: Fleet)
    requires Linked(f) && k < |f.held| && f.held[k] == Some(i) && i < |f.world.grants| && |g.jobs| == |f.jobs|
    requires g.held == f.held[k := None]
    requires g.world.grants == f.world.grants[i := f.world.grants[i].(open := false)]
    ensures Linked(g)
  {
    assert HeldIsOpen(f, k);
    forall n: nat | n < |g.held| ensures HeldIsOpen(g, n) {
      assert HeldIsOpen(f, n);
    }
    forall n: nat | n < |g.world.grants| ensures OpenIsHeld(g, n) {
      assert OpenIsHeld(f, n);
    }
  }

  lemma {:induction false} LinkedSame(f: Fleet, g: Fleet)
    requires Linked(f) && g.held == f.held && g.world.grants == f.world.grants && |g.jobs| == |f.jobs|
    ensures Linked(g)
  {
    forall n: nat | n < |g.held| ensures HeldIsOpen(g, n) {
      assert HeldIsOpen(f, n);
    }
    forall n: nat | n < |g.world.grants| ensures OpenIsHeld(g, n) {
      assert OpenIsHeld(f, n);
    }
  }

  lemma {:induction false} AcquireGrants(ttl: int, limit: int, w: S.World, k: nat)
    ensures S.Next(ttl, limit, w, S.Acquire(k)).grants
            == w.grants + if S.AcquireScript(w.slots, w.now, k, ttl, limit).1 then [S.Grant(k, w.now, true)] else []
  {
  }

  lemma {:induction false} EnterKeepsInv(ttl: int, limit: int, f: Fleet, k: nat, granted: bool, g: Fleet)
    requires Inv(ttl, limit, f) && Enabled(ttl, limit, f, Step(k, J.EnterSlot(granted)))
    requires g == Next(ttl, limit, f, Step(k, J.EnterSlot(granted)))
    ensures Inv(ttl, limit, g)
  {
    var j := J.Next(f.jobs[k], J.EnterSlot(granted));
    assert JobHolds(f, k) && J.SlotOk(f.jobs[k]);
    StepMovesSlot(f.jobs[k], J.EnterSlot(granted), j);
    J.StepKeepsSlot(f.jobs[k], J.EnterSlot(granted), j);
    assert S.Unused(f.world, k) by {
      forall i | 0 <= i < |f.world.grants| && f.world.grants[i].open ensures f.world.grants[i].owner != k {
        assert OpenIsHeld(f, i);
      }
    }
    S.InvStep(ttl, limit, f.world, S.Acquire(k));
    AcquireGrants(ttl, limit, f.world, k);
    JobsStep(f, k, j, g.held[k], g);
    if granted {
      LinkedEnter(f, k, g);
    } else {
      assert g.held == f.held;
      LinkedSame(f, g);
    }
  }

  lemma {:induction false} LeaveKeepsInv(ttl: int, limit: int, f: Fleet, k: nat, g: Fleet)
    requires Inv(ttl, limit, f) && Enabled(ttl, limit, f, Step(k, J.LeaveSlot))
    requires g == Next(ttl, limit, f, Step(k, J.LeaveSlot))
    ensures Inv(ttl, limit, g)
  {
    var j := J.Next(f.jobs[k], J.LeaveSlot);
    assert JobHolds(f, k) && J.SlotOk(f.jobs[k]) && HeldIsOpen(f, k);
    StepMovesSlot(f.jobs[k], J.LeaveSlot, j);
    J.StepKeepsSlot(f.jobs[k], J.LeaveSlot, j);
    if f.held[k].Some? {
      S.InvStep(ttl, limit, f.world, S.Release(f.held[k].value));
      LinkedLeave(f, k, f.held[k].value, g);
    } else {
      assert g.held == f.held[k := None];
      LinkedSame(f, g);
    }
    JobsStep(f, k, j, None, g);
  }

  lemma {:induction false} OtherStepKeepsInv(ttl: int, limit: int, f: Fleet, k: nat, a: J.Action, g: Fleet)
    requires Inv(ttl, limit, f) && Enabled(ttl, limit, f, Step(k, a)) && !a.EnterSlot? && !a.LeaveSlot?
    requires g == Next(ttl, limit, f, Step(k, a))
    ensures Inv(ttl, limit, g)
  {
    var j := J.Next(f.jobs[k], a);
    assert JobHolds(f, k) && J.SlotOk(f.jobs[k]);
    StepMovesSlot(f.jobs[k], a, j);
    J.StepKeepsSlot(f.jobs[k], a, j);
    assert g.held == f.held[k := f.held[k]];
    JobsStep(f, k, j, f.held[k], g);
    LinkedSame(f, g);
  }

  lemma {:induction false} TimeKeepsInv(ttl: int, limit: int, f: Fleet, a: Action, g: Fleet)
    requires Inv(ttl, limit, f) && Enabled(ttl, limit, f, a) && !a.Step? && g == Next(ttl, limit, f, a)
    requires a.Observe? ==> ttl <= S.OBSERVER_WINDOW
    ensures Inv(ttl, limit, g)
  {
    var w := if a.Wait? then S.Wait(a.duration) else if a.ExpireKey? then S.ExpireKey else S.Observe;
    S.InvStep(ttl, limit, f.world, w);
    LinkedSame(f, g);
    forall k: nat | k < |g.jobs| ensures JobHolds(g, k) && J.SlotOk(g.jobs[k]) {
      assert JobHolds(f, k) && J.SlotOk(f.jobs[k]);
    }
  }

  lemma {:induction false} InvRun(ttl: int, limit: int, f: Fleet, run: seq<Action>, last: Fleet)
    requires Inv(ttl, limit, f) && Reaches(ttl, limit, f, run, last)
    requires Observe in run ==> ttl <= S.OBSERVER_WINDOW
    ensures Inv(ttl, limit, last)
    decreases |run|
  {
    if run != [] {
      var g := Next(ttl, limit, f, run[0]);
      if run[0].Step? {
        match run[0].a
        case EnterSlot(granted) => EnterKeepsInv(ttl, limit, f, run[0].k, granted, g);
        case LeaveSlot => LeaveKeepsInv(ttl, limit, f, run[0].k, g);
        case _ => OtherStepKeepsInv(ttl, limit, f, run[0].k, run[0].a, g);
      } else {
        TimeKeepsInv(ttl, limit, f, run[0], g);
      }
      InvRun(ttl, limit, g, run[1..], last);
    }
  }

  lemma {:induction false} OpenIsInv(ttl: int, limit: int, jobs: seq<J.Job>)
    requires AllFresh(jobs)
    ensures Inv(ttl, limit, Open(jobs))
  {
    S.StartIsGood(ttl, limit);
    forall k: nat | k < |jobs| ensures JobHolds(Open(jobs), k) && J.SlotOk(Open(jobs).jobs[k]) {
      assert IsFresh(jobs[k]);
    }
  }

  // ---------------------------------------------------------------------------
  // The guarantee: fetching under a live slot
  // ---------------------------------------------------------------------------

  lemma {:induction false} GrantsInject(f: Fleet, held: set<nat>)
    requires Linked(f) && forall k :: k in held ==> k < |f.held| && f.held[k].Some?
    ensures |set k | k in held :: f.held[k].value| == |held|
  {
    if held != {} {
      var x :| x in held;
      var rest := held - {x};
      GrantsInject(f, rest);
      assert (set k | k in held :: f.held[k].value) == (set k | k in rest :: f.held[k].value) + {f.held[x].value};
      forall k | k in rest ensures f.held[k].value != f.held[x].value {
        assert HeldIsOpen(f, k) && HeldIsOpen(f, x);
      }
    }
  }

  lemma {:induction false} HoldersBounded(ttl: int, limit: int, f: Fleet, held: set<nat>)
    requires Linked(f) && S.Inv(ttl, limit, f.world) && forall k :: k in held ==> HoldsLive(ttl, f, k)
    ensures |held| <= S.Positive(limit)
  {
    var grants := set k | k in held :: f.held[k].value;
    GrantsInject(f, held);
    assert grants <= S.LiveGrants(ttl, f.world);
    SubsetCard(grants, S.LiveGrants(ttl, f.world));
  }

  /**
    In every run of any number of jobs, the jobs fetching under a granted slot younger than
    2 * ttl never exceed the limit; and a job that is inside its slot and was granted one
    holds a grant of its own that nobody else has returned.
  */
  lemma {:induction false} GrantedFetchersBounded(ttl: int, limit: int, jobs: seq<J.Job>, run: seq<Action>, f: Fleet)
    requires AllFresh(jobs) && Reaches(ttl, limit, Open(jobs), run, f)
    requires Observe in run ==> ttl <= S.OBSERVER_WINDOW
    ensures |FetchingUnderSlot(ttl, f)| <= S.Positive(limit)
    ensures |f.held| == |f.jobs|
    ensures forall k :: 0 <= k < |f.jobs| && f.jobs[k].slot.acquired && Inside(f.jobs[k].phase) ==>
              && f.held[k].Some? && f.held[k].value < |f.world.grants|
              && f.world.grants[f.held[k].value].open && f.world.grants[f.held[k].value].owner == k
  {
    OpenIsInv(ttl, limit, jobs);
    InvRun(ttl, limit, Open(jobs), run, f);
    HoldersBounded(ttl, limit, f, FetchingUnderSlot(ttl, f));
    forall k: nat | k < |f.jobs| && f.jobs[k].slot.acquired && Inside(f.jobs[k].phase)
      ensures f.held[k].Some? && HeldIsOpen(f, k)
    {
      assert JobHolds(f, k) && HeldIsOpen(f, k);
    }
  }

  // ---------------------------------------------------------------------------
  // No guarantee: fetching at all
  // ---------------------------------------------------------------------------

  lemma {:induction false} ReachesThen(ttl: int, limit: int, f: Fleet, run: seq<Action>, g: Fleet, more: seq<Action>,
        last: Fleet)
    requires Reaches(ttl, limit, f, run, g) && Reaches(ttl, limit, g, more, last)
    ensures Reaches(ttl, limit, f, run + more, last)
    decreases |run|
  {
    if run == [] {
      assert run + more == more;
    } else {
      assert (run + more)[1..] == run[1..] + more;
      ReachesThen(ttl, limit, Next(ttl, limit, f, run[0]), run[1..], g, more, last);
    }
  }

  /** A step of one job from phase `p` with its chunks untouched. */
  predicate At(j: J.Job, p: J.Phase) {
    j.phase == p && |j.chunks| > 0 && J.NoneStarted(j)
  }

  /** The steps that lead a job into its fetch, with the limiter's answer at the slot. */
  function Entry(p: J.Phase, granted: bool): J.Action {
    match p
    case Begun => J.PreQuery(true)
    case PreQueried => J.Report(true)
    case Reported5 => J.EnterSlot(granted)
    case _ => J.Prepare(true)
  }

  function Following(p: J.Phase): J.Phase {
    match p
    case Begun => J.PreQueried
    case PreQueried => J.Reported5
    case Reported5 => J.InSlot
    case _ => J.Fetching
  }

  predicate OnTheWay(p: J.Phase) {
    p == J.Begun || p == J.PreQueried || p == J.Reported5 || p == J.InSlot
  }

  lemma {:induction false} EntryStep(j: J.Job, p: J.Phase, granted: bool)
    requires At(j, p) && OnTheWay(p)
    ensures J.Enabled(j, Entry(p, granted)) && At(J.Next(j, Entry(p, granted)), Following(p))
  {
  }

  lemma {:induction false} FetchStep(j: J.Job)
    requires At(j, J.Fetching)
    ensures J.Enabled(j, J.StartChunk(0)) && Fetches(J.Next(j, J.StartChunk(0)))
  {
    assert J.Next(j, J.StartChunk(0)).chunks[0] == J.Running;
  }

  ghost predicate Others(f: Fleet, k: nat, g: Fleet) {
    |g.jobs| == |f.jobs| && forall i :: 0 <= i < |f.jobs| && i != k ==> g.jobs[i] == f.jobs[i]
  }

  lemma {:induction false} TakeStep(ttl: int, limit: int, f: Fleet, k: nat, a: J.Action) returns (g: Fleet)
    requires Inv(ttl, limit, f) && k < |f.jobs| && J.Enabled(f.jobs[k], a)
    requires a.EnterSlot? ==> a.granted == S.AcquireScript(f.world.slots, f.world.now, k, ttl, limit).1
    ensures Reaches(ttl, limit, f, [Step(k, a)], g) && Inv(ttl, limit, g)
    ensures Others(f, k, g) && g.jobs[k] == J.Next(f.jobs[k], a)
  {
    assert HeldIsOpen(f, k);
    g := Next(ttl, limit, f, Step(k, a));
    assert [Step(k, a)][1..] == [];
    assert Reaches(ttl, limit, g, [], g);
    InvRun(ttl, limit, f, [Step(k, a)], g);
  }

  lemma {:induction false} TakesEntryStep(ttl: int, limit: int, f: Fleet, k: nat, p: J.Phase)
    returns (a: J.Action, g: Fleet)
    requires Inv(ttl, limit, f) && k < |f.jobs| && At(f.jobs[k], p) && OnTheWay(p)
    ensures Reaches(ttl, limit, f, [Step(k, a)], g) && Inv(ttl, limit, g)
    ensures Others(f, k, g) && At(g.jobs[k], Following(p))
  {
    var granted := S.AcquireScript(f.world.slots, f.world.now, k, ttl, limit).1;
    a := Entry(p, granted);
    EntryStep(f.jobs[k], p, granted);
    g := TakeStep(ttl, limit, f, k, a);
  }

  lemma {:induction false} TakesFetchStep(ttl: int, limit: int, f: Fleet, k: nat) returns (g: Fleet)
    requires Inv(ttl, limit, f) && k < |f.jobs| && At(f.jobs[k], J.Fetching)
    ensures Reaches(ttl, limit, f, [Step(k, J.StartChunk(0))], g) && Inv(ttl, limit, g)
    ensures Others(f, k, g) && Fetches(g.jobs[k])
  {
    FetchStep(f.jobs[k]);
    g := TakeStep(ttl, limit, f, k, J.StartChunk(0));
  }

  /** Job k goes from its start, or from wherever it is on the way, to fetching its first chunk. */
  lemma {:induction false} GoesToFetch(ttl: int, limit: int, f: Fleet, k: nat, p: J.Phase)
    returns (run: seq<Action>, g: Fleet)
    requires Inv(ttl, limit, f) && k < |f.jobs| && At(f.jobs[k], p) && (OnTheWay(p) || p == J.Fetching)
    ensures Reaches(ttl, limit, f, run, g) && Inv(ttl, limit, g)
    ensures Others(f, k, g) && Fetches(g.jobs[k])
    decreases 4 - J.Rank(p)
  {
    if p == J.Fetching {
      g := TakesFetchStep(ttl, limit, f, k);
      run := [Step(k, J.StartChunk(0))];
    } else {
      var a, mid := TakesEntryStep(ttl, limit, f, k, p);
      var more;
      more, g := GoesToFetch(ttl, limit, mid, k, Following(p));
      ReachesThen(ttl, limit, f, [Step(k, a)], mid, more, g);
      run := [Step(k, a)] + more;
    }
  }

  /** One job after the other goes to fetch, whatever the limiter answers. */
  lemma {:induction false} AllGoToFetch(ttl: int, limit: int, f: Fleet, k: nat) returns (run: seq<Action>, g: Fleet)
    requires Inv(ttl, limit, f) && k <= |f.jobs|
    requires forall i :: 0 <= i < k ==> Fetches(f.jobs[i])
    requires forall i :: k <= i < |f.jobs| ==> At(f.jobs[i], J.Begun)
    ensures Reaches(ttl, limit, f, run, g) && |g.jobs| == |f.jobs|
    ensures forall i :: 0 <= i < |g.jobs| ==> Fetches(g.jobs[i])
    decreases |f.jobs| - k
  {
    if k == |f.jobs| {
      run, g := [], f;
    } else {
      var first, mid := GoesToFetch(ttl, limit, f, k, J.Begun);
      var more;
      more, g := AllGoToFetch(ttl, limit, mid, k + 1);
      ReachesThen(ttl, limit, f, first, mid, more, g);
      run := first + more;
    }
  }

  /** For every limit and any number of jobs, some run has all of them fetching at once. */
  lemma {:induction false} AllFetchAtOnce(ttl: int, limit: int, jobs: seq<J.Job>) returns (run: seq<Action>, f: Fleet)
    requires AllFresh(jobs)
    ensures Reaches(ttl, limit, Open(jobs), run, f) && |Fetching(f)| == |jobs|
  {
    OpenIsInv(ttl, limit, jobs);
    forall i | 0 <= i < |jobs| ensures At(jobs[i], J.Begun) {
      assert IsFresh(jobs[i]);
    }
    run, f := AllGoToFetch(ttl, limit, Open(jobs), 0);
    S.BelowIs(|jobs|);
    assert Fetching(f) == S.Below(|jobs|);
  }

  lemma {:induction false} RunKeepsJobs(ttl: int, limit: int, f: Fleet, run: seq<Action>, last: Fleet)
    requires Reaches(ttl, limit, f, run, last)
    ensures |last.jobs| == |f.jobs|
    decreases |run|
  {
    if run != [] {
      RunKeepsJobs(ttl, limit, Next(ttl, limit, f, run[0]), run[1..], last);
    }
  }

  /** Some run has more jobs fetching at once than the limit. */
  ghost predicate LimitExceedable(ttl: int, limit: int, jobs: seq<J.Job>) {
    exists run: seq<Action>, f: Fleet :: Reaches(ttl, limit, Open(jobs), run, f) && |Fetching(f)| > limit
  }

  /** That is so exactly if there are more jobs than the limit: the limiter takes no part in it. */
  lemma {:induction false} LimitExceedableExactlyWhen(ttl: int, limit: int, jobs: seq<J.Job>)
    requires AllFresh(jobs)
    ensures LimitExceedable(ttl, limit, jobs) <==> |jobs| > limit
  {
    if |jobs| > limit {
      var run, f := AllFetchAtOnce(ttl, limit, jobs);
      assert Reaches(ttl, limit, Open(jobs), run, f) && |Fetching(f)| > limit;
    }
    if run, f :| Reaches(ttl, limit, Open(jobs), run, f) && |Fetching(f)| > limit {
      RunKeepsJobs(ttl, limit, Open(jobs), run, f);
      S.BelowIs(|jobs|);
      SubsetCard(Fetching(f), S.Below(|jobs|));
    }
  }
}
