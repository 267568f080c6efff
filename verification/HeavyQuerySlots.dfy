/**
  The heavy-query slot limiter of src/mes_dashboard/core/global_concurrency.py: a Redis
  sorted set shared by all workers, used as a semaphore with leases.

  An entry's score is its grant time plus ttl, the clean-up cutoff is the current time
  minus ttl, and the whole key expires 2 * ttl after the last grant.  Redis is up; all
  callers share one clock and one ttl.
*/
module HeavyQuerySlots {
  import opened Options
  import opened Sets

  type Owner = nat

  /** The sorted set, and the time its key expires; an empty set has no key. */
  datatype SlotSet = SlotSet(scores: map<Owner, real>, expireAt: Option<real>)

  const EMPTY := SlotSet(map[], None)

  /** The window `get_active_slot_count` uses, whatever ttl the holders passed. */
  const OBSERVER_WINDOW := 600

  function Keyed(scores: map<Owner, real>, expireAt: Option<real>): SlotSet {
    if scores == map[] then EMPTY else SlotSet(scores, expireAt)
  }

  function ZRemRangeByScore(s: SlotSet, cutoff: real): SlotSet {
    Keyed(map o | o in s.scores && s.scores[o] > cutoff :: s.scores[o], s.expireAt)
  }

  function ZRem(s: SlotSet, owner: Owner): SlotSet {
    Keyed(s.scores - {owner}, s.expireAt)
  }

  /** The acquire script. */
  function AcquireScript(s: SlotSet, now: real, owner: Owner, ttl: int, maxConcurrent: int): (SlotSet, bool) {
    var kept := ZRemRangeByScore(s, now - ttl as real);
    if |kept.scores| >= maxConcurrent then (kept, false)
    else (SlotSet(kept.scores[owner := now + ttl as real], Some(now + (2 * ttl) as real)), true)
  }

  class SlotLimiter {
    var slots: SlotSet
    const maxConcurrent: int

    constructor (maxConcurrent: int)
      ensures slots == EMPTY && this.maxConcurrent == maxConcurrent
    {
      this.maxConcurrent := maxConcurrent;
      slots := EMPTY;
    }

    method Acquire(owner: Owner, ttl: int, now: real) returns (acquired: bool)
      modifies this
      ensures (slots, acquired) == AcquireScript(old(slots), now, owner, ttl, maxConcurrent)
      ensures acquired ==> owner in slots.scores && slots.scores[owner] == now + ttl as real
      ensures acquired ==> slots.expireAt == Some(now + 2.0 * ttl as real)
      ensures !acquired ==> slots.scores == map[] || slots.expireAt == old(slots.expireAt)
      ensures forall o :: !(acquired && o == owner) ==>
                (o in slots.scores <==> o in old(slots.scores) && old(slots.scores)[o] > now - ttl as real)
      ensures forall o :: o in slots.scores && !(acquired && o == owner) ==> slots.scores[o] == old(slots.scores)[o]
    {
      slots := ZRemRangeByScore(slots, now - ttl as real);
      if |slots.scores| >= maxConcurrent {
        return false;
      }
      slots := slots.(scores := slots.scores[owner := now + ttl as real]);
      slots := slots.(expireAt := Some(now + (2 * ttl) as real));
      return true;
    }

    /** The owner's entry is gone, nobody else's has changed, and the key goes with its last entry. */
    method Release(owner: Owner)
      modifies this
      ensures slots == ZRem(old(slots), owner)
      ensures owner !in slots.scores
      ensures forall o :: o != owner ==> (o in slots.scores <==> o in old(slots.scores))
      ensures forall o :: o in slots.scores ==> slots.scores[o] == old(slots.scores)[o]
      ensures slots.scores == map[] ==> slots.expireAt.None?
    {
      slots := ZRem(slots, owner);
    }

    /**
      The count is of the entries whose score lies less than 600 s back, which is also all
      that stays; counting again at the same time changes nothing and gives the same number.
    */
    method ActiveCount(now: real) returns (count: nat)
      modifies this
      ensures slots == ZRemRangeByScore(old(slots), now - OBSERVER_WINDOW as real)
      ensures forall o :: o in slots.scores <==> o in old(slots.scores) && now < old(slots.scores)[o] + 600.0
      ensures forall o :: o in slots.scores ==> slots.scores[o] == old(slots.scores)[o]
      ensures count == |set o | o in old(slots.scores) && now < old(slots.scores)[o] + 600.0|
      ensures ZRemRangeByScore(slots, now - OBSERVER_WINDOW as real).scores == slots.scores
    {
      slots := ZRemRangeByScore(slots, now - OBSERVER_WINDOW as real);
      count := |slots.scores|;
      assert slots.scores.Keys == set o | o in old(slots.scores) && now < old(slots.scores)[o] + 600.0;
    }
  }

  // ---------------------------------------------------------------------------
  // Runs over many workers
  // ---------------------------------------------------------------------------

  /** One granted slot; `open` until its holder releases it.  A crashed holder never does. */
  datatype Grant = Grant(owner: Owner, at: real, open: bool)

  datatype World = World(now: real, slots: SlotSet, grants: seq<Grant>)

  datatype Action =
    | Wait(duration: real)
    | Acquire(owner: Owner)
    | Release(grant: nat)
    | ExpireKey
    | Observe

  const START := World(0.0, EMPTY, [])

  /** No grant that is still open has this owner id. */
  ghost predicate Unused(w: World, owner: Owner) {
    forall i :: 0 <= i < |w.grants| && w.grants[i].open ==> w.grants[i].owner != owner
  }

  /** What can happen when owner ids may be shared. */
  ghost predicate Possible(w: World, a: Action) {
    match a
    case Wait(duration) => duration >= 0.0
    case Acquire(_) => true
    case Release(i) => i < |w.grants| && w.grants[i].open
    case ExpireKey => w.slots.expireAt.Some? && w.slots.expireAt.value <= w.now
    case Observe => true
  }

  /** With owner ids that differ between open grants. */
  ghost predicate Enabled(w: World, a: Action) {
    Possible(w, a) && (a.Acquire? ==> Unused(w, a.owner))
  }

  function Next(ttl: int, maxConcurrent: int, w: World, a: Action): World
    requires a.Release? ==> a.grant < |w.grants|
  {
    match a
    case Wait(duration) => w.(now := w.now + duration)
    case Acquire(owner) =>
      var (slots, acquired) := AcquireScript(w.slots, w.now, owner, ttl, maxConcurrent);
      w.(slots := slots, grants := if acquired then w.grants + [Grant(owner, w.now, true)] else w.grants)
    case Release(i) =>
      w.(slots := ZRem(w.slots, w.grants[i].owner), grants := w.grants[i := w.grants[i].(open := false)])
    case ExpireKey => w.(slots := EMPTY)
    case Observe => w.(slots := ZRemRangeByScore(w.slots, w.now - OBSERVER_WINDOW as real))
  }

  /** The run is possible from `w` and ends in `last`. */
  ghost predicate Reaches(ttl: int, maxConcurrent: int, w: World, run: seq<Action>, last: World)
    decreases |run|
  {
    if run == [] then w == last
    else Enabled(w, run[0]) && Reaches(ttl, maxConcurrent, Next(ttl, maxConcurrent, w, run[0]), run[1..], last)
  }

  /** Likewise, with owner ids shared at will. */
  ghost predicate ReachesShared(ttl: int, maxConcurrent: int, w: World, run: seq<Action>, last: World)
    decreases |run|
  {
    if run == [] then w == last
    else Possible(w, run[0]) && ReachesShared(ttl, maxConcurrent, Next(ttl, maxConcurrent, w, run[0]), run[1..], last)
  }

  predicate IsLive(ttl: int, w: World, i: nat)
    requires i < |w.grants|
  {
    w.grants[i].open && w.now < w.grants[i].at + (2 * ttl) as real
  }

  /** The granted, unreleased slots younger than 2 * ttl. */
  function LiveGrants(ttl: int, w: World): set<nat> {
    set i: nat | i < |w.grants| && IsLive(ttl, w, i)
  }

  function LiveOwners(ttl: int, w: World): set<Owner> {
    set i | i in LiveGrants(ttl, w) :: w.grants[i].owner
  }

  function Positive(n: int): nat {
    if n < 0 then 0 else n
  }

  // ---------------------------------------------------------------------------
  // What every step keeps
  // ---------------------------------------------------------------------------

  ghost predicate ScoreHasGrant(ttl: int, w: World, owner: Owner)
    requires owner in w.slots.scores
  {
    exists i :: 0 <= i < |w.grants| && w.grants[i].open && w.grants[i].owner == owner &&
                w.slots.scores[owner] == w.grants[i].at + ttl as real
  }

  ghost predicate GrantHasScore(ttl: int, w: World, i: nat)
    requires i < |w.grants|
  {
    IsLive(ttl, w, i) ==>
      && w.grants[i].owner in w.slots.scores
      && w.slots.scores[w.grants[i].owner] == w.grants[i].at + ttl as real
  }

  ghost predicate OwnersDiffer(grants: seq<Grant>) {
    forall i, j :: 0 <= i < j < |grants| && grants[i].open && grants[j].open ==> grants[i].owner != grants[j].owner
  }

  /** The key outlives every entry's lease. */
  ghost predicate ExpiryCovers(ttl: int, s: SlotSet) {
    s.expireAt.Some? ==> forall o :: o in s.scores ==> s.scores[o] + ttl as real <= s.expireAt.value
  }

  /** The sorted set holds open grants only, and every live one. */
  ghost predicate Inv(ttl: int, maxConcurrent: int, w: World) {
    && OwnersDiffer(w.grants)
    && (forall i :: 0 <= i < |w.grants| ==> w.grants[i].at <= w.now)
    && (forall o :: o in w.slots.scores ==> ScoreHasGrant(ttl, w, o))
    && (forall i: nat :: i < |w.grants| ==> GrantHasScore(ttl, w, i))
    && ExpiryCovers(ttl, w.slots)
    && |LiveGrants(ttl, w)| <= Positive(maxConcurrent)
  }

  lemma {:induction false} ImageCard(w: World, live: set<nat>)
    requires forall i :: i in live ==> i < |w.grants|
    requires forall i, j :: i in live && j in live && i != j ==> w.grants[i].owner != w.grants[j].owner
    ensures |set i | i in live :: w.grants[i].owner| == |live|
  {
    if live != {} {
      var x :| x in live;
      var rest := live - {x};
      ImageCard(w, rest);
      assert (set i | i in live :: w.grants[i].owner) == (set i | i in rest :: w.grants[i].owner) + {w.grants[x].owner};
    }
  }

  /** After the clean-up of an acquire, the set's members are exactly the live grants' owners. */
  lemma {:induction false} CleanedSetIsLive(ttl: int, maxConcurrent: int, w: World)
    requires Inv(ttl, maxConcurrent, w)
    ensures var kept := ZRemRangeByScore(w.slots, w.now - ttl as real);
            kept.scores.Keys == LiveOwners(ttl, w) && |kept.scores| == |LiveGrants(ttl, w)|
  {
    var kept := ZRemRangeByScore(w.slots, w.now - ttl as real);
    var live := LiveGrants(ttl, w);
    var owners := LiveOwners(ttl, w);
    forall o | o in kept.scores
      ensures o in owners
    {
      assert ScoreHasGrant(ttl, w, o);
      var i: nat :| i < |w.grants| && w.grants[i].open && w.grants[i].owner == o &&
                    w.slots.scores[o] == w.grants[i].at + ttl as real;
      assert IsLive(ttl, w, i);
    }
    forall o | o in owners
      ensures o in kept.scores
    {
      var i :| i in live && w.grants[i].owner == o;
      assert GrantHasScore(ttl, w, i);
    }
    assert kept.scores.Keys == owners;
    ImageCard(w, live);
  }

  lemma {:induction false} CleanedCount(ttl: int, maxConcurrent: int, w: World)
    requires Inv(ttl, maxConcurrent, w)
    ensures |ZRemRangeByScore(w.slots, w.now - ttl as real).scores| == |LiveGrants(ttl, w)|
  {
    CleanedSetIsLive(ttl, maxConcurrent, w);
  }

  /**
    An acquire is granted exactly when fewer than `maxConcurrent` grants are unreleased
    and younger than 2 * ttl: nothing live is ever forgotten and nothing older counts.
  */
  lemma {:induction false} AcquireIsExact(ttl: int, maxConcurrent: int, w: World, owner: Owner)
    requires Inv(ttl, maxConcurrent, w)
    ensures AcquireScript(w.slots, w.now, owner, ttl, maxConcurrent).1 <==> |LiveGrants(ttl, w)| < maxConcurrent
  {
    CleanedCount(ttl, maxConcurrent, w);
  }

  lemma {:induction false} AcquireKeepsScores(ttl: int, maxConcurrent: int, w: World, owner: Owner)
    requires Inv(ttl, maxConcurrent, w)
    ensures var w' := Next(ttl, maxConcurrent, w, Acquire(owner));
            && (forall o :: o in w'.slots.scores ==> ScoreHasGrant(ttl, w', o))
  {
    var w' := Next(ttl, maxConcurrent, w, Acquire(owner));
    forall o | o in w'.slots.scores
      ensures ScoreHasGrant(ttl, w', o)
    {
      if w'.grants != w.grants && o == owner {
        assert w'.grants[|w.grants|] == Grant(owner, w.now, true);
      } else {
        assert ScoreHasGrant(ttl, w, o);
        var i :| 0 <= i < |w.grants| && w.grants[i].open && w.grants[i].owner == o &&
                 w.slots.scores[o] == w.grants[i].at + ttl as real;
        assert w'.grants[i] == w.grants[i];
      }
    }
  }

  lemma {:induction false} AcquireKeepsGrants(ttl: int, maxConcurrent: int, w: World, owner: Owner)
    requires Inv(ttl, maxConcurrent, w) && Unused(w, owner)
    ensures var w' := Next(ttl, maxConcurrent, w, Acquire(owner));
            && (forall i: nat :: i < |w'.grants| ==> GrantHasScore(ttl, w', i))
  {
    var w' := Next(ttl, maxConcurrent, w, Acquire(owner));
    forall i: nat | i < |w'.grants|
      ensures GrantHasScore(ttl, w', i)
    {
      if i < |w.grants| {
        assert GrantHasScore(ttl, w, i);
        assert w'.grants[i] == w.grants[i];
      }
    }
  }

  lemma {:induction false} LiveAfterGrant(ttl: int, w: World, w': World, g: Grant)
    requires w'.now == w.now && w'.grants == w.grants + [g]
    ensures |LiveGrants(ttl, w')| <= |LiveGrants(ttl, w)| + 1
  {
    var live := LiveGrants(ttl, w);
    forall i | i in LiveGrants(ttl, w')
      ensures i in live + {|w.grants|}
    {
    }
    SubsetCard(LiveGrants(ttl, w'), live + {|w.grants|});
  }

  lemma {:induction false} AcquireKeepsBound(ttl: int, maxConcurrent: int, w: World, owner: Owner)
    requires Inv(ttl, maxConcurrent, w)
    ensures |LiveGrants(ttl, Next(ttl, maxConcurrent, w, Acquire(owner)))| <= Positive(maxConcurrent)
  {
    var w' := Next(ttl, maxConcurrent, w, Acquire(owner));
    AcquireIsExact(ttl, maxConcurrent, w, owner);
    if w'.grants == w.grants {
      assert LiveGrants(ttl, w') == LiveGrants(ttl, w);
    } else {
      LiveAfterGrant(ttl, w, w', Grant(owner, w.now, true));
    }
  }

  lemma {:induction false} AcquireKeepsExpiry(ttl: int, maxConcurrent: int, w: World, owner: Owner)
    requires Inv(ttl, maxConcurrent, w)
    ensures ExpiryCovers(ttl, Next(ttl, maxConcurrent, w, Acquire(owner)).slots)
  {
    var slots := Next(ttl, maxConcurrent, w, Acquire(owner)).slots;
    forall o | o in w.slots.scores
      ensures w.slots.scores[o] <= w.now + ttl as real
    {
      assert ScoreHasGrant(ttl, w, o);
    }
    assert forall o :: o in slots.scores && o != owner ==> o in w.slots.scores && slots.scores[o] == w.slots.scores[o];
  }

  lemma {:induction false} AcquireKeepsOwners(ttl: int, maxConcurrent: int, w: World, owner: Owner)
    requires Inv(ttl, maxConcurrent, w) && Unused(w, owner)
    ensures var w' := Next(ttl, maxConcurrent, w, Acquire(owner));
            && OwnersDiffer(w'.grants)
            && (forall i :: 0 <= i < |w'.grants| ==> w'.grants[i].at <= w'.now)
  {
  }

  lemma {:induction false} InvAcquire(ttl: int, maxConcurrent: int, w: World, owner: Owner)
    requires Inv(ttl, maxConcurrent, w) && Unused(w, owner)
    ensures Inv(ttl, maxConcurrent, Next(ttl, maxConcurrent, w, Acquire(owner)))
  {
    AcquireKeepsScores(ttl, maxConcurrent, w, owner);
    AcquireKeepsGrants(ttl, maxConcurrent, w, owner);
    AcquireKeepsBound(ttl, maxConcurrent, w, owner);
    AcquireKeepsExpiry(ttl, maxConcurrent, w, owner);
    AcquireKeepsOwners(ttl, maxConcurrent, w, owner);
  }

  /** Steps that only lose scores of grants that are no longer live. */
  lemma {:induction false} InvShrinks(ttl: int, maxConcurrent: int, w: World, w': World)
    requires Inv(ttl, maxConcurrent, w)
    requires w'.now >= w.now && w'.grants == w.grants
    requires w'.slots.scores.Keys <= w.slots.scores.Keys
    requires forall o :: o in w'.slots.scores ==> w'.slots.scores[o] == w.slots.scores[o]
    requires forall o :: o in w.slots.scores && o !in w'.slots.scores ==> w.slots.scores[o] + ttl as real <= w'.now
    requires w'.slots.expireAt == w.slots.expireAt || w'.slots.expireAt == None
    ensures Inv(ttl, maxConcurrent, w')
  {
    forall o | o in w'.slots.scores
      ensures ScoreHasGrant(ttl, w', o)
    {
      assert ScoreHasGrant(ttl, w, o);
    }
    forall i: nat | i < |w'.grants|
      ensures GrantHasScore(ttl, w', i)
    {
      assert GrantHasScore(ttl, w, i);
    }
    SubsetCard(LiveGrants(ttl, w'), LiveGrants(ttl, w));
  }

  lemma {:induction false} InvRelease(ttl: int, maxConcurrent: int, w: World, n: nat)
    requires Inv(ttl, maxConcurrent, w) && n < |w.grants| && w.grants[n].open
    ensures Inv(ttl, maxConcurrent, Next(ttl, maxConcurrent, w, Release(n)))
  {
    var w' := Next(ttl, maxConcurrent, w, Release(n));
    forall o | o in w'.slots.scores
      ensures ScoreHasGrant(ttl, w', o)
    {
      assert ScoreHasGrant(ttl, w, o);
      var i :| 0 <= i < |w.grants| && w.grants[i].open && w.grants[i].owner == o &&
               w.slots.scores[o] == w.grants[i].at + ttl as real;
      assert w'.grants[i] == w.grants[i];
    }
    forall i: nat | i < |w'.grants|
      ensures GrantHasScore(ttl, w', i)
    {
      assert GrantHasScore(ttl, w, i);
    }
    SubsetCard(LiveGrants(ttl, w'), LiveGrants(ttl, w));
  }

  /** Every step keeps the invariant; an observer step needs ttl to be at most 600. */
  lemma {:induction false} InvStep(ttl: int, maxConcurrent: int, w: World, a: Action)
    requires Inv(ttl, maxConcurrent, w) && Enabled(w, a)
    requires a.Observe? ==> ttl <= OBSERVER_WINDOW
    ensures Inv(ttl, maxConcurrent, Next(ttl, maxConcurrent, w, a))
  {
    match a
    case Acquire(owner) => InvAcquire(ttl, maxConcurrent, w, owner);
    case Release(n) => InvRelease(ttl, maxConcurrent, w, n);
    case _ => InvShrinks(ttl, maxConcurrent, w, Next(ttl, maxConcurrent, w, a));
  }

  lemma {:induction false} StartIsGood(ttl: int, maxConcurrent: int)
    ensures Inv(ttl, maxConcurrent, START)
  {
    assert LiveGrants(ttl, START) == {};
  }

  lemma {:induction false} InvRun(ttl: int, maxConcurrent: int, w: World, run: seq<Action>, last: World)
    requires Inv(ttl, maxConcurrent, w) && Reaches(ttl, maxConcurrent, w, run, last)
    requires Observe in run ==> ttl <= OBSERVER_WINDOW
    ensures Inv(ttl, maxConcurrent, last)
    decreases |run|
  {
    if run != [] {
      InvStep(ttl, maxConcurrent, w, run[0]);
      InvRun(ttl, maxConcurrent, Next(ttl, maxConcurrent, w, run[0]), run[1..], last);
    }
  }

  /**
    Slot safety and exactness, in every interleaving of acquire, release, waiting, key
    expiry and observation with owner ids not shared by open grants: the bound holds, an
    acquire is granted exactly below it, no live grant's entry has been lost, and a grant
    aged 2 * ttl or more is not in the set an acquire counts.
  */
  lemma {:induction false} SlotSafety(ttl: int, maxConcurrent: int, run: seq<Action>, w: World, owner: Owner)
    requires Reaches(ttl, maxConcurrent, START, run, w)
    requires Observe in run ==> ttl <= OBSERVER_WINDOW
    ensures |LiveGrants(ttl, w)| <= Positive(maxConcurrent)
    ensures AcquireScript(w.slots, w.now, owner, ttl, maxConcurrent).1 <==> |LiveGrants(ttl, w)| < maxConcurrent
    ensures forall i :: i in LiveGrants(ttl, w) ==>
              w.grants[i].owner in w.slots.scores && w.slots.scores[w.grants[i].owner] == w.grants[i].at + ttl as real
    ensures ZRemRangeByScore(w.slots, w.now - ttl as real).scores.Keys == LiveOwners(ttl, w)
    ensures forall i :: 0 <= i < |w.grants| && w.grants[i].open && w.now >= w.grants[i].at + (2 * ttl) as real ==>
              w.grants[i].owner !in ZRemRangeByScore(w.slots, w.now - ttl as real).scores
  {
    StartIsGood(ttl, maxConcurrent);
    InvRun(ttl, maxConcurrent, START, run, w);
    InvMeans(ttl, maxConcurrent, w);
    AcquireIsExact(ttl, maxConcurrent, w, owner);
  }

  lemma {:induction false} InvMeans(ttl: int, maxConcurrent: int, w: World)
    requires Inv(ttl, maxConcurrent, w)
    ensures forall i :: i in LiveGrants(ttl, w) ==>
              w.grants[i].owner in w.slots.scores && w.slots.scores[w.grants[i].owner] == w.grants[i].at + ttl as real
    ensures ZRemRangeByScore(w.slots, w.now - ttl as real).scores.Keys == LiveOwners(ttl, w)
    ensures forall i :: 0 <= i < |w.grants| && w.grants[i].open && w.now >= w.grants[i].at + (2 * ttl) as real ==>
              w.grants[i].owner !in ZRemRangeByScore(w.slots, w.now - ttl as real).scores
  {
    LiveHaveScores(ttl, maxConcurrent, w);
    CleanedSetIsLive(ttl, maxConcurrent, w);
    OldAreCleaned(ttl, maxConcurrent, w);
  }

  lemma {:induction false} LiveHaveScores(ttl: int, maxConcurrent: int, w: World)
    requires Inv(ttl, maxConcurrent, w)
    ensures forall i :: i in LiveGrants(ttl, w) ==>
              w.grants[i].owner in w.slots.scores && w.slots.scores[w.grants[i].owner] == w.grants[i].at + ttl as real
  {
    forall i | i in LiveGrants(ttl, w)
      ensures w.grants[i].owner in w.slots.scores && w.slots.scores[w.grants[i].owner] == w.grants[i].at + ttl as real
    {
      assert GrantHasScore(ttl, w, i);
    }
  }

  lemma {:induction false} OldAreCleaned(ttl: int, maxConcurrent: int, w: World)
    requires Inv(ttl, maxConcurrent, w)
    ensures forall i :: 0 <= i < |w.grants| && w.grants[i].open && w.now >= w.grants[i].at + (2 * ttl) as real ==>
              w.grants[i].owner !in ZRemRangeByScore(w.slots, w.now - ttl as real).scores
  {
    CleanedSetIsLive(ttl, maxConcurrent, w);
    forall i | 0 <= i < |w.grants| && w.grants[i].open && w.now >= w.grants[i].at + (2 * ttl) as real
      ensures w.grants[i].owner !in LiveOwners(ttl, w)
    {
      if j :| j in LiveGrants(ttl, w) && w.grants[j].owner == w.grants[i].owner {
        assert false;
      }
    }
  }

  /** A key with an expiry was last touched by the newest grant. */
  ghost predicate ExpiryIsNewest(ttl: int, w: World) {
    w.slots.expireAt.Some? ==>
      w.grants != [] && w.slots.expireAt.value == w.grants[|w.grants| - 1].at + 2.0 * ttl as real
  }

  /** In every run, owner ids shared or not, the key expires exactly 2 * ttl after the newest grant. */
  lemma {:induction false} KeyOutlivesNewestGrant(ttl: int, maxConcurrent: int, w: World, run: seq<Action>, last: World)
    requires ExpiryIsNewest(ttl, w) && ReachesShared(ttl, maxConcurrent, w, run, last)
    ensures ExpiryIsNewest(ttl, last)
    decreases |run|
  {
    if run != [] {
      StepKeepsNewest(ttl, maxConcurrent, w, run[0], Next(ttl, maxConcurrent, w, run[0]));
      KeyOutlivesNewestGrant(ttl, maxConcurrent, Next(ttl, maxConcurrent, w, run[0]), run[1..], last);
    }
  }

  lemma {:induction false} StepKeepsNewest(ttl: int, maxConcurrent: int, w: World, a: Action, v: World)
    requires ExpiryIsNewest(ttl, w) && Possible(w, a) && v == Next(ttl, maxConcurrent, w, a)
    ensures ExpiryIsNewest(ttl, v)
  {
  }

  /** With the default ttl the observer reports exactly the live grants. */
  lemma {:induction false} ObserverCountsLive(maxConcurrent: int, run: seq<Action>, w: World)
    requires Reaches(OBSERVER_WINDOW, maxConcurrent, START, run, w)
    ensures |Next(OBSERVER_WINDOW, maxConcurrent, w, Observe).slots.scores| == |LiveGrants(OBSERVER_WINDOW, w)|
  {
    StartIsGood(OBSERVER_WINDOW, maxConcurrent);
    InvRun(OBSERVER_WINDOW, maxConcurrent, START, run, w);
    CleanedCount(OBSERVER_WINDOW, maxConcurrent, w);
  }

  /** An observation drops a live grant's entry exactly when the grant is ttl + 600 old or older. */
  lemma {:induction false} ObserverLosesExactly(ttl: int, maxConcurrent: int, w: World, i: nat)
    requires Inv(ttl, maxConcurrent, w) && i in LiveGrants(ttl, w)
    ensures w.grants[i].owner !in Next(ttl, maxConcurrent, w, Observe).slots.scores
            <==> w.now >= w.grants[i].at + (ttl + OBSERVER_WINDOW) as real
  {
    assert GrantHasScore(ttl, w, i);
  }

  // ---------------------------------------------------------------------------
  // Where the bound ends
  // ---------------------------------------------------------------------------

  /** Acquires by owners k .. n - 1, then `tail`. */
  function Crowd(k: nat, n: nat, tail: seq<Action>): seq<Action>
    requires k <= n
    decreases n - k
  {
    if k == n then tail else [Acquire(k)] + Crowd(k + 1, n, tail)
  }

  function Below(n: nat): set<nat> {
    if n == 0 then {} else Below(n - 1) + {n - 1}
  }

  lemma {:induction false} BelowIs(n: nat)
    ensures |Below(n)| == n
    ensures forall o: nat :: o in Below(n) <==> o < n
  {
    if n > 0 {
      BelowIs(n - 1);
    }
  }

  function CrowdScores(ttl: int, now: real, n: nat): map<Owner, real> {
    map o | o in Below(n) :: now + ttl as real
  }

  function CrowdGrants(now: real, n: nat): seq<Grant> {
    if n == 0 then [] else CrowdGrants(now, n - 1) + [Grant(n - 1, now, true)]
  }

  /** The state after n acquires at time `now`, all granted, onto an empty set and earlier grants. */
  function CrowdWorld(ttl: int, now: real, earlier: seq<Grant>, n: nat): World {
    World(now, if n == 0 then EMPTY else SlotSet(CrowdScores(ttl, now, n), Some(now + (2 * ttl) as real)),
          earlier + CrowdGrants(now, n))
  }

  lemma {:induction false} CrowdGrantsAre(now: real, n: nat)
    ensures |CrowdGrants(now, n)| == n
    ensures forall i :: 0 <= i < n ==> CrowdGrants(now, n)[i] == Grant(i, now, true)
  {
    if n > 0 {
      CrowdGrantsAre(now, n - 1);
    }
  }

  lemma {:induction false} CrowdIsKept(ttl: int, now: real, earlier: seq<Grant>, n: nat, cutoff: real)
    requires cutoff < now + ttl as real
    ensures ZRemRangeByScore(CrowdWorld(ttl, now, earlier, n).slots, cutoff) == CrowdWorld(ttl, now, earlier, n).slots
    ensures |CrowdWorld(ttl, now, earlier, n).slots.scores| == n
  {
    BelowIs(n);
    if n > 0 {
      var scores := CrowdScores(ttl, now, n);
      var kept := map o | o in scores && scores[o] > cutoff :: scores[o];
      assert scores.Keys == Below(n) && kept.Keys == scores.Keys;
      assert kept == scores;
      assert n - 1 in kept && kept != map[];
    }
  }

  /** None of the crowd's owner ids is held by an earlier grant. */
  ghost predicate FreeBelow(earlier: seq<Grant>, n: nat) {
    forall i :: 0 <= i < |earlier| && earlier[i].open ==> earlier[i].owner >= n
  }

  lemma {:induction false} CrowdStep(ttl: int, maxConcurrent: int, now: real, earlier: seq<Grant>, n: nat)
    requires ttl > 0 && n < maxConcurrent && FreeBelow(earlier, maxConcurrent)
    ensures Enabled(CrowdWorld(ttl, now, earlier, n), Acquire(n))
    ensures Next(ttl, maxConcurrent, CrowdWorld(ttl, now, earlier, n), Acquire(n))
            == CrowdWorld(ttl, now, earlier, n + 1)
  {
    var w := CrowdWorld(ttl, now, earlier, n);
    CrowdIsKept(ttl, now, earlier, n, now - ttl as real);
    CrowdGrantsAre(now, n);
    BelowIs(n);
    assert w.slots.scores[n := now + ttl as real] == CrowdScores(ttl, now, n + 1);
    assert w.grants + [Grant(n, now, true)] == earlier + CrowdGrants(now, n + 1);
  }

  lemma {:induction false} CrowdThenRun(ttl: int, maxConcurrent: int, now: real, earlier: seq<Grant>, k: nat,
        run: seq<Action>, last: World)
    requires ttl > 0 && k < maxConcurrent && FreeBelow(earlier, maxConcurrent)
    requires Reaches(ttl, maxConcurrent, CrowdWorld(ttl, now, earlier, k + 1), run, last)
    ensures Reaches(ttl, maxConcurrent, CrowdWorld(ttl, now, earlier, k), [Acquire(k)] + run, last)
  {
    CrowdStep(ttl, maxConcurrent, now, earlier, k);
    StepThenRun(ttl, maxConcurrent, CrowdWorld(ttl, now, earlier, k), Acquire(k), run,
                CrowdWorld(ttl, now, earlier, k + 1), last);
  }

  lemma {:induction false} CrowdRuns(ttl: int, maxConcurrent: int, now: real, earlier: seq<Grant>, k: nat, n: nat,
        tail: seq<Action>, last: World)
    requires ttl > 0 && k <= n <= maxConcurrent && FreeBelow(earlier, maxConcurrent)
    requires Reaches(ttl, maxConcurrent, CrowdWorld(ttl, now, earlier, n), tail, last)
    ensures Reaches(ttl, maxConcurrent, CrowdWorld(ttl, now, earlier, k), Crowd(k, n, tail), last)
    decreases n - k
  {
    if k < n {
      CrowdRuns(ttl, maxConcurrent, now, earlier, k + 1, n, tail, last);
      CrowdThenRun(ttl, maxConcurrent, now, earlier, k, Crowd(k + 1, n, tail), last);
    }
  }

  lemma {:induction false} StepThenRun(ttl: int, maxConcurrent: int, w: World, a: Action, run: seq<Action>,
        next: World, last: World)
    requires Enabled(w, a) && Next(ttl, maxConcurrent, w, a) == next
    requires Reaches(ttl, maxConcurrent, next, run, last)
    ensures Reaches(ttl, maxConcurrent, w, [a] + run, last)
  {
    assert ([a] + run)[1..] == run;
  }

  /** The observer forgets the whole crowd at age ttl + 600. */
  lemma {:induction false} ObserverForgets(ttl: int, w: World)
    requires w.now == (ttl + OBSERVER_WINDOW) as real
    requires forall o :: o in w.slots.scores ==> w.slots.scores[o] == ttl as real
    ensures ZRemRangeByScore(w.slots, w.now - OBSERVER_WINDOW as real) == EMPTY
  {
    assert (map o | o in w.slots.scores && w.slots.scores[o] > ttl as real :: w.slots.scores[o]) == map[];
  }

  lemma {:induction false} CrowdStaysLive(ttl: int, n: nat, w: World)
    requires ttl > OBSERVER_WINDOW && w.now == (ttl + OBSERVER_WINDOW) as real
    requires w.grants == CrowdGrants(0.0, n) + [Grant(n, w.now, true)]
    ensures |LiveGrants(ttl, w)| == n + 1
  {
    CrowdGrantsAre(0.0, n);
    BelowIs(n + 1);
    forall i: nat
      ensures i in LiveGrants(ttl, w) <==> i in Below(n + 1)
    {
    }
    assert LiveGrants(ttl, w) == Below(n + 1);
  }

  lemma {:induction false} CrowdThenObserve(ttl: int, maxConcurrent: int)
    requires ttl > OBSERVER_WINDOW && maxConcurrent >= 1
    ensures var w0 := CrowdWorld(ttl, 0.0, [], maxConcurrent);
            var w1 := Next(ttl, maxConcurrent, w0, Wait((ttl + OBSERVER_WINDOW) as real));
            var w2 := Next(ttl, maxConcurrent, w1, Observe);
            && Enabled(w2, Acquire(maxConcurrent))
            && var w3 := Next(ttl, maxConcurrent, w2, Acquire(maxConcurrent));
               |LiveGrants(ttl, w3)| == maxConcurrent + 1
  {
    var w0 := CrowdWorld(ttl, 0.0, [], maxConcurrent);
    var w1 := Next(ttl, maxConcurrent, w0, Wait((ttl + OBSERVER_WINDOW) as real));
    ObserverForgets(ttl, w1);
    var w2 := Next(ttl, maxConcurrent, w1, Observe);
    CrowdGrantsAre(0.0, maxConcurrent);
    assert w0.grants == CrowdGrants(0.0, maxConcurrent);
    assert ZRemRangeByScore(EMPTY, w2.now - ttl as real) == EMPTY;
    CrowdStaysLive(ttl, maxConcurrent, Next(ttl, maxConcurrent, w2, Acquire(maxConcurrent)));
  }

  /**
    For every ttl above 600 and every positive limit, one observation lets a further
    slot be granted while `maxConcurrent` live ones are still held.
  */
  lemma {:induction false} ObserverBreaksLongTtl(ttl: int, maxConcurrent: int)
    requires ttl > OBSERVER_WINDOW && maxConcurrent >= 1
    ensures exists run, w ::
              Reaches(ttl, maxConcurrent, START, run, w) && |LiveGrants(ttl, w)| == maxConcurrent + 1
  {
    var w0 := CrowdWorld(ttl, 0.0, [], maxConcurrent);
    var wait := Wait((ttl + OBSERVER_WINDOW) as real);
    var w1 := Next(ttl, maxConcurrent, w0, wait);
    var w2 := Next(ttl, maxConcurrent, w1, Observe);
    var w3 := Next(ttl, maxConcurrent, w2, Acquire(maxConcurrent));
    CrowdThenObserve(ttl, maxConcurrent);
    StepThenRun(ttl, maxConcurrent, w2, Acquire(maxConcurrent), [], w3, w3);
    StepThenRun(ttl, maxConcurrent, w1, Observe, [Acquire(maxConcurrent)], w2, w3);
    StepThenRun(ttl, maxConcurrent, w0, wait, [Observe, Acquire(maxConcurrent)], w1, w3);
    var tail := [wait, Observe, Acquire(maxConcurrent)];
    CrowdRuns(ttl, maxConcurrent, 0.0, [], 0, maxConcurrent, tail, w3);
    assert Reaches(ttl, maxConcurrent, START, Crowd(0, maxConcurrent, tail), w3);
  }

  // ---------------------------------------------------------------------------
  // Shared owner ids
  // ---------------------------------------------------------------------------

  lemma {:induction false} ReachesIsShared(ttl: int, maxConcurrent: int, w: World, run: seq<Action>, last: World)
    requires Reaches(ttl, maxConcurrent, w, run, last)
    ensures ReachesShared(ttl, maxConcurrent, w, run, last)
    decreases |run|
  {
    if run != [] {
      ReachesIsShared(ttl, maxConcurrent, Next(ttl, maxConcurrent, w, run[0]), run[1..], last);
    }
  }

  lemma {:induction false} SharedStepThenRun(ttl: int, maxConcurrent: int, w: World, a: Action, run: seq<Action>,
        next: World, last: World)
    requires Possible(w, a) && Next(ttl, maxConcurrent, w, a) == next
    requires ReachesShared(ttl, maxConcurrent, next, run, last)
    ensures ReachesShared(ttl, maxConcurrent, w, [a] + run, last)
  {
    assert ([a] + run)[1..] == run;
  }

  /** The grants of the run below once the late release has been made. */
  function LateRelease(ttl: int, owner: Owner): seq<Grant> {
    [Grant(owner, 0.0, false), Grant(owner, (2 * ttl) as real, true)]
  }

  /** An acquire onto a set whose entries are all past their lease: one entry, one more grant. */
  lemma {:induction false} AcquireAlone(ttl: int, maxConcurrent: int, w: World, owner: Owner)
    requires maxConcurrent >= 1
    requires forall o :: o in w.slots.scores ==> w.slots.scores[o] <= w.now - ttl as real
    ensures Next(ttl, maxConcurrent, w, Acquire(owner))
            == World(w.now, SlotSet(map[owner := w.now + ttl as real], Some(w.now + (2 * ttl) as real)),
                     w.grants + [Grant(owner, w.now, true)])
  {
    assert ZRemRangeByScore(w.slots, w.now - ttl as real).scores == map[];
  }

  lemma {:induction false} ReleaseAlone(ttl: int, maxConcurrent: int, w: World, owner: Owner)
    requires w.slots.scores.Keys == {owner} && |w.grants| >= 1 && w.grants[0].owner == owner
    ensures Next(ttl, maxConcurrent, w, Release(0))
            == World(w.now, EMPTY, w.grants[0 := w.grants[0].(open := false)])
  {
    assert ZRem(w.slots, owner).scores == map[];
  }

  /** The only grant so far, made at time 0. */
  function Overstayed(ttl: int, owner: Owner, now: real): World {
    World(now, SlotSet(map[owner := ttl as real], Some((2 * ttl) as real)), [Grant(owner, 0.0, true)])
  }

  /** The same owner id granted again while its first holder still runs. */
  function GrantedTwice(ttl: int, owner: Owner): World {
    var age := (2 * ttl) as real;
    World(age, SlotSet(map[owner := age + ttl as real], Some(age + age)),
          [Grant(owner, 0.0, true), Grant(owner, age, true)])
  }

  lemma {:induction false} FirstGrant(ttl: int, maxConcurrent: int, owner: Owner)
    requires maxConcurrent >= 1
    ensures Next(ttl, maxConcurrent, START, Acquire(owner)) == Overstayed(ttl, owner, 0.0)
  {
    AcquireAlone(ttl, maxConcurrent, START, owner);
  }

  lemma {:induction false} SecondGrant(ttl: int, maxConcurrent: int, owner: Owner)
    requires maxConcurrent >= 1
    ensures Next(ttl, maxConcurrent, Overstayed(ttl, owner, (2 * ttl) as real), Acquire(owner))
            == GrantedTwice(ttl, owner)
  {
    AcquireAlone(ttl, maxConcurrent, Overstayed(ttl, owner, (2 * ttl) as real), owner);
  }

  lemma {:induction false} LateReleaseStep(ttl: int, maxConcurrent: int, owner: Owner)
    ensures Next(ttl, maxConcurrent, GrantedTwice(ttl, owner), Release(0))
            == CrowdWorld(ttl, (2 * ttl) as real, LateRelease(ttl, owner), 0)
  {
    ReleaseAlone(ttl, maxConcurrent, GrantedTwice(ttl, owner), owner);
    assert GrantedTwice(ttl, owner).grants[0 := Grant(owner, 0.0, false)] == LateRelease(ttl, owner) + [];
  }

  /**
    One owner id acquires, overstays, acquires again, and releases the first grant late: the
    entry of the second is gone while its holder still runs.
  */
  lemma {:induction false} LateReleaseLosesEntry(ttl: int, maxConcurrent: int, owner: Owner, run: seq<Action>,
        last: World) returns (whole: seq<Action>)
    requires ttl > 0 && maxConcurrent >= 1
    requires ReachesShared(ttl, maxConcurrent, CrowdWorld(ttl, (2 * ttl) as real, LateRelease(ttl, owner), 0),
                           run, last)
    ensures ReachesShared(ttl, maxConcurrent, START, whole, last)
  {
    FirstGrant(ttl, maxConcurrent, owner);
    SecondGrant(ttl, maxConcurrent, owner);
    LateReleaseStep(ttl, maxConcurrent, owner);
    whole := FourSteps(ttl, maxConcurrent, START, Overstayed(ttl, owner, 0.0),
                       Overstayed(ttl, owner, (2 * ttl) as real), GrantedTwice(ttl, owner),
                       CrowdWorld(ttl, (2 * ttl) as real, LateRelease(ttl, owner), 0),
                       owner, (2 * ttl) as real, run, last);
  }

  lemma {:induction false} FourSteps(ttl: int, maxConcurrent: int, w0: World, w1: World, w2: World, w3: World,
        w4: World, owner: Owner, wait: real, run: seq<Action>, last: World) returns (whole: seq<Action>)
    requires Next(ttl, maxConcurrent, w0, Acquire(owner)) == w1
    requires wait >= 0.0 && w2 == w1.(now := w1.now + wait)
    requires Next(ttl, maxConcurrent, w2, Acquire(owner)) == w3
    requires |w3.grants| > 0 && w3.grants[0].open && Next(ttl, maxConcurrent, w3, Release(0)) == w4
    requires ReachesShared(ttl, maxConcurrent, w4, run, last)
    ensures ReachesShared(ttl, maxConcurrent, w0, whole, last)
  {
    SharedStepThenRun(ttl, maxConcurrent, w3, Release(0), run, w4, last);
    var run3 := [Release(0)] + run;
    SharedStepThenRun(ttl, maxConcurrent, w2, Acquire(owner), run3, w3, last);
    var run2 := [Acquire(owner)] + run3;
    SharedStepThenRun(ttl, maxConcurrent, w1, Wait(wait), run2, w2, last);
    var run1 := [Wait(wait)] + run2;
    SharedStepThenRun(ttl, maxConcurrent, w0, Acquire(owner), run1, w1, last);
    whole := [Acquire(owner)] + run1;
  }

  lemma {:induction false} CrowdBesideLateRelease(ttl: int, n: nat, w: World)
    requires ttl > 0 && w == CrowdWorld(ttl, (2 * ttl) as real, LateRelease(ttl, n), n)
    ensures |LiveGrants(ttl, w)| == n + 1
  {
    CrowdGrantsAre((2 * ttl) as real, n);
    BelowIs(n + 2);
    BelowIs(1);
    forall i: nat
      ensures i in LiveGrants(ttl, w) <==> i in Below(n + 2) - Below(1)
    {
    }
    assert LiveGrants(ttl, w) == Below(n + 2) - Below(1) && Below(1) == {0} && 0 in Below(n + 2);
  }

  /** Once owner ids may be shared, no positive limit holds: for each some run has one live grant more. */
  lemma {:induction false} SharedOwnerIdBreaksBound(ttl: int, maxConcurrent: int)
    requires ttl > 0 && maxConcurrent >= 1
    ensures exists run, w ::
              ReachesShared(ttl, maxConcurrent, START, run, w) && |LiveGrants(ttl, w)| == maxConcurrent + 1
  {
    var age, earlier := (2 * ttl) as real, LateRelease(ttl, maxConcurrent);
    var last := CrowdWorld(ttl, age, earlier, maxConcurrent);
    CrowdRuns(ttl, maxConcurrent, age, earlier, 0, maxConcurrent, [], last);
    var run := Crowd(0, maxConcurrent, []);
    ReachesIsShared(ttl, maxConcurrent, CrowdWorld(ttl, age, earlier, 0), run, last);
    var whole := LateReleaseLosesEntry(ttl, maxConcurrent, maxConcurrent, run, last);
    CrowdBesideLateRelease(ttl, maxConcurrent, last);
  }

  lemma {:induction false} EntryAdded(kept: SlotSet, cutoff: real, owner: Owner, score: real, expireAt: Option<real>)
    requires score > cutoff && forall o :: o in kept.scores ==> kept.scores[o] > cutoff
    ensures ZRemRangeByScore(SlotSet(kept.scores[owner := score], expireAt), cutoff).scores.Keys
            == kept.scores.Keys + {owner}
  {
  }

  lemma {:induction false} LiveAdded(ttl: int, w: World, w': World, owner: Owner)
    requires ttl > 0 && w'.now == w.now && w'.grants == w.grants + [Grant(owner, w.now, true)]
    ensures LiveGrants(ttl, w') == LiveGrants(ttl, w) + {|w.grants|}
  {
  }

  lemma {:induction false} BothGrow(entries: set<Owner>, live: set<nat>, owner: Owner, grant: nat)
    requires |entries| == |live| && grant !in live
    ensures |entries + {owner}| == |live + {grant}| <==> owner !in entries
  {
    if owner in entries {
      assert entries + {owner} == entries;
    }
  }

  /** The owners whose entries an acquire would count at this moment. */
  function Counted(ttl: int, w: World): set<Owner> {
    ZRemRangeByScore(w.slots, w.now - ttl as real).scores.Keys
  }

  lemma {:induction false} GrantedWrites(ttl: int, maxConcurrent: int, w: World, owner: Owner, w': World)
    requires AcquireScript(w.slots, w.now, owner, ttl, maxConcurrent).1
    requires w' == Next(ttl, maxConcurrent, w, Acquire(owner))
    ensures w'.slots.scores
            == ZRemRangeByScore(w.slots, w.now - ttl as real).scores[owner := w.now + ttl as real]
    ensures w'.now == w.now && w'.grants == w.grants + [Grant(owner, w.now, true)]
  {
  }

  lemma {:induction false} WrittenIsCounted(ttl: int, w: World, owner: Owner, w': World)
    requires ttl > 0 && w'.now == w.now
    requires w'.slots.scores == ZRemRangeByScore(w.slots, w.now - ttl as real).scores[owner := w.now + ttl as real]
    ensures Counted(ttl, w') == Counted(ttl, w) + {owner}
  {
    var kept := ZRemRangeByScore(w.slots, w.now - ttl as real);
    EntryAdded(kept, w.now - ttl as real, owner, w.now + ttl as real, w'.slots.expireAt);
    assert w'.slots == SlotSet(kept.scores[owner := w.now + ttl as real], w'.slots.expireAt);
  }

  /**
    Which acquire breaks the count: where an acquire counts exactly the live grants, a granted
    one leaves it so exactly when no live grant holds the same owner id.
  */
  lemma {:induction false} AcquireKeepsCountExactlyWhen(ttl: int, maxConcurrent: int, w: World, owner: Owner)
    requires ttl > 0 && AcquireScript(w.slots, w.now, owner, ttl, maxConcurrent).1
    requires Counted(ttl, w) == LiveOwners(ttl, w) && |Counted(ttl, w)| == |LiveGrants(ttl, w)|
    ensures var w' := Next(ttl, maxConcurrent, w, Acquire(owner));
            |Counted(ttl, w')| == |LiveGrants(ttl, w')| <==> owner !in LiveOwners(ttl, w)
  {
    var w' := Next(ttl, maxConcurrent, w, Acquire(owner));
    GrantedWrites(ttl, maxConcurrent, w, owner, w');
    WrittenIsCounted(ttl, w, owner, w');
    LiveAdded(ttl, w, w', owner);
    BothGrow(Counted(ttl, w), LiveGrants(ttl, w), owner, |w.grants|);
  }
}
