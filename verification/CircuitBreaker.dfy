/**
  The timed three-state circuit breaker of src/mes_dashboard/core/circuit_breaker.py.  The
  class keeps the source's fields; its methods are proved against functions on the value of
  those fields, and the theorems are about runs of calls, each made at its own clock time.
*/
module CircuitBreakers {
  import opened Options

  datatype State = Closed | Open | HalfOpen

  /** `enabled` is CIRCUIT_BREAKER_ENABLED, the rest the constructor's arguments. */
  datatype Config = Config(enabled: bool, threshold: int, rate: real, recovery: real, window: nat)

  datatype Breaker = Breaker(state: State, results: seq<bool>, openTime: Option<real>, lastFailure: Option<real>)

  const FRESH := Breaker(Closed, [], None, None)

  /** deque(maxlen=window).append: the oldest entry falls off the front. */
  function Pushed(results: seq<bool>, ok: bool, window: nat): seq<bool> {
    if |results| < window then results + [ok] else (results + [ok])[|results| + 1 - window..]
  }

  function Failures(results: seq<bool>): nat {
    if results == [] then 0 else Failures(results[..|results| - 1]) + if results[|results| - 1] then 0 else 1
  }

  predicate ShouldOpen(c: Config, results: seq<bool>) {
    && |results| > 0
    && |results| >= c.threshold
    && Failures(results) >= c.threshold
    && Failures(results) as real / |results| as real >= c.rate
  }

  /** Reading the state: OPEN turns HALF_OPEN after the timeout, unless open_time is falsy. */
  function Refreshed(c: Config, b: Breaker, now: real): Breaker {
    if b.state == Open && b.openTime.Some? && b.openTime.value != 0.0 && now - b.openTime.value >= c.recovery
    then b.(state := HalfOpen)
    else b
  }

  predicate Admits(c: Config, b: Breaker, now: real) {
    !c.enabled || Refreshed(c, b, now).state != Open
  }

  function AfterSuccess(c: Config, b: Breaker): Breaker {
    if !c.enabled then b
    else if b.state == HalfOpen then b.(state := Closed, openTime := None, results := [])
    else b.(results := Pushed(b.results, true, c.window))
  }

  function AfterFailure(c: Config, b: Breaker, now: real): Breaker {
    if !c.enabled then b
    else
      var hit := b.(results := Pushed(b.results, false, c.window), lastFailure := Some(now));
      if b.state == HalfOpen || (b.state == Closed && ShouldOpen(c, hit.results))
      then hit.(state := Open, openTime := Some(now))
      else hit
  }

  /** The one division by zero: an empty window that passes the length test. */
  predicate FailureRaises(c: Config, b: Breaker) {
    c.enabled && b.state == Closed && c.window == 0 && c.threshold <= 0
  }

  class CircuitBreaker {
    const config: Config
    var state: State
    var results: seq<bool>
    var openTime: Option<real>
    var lastFailureTime: Option<real>

    ghost function Value(): Breaker
      reads this
    {
      Breaker(state, results, openTime, lastFailureTime)
    }

    constructor (config: Config)
      ensures this.config == config && Value() == FRESH
    {
      this.config := config;
      state, results, openTime, lastFailureTime := Closed, [], None, None;
    }

    method CurrentState(now: real) returns (current: State)
      modifies this
      ensures Value() == Refreshed(config, old(Value()), now) && current == state
    {
      if state == Open {
        match openTime
        case Some(t) =>
          if t != 0.0 && now - t >= config.recovery {
            TransitionTo(HalfOpen, now);
          }
        case None =>
      }
      current := state;
    }

    method AllowRequest(now: real) returns (allowed: bool)
      modifies this
      ensures allowed == Admits(config, old(Value()), now)
      ensures Value() == if config.enabled then Refreshed(config, old(Value()), now) else old(Value())
    {
      if !config.enabled { return true; }
      var current := CurrentState(now);
      if current == Closed {
        allowed := true;
      } else if current == HalfOpen {
        allowed := true;
      } else {
        allowed := false;
      }
    }

    method RecordSuccess(now: real)
      modifies this
      ensures Value() == AfterSuccess(config, old(Value()))
    {
      if !config.enabled { return; }
      results := Pushed(results, true, config.window);
      if state == HalfOpen {
        TransitionTo(Closed, now);
      }
    }

    method RecordFailure(now: real) returns (raised: bool)
      modifies this
      ensures Value() == AfterFailure(config, old(Value()), now)
      ensures raised == FailureRaises(config, old(Value()))
    {
      raised := false;
      if !config.enabled { return; }
      results := Pushed(results, false, config.window);
      lastFailureTime := Some(now);
      if state == HalfOpen {
        TransitionTo(Open, now);
      } else if state == Closed {
        raised := CheckAndOpen(now);
      }
    }

    method CheckAndOpen(now: real) returns (raised: bool)
      modifies this
      ensures Value() == if ShouldOpen(config, old(results)) then old(Value()).(state := Open, openTime := Some(now))
                         else old(Value())
      ensures raised == (old(results) == [] && config.threshold <= 0)
    {
      if |results| < config.threshold { return false; }
      var failures := Failures(results);
      if |results| == 0 { return true; }
      raised := false;
      if failures >= config.threshold && failures as real / |results| as real >= config.rate {
        TransitionTo(Open, now);
      }
    }

    method TransitionTo(to: State, now: real)
      modifies this
      ensures Value() == match to
                         case Open => old(Value()).(state := Open, openTime := Some(now))
                         case HalfOpen => old(Value()).(state := HalfOpen)
                         case Closed => old(Value()).(state := Closed, openTime := None, results := [])
    {
      state := to;
      if to == Open {
        openTime := Some(now);
      } else if to == Closed {
        openTime := None;
        results := [];
      }
    }

    method Reset()
      modifies this
      ensures Value() == FRESH
    {
      state, results, lastFailureTime, openTime := Closed, [], None, None;
    }
  }

  // ---------------------------------------------------------------------------
  // Runs
  // ---------------------------------------------------------------------------

  datatype Op = AskState | Allow | Success | Failure | Reset

  datatype Call = Call(op: Op, at: real)

  function Step(c: Config, b: Breaker, e: Call): Breaker {
    match e.op
    case AskState => Refreshed(c, b, e.at)
    case Allow => if c.enabled then Refreshed(c, b, e.at) else b
    case Success => AfterSuccess(c, b)
    case Failure => AfterFailure(c, b, e.at)
    case Reset => FRESH
  }

  function Run(c: Config, b: Breaker, calls: seq<Call>): Breaker {
    if calls == [] then b else Step(c, Run(c, b, calls[..|calls| - 1]), calls[|calls| - 1])
  }

  predicate NoReset(calls: seq<Call>) {
    forall i :: 0 <= i < |calls| ==> calls[i].op != Reset
  }

  /** Every outcome recorded since the window was last cleared: by a reset or by closing. */
  function Outcomes(c: Config, calls: seq<Call>): seq<bool> {
    if calls == [] then []
    else
      var n := |calls| - 1;
      var before := Outcomes(c, calls[..n]);
      match calls[n].op
      case Success =>
        if !c.enabled then before
        else if Run(c, FRESH, calls[..n]).state == HalfOpen then []
        else before + [true]
      case Failure => if c.enabled then before + [false] else before
      case Reset => []
      case _ => before
  }

  function Last(outcomes: seq<bool>, window: nat): seq<bool> {
    if |outcomes| <= window then outcomes else outcomes[|outcomes| - window..]
  }

  /** The window always holds the last min(n, window) outcomes since the last clear. */
  lemma {:induction false} WindowIsLast(c: Config, calls: seq<Call>)
    ensures Run(c, FRESH, calls).results == Last(Outcomes(c, calls), c.window)
  {
    if calls != [] {
      WindowIsLast(c, calls[..|calls| - 1]);
    }
  }

  // ---------------------------------------------------------------------------
  // While closed the opening condition is false
  // ---------------------------------------------------------------------------

  lemma {:induction false} FailuresBounded(results: seq<bool>)
    ensures Failures(results) <= |results|
  {
    if results != [] {
      FailuresBounded(results[..|results| - 1]);
    }
  }

  lemma {:induction false} FailuresDropFirst(results: seq<bool>)
    requires results != []
    ensures Failures(results) == Failures(results[1..]) + if results[0] then 0 else 1
  {
    var n := |results| - 1;
    if n > 0 {
      FailuresDropFirst(results[..n]);
      assert results[..n][1..] == results[1..][..n - 1];
    }
  }

  /** A success added to the window never raises the failure count, and never shortens it. */
  lemma {:induction false} SuccessIsMild(results: seq<bool>, window: nat)
    requires |results| <= window
    ensures Failures(Pushed(results, true, window)) <= Failures(results)
    ensures |Pushed(results, true, window)| >= |results|
  {
    var longer := results + [true];
    assert longer[..|results|] == results;
    if |results| == window {
      FailuresDropFirst(longer);
    }
  }

  lemma {:induction false} RatesCompare(fewer: nat, more: nat, longer: nat, shorter: nat)
    requires fewer <= more && 0 < shorter <= longer
    ensures fewer as real / longer as real <= more as real / shorter as real
  {
    var f, m, l, s := fewer as real, more as real, longer as real, shorter as real;
    assert f / l * l == f && m / s * s == m;
    if f / l > m / s {
      assert f / l * l > m / s * l;
      assert m / s * l >= m / s * s;
    }
  }

  lemma {:induction false} SuccessKeepsQuiet(c: Config, results: seq<bool>)
    requires c.threshold >= 1 && |results| <= c.window && !ShouldOpen(c, results)
    ensures !ShouldOpen(c, Pushed(results, true, c.window))
  {
    var pushed := Pushed(results, true, c.window);
    SuccessIsMild(results, c.window);
    FailuresBounded(results);
    if ShouldOpen(c, pushed) {
      RatesCompare(Failures(pushed), Failures(results), |pushed|, |results|);
    }
  }

  /** With a threshold of at least one, no call leaves the breaker closed on a window that should open it. */
  lemma {:induction false} ClosedIsQuiet(c: Config, calls: seq<Call>)
    requires c.threshold >= 1
    ensures Run(c, FRESH, calls).state == Closed ==> !ShouldOpen(c, Run(c, FRESH, calls).results)
  {
    if calls != [] {
      var n := |calls| - 1;
      ClosedIsQuiet(c, calls[..n]);
      WindowIsLast(c, calls[..n]);
      var before := Run(c, FRESH, calls[..n]);
      if calls[n].op == Success && before.state == Closed {
        SuccessKeepsQuiet(c, before.results);
      }
    }
  }

  // ---------------------------------------------------------------------------
  // When a failure opens it
  // ---------------------------------------------------------------------------

  /** The failures among the last n outcomes. */
  function FailedAmongLast(outcomes: seq<bool>, n: nat): set<nat> {
    set i: nat | |outcomes| - n <= i < |outcomes| && !outcomes[i]
  }

  lemma {:induction false} FailuresAreCounted(results: seq<bool>)
    ensures Failures(results) == |FailedAmongLast(results, |results|)|
  {
    if results != [] {
      var n := |results| - 1;
      FailuresAreCounted(results[..n]);
      var before, all := FailedAmongLast(results[..n], n), FailedAmongLast(results, n + 1);
      if results[n] {
        assert all == before;
      } else {
        assert all == before + {n};
      }
    }
  }

  lemma {:induction false} LastAreCounted(outcomes: seq<bool>, window: nat)
    ensures Failures(Last(outcomes, window)) == |FailedAmongLast(outcomes, |Last(outcomes, window)|)|
  {
    var last := Last(outcomes, window);
    var skipped := |outcomes| - |last|;
    FailuresAreCounted(last);
    var inWindow, shifted := FailedAmongLast(last, |last|), FailedAmongLast(outcomes, |last|);
    ShiftKeepsCount(inWindow, skipped, shifted);
  }

  lemma {:induction false} ShiftKeepsCount(a: set<nat>, offset: nat, b: set<nat>)
    requires forall i :: i in b <==> i >= offset && i - offset in a
    ensures |a| == |b|
  {
    if a == {} {
      assert b == {};
    } else {
      var x :| x in a;
      assert x + offset in b;
      ShiftKeepsCount(a - {x}, offset, b - {x + offset});
    }
  }

  lemma {:induction false} RateReached(failed: nat, n: nat, rate: real)
    requires n > 0
    ensures failed as real / n as real >= rate <==> failed as real >= rate * n as real
  {
    var f, m := failed as real, n as real;
    var q := f / m;
    assert q * m == f;
    if q >= rate {
      assert (q - rate) * m >= 0.0;
    } else {
      assert (rate - q) * m > 0.0;
    }
  }

  /** Enough outcomes, enough of them failures, and these at least the share `rate` of them. */
  predicate EnoughFailed(c: Config, failed: nat, n: nat) {
    n > 0 && n >= c.threshold && failed >= c.threshold && failed as real >= c.rate * n as real
  }

  lemma {:induction false} OpensByCount(c: Config, results: seq<bool>, failed: nat, n: nat)
    requires n == |results| && failed == Failures(results)
    ensures ShouldOpen(c, results) <==> EnoughFailed(c, failed, n)
  {
    if n > 0 {
      RateReached(failed, n, c.rate);
    }
  }

  /**
    A failure recorded while CLOSED opens the breaker exactly if, among the last outcomes that
    fit the window, itself included, there are enough, enough have failed, and the failed make
    up the share `rate` of them.
  */
  lemma {:induction false} FailureOpensExactlyWhen(c: Config, calls: seq<Call>, at: real)
    requires c.enabled && Run(c, FRESH, calls).state == Closed
    ensures var outcomes := Outcomes(c, calls) + [false];
            var n := if |outcomes| <= c.window then |outcomes| else c.window;
            Run(c, FRESH, calls + [Call(Failure, at)]).state == Open
            <==> EnoughFailed(c, |FailedAmongLast(outcomes, n)|, n)
  {
    var outcomes := Outcomes(c, calls) + [false];
    var n := if |outcomes| <= c.window then |outcomes| else c.window;
    var results := Last(outcomes, c.window);
    FailureLooksAtWindow(c, calls, at);
    LastAreCounted(outcomes, c.window);
    OpensByCount(c, results, |FailedAmongLast(outcomes, n)|, n);
  }

  lemma {:induction false} FailureLooksAtWindow(c: Config, calls: seq<Call>, at: real)
    requires c.enabled && Run(c, FRESH, calls).state == Closed
    ensures Run(c, FRESH, calls + [Call(Failure, at)]).state == Open
            <==> ShouldOpen(c, Last(Outcomes(c, calls) + [false], c.window))
  {
    var failing := calls + [Call(Failure, at)];
    assert failing[..|calls|] == calls;
    WindowIsLast(c, failing);
    assert Outcomes(c, failing) == Outcomes(c, calls) + [false];
    assert Run(c, FRESH, failing).results == Pushed(Run(c, FRESH, calls).results, false, c.window);
  }

  /** The last failure recorded since the last reset, and when. */
  function LastFailure(c: Config, calls: seq<Call>): Option<real> {
    if calls == [] then None
    else if calls[|calls| - 1].op == Failure && c.enabled then Some(calls[|calls| - 1].at)
    else if calls[|calls| - 1].op == Reset then None
    else LastFailure(c, calls[..|calls| - 1])
  }

  lemma {:induction false} LastFailureIsKept(c: Config, calls: seq<Call>)
    ensures Run(c, FRESH, calls).lastFailure == LastFailure(c, calls)
  {
    if calls != [] {
      LastFailureIsKept(c, calls[..|calls| - 1]);
    }
  }

  /** Switched off, the breaker records nothing and admits everything. */
  lemma {:induction false} DisabledAdmitsAll(c: Config, calls: seq<Call>, now: real)
    requires !c.enabled
    ensures Run(c, FRESH, calls) == FRESH && Admits(c, Run(c, FRESH, calls), now)
  {
    if calls != [] {
      DisabledAdmitsAll(c, calls[..|calls| - 1], now);
    }
  }

  /** A closed breaker admits every request, and neither a request nor a success opens it. */
  lemma {:induction false} ClosedAdmits(c: Config, calls: seq<Call>, e: Call, now: real)
    requires Run(c, FRESH, calls).state == Closed && e.op != Failure
    ensures Admits(c, Run(c, FRESH, calls), now) && Run(c, FRESH, calls + [e]).state == Closed
  {
    assert (calls + [e])[..|calls|] == calls;
  }

  // ---------------------------------------------------------------------------
  // When it can open at all
  // ---------------------------------------------------------------------------

  /** The failures in a row that open a fresh breaker: a threshold below one still takes one. */
  function Needed(c: Config): nat {
    if c.threshold < 1 then 1 else c.threshold
  }

  predicate CannotOpen(c: Config) {
    !c.enabled || Needed(c) > c.window || c.rate > 1.0
  }

  lemma {:induction false} WholeRate(n: nat)
    requires n > 0
    ensures n as real / n as real == 1.0
  {
    var x := n as real;
    assert x / x == 1.0;
  }

  lemma {:induction false} WindowTooSmallOrRateTooHigh(c: Config, results: seq<bool>)
    requires CannotOpen(c) && c.enabled && |results| <= c.window
    ensures !ShouldOpen(c, results)
  {
    FailuresBounded(results);
    if |results| > 0 {
      RatesCompare(Failures(results), |results|, |results|, |results|);
      WholeRate(|results|);
    }
  }

  lemma {:induction false} StepStaysClosed(c: Config, b: Breaker, e: Call)
    requires CannotOpen(c) && b.state == Closed && |b.results| <= c.window
    ensures Step(c, b, e).state == Closed
  {
    if c.enabled {
      WindowTooSmallOrRateTooHigh(c, Pushed(b.results, false, c.window));
    }
  }

  lemma {:induction false} NeverLeavesClosed(c: Config, calls: seq<Call>)
    requires CannotOpen(c)
    ensures Run(c, FRESH, calls).state == Closed
  {
    if calls != [] {
      var n := |calls| - 1;
      NeverLeavesClosed(c, calls[..n]);
      WindowIsLast(c, calls[..n]);
      StepStaysClosed(c, Run(c, FRESH, calls[..n]), calls[n]);
    }
  }

  /** Failures in a row, all recorded at one time. */
  function Burst(n: nat, at: real): seq<Call> {
    seq(n, _ => Call(Failure, at))
  }

  lemma {:induction false} BurstFills(c: Config, n: nat, at: real)
    requires c.enabled && n < Needed(c) <= c.window
    ensures Run(c, FRESH, Burst(n, at)).state == Closed
    ensures |Run(c, FRESH, Burst(n, at)).results| == Failures(Run(c, FRESH, Burst(n, at)).results) == n
  {
    if n > 0 {
      BurstFills(c, n - 1, at);
      assert Burst(n, at)[..n - 1] == Burst(n - 1, at);
      TooFewToOpen(c, Run(c, FRESH, Burst(n - 1, at)), at);
    }
  }

  lemma {:induction false} TooFewToOpen(c: Config, b: Breaker, at: real)
    requires c.enabled && b.state == Closed && |b.results| == Failures(b.results)
    requires |b.results| + 1 < Needed(c) <= c.window
    ensures var after := Step(c, b, Call(Failure, at));
            after.state == Closed && |after.results| == Failures(after.results) == |b.results| + 1
  {
    assert (b.results + [false])[..|b.results|] == b.results;
    assert !ShouldOpen(c, b.results + [false]);
  }

  lemma {:induction false} LastOfBurstOpens(c: Config, b: Breaker, at: real)
    requires c.enabled && Needed(c) <= c.window && c.rate <= 1.0 && b.state == Closed
    requires |b.results| == Failures(b.results) == Needed(c) - 1
    ensures Step(c, b, Call(Failure, at)).state == Open && Step(c, b, Call(Failure, at)).openTime == Some(at)
  {
    var pushed := b.results + [false];
    assert pushed[..Needed(c) - 1] == b.results;
    assert Failures(pushed) == |pushed|;
    WholeRate(|pushed|);
    assert ShouldOpen(c, pushed);
  }

  /** Where any run can, failures in a row open a fresh breaker, at any clock time. */
  lemma {:induction false} BurstOpens(c: Config, at: real)
    requires c.enabled && Needed(c) <= c.window && c.rate <= 1.0
    ensures Run(c, FRESH, Burst(Needed(c), at)).state == Open
    ensures Run(c, FRESH, Burst(Needed(c), at)).openTime == Some(at)
  {
    var n := Needed(c) - 1;
    BurstFills(c, n, at);
    assert Burst(n + 1, at)[..n] == Burst(n, at);
    LastOfBurstOpens(c, Run(c, FRESH, Burst(n, at)), at);
  }

  /** The settings under which some run opens the breaker, exactly. */
  lemma {:induction false} OpensExactlyWhen(c: Config)
    ensures (exists calls :: Run(c, FRESH, calls).state == Open)
            <==> c.enabled && Needed(c) <= c.window && c.rate <= 1.0
  {
    if c.enabled && Needed(c) <= c.window && c.rate <= 1.0 {
      BurstOpens(c, 1.0);
    } else {
      forall calls ensures Run(c, FRESH, calls).state == Closed {
        NeverLeavesClosed(c, calls);
      }
    }
  }

  // ---------------------------------------------------------------------------
  // Open for the whole timeout
  // ---------------------------------------------------------------------------

  /** An open breaker knows since when: since the failure that opened it, and open ever since. */
  lemma {:induction false} OpenSince(c: Config, calls: seq<Call>) returns (i: nat)
    requires Run(c, FRESH, calls).state == Open
    ensures i < |calls| && calls[i].op == Failure
    ensures Run(c, FRESH, calls).openTime == Some(calls[i].at)
    ensures Run(c, FRESH, calls[..i]).state != Open
    ensures forall k :: i < k <= |calls| ==> Run(c, FRESH, calls[..k]).state == Open
  {
    var n := |calls| - 1;
    assert calls[..n + 1] == calls;
    if Run(c, FRESH, calls[..n]).state == Open {
      i := OpenSince(c, calls[..n]);
      assert calls[..n][..i] == calls[..i];
      forall k | i < k <= |calls| ensures Run(c, FRESH, calls[..k]).state == Open {
        if k <= n {
          assert calls[..n][..k] == calls[..k];
        }
      }
    } else {
      i := n;
    }
  }

  /** Before t0 + recovery nothing but a reset moves an open breaker, and no request is admitted. */
  lemma {:induction false} StaysOpen(c: Config, b: Breaker, calls: seq<Call>, now: real)
    requires c.enabled && b.state == Open && b.openTime.Some? && NoReset(calls)
    requires forall i :: 0 <= i < |calls| ==> calls[i].at < b.openTime.value + c.recovery
    requires now < b.openTime.value + c.recovery
    ensures Run(c, b, calls).state == Open && Run(c, b, calls).openTime == b.openTime
    ensures !Admits(c, Run(c, b, calls), now)
  {
    if calls != [] {
      StaysOpen(c, b, calls[..|calls| - 1], now);
    }
  }

  /** In any run that stands OPEN: a request is admitted exactly from the timeout after the opening failure. */
  lemma {:induction false} AdmittedAfterTimeout(c: Config, calls: seq<Call>, now: real) returns (i: nat)
    requires c.enabled && Run(c, FRESH, calls).state == Open
    ensures i < |calls| && calls[i].op == Failure && Run(c, FRESH, calls[..i]).state != Open
    ensures Admits(c, Run(c, FRESH, calls), now) <==> calls[i].at != 0.0 && now >= calls[i].at + c.recovery
  {
    i := OpenSince(c, calls);
  }

  /** A breaker that opened at clock zero admits nothing more until it is reset. */
  lemma {:induction false} OpenedAtZeroIsStuck(c: Config, b: Breaker, calls: seq<Call>, now: real)
    requires c.enabled && b.state == Open && b.openTime == Some(0.0) && NoReset(calls)
    ensures Run(c, b, calls).state == Open && !Admits(c, Run(c, b, calls), now)
    ensures Run(c, b, calls).openTime == b.openTime
  {
    if calls != [] {
      OpenedAtZeroIsStuck(c, b, calls[..|calls| - 1], now);
    }
  }

  lemma {:induction false} RunSplits(c: Config, b: Breaker, first: seq<Call>, more: seq<Call>)
    ensures Run(c, b, first + more) == Run(c, Run(c, b, first), more)
  {
    if more == [] {
      assert first + more == first;
    } else {
      var n := |more| - 1;
      assert (first + more)[..|first + more| - 1] == first + more[..n];
      RunSplits(c, b, first, more[..n]);
    }
  }

  /** In every setting in which the breaker can open, some run leaves it stuck, if the clock can read zero. */
  lemma {:induction false} OpensAtZeroAndSticks(c: Config) returns (calls: seq<Call>)
    requires c.enabled && Needed(c) <= c.window && c.rate <= 1.0
    ensures forall more, now :: NoReset(more) ==> !Admits(c, Run(c, FRESH, calls + more), now)
  {
    calls := Burst(Needed(c), 0.0);
    BurstOpens(c, 0.0);
    forall more, now | NoReset(more) ensures !Admits(c, Run(c, FRESH, calls + more), now) {
      RunSplits(c, FRESH, calls, more);
      OpenedAtZeroIsStuck(c, Run(c, FRESH, calls), more, now);
    }
  }

  // ---------------------------------------------------------------------------
  // The way back
  // ---------------------------------------------------------------------------

  /**
    Without a reset the way from OPEN to CLOSED leads through HALF_OPEN: some look at the
    breaker after the timeout, and later a success recorded while it was HALF_OPEN.
  */
  lemma {:induction false} ClosesThroughHalfOpen(c: Config, b: Breaker, calls: seq<Call>) returns (look: nat,
        success: nat)
    requires b.state == Open && NoReset(calls) && Run(c, b, calls).state == Closed
    ensures look < success < |calls| && calls[success].op == Success
    ensures Run(c, b, calls[..success]).state == HalfOpen
    ensures calls[look].op == AskState || calls[look].op == Allow
    ensures var seen := Run(c, b, calls[..look]);
            seen.state == Open && seen.openTime.Some? && calls[look].at >= seen.openTime.value + c.recovery
  {
    var n := |calls| - 1;
    if Run(c, b, calls[..n]).state == Closed {
      look, success := ClosesThroughHalfOpen(c, b, calls[..n]);
      assert calls[..n][..success] == calls[..success] && calls[..n][..look] == calls[..look];
    } else {
      success := n;
      look := HalfOpenAfterLook(c, b, calls[..n]);
      assert calls[..n][..look] == calls[..look];
    }
  }

  lemma {:induction false} HalfOpenAfterLook(c: Config, b: Breaker, calls: seq<Call>) returns (look: nat)
    requires b.state == Open && NoReset(calls) && Run(c, b, calls).state == HalfOpen
    ensures look < |calls| && (calls[look].op == AskState || calls[look].op == Allow)
    ensures var seen := Run(c, b, calls[..look]);
            seen.state == Open && seen.openTime.Some? && calls[look].at >= seen.openTime.value + c.recovery
  {
    var n := |calls| - 1;
    if Run(c, b, calls[..n]).state == HalfOpen {
      look := HalfOpenAfterLook(c, b, calls[..n]);
      assert calls[..n][..look] == calls[..look];
    } else {
      look := n;
    }
  }

  /** From the timeout on, and not before, a look at an open breaker makes it HALF_OPEN; it changes nothing else. */
  lemma {:induction false} LookHalfOpens(c: Config, calls: seq<Call>, op: Op, now: real) returns (i: nat)
    requires c.enabled && Run(c, FRESH, calls).state == Open && (op == Allow || op == AskState)
    ensures i < |calls| && calls[i].op == Failure && Run(c, FRESH, calls[..i]).state != Open
    ensures var before, after := Run(c, FRESH, calls), Run(c, FRESH, calls + [Call(op, now)]);
            && (after.state == HalfOpen <==> calls[i].at != 0.0 && now >= calls[i].at + c.recovery)
            && (after.state == Open <==> after.state != HalfOpen)
            && after.results == before.results && after.openTime == before.openTime
  {
    i := OpenSince(c, calls);
    assert (calls + [Call(op, now)])[..|calls|] == calls;
  }

  /**
    A failure recorded while HALF_OPEN opens the breaker again, from the time of that failure:
    without a reset nothing is admitted before the timeout has run from there.
  */
  lemma {:induction false} HalfOpenFailureReopens(c: Config, calls: seq<Call>, at: real, more: seq<Call>, now: real)
    requires c.enabled && Run(c, FRESH, calls).state == HalfOpen
    ensures var b := Run(c, FRESH, calls + [Call(Failure, at)]); b.state == Open && b.openTime == Some(at)
    ensures NoReset(more) && (forall i :: 0 <= i < |more| ==> more[i].at < at + c.recovery) && now < at + c.recovery ==>
              !Admits(c, Run(c, FRESH, calls + [Call(Failure, at)] + more), now)
  {
    var failed := calls + [Call(Failure, at)];
    assert failed[..|calls|] == calls;
    RunSplits(c, FRESH, failed, more);
    if NoReset(more) && (forall i :: 0 <= i < |more| ==> more[i].at < at + c.recovery) && now < at + c.recovery {
      StaysOpen(c, Run(c, FRESH, failed), more, now);
    }
  }

  /** A success recorded while HALF_OPEN closes it, with an empty window and no open time. */
  lemma {:induction false} HalfOpenSuccessCloses(c: Config, calls: seq<Call>, at: real, now: real)
    requires c.enabled && Run(c, FRESH, calls).state == HalfOpen
    ensures var b := Run(c, FRESH, calls + [Call(Success, at)]);
            b.state == Closed && b.results == [] && b.openTime.None? && Admits(c, b, now)
  {
    assert (calls + [Call(Success, at)])[..|calls|] == calls;
  }

  /** Half-open is not limited to a trial request: until an outcome is recorded every request is admitted. */
  lemma {:induction false} HalfOpenAdmitsAll(c: Config, b: Breaker, calls: seq<Call>, now: real)
    requires b.state == HalfOpen
    requires forall i :: 0 <= i < |calls| ==> calls[i].op == Allow || calls[i].op == AskState
    ensures Run(c, b, calls) == b && Admits(c, b, now)
  {
    if calls != [] {
      HalfOpenAdmitsAll(c, b, calls[..|calls| - 1], now);
    }
  }
}
