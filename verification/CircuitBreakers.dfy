/**
 The per-worker circuit breaker: a timed three-state machine with two counters. `Next` says what
 one call does to the breaker's fields; the lemmas below it say what whole histories of calls can do.
 */
module CircuitBreakers {
  import opened Texts

  datatype CircuitState = CLOSED | OPEN | HALF_OPEN

  datatype Config = Config(failureThreshold: Int32, recoveryTimeoutSeconds: Int32, successThreshold: Int32)

  datatype Fields = Fields(state: CircuitState, failureCount: Int32, successCount: Int32, lastFailureTime: int)

  /** A call on the breaker; `now` is the steady-clock reading (nanoseconds) the call takes, if it takes one. */
  datatype Event = Allow(now: int) | Success | Failure(now: int) | Reset

  const NANOS := 1_000_000_000

  const INITIAL := Fields(CLOSED, 0, 0, 0)

  /** `duration_cast<seconds>`: division that truncates toward zero. */
  function Seconds(nanos: int): int
  {
    if nanos >= 0 then nanos / NANOS else -((-nanos) / NANOS)
  }

  /** `++` on `std::atomic<int>`, which wraps. */
  function Increment(x: Int32): Int32
  {
    if x == TWO_31 - 1 then -TWO_31 else x + 1
  }

  predicate Admits(c: Config, f: Fields, now: int)
  {
    f.state == OPEN ==> Seconds(now - f.lastFailureTime) >= c.recoveryTimeoutSeconds
  }

  function Next(c: Config, f: Fields, e: Event): Fields
  {
    match e
    case Allow(now) =>
      if f.state == OPEN && Admits(c, f, now) then f.(state := HALF_OPEN) else f
    case Success =>
      if f.state == HALF_OPEN then
        var n := Increment(f.successCount);
        if n >= c.successThreshold then f.(state := CLOSED, failureCount := 0, successCount := 0)
        else f.(successCount := n)
      else if f.state == CLOSED then f.(failureCount := 0)
      else f
    case Failure(now) =>
      var g := f.(failureCount := Increment(f.failureCount), lastFailureTime := now);
      if f.state == HALF_OPEN || (f.state == CLOSED && g.failureCount >= c.failureThreshold)
      then g.(state := OPEN, successCount := 0) else g
    case Reset =>
      f.(state := CLOSED, failureCount := 0, successCount := 0)
  }

  class CircuitBreaker {
    const config: Config
    var state: CircuitState
    var failureCount: Int32
    var successCount: Int32
    var lastFailureTime: int

    ghost function View(): Fields
      reads this
    {
      Fields(state, failureCount, successCount, lastFailureTime)
    }

    constructor (config: Config)
      ensures this.config == config && View() == INITIAL
    {
      this.config := config;
      state, failureCount, successCount, lastFailureTime := CLOSED, 0, 0, 0;
    }

    method AllowRequest(now: int) returns (allowed: bool)
      modifies this
      ensures allowed == Admits(config, old(View()), now)
      ensures View() == Next(config, old(View()), Allow(now))
    {
      match state
      case CLOSED =>
        return true;
      case OPEN =>
        var elapsed := Seconds(now - lastFailureTime);
        if elapsed >= config.recoveryTimeoutSeconds {
          state := HALF_OPEN;
          return true;
        }
        return false;
      case HALF_OPEN =>
        return true;
    }

    method RecordSuccess()
      modifies this
      ensures View() == Next(config, old(View()), Success)
    {
      if state == HALF_OPEN {
        successCount := Increment(successCount);
        if successCount >= config.successThreshold {
          ResetToClosed();
        }
      } else if state == CLOSED {
        failureCount := 0;
      }
    }

    method RecordFailure(now: int)
      modifies this
      ensures View() == Next(config, old(View()), Failure(now))
    {
      failureCount := Increment(failureCount);
      lastFailureTime := now;
      if state == HALF_OPEN {
        TripOpen();
      } else if state == CLOSED {
        if failureCount >= config.failureThreshold {
          TripOpen();
        }
      }
    }

    method ResetBreaker()
      modifies this
      ensures View() == Next(config, old(View()), Reset)
    {
      ResetToClosed();
    }

    method TripOpen()
      modifies this
      ensures View() == old(View()).(state := OPEN, successCount := 0)
    {
      state := OPEN;
      successCount := 0;
    }

    method ResetToClosed()
      modifies this
      ensures View() == old(View()).(state := CLOSED, failureCount := 0, successCount := 0)
    {
      state := CLOSED;
      failureCount := 0;
      successCount := 0;
    }
  }

  // ---------- histories ----------

  /** The breaker after the calls `h`, oldest first. */
  function Run(c: Config, f: Fields, h: seq<Event>): Fields
  {
    if h == [] then f else Next(c, Run(c, f, h[..|h| - 1]), h[|h| - 1])
  }

  /** A threshold below 1 acts as 1: the counter is incremented before it is compared. */
  function Effective(threshold: Int32): int { if threshold < 1 then 1 else threshold }

  /** The range of each counter in each state. */
  predicate InRange(c: Config, f: Fields)
  {
    match f.state
    case CLOSED => 0 <= f.failureCount < Effective(c.failureThreshold) && f.successCount == 0
    case OPEN => f.successCount == 0
    case HALF_OPEN => 0 <= f.successCount < Effective(c.successThreshold)
  }

  lemma {:induction false} RangesInductive(c: Config, f: Fields, h: seq<Event>)
    requires InRange(c, f)
    ensures InRange(c, Run(c, f, h))
  {
    if h == [] {
    } else {
      RangesInductive(c, f, h[..|h| - 1]);
    }
  }

  /** All failures recorded. */
  function Failures(h: seq<Event>): nat
  {
    if h == [] then 0 else Failures(h[..|h| - 1]) + (if h[|h| - 1].Failure? then 1 else 0)
  }

  /** Out of CLOSED the failure count is at least the threshold. */
  predicate AtThreshold(c: Config, f: Fields)
  {
    f.state != CLOSED ==> f.failureCount >= Effective(c.failureThreshold)
  }

  /** It stays so over every history with too few failures to wrap the 32-bit count. */
  lemma {:induction false} FailuresStayCounted(c: Config, f: Fields, h: seq<Event>)
    requires InRange(c, f) && AtThreshold(c, f) && f.failureCount + Failures(h) < TWO_31
    ensures InRange(c, Run(c, f, h)) && AtThreshold(c, Run(c, f, h))
    ensures 0 <= Run(c, f, h).failureCount <= f.failureCount + Failures(h)
  {
    if h == [] {
    } else {
      FailuresStayCounted(c, f, h[..|h| - 1]);
    }
  }

  /** The failures recorded since a success or a reset last left the breaker CLOSED; before any did, the ones it
      began with too. */
  function Uncleared(c: Config, f: Fields, h: seq<Event>): int
  {
    if h == [] then f.failureCount else
    var e, before := h[|h| - 1], Uncleared(c, f, h[..|h| - 1]);
    match e
    case Failure(_) => before + 1
    case Allow(_) => before
    case _ => if Run(c, f, h).state == CLOSED then 0 else before
  }

  /** Over every history the 32-bit count is their number, wrapped. */
  lemma {:induction false} CountIsUncleared(c: Config, f: Fields, h: seq<Event>)
    ensures var n := Uncleared(c, f, h);
            Run(c, f, h).failureCount == (n + 0x8000_0000) % 0x1_0000_0000 - 0x8000_0000
  {
    if h == [] {
    } else {
      CountIsUncleared(c, f, h[..|h| - 1]);
    }
  }

  /** The next failure wraps it below every threshold, and the state does not mind. */
  lemma WrapLosesCount(c: Config, f: Fields, now: int)
    requires f.state == OPEN && f.failureCount == TWO_31 - 1
    ensures var g := Next(c, f, Failure(now)); g.state == OPEN && !AtThreshold(c, g)
  {
  }

  /** Failures recorded since the last success or reset. Defined on the calls alone. */
  function FailureStreak(h: seq<Event>): nat
  {
    if h == [] then 0 else
    var before := FailureStreak(h[..|h| - 1]);
    match h[|h| - 1]
    case Allow(_) => before
    case Failure(_) => before + 1
    case Success => 0
    case Reset => 0
  }

  function Successes(h: seq<Event>): nat
  {
    if h == [] then 0
    else Successes(h[..|h| - 1]) + (if h[|h| - 1].Success? then 1 else 0)
  }

  /** Time of the latest failure among the calls, `t0` if there is none. */
  function LatestFailure(t0: int, h: seq<Event>): int
  {
    if h == [] then t0
    else if h[|h| - 1].Failure? then h[|h| - 1].now
    else LatestFailure(t0, h[..|h| - 1])
  }

  /** Over every history, from every state, the breaker's failure time is that of the latest failure, the one that
      tripped it included. */
  lemma {:induction false} FailureTimeIsLatest(c: Config, f: Fields, h: seq<Event>)
    ensures Run(c, f, h).lastFailureTime == LatestFailure(f.lastFailureTime, h)
  {
    if h == [] {
    } else {
      FailureTimeIsLatest(c, f, h[..|h| - 1]);
    }
  }

  /** So a breaker that a history leaves OPEN admits a request exactly from the timeout after the latest failure in it
      on; CLOSED or HALF_OPEN it admits every one. */
  lemma AdmitsExactly(c: Config, f: Fields, h: seq<Event>, now: int)
    requires c.recoveryTimeoutSeconds >= 1
    ensures Admits(c, Run(c, f, h), now) <==>
            Run(c, f, h).state != OPEN ||
            now - LatestFailure(f.lastFailureTime, h) >= c.recoveryTimeoutSeconds * 1_000_000_000
  {
    FailureTimeIsLatest(c, f, h);
    SecondsFloorIsExact(now - LatestFailure(f.lastFailureTime, h), c.recoveryTimeoutSeconds);
  }

  /** The state is `k` after every prefix of `h`, the empty one and the whole of `h` included. */
  ghost predicate Throughout(c: Config, f: Fields, h: seq<Event>, k: CircuitState)
  {
    Run(c, f, h).state == k && (h != [] ==> Throughout(c, f, h[..|h| - 1], k))
  }

  /** The failure streak has stayed below the threshold after every prefix. */
  ghost predicate StreaksBelow(c: Config, h: seq<Event>)
  {
    FailureStreak(h) < Effective(c.failureThreshold) && (h != [] ==> StreaksBelow(c, h[..|h| - 1]))
  }

  /**
   A breaker just (re)closed trips at the first call that brings the failure streak to the threshold, and not before.
   */
  lemma {:induction false} TripsExactlyAtThreshold(c: Config, f: Fields, h: seq<Event>)
    requires f.state == CLOSED && f.failureCount == 0 && f.successCount == 0
    ensures Throughout(c, f, h, CLOSED) <==> StreaksBelow(c, h)
    ensures Throughout(c, f, h, CLOSED) ==> Run(c, f, h).failureCount == FailureStreak(h)
    ensures h != [] && Throughout(c, f, h[..|h| - 1], CLOSED) ==>
              Run(c, f, h).state == (if FailureStreak(h) >= Effective(c.failureThreshold) then OPEN else CLOSED)
  {
    if h == [] {
    } else {
      TripsExactlyAtThreshold(c, f, h[..|h| - 1]);
      RangesInductive(c, f, h[..|h| - 1]);
    }
  }

  /** The whole-second test against the timeout, as an exact test on nanoseconds, for every timeout and sign. */
  lemma SecondsFloorIsExact(nanos: int, timeout: int)
    ensures Seconds(nanos) >= timeout <==>
            (if timeout >= 1 then nanos >= timeout * 1_000_000_000 else nanos > (timeout - 1) * 1_000_000_000)
  {
    var q := Seconds(nanos);
    assert nanos >= 0 ==> q * NANOS <= nanos < (q + 1) * NANOS && q >= 0;
    assert nanos < 0 ==> (q - 1) * NANOS < nanos <= q * NANOS && q <= 0;
  }

  /** No call in `h` ends the OPEN period that a failure at `t0` began. */
  ghost predicate HoldsOpen(c: Config, t0: int, h: seq<Event>)
  {
    h == [] ||
    var p, e := h[..|h| - 1], h[|h| - 1];
    && HoldsOpen(c, t0, p)
    && !e.Reset?
    && (e.Allow? ==> Seconds(e.now - LatestFailure(t0, p)) < c.recoveryTimeoutSeconds)
  }

  /** While OPEN nothing is admitted until the timeout after the latest failure, failures while OPEN included. */
  lemma {:induction false} OpenUntilTimeout(c: Config, f: Fields, h: seq<Event>)
    requires f.state == OPEN && InRange(c, f)
    ensures Throughout(c, f, h, OPEN) <==> HoldsOpen(c, f.lastFailureTime, h)
    ensures Throughout(c, f, h, OPEN) ==> Run(c, f, h).lastFailureTime == LatestFailure(f.lastFailureTime, h)
    ensures h != [] && Throughout(c, f, h[..|h| - 1], OPEN) ==>
              var e, p := h[|h| - 1], h[..|h| - 1];
              && Run(c, f, h).state == (match e
                                        case Reset => CLOSED
                                        case Allow(now) => if Admits(c, Run(c, f, p), now) then HALF_OPEN else OPEN
                                        case _ => OPEN)
              && (e.Allow? ==> (Admits(c, Run(c, f, p), e.now) <==>
                                Seconds(e.now - LatestFailure(f.lastFailureTime, p)) >= c.recoveryTimeoutSeconds))
  {
    if h == [] {
    } else {
      OpenUntilTimeout(c, f, h[..|h| - 1]);
    }
  }

  /** No call in `h` ends a HALF_OPEN trial that has just begun. */
  ghost predicate HoldsHalfOpen(c: Config, h: seq<Event>)
  {
    NoFailureNorReset(h) && Successes(h) < Effective(c.successThreshold)
  }

  predicate NoFailureNorReset(h: seq<Event>)
  {
    forall e :: e in h ==> !e.Failure? && !e.Reset?
  }

  /** A trial ends by one failure, by a reset, or by exactly `successThreshold` successes. */
  lemma {:induction false} TrialEndsExactly(c: Config, f: Fields, h: seq<Event>)
    requires f.state == HALF_OPEN && f.successCount == 0
    ensures Throughout(c, f, h, HALF_OPEN) <==> HoldsHalfOpen(c, h)
    ensures Throughout(c, f, h, HALF_OPEN) ==> Run(c, f, h).successCount == Successes(h)
    ensures h != [] && Throughout(c, f, h[..|h| - 1], HALF_OPEN) ==>
              Run(c, f, h).state == (match h[|h| - 1]
                                     case Failure(_) => OPEN
                                     case Reset => CLOSED
                                     case Success => if Successes(h) >= Effective(c.successThreshold) then CLOSED
                                       else HALF_OPEN
                                     case Allow(_) => HALF_OPEN)
  {
    if h == [] {
    } else {
      hide Next, NoFailureNorReset, InRange;
      var p, e := h[..|h| - 1], h[|h| - 1];
      TrialEndsExactly(c, f, p);
      if Throughout(c, f, p, HALF_OPEN) { TrialStep(c, Run(c, f, p), e); }
      HoldsLonger(p, e);
      assert h == p + [e];
    }
  }

  lemma HoldsLonger(p: seq<Event>, e: Event)
    ensures NoFailureNorReset(p + [e]) <==> NoFailureNorReset(p) && !e.Failure? && !e.Reset?
  {
    assert e in p + [e];
  }

  /** One call on a HALF_OPEN breaker. */
  lemma TrialStep(c: Config, f: Fields, e: Event)
    requires f.state == HALF_OPEN && 0 <= f.successCount < Effective(c.successThreshold)
    ensures var g, n := Next(c, f, e), f.successCount + if e.Success? then 1 else 0;
            && g.state == (match e
                           case Failure(_) => OPEN
                           case Reset => CLOSED
                           case Success => if n >= Effective(c.successThreshold) then CLOSED else HALF_OPEN
                           case Allow(_) => HALF_OPEN)
            && (g.state == HALF_OPEN ==> g.successCount == n)
  {
  }

  /** Call `i` of `h` opened a trial that has lasted until the end of `h`. */
  ghost predicate TrialSince(c: Config, f: Fields, h: seq<Event>, i: nat)
  {
    && 0 < i <= |h| && h[i - 1].Allow?
    && Run(c, f, h[..i - 1]).state == OPEN && Run(c, f, h[..i]).state == HALF_OPEN
    && NoFailureNorReset(h[i..])
  }

  lemma {:induction false} TrialHasOrigin(c: Config, f: Fields, h: seq<Event>) returns (i: nat)
    requires InRange(c, f) && f.state != HALF_OPEN && Run(c, f, h).state == HALF_OPEN
    ensures TrialSince(c, f, h, i) && Run(c, f, h).successCount == Successes(h[i..])
  {
    var p := h[..|h| - 1];
    RangesInductive(c, f, p);
    if Run(c, f, p).state == OPEN {
      i := |h|;
      assert h[..i] == h && h[i..] == [];
    } else {
      i := TrialHasOrigin(c, f, p);
      assert p[..i] == h[..i] && p[..i - 1] == h[..i - 1];
      assert h[i..][..|h[i..]| - 1] == p[i..];
    }
  }

  /** A trial begun inside `h` that its last call, a success, completes. */
  ghost predicate TrialCompletes(c: Config, f: Fields, h: seq<Event>, i: nat)
  {
    && TrialSince(c, f, h, i) && h[|h| - 1].Success?
    && Successes(h[i..]) == Effective(c.successThreshold)
  }

  /** The last call of `h` closes the breaker, which was not closed before it. */
  ghost predicate Closes(c: Config, f: Fields, h: seq<Event>)
  {
    h != [] && Run(c, f, h[..|h| - 1]).state != CLOSED && Run(c, f, h).state == CLOSED
  }

  /** Whenever a breaker closes, by that very call: it is a reset, or it completes a trial of exactly
      `successThreshold` successes and no failure. */
  lemma {:induction false} ClosedRegainedOnlyBy(c: Config, f: Fields, h: seq<Event>)
    requires InRange(c, f) && f.state != HALF_OPEN && Closes(c, f, h)
    ensures h[|h| - 1].Reset? || exists i :: 0 < i <= |h| && TrialCompletes(c, f, h, i)
  {
    var e, p := h[|h| - 1], h[..|h| - 1];
    if !e.Reset? {
      RangesInductive(c, f, p);
      var i := TrialHasOrigin(c, f, p);
      assert p[..i] == h[..i] && p[..i - 1] == h[..i - 1];
      assert h[i..] == p[i..] + [e] && h[i..][..|h[i..]| - 1] == p[i..];
      assert TrialCompletes(c, f, h, i);
    }
  }

  /** And it closes with both counters at 0, so the next trip takes the whole threshold again. */
  lemma {:induction false} ClosesAfresh(c: Config, f: Fields, h: seq<Event>)
    requires Closes(c, f, h)
    ensures Run(c, f, h).failureCount == 0 && Run(c, f, h).successCount == 0
  {
  }

  /** A closing inside a history begins a new one: what follows counts its failures from 0. */
  lemma {:induction false} TripsAgainExactly(c: Config, f: Fields, h: seq<Event>, g: seq<Event>)
    requires Closes(c, f, h)
    ensures Run(c, f, h + g) == Run(c, Run(c, f, h), g)
    ensures Throughout(c, Run(c, f, h), g, CLOSED) <==> StreaksBelow(c, g)
  {
    ClosesAfresh(c, f, h);
    RunOfConcat(c, f, h, g);
    TripsExactlyAtThreshold(c, Run(c, f, h), g);
  }

  lemma {:induction false} RunOfConcat(c: Config, f: Fields, h: seq<Event>, g: seq<Event>)
    ensures Run(c, f, h + g) == Run(c, Run(c, f, h), g)
  {
    if g == [] {
      assert h + g == h;
    } else {
      RunOfConcat(c, f, h, g[..|g| - 1]);
      assert (h + g)[..|h + g| - 1] == h + g[..|g| - 1];
    }
  }

  /** A breaker that is closed now and was open before has a last closing, after which it has stayed closed. */
  lemma {:induction false} LastClosing(c: Config, f: Fields, h: seq<Event>) returns (j: nat)
    requires f.state != CLOSED && Run(c, f, h).state == CLOSED
    ensures 0 < j <= |h| && Closes(c, f, h[..j])
    ensures forall k :: j <= k <= |h| ==> Run(c, f, h[..k]).state == CLOSED
  {
    var p := h[..|h| - 1];
    assert h[..|h|] == h;
    if Run(c, f, p).state != CLOSED {
      j := |h|;
    } else {
      j := LastClosing(c, f, p);
      assert forall k :: j <= k <= |p| ==> p[..k] == h[..k];
      assert h[..j][..j - 1] == p[..j][..j - 1];
    }
  }
}
