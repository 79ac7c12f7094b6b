/**
 The breakers inside the balancer: over every run of balancer operations a worker's breaker has been through exactly
 the events addressed to that worker; and what such a history means for who is answered.
 */
module BreakerRuns {
  import opened Texts
  import opened LoadBalancers
  import opened Balancing
  import opened Selections
  import CB = CircuitBreakers

  /** The threshold of failures, the seconds and the threshold of successes of a worker's breaker. */
  const OURS := CB.Config(3, 30, 1)

  /** What an operation says to the breaker of a worker the balancer knows: a selection asks those of active workers. */
  function Addressed(b: Balancer, op: Op, w: Text): seq<CB.Event>
  {
    var active := w in b.workers && b.workers[w].status == ACTIVE;
    match op
    case Select(now) => if active then [CB.Allow(now(w))] else []
    case Ask(id, now) => if active && id == w then [CB.Allow(now(w))] else []
    case BreakerEvent(id, e) => if id == w then [e] else []
    case _ => []
  }

  function History(b: Balancer, ops: seq<Op>, w: Text): seq<CB.Event>
  {
    if ops == [] then [] else
    var before := ops[..|ops| - 1];
    History(b, before, w) + Addressed(Run(b, before), ops[|ops| - 1], w)
  }

  lemma OneEvent(f: CB.Fields, h: seq<CB.Event>, e: CB.Event)
    ensures CB.Run(OURS, f, h + [e]) == CB.Next(OURS, CB.Run(OURS, f, h), e)
    ensures CB.Run(OURS, f, h + []) == CB.Run(OURS, f, h)
  {
    assert (h + [e])[..|h|] == h && h + [] == h;
  }

  /** One operation: the breaker has one more event addressed to it, or none. */
  lemma StepAddresses(b: Balancer, op: Op, w: Text)
    requires b.KeysAgree() && w in b.workers && !Drops(op, w)
    ensures w in Next(b, op).breakers
    ensures Next(b, op).breakers[w] ==
            if Addressed(b, op, w) == [] then b.breakers[w] else CB.Next(OURS, b.breakers[w], Addressed(b, op, w)[0])
    ensures |Addressed(b, op, w)| <= 1
  {
    hide CB.Next;
    if op.Reconcile? { ReconciliationIsExact(b, op.services, op.beats); }
  }

  /** Over every run in which the worker is not dropped, its breaker is its first fields run through that history. */
  lemma {:induction false} BreakerIsItsHistory(b: Balancer, ops: seq<Op>, w: Text)
    requires b.KeysAgree() && w in b.workers
    requires forall i :: 0 <= i < |ops| ==> !Drops(ops[i], w)
    ensures Run(b, ops).KeysAgree() && w in Run(b, ops).workers
    ensures Run(b, ops).breakers[w] == CB.Run(OURS, b.breakers[w], History(b, ops, w))
  {
    if ops == [] {
    } else {
      hide Next, CB.Next, Addressed, CB.Run;
      var before, op := ops[..|ops| - 1], ops[|ops| - 1];
      BreakerIsItsHistory(b, before, w);
      KeysAlwaysAgree(b, before);
      KeysAlwaysAgree(b, ops);
      var c, h := Run(b, before), History(b, before, w);
      StepAddresses(c, op, w);
      var a := Addressed(c, op, w);
      if a == [] {
        assert h + a == h;
      } else {
        assert a == [a[0]];
        OneEvent(b.breakers[w], h, a[0]);
      }
    }
  }

  /** So after every such run an active worker can be chosen, unless that history leaves its breaker OPEN less than 30 s
      after the latest failure in it. */
  lemma AvailableAfterRun(b: Balancer, ops: seq<Op>, w: Text, now: Readings)
    requires b.KeysAgree() && w in b.workers
    requires forall i :: 0 <= i < |ops| ==> !Drops(ops[i], w)
    ensures var c, f, h := Run(b, ops), b.breakers[w], History(b, ops, w);
            Available(c, w, now) <==>
              && w in c.workers && c.workers[w].status == ACTIVE
              && (CB.Run(OURS, f, h).state != CB.OPEN ||
                  now(w) - CB.LatestFailure(f.lastFailureTime, h) >= 30_000_000_000)
  {
    hide Run, CB.Run, History;
    BreakerIsItsHistory(b, ops, w);
    CB.FailureTimeIsLatest(OURS, b.breakers[w], History(b, ops, w));
  }

  // ---------- what a history means for the answers ----------

  /** The worker's breaker was closed with no failures counted, as a new one is, and has been through `h` since. */
  ghost predicate Went(b: Balancer, w: Text, t0: int, h: seq<CB.Event>)
  {
    && w in b.workers && w in b.breakers
    && b.breakers[w] == CB.Run(OURS, CB.Fields(CB.CLOSED, 0, 0, t0), h)
  }

  /** As every run from such a moment on gives it. */
  lemma RunWent(b: Balancer, ops: seq<Op>, w: Text, t0: int)
    requires b.KeysAgree() && w in b.workers && b.breakers[w] == CB.Fields(CB.CLOSED, 0, 0, t0)
    requires forall i :: 0 <= i < |ops| ==> !Drops(ops[i], w)
    ensures Went(Run(b, ops), w, t0, History(b, ops, w))
  {
    hide Run, CB.Run, History;
    BreakerIsItsHistory(b, ops, w);
  }

  /** Fewer than three failures since the last success, at every moment. */
  ghost predicate FewFailures(h: seq<CB.Event>)
  {
    CB.FailureStreak(h) < 3 && (h == [] || FewFailures(h[..|h| - 1]))
  }

  lemma {:induction false} FewAreBelow(h: seq<CB.Event>)
    ensures FewFailures(h) <==> CB.StreaksBelow(OURS, h)
  {
    if h == [] {
    } else {
      FewAreBelow(h[..|h| - 1]);
    }
  }

  /** While it never had three failures in a row, an active worker can always be chosen. */
  lemma FewFailuresKeepAvailable(b: Balancer, w: Text, t0: int, h: seq<CB.Event>, now: Readings)
    requires Went(b, w, t0, h) && FewFailures(h)
    ensures Available(b, w, now) <==> b.workers[w].status == ACTIVE
  {
    FewAreBelow(h);
    CB.TripsExactlyAtThreshold(OURS, CB.Fields(CB.CLOSED, 0, 0, t0), h);
  }

  /** No request comes 30 s or more after the latest failure, and nobody resets the breaker. */
  ghost predicate TooSoon(t: int, h: seq<CB.Event>)
  {
    h == [] ||
    var before, e := h[..|h| - 1], h[|h| - 1];
    && TooSoon(t, before) && !e.Reset?
    && (e.Allow? ==> e.now - CB.LatestFailure(t, before) < 30_000_000_000)
  }

  lemma {:induction false} TooSoonHolds(t: int, h: seq<CB.Event>)
    ensures TooSoon(t, h) <==> CB.HoldsOpen(OURS, t, h)
  {
    if h == [] {
    } else {
      TooSoonHolds(t, h[..|h| - 1]);
      var e := h[|h| - 1];
      if e.Allow? { CB.SecondsFloorIsExact(e.now - CB.LatestFailure(t, h[..|h| - 1]), 30); }
    }
  }

  /** The third failure in a row opens the breaker, at its own time; it stays open until a request comes late enough. */
  lemma ThirdFailureOpens(t0: int, p: seq<CB.Event>, t: int, g: seq<CB.Event>)
    requires FewFailures(p) && CB.FailureStreak(p) == 2 && TooSoon(t, g)
    ensures var f := CB.Run(OURS, CB.Fields(CB.CLOSED, 0, 0, t0), p + [CB.Failure(t)] + g);
            f.state == CB.OPEN && f.lastFailureTime == CB.LatestFailure(t, g)
  {
    hide CB.Next;
    var f0 := CB.Fields(CB.CLOSED, 0, 0, t0);
    var h := p + [CB.Failure(t)];
    assert h[..|p|] == p;
    FewAreBelow(p);
    CB.TripsExactlyAtThreshold(OURS, f0, p);
    CB.TripsExactlyAtThreshold(OURS, f0, h);
    CB.RangesInductive(OURS, f0, h);
    CB.FailureTimeIsLatest(OURS, f0, h);
    CB.RunOfConcat(OURS, f0, h, g);
    TooSoonHolds(t, g);
    CB.OpenUntilTimeout(OURS, CB.Run(OURS, f0, h), g);
  }

  /** So three failures in a row, and no fewer, take a worker out of every answer until 30 s after the latest failure,
      whatever is recorded meanwhile but a reset. */
  lemma ThirdFailureExcludes(b: Balancer, w: Text, t0: int, p: seq<CB.Event>, t: int, g: seq<CB.Event>, task: Text,
        now: Readings, r: Text)
    requires FewFailures(p) && CB.FailureStreak(p) == 2 && TooSoon(t, g)
    requires Went(b, w, t0, p + [CB.Failure(t)] + g)
    requires now(w) - CB.LatestFailure(t, g) < 30_000_000_000
    ensures !Available(b, w, now)
    ensures b.IsChoice(task, now, r) && r != [] ==> r != w
  {
    hide Available, Balancer.IsChoice, CB.Run;
    ThirdFailureOpens(t0, p, t, g);
    OpenIsUnavailable(b, w, now);
    if b.IsChoice(task, now, r) { AnswersAreAvailable(b, task, now, r); }
  }

  lemma OpenIsUnavailable(b: Balancer, w: Text, now: Readings)
    requires w in b.breakers && b.breakers[w].state == CB.OPEN
    requires now(w) - b.breakers[w].lastFailureTime < 30_000_000_000
    ensures !Available(b, w, now)
  {
  }

  /** From 30 s after the latest failure on a request is let through, and the next success closes the breaker as new. */
  lemma SuccessfulTrialRestores(b: Balancer, w: Text, t0: int, p: seq<CB.Event>, t: int, g: seq<CB.Event>, now: int,
        later: Readings)
    requires FewFailures(p) && CB.FailureStreak(p) == 2 && TooSoon(t, g)
    requires now - CB.LatestFailure(t, g) >= 30_000_000_000
    requires Went(b, w, t0, p + [CB.Failure(t)] + g + [CB.Allow(now), CB.Success])
    ensures b.breakers[w].state == CB.CLOSED && b.breakers[w].failureCount == 0 && b.breakers[w].successCount == 0
    ensures Available(b, w, later) <==> b.workers[w].status == ACTIVE
  {
    hide CB.Run;
    TrialCloses(t0, p, t, g, now);
  }

  lemma TrialCloses(t0: int, p: seq<CB.Event>, t: int, g: seq<CB.Event>, now: int)
    requires FewFailures(p) && CB.FailureStreak(p) == 2 && TooSoon(t, g)
    requires now - CB.LatestFailure(t, g) >= 30_000_000_000
    ensures var h := p + [CB.Failure(t)] + g + [CB.Allow(now), CB.Success];
            var f := CB.Run(OURS, CB.Fields(CB.CLOSED, 0, 0, t0), h);
            f.state == CB.CLOSED && f.failureCount == 0 && f.successCount == 0
  {
    var f0 := CB.Fields(CB.CLOSED, 0, 0, t0);
    var h := p + [CB.Failure(t)] + g;
    ThirdFailureOpens(t0, p, t, g);
    CB.RangesInductive(OURS, f0, h);
    CB.SecondsFloorIsExact(now - CB.LatestFailure(t, g), 30);
    assert h + [CB.Allow(now), CB.Success] == h + [CB.Allow(now)] + [CB.Success];
    OneEvent(f0, h, CB.Allow(now));
    OneEvent(f0, h + [CB.Allow(now)], CB.Success);
  }

  /** And a failed one opens it again at once, for 30 s from that failure on. */
  lemma FailedTrialExcludes(b: Balancer, w: Text, t0: int, h: seq<CB.Event>, t: int, now: Readings)
    requires CB.Run(OURS, CB.Fields(CB.CLOSED, 0, 0, t0), h).state == CB.HALF_OPEN
    requires Went(b, w, t0, h + [CB.Failure(t)])
    ensures Available(b, w, now) <==> b.workers[w].status == ACTIVE && now(w) - t >= 30_000_000_000
  {
    OneEvent(CB.Fields(CB.CLOSED, 0, 0, t0), h, CB.Failure(t));
  }
}
