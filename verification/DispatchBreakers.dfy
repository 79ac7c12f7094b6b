/**
 What the dispatcher's calls tell the breakers: a completion counts as a success of the recorded worker, a failure as
 one of its failures, and nothing else a call does is heard.
 */
module DispatchBreakers {
  import opened Texts
  import opened RedisStores
  import opened Dispatching
  import opened DispatchRuns
  import opened BreakerRuns
  import LB = LoadBalancers
  import BL = Balancing
  import SE = Selections
  import CB = CircuitBreakers

  /** A call that ends a task on the worker: the task's record names it, and it has a counter to free a slot of. */
  predicate EndsOn(s: Store, id: Text, w: Text)
  {
    w != [] && s.HGet(id, WORKER_ID) == w && w in s.loads
  }

  function Told(s: System, op: Op, w: Text): seq<CB.Event>
  {
    match op
    case Complete(id, _, _) => if EndsOn(s.store, id, w) then [CB.Success] else []
    case Fail(id, _, _, steady) => if EndsOn(s.store, id, w) then [CB.Failure(steady)] else []
    case Balance(op) => Addressed(s.balancer, op, w)
    case _ => []
  }

  function TaskHistory(s: System, ops: seq<Op>, w: Text): seq<CB.Event>
  {
    if ops == [] then [] else
    var before := ops[..|ops| - 1];
    TaskHistory(s, before, w) + Told(Run(s, before), ops[|ops| - 1], w)
  }

  ghost predicate Dropped(op: Op, w: Text)
  {
    op.Balance? && BL.Drops(op.op, w)
  }

  /** A breaker after the events told to it. */
  function Heard(f: CB.Fields, events: seq<CB.Event>): CB.Fields
  {
    if events == [] then f else CB.Next(OURS, f, events[0])
  }

  lemma QuietCallTells(s: System, op: Op)
    requires op.Submit? || op.Pop? || op.Assign? || op.Retry?
    ensures Step(s, op).1.balancer.breakers == s.balancer.breakers
    ensures Step(s, op).1.balancer.workers.Keys == s.balancer.workers.Keys
  {
    hide ToString, Decode, Stoi, Store.HSet, Store.HGet, Store.GetTask, Store.IncrementTaskRetry;
    if op.Retry? {
      var w := s.store.HGet(op.id, WORKER_ID);
      if w != [] && w in s.store.loads { MirrorKeepsBreakers(s, w); }
    }
  }

  lemma MirrorKeepsBreakers(s: System, w: Text)
    requires w in s.store.loads
    ensures s.Released(w).balancer.breakers == s.balancer.breakers
    ensures s.Released(w).balancer.workers.Keys == s.balancer.workers.Keys
  {
  }

  lemma EndingCallTells(s: System, op: Op, w: Text)
    requires (op.Complete? || op.Fail?) && s.balancer.KeysAgree() && w in s.balancer.workers
    ensures w in Step(s, op).1.balancer.breakers
    ensures Step(s, op).1.balancer.breakers[w] == Heard(s.balancer.breakers[w], Told(s, op, w))
    ensures Step(s, op).1.balancer.workers.Keys == s.balancer.workers.Keys
  {
    hide ToString, Decode, Stoi, Store.HSet, Store.HGet, Store.UpdateTaskStatus, CB.Next;
    if op.Complete? {
      LoadsKept(s.store, op.id, 2, [], op.now);
      LoadsKept(s.store.UpdateTaskStatus(op.id, 2, [], op.now), op.id, 2, op.result, op.now);
    } else {
      LoadsKept(s.store, op.id, 3, op.error, op.now);
    }
  }

  lemma LoadsKept(s: Store, id: Text, status: Int32, text: Text, now: Int64)
    ensures s.UpdateTaskStatus(id, status, text, now).loads == s.loads && s.HSet(id, RESULT, text).loads == s.loads
  {
    hide ToString;
  }

  lemma StepTells(s: System, op: Op, w: Text)
    requires s.balancer.KeysAgree() && w in s.balancer.workers && !Dropped(op, w)
    ensures w in Step(s, op).1.balancer.workers && w in Step(s, op).1.balancer.breakers
    ensures Step(s, op).1.balancer.breakers[w] == Heard(s.balancer.breakers[w], Told(s, op, w))
    ensures |Told(s, op, w)| <= 1
  {
    hide Step, CB.Next, EndsOn, BL.Next;
    match op
    case Balance(o) =>
      StepAddresses(s.balancer, o, w);
      BalanceStep(s, o);
    case Complete(_, _, _) => EndingCallTells(s, op, w);
    case Fail(_, _, _, _) => EndingCallTells(s, op, w);
    case _ => QuietCallTells(s, op);
  }

  lemma BalanceStep(s: System, o: BL.Op)
    requires s.balancer.KeysAgree()
    ensures Step(s, Balance(o)).1.balancer == BL.Next(s.balancer, o)
    ensures BL.Next(s.balancer, o).KeysAgree()
  {
    if o.Reconcile? { BL.ReconciliationIsExact(s.balancer, o.services, o.beats); }
  }

  /** Over every run of whole dispatcher calls and balancer operations in which the worker is not dropped, its breaker
      is its first fields run through what the calls and operations told it. */
  lemma {:induction false} BreakerIsWhatItWasTold(s: System, ops: seq<Op>, w: Text)
    requires s.balancer.KeysAgree() && w in s.balancer.workers
    requires forall i :: 0 <= i < |ops| ==> !Dropped(ops[i], w)
    ensures Run(s, ops).balancer.KeysAgree() && w in Run(s, ops).balancer.workers
    ensures Run(s, ops).balancer.breakers[w] == CB.Run(OURS, s.balancer.breakers[w], TaskHistory(s, ops, w))
  {
    if ops == [] {
    } else {
      hide Step, CB.Next, Told, CB.Run, Dropped;
      var before, op := ops[..|ops| - 1], ops[|ops| - 1];
      BreakerIsWhatItWasTold(s, before, w);
      RunsKeepKeys(s, ops);
      var t, h := Run(s, before), TaskHistory(s, before, w);
      StepTells(t, op, w);
      var a := Told(t, op, w);
      if a == [] {
        assert h + a == h;
      } else {
        assert a == [a[0]];
        OneEvent(s.balancer.breakers[w], h, a[0]);
      }
    }
  }

  /** Three failures reported of tasks on a worker whose breaker is new, with nothing told to it between but that, take
      it out of every answer for 30 s from the third on; two do not. */
  lemma {:induction false} ThreeReportsExclude(s: System, ops: seq<Op>, w: Text, times: seq<int>, task: Text,
        now: LB.Readings, r: Text)
    requires s.balancer.KeysAgree() && w in s.balancer.workers
    requires s.balancer.breakers[w] == CB.Fields(CB.CLOSED, 0, 0, 0)
    requires forall i :: 0 <= i < |ops| ==> !Dropped(ops[i], w)
    requires |times| <= 3 && TaskHistory(s, ops, w) == seq(|times|, i requires 0 <= i < |times| => CB.Failure(times[i]))
    ensures var b := Run(s, ops).balancer;
            && (|times| == 3 && now(w) - times[2] < 30_000_000_000 && b.IsChoice(task, now, r) && r != [] ==> r != w)
            && (|times| < 3 || now(w) - times[2] >= 30_000_000_000 ==>
                  (SE.Available(b, w, now) <==> w in b.workers && b.workers[w].status == LB.ACTIVE))
  {
    hide Run, TaskHistory, LB.Balancer.IsChoice, SE.Available;
    BreakerIsWhatItWasTold(s, ops, w);
    var b := Run(s, ops).balancer;
    var h := TaskHistory(s, ops, w);
    FailuresInARow(h, times);
    if |times| < 3 {
      FewFailuresKeepAvailable(b, w, 0, h, now);
    } else {
      ThirdReport(b, w, times, h, task, now, r);
    }
  }

  lemma FailuresInARow(h: seq<CB.Event>, times: seq<int>)
    requires |times| <= 3 && h == seq(|times|, i requires 0 <= i < |times| => CB.Failure(times[i]))
    ensures CB.FailureStreak(h) == |times| && (|times| < 3 ==> FewFailures(h))
    ensures |times| == 3 ==> FewFailures(h[..2]) && CB.FailureStreak(h[..2]) == 2
  {
    if |times| > 0 {
      assert h[..1] == [CB.Failure(times[0])] && h[..1][..0] == [];
      assert CB.FailureStreak(h[..1]) == 1 && FewFailures(h[..1]);
      if |times| > 1 {
        assert h[..2][..1] == h[..1];
        assert CB.FailureStreak(h[..2]) == 2 && FewFailures(h[..2]);
        assert h[..|h|] == h;
      } else {
        assert h[..1] == h;
      }
    }
  }

  lemma ThirdReport(b: LB.Balancer, w: Text, times: seq<int>, h: seq<CB.Event>, task: Text, now: LB.Readings, r: Text)
    requires |times| == 3 && h == seq(3, i requires 0 <= i < 3 => CB.Failure(times[i]))
    requires FewFailures(h[..2]) && CB.FailureStreak(h[..2]) == 2 && Went(b, w, 0, h)
    ensures now(w) - times[2] < 30_000_000_000 && b.IsChoice(task, now, r) && r != [] ==> r != w
    ensures now(w) - times[2] >= 30_000_000_000 ==>
              (SE.Available(b, w, now) <==> b.workers[w].status == LB.ACTIVE)
  {
    hide LB.Balancer.IsChoice, CB.Run;
    var p := h[..2];
    assert h == p + [CB.Failure(times[2])] + [];
    assert TooSoon(times[2], []);
    ThirdFailureOpens(0, p, times[2], []);
    if now(w) - times[2] < 30_000_000_000 { ThirdFailureExcludes(b, w, 0, p, times[2], [], task, now, r); }
  }
}
