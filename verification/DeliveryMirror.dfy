/**
 The balancer's copy of the load counters, one command at a time. A call that has changed a counter reads it back
 and then writes what it read into the balancer, so a later writer may write an older value.
 */
module DeliveryMirror {
  import opened Texts
  import opened RedisStores
  import opened Delivery
  import opened DeliveryRecords
  import opened DeliveryRetries
  import opened DeliveryLoads
  import opened DeliveryFaults
  import LB = LoadBalancers
  import BL = Balancing

  /** The call has acted on the counter and not yet written the balancer's copy. */
  predicate Behind(g: Stage, w: Text)
  {
    (g.RetryGet? || g.RetryMirror? || g.FinishGet? || g.FinishMirror?) && g.worker == w
  }

  predicate LoopBehind(l: Loop, w: Text)
  {
    (l.AssignGet? || l.AssignMirror?) && l.worker == w
  }

  /** No call and not the loop has a copy still to write. */
  ghost predicate Quiet(p: Proto, w: Text)
  {
    !LoopBehind(p.loop, w) && forall t :: t in p.calls ==> !Behind(p.calls[t].stage, w)
  }

  /** The balancer, if it knows the worker, holds the counter. */
  ghost predicate InStep(p: Proto, w: Text)
  {
    w in p.balancer.workers ==> p.balancer.workers[w].currentLoad == p.store.LoadOf(w)
  }

  /**
   What the action writes into the copy: a reading of the counter, a heartbeat's load, or 0 for a worker that is new.
   */
  function Writes(p: Proto, a: Action, w: Text): Option<int>
  {
    match a
    case Advance(t, _) =>
      if t in p.calls && Behind(p.calls[t].stage, w)
        && (p.calls[t].stage.RetryMirror? || p.calls[t].stage.FinishMirror?)
      then Some(p.calls[t].stage.value) else None
    case LoopStep(_) => if LoopBehind(p.loop, w) && p.loop.AssignMirror? then Some(p.loop.value) else None
    case Balance(op) =>
      if op.Load? && op.id == w then Some(op.load)
      else if op.Reconcile? && w in LB.Listed(op.services) && w !in p.balancer.workers then Some(0)
      else None
    case _ => None
  }

  /** The last value written, since the balancer has known the worker, was not the counter's when it was written. */
  ghost predicate Outdated(actions: seq<Action>, w: Text)
  {
    actions != [] &&
    var before, a := actions[..|actions| - 1], actions[|actions| - 1];
    w in Run(START, actions).balancer.workers &&
    match Writes(Run(START, before), a, w)
    case Some(value) => value != Run(START, before).store.LoadOf(w)
    case None => Outdated(before, w)
  }

  /** A balancer's load for a worker. */
  function Copy(b: LB.Balancer, w: Text): Option<int>
  {
    if w in b.workers then Some(b.workers[w].currentLoad) else None
  }

  /** The copy after a value has been written. */
  function After(b: LB.Balancer, w: Text, written: Option<int>): Option<int>
  {
    if w in b.workers && written.Some? then written else Copy(b, w)
  }

  lemma CallStepBehind(s: Store, c: Call, x: Inputs, w: Text)
    ensures CallStep(s, c, x).0.LoadOf(w) == s.LoadOf(w) || Releasing(c.stage, w)
    ensures Releasing(c.stage, w) ==> CallStep(s, c, x).1.Goes? && Behind(CallStep(s, c, x).1.stage, w)
    ensures Behind(c.stage, w) && !c.stage.RetryMirror? && !c.stage.FinishMirror? ==>
              CallStep(s, c, x).1.Goes? && Behind(CallStep(s, c, x).1.stage, w)
  {
    hide ToString, Stoi, Stoll, Decode;
  }

  lemma LoopStepBehind(s: Store, l: Loop, x: Inputs, w: Text)
    ensures LoopNext(s, l, x).0.LoadOf(w) == s.LoadOf(w) || LoopBehind(LoopNext(s, l, x).1, w)
    ensures LoopBehind(l, w) && !l.AssignMirror? ==> LoopBehind(LoopNext(s, l, x).1, w)
  {
    hide ToString, Stoi, Stoll, Decode;
  }

  lemma CallTouchCopy(p: Proto, t: nat, x: Inputs, w: Text)
    requires t in p.calls
    ensures Copy(CallTouch(p.balancer, p.calls[t], x), w) == After(p.balancer, w, Writes(p, Advance(t, x), w))
    ensures CallTouch(p.balancer, p.calls[t], x).KeysAgree() <==> p.balancer.KeysAgree()
  {
  }

  lemma LoopTouchCopy(p: Proto, x: Inputs, w: Text)
    ensures Copy(LoopTouch(p.balancer, p.loop, x), w) == After(p.balancer, w, Writes(p, LoopStep(x), w))
    ensures LoopTouch(p.balancer, p.loop, x).KeysAgree() <==> p.balancer.KeysAgree()
  {
  }

  /** A balancer operation drops the worker, or leaves what it writes, or leaves the copy alone. */
  lemma BalanceCopy(p: Proto, op: BL.Op, w: Text)
    requires p.balancer.KeysAgree()
    ensures var b := BL.Next(p.balancer, op);
            Copy(b, w) == None ||
            Copy(b, w) ==
              (match Writes(p, Balance(op), w) case Some(value) => Some(value) case None => Copy(p.balancer, w))
  {
    if op.Reconcile? { BL.ReconciliationIsExact(p.balancer, op.services, op.beats); }
  }

  lemma BalanceKeys(b: LB.Balancer, op: BL.Op)
    requires b.KeysAgree()
    ensures BL.Next(b, op).KeysAgree()
  {
    if op.Reconcile? { BL.ReconciliationIsExact(b, op.services, op.beats); }
  }

  /**
   What one action does: the new copy is what it writes, if it writes; and a changed counter leaves someone behind.
   */
  lemma StepCopy(p: Proto, a: Action, w: Text)
    requires p.balancer.KeysAgree()
    ensures var q := Next(p, a);
            && q.balancer.KeysAgree()
            && (Copy(q.balancer, w) == None ||
                Copy(q.balancer, w) ==
                  (match Writes(p, a, w) case Some(value) => Some(value) case None => Copy(p.balancer, w)))
            && (Quiet(q, w) ==> q.store.LoadOf(w) == p.store.LoadOf(w))
            && (Quiet(q, w) && Writes(p, a, w) == None ==> Quiet(p, w))
  {
    hide CallStep, LoopNext, CallTouch, LoopTouch, Drops, Copy, LB.Balancer.KeysAgree, BL.Next;
    var q := Next(p, a);
    match a
    case Advance(t, x) =>
      if t in p.calls {
        CallTouchCopy(p, t, x, w);
        AbsentCopy(p.balancer, w);
        AdvanceQuiet(p, t, x, w);
      }
    case LoopStep(x) =>
      LoopTouchCopy(p, x, w);
      AbsentCopy(p.balancer, w);
      LoopStepBehind(p.store, p.loop, x, w);
    case Balance(op) =>
      BalanceCopy(p, op, w);
      BalanceKeys(p.balancer, op);
    case _ => OtherCopy(p, a, w);
  }

  lemma AbsentCopy(b: LB.Balancer, w: Text)
    ensures Copy(b, w) == None <==> w !in b.workers
  {
  }

  lemma AdvanceQuiet(p: Proto, t: nat, x: Inputs, w: Text)
    requires t in p.calls
    ensures var q := Next(p, Advance(t, x));
            && (Quiet(q, w) ==> q.store.LoadOf(w) == p.store.LoadOf(w))
            && (Quiet(q, w) && Writes(p, Advance(t, x), w) == None ==> Quiet(p, w))
  {
    hide CallStep, CallTouch, Behind, Store.LoadOf;
    var q := Next(p, Advance(t, x));
    CallStepBehind(p.store, p.calls[t], x, w);
    var g := CallStep(p.store, p.calls[t], x).1;
    assert g.Goes? ==> t in q.calls && q.calls[t].stage == g.stage;
    if Quiet(q, w) && Writes(p, Advance(t, x), w) == None {
      forall u | u in p.calls ensures !Behind(p.calls[u].stage, w) {
        if u != t { assert q.calls[u] == p.calls[u]; }
      }
    }
  }

  lemma OtherCopy(p: Proto, a: Action, w: Text)
    requires !a.Advance? && !a.LoopStep? && !a.Balance?
    ensures var q := Next(p, a);
            && (q.balancer.KeysAgree() <==> p.balancer.KeysAgree()) && Copy(q.balancer, w) == Copy(p.balancer, w)
            && q.store == p.store && (Quiet(q, w) ==> Quiet(p, w))
  {
    var q := Next(p, a);
    if Quiet(q, w) {
      forall u | u in p.calls ensures !Behind(p.calls[u].stage, w) { assert q.calls[u] == p.calls[u]; }
    }
  }

  lemma InStepCopy(p: Proto, w: Text)
    ensures InStep(p, w) <==> Copy(p.balancer, w) == None || Copy(p.balancer, w) == Some(p.store.LoadOf(w))
    ensures Copy(p.balancer, w) == None <==> w !in p.balancer.workers
  {
  }

  /**
   For every run, of any calls and any balancer operations: whenever no copy is still to be written, the balancer's
   load for a worker it knows is the counter if and only if the last value written to it was the counter's at that
   moment.
   */
  lemma {:induction false} MirrorAgreesExactly(actions: seq<Action>, w: Text)
    ensures Run(START, actions).balancer.KeysAgree()
    ensures Quiet(Run(START, actions), w) ==> (InStep(Run(START, actions), w) <==> !Outdated(actions, w))
  {
    hide Next, Quiet, InStep, Writes, Copy;
    InStepCopy(Run(START, actions), w);
    if actions == [] {
    } else {
      var before, a := actions[..|actions| - 1], actions[|actions| - 1];
      MirrorAgreesExactly(before, w);
      InStepCopy(Run(START, before), w);
      StepCopy(Run(START, before), a, w);
    }
  }

  // ---------- a discipline, and a run without it ----------

  /** The step changes the counter. */
  predicate Changes(p: Proto, a: Action, w: Text)
  {
    match a
    case Advance(t, _) => Releaser(p, t, w) && p.calls[t].stage.load > 0
    case LoopStep(_) => p.loop.AssignLoad? && p.loop.worker == w
    case _ => false
  }

  /**
   No step changes the counter while a copy of it is still to be written, and no balancer operation writes another load.
   */
  ghost predicate Spaced(p: Proto, a: Action, w: Text)
  {
    && (Changes(p, a, w) ==> Quiet(p, w))
    && (a.Balance? && Writes(p, a, w).Some? ==> Writes(p, a, w).value == p.store.LoadOf(w))
  }

  ghost predicate SpacedRun(actions: seq<Action>, w: Text)
  {
    actions == [] ||
    (SpacedRun(actions[..|actions| - 1], w) &&
     Spaced(Run(START, actions[..|actions| - 1]), actions[|actions| - 1], w))
  }

  /** What is about to be written is the counter. */
  ghost predicate Fresh(p: Proto, w: Text)
  {
    && (forall t :: t in p.calls && Behind(p.calls[t].stage, w) &&
                    (p.calls[t].stage.RetryMirror? || p.calls[t].stage.FinishMirror?) ==>
                      p.calls[t].stage.value == p.store.LoadOf(w))
    && (LoopBehind(p.loop, w) && p.loop.AssignMirror? ==> p.loop.value == p.store.LoadOf(w))
  }

  lemma CallStepFresh(s: Store, c: Call, x: Inputs, w: Text)
    ensures var (t, g) := CallStep(s, c, x);
            && (t.LoadOf(w) == s.LoadOf(w) || (Releasing(c.stage, w) && c.stage.load > 0))
            && (g.Goes? && Behind(g.stage, w) && (g.stage.RetryMirror? || g.stage.FinishMirror?) ==>
                  g.stage.value == t.LoadOf(w))
  {
    hide ToString, Stoi, Stoll, Decode;
  }

  lemma LoopStepFresh(s: Store, l: Loop, x: Inputs, w: Text)
    ensures var (t, m) := LoopNext(s, l, x);
            && (t.LoadOf(w) == s.LoadOf(w) || (l.AssignLoad? && l.worker == w))
            && (LoopBehind(m, w) && m.AssignMirror? ==> m.value == t.LoadOf(w))
  {
    hide ToString, Stoi, Stoll, Decode;
  }

  lemma AdvanceFresh(p: Proto, t: nat, x: Inputs, w: Text)
    requires Fresh(p, w) && Spaced(p, Advance(t, x), w) && t in p.calls
    ensures Fresh(Next(p, Advance(t, x)), w)
  {
    hide CallStep, CallTouch, Store.LoadOf, Behind, Releasing;
    CallStepFresh(p.store, p.calls[t], x, w);
  }

  lemma StepFresh(p: Proto, a: Action, w: Text)
    requires Fresh(p, w) && Spaced(p, a, w)
    ensures Fresh(Next(p, a), w)
    ensures Writes(p, a, w).Some? ==> Writes(p, a, w).value == p.store.LoadOf(w)
  {
    hide CallStep, LoopNext, CallTouch, LoopTouch, Store.LoadOf, Behind, Drops;
    match a
    case Advance(t, x) => if t in p.calls { AdvanceFresh(p, t, x, w); }
    case LoopStep(x) => LoopStepFresh(p.store, p.loop, x, w);
    case _ =>
  }

  /** In such a run nothing outdated is written, so whenever no copy is still to be written the balancer's load is the
      counter. */
  lemma {:induction false} MirrorAgreesWhenSpaced(actions: seq<Action>, w: Text)
    requires SpacedRun(actions, w)
    ensures Fresh(Run(START, actions), w) && !Outdated(actions, w)
    ensures Quiet(Run(START, actions), w) ==> InStep(Run(START, actions), w)
  {
    hide Next, Quiet, InStep, Writes, Spaced, Fresh;
    MirrorAgreesExactly(actions, w);
    if actions == [] {
      StartFresh(w);
    } else {
      var before, a := actions[..|actions| - 1], actions[|actions| - 1];
      MirrorAgreesWhenSpaced(before, w);
      StepFresh(Run(START, before), a, w);
    }
  }

  lemma StartFresh(w: Text)
    ensures Fresh(START, w)
  {
  }

  /** A release of the last slot reads the counter and acts. */
  lemma OneReleases(p: Proto) returns (q: Proto)
    requires Reached(p) && p.calls == map[0 := Call(ONE_TASK, FinishLoad(3, ONE_WORKER))]
    requires p.store.loads == map[ONE_WORKER := 1]
    ensures Reached(q) && q.calls == map[0 := Call(ONE_TASK, FinishGet(3, ONE_WORKER))] && q.loop == p.loop
    ensures q.store.loads == map[ONE_WORKER := 0] && q.balancer == p.balancer
  {
    hide Reached;
    q := OneAdvance(p, 0);
    q := OneAdvance(q, 0);
  }

  /** It goes on to its end. */
  lemma OneCopies(p: Proto) returns (q: Proto)
    requires Reached(p) && p.calls == map[0 := Call(ONE_TASK, FinishGet(3, ONE_WORKER))]
    requires ONE_WORKER in p.balancer.workers
    ensures Reached(q) && q.calls == map[] && q.loop == p.loop
    ensures q.store == p.store && ONE_WORKER in q.balancer.workers
  {
    hide Reached, LB.Balancer.WithBreakerEvent;
    q := OneAdvance(p, 0);
    q := OneAdvance(q, 0);
    q := OneEnds(q);
  }

  lemma OneEnds(p: Proto) returns (q: Proto)
    requires Reached(p) && p.calls == map[0 := Call(ONE_TASK, FinishBreaker(3, ONE_WORKER))]
    ensures Reached(q) && q.calls == map[] && q.loop == p.loop && q.store == p.store
    ensures q.balancer.workers == p.balancer.workers
  {
    hide Reached, LB.Balancer.WithBreakerEvent;
    BreakerKeepsWorkers(p.balancer);
    Reach(p, Advance(0, INPUTS));
    q := Next(p, Advance(0, INPUTS));
  }

  /** Without it the copy does go wrong for good: the loop reads 1, a failure frees the slot and writes 0, and the loop
      then writes its 1. */
  lemma {:induction false} LateWriteGoesWrong()
    ensures exists actions :: ProperRun(actions) && Quiet(Run(START, actions), ONE_WORKER)
                              && Run(START, actions).store.LoadOf(ONE_WORKER) == 0
                              && Copy(Run(START, actions).balancer, ONE_WORKER) == Some(1)
  {
    hide Run, ProperRun, Reached, Store.HGet;
    var p := OneCounted();
    p := OneLoopStep(p, INPUTS);
    assert p.loop == AssignMirror(ONE_TASK, ONE_WORKER, 1);
    p := OneFails(p, 0);
    p := OneReleases(p);
    p := OneCopies(p);
    p := OneLoopStep(p, INPUTS);
    ReachedRun(p);
    var actions :| ProperRun(actions) && Run(START, actions) == p;
  }

  lemma BreakerKeepsWorkers(b: LB.Balancer)
    ensures forall e :: b.WithBreakerEvent(ONE_WORKER, e).workers == b.workers
  {
  }
}
