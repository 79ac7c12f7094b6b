/**
 The bound of three where the code has it: at the guard a retry passes before it does anything else. The guard asks
 the stored count, which knows nothing of the retries that have passed it and not yet counted.
 */
module DeliveryAdmissions {
  import opened Texts
  import opened RedisStores
  import opened Dispatching
  import opened Delivery
  import opened DeliveryRecords
  import opened DeliveryRetries
  import DeliveryCalls

  /** A retry past the guard. */
  predicate Passed(g: Stage) { Retrying(g) && !g.RetryRead? }

  /** The retries of the task that have passed the guard and not yet pushed. */
  function Admitted(p: Proto, id: Text): set<nat>
  {
    set t | t in p.calls && p.calls[t].id == id && Passed(p.calls[t].stage)
  }

  /** The guard passes a retry though three have been admitted before, pushed or not. */
  predicate Overadmits(p: Proto, a: Action, id: Text)
  {
    && a.Advance? && a.thread in p.calls && p.calls[a.thread].id == id && p.calls[a.thread].stage.RetryRead?
    && CallStep(p.store, p.calls[a.thread], a.inputs).1.Goes?
    && p.retried[id] + |Admitted(p, id)| >= 3
  }

  ghost predicate NeverOveradmits(actions: seq<Action>, id: Text)
  {
    actions == [] ||
    (NeverOveradmits(actions[..|actions| - 1], id) &&
     !Overadmits(Run(START, actions[..|actions| - 1]), actions[|actions| - 1], id))
  }

  /** At every moment at most three retries have been admitted. */
  ghost predicate AlwaysRoom(actions: seq<Action>, id: Text)
  {
    && (actions == [] || AlwaysRoom(actions[..|actions| - 1], id))
    && Run(START, actions).retried[id] + |Admitted(Run(START, actions), id)| <= 3
  }

  lemma CallStepPasses(s: Store, c: Call, x: Inputs)
    ensures var g := CallStep(s, c, x).1;
            && (g.Goes? && Passed(g.stage) ==> Retrying(c.stage))
            && (g.Goes? && Retrying(c.stage) ==> Passed(g.stage) && !c.stage.RetryPush?)
            && (c.stage.RetryPush? ==> !g.Goes?)
  {
    hide ToString, Stoi, Stoll, Decode;
  }

  lemma AdmittedAfter(p: Proto, t: nat, x: Inputs, id: Text)
    requires t in p.calls
    ensures var g := CallStep(p.store, p.calls[t], x).1;
            Admitted(Next(p, Advance(t, x)), id) ==
            if p.calls[t].id == id then Admitted(p, id) - {t} + (if g.Goes? && Passed(g.stage) then {t} else {})
            else Admitted(p, id)
  {
    hide CallStep, CallTouch, Passed;
  }

  lemma OtherAdmitted(p: Proto, a: Action, id: Text)
    requires !a.Advance?
    ensures Admitted(Next(p, a), id) == Admitted(p, id) && Next(p, a).retried == p.retried
  {
    hide LoopNext, LoopTouch, Drops;
  }

  lemma AdmittedMember(p: Proto, t: nat, id: Text)
    ensures t in Admitted(p, id) <==> t in p.calls && p.calls[t].id == id && Passed(p.calls[t].stage)
  {
  }

  lemma AdmittedCalls(p: Proto, id: Text)
    ensures forall t :: t in Admitted(p, id) ==> t in p.calls
  {
  }

  lemma StepRoom(p: Proto, a: Action, id: Text)
    requires p.retried[id] + |Admitted(p, id)| <= 3
    ensures Next(p, a).retried[id] + |Admitted(Next(p, a), id)| <= 3 <==> !Overadmits(p, a, id)
  {
    hide CallStep, LoopNext, CallTouch, LoopTouch, Admitted, Drops;
    if a.Advance? && a.thread in p.calls {
      CallStepPasses(p.store, p.calls[a.thread], a.inputs);
      AdmittedAfter(p, a.thread, a.inputs, id);
      AdmittedMember(p, a.thread, id);
    } else if !a.Advance? {
      OtherAdmitted(p, a, id);
    }
  }

  /** For every run: at most three retries of the task have been admitted, at every moment, if and only if the guard
      passes none when three have been, whatever the stored count says. */
  lemma {:induction false} RoomUnlessOveradmitted(actions: seq<Action>, id: Text)
    ensures AlwaysRoom(actions, id) <==> NeverOveradmits(actions, id)
  {
    hide Next, Overadmits;
    if actions == [] {
      assert Admitted(START, id) == {};
    } else {
      var before := actions[..|actions| - 1];
      RoomUnlessOveradmitted(before, id);
      if Run(START, before).retried[id] + |Admitted(Run(START, before), id)| <= 3 {
        StepRoom(Run(START, before), actions[|actions| - 1], id);
      }
    }
  }

  /** Then at most three retries push, at most three count, and the task goes to workers at most four times. */
  lemma {:induction false} RoomBoundsDelivery(actions: seq<Action>, id: Text)
    requires ProperRun(actions) && NeverOveradmits(actions, id)
    ensures var p := Run(START, actions);
            p.retried[id] + |Pending(p, id)| <= 3 && p.delivered[id] <= 4
  {
    hide Next, Run, ProperRun, NeverOveradmits, Sound, Times, Held, Admitted, Pending;
    RoomUnlessOveradmitted(actions, id);
    RecordsStaySound(actions, id);
    SoundSubmitsOnce(Run(START, actions), id);
    DeliveryBalances(actions, id);
    PendingIsAdmitted(Run(START, actions), id);
  }

  lemma SoundSubmitsOnce(p: Proto, id: Text)
    requires Sound(p, id)
    ensures p.submitted[id] <= 1
  {
  }

  lemma PendingIsAdmitted(p: Proto, id: Text)
    ensures |Pending(p, id)| <= |Admitted(p, id)|
  {
    assert Pending(p, id) <= Admitted(p, id);
    SubsetSize(Pending(p, id), Admitted(p, id));
  }

  lemma {:induction false} SubsetSize(a: set<nat>, b: set<nat>)
    requires a <= b
    ensures |a| <= |b|
  {
    if a == {} {
    } else {
      var x :| x in a;
      SubsetSize(a - {x}, b - {x});
    }
  }

  // ---------- what admitted retries go on to do ----------

  /** The actions let admitted retries go on, and nothing else. */
  ghost predicate OnlyGoOn(p: Proto, actions: seq<Action>, id: Text)
  {
    actions == [] ||
    (OnlyGoOn(p, actions[..|actions| - 1], id) &&
     var a := actions[|actions| - 1];
     a.Advance? && a.thread in Admitted(Run(p, actions[..|actions| - 1]), id))
  }

  lemma {:induction false} GoingOnAdmitsNone(p: Proto, actions: seq<Action>, id: Text)
    requires OnlyGoOn(p, actions, id)
    ensures Run(p, actions).retried[id] + |Admitted(Run(p, actions), id)| <= p.retried[id] + |Admitted(p, id)|
  {
    if actions == [] {
    } else {
      hide CallStep, CallTouch, Admitted;
      var before, a := actions[..|actions| - 1], actions[|actions| - 1];
      var q := Run(p, before);
      GoingOnAdmitsNone(p, before, id);
      AdmittedMember(q, a.thread, id);
      CallStepPasses(q.store, q.calls[a.thread], a.inputs);
      AdmittedAfter(q, a.thread, a.inputs, id);
    }
  }

  /** No admitted retry is about to throw: their counters exist and their counts, at most `b`, are readable. */
  ghost predicate Smooth(p: Proto, id: Text, b: int)
  {
    && 0 <= Count(p.store, id) <= b
    && (p.store.HGet(id, WORKER_ID) != [] ==> p.store.HGet(id, WORKER_ID) in p.store.loads)
    && (forall t :: t in Admitted(p, id) ==> Ready(p.store, p.calls[t].stage, b))
  }

  ghost predicate Ready(s: Store, g: Stage, b: int)
  {
    && (g.RetryLoad? ==> g.worker in s.loads)
    && (g.RetryWrite? ==> CountRead(g.current).Some? && 0 <= CountRead(g.current).value <= b)
  }

  /** One step of such a retry: it goes on, what it leaves is as ready, and it counts at most one more. */
  lemma RetryGoesOn(s: Store, c: Call, x: Inputs, b: int)
    requires CallFits(s, c) && Passed(c.stage) && !c.stage.RetryPush? && Ready(s, c.stage, b)
    requires 0 <= Count(s, c.id) <= b < TWO_31 - 1
    requires s.HGet(c.id, WORKER_ID) != [] ==> s.HGet(c.id, WORKER_ID) in s.loads
    ensures var (t, g) := CallStep(s, c, x);
            && g.Goes? && Ready(t, g.stage, b)
            && 0 <= Count(t, c.id) <= b + (if c.stage.RetryWrite? then 1 else 0)
            && (Pends(g.stage) <==> Pends(c.stage) || c.stage.RetryWrite?)
  {
    hide ToString, Stoi, Stoll, Decode, Count, GetInt;
    ReadsCount(s, c.id);
    if c.stage.RetryWrite? {
      CallStepCounts(s, c, x);
    } else {
      CallStepKeepsCount(s, c, x, c.id);
    }
  }

  /** No step of a retry takes a counter away or changes a recorded worker. */
  lemma RetryKeepsCounters(s: Store, c: Call, x: Inputs)
    requires Passed(c.stage)
    ensures s.loads.Keys <= CallStep(s, c, x).0.loads.Keys
    ensures CallStep(s, c, x).0.HGet(c.id, WORKER_ID) == s.HGet(c.id, WORKER_ID)
  {
    hide ToString, Stoi, Stoll, Decode;
  }

  lemma StepGoesOn(p: Proto, t: nat, id: Text, b: int)
    requires Sound(p, id) && Smooth(p, id, b) && b < TWO_31 - 1
    requires t in Admitted(p, id) && !p.calls[t].stage.RetryPush?
    ensures var q := Next(p, Advance(t, INPUTS));
            && Sound(q, id) && Admitted(q, id) == Admitted(p, id) && q.retried == p.retried
            && Smooth(q, id, if p.calls[t].stage.RetryWrite? then b + 1 else b)
            && (Pends(q.calls[t].stage) <==> Pends(p.calls[t].stage) || p.calls[t].stage.RetryWrite?)
            && DeliveryCalls.Left(q.calls[t].stage) < DeliveryCalls.Left(p.calls[t].stage)
  {
    hide CallStep, CallTouch, Admitted, Sound, Count, Ready, Store.HGet;
    AdmittedMember(p, t, id);
    var c, q := p.calls[t], Next(p, Advance(t, INPUTS));
    CallOfSound(p, t, id);
    AdvanceSound(p, t, INPUTS, id);
    RetryGoesOn(p.store, c, INPUTS, b);
    RetryKeepsCounters(p.store, c, INPUTS);
    CallStepPasses(p.store, c, INPUTS);
    AdmittedAfter(p, t, INPUTS, id);
    DeliveryCalls.OneLessLeft(p.store, c, INPUTS);
    var n := if c.stage.RetryWrite? then b + 1 else b;
    AdmittedCalls(q, id);
    forall u | u in Admitted(q, id) ensures Ready(q.store, q.calls[u].stage, n) {
      AdmittedMember(q, u, id);
      if u == t { ReadyLasts(q.store, q.store, q.calls[t].stage, b, n); }
      else { ReadyLasts(p.store, q.store, p.calls[u].stage, b, n); }
    }
  }

  lemma ReadyLasts(s: Store, t: Store, g: Stage, b: int, n: int)
    requires Ready(s, g, b) && s.loads.Keys <= t.loads.Keys && b <= n
    ensures Ready(t, g, n)
  {
  }

  /** The last step of a retry. */
  lemma StepPushes(p: Proto, t: nat, id: Text, b: int)
    requires Sound(p, id) && Smooth(p, id, b) && t in Admitted(p, id) && p.calls[t].stage.RetryPush?
    ensures var q := Next(p, Advance(t, INPUTS));
            && Sound(q, id) && Smooth(q, id, b)
            && Admitted(q, id) == Admitted(p, id) - {t} && q.retried[id] == p.retried[id] + 1
  {
    hide CallStep, CallTouch, Admitted, Sound, Count, Ready, Store.HGet;
    AdmittedMember(p, t, id);
    var c, q := p.calls[t], Next(p, Advance(t, INPUTS));
    AdvanceSound(p, t, INPUTS, id);
    CallStepKeepsCount(p.store, c, INPUTS, id);
    RetryKeepsCounters(p.store, c, INPUTS);
    CallStepPasses(p.store, c, INPUTS);
    AdmittedAfter(p, t, INPUTS, id);
    AdmittedCalls(q, id);
    forall u | u in Admitted(q, id) ensures Ready(q.store, q.calls[u].stage, b) {
      AdmittedMember(q, u, id);
      ReadyLasts(p.store, q.store, p.calls[u].stage, b, b);
    }
  }

  lemma MoreSlack(p: Proto, id: Text, b: int)
    requires Smooth(p, id, b)
    ensures Smooth(p, id, b + 1)
  {
    hide Admitted, Count, Store.HGet;
  }

  /** An admitted retry can go on to its push. */
  lemma {:induction false} OneGoesToPush(p: Proto, so: seq<Action>, q: Proto, t: nat, id: Text, b: int)
    returns (actions: seq<Action>)
    requires OnlyGoOn(p, so, id) && q == Run(p, so) && Sound(q, id) && t in Admitted(q, id) && b < TWO_31 - 2
    requires Smooth(q, id, if Pends(q.calls[t].stage) then b + 1 else b)
    ensures OnlyGoOn(p, actions, id)
    ensures var r := Run(p, actions);
            && Sound(r, id) && Smooth(r, id, b + 1)
            && Admitted(r, id) == Admitted(q, id) - {t} && r.retried[id] == q.retried[id] + 1
    decreases DeliveryCalls.Left(q.calls[t].stage)
  {
    hide Next, Admitted, Sound, Smooth;
    actions := so + [Advance(t, INPUTS)];
    assert actions[..|so|] == so;
    AdmittedMember(q, t, id);
    var next := Next(q, Advance(t, INPUTS));
    if q.calls[t].stage.RetryPush? {
      StepPushes(q, t, id, b + 1);
    } else {
      StepGoesOn(q, t, id, if Pends(q.calls[t].stage) then b + 1 else b);
      actions := OneGoesToPush(p, actions, next, t, id, b);
    }
  }

  /** And so can all of them, one after the other. */
  lemma {:induction false} AllGoToPush(p: Proto, id: Text, b: int, n: nat) returns (actions: seq<Action>)
    requires Sound(p, id) && Smooth(p, id, b) && n <= |Admitted(p, id)| && b + n < TWO_31 - 2
    ensures OnlyGoOn(p, actions, id)
    ensures var r := Run(p, actions);
            && Sound(r, id) && Smooth(r, id, b + n)
            && |Admitted(r, id)| == |Admitted(p, id)| - n && r.retried[id] == p.retried[id] + n
  {
    hide Next, Admitted, Sound, Smooth;
    if n == 0 {
      actions := [];
    } else {
      var so := AllGoToPush(p, id, b, n - 1);
      var q := Run(p, so);
      var t :| t in Admitted(q, id);
      MoreSlack(q, id, b + n - 1);
      actions := OneGoesToPush(p, so, q, t, id, b + n - 1);
    }
  }

  /** So from any sound moment at which no admitted retry is about to throw, the admitted retries can push more than
      three times in all, by going on, if and only if more than three have been admitted. */
  lemma GoingOnPassesThreeExactly(p: Proto, id: Text, b: int)
    requires Sound(p, id) && Smooth(p, id, b) && b + |Admitted(p, id)| < TWO_31 - 2
    ensures (exists actions :: OnlyGoOn(p, actions, id) && Run(p, actions).retried[id] > 3) <==>
            p.retried[id] + |Admitted(p, id)| > 3
  {
    hide Next, Admitted, Sound, Smooth;
    var all := AllGoToPush(p, id, b, |Admitted(p, id)|);
    assert Run(p, all).retried[id] == p.retried[id] + |Admitted(p, id)|;
    forall actions | OnlyGoOn(p, actions, id)
      ensures Run(p, actions).retried[id] <= p.retried[id] + |Admitted(p, id)|
    {
      GoingOnAdmitsNone(p, actions, id);
    }
  }
}
