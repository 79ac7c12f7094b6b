/**
 Load counters one command at a time. `decrementWorkerLoad` reads the counter and then decrements it, so two
 releases of one worker can both see its last slot taken. While releases of one worker do not overlap, each acts
 as if at the moment it reads, and the counter is what the same calls taken whole would make it.
 */
module DeliveryLoads {
  import opened Texts
  import opened Division
  import opened RedisStores
  import opened Delivery
  import DispatchRuns

  /** The call has read the counter of `w` and not yet acted on it. */
  predicate Releasing(g: Stage, w: Text)
  {
    (g.RetryRelease? || g.FinishRelease?) && g.worker == w
  }

  predicate Reads(g: Stage, w: Text)
  {
    (g.RetryLoad? || g.FinishLoad?) && g.worker == w
  }

  predicate Releaser(p: Proto, t: nat, w: Text)
  {
    t in p.calls && Releasing(p.calls[t].stage, w)
  }

  /** The releases that will decrement the counter. */
  function Deciding(p: Proto, w: Text): set<nat>
  {
    set t | t in p.calls && Releasing(p.calls[t].stage, w) && p.calls[t].stage.load > 0
  }

  /** The counter less the decrements already decided. */
  function Level(p: Proto, w: Text): int
  {
    p.store.LoadOf(w) - |Deciding(p, w)|
  }

  /** A release reads the counter only while no other release of that worker is between its read and its end. */
  predicate Apart(p: Proto, a: Action, w: Text)
  {
    a.Advance? && a.thread in p.calls && Reads(p.calls[a.thread].stage, w) ==>
      forall t :: t in p.calls ==> !Releaser(p, t, w)
  }

  ghost predicate ApartRun(actions: seq<Action>, w: Text)
  {
    actions == [] ||
    (ApartRun(actions[..|actions| - 1], w) && Apart(Run(START, actions[..|actions| - 1]), actions[|actions| - 1], w))
  }

  /** A release counts when it reads, an assignment when it increments. */
  function Delta(p: Proto, a: Action, w: Text): int
  {
    match a
    case Advance(t, _) => if t in p.calls && Reads(p.calls[t].stage, w) then -1 else 0
    case LoopStep(_) => if p.loop.AssignLoad? && p.loop.worker == w then 1 else 0
    case _ => 0
  }

  ghost function Deltas(actions: seq<Action>, w: Text): seq<int>
  {
    if actions == [] then [] else
    var before := actions[..|actions| - 1];
    Deltas(before, w) + [Delta(Run(START, before), actions[|actions| - 1], w)]
  }

  /** At most one release is between read and end, and no decrement it has decided can go below 0. */
  ghost predicate Steady(p: Proto, w: Text)
  {
    (forall t, u :: Releaser(p, t, w) && Releaser(p, u, w) ==> t == u) && Level(p, w) >= 0
  }

  lemma CallStepLoad(s: Store, c: Call, x: Inputs, w: Text)
    ensures CallStep(s, c, x).0.LoadOf(w) ==
            s.LoadOf(w) - if Releasing(c.stage, w) && c.stage.load > 0 then 1 else 0
    ensures var g := CallStep(s, c, x).1;
            g.Goes? && Releasing(g.stage, w) <==> Reads(c.stage, w) && w in s.loads
    ensures var g := CallStep(s, c, x).1;
            g.Goes? && Releasing(g.stage, w) ==> g.stage.load == s.LoadOf(w)
  {
    hide ToString, Stoi, Stoll, Decode;
  }

  lemma LoopStepLoad(s: Store, l: Loop, x: Inputs, w: Text)
    ensures LoopNext(s, l, x).0.LoadOf(w) == s.LoadOf(w) + if l.AssignLoad? && l.worker == w then 1 else 0
  {
    hide ToString, Stoi, Stoll, Decode;
  }

  lemma DecidingAfter(p: Proto, t: nat, x: Inputs, w: Text)
    requires t in p.calls
    ensures Deciding(Next(p, Advance(t, x)), w) ==
            Deciding(p, w) - {t} + if Reads(p.calls[t].stage, w) && p.store.LoadOf(w) > 0 then {t} else {}
  {
    hide CallStep;
    CallStepLoad(p.store, p.calls[t], x, w);
  }

  lemma DecidingMember(p: Proto, t: nat, w: Text)
    ensures t in Deciding(p, w) <==> Releaser(p, t, w) && p.calls[t].stage.load > 0
    ensures (forall u :: u in p.calls ==> !Releaser(p, u, w)) ==> Deciding(p, w) == {}
  {
  }

  lemma AdvanceLevel(p: Proto, t: nat, x: Inputs, w: Text)
    requires Steady(p, w) && t in p.calls && Apart(p, Advance(t, x), w)
    ensures Level(Next(p, Advance(t, x)), w) == Max(0, Level(p, w) + Delta(p, Advance(t, x), w))
    ensures Steady(Next(p, Advance(t, x)), w)
  {
    hide CallStep, Deciding;
    var q := Next(p, Advance(t, x));
    CallStepLoad(p.store, p.calls[t], x, w);
    DecidingAfter(p, t, x, w);
    DecidingMember(p, t, w);
    forall u | Releaser(q, u, w) ensures Releaser(p, u, w) || (u == t && Reads(p.calls[t].stage, w)) {}
  }

  /** Any other step acts on no release, so an increment is all it can do. */
  lemma OtherLevel(p: Proto, a: Action, w: Text)
    requires Steady(p, w) && !a.Advance?
    ensures Level(Next(p, a), w) == Level(p, w) + Delta(p, a, w) && Steady(Next(p, a), w) && Delta(p, a, w) >= 0
  {
    hide CallStep, LoopNext, CallTouch, LoopTouch, Store.LoadOf, Deciding, Drops;
    var q := Next(p, a);
    assert q.calls == p.calls || a.StartSubmit? || a.StartRetry? || a.StartFinish?;
    OtherDeciding(p, a, w);
    if a.LoopStep? { LoopStepLoad(p.store, p.loop, a.inputs, w); }
    forall t | Releaser(q, t, w) ensures Releaser(p, t, w) {}
  }

  lemma OtherDeciding(p: Proto, a: Action, w: Text)
    requires !a.Advance?
    ensures Deciding(Next(p, a), w) == Deciding(p, w)
  {
    hide LoopNext, LoopTouch, Drops;
  }

  lemma StepLevel(p: Proto, a: Action, w: Text)
    requires Steady(p, w) && Apart(p, a, w)
    ensures Level(Next(p, a), w) == Max(0, Level(p, w) + Delta(p, a, w)) && Steady(Next(p, a), w)
  {
    hide Next, Level, Steady;
    if !a.Advance? {
      OtherLevel(p, a, w);
      SteadyLevel(p, w);
    } else if a.thread in p.calls {
      AdvanceLevel(p, a.thread, a.inputs, w);
    } else {
      NoSuchThread(p, a.thread, a.inputs);
      SteadyLevel(p, w);
    }
  }

  lemma SteadyLevel(p: Proto, w: Text)
    requires Steady(p, w)
    ensures Level(p, w) >= 0
  {
  }

  lemma NoSuchThread(p: Proto, t: nat, x: Inputs)
    requires t !in p.calls
    ensures Next(p, Advance(t, x)) == p
  {
  }

  /**
   Over every interleaving in which releases of the worker do not overlap, its counter less the decrements
   decided is the largest excess of increments over releases in a final stretch of the run; it is never negative.
   */
  lemma {:induction false} LevelIsLargestSuffix(actions: seq<Action>, w: Text)
    requires ApartRun(actions, w)
    ensures var p := Run(START, actions);
            DispatchRuns.IsLargestSuffixSum(Deltas(actions, w), Level(p, w)) && Steady(p, w) && p.store.LoadOf(w) >= 0
  {
    hide Next, Apart, Delta, Deciding;
    if actions == [] {
      assert Deciding(START, w) == {} by { DecidingMember(START, 0, w); }
      assert DispatchRuns.Sum(Deltas(actions, w)[0..]) == 0;
    } else {
      var before, a := actions[..|actions| - 1], actions[|actions| - 1];
      LevelIsLargestSuffix(before, w);
      StepLevel(Run(START, before), a, w);
      DispatchRuns.LargestSuffixGrows(Deltas(before, w), Level(Run(START, before), w), Delta(Run(START, before), a, w));
    }
  }

  /**
   One decrement keeps a counter from going negative if and only if it decided not to act or a slot is still taken.
   */
  lemma ReleaseKeepsFloorExactly(s: Store, c: Call, x: Inputs, w: Text)
    requires Releasing(c.stage, w) && s.LoadOf(w) >= 0
    ensures CallStep(s, c, x).0.LoadOf(w) >= 0 <==> c.stage.load <= 0 || s.LoadOf(w) > 0
  {
    hide CallStep;
    CallStepLoad(s, c, x, w);
  }

  // ---------- whether releases overlap or not ----------

  /** The action is a release that reads a slot as taken when as many releases as slots have decided to free one. */
  predicate Oversells(p: Proto, a: Action, w: Text)
  {
    && a.Advance? && a.thread in p.calls && Reads(p.calls[a.thread].stage, w)
    && p.store.LoadOf(w) > 0 && Level(p, w) <= 0
  }

  ghost predicate NeverOversells(actions: seq<Action>, w: Text)
  {
    actions == [] ||
    (NeverOversells(actions[..|actions| - 1], w) &&
     !Oversells(Run(START, actions[..|actions| - 1]), actions[|actions| - 1], w))
  }

  /** At every moment there are slots for all releases that have decided to free one. */
  ghost predicate AlwaysCovers(actions: seq<Action>, w: Text)
  {
    (actions == [] || AlwaysCovers(actions[..|actions| - 1], w)) && Level(Run(START, actions), w) >= 0
  }

  /** The counter is never negative. */
  ghost predicate NeverNegative(actions: seq<Action>, w: Text)
  {
    (actions == [] || NeverNegative(actions[..|actions| - 1], w)) && Run(START, actions).store.LoadOf(w) >= 0
  }

  /** The level falls when a release reads a slot as taken, and then only; when it acts the slot has been spoken for. */
  lemma StepCovers(p: Proto, a: Action, w: Text)
    requires Level(p, w) >= 0
    ensures Level(Next(p, a), w) >= 0 <==> !Oversells(p, a, w)
  {
    hide CallStep, LoopNext, CallTouch, LoopTouch, Store.LoadOf, Deciding, Drops;
    if a.Advance? && a.thread in p.calls {
      CallStepLoad(p.store, p.calls[a.thread], a.inputs, w);
      DecidingAfter(p, a.thread, a.inputs, w);
      DecidingMember(p, a.thread, w);
    } else if !a.Advance? {
      OtherDeciding(p, a, w);
      if a.LoopStep? { LoopStepLoad(p.store, p.loop, a.inputs, w); }
    }
  }

  /** For every run: every release that decides to free a slot has one, at every moment, if and only if no release
      reads a slot as taken that others have already decided to free; and then the counter is never negative. */
  lemma {:induction false} CoversUnlessOversold(actions: seq<Action>, w: Text)
    ensures AlwaysCovers(actions, w) <==> NeverOversells(actions, w)
    ensures NeverOversells(actions, w) ==> NeverNegative(actions, w)
  {
    hide Next, Oversells, Store.LoadOf, Deciding;
    if actions == [] {
      StartLevel(w);
    } else {
      var before := actions[..|actions| - 1];
      CoversUnlessOversold(before, w);
      if Level(Run(START, before), w) >= 0 {
        StepCovers(Run(START, before), actions[|actions| - 1], w);
      }
    }
  }

  lemma StartLevel(w: Text)
    ensures Level(START, w) == 0 == START.store.LoadOf(w)
  {
    DecidingMember(START, 0, w);
  }

  /** The actions let releases that have read the counter act, and nothing else. */
  ghost predicate OnlyActs(p: Proto, actions: seq<Action>, w: Text)
  {
    actions == [] ||
    (OnlyActs(p, actions[..|actions| - 1], w) &&
     var a := actions[|actions| - 1];
     a.Advance? && Releaser(Run(p, actions[..|actions| - 1]), a.thread, w))
  }

  /** Acting spends no more than was decided. */
  lemma {:induction false} ActingKeepsLevel(p: Proto, actions: seq<Action>, w: Text)
    requires OnlyActs(p, actions, w)
    ensures Level(Run(p, actions), w) == Level(p, w)
  {
    if actions == [] {
    } else {
      hide Next, Store.LoadOf, Deciding;
      var before, a := actions[..|actions| - 1], actions[|actions| - 1];
      ActingKeepsLevel(p, before, w);
      OneActs(Run(p, before), a.thread, a.inputs, w);
    }
  }

  lemma OneActs(p: Proto, t: nat, x: Inputs, w: Text)
    requires Releaser(p, t, w)
    ensures var q := Next(p, Advance(t, x));
            Level(q, w) == Level(p, w) && Deciding(q, w) == Deciding(p, w) - {t}
  {
    hide CallStep, CallTouch, Store.LoadOf, Deciding;
    CallStepLoad(p.store, p.calls[t], x, w);
    DecidingAfter(p, t, x, w);
    DecidingMember(p, t, w);
  }

  /** All of them can act, one after the other. */
  lemma {:induction false} AllAct(p: Proto, w: Text, n: nat, x: Inputs) returns (actions: seq<Action>)
    requires n <= |Deciding(p, w)|
    ensures OnlyActs(p, actions, w) && |Deciding(Run(p, actions), w)| == |Deciding(p, w)| - n
  {
    hide Next, Deciding;
    if n == 0 {
      actions := [];
    } else {
      actions := AllAct(p, w, n - 1, x);
      var q := Run(p, actions);
      var t :| t in Deciding(q, w);
      DecidingMember(q, t, w);
      OneActs(q, t, x, w);
      assert (actions + [Advance(t, x)])[..|actions|] == actions;
      actions := actions + [Advance(t, x)];
    }
  }

  /** So from any moment of any run, the releases that have read the counter can take it below 0 by acting, in some
      order, if and only if more of them have decided to than there are slots. */
  lemma ActsGoNegativeExactly(p: Proto, w: Text)
    ensures (exists actions :: OnlyActs(p, actions, w) && Run(p, actions).store.LoadOf(w) < 0) <==> Level(p, w) < 0
  {
    hide Deciding, Store.LoadOf, Next;
    var all := AllAct(p, w, |Deciding(p, w)|, Inputs(0, 0, _ => 0, TaskInfo([], 0, 0, [], 0, 0, 0, 0, 0, [], []), []));
    ActingKeepsLevel(p, all, w);
    assert Run(p, all).store.LoadOf(w) == Level(p, w);
    forall actions | OnlyActs(p, actions, w) ensures Run(p, actions).store.LoadOf(w) >= Level(p, w) {
      ActingKeepsLevel(p, actions, w);
    }
  }

  lemma ReleaseReads(p: Proto, t: nat, w: Text, x: Inputs)
    requires t in p.calls && Reads(p.calls[t].stage, w) && w in p.store.loads
    ensures var q := Next(p, Advance(t, x));
            && q.store == p.store && Releaser(q, t, w) && q.calls[t].stage.load == p.store.loads[w]
            && q.calls == p.calls[t := q.calls[t]]
  {
  }

  lemma ReleaseActs(p: Proto, t: nat, w: Text, x: Inputs)
    requires Releaser(p, t, w) && w in p.store.loads
    ensures var q := Next(p, Advance(t, x));
            && w in q.store.loads && t in q.calls && q.calls == p.calls[t := q.calls[t]]
            && q.store.loads[w] == p.store.loads[w] - if p.calls[t].stage.load > 0 then 1 else 0
  {
  }

  /** The state after two releases, one after the other or both reading first. */
  ghost function OneThenOther(p: Proto, t: nat, u: nat, x: Inputs): Proto
  {
    Next(Next(Next(Next(p, Advance(t, x)), Advance(t, x)), Advance(u, x)), Advance(u, x))
  }

  ghost function BothReadFirst(p: Proto, t: nat, u: nat, x: Inputs): Proto
  {
    Next(Next(Next(Next(p, Advance(t, x)), Advance(u, x)), Advance(t, x)), Advance(u, x))
  }

  /** Two releases, of completions, failures or retries, that both read first: they differ from one after the other at
      load 1 only, and there the counter goes negative. */
  lemma OverlapGoesNegativeExactlyAtOne(p: Proto, t: nat, u: nat, w: Text, x: Inputs)
    requires t != u && t in p.calls && u in p.calls && w in p.store.loads && p.store.loads[w] >= 0
    requires Reads(p.calls[t].stage, w) && Reads(p.calls[u].stage, w)
    ensures BothReadFirst(p, t, u, x).store.LoadOf(w) != OneThenOther(p, t, u, x).store.LoadOf(w) <==>
            p.store.loads[w] == 1
    ensures BothReadFirst(p, t, u, x).store.LoadOf(w) < 0 <==> p.store.loads[w] == 1
  {
    hide Next, Reads;
    var q := Next(p, Advance(t, x));
    ReleaseReads(p, t, w, x);
    ReleaseActs(q, t, w, x);
    var r := Next(q, Advance(t, x));
    ReleaseReads(r, u, w, x);
    ReleaseActs(Next(r, Advance(u, x)), u, w, x);
    var s := Next(q, Advance(u, x));
    ReleaseReads(q, u, w, x);
    ReleaseActs(s, t, w, x);
    ReleaseActs(Next(s, Advance(t, x)), u, w, x);
  }
}
