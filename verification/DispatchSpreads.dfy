/**
 Least-connection dispatching seen in Redis: the loads the counters hold over a run of selections, each followed by
 the dispatcher's assignment to the worker selected.
 */
module DispatchSpreads {
  import opened Texts
  import opened RedisStores
  import opened Dispatching
  import opened DispatchRuns
  import LB = LoadBalancers
  import BL = Balancing

  /** The counters of the workers. */
  function Counters(s: Store, e: set<Text>): map<Text, int>
  {
    map w | w in e :: s.LoadOf(w)
  }

  /** A task selected for and assigned to a worker, with the workers `e` eligible. */
  ghost predicate Dispatches(s: System, now: LB.Readings, e: set<Text>, t: System)
  {
    && s.balancer.strategy == LB.LEAST_CONNECTION && s.balancer.EligibleSet(now) == e
    && exists id: Text, r: Text, wall: Int64, junk: TaskInfo ::
         && r in e && s.balancer.IsChoice(id, now, r) && id != [] && s.store.GetTask(id, junk).Some?
         && t == s.(balancer := s.balancer.AfterSelect(now)).Assign(id, r, wall, junk).1
  }

  ghost predicate DispatchingRun(ss: seq<System>, nows: seq<LB.Readings>, e: set<Text>)
  {
    && |ss| == |nows| + 1
    && forall i :: 0 <= i < |nows| ==> Dispatches(ss[i], nows[i], e, ss[i + 1])
  }

  /** The balancer knows the workers and holds their counters. */
  ghost predicate Mirrors(s: System, e: set<Text>)
  {
    e <= s.balancer.workers.Keys && forall w :: w in e ==> InStep(s, w)
  }

  lemma MirroredCounters(s: System, e: set<Text>)
    requires Mirrors(s, e)
    ensures Counters(s.store, e) == BL.Loads(s.balancer, e)
  {
  }

  lemma DispatchKeepsMirror(s: System, now: LB.Readings, e: set<Text>, t: System)
    requires Mirrors(s, e) && Dispatches(s, now, e, t)
    ensures Mirrors(t, e) && BL.SelectsAndAssigns(s.balancer, now, e, t.balancer)
  {
    hide Store.GetTask, Store.HSet, LB.Balancer.EligibleSet, BL.SelectsAndAssigns;
    var id: Text, r: Text, wall: Int64, junk: TaskInfo :|
      && r in e && s.balancer.IsChoice(id, now, r) && id != [] && s.store.GetTask(id, junk).Some?
      && t == s.(balancer := s.balancer.AfterSelect(now)).Assign(id, r, wall, junk).1;
    SelectThenAssignRaisesLeast(s, now, e, r, id, wall, junk);
    SelectKeepsMirror(s, now, e);
    AssignKeepsMirror(s.(balancer := s.balancer.AfterSelect(now)), e, id, r, wall, junk);
  }

  lemma SelectKeepsMirror(s: System, now: LB.Readings, e: set<Text>)
    requires Mirrors(s, e)
    ensures Mirrors(s.(balancer := s.balancer.AfterSelect(now)), e)
  {
  }

  lemma AssignKeepsMirror(s: System, e: set<Text>, id: Text, r: Text, wall: Int64, junk: TaskInfo)
    requires Mirrors(s, e)
    ensures Mirrors(s.Assign(id, r, wall, junk).1, e)
  {
    hide System.Assign;
    var op := Assign(id, r, wall, junk);
    forall w | w in e ensures InStep(Step(s, op).1, w) { CallsKeepMirror(s, op, w); }
    AssignKeepsWorkers(s, id, r, wall, junk);
  }

  lemma AssignKeepsWorkers(s: System, id: Text, r: Text, wall: Int64, junk: TaskInfo)
    ensures s.balancer.workers.Keys <= s.Assign(id, r, wall, junk).1.balancer.workers.Keys
  {
    hide Store.HSet, Store.GetTask;
  }

  lemma {:induction false} RunKeepsMirror(ss: seq<System>, nows: seq<LB.Readings>, e: set<Text>, k: nat)
    requires DispatchingRun(ss, nows, e) && Mirrors(ss[0], e) && k < |ss|
    ensures Mirrors(ss[k], e)
  {
    if k == 0 {
    } else {
      RunKeepsMirror(ss, nows, e, k - 1);
      assert Dispatches(ss[k - 1], nows[k - 1], e, ss[k - 1 + 1]);
      DispatchKeepsMirror(ss[k - 1], nows[k - 1], e, ss[k]);
    }
  }

  /**
   From a mirrored state, a run of such dispatches never widens the spread of the Redis loads beyond the larger of what
   it was and 1; and after as many dispatches as the loads lacked below any bound on them it is at most 1 and stays so.
   */
  lemma {:induction false} DispatchesBalance(ss: seq<System>, nows: seq<LB.Readings>, e: set<Text>, d: int, top: int,
        k: nat)
    requires DispatchingRun(ss, nows, e) && Mirrors(ss[0], e) && k <= |nows| && d >= 1
    requires var l := Counters(ss[0].store, e); BL.SpreadAtMost(l, d) && BL.AllAtMost(l, top)
    ensures BL.SpreadAtMost(Counters(ss[k].store, e), d)
    ensures k >= BL.Shortfall(InOrder(e), Counters(ss[0].store, e), top) ==>
              BL.SpreadAtMost(Counters(ss[k].store, e), 1)
  {
    hide Dispatches, BL.SelectsAndAssigns, BL.Shortfall, InStep, Counters;
    var bs := seq(|ss|, i requires 0 <= i < |ss| => ss[i].balancer);
    forall i | 0 <= i < |nows| ensures BL.SelectsAndAssigns(bs[i], nows[i], e, bs[i + 1]) {
      RunKeepsMirror(ss, nows, e, i);
      DispatchKeepsMirror(ss[i], nows[i], e, ss[i + 1]);
    }
    RunKeepsMirror(ss, nows, e, k);
    MirroredCounters(ss[0], e);
    MirroredCounters(ss[k], e);
    BL.LeastConnectionBalances(bs, nows, e, d, top, k);
  }
}
