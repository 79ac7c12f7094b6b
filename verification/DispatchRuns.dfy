/**
 Runs of dispatcher calls and balancer operations, each call taken as one step, in any order: what the
 load counters, the balancer's mirror of them and the records hold at the end.
 */
module DispatchRuns {
  import opened Texts
  import opened Division
  import opened RedisStores
  import opened Dispatching
  import LB = LoadBalancers
  import BL = Balancing

  datatype Op =
    | Submit(request: Request, startedAt: Int64, finishedAt: Int64)
    | Pop
    | Assign(id: Text, worker: Text, now: Int64, junk: TaskInfo)
    | Complete(id: Text, result: Text, now: Int64)
    | Fail(id: Text, error: Text, now: Int64, steady: int)
    | Retry(id: Text, junk: TaskInfo)
    | Balance(op: BL.Op)

  function Step(s: System, op: Op): (Outcome, System)
  {
    match op
    case Submit(r, started, finished) => (Done(true), s.Submit(r, started, finished))
    case Pop => (Done(true), s.(store := s.store.Pop().1))
    case Assign(id, w, now, junk) => s.Assign(id, w, now, junk)
    case Complete(id, result, now) => s.Complete(id, result, now)
    case Fail(id, error, now, steady) => s.Fail(id, error, now, steady)
    case Retry(id, junk) => s.Retry(id, junk)
    case Balance(op) => (Done(true), s.(balancer := BL.Next(s.balancer, op)))
  }

  function Run(s: System, ops: seq<Op>): System
  {
    if ops == [] then s else Step(Run(s, ops[..|ops| - 1]), ops[|ops| - 1]).1
  }

  // ---------- the load counters ----------

  /** The worker whose slot the call frees: the one recorded, if the call gets that far. */
  function Frees(s: System, op: Op): Option<Text>
  {
    var w := if op.Complete? || op.Fail? || op.Retry? then s.store.HGet(op.id, WORKER_ID) else [];
    if w == [] then None
    else if op.Retry? && (s.store.GetTask(op.id, op.junk).None?
      || s.store.GetTask(op.id, op.junk).value.retryCount >= 3) then None
    else Some(w)
  }

  /** The worker whose load the call raises. */
  function Takes(s: System, op: Op): Option<Text>
  {
    if op.Assign? && s.store.GetTask(op.id, op.junk).Some? && op.id != [] then Some(op.worker) else None
  }

  /** +1 for an assignment to `w`, -1 for a release of `w`. */
  function Delta(s: System, op: Op, w: Text): int
  {
    if Takes(s, op) == Some(w) then 1 else if Frees(s, op) == Some(w) then -1 else 0
  }

  function Deltas(s: System, ops: seq<Op>, w: Text): seq<int>
  {
    if ops == [] then []
    else var before := ops[..|ops| - 1]; Deltas(s, before, w) + [Delta(Run(s, before), ops[|ops| - 1], w)]
  }

  function Sum(d: seq<int>): int
  {
    if d == [] then 0 else Sum(d[..|d| - 1]) + d[|d| - 1]
  }

  /** The counters after a call that frees a slot of `w`. */
  function Decrement(loads: map<Text, int>, w: Text): map<Text, int>
  {
    if w in loads && loads[w] > 0 then loads[w := loads[w] - 1] else loads
  }

  lemma WritesKeepLoads(s: Store, id: Text, status: Int32, text: Text, now: Int64, w: Text)
    ensures s.UpdateTaskStatus(id, status, text, now).loads == s.loads
    ensures s.HSet(id, RESULT, text).loads == s.loads
    ensures s.HSet(id, STATUS, text).HSet(id, WORKER_ID, w).HSet(id, STARTED_AT, text).loads == s.loads
    ensures s.IncrementTaskRetry(id).Some? ==> s.IncrementTaskRetry(id).value.loads == s.loads
    ensures s.Pop().1.loads == s.loads
  {
  }

  /** Only an assignment, and only a release, moves a counter. */
  lemma StepLoads(s: System, op: Op)
    ensures Step(s, op).1.store.loads ==
            match Takes(s, op)
            case Some(w) => s.store.Incremented(w).loads
            case None => match Frees(s, op)
                         case Some(w) => Decrement(s.store.loads, w)
                         case None => s.store.loads
  {
    match op
    case Submit(_, _, _) =>
    case Pop => WritesKeepLoads(s.store, [], 0, [], 0, []);
    case Balance(_) =>
    case Assign(id, w, now, _) => AssignLoads(s, op);
    case Complete(id, result, now) => CompleteLoads(s, op);
    case Fail(id, error, now, _) => FailLoads(s, op);
    case Retry(id, junk) => RetryLoads(s, op);
  }

  lemma AssignLoads(s: System, op: Op)
    requires op.Assign?
    ensures Step(s, op).1.store.loads ==
            if Takes(s, op).Some? then s.store.Incremented(op.worker).loads else s.store.loads
  {
    var t := s.store.HSet(op.id, STATUS, ToString(1)).HSet(op.id, WORKER_ID, op.worker)
                    .HSet(op.id, STARTED_AT, ToString(op.now));
    assert t.loads == s.store.loads;
    assert t.Incremented(op.worker).loads == s.store.Incremented(op.worker).loads;
  }

  lemma CompleteLoads(s: System, op: Op)
    requires op.Complete?
    ensures Step(s, op).1.store.loads ==
            if Frees(s, op).Some? then Decrement(s.store.loads, Frees(s, op).value) else s.store.loads
  {
    var t := s.store.UpdateTaskStatus(op.id, 2, [], op.now);
    WritesKeepLoads(s.store, op.id, 2, [], op.now, []);
    WritesKeepLoads(t, op.id, 2, op.result, op.now, []);
  }

  lemma FailLoads(s: System, op: Op)
    requires op.Fail?
    ensures Step(s, op).1.store.loads ==
            if Frees(s, op).Some? then Decrement(s.store.loads, Frees(s, op).value) else s.store.loads
  {
    WritesKeepLoads(s.store, op.id, 3, op.error, op.now, []);
  }

  lemma RequeueLoads(s: System, id: Text, retryCount: int, junk: TaskInfo)
    ensures s.Requeue(id, retryCount, junk).1.store.loads == s.store.loads
    ensures s.Requeue(id, retryCount, junk).1.balancer == s.balancer
  {
    WritesKeepLoads(s.store, id, 0, [], 0, []);
  }

  lemma RetryLoads(s: System, op: Op)
    requires op.Retry?
    ensures Step(s, op).1.store.loads ==
            if Frees(s, op).Some? then Decrement(s.store.loads, Frees(s, op).value) else s.store.loads
  {
    var t := s.store.GetTask(op.id, op.junk);
    var w := s.store.HGet(op.id, WORKER_ID);
    if t.Some? && t.value.retryCount < 3 {
      if w == [] {
        RequeueLoads(s, op.id, t.value.retryCount, op.junk);
      } else if w in s.store.loads {
        RequeueLoads(s.Released(w), op.id, t.value.retryCount, op.junk);
      }
    }
  }

  /** A counter goes up by one, or down by one but never below zero; no other counter moves. */
  lemma LoadStep(s: System, op: Op, w: Text)
    requires s.store.LoadOf(w) >= 0
    ensures Step(s, op).1.store.LoadOf(w) == Max(0, s.store.LoadOf(w) + Delta(s, op, w))
  {
    StepLoads(s, op);
  }

  lemma {:induction false} SuffixSums(d: seq<int>, x: int, k: nat)
    requires k <= |d|
    ensures Sum((d + [x])[k..]) == Sum(d[k..]) + x
  {
    assert (d + [x])[k..] == d[k..] + [x];
    assert (d[k..] + [x])[..|d[k..]|] == d[k..];
  }

  /** `n` is the largest sum over a suffix of `d`, the empty suffix included. */
  ghost predicate IsLargestSuffixSum(d: seq<int>, n: int)
  {
    && (exists k :: 0 <= k <= |d| && n == Sum(d[k..]))
    && (forall k :: 0 <= k <= |d| ==> Sum(d[k..]) <= n)
  }

  lemma {:induction false} LargestSuffixGrows(d: seq<int>, n: int, x: int)
    requires IsLargestSuffixSum(d, n)
    ensures IsLargestSuffixSum(d + [x], Max(0, n + x))
  {
    var e := d + [x];
    forall k | 0 <= k <= |d| ensures Sum(e[k..]) == Sum(d[k..]) + x {
      SuffixSums(d, x, k);
    }
    assert e[|e|..] == [];
    assert Sum(e[|e|..]) == 0;
    var k :| 0 <= k <= |d| && n == Sum(d[k..]);
    assert Sum(e[k..]) == n + x;
  }

  /** For every run from a zero counter, disciplined or not, a worker's load is the largest number by which
      assignments exceed releases over a final stretch of the run; so it is never negative. */
  lemma {:induction false} LoadIsLargestSuffix(s: System, ops: seq<Op>, w: Text)
    requires s.store.LoadOf(w) == 0
    ensures IsLargestSuffixSum(Deltas(s, ops, w), Run(s, ops).store.LoadOf(w))
    ensures Run(s, ops).store.LoadOf(w) >= 0
  {
    if ops == [] {
      assert Sum(Deltas(s, ops, w)[0..]) == 0;
    } else {
      var before, op := ops[..|ops| - 1], ops[|ops| - 1];
      LoadIsLargestSuffix(s, before, w);
      LoadStep(Run(s, before), op, w);
      LargestSuffixGrows(Deltas(s, before, w), Run(s, before).store.LoadOf(w), Delta(Run(s, before), op, w));
    }
  }

  // ---------- the balancer's mirror of the counters ----------

  /** The balancer, if it knows the worker, holds the same load for it as Redis. */
  ghost predicate InStep(s: System, w: Text)
  {
    w in s.balancer.workers ==> s.balancer.workers[w].currentLoad == s.store.LoadOf(w)
  }

  /**
   The balancer operation writes a load other than the counter, or introduces the worker while its counter is not 0.
   */
  ghost predicate Disturbs(s: System, op: BL.Op, w: Text)
  {
    match op
    case Load(id, load) => id == w && w in s.balancer.workers && load != s.store.LoadOf(w)
    case Reconcile(services, _) => w !in s.balancer.workers && w in LB.Listed(services) && s.store.LoadOf(w) != 0
    case _ => false
  }

  /** A balancer operation breaks agreement exactly in those two cases. */
  lemma MirrorBreaksExactly(s: System, op: BL.Op, w: Text)
    requires s.balancer.KeysAgree() && InStep(s, w)
    ensures InStep(Step(s, Balance(op)).1, w) <==> !Disturbs(s, op, w)
  {
    if op.Reconcile? { BL.ReconciliationIsExact(s.balancer, op.services, op.beats); }
  }

  /**
   The workers and loads a dispatcher call leaves in the balancer: the worker it touched, if known, gets the counter.
   */
  lemma CallMirrors(s: System, op: Op)
    requires !op.Balance?
    ensures var t := Step(s, op).1;
            var touched := if Takes(s, op).Some? then Takes(s, op) else Frees(s, op);
            t.balancer.workers == match touched
                                  case Some(w) => if op.Assign? || w in s.store.loads
                                                  then s.balancer.WithLoad(w, t.store.LoadOf(w)).workers
                                                    else s.balancer.workers
                                  case None => s.balancer.workers
  {
    StepLoads(s, op);
    if op.Retry? { RetryMirrors(s, op); }
  }

  lemma RetryMirrors(s: System, op: Op)
    requires op.Retry?
    ensures Step(s, op).1.balancer.workers == match Frees(s, op)
                                              case Some(w) => if w in s.store.loads
                                                then s.Released(w).balancer.workers else s.balancer.workers
                                              case None => s.balancer.workers
  {
    var t := s.store.GetTask(op.id, op.junk);
    var w := s.store.HGet(op.id, WORKER_ID);
    if t.Some? && t.value.retryCount < 3 {
      if w == [] {
        RequeueLoads(s, op.id, t.value.retryCount, op.junk);
      } else if w in s.store.loads {
        RequeueLoads(s.Released(w), op.id, t.value.retryCount, op.junk);
      }
    }
  }

  /** Every dispatcher call keeps every worker's mirror in step. */
  lemma CallsKeepMirror(s: System, op: Op, w: Text)
    requires !op.Balance? && InStep(s, w)
    ensures InStep(Step(s, op).1, w)
  {
    CallMirrors(s, op);
    StepLoads(s, op);
  }

  /** Neither overridden nor introduced with a non-zero counter during the run. */
  ghost predicate Undisturbed(s: System, ops: seq<Op>, w: Text)
  {
    ops == [] ||
    var op, before := ops[|ops| - 1], ops[..|ops| - 1];
    Undisturbed(s, before, w) && (op.Balance? ==> !Disturbs(Run(s, before), op.op, w))
  }

  lemma {:induction false} RunsKeepKeys(s: System, ops: seq<Op>)
    requires s.balancer.KeysAgree()
    ensures Run(s, ops).balancer.KeysAgree()
  {
    if ops == [] {
    } else {
      var before, op := ops[..|ops| - 1], ops[|ops| - 1];
      RunsKeepKeys(s, before);
      var t := Run(s, before);
      if op.Balance? {
        BL.KeysAlwaysAgree(t.balancer, [op.op]);
        assert [op.op][..0] == [];
        assert BL.Run(t.balancer, []) == t.balancer;
      } else {
        CallKeepsKeys(t, op);
      }
    }
  }

  lemma CallKeepsKeys(s: System, op: Op)
    requires !op.Balance? && s.balancer.KeysAgree()
    ensures Step(s, op).1.balancer.KeysAgree()
  {
    if op.Retry? {
      var t := s.store.GetTask(op.id, op.junk);
      var w := s.store.HGet(op.id, WORKER_ID);
      if t.Some? && t.value.retryCount < 3 {
        if w == [] {
          RequeueLoads(s, op.id, t.value.retryCount, op.junk);
        } else if w in s.store.loads {
          RequeueLoads(s.Released(w), op.id, t.value.retryCount, op.junk);
        }
      }
    }
  }

  /** After every call of such a run the balancer's load for the worker is the Redis counter. */
  lemma {:induction false} MirrorAgrees(s: System, ops: seq<Op>, w: Text)
    requires s.balancer.KeysAgree() && InStep(s, w) && Undisturbed(s, ops, w)
    ensures InStep(Run(s, ops), w)
  {
    if ops == [] {
    } else {
      var before, op := ops[..|ops| - 1], ops[|ops| - 1];
      MirrorAgrees(s, before, w);
      RunsKeepKeys(s, before);
      if op.Balance? {
        MirrorBreaksExactly(Run(s, before), op.op, w);
      } else {
        CallsKeepMirror(Run(s, before), op, w);
      }
    }
  }

  /** Selecting the least-loaded worker and assigning to it is the step the balance theorem is about. */
  lemma SelectThenAssignRaisesLeast(s: System, now: LB.Readings, e: set<Text>, r: Text, id: Text, wall: Int64,
        junk: TaskInfo)
    requires s.balancer.strategy == LB.LEAST_CONNECTION && s.balancer.EligibleSet(now) == e && r in e
    requires s.balancer.IsChoice([], now, r) && InStep(s, r)
    requires id != [] && s.store.GetTask(id, junk).Some?
    ensures var t := s.(balancer := s.balancer.AfterSelect(now)).Assign(id, r, wall, junk).1;
            BL.SelectsAndAssigns(s.balancer, now, e, t.balancer)
  {
    var u := s.(balancer := s.balancer.AfterSelect(now));
    var t := u.Assign(id, r, wall, junk).1;
    AssignLoads(u, Assign(id, r, wall, junk));
    assert t.store.LoadOf(r) == s.store.LoadOf(r) + 1;
    assert t.balancer == u.balancer.WithLoad(r, s.balancer.workers[r].currentLoad + 1);
  }

  // ---------- outstanding assignments ----------

  /** Tasks assigned and not yet released since, with their workers. Defined on the calls. */
  function Outstanding(s: System, ops: seq<Op>): map<Text, Text>
  {
    if ops == [] then map[] else
    var before, op := ops[..|ops| - 1], ops[|ops| - 1];
    var open, t := Outstanding(s, before), Run(s, before);
    if Takes(t, op).Some? then open[op.id := op.worker]
    else if Frees(t, op).Some? then open - {op.id}
    else open
  }

  /** Every release follows an assignment of its task, each at most one before the next assignment of it. */
  ghost predicate Disciplined(s: System, ops: seq<Op>)
  {
    ops == [] ||
    var before, op := ops[..|ops| - 1], ops[|ops| - 1];
    Disciplined(s, before) && (Frees(Run(s, before), op).Some? ==> op.id in Outstanding(s, before))
  }

  function HeldBy(open: map<Text, Text>, w: Text): set<Text>
  {
    set id | id in open && open[id] == w
  }

  lemma SubmitKeepsWorker(s: System, r: Request, started: Int64, finished: Int64, id: Text)
    ensures s.Submit(r, started, finished).store.HGet(id, WORKER_ID) == s.store.HGet(id, WORKER_ID)
  {
    hide ToString;
    var t := TaskInfo(r.id, r.kind, r.priority, r.data, r.createdAt, started, finished, 0, 0, [], []);
    if id == r.id { SavedHashHolds(if id in s.store.tasks then s.store.tasks[id] else map[], t); }
    assert s.Submit(r, started, finished).store.tasks == s.store.SaveTask(t).tasks;
  }

  lemma AssignSetsWorker(s: System, op: Op, id: Text)
    requires op.Assign?
    ensures Step(s, op).1.store.HGet(id, WORKER_ID) ==
            if Takes(s, op).Some? && id == op.id then op.worker else s.store.HGet(id, WORKER_ID)
  {
    var t := s.store.HSet(op.id, STATUS, ToString(1));
    FieldKeepsWorker(s.store, op.id, STATUS, ToString(1), id);
    FieldKeepsWorker(t.HSet(op.id, WORKER_ID, op.worker), op.id, STARTED_AT, ToString(op.now), id);
  }

  lemma FinishKeepsWorker(s: System, op: Op, id: Text)
    requires op.Complete? || op.Fail?
    ensures Step(s, op).1.store.HGet(id, WORKER_ID) == s.store.HGet(id, WORKER_ID)
  {
    if op.Complete? {
      StatusKeepsWorker(s.store, op.id, 2, [], op.now, id);
      FieldKeepsWorker(s.store.UpdateTaskStatus(op.id, 2, [], op.now), op.id, RESULT, op.result, id);
    } else {
      StatusKeepsWorker(s.store, op.id, 3, op.error, op.now, id);
    }
  }

  lemma RetryKeepsWorker(s: System, op: Op, id: Text)
    requires op.Retry?
    ensures Step(s, op).1.store.HGet(id, WORKER_ID) == s.store.HGet(id, WORKER_ID)
  {
    var t := s.store.GetTask(op.id, op.junk);
    var w := s.store.HGet(op.id, WORKER_ID);
    if t.Some? && t.value.retryCount < 3 {
      if w == [] {
        RequeueKeepsWorker(s, op.id, t.value.retryCount, op.junk, id);
      } else if w in s.store.loads {
        RequeueKeepsWorker(s.Released(w), op.id, t.value.retryCount, op.junk, id);
      }
    }
  }

  /** Which task's worker field a call can change: the one it assigns. */
  lemma WorkerFieldStep(s: System, op: Op, id: Text)
    ensures Step(s, op).1.store.HGet(id, WORKER_ID) ==
            if Takes(s, op).Some? && id == op.id then op.worker else s.store.HGet(id, WORKER_ID)
  {
    match op
    case Submit(r, started, finished) => SubmitKeepsWorker(s, r, started, finished, id);
    case Pop =>
    case Balance(_) =>
    case Assign(_, _, _, _) => AssignSetsWorker(s, op, id);
    case Retry(_, _) => RetryKeepsWorker(s, op, id);
    case _ => FinishKeepsWorker(s, op, id);
  }

  lemma FieldKeepsWorker(s: Store, id: Text, f: Field, v: Text, other: Text)
    ensures f != WORKER_ID ==> s.HSet(id, f, v).HGet(other, WORKER_ID) == s.HGet(other, WORKER_ID)
  {
  }

  lemma StatusKeepsWorker(s: Store, id: Text, status: Int32, error: Text, now: Int64, other: Text)
    ensures s.UpdateTaskStatus(id, status, error, now).HGet(other, WORKER_ID) == s.HGet(other, WORKER_ID)
  {
    var t := s.HSet(id, STATUS, ToString(status));
    var u := if error != [] then t.HSet(id, ERROR_MESSAGE, error) else t;
    FieldKeepsWorker(s, id, STATUS, ToString(status), other);
    FieldKeepsWorker(t, id, ERROR_MESSAGE, error, other);
    FieldKeepsWorker(u, id, FINISHED_AT, ToString(now), other);
  }

  lemma RequeueKeepsWorker(s: System, rid: Text, retryCount: int, junk: TaskInfo, id: Text)
    ensures s.Requeue(rid, retryCount, junk).1.store.HGet(id, WORKER_ID) == s.store.HGet(id, WORKER_ID)
  {
    hide ToString, Decode, Stoi, Store.HSet, Store.HGet, Store.GetTask;
    var current := s.store.HGet(rid, RETRY_COUNT);
    var n: int := if current == [] then 0 else if Stoi(current).Some? then Stoi(current).value else 0;
    FieldKeepsWorker(s.store, rid, RETRY_COUNT, ToString(n + 1), id);
    SameRecordsSameWorker(s.Requeue(rid, retryCount, junk).1.store, s.store.HSet(rid, RETRY_COUNT, ToString(n + 1)),
      id);
    SameRecordsSameWorker(s.Requeue(rid, retryCount, junk).1.store, s.store, id);
  }

  lemma SameRecordsSameWorker(s: Store, t: Store, id: Text)
    ensures s.tasks == t.tasks ==> s.HGet(id, WORKER_ID) == t.HGet(id, WORKER_ID)
  {
  }

  /** While an assignment is outstanding its record names its worker. */
  lemma {:induction false} OutstandingIsRecorded(s: System, ops: seq<Op>, id: Text)
    requires id in Outstanding(s, ops)
    ensures Run(s, ops).store.HGet(id, WORKER_ID) == Outstanding(s, ops)[id]
  {
    var before, op := ops[..|ops| - 1], ops[|ops| - 1];
    WorkerFieldStep(Run(s, before), op, id);
    if id in Outstanding(s, before) { OutstandingIsRecorded(s, before, id); }
  }

  /** How often a task was assigned again while its assignment to `w` was outstanding: no release can name that slot. */
  function Stranded(s: System, ops: seq<Op>, w: Text): nat
  {
    if ops == [] then 0 else
    var before, op := ops[..|ops| - 1], ops[|ops| - 1];
    Stranded(s, before, w) + if Takes(Run(s, before), op).Some?
      && op.id in HeldBy(Outstanding(s, before), w) then 1 else 0
  }

  /**
   Under that discipline a worker's Redis load is the number of its outstanding assignments and of the stranded ones.
   */
  lemma {:induction false} LoadCountsOutstanding(s: System, ops: seq<Op>, w: Text)
    requires s.store.LoadOf(w) == 0 && Disciplined(s, ops)
    ensures Run(s, ops).store.LoadOf(w) == |HeldBy(Outstanding(s, ops), w)| + Stranded(s, ops, w)
  {
    if ops == [] {
      assert HeldBy(Outstanding(s, ops), w) == {};
    } else {
      var before, op := ops[..|ops| - 1], ops[|ops| - 1];
      var open, t := Outstanding(s, before), Run(s, before);
      hide Step, HeldBy;
      LoadCountsOutstanding(s, before, w);
      LoadStep(t, op, w);
      if Takes(t, op).Some? {
        HeldAfterTake(open, op.id, op.worker, w);
      } else if Frees(t, op).Some? {
        OutstandingIsRecorded(s, before, op.id);
        HeldAfterFree(open, op.id, w);
        assert open[op.id] == Frees(t, op).value;
      }
    }
  }

  lemma HeldAfterFree(open: map<Text, Text>, id: Text, w: Text)
    ensures |HeldBy(open - {id}, w)| == |HeldBy(open, w)| - (if id in HeldBy(open, w) then 1 else 0)
  {
    assert HeldBy(open - {id}, w) == HeldBy(open, w) - {id};
  }

  lemma HeldAfterTake(open: map<Text, Text>, id: Text, v: Text, w: Text)
    ensures |HeldBy(open[id := v], w)| ==
            |HeldBy(open, w)| - (if id in HeldBy(open, w) then 1 else 0) + (if v == w then 1 else 0)
  {
    hide HeldBy;
    HeldAfterFree(open, id, w);
    HeldAfterNew(open - {id}, id, v, w);
    assert (open - {id})[id := v] == open[id := v];
  }

  lemma HeldAfterNew(open: map<Text, Text>, id: Text, v: Text, w: Text)
    requires id !in open
    ensures |HeldBy(open[id := v], w)| == |HeldBy(open, w)| + (if v == w then 1 else 0)
  {
    assert HeldBy(open[id := v], w) == HeldBy(open, w) + (if v == w then {id} else {});
  }

  /** The call assigns a task still outstanding on `w`, or releases a slot of `w` that nothing outstanding holds. */
  predicate Miscounts(s: System, open: map<Text, Text>, op: Op, w: Text)
  {
    if Takes(s, op).Some? then op.id in HeldBy(open, w)
    else Frees(s, op) == Some(w) && op.id !in HeldBy(open, w) && s.store.LoadOf(w) > 0
  }

  /** One call keeps the counter equal to the outstanding assignments if and only if it is neither of these. */
  lemma CallKeepsCountExactly(s: System, open: map<Text, Text>, op: Op, w: Text)
    requires s.store.LoadOf(w) == |HeldBy(open, w)|
    requires Frees(s, op).Some? && op.id in open ==> Frees(s, op).value == open[op.id]
    ensures var after := if Takes(s, op).Some? then open[op.id := op.worker]
                         else if Frees(s, op).Some? then open - {op.id} else open;
            Step(s, op).1.store.LoadOf(w) == |HeldBy(after, w)| <==> !Miscounts(s, open, op, w)
  {
    hide Step, HeldBy;
    LoadStep(s, op, w);
    if Takes(s, op).Some? {
      HeldAfterTake(open, op.id, op.worker, w);
    } else if Frees(s, op).Some? {
      HeldAfterFree(open, op.id, w);
      HeldMember(open, op.id, w);
    }
  }

  lemma HeldMember(open: map<Text, Text>, id: Text, w: Text)
    ensures id in HeldBy(open, w) <==> id in open && open[id] == w
    ensures id in HeldBy(open, w) ==> |HeldBy(open, w)| > 0
  {
  }

  /** The counter is the number of outstanding assignments after every call of the run. */
  ghost predicate AlwaysCounts(s: System, ops: seq<Op>, w: Text)
  {
    && (ops == [] || AlwaysCounts(s, ops[..|ops| - 1], w))
    && Run(s, ops).store.LoadOf(w) == |HeldBy(Outstanding(s, ops), w)|
  }

  ghost predicate NeverMiscounts(s: System, ops: seq<Op>, w: Text)
  {
    ops == [] ||
    var before, op := ops[..|ops| - 1], ops[|ops| - 1];
    NeverMiscounts(s, before, w) && !Miscounts(Run(s, before), Outstanding(s, before), op, w)
  }

  /** For every run, disciplined or not: the load counts the outstanding assignments throughout if and only if no call
      assigns a task outstanding on the worker and none releases a taken slot that nothing outstanding holds. */
  lemma {:induction false} CountsExactlyUnless(s: System, ops: seq<Op>, w: Text)
    requires s.store.LoadOf(w) == 0
    ensures AlwaysCounts(s, ops, w) <==> NeverMiscounts(s, ops, w)
  {
    if ops == [] {
      assert HeldBy(Outstanding(s, ops), w) == {};
    } else {
      hide Step, HeldBy, Miscounts;
      var before, op := ops[..|ops| - 1], ops[|ops| - 1];
      CountsExactlyUnless(s, before, w);
      if AlwaysCounts(s, before, w) {
        CountsNow(s, before, w);
        if Frees(Run(s, before), op).Some? {
          FreesRecorded(Run(s, before), op);
          if op.id in Outstanding(s, before) { OutstandingIsRecorded(s, before, op.id); }
        }
        CallKeepsCountExactly(Run(s, before), Outstanding(s, before), op, w);
      }
    }
  }

  lemma CountsNow(s: System, ops: seq<Op>, w: Text)
    requires AlwaysCounts(s, ops, w)
    ensures Run(s, ops).store.LoadOf(w) == |HeldBy(Outstanding(s, ops), w)|
  {
  }

  lemma FreesRecorded(s: System, op: Op)
    requires Frees(s, op).Some?
    ensures Frees(s, op).value == s.store.HGet(op.id, WORKER_ID)
  {
  }

  // ---------- no exception ----------

  /** The field, if present, holds what a reader of it accepts; a recorded worker has a counter. */
  ghost predicate FieldOk(s: Store, f: Field, v: Text)
  {
    match f
    case DATA => true
    case ERROR_MESSAGE => true
    case RESULT => true
    case WORKER_ID => v == [] || v in s.loads
    case RETRY_COUNT => Stoll(v).Some? && 0 <= Stoll(v).value <= 3
    case _ => Stoll(v).Some?
  }

  ghost predicate StoreOk(s: Store)
  {
    forall id, f :: id in s.tasks && f in s.tasks[id] ==> FieldOk(s, f, s.tasks[id][f])
  }

  lemma HSetOk(s: Store, id: Text, f: Field, v: Text)
    requires StoreOk(s) && FieldOk(s, f, v)
    ensures StoreOk(s.HSet(id, f, v))
  {
  }

  lemma HSetIntOk(s: Store, id: Text, f: Field, n: Int64)
    requires StoreOk(s) && f in {STATUS, STARTED_AT, FINISHED_AT}
    ensures StoreOk(s.HSet(id, f, ToString(n)))
  {
    NumeralRoundTrip(n);
    HSetOk(s, id, f, ToString(n));
  }

  lemma CountersOk(s: Store, loads: map<Text, int>)
    requires StoreOk(s) && s.loads.Keys <= loads.Keys
    ensures StoreOk(s.(loads := loads))
  {
  }

  lemma UpdateTaskStatusOk(s: Store, id: Text, status: Int32, error: Text, now: Int64)
    requires StoreOk(s)
    ensures StoreOk(s.UpdateTaskStatus(id, status, error, now))
  {
    var t := s.HSet(id, STATUS, ToString(status));
    var u := if error != [] then t.HSet(id, ERROR_MESSAGE, error) else t;
    HSetIntOk(s, id, STATUS, status);
    if error != [] { HSetOk(t, id, ERROR_MESSAGE, error); }
    HSetIntOk(u, id, FINISHED_AT, now);
  }

  lemma SavedFieldOk(s: Store, h: Hash, t: TaskInfo, f: Field)
    requires t.retryCount == 0 && f in h + FieldsOf(t)
    requires forall e :: e in h ==> FieldOk(s, e, h[e])
    ensures FieldOk(s, f, (h + FieldsOf(t))[f])
  {
    var g := h + FieldsOf(t);
    SavedHashHolds(h, t);
    HeldIntegers(g, t);
    assert f in g ==> GetInt(g, f) == Stoll(g[f]);
    if f == WORKER_ID { assert f in h && g[f] == h[f]; }
  }

  lemma SubmitOk(s: Store, t: TaskInfo)
    requires StoreOk(s) && t.retryCount == 0
    ensures StoreOk(s.SaveTask(t))
  {
    var h: Hash := if t.id in s.tasks then s.tasks[t.id] else map[];
    assert forall e :: e in h ==> FieldOk(s, e, h[e]);
    forall f | f in h + FieldsOf(t) ensures FieldOk(s, f, (h + FieldsOf(t))[f]) {
      SavedFieldOk(s, h, t, f);
    }
    SavedOverOk(s, t.id, h + FieldsOf(t));
  }

  lemma SavedOverOk(s: Store, id: Text, h: Hash)
    requires StoreOk(s) && forall f :: f in h ==> FieldOk(s, f, h[f])
    ensures StoreOk(s.(tasks := s.tasks[id := h]))
  {
  }

  lemma GetTaskOk(s: Store, id: Text, junk: TaskInfo)
    requires StoreOk(s)
    ensures s.GetTask(id, junk).Some?
    ensures id in s.tasks && s.tasks[id] != map[] ==>
              s.GetTask(id, junk).value.retryCount == if RETRY_COUNT in s.tasks[id]
                then Stoll(s.tasks[id][RETRY_COUNT]).value else 0
  {
    if id in s.tasks && s.tasks[id] != map[] {
      var h := s.tasks[id];
      assert forall f :: f in h ==> FieldOk(s, f, h[f]);
    }
  }

  lemma IncrementOk(s: Store, id: Text, junk: TaskInfo)
    requires StoreOk(s) && s.GetTask(id, junk).value.retryCount < 3
    ensures s.IncrementTaskRetry(id).Some? && StoreOk(s.IncrementTaskRetry(id).value)
  {
    hide ToString, Decode, Store.GetTask;
    GetTaskOk(s, id, junk);
    NumeralRoundTrip(1);
    if id in s.tasks && RETRY_COUNT in s.tasks[id] {
      var v := s.tasks[id][RETRY_COUNT];
      assert FieldOk(s, RETRY_COUNT, v);
      assert v != [];
      NumeralRoundTrip(Stoll(v).value + 1);
      HSetOk(s, id, RETRY_COUNT, ToString(Stoll(v).value + 1));
    } else {
      HSetOk(s, id, RETRY_COUNT, ToString(1));
    }
  }

  lemma AssignOk(s: System, op: Op)
    requires StoreOk(s.store) && op.Assign?
    ensures StoreOk(Step(s, op).1.store) && !Step(s, op).0.Threw?
  {
    GetTaskOk(s.store, op.id, op.junk);
    if op.id != [] {
      var c := s.store.Incremented(op.worker);
      CountersOk(s.store, c.loads);
      var c1 := c.HSet(op.id, STATUS, ToString(1));
      var c2 := c1.HSet(op.id, WORKER_ID, op.worker);
      HSetIntOk(c, op.id, STATUS, 1);
      HSetOk(c1, op.id, WORKER_ID, op.worker);
      HSetIntOk(c2, op.id, STARTED_AT, op.now);
      assert Step(s, op).1.store == c2.HSet(op.id, STARTED_AT, ToString(op.now));
    }
  }

  lemma RecordedWorkerCounted(s: Store, id: Text)
    requires StoreOk(s)
    ensures s.HGet(id, WORKER_ID) != [] ==> s.HGet(id, WORKER_ID) in s.loads
  {
    if id in s.tasks && WORKER_ID in s.tasks[id] {
      assert FieldOk(s, WORKER_ID, s.tasks[id][WORKER_ID]);
    }
  }

  lemma ReleasedOk(s: System, w: Text)
    requires StoreOk(s.store) && w in s.store.loads
    ensures StoreOk(s.Released(w).store)
  {
    CountersOk(s.store, s.store.Decremented(w).loads);
  }

  lemma FinishOk(s: System, op: Op)
    requires StoreOk(s.store) && (op.Complete? || op.Fail?)
    ensures StoreOk(Step(s, op).1.store) && !Step(s, op).0.Threw?
  {
    var w := s.store.HGet(op.id, WORKER_ID);
    RecordedWorkerCounted(s.store, op.id);
    var t := if op.Complete? then s.store.UpdateTaskStatus(op.id, 2, [], op.now).HSet(op.id, RESULT, op.result)
             else s.store.UpdateTaskStatus(op.id, 3, op.error, op.now);
    if op.Complete? {
      UpdateTaskStatusOk(s.store, op.id, 2, [], op.now);
      HSetOk(s.store.UpdateTaskStatus(op.id, 2, [], op.now), op.id, RESULT, op.result);
    } else {
      UpdateTaskStatusOk(s.store, op.id, 3, op.error, op.now);
    }
    assert t.loads == s.store.loads;
    if w != [] { ReleasedOk(s.(store := t), w); }
  }

  lemma RequeueOk(s: System, id: Text, retryCount: int, junk: TaskInfo)
    requires StoreOk(s.store) && s.store.GetTask(id, junk).Some? && s.store.GetTask(id, junk).value.retryCount < 3
    ensures StoreOk(s.Requeue(id, retryCount, junk).1.store) && !s.Requeue(id, retryCount, junk).0.Threw?
  {
    IncrementOk(s.store, id, junk);
    var t := s.store.IncrementTaskRetry(id).value;
    GetTaskOk(t, id, junk);
    assert s.Requeue(id, retryCount, junk).1.store.tasks == t.tasks
      && s.Requeue(id, retryCount, junk).1.store.loads == t.loads;
  }

  lemma RetryOk(s: System, op: Op)
    requires StoreOk(s.store) && op.Retry?
    ensures StoreOk(Step(s, op).1.store) && !Step(s, op).0.Threw?
  {
    GetTaskOk(s.store, op.id, op.junk);
    RecordedWorkerCounted(s.store, op.id);
    var t := s.store.GetTask(op.id, op.junk).value;
    var w := s.store.HGet(op.id, WORKER_ID);
    if t.retryCount < 3 {
      if w == [] {
        RequeueOk(s, op.id, t.retryCount, op.junk);
      } else {
        ReleasedOk(s, w);
        RequeueOk(s.Released(w), op.id, t.retryCount, op.junk);
      }
    }
  }

  /** From a sound store, such as the empty one, no call of any run throws: every numeral read parses, every recorded
      worker has a counter; so every connection taken is given back. */
  lemma {:induction false} NoCallThrows(s: System, ops: seq<Op>)
    requires StoreOk(s.store)
    ensures StoreOk(Run(s, ops).store)
    ensures ops != [] ==> !Step(Run(s, ops[..|ops| - 1]), ops[|ops| - 1]).0.Threw?
  {
    if ops == [] {
    } else {
      var before, op := ops[..|ops| - 1], ops[|ops| - 1];
      hide Step, StoreOk;
      NoCallThrows(s, before);
      StepOk(Run(s, before), op);
    }
  }

  lemma StepOk(s: System, op: Op)
    requires StoreOk(s.store)
    ensures StoreOk(Step(s, op).1.store) && !Step(s, op).0.Threw?
  {
    hide ToString, Stoll, Decode;
    match op
    case Submit(r, started, finished) =>
      var t := TaskInfo(r.id, r.kind, r.priority, r.data, r.createdAt, started, finished, 0, 0, [], []);
      SubmitOk(s.store, t);
      assert Step(s, op).1.store.tasks == s.store.SaveTask(t).tasks;
    case Pop => assert Step(s, op).1.store.tasks == s.store.tasks && Step(s, op).1.store.loads == s.store.loads;
    case Balance(_) =>
    case Assign(_, _, _, _) => AssignOk(s, op);
    case Retry(_, _) => RetryOk(s, op);
    case _ => FinishOk(s, op);
  }

  lemma EmptyStoreIsSound()
    ensures StoreOk(EMPTY)
  {
  }
}
