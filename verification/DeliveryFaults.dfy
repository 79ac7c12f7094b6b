/**
 Exceptions under every interleaving. An assignment records its worker before it counts it, so a release in between
 can read a counter that does not exist, and `std::stoll("")` throws. This is when it happens, and when it cannot.
 */
module DeliveryFaults {
  import opened Texts
  import opened RedisStores
  import opened Dispatching
  import opened Delivery
  import opened DeliveryRecords
  import opened DeliveryRetries
  import opened DeliveryLoads
  import LB = LoadBalancers
  import BL = Balancing

  /** The call remembers the worker. */
  predicate Carries(g: Stage, w: Text)
  {
    && (g.RetryLoad? || g.RetryRelease? || g.RetryGet? || g.RetryMirror? ||
        g.FinishStatus? || g.FinishError? || g.FinishTime? || g.FinishResult? ||
        g.FinishLoad? || g.FinishRelease? || g.FinishGet? || g.FinishMirror? || g.FinishBreaker?)
    && g.worker == w
  }

  /** The loop has recorded the task's worker and not yet counted the assignment. */
  predicate Uncounted(l: Loop, id: Text, w: Text)
  {
    (l.AssignTime? || l.AssignLoad?) && l.id == id && l.worker == w
  }

  /** The worker has a counter, or is just being assigned the task. */
  predicate Covered(p: Proto, id: Text, w: Text)
  {
    w == [] || w in p.store.loads || Uncounted(p.loop, id, w)
  }

  /** Every worker the task's record or a call on the task names is covered; a release names one. */
  ghost predicate Backed(p: Proto, id: Text)
  {
    && Covered(p, id, p.store.HGet(id, WORKER_ID))
    && (forall t, w :: t in p.calls && p.calls[t].id == id && Carries(p.calls[t].stage, w) ==> Covered(p, id, w))
    && (forall t :: t in p.calls && p.calls[t].id == id ==> !Reads(p.calls[t].stage, []))
  }

  lemma WriteKeepsWorker(s: Store, id: Text, f: Field, v: Text, other: Text)
    requires f != WORKER_ID
    ensures s.HSet(id, f, v).HGet(other, WORKER_ID) == s.HGet(other, WORKER_ID) && s.HSet(id, f, v).loads == s.loads
  {
  }

  lemma SaveKeepsWorker(s: Store, t: TaskInfo, other: Text)
    ensures s.SaveTask(t).HGet(other, WORKER_ID) == s.HGet(other, WORKER_ID) && s.SaveTask(t).loads == s.loads
  {
    hide ToString;
    SavedHashHolds(if t.id in s.tasks then s.tasks[t.id] else map[], t);
  }

  lemma SameTasksWorker(s: Store, t: Store, id: Text)
    requires s.tasks == t.tasks
    ensures s.HGet(id, WORKER_ID) == t.HGet(id, WORKER_ID)
  {
  }

  /** No command of a call removes a counter or changes a recorded worker. */
  lemma CallStepKeepsWorker(s: Store, c: Call, x: Inputs, id: Text)
    ensures s.loads.Keys <= CallStep(s, c, x).0.loads.Keys
    ensures CallStep(s, c, x).0.HGet(id, WORKER_ID) == s.HGet(id, WORKER_ID)
  {
    hide ToString, Stoi, Stoll, Decode, Store.HGet, Store.HSet, Store.SaveTask, Store.GetTask;
    var t := CallStep(s, c, x).0;
    if t.tasks == s.tasks { SameTasksWorker(s, t, id); }
    match c.stage
    case Save(task) => SaveKeepsWorker(s, task.(id := c.id), id);
    case RetryWrite(_, current) =>
      var k := if current == [] then Some(0) else Stoi(current);
      if k.Some? {
        var n: int := k.value;
        WriteKeepsWorker(s, c.id, RETRY_COUNT, ToString(n + 1), id);
      }
    case FinishStatus(status, _, _) => WriteKeepsWorker(s, c.id, STATUS, ToString(status), id);
    case FinishError(_, text, _) => WriteKeepsWorker(s, c.id, ERROR_MESSAGE, text, id);
    case FinishTime(_, _, _) => WriteKeepsWorker(s, c.id, FINISHED_AT, ToString(x.now), id);
    case FinishResult(text, _) => WriteKeepsWorker(s, c.id, RESULT, text, id);
    case _ =>
  }

  /** What a call remembers, it remembered or has just read. */
  lemma CallStepCarries(s: Store, c: Call, x: Inputs, w: Text)
    requires CallStep(s, c, x).1.Goes? && Carries(CallStep(s, c, x).1.stage, w)
    ensures Carries(c.stage, w) ||
            ((c.stage.FinishWorker? || c.stage.RetryWorker?) && s.HGet(c.id, WORKER_ID) == w)
  {
    hide ToString, Stoi, Stoll, Decode, Store.HGet, Store.HSet, Store.SaveTask, Store.Push, Store.GetTask;
  }

  /** A release names a worker. */
  lemma CallStepNames(s: Store, c: Call, x: Inputs)
    ensures CallStep(s, c, x).1.Goes? ==> !Reads(CallStep(s, c, x).1.stage, [])
  {
    hide ToString, Stoi, Stoll, Decode, Store.HGet, Store.HSet, Store.SaveTask, Store.Push, Store.GetTask;
  }

  lemma LoopStepWorker(s: Store, l: Loop, x: Inputs, id: Text)
    ensures var (t, m) := LoopNext(s, l, x);
            && s.loads.Keys <= t.loads.Keys
            && (t.HGet(id, WORKER_ID) == s.HGet(id, WORKER_ID) || Uncounted(m, id, t.HGet(id, WORKER_ID)))
            && (forall w :: Uncounted(l, id, w) ==> Uncounted(m, id, w) || w in t.loads)
  {
    hide ToString, Stoi, Stoll, Decode;
  }

  lemma AdvanceBacked(p: Proto, t: nat, x: Inputs, id: Text)
    requires Backed(p, id) && t in p.calls
    ensures Backed(Next(p, Advance(t, x)), id)
  {
    hide CallStep, CallTouch, Store.HGet, Carries, Reads;
    var c, q := p.calls[t], Next(p, Advance(t, x));
    CallStepKeepsWorker(p.store, c, x, id);
    forall u, w | u in q.calls && q.calls[u].id == id && Carries(q.calls[u].stage, w) ensures Covered(q, id, w) {
      if u == t {
        CallStepCarries(p.store, c, x, w);
        assert c.id == id;
      }
      assert Covered(p, id, w);
    }
    CallStepNames(p.store, c, x);
  }

  lemma StartBacked(p: Proto, a: Action, id: Text)
    requires Backed(p, id) && !a.Advance? && !a.LoopStep?
    ensures Backed(Next(p, a), id)
  {
    hide Store.HGet;
    var q := Next(p, a);
    assert q.store == p.store && q.loop == p.loop;
    forall u, w | u in q.calls && q.calls[u].id == id && Carries(q.calls[u].stage, w) ensures Covered(q, id, w) {
      assert u in p.calls && p.calls[u] == q.calls[u];
      assert Covered(p, id, w);
    }
  }

  lemma LoopStepBacked(p: Proto, x: Inputs, id: Text)
    requires Backed(p, id)
    ensures Backed(Next(p, LoopStep(x)), id)
  {
    hide LoopNext, LoopTouch, Store.HGet, Drops, Carries, Reads, Uncounted;
    var q := Next(p, LoopStep(x));
    LoopStepWorker(p.store, p.loop, x, id);
    forall u, w | u in q.calls && q.calls[u].id == id && Carries(q.calls[u].stage, w) ensures Covered(q, id, w) {
      assert Covered(p, id, w);
    }
  }

  lemma StepBacked(p: Proto, a: Action, id: Text)
    requires Backed(p, id)
    ensures Backed(Next(p, a), id)
  {
    hide Next, Backed;
    match a
    case Advance(t, x) => if t in p.calls { AdvanceBacked(p, t, x, id); } else { NoSuchThread(p, t, x); }
    case LoopStep(x) => LoopStepBacked(p, x, id);
    case _ => StartBacked(p, a, id);
  }

  /** Over every interleaving, whatever the callers do. */
  lemma {:induction false} WorkersStayBacked(actions: seq<Action>, id: Text)
    ensures Backed(Run(START, actions), id)
  {
    if actions == [] {
    } else {
      hide Next, Backed;
      WorkersStayBacked(actions[..|actions| - 1], id);
      StepBacked(Run(START, actions[..|actions| - 1]), actions[|actions| - 1], id);
    }
  }

  // ---------- which counters exist ----------

  /** The action counts an assignment to the worker. */
  predicate Counts(p: Proto, a: Action, w: Text)
  {
    a.LoopStep? && p.loop.AssignLoad? && p.loop.worker == w
  }

  ghost predicate CountedBefore(actions: seq<Action>, w: Text)
  {
    actions != [] &&
    (CountedBefore(actions[..|actions| - 1], w)
      || Counts(Run(START, actions[..|actions| - 1]), actions[|actions| - 1], w))
  }

  lemma StepCounters(p: Proto, a: Action, w: Text)
    requires forall t :: Releaser(p, t, w) ==> w in p.store.loads
    ensures w in Next(p, a).store.loads <==> w in p.store.loads || Counts(p, a, w)
    ensures forall t :: Releaser(Next(p, a), t, w) ==> w in Next(p, a).store.loads
  {
    hide CallStep, LoopNext, CallTouch, LoopTouch, Drops;
    var q := Next(p, a);
    if a.Advance? && a.thread in p.calls {
      var t := a.thread;
      assert Releasing(p.calls[t].stage, w) ==> Releaser(p, t, w);
      CallStepCounters(p.store, p.calls[t], a.inputs, w);
      forall u | Releaser(q, u, w) ensures w in q.store.loads { assert u != t ==> Releaser(p, u, w); }
    } else {
      if a.LoopStep? { LoopStepCounters(p.store, p.loop, a.inputs, w); }
      forall u | Releaser(q, u, w) ensures w in q.store.loads { assert Releaser(p, u, w); }
    }
  }

  lemma CallStepCounters(s: Store, c: Call, x: Inputs, w: Text)
    requires Releasing(c.stage, w) ==> w in s.loads
    ensures var (t, g) := CallStep(s, c, x);
            && (w in t.loads <==> w in s.loads)
            && (g.Goes? && Releasing(g.stage, w) ==> w in t.loads)
  {
    hide ToString, Stoi, Stoll, Decode, Store.HGet, Store.GetTask, FieldsOf;
  }

  lemma LoopStepCounters(s: Store, l: Loop, x: Inputs, w: Text)
    ensures w in LoopNext(s, l, x).0.loads <==> w in s.loads || (l.AssignLoad? && l.worker == w)
  {
    hide ToString, Stoi, Stoll, Decode;
  }

  /** A worker has a counter from its first counted assignment on, and not before. */
  lemma {:induction false} CounterExistsExactly(actions: seq<Action>, w: Text)
    ensures w in Run(START, actions).store.loads <==> CountedBefore(actions, w)
    ensures forall t :: Releaser(Run(START, actions), t, w) ==> w in Run(START, actions).store.loads
  {
    if actions == [] {
    } else {
      hide Next, Counts;
      CounterExistsExactly(actions[..|actions| - 1], w);
      StepCounters(Run(START, actions[..|actions| - 1]), actions[|actions| - 1], w);
    }
  }

  // ---------- when a call throws ----------

  /** A release of a task reads the counter between the recording and the counting of the worker's first assignment. */
  ghost predicate TooEarly(actions: seq<Action>, c: Call)
  {
    exists w :: Reads(c.stage, w) && Uncounted(Run(START, actions).loop, c.id, w) && !CountedBefore(actions, w)
  }

  /** The retry count read is no 32-bit numeral. */
  predicate Unreadable(c: Call)
  {
    c.stage.RetryWrite? && CountRead(c.stage.current).None?
  }

  lemma ThrowsAt(s: Store, c: Call, x: Inputs)
    requires CallFits(s, c)
    ensures CallStep(s, c, x).1 == Ends(Threw) <==>
            Unreadable(c) || (exists w :: Reads(c.stage, w) && w !in s.loads)
  {
    hide ToString, Stoi, Stoll, Decode;
    if c.stage.RetryLoad? || c.stage.FinishLoad? { assert Reads(c.stage, c.stage.worker); }
  }

  /**
   Over every interleaving with new submissions: the next command of a call throws if and only if it releases too
   early, or the count it read does not fit 32 bits.
   */
  lemma {:induction false} CallThrowsExactly(actions: seq<Action>, t: nat, x: Inputs)
    requires ProperRun(actions)
    ensures var p := Run(START, actions);
            t in p.calls ==>
              (CallStep(p.store, p.calls[t], x).1 == Ends(Threw) <==>
               TooEarly(actions, p.calls[t]) || Unreadable(p.calls[t]))
  {
    hide Run, ProperRun, CountedBefore, CallStep, Sound, Store.HGet, Reads;
    var p := Run(START, actions);
    if t in p.calls {
      var c := p.calls[t];
      RecordsStaySound(actions, c.id);
      CallOfSound(p, t, c.id);
      ThrowsAt(p.store, c, x);
      WorkersStayBacked(actions, c.id);
      forall w | Reads(c.stage, w)
        ensures w !in p.store.loads <==> Uncounted(p.loop, c.id, w) && !CountedBefore(actions, w)
      {
        CounterExistsExactly(actions, w);
        ReadIsCovered(p, t, w);
      }
    }
  }

  lemma ReadIsCovered(p: Proto, t: nat, w: Text)
    requires t in p.calls && Backed(p, p.calls[t].id) && Reads(p.calls[t].stage, w)
    ensures w != [] && Covered(p, p.calls[t].id, w)
  {
    hide Store.HGet;
    assert Carries(p.calls[t].stage, w);
  }

  lemma ReadsCarries(g: Stage, w: Text)
    ensures Reads(g, w) ==> Carries(g, w)
  {
  }

  /** The loop always gets on: no record it reads is malformed. */
  lemma {:induction false} LoopNeverStops(actions: seq<Action>, x: Inputs)
    requires ProperRun(actions)
    ensures LoopNext(Run(START, actions).store, Run(START, actions).loop, x).1 != Run(START, actions).loop
  {
    hide Run, ProperRun, Decode, ToString, Stoi;
    var p := Run(START, actions);
    if p.loop.Reading? || p.loop.AssignRead? { RecordsStaySound(actions, p.loop.id); }
  }

  /**
   A completion, failure or retry reads the recorded worker while the loop is recording and counting this very task.
   */
  predicate Early(p: Proto, a: Action)
  {
    && a.Advance? && a.thread in p.calls
    && (p.calls[a.thread].stage.FinishWorker? || p.calls[a.thread].stage.RetryWorker?)
    && (p.loop.AssignTime? || p.loop.AssignLoad?) && p.loop.id == p.calls[a.thread].id
  }

  /** Releases follow completed assignments. */
  ghost predicate NeverEarly(actions: seq<Action>)
  {
    actions == [] ||
    (NeverEarly(actions[..|actions| - 1]) && !Early(Run(START, actions[..|actions| - 1]), actions[|actions| - 1]))
  }

  /** Every worker a call remembers has a counter. */
  ghost predicate Provided(p: Proto)
  {
    forall t, w :: t in p.calls && Carries(p.calls[t].stage, w) && w != [] ==> w in p.store.loads
  }

  lemma StepProvided(p: Proto, a: Action)
    requires Provided(p) && !Early(p, a) && forall id :: Backed(p, id)
    ensures Provided(Next(p, a))
  {
    hide CallStep, LoopNext, CallTouch, LoopTouch, Store.HGet, Drops;
    var q := Next(p, a);
    if a.Advance? && a.thread in p.calls {
      var c := p.calls[a.thread];
      assert Backed(p, c.id);
      forall t, w | t in q.calls && Carries(q.calls[t].stage, w) && w != [] ensures w in q.store.loads {
        CallStepKeepsWorker(p.store, c, a.inputs, c.id);
        if t == a.thread { CallStepCarries(p.store, c, a.inputs, w); }
      }
    } else if a.LoopStep? {
      LoopStepWorker(p.store, p.loop, a.inputs, []);
    }
  }

  lemma {:induction false} NeverEarlyProvides(actions: seq<Action>)
    requires NeverEarly(actions)
    ensures Provided(Run(START, actions))
  {
    if actions != [] {
      hide Next, Backed, Provided, Early;
      var before := actions[..|actions| - 1];
      NeverEarlyProvides(before);
      forall id ensures Backed(Run(START, before), id) { WorkersStayBacked(before, id); }
      StepProvided(Run(START, before), actions[|actions| - 1]);
    } else {
      NothingToProvide();
    }
  }

  lemma NothingToProvide()
    ensures Provided(START)
  {
  }

  /** So with new submissions, retries of a task that do not overlap and releases that follow completed assignments, no
      call ever throws, whatever else interleaves. */
  lemma {:induction false} NoStepThrows(actions: seq<Action>, t: nat, x: Inputs)
    requires LoneRun(actions) && NeverEarly(actions)
    ensures var p := Run(START, actions); t in p.calls ==> CallStep(p.store, p.calls[t], x).1 != Ends(Threw)
  {
    hide Run, LoneRun, NeverEarly, CallStep, Sound, Store.HGet, Reads;
    var p := Run(START, actions);
    if t !in p.calls { return; }
    var c := p.calls[t];
    LoneIsProper(actions);
    RecordsStaySound(actions, c.id);
    CallOfSound(p, t, c.id);
    ThrowsAt(p.store, c, x);
    NeverEarlyProvides(actions);
    WorkersStayBacked(actions, c.id);
    forall w | Reads(c.stage, w) ensures w in p.store.loads {
      ReadIsCovered(p, t, w);
      ReadsCarries(c.stage, w);
    }
    if c.stage.RetryWrite? {
      LoneRunsStayOrderly(actions, c.id);
      CurrentReads(p, t, c.id);
    }
  }

  lemma CurrentReads(p: Proto, t: nat, id: Text)
    requires Orderly(p, id) && Sound(p, id) && t in p.calls && p.calls[t].id == id && p.calls[t].stage.RetryWrite?
    ensures CountRead(p.calls[t].stage.current).Some?
  {
    hide Count, CountRead, Decode;
    assert Retrier(p, t, id);
    CallOfSound(p, t, id);
    ReadsCount(p.store, id);
  }

  // ---------- both faults are reached ----------

  const ONE_WORKER: Text := [119]
  const ONE_ANSWER := INPUTS.(answer := ONE_WORKER)
  const REGISTERED := BL.Reconcile([LB.ServiceInfo(ONE_WORKER, [], 0)], _ => 0)

  /** A single registered worker is the choice. */
  lemma OneWorkerIsChosen()
    ensures BL.Next(START.balancer, REGISTERED).IsChoice(ONE_TASK, ONE_ANSWER.readings, ONE_WORKER)
    ensures ONE_WORKER in BL.Next(START.balancer, REGISTERED).workers
  {
    var b := BL.Next(START.balancer, REGISTERED);
    BL.ReconciliationIsExact(START.balancer, REGISTERED.services, REGISTERED.beats);
    assert REGISTERED.services[0] in REGISTERED.services;
    assert LB.Listed(REGISTERED.services) == {ONE_WORKER};
    assert b.Eligible(ONE_WORKER, ONE_ANSWER.readings);
    assert b.EligibleSet(ONE_ANSWER.readings) == {ONE_WORKER};
  }

  /** A step of the loop that only reads or writes the record. */
  lemma OneLoopStep(p: Proto, x: Inputs) returns (q: Proto)
    requires Reached(p) && Allowed(p.balancer, p.loop, x)
    ensures Reached(q) && q.calls == p.calls && (q.store, q.loop) == LoopNext(p.store, p.loop, x)
    ensures q.balancer == LoopTouch(p.balancer, p.loop, x)
  {
    hide LoopNext, LoopTouch, Reached, Allowed, Drops;
    Reach(p, LoopStep(x));
    q := Next(p, LoopStep(x));
  }

  lemma OneTaken() returns (p: Proto)
    ensures Reached(p) && p.loop == AssignRead(ONE_TASK, ONE_WORKER) && ONE_TASK in p.store.tasks
    ensures p.calls == map[] && p.store.loads == map[] && ONE_WORKER in p.balancer.workers
  {
    hide Reached, FreshlyReached, BL.Next, ToString, LB.Balancer.IsChoice, LB.Balancer.AfterSelect, Drops;
    p := OneSubmitted();
    FreshIsReached(p, ONE_TASK);
    Reach(p, Balance(REGISTERED));
    p := Next(p, Balance(REGISTERED));
    OneWorkerIsChosen();
    Reach(p, LoopStep(INPUTS));
    p := Next(p, LoopStep(INPUTS));
    assert p.loop == Holding(ONE_TASK);
    SelectKeepsWorkers(p.balancer, ONE_ANSWER.readings);
    p := OneLoopStep(p, ONE_ANSWER);
  }

  lemma SelectKeepsWorkers(b: LB.Balancer, now: LB.Readings)
    ensures b.AfterSelect(now).workers == b.workers
  {
  }

  /** The loop has recorded the worker of a task and not yet counted it. */
  lemma OneRecorded() returns (p: Proto)
    ensures Reached(p) && p.loop == AssignTime(ONE_TASK, ONE_WORKER) && ONE_TASK in p.store.tasks
    ensures p.store.HGet(ONE_TASK, WORKER_ID) == ONE_WORKER && p.calls == map[] && p.store.loads == map[]
    ensures ONE_WORKER in p.balancer.workers
  {
    hide Reached, ToString, Decode, Sound;
    p := OneTaken();
    ReachedIsSound(p, ONE_TASK);
    SoundTaskIsFiled(p, ONE_TASK);
    p := OneLoopStep(p, INPUTS);
    p := OneLoopStep(p, INPUTS);
    p := OneLoopStep(p, INPUTS);
  }

  /** A failure comes in on a free thread and writes the status. */
  lemma OneBeginsToFail(p: Proto, t: nat) returns (q: Proto)
    requires Reached(p) && t !in p.calls && ONE_TASK in p.store.tasks && p.store.HGet(ONE_TASK, WORKER_ID) == ONE_WORKER
    ensures Reached(q) && ONE_TASK in q.store.tasks && q.store.HGet(ONE_TASK, WORKER_ID) == ONE_WORKER
    ensures q.calls == p.calls[t := Call(ONE_TASK, FinishError(3, [], ONE_WORKER))]
    ensures q.store.loads == p.store.loads && q.loop == p.loop && q.balancer == p.balancer
  {
    hide Reached, ToString, Store.HGet, Store.HSet;
    Reach(p, StartFinish(t, ONE_TASK, 3, []));
    q := Next(p, StartFinish(t, ONE_TASK, 3, []));
    assert q == p.(calls := p.calls[t := Call(ONE_TASK, FinishWorker(3, []))]);
    q := OneAdvance(q, t);
    WriteKeepsWorker(q.store, ONE_TASK, STATUS, ToString(3), ONE_TASK);
    FiledAfter(q.store, STATUS, ToString(3));
    q := OneAdvance(q, t);
  }

  /** It goes on until it is about to read the counter. */
  lemma OneFails(p: Proto, t: nat) returns (q: Proto)
    requires Reached(p) && t !in p.calls && ONE_TASK in p.store.tasks && p.store.HGet(ONE_TASK, WORKER_ID) == ONE_WORKER
    ensures Reached(q) && ONE_TASK in q.store.tasks && q.store.HGet(ONE_TASK, WORKER_ID) == ONE_WORKER
    ensures q.calls == p.calls[t := Call(ONE_TASK, FinishLoad(3, ONE_WORKER))]
    ensures q.store.loads == p.store.loads && q.loop == p.loop && q.balancer == p.balancer
  {
    hide Reached, ToString, Store.HGet, Store.HSet;
    q := OneBeginsToFail(p, t);
    q := OneAdvance(q, t);
    WriteKeepsWorker(q.store, ONE_TASK, FINISHED_AT, ToString(0), ONE_TASK);
    FiledAfter(q.store, FINISHED_AT, ToString(0));
    q := OneAdvance(q, t);
  }

  lemma FiledAfter(s: Store, f: Field, v: Text)
    ensures ONE_TASK in s.HSet(ONE_TASK, f, v).tasks
  {
  }

  lemma OneAdvance(p: Proto, t: nat) returns (q: Proto)
    requires Reached(p) && t in p.calls && CallStep(p.store, p.calls[t], INPUTS).1.Goes?
    ensures Reached(q) && q.store == CallStep(p.store, p.calls[t], INPUTS).0 && q.loop == p.loop
    ensures q.calls == p.calls[t := Call(p.calls[t].id, CallStep(p.store, p.calls[t], INPUTS).1.stage)]
    ensures q.balancer == CallTouch(p.balancer, p.calls[t], INPUTS)
  {
    hide CallStep, CallTouch, Reached;
    Reach(p, Advance(t, INPUTS));
    q := Next(p, Advance(t, INPUTS));
  }

  /** A failure reported while its task is being assigned does throw. */
  lemma {:induction false} EarlyReleaseThrows()
    ensures exists actions :: ProperRun(actions) && 0 in Run(START, actions).calls
                              && CallStep(Run(START, actions).store, Run(START, actions).calls[0], INPUTS).1 ==
                                Ends(Threw)
  {
    hide Run, ProperRun;
    var p := OneRecorded();
    p := OneFails(p, 0);
    var actions :| ProperRun(actions) && Run(START, actions) == p;
  }

  /** A count beyond 32 bits is reached too, if enough retries have passed the guard: the next one to read it throws. */
  lemma {:induction false} CountOverflowThrows()
    ensures exists actions :: ProperRun(actions) && TWO_31 in Run(START, actions).calls &&
                              var c := Run(START, actions).calls[TWO_31];
                              Unreadable(c) && CallStep(Run(START, actions).store, c, INPUTS).1 == Ends(Threw)
  {
    hide Run, ProperRun, FreshlyReached, Reached, ToString, Stoll;
    var p := AllStop(TWO_31 + 1);
    p := AllInTurn(p, 0, TWO_31, TWO_31 + 1);
    FreshIsReached(p, ONE_TASK);
    NumeralRoundTrip(TWO_31);
    assert p.calls[TWO_31] == Call(ONE_TASK, PAST_GUARD);
    Reach(p, Advance(TWO_31, INPUTS));
    p := Next(p, Advance(TWO_31, INPUTS));
    assert p.calls[TWO_31] == Call(ONE_TASK, RetryWrite(0, ToString(TWO_31)));
    ReachedRun(p);
    var actions :| ProperRun(actions) && Run(START, actions) == p;
  }

  lemma ReachedRun(p: Proto)
    requires Reached(p)
    ensures exists actions :: ProperRun(actions) && Run(START, actions) == p
  {
  }

  /** The loop has counted the assignment. */
  lemma OneCounted() returns (p: Proto)
    ensures Reached(p) && ONE_TASK in p.store.tasks && p.store.HGet(ONE_TASK, WORKER_ID) == ONE_WORKER
    ensures p.calls == map[] && p.store.loads == map[ONE_WORKER := 1]
    ensures p.loop == AssignGet(ONE_TASK, ONE_WORKER) && ONE_WORKER in p.balancer.workers
  {
    hide Reached, ToString, Store.HGet, Store.HSet;
    p := OneRecorded();
    WriteKeepsWorker(p.store, ONE_TASK, STARTED_AT, ToString(0), ONE_TASK);
    FiledAfter(p.store, STARTED_AT, ToString(0));
    p := OneLoopStep(p, INPUTS);
    var counted := p.store;
    p := OneLoopStep(p, INPUTS);
    SameTasksWorker(counted, p.store, ONE_TASK);
  }

  /** Two releases of a worker's last slot, one read before the other acts, do make its counter negative. */
  lemma {:induction false} LastSlotFreedTwice()
    ensures exists actions :: ProperRun(actions) && Run(START, actions).store.LoadOf(ONE_WORKER) < 0
  {
    hide Run, ProperRun, Next, Store.HGet;
    var p := OneCounted();
    p := OneFails(p, 0);
    p := OneFails(p, 1);
    OverlapGoesNegativeExactlyAtOne(p, 0, 1, ONE_WORKER, INPUTS);
    Reach(p, Advance(0, INPUTS));
    var q := Next(p, Advance(0, INPUTS));
    Reach(q, Advance(1, INPUTS));
    var r := Next(q, Advance(1, INPUTS));
    Reach(r, Advance(0, INPUTS));
    Reach(Next(r, Advance(0, INPUTS)), Advance(1, INPUTS));
    var actions :| ProperRun(actions) && Run(START, actions) == BothReadFirst(p, 0, 1, INPUTS);
  }
}
