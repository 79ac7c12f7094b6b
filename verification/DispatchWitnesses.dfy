/**
 Two short runs of whole calls after which a load counter is not the number of outstanding assignments.
 */
module DispatchWitnesses {
  import opened Texts
  import opened Division
  import opened RedisStores
  import opened Dispatching
  import opened DispatchRuns
  import opened DispatchRecords
  import LB = LoadBalancers

  const TASK: Text := [97]
  const OTHER: Text := [98]
  const WORKER: Text := [119]
  const ELSEWHERE: Text := [118]

  /** A request and the record it makes. */
  function Plain(id: Text): Request { Request(id, 0, 0, [], 0) }

  function Made(id: Text): TaskInfo { TaskInfo(id, 0, 0, [], 0, 0, 0, 0, 0, [], []) }

  /** One more call at the end of a run. */
  lemma OneMore(s: System, ops: seq<Op>, op: Op, w: Text)
    ensures var t, open := Run(s, ops), Outstanding(s, ops);
            && Run(s, ops + [op]) == Step(t, op).1
            && Outstanding(s, ops + [op]) == (if Takes(t, op).Some? then open[op.id := op.worker]
                                              else if Frees(t, op).Some? then open - {op.id} else open)
            && Stranded(s, ops + [op], w) ==
                 Stranded(s, ops, w) + (if Takes(t, op).Some? && op.id in HeldBy(open, w) then 1 else 0)
            && (Disciplined(s, ops + [op]) <==> Disciplined(s, ops) && (Frees(t, op).Some? ==> op.id in open))
    ensures Run(s, ops).store.LoadOf(w) >= 0 ==>
              Run(s, ops + [op]).store.LoadOf(w) == Max(0, Run(s, ops).store.LoadOf(w) + Delta(Run(s, ops), op, w))
  {
    hide Step, Takes, Frees, HeldBy;
    assert (ops + [op])[..|ops|] == ops;
    if Run(s, ops).store.LoadOf(w) >= 0 { LoadStep(Run(s, ops), op, w); }
  }

  /** A task submitted and assigned at the end of a run. */
  lemma SubmitAndAssign(s: System, ops: seq<Op>, id: Text, w: Text) returns (more: seq<Op>)
    requires id != [] && id !in Outstanding(s, ops) && Run(s, ops).store.LoadOf(w) >= 0
    ensures Run(s, more).store.LoadOf(w) == Run(s, ops).store.LoadOf(w) + 1
    ensures Outstanding(s, more) == Outstanding(s, ops)[id := w]
    ensures Reads(Run(s, more).store, Made(id).(status := 1)) && Run(s, more).store.HGet(id, WORKER_ID) == w
  {
    hide Run, Outstanding, Reads, System.Submit, System.Assign, Stranded, Disciplined;
    var submit, assign := Submit(Plain(id), 0, 0), Assign(id, w, 0, Made(id));
    OneMore(s, ops, submit, w);
    SubmitRecords(Run(s, ops), Plain(id), 0, 0);
    var so := ops + [submit];
    OneMore(s, so, assign, w);
    ReadsTakes(Run(s, so), Made(id), w);
    AssignRecords(Run(s, so), Made(id), w, 0, Made(id));
    more := so + [assign];
  }

  lemma ReadsTakes(s: System, t: TaskInfo, w: Text)
    requires Reads(s.store, t) && t.id != []
    ensures Takes(s, Assign(t.id, w, 0, Made(t.id))) == Some(w)
  {
    hide Decode;
  }

  lemma ReadsFrees(s: System, t: TaskInfo, w: Text)
    requires Reads(s.store, t) && s.store.HGet(t.id, WORKER_ID) == w
    ensures Frees(s, Fail(t.id, [], 0, 0)) == if w == [] then None else Some(w)
    ensures Frees(s, Retry(t.id, Made(t.id))) == if w == [] || t.retryCount >= 3 then None else Some(w)
  {
    hide Decode;
  }

  /** Failing and then retrying a task frees the slot of another that runs on: its worker counts as idle. */
  lemma {:induction false} FailAndRetryMiscounts(b: LB.Balancer)
    ensures exists ops ::
              Run(System(EMPTY, b), ops).store.LoadOf(WORKER) == 0
              && Outstanding(System(EMPTY, b), ops) == map[OTHER := WORKER]
  {
    hide Run, Outstanding, Reads, Step, Stranded, Disciplined, Takes, Frees;
    var s := System(EMPTY, b);
    NothingRun(s);
    var ops := SubmitAndAssign(s, [], OTHER, WORKER);
    ops := SubmitAndAssign(s, ops, TASK, WORKER);
    ops := FailAndRetry(s, ops, TASK, WORKER);
    assert Outstanding(s, ops) == map[OTHER := WORKER];
  }

  lemma NothingRun(s: System)
    ensures Run(s, []) == s && Outstanding(s, []) == map[] && Disciplined(s, [])
    ensures forall w :: Stranded(s, [], w) == 0
  {
  }

  /** A failure and a retry at the end of a run release the slot twice. */
  lemma FailAndRetry(s: System, ops: seq<Op>, id: Text, w: Text) returns (more: seq<Op>)
    requires id in Outstanding(s, ops) && w != [] && Run(s, ops).store.LoadOf(w) == 2
    requires Reads(Run(s, ops).store, Made(id).(status := 1)) && Run(s, ops).store.HGet(id, WORKER_ID) == w
    ensures Run(s, more).store.LoadOf(w) == 0 && Outstanding(s, more) == Outstanding(s, ops) - {id}
  {
    hide Run, Outstanding, Reads, System.Fail, System.Retry, Stranded, Disciplined, Takes, Frees;
    var fail, retry := Fail(id, [], 0, 0), Retry(id, Made(id));
    var t := Made(id).(status := 1);
    ReadsFrees(Run(s, ops), t, w);
    OnlyFrees(Run(s, ops), fail);
    OneMore(s, ops, fail, w);
    FailRecords(Run(s, ops), t, [], 0, 0);
    var so := ops + [fail];
    var u := t.(status := 3, finishedAt := 0);
    ReadsFrees(Run(s, so), u, w);
    OnlyFrees(Run(s, so), retry);
    OneMore(s, so, retry, w);
    more := so + [retry];
  }

  lemma OnlyFrees(s: System, op: Op)
    requires !op.Assign?
    ensures Takes(s, op) == None
  {
  }

  /** Retried while still queued and so assigned twice, a task leaves a slot that no release can name: all releases are
      disciplined and the first worker counts one task more than it has, for good. */
  lemma {:induction false} ReassignmentStrands(b: LB.Balancer)
    ensures exists ops ::
              && Disciplined(System(EMPTY, b), ops) && Outstanding(System(EMPTY, b), ops) == map[TASK := WORKER]
              && Run(System(EMPTY, b), ops).store.LoadOf(ELSEWHERE) == 1
              && Stranded(System(EMPTY, b), ops, ELSEWHERE) == 1
  {
    hide Run, Outstanding, Reads, Step, Stranded, Disciplined, Takes, Frees, HeldBy;
    var s := System(EMPTY, b);
    var so := QueuedTwice(s);
    var first, second := Assign(TASK, ELSEWHERE, 0, Made(TASK)), Assign(TASK, WORKER, 0, Made(TASK));
    var t := Made(TASK).(retryCount := 1);
    ReadsTakes(Run(s, so), t, ELSEWHERE);
    AssignFreesNone(Run(s, so), first);
    OneMore(s, so, first, ELSEWHERE);
    AssignedReads(Run(s, so), t, ELSEWHERE);
    var once := so + [first];
    ReadsTakes(Run(s, once), t.(status := 1), WORKER);
    AssignFreesNone(Run(s, once), second);
    OneMore(s, once, second, ELSEWHERE);
    HeldMember(Outstanding(s, once), TASK, ELSEWHERE);
    HeldMember(Outstanding(s, so), TASK, ELSEWHERE);
    var ops := once + [second];
    assert Outstanding(s, ops) == map[TASK := WORKER];
  }

  lemma AssignFreesNone(s: System, op: Op)
    requires op.Assign?
    ensures Frees(s, op) == None
  {
  }

  lemma AssignedReads(s: System, t: TaskInfo, w: Text)
    requires Reads(s.store, t) && t.id != []
    ensures Reads(Step(s, Assign(t.id, w, 0, Made(t.id))).1.store, t.(status := 1, startedAt := 0))
  {
    AssignRecords(s, t, w, 0, Made(t.id));
  }

  /** A task submitted and retried at once. */
  lemma QueuedTwice(s: System) returns (ops: seq<Op>)
    requires s.store == EMPTY
    ensures Disciplined(s, ops) && Outstanding(s, ops) == map[]
    ensures Reads(Run(s, ops).store, Made(TASK).(retryCount := 1))
    ensures Run(s, ops).store.LoadOf(ELSEWHERE) == 0 == Stranded(s, ops, ELSEWHERE)
  {
    hide Run, Outstanding, Reads, System.Submit, System.Retry, Stranded, Disciplined, Takes, Frees, HeldBy;
    var submit, retry := Submit(Plain(TASK), 0, 0), Retry(TASK, Made(TASK));
    NothingRun(s);
    OnlyFrees(s, submit);
    SubmitFreesNone(s, submit);
    OneMore(s, [], submit, ELSEWHERE);
    SubmitRecords(s, Plain(TASK), 0, 0);
    var t := Run(s, [] + [submit]);
    ReadsFrees(t, Made(TASK), []);
    OnlyFrees(t, retry);
    OneMore(s, [] + [submit], retry, ELSEWHERE);
    RetryRecords(t, Made(TASK), Made(TASK));
    ops := [] + [submit] + [retry];
  }

  lemma SubmitFreesNone(s: System, op: Op)
    requires op.Submit?
    ensures Frees(s, op) == None
  {
  }
}
