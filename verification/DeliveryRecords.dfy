/**
 Queues and records, one command at a time: an id in a queue has a saved record, and it is in the queue of
 the priority stored there. This needs submitted ids to be new and retried or finished ids to be submitted.
 */
module DeliveryRecords {
  import opened Texts
  import opened RedisStores
  import opened Delivery

  /** The record exists and reads back. */
  ghost predicate Filed(s: Store, id: Text)
  {
    id in s.tasks && s.tasks[id] != map[] && Decode(id, s.tasks[id]).Some?
  }

  function Prio(s: Store, id: Text): Int32
    requires Filed(s, id)
  {
    Decode(id, s.tasks[id]).value.priority
  }

  /** `t` still has the record of `s`, possibly with other fields than the priority rewritten. */
  ghost predicate KeepsFile(s: Store, t: Store, id: Text)
  {
    Filed(s, id) ==> Filed(t, id) && Prio(t, id) == Prio(s, id)
  }

  lemma {:induction false} HSetKeepsFile(s: Store, id: Text, f: Field, v: Text, other: Text)
    requires f == PRIORITY ==> other != id
    requires Rewritten(TaskInfo([], 0, 0, [], 0, 0, 0, 0, 0, [], []), f, v).Some?
    ensures KeepsFile(s, s.HSet(id, f, v), other)
  {
    if Filed(s, other) && other == id {
      var t := Decode(id, s.tasks[id]).value;
      RewrittenDecodes(s.tasks[id], t, f, v);
      assert f in s.tasks[id][f := v];
    }
  }

  lemma HSetNumeralKeepsFile(s: Store, id: Text, f: Field, n: Int64, other: Text)
    requires f in {STATUS, STARTED_AT, FINISHED_AT, RETRY_COUNT}
    ensures KeepsFile(s, s.HSet(id, f, ToString(n)), other)
  {
    NumeralRoundTrip(n);
    HSetKeepsFile(s, id, f, ToString(n), other);
  }

  lemma SaveFiles(s: Store, t: TaskInfo)
    ensures Filed(s.SaveTask(t), t.id) && Prio(s.SaveTask(t), t.id) == t.priority
  {
    var h: Hash := if t.id in s.tasks then s.tasks[t.id] else map[];
    SavedHashHolds(h, t);
    HeldTaskDecodes(h + FieldsOf(t), t);
  }

  lemma CallStepKeepsFile(s: Store, c: Call, x: Inputs, id: Text)
    requires c.stage.Save? ==> c.id != id
    ensures KeepsFile(s, CallStep(s, c, x).0, id)
  {
    hide Decode, Rewritten, Stoi, Stoll, ToString;
    match c.stage
    case RetryWrite(_, current) =>
      var k := if current == [] then Some(0) else Stoi(current);
      if k.Some? {
        var n: int := k.value;
        HSetNumeralKeepsFile(s, c.id, RETRY_COUNT, n + 1, id);
      }
    case FinishStatus(status, _, _) => HSetNumeralKeepsFile(s, c.id, STATUS, status, id);
    case FinishError(_, text, _) => HSetTextKeepsFile(s, c.id, ERROR_MESSAGE, text, id);
    case FinishTime(_, _, _) => HSetNumeralKeepsFile(s, c.id, FINISHED_AT, x.now, id);
    case FinishResult(text, _) => HSetTextKeepsFile(s, c.id, RESULT, text, id);
    case _ =>
  }

  lemma HSetTextKeepsFile(s: Store, id: Text, f: Field, v: Text, other: Text)
    requires f in {ERROR_MESSAGE, RESULT, WORKER_ID}
    ensures KeepsFile(s, s.HSet(id, f, v), other)
  {
    HSetKeepsFile(s, id, f, v, other);
  }

  lemma LoopStepKeepsFile(s: Store, l: Loop, x: Inputs, id: Text)
    ensures KeepsFile(s, LoopNext(s, l, x).0, id)
    ensures id in LoopNext(s, l, x).0.tasks ==>
              id in s.tasks || ((l.AssignStatus? || l.AssignWorker? || l.AssignTime?) && l.id == id)
  {
    hide Decode, Rewritten, Stoi, Stoll, ToString;
    match l
    case AssignStatus(i, _) => HSetNumeralKeepsFile(s, i, STATUS, 1, id);
    case AssignWorker(i, w) => HSetTextKeepsFile(s, i, WORKER_ID, w, id);
    case AssignTime(i, _) => HSetNumeralKeepsFile(s, i, STARTED_AT, x.now, id);
    case _ =>
  }

  // ---------- the invariant ----------

  /** A queue holds the id only as the class of its stored priority. */
  ghost predicate QueuesFit(s: Store, id: Text)
  {
    forall c :: id in s.Queue(c) ==> Filed(s, id) && ClassOf(Prio(s, id)) == c
  }

  ghost predicate LoopFits(s: Store, l: Loop)
  {
    match l
    case AtHigh => true
    case AtMedium => true
    case AtLow => true
    case Pushing(id, priority) => Filed(s, id) && priority == Prio(s, id)
    case _ => Filed(s, l.id)
  }

  predicate LoopOn(l: Loop, id: Text)
  {
    !l.AtHigh? && !l.AtMedium? && !l.AtLow? && l.id == id
  }

  /** A submission that has not saved yet has no record; any other call has one, and pushes by its priority. */
  ghost predicate CallFits(s: Store, c: Call)
  {
    match c.stage
    case Save(t) => c.id !in s.tasks && t.retryCount == 0
    case PushNew(priority) => Filed(s, c.id) && priority == Prio(s, c.id)
    case RetryDelay(_, priority) => Filed(s, c.id) && priority == Prio(s, c.id)
    case RetryPush(priority) => Filed(s, c.id) && priority == Prio(s, c.id)
    case _ => Filed(s, c.id)
  }

  predicate Submits(g: Stage) { g.Save? || g.PushNew? }

  ghost predicate Submitter(p: Proto, t: nat, id: Text)
  {
    t in p.calls && p.calls[t].id == id && Submits(p.calls[t].stage)
  }

  /** At most one submission of the id is under way, and its push, made or to come, is the only one. */
  ghost predicate SubmittedOnce(p: Proto, id: Text)
  {
    && (forall t, u :: Submitter(p, t, id) && Submitter(p, u, id) ==> t == u)
    && p.submitted[id] <= 1
    && (id !in p.store.tasks ==> p.submitted[id] == 0)
    && (forall t :: Submitter(p, t, id) ==> p.submitted[id] == 0)
  }

  ghost predicate Records(p: Proto, id: Text)
  {
    && (id in p.store.tasks ==> Filed(p.store, id))
    && QueuesFit(p.store, id)
    && (LoopOn(p.loop, id) ==> LoopFits(p.store, p.loop))
    && (forall t :: t in p.calls && p.calls[t].id == id ==> CallFits(p.store, p.calls[t]))
  }

  /** A submission takes a new id; a retry or a completion names a saved task. */
  ghost predicate Proper(p: Proto, a: Action)
  {
    match a
    case StartSubmit(_, task) => task.id !in p.store.tasks && forall t :: t in p.calls ==> p.calls[t].id != task.id
    case StartRetry(_, id) => id in p.store.tasks
    case StartFinish(_, id, _, _) => id in p.store.tasks
    case _ => true
  }

  ghost predicate ProperRun(actions: seq<Action>)
  {
    actions == [] ||
    (ProperRun(actions[..|actions| - 1]) && Proper(Run(START, actions[..|actions| - 1]), actions[|actions| - 1]))
  }

  lemma CallStepQueue(s: Store, c: Call, x: Inputs, q: Class)
    ensures CallStep(s, c, x).0.Queue(q) ==
            s.Queue(q) + (if Pushes(c.stage) && ClassOf(c.stage.priority) == q then [c.id] else [])
  {
    if !Pushes(c.stage) { CallStepKeepsQueues(s, c, x); }
  }

  /** A command of a call on another task leaves this one's record alone. */
  lemma OtherCallStep(s: Store, c: Call, x: Inputs, id: Text)
    requires c.id != id
    ensures id in CallStep(s, c, x).0.tasks <==> id in s.tasks
    ensures id in s.tasks ==> CallStep(s, c, x).0.tasks[id] == s.tasks[id]
  {
    hide ToString, Stoi, Decode;
  }

  /** A command of a call on this task keeps its record, and its next stage fits it. */
  lemma OwnCallStep(s: Store, c: Call, x: Inputs)
    requires CallFits(s, c)
    ensures Filed(CallStep(s, c, x).0, c.id)
    ensures !c.stage.Save? ==> Prio(CallStep(s, c, x).0, c.id) == Prio(s, c.id)
  {
    hide ToString, Stoi, Stoll, Decode;
    if c.stage.Save? {
      SaveFiles(s, c.stage.task.(id := c.id));
    } else {
      CallStepKeepsFile(s, c, x, c.id);
    }
  }

  lemma OwnNextStage(s: Store, c: Call, x: Inputs)
    requires CallFits(s, c)
    ensures CallStep(s, c, x).1.Goes? ==> CallFits(CallStep(s, c, x).0, Call(c.id, CallStep(s, c, x).1.stage))
  {
    hide ToString, Stoi, Stoll, Decode;
    OwnCallStep(s, c, x);
    if c.stage.Save? { SaveFiles(s, c.stage.task.(id := c.id)); }
  }

  lemma CallFitsLasts(s: Store, t: Store, c: Call)
    requires CallFits(s, c) && KeepsFile(s, t, c.id) && (c.stage.Save? ==> c.id !in t.tasks)
    ensures CallFits(t, c)
  {
  }

  ghost predicate Sound(p: Proto, id: Text)
  {
    Records(p, id) && SubmittedOnce(p, id)
  }

  lemma AdvanceQueues(p: Proto, t: nat, x: Inputs, id: Text)
    requires Sound(p, id) && t in p.calls
    ensures QueuesFit(CallStep(p.store, p.calls[t], x).0, id)
    ensures id in CallStep(p.store, p.calls[t], x).0.tasks ==> Filed(CallStep(p.store, p.calls[t], x).0, id)
  {
    hide CallStep, Store.Queue, Decode;
    var c := p.calls[t];
    var s := CallStep(p.store, c, x).0;
    if c.id == id { OwnCallStep(p.store, c, x); } else { OtherCallStep(p.store, c, x, id); }
    forall q | id in s.Queue(q) ensures Filed(s, id) && ClassOf(Prio(s, id)) == q {
      CallStepQueue(p.store, c, x, q);
      if id !in p.store.Queue(q) { assert c.id == id; }
    }
  }

  lemma AdvanceCalls(p: Proto, t: nat, x: Inputs, id: Text, u: nat)
    requires Sound(p, id) && t in p.calls
    requires u in Next(p, Advance(t, x)).calls && Next(p, Advance(t, x)).calls[u].id == id
    ensures CallFits(CallStep(p.store, p.calls[t], x).0, Next(p, Advance(t, x)).calls[u])
  {
    hide CallStep, Store.Queue, Decode;
    var c := p.calls[t];
    if u == t {
      OwnNextStage(p.store, c, x);
    } else if c.id == id {
      assert c.stage.Save? && p.calls[u].stage.Save? ==> Submitter(p, t, id) && Submitter(p, u, id);
      OwnCallStep(p.store, c, x);
      CallFitsLasts(p.store, CallStep(p.store, c, x).0, p.calls[u]);
    } else {
      OtherCallStep(p.store, c, x, id);
      CallFitsLasts(p.store, CallStep(p.store, c, x).0, p.calls[u]);
    }
  }

  lemma CallStepSubmits(s: Store, c: Call, x: Inputs)
    ensures CallStep(s, c, x).1.Goes? && Submits(CallStep(s, c, x).1.stage) ==> c.stage.Save?
    ensures c.stage.Save? ==> CallStep(s, c, x).1.Goes? && c.id in CallStep(s, c, x).0.tasks
  {
  }

  lemma AdvanceSubmits(p: Proto, t: nat, x: Inputs, id: Text)
    requires Sound(p, id) && t in p.calls
    ensures SubmittedOnce(Next(p, Advance(t, x)), id)
  {
    hide CallStep, Store.Queue, Decode;
    var c := p.calls[t];
    var q := Next(p, Advance(t, x));
    CallStepSubmits(p.store, c, x);
    if c.id == id { OwnCallStep(p.store, c, x); } else { OtherCallStep(p.store, c, x, id); }
    forall u | Submitter(q, u, id) ensures Submitter(p, u, id) {}
    if c.stage.PushNew? && c.id == id { assert Submitter(p, t, id); }
  }

  lemma AdvanceSound(p: Proto, t: nat, x: Inputs, id: Text)
    requires Sound(p, id) && t in p.calls
    ensures Sound(Next(p, Advance(t, x)), id)
  {
    hide CallStep, Store.Queue, Decode, QueuesFit, CallFits, SubmittedOnce;
    var q := Next(p, Advance(t, x));
    AdvanceQueues(p, t, x, id);
    AdvanceSubmits(p, t, x, id);
    forall u | u in q.calls && q.calls[u].id == id ensures CallFits(q.store, q.calls[u]) {
      AdvanceCalls(p, t, x, id, u);
    }
    if LoopOn(p.loop, id) { AdvanceLoop(p, t, x, id); }
  }

  lemma AdvanceLoop(p: Proto, t: nat, x: Inputs, id: Text)
    requires Sound(p, id) && t in p.calls && LoopOn(p.loop, id)
    ensures LoopFits(CallStep(p.store, p.calls[t], x).0, p.loop)
  {
    hide CallStep, Store.Queue, Decode;
    if p.calls[t].id == id { OwnCallStep(p.store, p.calls[t], x); } else { OtherCallStep(p.store, p.calls[t], x, id); }
  }

  /** A loop command takes ids out of queues, except that a requeue puts the held one back by the priority it read. */
  lemma LoopStepQueue(s: Store, l: Loop, x: Inputs, id: Text, q: Class)
    requires id in LoopNext(s, l, x).0.Queue(q)
    ensures id in s.Queue(q) || (l.Pushing? && l.id == id && ClassOf(l.priority) == q)
  {
    hide ToString, Decode;
  }

  lemma LoopStepTasks(s: Store, l: Loop, x: Inputs, id: Text)
    requires !LoopOn(l, id)
    ensures id in LoopNext(s, l, x).0.tasks <==> id in s.tasks
    ensures id in s.tasks ==> LoopNext(s, l, x).0.tasks[id] == s.tasks[id]
  {
    hide ToString, Decode;
  }

  /** The loop comes to a task from a queue, or was on it before. */
  lemma LoopStepOn(s: Store, l: Loop, x: Inputs, id: Text)
    requires LoopOn(LoopNext(s, l, x).1, id) && !LoopOn(l, id)
    ensures exists q :: id in s.Queue(q)
    ensures LoopNext(s, l, x) == (LoopNext(s, l, x).0, Holding(id))
  {
    hide ToString, Decode;
    assert l.AtHigh? || l.AtMedium? || l.AtLow?;
    var q := if l.AtHigh? then HIGH else if l.AtMedium? then MEDIUM else LOW;
    assert id in s.Queue(q);
  }

  lemma LoopStepFits(s: Store, l: Loop, x: Inputs)
    requires !l.AtHigh? && !l.AtMedium? && !l.AtLow? && LoopFits(s, l)
    ensures LoopFits(LoopNext(s, l, x).0, LoopNext(s, l, x).1)
  {
    hide ToString, Decode;
    LoopStepKeepsFile(s, l, x, l.id);
  }

  lemma LoopStepSound(p: Proto, x: Inputs, id: Text)
    requires Sound(p, id)
    ensures Sound(Next(p, LoopStep(x)), id)
  {
    hide LoopNext, Store.Queue, Decode;
    var (s, l) := LoopNext(p.store, p.loop, x);
    LoopStepKeepsFile(p.store, p.loop, x, id);
    if !LoopOn(p.loop, id) { LoopStepTasks(p.store, p.loop, x, id); }
    forall q | id in s.Queue(q) ensures Filed(s, id) && ClassOf(Prio(s, id)) == q {
      LoopStepQueue(p.store, p.loop, x, id, q);
    }
    if LoopOn(l, id) {
      if LoopOn(p.loop, id) {
        LoopStepFits(p.store, p.loop, x);
      } else {
        LoopStepOn(p.store, p.loop, x, id);
      }
    }
    forall t | t in p.calls && p.calls[t].id == id ensures CallFits(s, p.calls[t]) {
      CallFitsLasts(p.store, s, p.calls[t]);
    }
    forall t | Submitter(Next(p, LoopStep(x)), t, id) ensures Submitter(p, t, id) {}
  }

  lemma StartSound(p: Proto, a: Action, id: Text)
    requires Sound(p, id) && Proper(p, a) && !a.Advance? && !a.LoopStep?
    ensures Sound(Next(p, a), id)
  {
    hide Decode, Store.Queue, QueuesFit;
    var q := Next(p, a);
    forall t | Submitter(q, t, id) ensures Submitter(p, t, id) || (a.StartSubmit? && t == a.thread) {}
  }

  /** Over every interleaving with fresh submissions, the record invariant holds for every id. */
  lemma {:induction false} RecordsStaySound(actions: seq<Action>, id: Text)
    requires ProperRun(actions)
    ensures Sound(Run(START, actions), id)
  {
    hide Next, Sound, Proper;
    if actions == [] {
      StartIsSound(id);
    } else {
      var p, a := Run(START, actions[..|actions| - 1]), actions[|actions| - 1];
      RecordsStaySound(actions[..|actions| - 1], id);
      StepSound(p, a, id);
    }
  }

  lemma StartIsSound(id: Text)
    ensures Sound(START, id)
  {
    hide Decode;
  }

  lemma StepSound(p: Proto, a: Action, id: Text)
    requires Sound(p, id) && Proper(p, a)
    ensures Sound(Next(p, a), id)
  {
    hide CallStep, LoopNext, Sound, Proper;
    match a
    case Advance(t, x) => if t in p.calls { AdvanceSound(p, t, x, id); }
    case LoopStep(x) => LoopStepSound(p, x, id);
    case _ => StartSound(p, a, id);
  }

  /** So at every moment an id in a queue has a record, in the queue of the priority stored there. */
  lemma QueuedTasksAreFiled(actions: seq<Action>, id: Text, c: Class)
    requires ProperRun(actions)
    ensures var s := Run(START, actions).store; id in s.Queue(c) ==> Filed(s, id) && ClassOf(Prio(s, id)) == c
  {
    hide Decode, Store.Queue, Run;
    RecordsStaySound(actions, id);
  }
}
