/**
 The dispatch protocol one command at a time: one Redis command, or one locked call on the balancer, is one step.
 Any number of threads run submissions, retries, completions and failures, interleaved in every way with each other,
 with the one dispatch loop and with operations on the balancer, which no lock prevents. Connections are always to be
 had here.
 */
module Delivery {
  import opened Texts
  import opened RedisStores
  import opened Dispatching
  import LB = LoadBalancers
  import BL = Balancing
  import CB = CircuitBreakers

  /** How far a call has got: the command it issues next, and what it remembers. */
  datatype Stage =
    | Save(task: TaskInfo)
    | PushNew(priority: int)
    | RetryRead
    | RetryWorker(count: int)
    | RetryLoad(count: int, worker: Text)
    | RetryRelease(count: int, worker: Text, load: int)
    | RetryGet(count: int, worker: Text)
    | RetryMirror(count: int, worker: Text, value: int)
    | RetryCount(count: int)
    | RetryWrite(count: int, current: Text)
    | RetryReread(count: int)
    | RetryDelay(count: int, priority: int)
    | RetryPush(priority: int)
    | FinishWorker(status: Int32, text: Text)
    | FinishStatus(status: Int32, text: Text, worker: Text)
    | FinishError(status: Int32, text: Text, worker: Text)
    | FinishTime(status: Int32, text: Text, worker: Text)
    | FinishResult(text: Text, worker: Text)
    | FinishLoad(status: Int32, worker: Text)
    | FinishRelease(status: Int32, worker: Text, load: int)
    | FinishGet(status: Int32, worker: Text)
    | FinishMirror(status: Int32, worker: Text, value: int)
    | FinishBreaker(status: Int32, worker: Text)

  /** After a command the call goes on, or it has ended: returned, or left by an exception. */
  datatype After = Goes(stage: Stage) | Ends(outcome: Outcome)

  /** A call in progress on one task: a submission, a retry, or a completion (status 2) or failure (3). */
  datatype Call = Call(id: Text, stage: Stage)

  /** Where the dispatch loop stands. */
  datatype Loop =
    | AtHigh | AtMedium | AtLow
    | Holding(id: Text)
    | Reading(id: Text)
    | Pushing(id: Text, priority: int)
    | AssignRead(id: Text, worker: Text)
    | AssignStatus(id: Text, worker: Text)
    | AssignWorker(id: Text, worker: Text)
    | AssignTime(id: Text, worker: Text)
    | AssignLoad(id: Text, worker: Text)
    | AssignGet(id: Text, worker: Text)
    | AssignMirror(id: Text, worker: Text, value: int)

  /**
   What a step may take from outside: the clocks, memory never initialised, and which allowed answer a selection gives.
   */
  datatype Inputs = Inputs(now: Int64, steady: int, readings: LB.Readings, junk: TaskInfo, answer: Text)

  datatype Action =
    | StartSubmit(thread: nat, task: TaskInfo)
    | StartRetry(thread: nat, id: Text)
    | StartFinish(thread: nat, id: Text, status: Int32, text: Text)
    | Advance(thread: nat, inputs: Inputs)
    | LoopStep(inputs: Inputs)
    | Balance(op: BL.Op)
    | SetStrategy(strategy: LB.Strategy)

  /**
   The counters are history: ids pushed by submissions, pushed by retries, taken to a worker, and how many empty ids
   were popped and so dropped.
   */
  datatype Proto = Proto(store: Store, balancer: LB.Balancer, loop: Loop, calls: map<nat, Call>,
                         submitted: multiset<Text>, retried: multiset<Text>, delivered: multiset<Text>, dropped: nat)

  const START := Proto(EMPTY, LB.Balancer(LB.LEAST_CONNECTION, map[], 0, map[]), AtHigh, map[],
                       multiset{}, multiset{}, multiset{}, 0)

  function Adjusted(s: Store, w: Text, d: int): Store
  {
    s.(loads := s.loads[w := s.LoadOf(w) + d])
  }

  /** HSET of the count read, plus one. */
  function WithCount(s: Store, id: Text, read: Int32): Store
  {
    var n: int := read;
    s.HSet(id, RETRY_COUNT, ToString(n + 1))
  }

  /** What one command of a call does to Redis, and how the call goes on. */
  function CallStep(s: Store, c: Call, x: Inputs): (Store, After)
  {
    var id := c.id;
    match c.stage
    case Save(t) => (s.SaveTask(t.(id := id)), Goes(PushNew(t.priority)))
    case PushNew(priority) => (s.Push(priority, id), Ends(Done(true)))
    case RetryRead =>
      (s, match s.GetTask(id, x.junk)
          case Some(t) => if t.retryCount >= 3 then Ends(Done(false)) else Goes(RetryWorker(t.retryCount))
          case None => Ends(Threw))
    case RetryWorker(n) =>
      (s, if s.HGet(id, WORKER_ID) == [] then Goes(RetryCount(n)) else Goes(RetryLoad(n, s.HGet(id, WORKER_ID))))
    case RetryLoad(n, w) => (s, if w in s.loads then Goes(RetryRelease(n, w, s.loads[w])) else Ends(Threw))
    case RetryRelease(n, w, load) => (if load > 0 then Adjusted(s, w, -1) else s, Goes(RetryGet(n, w)))
    case RetryGet(n, w) => (s, Goes(RetryMirror(n, w, s.LoadOf(w))))
    case RetryMirror(n, _, _) => (s, Goes(RetryCount(n)))
    case RetryCount(n) => (s, Goes(RetryWrite(n, s.HGet(id, RETRY_COUNT))))
    case RetryWrite(n, current) =>
      var k := if current == [] then Some(0) else Stoi(current);
      if k.None? then (s, Ends(Threw)) else (WithCount(s, id, k.value), Goes(RetryReread(n)))
    case RetryReread(n) =>
      (s, match s.GetTask(id, x.junk) case Some(t) => Goes(RetryDelay(n, t.priority)) case None => Ends(Threw))
    case RetryDelay(n, priority) =>
      (s.(backoffs := s.backoffs + [Backoff(id, Delay(n))]), Goes(RetryPush(priority)))
    case RetryPush(priority) => (s.Push(priority, id), Ends(Done(true)))
    case FinishWorker(status, text) => (s, Goes(FinishStatus(status, text, s.HGet(id, WORKER_ID))))
    case FinishStatus(status, text, w) => (s.HSet(id, STATUS, ToString(status)), Goes(FinishError(status, text, w)))
    case FinishError(status, text, w) =>
      (if status == 3 && text != [] then s.HSet(id, ERROR_MESSAGE, text) else s, Goes(FinishTime(status, text, w)))
    case FinishTime(status, text, w) =>
      (s.HSet(id, FINISHED_AT, ToString(x.now)),
       if status == 2 then Goes(FinishResult(text, w))
       else if w != [] then Goes(FinishLoad(status, w))
       else Ends(Done(true)))
    case FinishResult(text, w) =>
      (s.HSet(id, RESULT, text), if w != [] then Goes(FinishLoad(2, w)) else Ends(Done(true)))
    case FinishLoad(status, w) => (s, if w in s.loads then Goes(FinishRelease(status, w, s.loads[w])) else Ends(Threw))
    case FinishRelease(status, w, load) => (if load > 0 then Adjusted(s, w, -1) else s, Goes(FinishGet(status, w)))
    case FinishGet(status, w) => (s, Goes(FinishMirror(status, w, s.LoadOf(w))))
    case FinishMirror(status, w, _) => (s, Goes(FinishBreaker(status, w)))
    case FinishBreaker(_, _) => (s, Ends(Done(true)))
  }

  /** What it does to the balancer. */
  function CallTouch(b: LB.Balancer, c: Call, x: Inputs): LB.Balancer
  {
    match c.stage
    case RetryMirror(_, w, value) => b.WithLoad(w, value)
    case FinishMirror(_, w, value) => b.WithLoad(w, value)
    case FinishBreaker(status, w) => b.WithBreakerEvent(w, if status == 2 then CB.Success else CB.Failure(x.steady))
    case _ => b
  }

  /** One step of the dispatch loop on Redis. An unreadable record stops it where it stands. */
  function LoopNext(s: Store, l: Loop, x: Inputs): (Store, Loop)
  {
    match l
    case AtHigh => var (id, t) := s.LPop(HIGH); (t, if id != [] then Holding(id) else AtMedium)
    case AtMedium => var (id, t) := s.LPop(MEDIUM); (t, if id != [] then Holding(id) else AtLow)
    case AtLow => var (id, t) := s.LPop(LOW); (t, if id != [] then Holding(id) else AtHigh)
    case Holding(id) => (s, if x.answer == [] then Reading(id) else AssignRead(id, x.answer))
    case Reading(id) => (s, match s.GetTask(id, x.junk) case Some(t) => Pushing(id, t.priority) case None => l)
    case Pushing(id, priority) => (s.Push(priority, id), AtHigh)
    case AssignRead(id, w) => (s, if s.GetTask(id, x.junk).Some? then AssignStatus(id, w) else l)
    case AssignStatus(id, w) => (s.HSet(id, STATUS, ToString(1)), AssignWorker(id, w))
    case AssignWorker(id, w) => (s.HSet(id, WORKER_ID, w), AssignTime(id, w))
    case AssignTime(id, w) => (s.HSet(id, STARTED_AT, ToString(x.now)), AssignLoad(id, w))
    case AssignLoad(id, w) => (Adjusted(s, w, 1), AssignGet(id, w))
    case AssignGet(id, w) => (s, AssignMirror(id, w, s.LoadOf(w)))
    case AssignMirror(_, _, _) => (s, AtHigh)
  }

  /** And on the balancer. */
  function LoopTouch(b: LB.Balancer, l: Loop, x: Inputs): LB.Balancer
  {
    match l
    case Holding(_) => b.AfterSelect(x.readings)
    case AssignMirror(_, w, value) => b.WithLoad(w, value)
    case _ => b
  }

  /** The list the loop pops next. */
  function Popped(l: Loop): Class
  {
    if l.AtHigh? then HIGH else if l.AtMedium? then MEDIUM else LOW
  }

  /** The loop pops an empty id, which it takes for an empty list. */
  predicate Drops(s: Store, l: Loop)
  {
    (l.AtHigh? || l.AtMedium? || l.AtLow?) && s.Queue(Popped(l)) != [] && s.Queue(Popped(l))[0] == []
  }

  /** A selection answers what the balancer allows. */
  ghost predicate Allowed(b: LB.Balancer, l: Loop, x: Inputs)
  {
    l.Holding? ==> b.IsChoice(l.id, x.readings, x.answer)
  }

  /** An action that is not possible changes nothing. */
  ghost function Next(p: Proto, a: Action): Proto
  {
    match a
    case StartSubmit(t, task) =>
      if t in p.calls || task.retryCount != 0 then p else p.(calls := p.calls[t := Call(task.id, Save(task))])
    case StartRetry(t, id) =>
      if t in p.calls then p else p.(calls := p.calls[t := Call(id, RetryRead)])
    case StartFinish(t, id, status, text) =>
      if t in p.calls || status !in {2, 3} then p else p.(calls := p.calls[t := Call(id, FinishWorker(status, text))])
    case Advance(t, x) =>
      if t !in p.calls then p else
      var c := p.calls[t];
      var (s, d) := CallStep(p.store, c, x);
      p.(store := s, balancer := CallTouch(p.balancer, c, x),
         calls := if d.Goes? then p.calls[t := Call(c.id, d.stage)] else p.calls - {t},
         submitted := p.submitted + (if c.stage.PushNew? then multiset{c.id} else multiset{}),
         retried := p.retried + (if c.stage.RetryPush? then multiset{c.id} else multiset{}))
    case LoopStep(x) =>
      if !Allowed(p.balancer, p.loop, x) then p else
      var (s, l) := LoopNext(p.store, p.loop, x);
      p.(store := s, balancer := LoopTouch(p.balancer, p.loop, x), loop := l,
         delivered := p.delivered + (if p.loop.Holding? && l.AssignRead? then multiset{l.id} else multiset{}),
         dropped := p.dropped + if Drops(p.store, p.loop) then 1 else 0)
    case Balance(op) => p.(balancer := BL.Next(p.balancer, op))
    case SetStrategy(strategy) => p.(balancer := p.balancer.(strategy := strategy))
  }

  ghost function Run(p: Proto, actions: seq<Action>): Proto
  {
    if actions == [] then p else Next(Run(p, actions[..|actions| - 1]), actions[|actions| - 1])
  }

  // ---------- accounting ----------

  /** How often an id is queued. */
  function Times(s: Store, id: Text): nat
  {
    Queued(s)[id]
  }

  /** 1 for the task popped and not yet requeued or taken to a worker. */
  function Held(l: Loop, id: Text): nat
  {
    if (l.Holding? || l.Reading? || l.Pushing?) && l.id == id then 1 else 0
  }

  /** 1 for the task a loop step takes to a worker. */
  function Taken(l: Loop, m: Loop, id: Text): nat
  {
    if l.Holding? && m.AssignRead? && m.id == id then 1 else 0
  }

  predicate Pushes(g: Stage) { g.PushNew? || g.RetryPush? }

  /**
   However often the id was pushed, so often it is queued, held by the loop, or was taken to a worker; the empty id,
   which is no task's, was dropped instead.
   */
  ghost predicate Balanced(p: Proto, id: Text)
  {
    p.submitted[id] + p.retried[id] ==
      Times(p.store, id) + Held(p.loop, id) + p.delivered[id] + if id == [] then p.dropped else 0
  }

  lemma CallStepKeepsQueues(s: Store, c: Call, x: Inputs)
    requires !Pushes(c.stage)
    ensures var t := CallStep(s, c, x).0; t.high == s.high && t.medium == s.medium && t.low == s.low
  {
  }

  lemma CallStepTimes(s: Store, c: Call, x: Inputs, id: Text)
    ensures Times(CallStep(s, c, x).0, id) == Times(s, id) + (if Pushes(c.stage) && c.id == id then 1 else 0)
  {
    hide CallStep;
    CallStepPushes(s, c, x);
    if Pushes(c.stage) { PushAddsOne(s, c.stage.priority, c.id); } else { CallStepKeepsQueues(s, c, x); }
  }

  lemma CallStepPushes(s: Store, c: Call, x: Inputs)
    ensures Pushes(c.stage) ==> CallStep(s, c, x).0 == s.Push(c.stage.priority, c.id)
  {
  }

  lemma LPopTimes(s: Store, c: Class, id: Text)
    ensures var q := s.Queue(c);
            Times(s.LPop(c).1, id) + (if q != [] && q[0] == id then 1 else 0) == Times(s, id)
  {
    var q := s.Queue(c);
    if q != [] {
      assert q == [q[0]] + q[1..];
      assert multiset(q) == multiset{q[0]} + multiset(q[1..]);
    }
  }

  lemma LoopPops(s: Store, l: Loop, x: Inputs, id: Text)
    requires l.AtHigh? || l.AtMedium? || l.AtLow?
    ensures var (t, m) := LoopNext(s, l, x);
            Times(t, id) + Held(m, id) + (if id == [] && Drops(s, l) then 1 else 0) == Times(s, id)
  {
    hide Times;
    LPopTimes(s, Popped(l), id);
  }

  lemma LoopKeeps(s: Store, l: Loop, x: Inputs, id: Text)
    requires !l.AtHigh? && !l.AtMedium? && !l.AtLow?
    ensures var (t, m) := LoopNext(s, l, x); Times(t, id) + Held(m, id) + Taken(l, m, id) == Times(s, id) + Held(l, id)
  {
    hide ToString, Stoi, Decode;
    if l.Pushing? {
      PushAddsOne(s, l.priority, l.id);
    } else {
      var t := LoopNext(s, l, x).0;
      assert t.high == s.high && t.medium == s.medium && t.low == s.low;
    }
  }

  lemma LoopStepTimes(s: Store, l: Loop, x: Inputs, id: Text)
    ensures var (t, m) := LoopNext(s, l, x);
            Times(t, id) + Held(m, id) + Taken(l, m, id) + (if id == [] && Drops(s, l) then 1 else 0)
            == Times(s, id) + Held(l, id)
  {
    hide Times, LoopNext;
    if l.AtHigh? || l.AtMedium? || l.AtLow? { LoopPops(s, l, x, id); } else { LoopKeeps(s, l, x, id); }
  }

  lemma AdvanceBalances(p: Proto, t: nat, x: Inputs, id: Text)
    requires Balanced(p, id) && t in p.calls
    ensures Balanced(Next(p, Advance(t, x)), id)
  {
    hide CallStep, CallTouch, Times, Held;
    CallStepTimes(p.store, p.calls[t], x, id);
  }

  lemma LoopStepBalances(p: Proto, x: Inputs, id: Text)
    requires Balanced(p, id)
    ensures Balanced(Next(p, LoopStep(x)), id)
  {
    hide LoopNext, LoopTouch, Times, Held, Drops, Allowed;
    LoopStepTimes(p.store, p.loop, x, id);
  }

  /** Every step keeps the balance. */
  lemma StepBalances(p: Proto, a: Action, id: Text)
    requires Balanced(p, id)
    ensures Balanced(Next(p, a), id)
  {
    hide CallStep, LoopNext, CallTouch, LoopTouch, Times, Held, Drops, Allowed;
    match a
    case Advance(t, x) => if t in p.calls { AdvanceBalances(p, t, x, id); }
    case LoopStep(x) => LoopStepBalances(p, x, id);
    case _ =>
  }

  /** Over every interleaving of single commands, no task is lost and none is duplicated. */
  lemma {:induction false} DeliveryBalances(actions: seq<Action>, id: Text)
    ensures Balanced(Run(START, actions), id)
  {
    if actions == [] {
    } else {
      hide Next;
      DeliveryBalances(actions[..|actions| - 1], id);
      StepBalances(Run(START, actions[..|actions| - 1]), actions[|actions| - 1], id);
    }
  }
}
