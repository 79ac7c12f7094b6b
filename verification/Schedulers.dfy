/**
 The scheduler's two background loops, one round at a time: taking a task to a worker, and marking
 workers whose heartbeat is overdue.
 */
module Schedulers {
  import opened Texts
  import opened RedisStores
  import opened RedisPools
  import opened Dispatching
  import LB = LoadBalancers

  /**
   What became of the task a dispatch round popped. Lost: the pool had no connection for what came next, which is
   the assignment to `worker`, or the requeue if that is "". Crashed: the record was malformed.
   */
  datatype Round =
    | Idle
    | Requeued(id: Text)
    | Dispatched(id: Text, worker: Text)
    | Lost(id: Text, worker: Text)
    | Crashed(id: Text, worker: Text)

  /** The values a round takes from outside: clocks, indeterminate memory, and whether each new connection succeeds. */
  datatype Inputs = Inputs(now: LB.Readings, wall: Int64, junk: TaskInfo,
                           popReachable: bool, pushReachable: bool, assignReachable: bool)

  /** Whether a new connection can be had for what follows the selection of `worker`. */
  function Reachable(x: Inputs, worker: Text): bool
  {
    if worker == [] then x.pushReachable else x.assignReachable
  }

  /** From `s` with leases `u` a round ends as `r` in `t` with leases `v`. */
  ghost predicate RoundEffect(s: System, u: seq<bool>, x: Inputs, r: Round, t: System, v: seq<bool>)
  {
    var (id, popped) := s.store.Pop();
    var afterPop := Settled(u, x.popReachable, false);
    var selected := System(popped, s.balancer.AfterSelect(x.now));
    if Granted(u, x.popReachable).None? then r == Idle && t == s && v == u
    else if id == [] then r == Idle && t == s.(store := popped) && v == afterPop
    else
      match r
      case Idle => false
      case Requeued(i) =>
        && i == id && s.balancer.IsChoice(id, x.now, [])
        && Granted(afterPop, x.pushReachable).Some? && popped.GetTask(id, x.junk).Some?
        && t == selected.(store := Repushed(popped, id, x.junk)) && v == Settled(afterPop, x.pushReachable, false)
      case Dispatched(i, w) =>
        && i == id && w != [] && s.balancer.IsChoice(id, x.now, w)
        && Granted(afterPop, x.assignReachable).Some?
        && (Done(true), t) == selected.Assign(id, w, x.wall, x.junk) && v == Settled(afterPop, x.assignReachable, false)
      case Lost(i, w) =>
        && i == id && s.balancer.IsChoice(id, x.now, w)
        && Granted(afterPop, Reachable(x, w)).None? && t == selected && v == afterPop
      case Crashed(i, w) =>
        && i == id && s.balancer.IsChoice(id, x.now, w)
        && Granted(afterPop, Reachable(x, w)).Some? && popped.GetTask(id, x.junk).None?
        && t == selected && v == Settled(afterPop, Reachable(x, w), true)
  }

  function Repushed(s: Store, id: Text, junk: TaskInfo): Store
    requires s.GetTask(id, junk).Some?
  {
    s.Push(s.GetTask(id, junk).value.priority, id)
  }

  /** No worker: the task goes to the tail of its own queue. */
  method PutBack(d: TaskDispatcher, id: Text, x: Inputs) returns (r: Round)
    requires d.Valid()
    modifies d.redisPool, d.redisPool.server
    ensures d.Valid()
    ensures r == if Granted(old(d.redisPool.inUse), x.pushReachable).None? then Lost(id, [])
                 else if old(d.View()).store.GetTask(id, x.junk).None? then Crashed(id, [])
                 else Requeued(id)
    ensures d.View() == if r.Requeued? then old(d.View()).(store := Repushed(old(d.View()).store, id, x.junk))
            else old(d.View())
    ensures d.redisPool.inUse == Settled(old(d.redisPool.inUse), x.pushReachable, r.Crashed?)
  {
    hide Decode, Stoll, ToString, Store.GetTask, Store.Push;
    ghost var s := d.View();
    var redis := d.redisPool.GetConnection(x.pushReachable);
    assert d.View() == s;
    if redis == null {
      return Lost(id, []);
    }
    var task := redis.server.GetTask(id, x.junk);
    if task.None? {
      return Crashed(id, []);
    }
    redis.server.PushToPriorityQueue(task.value.priority, id);
    ghost var after := d.View();
    assert after.balancer == s.balancer;
    assert after == s.(store := s.store.Push(task.value.priority, id));
    assert d.Valid();
    d.redisPool.ReturnConnection(redis);
    assert d.View() == after;
    return Requeued(id);
  }

  /** One round of the dispatch loop. */
  method DispatchRound(d: TaskDispatcher, x: Inputs) returns (r: Round)
    requires d.Valid()
    modifies d.redisPool, d.redisPool.server
    modifies d.loadBalancer`workers, d.loadBalancer`roundRobinIndex, d.loadBalancer.breakers.Values
    ensures d.Valid()
    ensures RoundEffect(old(d.View()), old(d.redisPool.inUse), x, r, d.View(), d.redisPool.inUse)
  {
    hide RoundEffect, Settled, Granted, Decode, Stoll;
    ghost var s, u := d.View(), d.redisPool.inUse;
    var id := d.PopNextTask(x.popReachable);
    ghost var popped, afterPop := d.View(), d.redisPool.inUse;
    if id == [] {
      IdleRound(s, u, x, popped, afterPop);
      return Idle;
    }
    assert popped == s.(store := s.store.Pop().1);
    var w := d.loadBalancer.SelectWorker(id, x.now);
    ghost var selected := d.View();
    assert selected == popped.(balancer := s.balancer.AfterSelect(x.now));
    assert d.redisPool.Valid() && d.redisPool.inUse == afterPop;
    if w == [] {
      r := PutBack(d, id, x);
      RequeueRound(s, u, x, r, d.View(), d.redisPool.inUse);
    } else {
      var outcome := d.AssignTaskToWorker(id, w, x.wall, x.junk, x.assignReachable);
      r := if outcome.Threw? then Crashed(id, w) else if outcome.ok then Dispatched(id, w) else Lost(id, w);
      AssignRound(s, u, x, w, outcome, r, d.View(), d.redisPool.inUse);
    }
  }

  lemma IdleRound(s: System, u: seq<bool>, x: Inputs, t: System, v: seq<bool>)
    requires v == Settled(u, x.popReachable, false)
    requires if Granted(u, x.popReachable).Some? then s.store.Pop().0 == []
             && t == s.(store := s.store.Pop().1) else t == s
    ensures RoundEffect(s, u, x, Idle, t, v)
  {
    hide Store.Pop;
  }

  lemma RequeueRound(s: System, u: seq<bool>, x: Inputs, r: Round, t: System, v: seq<bool>)
    requires var (id, popped) := s.store.Pop();
             var afterPop := Settled(u, x.popReachable, false);
             && Granted(u, x.popReachable).Some? && id != [] && s.balancer.IsChoice(id, x.now, [])
             && r == (if Granted(afterPop, x.pushReachable).None? then Lost(id, [])
                      else if popped.GetTask(id, x.junk).None? then Crashed(id, [])
                      else Requeued(id))
             && t == System(if r.Requeued? then Repushed(popped, id, x.junk) else popped, s.balancer.AfterSelect(x.now))
             && v == Settled(afterPop, x.pushReachable, r.Crashed?)
    ensures RoundEffect(s, u, x, r, t, v)
  {
    hide Store.Pop, Store.GetTask;
  }

  lemma AssignRound(s: System, u: seq<bool>, x: Inputs, w: Text, o: Outcome, r: Round, t: System, v: seq<bool>)
    requires var (id, popped) := s.store.Pop();
             var afterPop := Settled(u, x.popReachable, false);
             var selected := System(popped, s.balancer.AfterSelect(x.now));
             && Granted(u, x.popReachable).Some? && id != [] && w != [] && s.balancer.IsChoice(id, x.now, w)
             && (o, t) == (if Granted(afterPop, x.assignReachable).Some? then selected.Assign(id, w, x.wall, x.junk)
                           else (Done(false), selected))
             && r == (if o.Threw? then Crashed(id, w) else if o.ok then Dispatched(id, w) else Lost(id, w))
             && v == Settled(afterPop, x.assignReachable, o.Threw?)
    ensures RoundEffect(s, u, x, r, t, v)
  {
    hide Store.Pop, Store.GetTask;
  }

  /** The ids a round takes out of the queues for good. */
  function Taken(r: Round): multiset<Text>
  {
    match r
    case Idle => multiset{}
    case Requeued(_) => multiset{}
    case _ => multiset{r.id}
  }

  /**
   A round conserves tasks: what leaves the queues is the one task it dispatched, lost or crashed on; a requeue loses
   and duplicates nothing. It loses one only for want of a connection, crashes only on a malformed record, and is idle
   only for want of a connection or of a task.
   */
  lemma RoundConservesTasks(s: System, u: seq<bool>, x: Inputs, r: Round, t: System, v: seq<bool>)
    requires RoundEffect(s, u, x, r, t, v) && [] !in Queued(s.store)
    ensures Queued(t.store) + Taken(r) == Queued(s.store)
    ensures r.Idle? ==> Granted(u, x.popReachable).None? || Queued(s.store) == multiset{}
    ensures r.Lost? ==> Granted(Settled(u, x.popReachable, false), Reachable(x, r.worker)).None?
    ensures r.Crashed? ==> s.store.Pop().1.GetTask(r.id, x.junk).None?
  {
    hide Settled, Granted, Store.GetTask;
    var (id, popped) := s.store.Pop();
    PopTakesOne(s.store);
    PopEmptyHanded(s.store);
    match r
    case Requeued(_) =>
      PushAddsOne(popped, popped.GetTask(id, x.junk).value.priority, id);
    case _ =>
  }

  lemma PopEmptyHanded(s: Store)
    requires [] !in Queued(s)
    ensures s.Pop().0 == [] ==> Queued(s) == multiset{}
  {
    LPopTakesOne(s, HIGH);
    LPopTakesOne(s.LPop(HIGH).1, MEDIUM);
    LPopTakesOne(s.LPop(HIGH).1.LPop(MEDIUM).1, LOW);
  }

  const HEARTBEAT_TIMEOUT := 15000

  /**
   One round of the check loop over a snapshot of the workers: exactly those silent for more than 15 s become dead.
   */
  method CheckHeartbeats(lb: LB.LoadBalancer, now: int)
    requires lb.Valid()
    modifies lb`workers
    ensures lb.Valid()
    ensures lb.View() == old(lb.View()).(workers := Checked(old(lb.workers), old(lb.workers.Keys), now))
    ensures lb.workers.Keys == old(lb.workers).Keys
    ensures forall id :: id in lb.workers ==>
              var w := old(lb.workers)[id];
              lb.workers[id] == if now - w.lastHeartbeat > 15000 then w.(status := LB.DEAD) else w
  {
    hide Checked;
    var snapshot := lb.workers;
    var order := InOrder(snapshot.Keys);
    ghost var b := lb.View();
    ghost var seen: set<Text> := {};
    CheckedNone(snapshot, now);
    for i := 0 to |order|
      invariant lb.Valid() && seen == Elements(order[..i])
      invariant lb.View() == b.(workers := Checked(snapshot, seen, now))
    {
      NextElement(order, i);
      var id := order[i];
      if now - snapshot[id].lastHeartbeat > HEARTBEAT_TIMEOUT {
        lb.MarkWorkerDead(id);
      }
      CheckedNext(snapshot, seen, id, now);
      seen := seen + {id};
    }
    InOrderElements(snapshot.Keys);
    SilentAreDead(snapshot, now);
  }

  function Checked(workers: map<Text, LB.WorkerNode>, ids: set<Text>, now: int): map<Text, LB.WorkerNode>
  {
    map id | id in workers ::
      if id in ids && now - workers[id].lastHeartbeat > HEARTBEAT_TIMEOUT then workers[id].(status := LB.DEAD)
        else workers[id]
  }

  lemma CheckedNone(workers: map<Text, LB.WorkerNode>, now: int)
    ensures Checked(workers, {}, now) == workers
  {
  }

  lemma SilentAreDead(workers: map<Text, LB.WorkerNode>, now: int)
    ensures var after := Checked(workers, workers.Keys, now);
            && after.Keys == workers.Keys
            && forall id :: id in workers ==>
                 var w := workers[id]; after[id] == if now - w.lastHeartbeat > 15000 then w.(status := LB.DEAD) else w
  {
  }

  lemma CheckedNext(workers: map<Text, LB.WorkerNode>, ids: set<Text>, id: Text, now: int)
    requires id in workers && id !in ids
    ensures Checked(workers, ids + {id}, now) ==
            (if now - workers[id].lastHeartbeat > HEARTBEAT_TIMEOUT
             then Checked(workers, ids, now)[id := Checked(workers, ids, now)[id].(status := LB.DEAD)]
             else Checked(workers, ids, now))
  {
  }
}
