/**
 The task dispatcher: each call leases a connection, works on the task's record, the queues and the load
 counters, and keeps the balancer's load mirror and breakers in step. `System` is the value of all of that
 except the pool; the step functions say what one call, run without interruption, answers and leaves.
 */
module Dispatching {
  import opened Texts
  import opened Bits
  import opened RedisStores
  import opened RedisPools
  import LB = LoadBalancers
  import CB = CircuitBreakers

  /** What a call gives its caller: a value, or an exception. */
  datatype Outcome = Done(ok: bool) | Threw

  datatype Request = Request(id: Text, kind: Int32, priority: Int32, data: Text, createdAt: Int64)

  datatype System = System(store: Store, balancer: LB.Balancer) {

    /** The record a submission writes; two of its integers are never initialised. */
    function Submit(r: Request, startedAt: Int64, finishedAt: Int64): System
    {
      var t := TaskInfo(r.id, r.kind, r.priority, r.data, r.createdAt, startedAt, finishedAt, 0, 0, [], []);
      this.(store := store.SaveTask(t).Push(r.priority, r.id))
    }

    /** The worker's counter is what the balancer's mirror says from now on. */
    function Mirrored(w: Text): System
    {
      this.(balancer := balancer.WithLoad(w, store.LoadOf(w)))
    }

    function Released(w: Text): System
      requires w in store.loads
    {
      this.(store := store.Decremented(w)).Mirrored(w)
    }

    function Assign(id: Text, w: Text, now: Int64, junk: TaskInfo): (Outcome, System)
    {
      if store.GetTask(id, junk).None? then (Threw, this)
      else if id == [] then (Done(false), this)
      else
        var s := store.HSet(id, STATUS, ToString(1)).HSet(id, WORKER_ID, w).HSet(id, STARTED_AT, ToString(now));
        (Done(true), this.(store := s.Incremented(w)).Mirrored(w))
    }

    function Complete(id: Text, result: Text, now: Int64): (Outcome, System)
    {
      var w := store.HGet(id, WORKER_ID);
      var s := this.(store := store.UpdateTaskStatus(id, 2, [], now).HSet(id, RESULT, result));
      if w == [] then (Done(true), s)
      else if w !in store.loads then (Threw, s)
      else
        var t := s.Released(w);
        (Done(true), t.(balancer := t.balancer.WithBreakerEvent(w, CB.Success)))
    }

    /** `steady` is the breaker's clock reading. */
    function Fail(id: Text, error: Text, now: Int64, steady: int): (Outcome, System)
    {
      var w := store.HGet(id, WORKER_ID);
      var s := this.(store := store.UpdateTaskStatus(id, 3, error, now));
      if w == [] then (Done(true), s)
      else if w !in store.loads then (Threw, s)
      else
        var t := s.Released(w);
        (Done(true), t.(balancer := t.balancer.WithBreakerEvent(w, CB.Failure(steady))))
    }

    /** The second half of a retry: count it, note its delay, queue the task again. */
    function Requeue(id: Text, retryCount: int, junk: TaskInfo): (Outcome, System)
    {
      match store.IncrementTaskRetry(id)
      case None => (Threw, this)
      case Some(s) =>
        match s.GetTask(id, junk)
        case None => (Threw, this.(store := s))
        case Some(t) =>
          (Done(true), this.(store :=
            s.(backoffs := s.backoffs + [Backoff(id, Delay(retryCount))]).Push(t.priority, id)))
    }

    function Retry(id: Text, junk: TaskInfo): (Outcome, System)
    {
      match store.GetTask(id, junk)
      case None => (Threw, this)
      case Some(t) =>
        if t.retryCount >= 3 then (Done(false), this) else
        var w := store.HGet(id, WORKER_ID);
        if w == [] then Requeue(id, t.retryCount, junk)
        else if w !in store.loads then (Threw, this)
        else Released(w).Requeue(id, t.retryCount, junk)
    }
  }

  /** `1 << retryCount`; the shift is not defined for a negative count, which no stored record has. */
  function Delay(retryCount: int): int
  {
    if retryCount < 0 then 0 else Pow2(retryCount)
  }

  class TaskDispatcher {
    const redisPool: RedisPool
    const loadBalancer: LB.LoadBalancer

    ghost predicate Valid()
      reads this, redisPool, redisPool.pool, loadBalancer, loadBalancer.breakers.Values
    {
      redisPool.Valid() && loadBalancer.Valid()
    }

    ghost function View(): System
      reads this, redisPool.server, loadBalancer, loadBalancer.breakers.Values
    {
      System(redisPool.server.View(), loadBalancer.View())
    }

    constructor (redisPool: RedisPool, loadBalancer: LB.LoadBalancer)
      requires redisPool.Valid() && loadBalancer.Valid()
      ensures this.redisPool == redisPool && this.loadBalancer == loadBalancer && Valid()
    {
      this.redisPool := redisPool;
      this.loadBalancer := loadBalancer;
    }

    method SubmitTask(task: Request, startedAt: Int64, finishedAt: Int64, reachable: bool) returns (ok: bool)
      requires Valid()
      modifies redisPool, redisPool.server
      ensures Valid() && redisPool.inUse == Settled(old(redisPool.inUse), reachable, false)
      ensures ok <==> Granted(old(redisPool.inUse), reachable).Some?
      ensures View() == if ok then old(View()).Submit(task, startedAt, finishedAt) else old(View())
    {
      hide System.Submit;
      var redis := redisPool.GetConnection(reachable);
      if redis == null {
        return false;
      }
      Submit(redis.server, task, startedAt, finishedAt);
      redisPool.ReturnConnection(redis);
      return true;
    }

    method PopNextTask(reachable: bool) returns (id: Text)
      requires Valid()
      modifies redisPool, redisPool.server
      ensures Valid() && redisPool.inUse == Settled(old(redisPool.inUse), reachable, false)
      ensures if Granted(old(redisPool.inUse), reachable).Some?
              then (id, View()) == (old(View()).store.Pop().0, old(View()).(store := old(View()).store.Pop().1))
              else id == [] && View() == old(View())
    {
      hide Store.Pop;
      var redis := redisPool.GetConnection(reachable);
      if redis == null {
        return [];
      }
      assert View() == old(View());
      id := redis.server.PopFromPriorityQueue();
      ghost var after := View();
      assert after.balancer == old(View()).balancer;
      redisPool.ReturnConnection(redis);
      assert View() == after;
    }

    method AssignTaskToWorker(id: Text, w: Text, now: Int64, junk: TaskInfo, reachable: bool) returns (r: Outcome)
      requires Valid()
      modifies redisPool, redisPool.server, loadBalancer`workers
      ensures Valid() && redisPool.inUse == Settled(old(redisPool.inUse), reachable, r.Threw?)
      ensures (r, View()) == if Granted(old(redisPool.inUse), reachable).Some? then old(View()).Assign(id, w, now, junk)
                             else (Done(false), old(View()))
    {
      hide System.Assign;
      var redis := redisPool.GetConnection(reachable);
      if redis == null {
        return Done(false);
      }
      assert View() == old(View());
      r := Assign(redis.server, id, w, now, junk);
      ghost var after := View();
      assert Valid();
      if !r.Threw? {
        redisPool.ReturnConnection(redis);
      }
      assert View() == after;
    }

    method CompleteTask(id: Text, result: Text, now: Int64, reachable: bool) returns (r: Outcome)
      requires Valid()
      modifies redisPool, redisPool.server, loadBalancer`workers, loadBalancer.breakers.Values
      ensures Valid() && redisPool.inUse == Settled(old(redisPool.inUse), reachable, r.Threw?)
      ensures (r, View()) == if Granted(old(redisPool.inUse), reachable).Some?
              then old(View()).Complete(id, result, now)
                             else (Done(false), old(View()))
    {
      hide System.Complete;
      var redis := redisPool.GetConnection(reachable);
      if redis == null {
        return Done(false);
      }
      assert View() == old(View());
      r := Complete(redis.server, id, result, now);
      ghost var after := View();
      assert Valid();
      if !r.Threw? {
        redisPool.ReturnConnection(redis);
      }
      assert View() == after;
    }

    method FailTask(id: Text, error: Text, now: Int64, steady: int, reachable: bool) returns (r: Outcome)
      requires Valid()
      modifies redisPool, redisPool.server, loadBalancer`workers, loadBalancer.breakers.Values
      ensures Valid() && redisPool.inUse == Settled(old(redisPool.inUse), reachable, r.Threw?)
      ensures (r, View()) == if Granted(old(redisPool.inUse), reachable).Some?
              then old(View()).Fail(id, error, now, steady)
                             else (Done(false), old(View()))
    {
      hide System.Fail;
      var redis := redisPool.GetConnection(reachable);
      if redis == null {
        return Done(false);
      }
      assert View() == old(View());
      r := Fail(redis.server, id, error, now, steady);
      ghost var after := View();
      assert Valid();
      if !r.Threw? {
        redisPool.ReturnConnection(redis);
      }
      assert View() == after;
    }

    method RetryTask(id: Text, junk: TaskInfo, reachable: bool) returns (r: Outcome)
      requires Valid()
      modifies redisPool, redisPool.server, loadBalancer`workers
      ensures Valid() && redisPool.inUse == Settled(old(redisPool.inUse), reachable, r.Threw?)
      ensures (r, View()) == if Granted(old(redisPool.inUse), reachable).Some? then old(View()).Retry(id, junk)
                             else (Done(false), old(View()))
    {
      hide System.Retry;
      var redis := redisPool.GetConnection(reachable);
      if redis == null {
        return Done(false);
      }
      assert View() == old(View());
      r := Retry(redis.server, id, junk);
      ghost var after := View();
      assert Valid();
      if !r.Threw? {
        redisPool.ReturnConnection(redis);
      }
      assert View() == after;
    }

    // ----- the work of each call over its connection; Threw: an exception left it -----

    method Submit(redis: RedisServer, task: Request, startedAt: Int64, finishedAt: Int64)
      requires redis == redisPool.server && loadBalancer.Valid()
      modifies redis
      ensures loadBalancer.Valid()
      ensures View() == old(View()).Submit(task, startedAt, finishedAt)
    {
      var info := TaskInfo(task.id, task.kind, task.priority, task.data, task.createdAt, startedAt, finishedAt, 0, 0,
        [], []);
      redis.SaveTask(info);
      redis.PushToPriorityQueue(task.priority, task.id);
    }

    method Assign(redis: RedisServer, id: Text, w: Text, now: Int64, junk: TaskInfo) returns (r: Outcome)
      requires redis == redisPool.server && loadBalancer.Valid()
      modifies redis, loadBalancer`workers
      ensures loadBalancer.Valid()
      ensures (r, View()) == old(View()).Assign(id, w, now, junk)
    {
      hide ToString, Stoll, Decode, Store.GetTask, Store.HSet, LB.Balancer.WithLoad;
      var task := redis.GetTask(id, junk);
      if task.None? {
        return Threw;
      }
      if id == [] {
        return Done(false);
      }
      redis.HSet(id, STATUS, ToString(1));
      redis.HSet(id, WORKER_ID, w);
      redis.HSet(id, STARTED_AT, ToString(now));
      redis.IncrementWorkerLoad(w);
      ghost var s := View();
      assert s.balancer == old(View()).balancer;
      loadBalancer.UpdateWorkerLoad(w, redis.GetWorkerLoad(w));
      assert View() == s.Mirrored(w);
      return Done(true);
    }

    /** Frees one slot of the worker and mirrors its counter. */
    method Release(redis: RedisServer, w: Text) returns (threw: bool)
      requires redis == redisPool.server && loadBalancer.Valid()
      modifies redis`loads, loadBalancer`workers
      ensures loadBalancer.Valid()
      ensures threw <==> w !in old(View()).store.loads
      ensures View() == if threw then old(View()) else old(View()).Released(w)
    {
      threw := redis.DecrementWorkerLoad(w);
      if !threw {
        loadBalancer.UpdateWorkerLoad(w, redis.GetWorkerLoad(w));
      }
    }

    method Complete(redis: RedisServer, id: Text, result: Text, now: Int64) returns (r: Outcome)
      requires redis == redisPool.server && loadBalancer.Valid()
      modifies redis, loadBalancer`workers, loadBalancer.breakers.Values
      ensures loadBalancer.Valid()
      ensures (r, View()) == old(View()).Complete(id, result, now)
    {
      hide ToString, Stoll, Decode, Store.UpdateTaskStatus, Store.HSet;
      hide LB.Balancer.WithLoad, LB.Balancer.WithBreakerEvent;
      var w := redis.HGet(id, WORKER_ID);
      redis.UpdateTaskStatus(id, 2, [], now);
      redis.HSet(id, RESULT, result);
      assert View().balancer == old(View()).balancer;
      if w != [] {
        var threw := Release(redis, w);
        if threw {
          return Threw;
        }
        loadBalancer.RecordSuccess(w);
      }
      return Done(true);
    }

    method Fail(redis: RedisServer, id: Text, error: Text, now: Int64, steady: int) returns (r: Outcome)
      requires redis == redisPool.server && loadBalancer.Valid()
      modifies redis, loadBalancer`workers, loadBalancer.breakers.Values
      ensures loadBalancer.Valid()
      ensures (r, View()) == old(View()).Fail(id, error, now, steady)
    {
      hide ToString, Stoll, Decode, Store.UpdateTaskStatus, LB.Balancer.WithLoad, LB.Balancer.WithBreakerEvent;
      var w := redis.HGet(id, WORKER_ID);
      redis.UpdateTaskStatus(id, 3, error, now);
      assert View().balancer == old(View()).balancer;
      if w != [] {
        var threw := Release(redis, w);
        if threw {
          return Threw;
        }
        loadBalancer.RecordFailure(w, steady);
      }
      return Done(true);
    }

    method Retry(redis: RedisServer, id: Text, junk: TaskInfo) returns (r: Outcome)
      requires redis == redisPool.server && loadBalancer.Valid()
      modifies redis, loadBalancer`workers
      ensures loadBalancer.Valid()
      ensures (r, View()) == old(View()).Retry(id, junk)
    {
      hide ToString, Stoll, Decode;
      var task := redis.GetTask(id, junk);
      if task.None? {
        return Threw;
      }
      var retryCount := task.value.retryCount;
      if retryCount >= 3 {
        return Done(false);
      }
      var w := redis.HGet(id, WORKER_ID);
      if w != [] {
        var threw := Release(redis, w);
        if threw {
          return Threw;
        }
      }
      r := Requeue(redis, id, retryCount, junk);
    }

    method Requeue(redis: RedisServer, id: Text, retryCount: int, junk: TaskInfo) returns (r: Outcome)
      requires redis == redisPool.server && loadBalancer.Valid()
      modifies redis
      ensures loadBalancer.Valid()
      ensures (r, View()) == old(View()).Requeue(id, retryCount, junk)
    {
      hide ToString, Stoll, Decode, Store.GetTask, Store.IncrementTaskRetry, Store.Push;
      var threw := redis.IncrementTaskRetry(id);
      if threw {
        return Threw;
      }
      var task := redis.GetTask(id, junk);
      if task.None? {
        return Threw;
      }
      redis.SetEx(id, Delay(retryCount));
      redis.PushToPriorityQueue(task.value.priority, id);
      return Done(true);
    }
  }
}
