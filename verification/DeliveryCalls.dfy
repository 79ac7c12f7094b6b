/**
 Calls command by command against calls in one piece: left alone, the steps of a call end as the dispatcher's method
 ends, in the same store and balancer, by the same answer or exception; and one round of the loop is a dispatch round.
 */
module DeliveryCalls {
  import opened Texts
  import opened RedisStores
  import opened RedisPools
  import opened Dispatching
  import opened Delivery
  import LB = LoadBalancers
  import CB = CircuitBreakers
  import SC = Schedulers

  /** Commands a call may still issue. */
  function Left(g: Stage): nat
  {
    match g
    case Save(_) => 2
    case PushNew(_) => 1
    case RetryRead => 11
    case RetryWorker(_) => 10
    case RetryLoad(_, _) => 9
    case RetryRelease(_, _, _) => 8
    case RetryGet(_, _) => 7
    case RetryMirror(_, _, _) => 6
    case RetryCount(_) => 5
    case RetryWrite(_, _) => 4
    case RetryReread(_) => 3
    case RetryDelay(_, _) => 2
    case RetryPush(_) => 1
    case FinishWorker(_, _) => 10
    case FinishStatus(_, _, _) => 9
    case FinishError(_, _, _) => 8
    case FinishTime(_, _, _) => 7
    case FinishResult(_, _) => 6
    case FinishLoad(_, _) => 5
    case FinishRelease(_, _, _) => 4
    case FinishGet(_, _) => 3
    case FinishMirror(_, _, _) => 2
    case FinishBreaker(_, _) => 1
  }

  lemma OneLessLeft(s: Store, c: Call, x: Inputs)
    ensures CallStep(s, c, x).1.Goes? ==> Left(CallStep(s, c, x).1.stage) < Left(c.stage)
  {
    hide Stoi, Stoll, ToString, Decode;
  }

  /** How the call ends and what it leaves, if nothing else runs meanwhile. */
  function Alone(s: System, c: Call, x: Inputs): (Outcome, System)
    decreases Left(c.stage)
  {
    OneLessLeft(s.store, c, x);
    var (t, g) := CallStep(s.store, c, x);
    var u := System(t, CallTouch(s.balancer, c, x));
    match g
    case Ends(o) => (o, u)
    case Goes(stage) => Alone(u, Call(c.id, stage), x)
  }

  /** The steps of a submission are the method. */
  lemma SubmitAlone(s: System, r: Request, started: Int64, finished: Int64, x: Inputs)
    ensures var t := TaskInfo(r.id, r.kind, r.priority, r.data, r.createdAt, started, finished, 0, 0, [], []);
            Alone(s, Call(r.id, Save(t)), x) == (Done(true), s.Submit(r, started, finished))
  {
    hide ToString;
    var t := TaskInfo(r.id, r.kind, r.priority, r.data, r.createdAt, started, finished, 0, 0, [], []);
    assert t.(id := r.id) == t;
    var u := s.(store := s.store.SaveTask(t));
    assert Alone(u, Call(r.id, PushNew(r.priority)), x) == (Done(true), u.(store := u.store.Push(r.priority, r.id)));
  }

  /** What a completion or failure tells the worker's breaker. */
  function Told(b: LB.Balancer, status: Int32, w: Text, x: Inputs): LB.Balancer
  {
    b.WithBreakerEvent(w, if status == 2 then CB.Success else CB.Failure(x.steady))
  }

  /** The last steps of a completion or failure: release, mirror, breaker. */
  lemma FinishTail(s: System, id: Text, status: Int32, w: Text, x: Inputs)
    ensures Alone(s, Call(id, FinishLoad(status, w)), x) ==
            if w in s.store.loads
            then (Done(true), s.Released(w).(balancer := Told(s.Released(w).balancer, status, w, x)))
            else (Threw, s)
  {
    hide ToString;
    if w in s.store.loads {
      var t := s.store.Decremented(w);
      var u := s.(store := t);
      var value := t.LoadOf(w);
      var v := u.(balancer := u.balancer.WithLoad(w, value));
      var end := (Done(true), v.(balancer := Told(v.balancer, status, w, x)));
      assert Alone(v, Call(id, FinishBreaker(status, w)), x) == end;
      assert Alone(u, Call(id, FinishMirror(status, w, value)), x) == end;
      assert Alone(u, Call(id, FinishGet(status, w)), x) == end;
      assert Alone(s, Call(id, FinishRelease(status, w, s.store.loads[w])), x) == end by {
        assert s == System(s.store, s.balancer);
      }
    }
  }

  /** The writes of a completion or a failure, before it frees the slot. */
  function Written(s: Store, id: Text, status: Int32, text: Text, now: Int64): Store
  {
    if status == 2 then s.UpdateTaskStatus(id, 2, [], now).HSet(id, RESULT, text)
    else s.UpdateTaskStatus(id, 3, text, now)
  }

  lemma WrittenKeepsLoads(s: Store, id: Text, status: Int32, text: Text, now: Int64)
    ensures Written(s, id, status, text, now).loads == s.loads
  {
    hide ToString;
  }

  /** What is left to do once the record is written. */
  function Rest(s: System, id: Text, status: Int32, w: Text, x: Inputs): (Outcome, System)
  {
    if w != [] then Alone(s, Call(id, FinishLoad(status, w)), x) else (Done(true), s)
  }

  /** The time stamp, the result of a completion, and what follows. */
  lemma StampAlone(s: System, id: Text, status: Int32, text: Text, w: Text, x: Inputs)
    requires status in {2, 3}
    ensures var t := s.store.HSet(id, FINISHED_AT, ToString(x.now));
            var u := if status == 2 then t.HSet(id, RESULT, text) else t;
            Alone(s, Call(id, FinishTime(status, text, w)), x) == Rest(s.(store := u), id, status, w, x)
  {
    hide ToString, Store.HSet, Store.HGet;
    var t := s.store.HSet(id, FINISHED_AT, ToString(x.now));
    if status == 2 {
      var u := t.HSet(id, RESULT, text);
      assert Alone(s.(store := t), Call(id, FinishResult(text, w)), x) == Rest(s.(store := u), id, 2, w, x);
    }
  }

  lemma WritesAlone(s: System, id: Text, status: Int32, text: Text, x: Inputs)
    requires status in {2, 3}
    ensures Alone(s, Call(id, FinishWorker(status, text)), x) ==
            Rest(s.(store := Written(s.store, id, status, text, x.now)), id, status, s.store.HGet(id, WORKER_ID), x)
  {
    hide ToString, Store.HSet, Store.HGet, Rest;
    var w := s.store.HGet(id, WORKER_ID);
    var s1 := s.(store := s.store.HSet(id, STATUS, ToString(status)));
    var s2 := if status == 3 && text != [] then s1.(store := s1.store.HSet(id, ERROR_MESSAGE, text)) else s1;
    StampAlone(s2, id, status, text, w, x);
    assert Alone(s1, Call(id, FinishError(status, text, w)), x) == Alone(s2, Call(id, FinishTime(status, text, w)), x);
    assert Alone(s, Call(id, FinishStatus(status, text, w)), x) == Alone(s1, Call(id, FinishError(status, text, w)), x);
  }

  /** The steps of a completion are the method. */
  lemma CompleteAlone(s: System, id: Text, result: Text, x: Inputs)
    ensures Alone(s, Call(id, FinishWorker(2, result)), x) == s.Complete(id, result, x.now)
  {
    hide ToString, Store.HSet, Store.HGet, Store.UpdateTaskStatus, Alone;
    WritesAlone(s, id, 2, result, x);
    WrittenKeepsLoads(s.store, id, 2, result, x.now);
    FinishTail(s.(store := Written(s.store, id, 2, result, x.now)), id, 2, s.store.HGet(id, WORKER_ID), x);
  }

  /** The steps of a failure are the method. */
  lemma FailAlone(s: System, id: Text, error: Text, x: Inputs)
    ensures Alone(s, Call(id, FinishWorker(3, error)), x) == s.Fail(id, error, x.now, x.steady)
  {
    hide ToString, Store.HSet, Store.HGet, Store.UpdateTaskStatus, Alone;
    WritesAlone(s, id, 3, error, x);
    WrittenKeepsLoads(s.store, id, 3, error, x.now);
    FinishTail(s.(store := Written(s.store, id, 3, error, x.now)), id, 3, s.store.HGet(id, WORKER_ID), x);
  }

  lemma RetryTail(s: System, id: Text, n: int, x: Inputs)
    ensures Alone(s, Call(id, RetryCount(n)), x) == s.Requeue(id, n, x.junk)
  {
    hide ToString, Decode, Stoi, Stoll, Store.HGet, Store.GetTask;
    var current := s.store.HGet(id, RETRY_COUNT);
    var k := if current == [] then Some(0) else Stoi(current);
    assert Alone(s, Call(id, RetryCount(n)), x) == Alone(s, Call(id, RetryWrite(n, current)), x);
    if k.Some? {
      var t := WithCount(s.store, id, k.value);
      assert s.store.IncrementTaskRetry(id) == Some(t);
      assert Alone(s, Call(id, RetryWrite(n, current)), x) == Alone(s.(store := t), Call(id, RetryReread(n)), x);
      RequeueTail(s.(store := t), id, n, x);
    } else {
      assert Alone(s, Call(id, RetryWrite(n, current)), x) == (Threw, s);
    }
  }

  lemma RequeueTail(s: System, id: Text, n: int, x: Inputs)
    ensures Alone(s, Call(id, RetryReread(n)), x) ==
            match s.store.GetTask(id, x.junk)
            case None => (Threw, s)
            case Some(i) =>
              (Done(true), s.(store :=
                s.store.(backoffs := s.store.backoffs + [Backoff(id, Delay(n))]).Push(i.priority, id)))
  {
    hide ToString, Decode, Stoi, Stoll, Store.GetTask;
    if s.store.GetTask(id, x.junk).Some? {
      var priority := s.store.GetTask(id, x.junk).value.priority;
      var u := s.(store := s.store.(backoffs := s.store.backoffs + [Backoff(id, Delay(n))]));
      var end := (Done(true), u.(store := u.store.Push(priority, id)));
      assert Alone(u, Call(id, RetryPush(priority)), x) == end;
      assert Alone(s, Call(id, RetryDelay(n, priority)), x) == end;
    }
  }

  /** The steps of a retry are the method. */
  lemma RetryAlone(s: System, id: Text, x: Inputs)
    ensures Alone(s, Call(id, RetryRead), x) == s.Retry(id, x.junk)
  {
    hide ToString, Decode, Stoi, Stoll, Store.HGet, Store.GetTask, System.Requeue;
    var task := s.store.GetTask(id, x.junk);
    if task.Some? && task.value.retryCount < 3 {
      var n, w := task.value.retryCount, s.store.HGet(id, WORKER_ID);
      assert Alone(s, Call(id, RetryRead), x) == Alone(s, Call(id, RetryWorker(n)), x);
      if w == [] {
        RetryTail(s, id, n, x);
        assert Alone(s, Call(id, RetryWorker(n)), x) == Alone(s, Call(id, RetryCount(n)), x);
      } else {
        assert Alone(s, Call(id, RetryWorker(n)), x) == Alone(s, Call(id, RetryLoad(n, w)), x);
        RetryReleases(s, id, n, w, x);
      }
    }
  }

  lemma RetryReleases(s: System, id: Text, n: int, w: Text, x: Inputs)
    ensures Alone(s, Call(id, RetryLoad(n, w)), x) ==
            if w in s.store.loads then s.Released(w).Requeue(id, n, x.junk) else (Threw, s)
  {
    hide ToString, Decode, Stoi, Stoll, Store.HGet, Store.GetTask, System.Requeue;
    if w in s.store.loads {
      var u := s.(store := s.store.Decremented(w));
      var value := u.store.LoadOf(w);
      var c := Call(id, RetryRelease(n, w, s.store.loads[w]));
      assert CallStep(s.store, c, x).0 == u.store;
      assert Alone(s, c, x) == Alone(u, Call(id, RetryGet(n, w)), x);
      assert Alone(u, Call(id, RetryGet(n, w)), x) == Alone(u, Call(id, RetryMirror(n, w, value)), x);
      assert Alone(u, Call(id, RetryMirror(n, w, value)), x) == Alone(s.Released(w), Call(id, RetryCount(n)), x);
      RetryTail(s.Released(w), id, n, x);
    }
  }

  // ---------- the loop ----------

  /** Commands a round of the loop may still issue. */
  function ToGo(l: Loop): nat
  {
    match l
    case AtHigh => 12
    case AtMedium => 11
    case AtLow => 10
    case Holding(_) => 9
    case Reading(_) => 2
    case Pushing(_, _) => 1
    case AssignRead(_, _) => 8
    case AssignStatus(_, _) => 7
    case AssignWorker(_, _) => 6
    case AssignTime(_, _) => 5
    case AssignLoad(_, _) => 4
    case AssignGet(_, _) => 3
    case AssignMirror(_, _, _) => 2
  }

  lemma LoopProgress(s: Store, l: Loop, x: Inputs)
    ensures var m := LoopNext(s, l, x).1; m == l || m.AtHigh? || ToGo(m) < ToGo(l)
  {
    hide Stoi, Stoll, ToString, Decode;
  }

  /** Where the loop stands when the round ends, or where an unreadable record stops it, and what it leaves, if nothing
      else runs meanwhile. */
  function Round(s: System, l: Loop, x: Inputs): (Loop, System)
    decreases ToGo(l)
  {
    LoopProgress(s.store, l, x);
    var (t, m) := LoopNext(s.store, l, x);
    var u := System(t, LoopTouch(s.balancer, l, x));
    if m == l || m.AtHigh? then (m, u) else Round(u, m, x)
  }

  /** The steps of an assignment are the method, except that the loop stops where the method throws. */
  lemma AssignAlone(s: System, id: Text, w: Text, x: Inputs)
    requires id != []
    ensures Round(s, AssignRead(id, w), x) ==
            var (o, t) := s.Assign(id, w, x.now, x.junk); (if o.Threw? then AssignRead(id, w) else AtHigh, t)
  {
    hide ToString, Decode, Stoi, Stoll, Store.HSet, Store.GetTask;
    if s.store.GetTask(id, x.junk).Some? {
      var s1 := s.store.HSet(id, STATUS, ToString(1));
      var s2 := s1.HSet(id, WORKER_ID, w);
      var s3 := s2.HSet(id, STARTED_AT, ToString(x.now));
      CountedAlone(s.(store := s3), id, w, x);
      var end := (AtHigh, s.(store := s3.Incremented(w)).Mirrored(w));
      assert Round(s.(store := s2), AssignTime(id, w), x) == end;
      assert Round(s.(store := s1), AssignWorker(id, w), x) == end;
      assert Round(s, AssignStatus(id, w), x) == end;
    }
  }

  lemma CountedAlone(s: System, id: Text, w: Text, x: Inputs)
    ensures Round(s, AssignLoad(id, w), x) == (AtHigh, s.(store := s.store.Incremented(w)).Mirrored(w))
  {
    hide ToString, Decode, Stoi, Stoll, Store.HSet, Store.GetTask;
    var u := s.(store := s.store.Incremented(w));
    assert Adjusted(s.store, w, 1) == u.store;
    assert Round(u, AssignMirror(id, w, u.store.LoadOf(w)), x) == (AtHigh, u.Mirrored(w));
    assert Round(u, AssignGet(id, w), x) == (AtHigh, u.Mirrored(w));
  }

  lemma HoldingAlone(s: System, id: Text, x: Inputs)
    requires id != []
    ensures var u := s.(balancer := s.balancer.AfterSelect(x.readings));
            Round(s, Holding(id), x) ==
            if x.answer != [] then Round(u, AssignRead(id, x.answer), x)
            else match u.store.GetTask(id, x.junk)
                 case Some(t) => (AtHigh, u.(store := u.store.Push(t.priority, id)))
                 case None => (Reading(id), u)
  {
    hide ToString, Decode, Stoi, Stoll, Store.GetTask;
    if x.answer == [] {
      var u := s.(balancer := s.balancer.AfterSelect(x.readings));
      assert Round(s, Holding(id), x) == Round(u, Reading(id), x);
      if u.store.GetTask(id, x.junk).Some? {
        var priority := u.store.GetTask(id, x.junk).value.priority;
        assert Round(u, Pushing(id, priority), x) == (AtHigh, u.(store := u.store.Push(priority, id)));
      }
    }
  }

  lemma PopsAlone(s: System, x: Inputs)
    ensures var (id, t) := s.store.Pop();
            Round(s, AtHigh, x) == if id == [] then (AtHigh, s.(store := t)) else Round(s.(store := t), Holding(id), x)
  {
    hide ToString, Decode, Stoi, Stoll, Store.GetTask, Store.LPop, Store.Push, Store.HSet;
    var (high, s1) := s.store.LPop(HIGH);
    var (medium, s2) := s1.LPop(MEDIUM);
    var (low, s3) := s2.LPop(LOW);
    if high == [] {
      assert Round(s, AtHigh, x) == Round(s.(store := s1), AtMedium, x);
      if medium == [] {
        assert Round(s.(store := s1), AtMedium, x) == Round(s.(store := s2), AtLow, x);
      }
    }
  }

  /** The inputs of a dispatch round that finds every connection it wants. */
  function Connected(x: Inputs): SC.Inputs
  {
    SC.Inputs(x.readings, x.now, x.junk, true, true, true)
  }

  /** How such a round ends. */
  function Ending(s: Store, x: Inputs): SC.Round
  {
    var (id, t) := s.Pop();
    if id == [] then SC.Idle
    else if t.GetTask(id, x.junk).None? then SC.Crashed(id, x.answer)
    else if x.answer == [] then SC.Requeued(id)
    else SC.Dispatched(id, x.answer)
  }

  /** The steps of a whole round are a dispatch round over one free connection, and they lead back to its beginning
      unless a malformed record stops them. */
  lemma RoundAlone(s: System, x: Inputs)
    requires s.store.Pop().0 != [] ==> s.balancer.IsChoice(s.store.Pop().0, x.readings, x.answer)
    ensures var (l, t) := Round(s, AtHigh, x);
            var r := Ending(s.store, x);
            SC.RoundEffect(s, [false], Connected(x), r, t, [r.Crashed?]) && (l == AtHigh <==> !r.Crashed?)
  {
    hide Round, Store.Pop, Store.GetTask, Store.HSet, Store.Push, ToString, Decode, Stoi, Stoll;
    var (id, t) := s.store.Pop();
    PopsAlone(s, x);
    OneConnection();
    if id != [] {
      HoldingAlone(s.(store := t), id, x);
      if x.answer != [] {
        AssignAlone(System(t, s.balancer.AfterSelect(x.readings)), id, x.answer, x);
      }
    }
  }

  lemma OneConnection()
    ensures Granted([false], true) == Some(0)
    ensures Settled([false], true, false) == [false] && Settled([false], true, true) == [true]
  {
  }
}
