/**
 What each dispatcher call does to a task's record, as a reader of the record sees it, and the record
 of a task that fails once, is retried and completes.
 */
module DispatchRecords {
  import opened Texts
  import opened Bits
  import opened RedisStores
  import opened Dispatching

  /** The store holds a record that reads as `t`, with a count that needs no narrowing. */
  ghost predicate Reads(s: Store, t: TaskInfo)
  {
    && t.id in s.tasks && s.tasks[t.id] != map[] && Decode(t.id, s.tasks[t.id]) == Some(t)
    && GetInt(s.tasks[t.id], RETRY_COUNT) == Some(t.retryCount)
  }

  /** Queues, counters and the records of other tasks are the same. */
  ghost predicate OnlyRecord(s: Store, u: Store, id: Text)
  {
    u == s.(tasks := u.tasks) && u.tasks - {id} == s.tasks - {id}
  }

  lemma TextWrite(s: Store, t: TaskInfo, f: Field, v: Text)
    requires Reads(s, t) && f in {ERROR_MESSAGE, RESULT, WORKER_ID}
    ensures Reads(s.HSet(t.id, f, v),
                  if f == ERROR_MESSAGE then t.(errorMessage := v) else if f == RESULT then t.(result := v) else t)
    ensures OnlyRecord(s, s.HSet(t.id, f, v), t.id)
    ensures s.HSet(t.id, f, v).HGet(t.id, WORKER_ID) == if f == WORKER_ID then v else s.HGet(t.id, WORKER_ID)
  {
    hide Decode;
    RewrittenDecodes(s.tasks[t.id], t, f, v);
    assert f in s.tasks[t.id][f := v];
  }

  lemma NumeralWrite(s: Store, t: TaskInfo, f: Field, n: Int64)
    requires Reads(s, t) && (f in {STARTED_AT, FINISHED_AT} || (f in {STATUS, RETRY_COUNT} && -TWO_31 <= n < TWO_31))
    ensures Reads(s.HSet(t.id, f, ToString(n)),
                  if f == STARTED_AT then t.(startedAt := n) else if f == FINISHED_AT then t.(finishedAt := n)
                  else if f == STATUS then t.(status := n) else t.(retryCount := n))
    ensures OnlyRecord(s, s.HSet(t.id, f, ToString(n)), t.id)
    ensures s.HSet(t.id, f, ToString(n)).HGet(t.id, WORKER_ID) == s.HGet(t.id, WORKER_ID)
  {
    hide Decode, ToString, Stoll;
    NumeralRoundTrip(n);
    RewrittenDecodes(s.tasks[t.id], t, f, ToString(n));
    assert f in s.tasks[t.id][f := ToString(n)];
  }

  lemma SubmitRecords(s: System, r: Request, started: Int64, finished: Int64)
    ensures var u := s.Submit(r, started, finished).store;
            && Reads(u, TaskInfo(r.id, r.kind, r.priority, r.data, r.createdAt, started, finished, 0, 0, [], []))
            && u.tasks - {r.id} == s.store.tasks - {r.id}
            && u.HGet(r.id, WORKER_ID) == s.store.HGet(r.id, WORKER_ID)
            && (forall c :: u.Queue(c) == s.store.Queue(c) + if c == ClassOf(r.priority) then [r.id] else [])
            && u.loads == s.store.loads && u.backoffs == s.store.backoffs
  {
    hide Decode, ToString, Stoll, GetInt, FieldsOf, Holds;
    var t := TaskInfo(r.id, r.kind, r.priority, r.data, r.createdAt, started, finished, 0, 0, [], []);
    var h: Hash := if r.id in s.store.tasks then s.store.tasks[r.id] else map[];
    SavedHashHolds(h, t);
    HeldTaskDecodes(h + FieldsOf(t), t);
    HeldIntegers(h + FieldsOf(t), t);
    assert s.Submit(r, started, finished).store.tasks == s.store.tasks[r.id := h + FieldsOf(t)];
  }

  /** An assignment changes status and start time, and names the worker. */
  lemma AssignRecords(s: System, t: TaskInfo, w: Text, now: Int64, junk: TaskInfo)
    requires Reads(s.store, t) && t.id != []
    ensures var (r, u) := s.Assign(t.id, w, now, junk);
            && r == Done(true)
            && Reads(u.store, t.(status := 1, startedAt := now)) && u.store.HGet(t.id, WORKER_ID) == w
            && OnlyRecord(s.store.Incremented(w), u.store, t.id)
  {
    hide Decode, ToString, Store.HSet, Store.HGet;
    var s1, t1 := s.store.HSet(t.id, STATUS, ToString(1)), t.(status := 1);
    NumeralWrite(s.store, t, STATUS, 1);
    var s2 := s1.HSet(t.id, WORKER_ID, w);
    TextWrite(s1, t1, WORKER_ID, w);
    NumeralWrite(s2, t1, STARTED_AT, now);
    WorkerSurvives(s2.HSet(t.id, STARTED_AT, ToString(now)), s.Assign(t.id, w, now, junk).1.store, t.id);
    assert s.store.GetTask(t.id, junk) == Some(t);
  }

  /** A task without a record is assigned like any other, whatever memory held, and from then on has one: of type 0 and
      priority 0, never submitted, with no failures counted. */
  lemma MissingIsAssigned(s: System, id: Text, w: Text, now: Int64, junk: TaskInfo)
    requires id !in s.store.tasks && id != []
    ensures var (r, u) := s.Assign(id, w, now, junk);
            && r == Done(true) && Reads(u.store, TaskInfo(id, 0, 0, [], 0, now, 0, 1, 0, [], []))
            && u.store.HGet(id, WORKER_ID) == w && u.store.LoadOf(w) == s.store.LoadOf(w) + 1
  {
    hide ToString, Stoll, Decode;
    var u := s.Assign(id, w, now, junk).1.store;
    assert u.tasks[id] == map[STATUS := ToString(1), WORKER_ID := w, STARTED_AT := ToString(now)];
    FewFieldsDecode(id, u.tasks[id], now, 1, 0);
  }

  /** A hash with no more than a status, a start time, a count and a worker. */
  lemma FewFieldsDecode(id: Text, h: Hash, started: Int64, status: Int32, retries: Int32)
    requires h.Keys <= {STATUS, STARTED_AT, RETRY_COUNT, WORKER_ID}
    requires At(h, STATUS, ToString(status)) || (status == 0 && STATUS !in h)
    requires At(h, STARTED_AT, ToString(started)) || (started == 0 && STARTED_AT !in h)
    requires At(h, RETRY_COUNT, ToString(retries)) || (retries == 0 && RETRY_COUNT !in h)
    ensures Decode(id, h) == Some(TaskInfo(id, 0, 0, [], 0, started, 0, status, retries, [], []))
    ensures GetInt(h, RETRY_COUNT) == Some(retries)
  {
    hide ToString, Stoll;
    NumeralRoundTrip(status);
    NumeralRoundTrip(started);
    NumeralRoundTrip(retries);
    assert GetInt(h, STATUS) == Some(status) && GetInt(h, STARTED_AT) == Some(started);
    assert TYPE !in h && PRIORITY !in h && CREATED_AT !in h && FINISHED_AT !in h;
  }

  /** A retry of it is decided by whatever memory held for its count, and read from then on is a count of 1. */
  lemma MissingIsRetried(s: System, id: Text, junk: TaskInfo)
    requires id !in s.store.tasks && junk.retryCount >= 0
    ensures s.store.GetTask(id, junk) == Some(junk.(id := id, data := [], errorMessage := [], result := []))
    ensures junk.retryCount >= 3 ==> s.Retry(id, junk) == (Done(false), s)
    ensures junk.retryCount < 3 ==>
              var (r, u) := s.Retry(id, junk);
              && r == Done(true) && Reads(u.store, TaskInfo(id, 0, 0, [], 0, 0, 0, 0, 1, [], []))
              && u.store.low == s.store.low + [id] && u.store.high == s.store.high && u.store.medium == s.store.medium
              && u.store.backoffs == s.store.backoffs + [Backoff(id, Pow2(junk.retryCount))]
              && u.store.loads == s.store.loads
  {
    hide ToString, Stoll, Pow2, Decode;
    if junk.retryCount < 3 {
      var counted := s.store.IncrementTaskRetry(id).value;
      assert counted.tasks[id] == map[RETRY_COUNT := ToString(1)];
      FewFieldsDecode(id, counted.tasks[id], 0, 0, 1);
    }
  }

  /** Only the empty id is refused, and then nothing changes. */
  lemma EmptyIsRefused(s: System, w: Text, now: Int64, junk: TaskInfo)
    requires s.store.GetTask([], junk).Some?
    ensures s.Assign([], w, now, junk) == (Done(false), s)
  {
    hide Decode;
  }

  lemma StatusRecords(s: Store, t: TaskInfo, status: Int32, error: Text, now: Int64)
    requires Reads(s, t)
    ensures var u := s.UpdateTaskStatus(t.id, status, error, now);
            && Reads(u, t.(status := status, finishedAt := if status in {2, 3} then now else t.finishedAt,
                           errorMessage := if error != [] then error else t.errorMessage))
            && OnlyRecord(s, u, t.id) && u.HGet(t.id, WORKER_ID) == s.HGet(t.id, WORKER_ID)
  {
    hide Decode, ToString, Store.HSet, Store.HGet;
    var s1, t1 := s.HSet(t.id, STATUS, ToString(status)), t.(status := status);
    NumeralWrite(s, t, STATUS, status);
    if error != [] { TextWrite(s1, t1, ERROR_MESSAGE, error); }
    if status in {2, 3} {
      var s2 := if error != [] then s1.HSet(t.id, ERROR_MESSAGE, error) else s1;
      NumeralWrite(s2, if error != [] then t1.(errorMessage := error) else t1, FINISHED_AT, now);
    }
  }

  /** The record names a worker without a counter. */
  predicate WorkerLost(s: Store, id: Text)
  {
    s.HGet(id, WORKER_ID) != [] && s.HGet(id, WORKER_ID) !in s.loads
  }

  /** The counters after a call that frees the slot of the recorded worker. */
  function Freed(s: Store, id: Text): map<Text, int>
  {
    var w := s.HGet(id, WORKER_ID);
    if w != [] && w in s.loads && s.loads[w] > 0 then s.loads[w := s.loads[w] - 1] else s.loads
  }

  /**
   A completion changes status, finish time and result; it frees the recorded worker's slot and leaves it recorded.
   */
  lemma CompleteRecords(s: System, t: TaskInfo, result: Text, now: Int64)
    requires Reads(s.store, t)
    ensures var (r, u) := s.Complete(t.id, result, now);
            && r == (if WorkerLost(s.store, t.id) then Threw else Done(true))
            && Reads(u.store, t.(status := 2, finishedAt := now, result := result))
            && OnlyRecord(s.store.(loads := Freed(s.store, t.id)), u.store, t.id)
            && u.store.HGet(t.id, WORKER_ID) == s.store.HGet(t.id, WORKER_ID)
  {
    hide Decode, ToString, Store.HSet, Store.HGet, Store.UpdateTaskStatus;
    StatusRecords(s.store, t, 2, [], now);
    var s1 := s.store.UpdateTaskStatus(t.id, 2, [], now);
    TextWrite(s1, t.(status := 2, finishedAt := now), RESULT, result);
    WorkerSurvives(s1.HSet(t.id, RESULT, result), s.Complete(t.id, result, now).1.store, t.id);
  }

  lemma WorkerSurvives(s: Store, u: Store, id: Text)
    requires s.tasks == u.tasks
    ensures s.HGet(id, WORKER_ID) == u.HGet(id, WORKER_ID)
  {
  }

  /** A failure changes status and finish time, and the error text if one is given; otherwise as a completion. */
  lemma FailRecords(s: System, t: TaskInfo, error: Text, now: Int64, steady: int)
    requires Reads(s.store, t)
    ensures var (r, u) := s.Fail(t.id, error, now, steady);
            && r == (if WorkerLost(s.store, t.id) then Threw else Done(true))
            && Reads(u.store, t.(status := 3, finishedAt := now,
                                 errorMessage := if error != [] then error else t.errorMessage))
            && OnlyRecord(s.store.(loads := Freed(s.store, t.id)), u.store, t.id)
            && u.store.HGet(t.id, WORKER_ID) == s.store.HGet(t.id, WORKER_ID)
  {
    hide Decode, ToString, Store.HSet, Store.HGet, Store.UpdateTaskStatus;
    StatusRecords(s.store, t, 3, error, now);
    WorkerSurvives(s.store.UpdateTaskStatus(t.id, 3, error, now), s.Fail(t.id, error, now, steady).1.store, t.id);
  }

  /** From the third retry on nothing happens; before, the count goes up by one, nothing else in the record changes,
      the back-off doubles each time, and the task joins the tail of its queue at once. */
  lemma RetryRecords(s: System, t: TaskInfo, junk: TaskInfo)
    requires Reads(s.store, t)
    ensures t.retryCount >= 3 ==> s.Retry(t.id, junk) == (Done(false), s)
    ensures t.retryCount < 3 && WorkerLost(s.store, t.id) ==> s.Retry(t.id, junk) == (Threw, s)
    ensures 0 <= t.retryCount < 3 && !WorkerLost(s.store, t.id) ==>
              var (r, u) := s.Retry(t.id, junk);
              && r == Done(true) && Reads(u.store, t.(retryCount := t.retryCount + 1))
              && OnlyRecord(s.store.(loads := Freed(s.store, t.id),
                                     backoffs := s.store.backoffs + [Backoff(t.id, Pow2(t.retryCount))])
                                   .Push(t.priority, t.id), u.store, t.id)
              && u.store.HGet(t.id, WORKER_ID) == s.store.HGet(t.id, WORKER_ID)
  {
    hide Decode, ToString, Store.HSet, Store.HGet, System.Requeue;
    assert s.store.GetTask(t.id, junk) == Some(t);
    if 0 <= t.retryCount < 3 && !WorkerLost(s.store, t.id) {
      var w := s.store.HGet(t.id, WORKER_ID);
      var v := if w == [] then s else s.Released(w);
      WorkerSurvives(s.store, v.store, t.id);
      assert s.Retry(t.id, junk) == v.Requeue(t.id, t.retryCount, junk);
      assert v.store == s.store.(loads := Freed(s.store, t.id));
      RequeueRecords(v, t, junk);
    }
  }

  lemma RequeueRecords(s: System, t: TaskInfo, junk: TaskInfo)
    requires Reads(s.store, t) && 0 <= t.retryCount < 3
    ensures var (r, u) := s.Requeue(t.id, t.retryCount, junk);
            && r == Done(true) && Reads(u.store, t.(retryCount := t.retryCount + 1))
            && OnlyRecord(s.store.(backoffs := s.store.backoffs + [Backoff(t.id, Pow2(t.retryCount))])
                                 .Push(t.priority, t.id), u.store, t.id)
            && u.store.HGet(t.id, WORKER_ID) == s.store.HGet(t.id, WORKER_ID)
  {
    hide Decode, ToString;
    NumeralWrite(s.store, t, RETRY_COUNT, t.retryCount + 1);
    var u := s.store.HSet(t.id, RETRY_COUNT, ToString(t.retryCount + 1));
    assert Stoll([]).None?;
    assert s.store.IncrementTaskRetry(t.id) == Some(u);
    assert u.GetTask(t.id, junk) == Some(t.(retryCount := t.retryCount + 1));
    WorkerSurvives(u, s.Requeue(t.id, t.retryCount, junk).1.store, t.id);
  }

  /**
   A task that fails once, is retried and completes, from submission on: what its record says at the end, that it
   stood in its queue twice, and that the worker's counter is back where it was although three calls freed its slot.
   The error text and the worker stay recorded.
   */
  lemma FailRetryComplete(s: System, r: Request, started: Int64, finished: Int64, w: Text, error: Text, result: Text,
                          times: seq<Int64>, steady: int, junk: TaskInfo)
    requires r.id != [] && w != [] && |times| == 4 && s.store.LoadOf(w) == 0 && error != []
    ensures var u := s.Submit(r, started, finished).Assign(r.id, w, times[0], junk).1
                      .Fail(r.id, error, times[1], steady).1
                      .Retry(r.id, junk).1.Assign(r.id, w, times[2], junk).1.Complete(r.id, result, times[3]).1.store;
            && Reads(u, TaskInfo(r.id, r.kind, r.priority, r.data, r.createdAt, times[2], times[3],
                                 2, 1, error, result))
            && u.HGet(r.id, WORKER_ID) == w && u.LoadOf(w) == 0
            && u.Queue(ClassOf(r.priority)) == s.store.Queue(ClassOf(r.priority)) + [r.id] + [r.id]
            && u.backoffs == s.store.backoffs + [Backoff(r.id, 1)]
            && u.tasks - {r.id} == s.store.tasks - {r.id}
  {
    hide Reads, System.Submit, System.Assign, System.Fail, System.Retry, System.Complete;
    var t0 := TaskInfo(r.id, r.kind, r.priority, r.data, r.createdAt, started, finished, 0, 0, [], []);
    SubmitRecords(s, r, started, finished);
    var s1 := s.Submit(r, started, finished);
    AssignRecords(s1, t0, w, times[0], junk);
    var s2, t1 := s1.Assign(r.id, w, times[0], junk).1, t0.(status := 1, startedAt := times[0]);
    FailRecords(s2, t1, error, times[1], steady);
    var s3, t2 := s2.Fail(r.id, error, times[1], steady).1,
      t1.(status := 3, finishedAt := times[1], errorMessage := error);
    RetryRecords(s3, t2, junk);
    assert Pow2(0) == 1;
    var s4, t3 := s3.Retry(r.id, junk).1, t2.(retryCount := 1);
    AssignRecords(s4, t3, w, times[2], junk);
    var s5, t4 := s4.Assign(r.id, w, times[2], junk).1, t3.(status := 1, startedAt := times[2]);
    CompleteRecords(s5, t4, result, times[3]);
  }
}
