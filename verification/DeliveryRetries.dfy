/**
 How often a task is retried, one command at a time. `retryTask` reads the count, and later reads it again
 and writes it back plus one, so two retries of one task can lose an increment. The count is exact as long
 as no write is stale, and three bounds the retries as long as retries of one task do not overlap.
 */
module DeliveryRetries {
  import opened Texts
  import opened RedisStores
  import opened Dispatching
  import opened Delivery
  import opened DeliveryRecords

  /** The stored retry count. */
  function Count(s: Store, id: Text): int
  {
    if id in s.tasks && GetInt(s.tasks[id], RETRY_COUNT).Some? then GetInt(s.tasks[id], RETRY_COUNT).value else 0
  }

  /** What `incrementTaskRetry` makes of the text it read; None: it throws. */
  function CountRead(current: Text): Option<Int32>
  {
    if current == [] then Some(0) else Stoi(current)
  }

  predicate Owes(g: Stage) { g.RetryReread? || g.RetryDelay? }

  predicate Pends(g: Stage) { Owes(g) || g.RetryPush? }

  predicate Retrying(g: Stage)
  {
    g.RetryRead? || g.RetryWorker? || g.RetryLoad? || g.RetryRelease? || g.RetryGet? || g.RetryMirror? ||
    g.RetryCount? || g.RetryWrite? || Pends(g)
  }

  predicate Retrier(p: Proto, t: nat, id: Text)
  {
    t in p.calls && p.calls[t].id == id && Retrying(p.calls[t].stage)
  }

  /** The retries of the task that have counted and not yet pushed. */
  function Pending(p: Proto, id: Text): set<nat>
  {
    set t | t in p.calls && p.calls[t].id == id && Pends(p.calls[t].stage)
  }

  /** The stored count is the number of retries, those still to push included. */
  ghost predicate Exact(p: Proto, id: Text)
  {
    if id in p.store.tasks then Count(p.store, id) == p.retried[id] + |Pending(p, id)| else p.retried[id] == 0
  }

  /** The action is a write of a count that has changed since it was read. */
  predicate Stale(p: Proto, a: Action, id: Text)
  {
    a.Advance? && a.thread in p.calls && p.calls[a.thread].id == id && p.calls[a.thread].stage.RetryWrite? &&
    var k := CountRead(p.calls[a.thread].stage.current);
    k.Some? && k.value != Count(p.store, id)
  }

  ghost predicate NeverStale(actions: seq<Action>, id: Text)
  {
    actions == [] ||
    (NeverStale(actions[..|actions| - 1], id)
      && !Stale(Run(START, actions[..|actions| - 1]), actions[|actions| - 1], id))
  }

  ghost predicate AlwaysExact(actions: seq<Action>, id: Text)
  {
    (actions == [] || AlwaysExact(actions[..|actions| - 1], id)) && Exact(Run(START, actions), id)
  }

  lemma WriteCounts(s: Store, id: Text, read: Int32)
    ensures Count(WithCount(s, id, read), id) == read + 1
  {
    var n: int := read;
    NumeralRoundTrip(n + 1);
  }

  lemma ReadsCount(s: Store, id: Text)
    requires Filed(s, id)
    ensures var k := CountRead(s.HGet(id, RETRY_COUNT)); k.Some? ==> k.value == Count(s, id)
    ensures -TWO_31 <= Count(s, id) < TWO_31 ==> CountRead(s.HGet(id, RETRY_COUNT)).Some?
  {
    assert Stoll([]).None?;
  }

  /** Only saving and counting touch the count. */
  lemma CallStepKeepsCount(s: Store, c: Call, x: Inputs, id: Text)
    requires c.id != id || (!c.stage.Save? && !c.stage.RetryWrite?)
    ensures Count(CallStep(s, c, x).0, id) == Count(s, id)
    ensures CallStep(s, c, x).0.HGet(id, RETRY_COUNT) == s.HGet(id, RETRY_COUNT)
  {
    hide Stoi, Stoll, ToString, Decode;
  }

  lemma CallStepCounts(s: Store, c: Call, x: Inputs)
    requires c.stage.RetryWrite? && CountRead(c.stage.current).Some?
    ensures Count(CallStep(s, c, x).0, c.id) == CountRead(c.stage.current).value + 1
  {
    WriteCounts(s, c.id, CountRead(c.stage.current).value);
  }

  lemma SaveCounts(s: Store, c: Call, x: Inputs)
    requires c.stage.Save? && CallFits(s, c)
    ensures Count(CallStep(s, c, x).0, c.id) == 0
  {
    hide Decode, ToString, Stoll;
    var t := c.stage.task.(id := c.id);
    SavedHashHolds(map[], t);
    HeldIntegers(map[] + FieldsOf(t), t);
  }

  lemma LoopStepKeepsCount(s: Store, l: Loop, x: Inputs, id: Text)
    ensures Count(LoopNext(s, l, x).0, id) == Count(s, id)
    ensures LoopNext(s, l, x).0.HGet(id, RETRY_COUNT) == s.HGet(id, RETRY_COUNT)
  {
    hide Stoi, Stoll, ToString, Decode;
  }

  /** A command of a retry moves it into the pending ones when it counts and out of them when it pushes. */
  lemma AdvancePends(p: Proto, t: nat, x: Inputs, id: Text)
    requires Sound(p, id) && t in p.calls
    ensures Pending(Next(p, Advance(t, x)), id) ==
            if p.calls[t].id == id && p.calls[t].stage.RetryPush? then Pending(p, id) - {t}
            else if p.calls[t].id == id && p.calls[t].stage.RetryWrite? && CountRead(p.calls[t].stage.current).Some?
            then Pending(p, id) + {t}
            else Pending(p, id)
  {
    hide CallStep, CallTouch, CallFits, Decode, CountRead, Sound;
    var c := p.calls[t];
    if c.id == id {
      CallOfSound(p, t, id);
      CallStepPends(p.store, c, x);
    }
  }

  lemma CallStepPends(s: Store, c: Call, x: Inputs)
    requires CallFits(s, c)
    ensures var g := CallStep(s, c, x).1;
            g.Goes? && Pends(g.stage) <==>
            (c.stage.RetryWrite? && CountRead(c.stage.current).Some?) || Owes(c.stage)
  {
    hide Stoi, Stoll, ToString, Decode, GetInt;
  }

  lemma AdvanceExact(p: Proto, t: nat, x: Inputs, id: Text)
    requires Sound(p, id) && Exact(p, id) && t in p.calls
    ensures Exact(Next(p, Advance(t, x)), id) <==> !Stale(p, Advance(t, x), id)
  {
    hide CallStep, Pending, Count, Decode, QueuesFit, CountRead;
    var c, s := p.calls[t], CallStep(p.store, p.calls[t], x).0;
    AdvancePends(p, t, x, id);
    PendingMember(p, t, id);
    if c.id != id { OtherCallStep(p.store, c, x, id); CallStepKeepsCount(p.store, c, x, id); }
    else {
      assert CallFits(p.store, c);
      OwnCallStep(p.store, c, x);
      if c.stage.Save? {
        SaveCounts(p.store, c, x);
        PendingIsFiled(p, id);
      } else if c.stage.RetryWrite? {
        if CountRead(c.stage.current).Some? { CallStepCounts(p.store, c, x); } else { UnreadableCount(p.store, c, x); }
      } else {
        CallStepKeepsCount(p.store, c, x, id);
      }
    }
  }

  lemma UnreadableCount(s: Store, c: Call, x: Inputs)
    requires c.stage.RetryWrite? && CountRead(c.stage.current).None?
    ensures CallStep(s, c, x).0 == s
  {
  }

  lemma PendingMember(p: Proto, t: nat, id: Text)
    requires t in p.calls
    ensures t in Pending(p, id) <==> p.calls[t].id == id && Pends(p.calls[t].stage)
  {
  }

  lemma PendingIsFiled(p: Proto, id: Text)
    requires Sound(p, id)
    ensures Pending(p, id) != {} ==> id in p.store.tasks
  {
    hide Decode;
    if Pending(p, id) != {} {
      var t :| t in Pending(p, id);
      assert CallFits(p.store, p.calls[t]);
    }
  }

  lemma LoopStepExact(p: Proto, x: Inputs, id: Text)
    requires Sound(p, id) && Exact(p, id)
    ensures Exact(Next(p, LoopStep(x)), id)
  {
    hide LoopNext, Count, Decode;
    LoopStepKeepsCount(p.store, p.loop, x, id);
    LoopStepKeepsFile(p.store, p.loop, x, id);
    assert Pending(Next(p, LoopStep(x)), id) == Pending(p, id);
  }

  lemma StepExact(p: Proto, a: Action, id: Text)
    requires Sound(p, id) && Exact(p, id)
    ensures Exact(Next(p, a), id) <==> !Stale(p, a, id)
  {
    hide CallStep, LoopNext, Count, Sound, CountRead;
    match a
    case Advance(t, x) => if t in p.calls { AdvanceExact(p, t, x, id); }
    case LoopStep(x) => LoopStepExact(p, x, id);
    case _ => assert Pending(Next(p, a), id) == Pending(p, id);
  }

  /** Over a whole run, the stored count is exact at every moment if and only if no write of it was stale. */
  lemma {:induction false} CountIsExactUnlessStale(actions: seq<Action>, id: Text)
    requires ProperRun(actions)
    ensures AlwaysExact(actions, id) <==> NeverStale(actions, id)
  {
    if actions == [] {
    } else {
      hide Next, Sound, Proper, Exact, Stale;
      var before := actions[..|actions| - 1];
      CountIsExactUnlessStale(before, id);
      if AlwaysExact(before, id) {
        RecordsStaySound(before, id);
        AlwaysIsNow(before, id);
        StepExact(Run(START, before), actions[|actions| - 1], id);
      }
    }
  }

  lemma AlwaysIsNow(actions: seq<Action>, id: Text)
    requires AlwaysExact(actions, id)
    ensures Exact(Run(START, actions), id)
  {
  }

  // ---------- retries that do not overlap ----------

  /** A retry starts only while no other retry of the task is under way. */
  ghost predicate Lone(p: Proto, a: Action)
  {
    Proper(p, a) && (a.StartRetry? ==> forall t :: !Retrier(p, t, a.id))
  }

  ghost predicate LoneRun(actions: seq<Action>)
  {
    actions == [] ||
    (LoneRun(actions[..|actions| - 1]) && Lone(Run(START, actions[..|actions| - 1]), actions[|actions| - 1]))
  }

  lemma {:induction false} LoneIsProper(actions: seq<Action>)
    requires LoneRun(actions)
    ensures ProperRun(actions)
  {
    if actions == [] {
    } else {
      LoneIsProper(actions[..|actions| - 1]);
    }
  }

  /** The delays of the back-off keys set for the task, in order. */
  function Delays(backoffs: seq<Backoff>, id: Text): seq<int>
  {
    if backoffs == [] then [] else
    var b := backoffs[|backoffs| - 1];
    Delays(backoffs[..|backoffs| - 1], id) + if b.id == id then [b.seconds] else []
  }

  const DELAYS := [1, 2, 4]

  /** What a retry read is still what is stored. */
  ghost predicate Current(s: Store, c: Call)
  {
    match c.stage
    case RetryWorker(n) => n == Count(s, c.id) < 3
    case RetryLoad(n, _) => n == Count(s, c.id) < 3
    case RetryRelease(n, _, _) => n == Count(s, c.id) < 3
    case RetryGet(n, _) => n == Count(s, c.id) < 3
    case RetryMirror(n, _, _) => n == Count(s, c.id) < 3
    case RetryCount(n) => n == Count(s, c.id) < 3
    case RetryWrite(n, current) => n == Count(s, c.id) < 3 && current == s.HGet(c.id, RETRY_COUNT)
    case RetryReread(n) => n == Count(s, c.id) - 1
    case RetryDelay(n, _) => n == Count(s, c.id) - 1
    case _ => true
  }

  /** The retries of the task that have counted and not yet set their back-off. */
  function Owing(p: Proto, id: Text): set<nat>
  {
    set t | t in p.calls && p.calls[t].id == id && Owes(p.calls[t].stage)
  }

  /** No two retries of the task are under way, and what one has read is current. */
  ghost predicate Alone(p: Proto, id: Text)
  {
    && (forall t, u :: Retrier(p, t, id) && Retrier(p, u, id) ==> t == u)
    && (forall t :: Retrier(p, t, id) ==> Current(p.store, p.calls[t]))
  }

  /** At most three retries have counted, and each that no longer owes it has set its back-off. */
  ghost predicate BackedOff(p: Proto, id: Text)
  {
    && |Owing(p, id)| <= Count(p.store, id) <= 3
    && Delays(p.store.backoffs, id) == DELAYS[..Count(p.store, id) - |Owing(p, id)|]
  }

  ghost predicate Orderly(p: Proto, id: Text)
  {
    Alone(p, id) && BackedOff(p, id)
  }

  lemma CallStepDelays(s: Store, c: Call, x: Inputs, id: Text)
    ensures Delays(CallStep(s, c, x).0.backoffs, id) ==
            Delays(s.backoffs, id) + if c.stage.RetryDelay? && c.id == id then [Delay(c.stage.count)] else []
  {
    hide Stoi, Stoll, ToString, Decode;
    if c.stage.RetryDelay? {
      var b := Backoff(c.id, Delay(c.stage.count));
      assert (s.backoffs + [b])[..|s.backoffs|] == s.backoffs;
    } else {
      assert CallStep(s, c, x).0.backoffs == s.backoffs;
    }
  }

  /** The next stage of a retry whose reading is current. */
  lemma RetryStep(s: Store, c: Call, x: Inputs)
    requires CallFits(s, c) && Current(s, c) && 0 <= Count(s, c.id) <= 3 && Retrying(c.stage)
    ensures var (t, g) := CallStep(s, c, x);
            && Count(t, c.id) == Count(s, c.id) + (if c.stage.RetryWrite? then 1 else 0)
            && (g.Goes? ==> Retrying(g.stage) && Current(t, Call(c.id, g.stage)))
            && (g.Goes? && Owes(g.stage) <==> c.stage.RetryWrite? || c.stage.RetryReread?)
            && Count(t, c.id) <= 3
  {
    hide Stoi, Stoll, ToString, Decode, Count;
    if c.stage.RetryWrite? {
      ReadsCount(s, c.id);
      CallStepCounts(s, c, x);
    } else {
      CallStepKeepsCount(s, c, x, c.id);
      if c.stage.RetryRead? { FirstRead(s, c, x); }
    }
  }

  lemma FirstRead(s: Store, c: Call, x: Inputs)
    requires Filed(s, c.id) && c.stage.RetryRead? && 0 <= Count(s, c.id) <= 3
    ensures s.GetTask(c.id, x.junk).Some? && s.GetTask(c.id, x.junk).value.retryCount == Count(s, c.id)
  {
    hide Stoi, Stoll, ToString;
  }

  lemma OwingAfter(p: Proto, t: nat, x: Inputs, id: Text)
    requires Sound(p, id) && t in p.calls
    ensures Owing(Next(p, Advance(t, x)), id) ==
            var g := CallStep(p.store, p.calls[t], x).1;
            if p.calls[t].id == id then Owing(p, id) - {t} + (if g.Goes? && Owes(g.stage) then {t} else {})
              else Owing(p, id)
  {
    hide CallStep, Sound;
  }

  lemma OneOwes(p: Proto, t: nat, id: Text)
    requires Retrier(p, t, id) && forall u :: Retrier(p, u, id) ==> t == u
    ensures Owing(p, id) == if Owes(p.calls[t].stage) then {t} else {}
  {
    forall u | u in Owing(p, id) ensures u == t { assert Retrier(p, u, id); }
  }

  /** A command of the retry itself. */
  lemma OwnAdvanceAlone(p: Proto, t: nat, x: Inputs, id: Text)
    requires Sound(p, id) && Orderly(p, id) && Retrier(p, t, id)
    ensures Alone(Next(p, Advance(t, x)), id)
  {
    hide CallStep, CallTouch, Count, Sound, Delays, Owing, Current, DELAYS;
    var q := Next(p, Advance(t, x));
    CallOfSound(p, t, id);
    RetryStep(p.store, p.calls[t], x);
    forall u | Retrier(q, u, id) ensures u == t { assert Retrier(p, u, id); }
  }

  lemma OwnAdvanceBackedOff(p: Proto, t: nat, x: Inputs, id: Text)
    requires Sound(p, id) && Orderly(p, id) && Retrier(p, t, id)
    ensures BackedOff(Next(p, Advance(t, x)), id)
  {
    hide CallStep, CallTouch, Count, Sound, Delays, Owing, Current, DELAYS, Delay;
    var c := p.calls[t];
    CallOfSound(p, t, id);
    RetryStep(p.store, c, x);
    CallStepDelays(p.store, c, x, id);
    OwingAfter(p, t, x, id);
    OneOwes(p, t, id);
    if c.stage.RetryDelay? {
      CurrentDelay(p.store, c);
      NextDelay(Count(p.store, id));
    }
  }

  lemma OwnAdvanceOrderly(p: Proto, t: nat, x: Inputs, id: Text)
    requires Sound(p, id) && Orderly(p, id) && Retrier(p, t, id)
    ensures Orderly(Next(p, Advance(t, x)), id)
  {
    hide Next, Sound, Alone, BackedOff;
    OwnAdvanceAlone(p, t, x, id);
    OwnAdvanceBackedOff(p, t, x, id);
  }

  lemma CallOfSound(p: Proto, t: nat, id: Text)
    requires Sound(p, id) && t in p.calls && p.calls[t].id == id
    ensures CallFits(p.store, p.calls[t])
  {
    hide CallFits, SubmittedOnce, QueuesFit;
  }

  lemma CurrentDelay(s: Store, c: Call)
    requires Current(s, c) && c.stage.RetryDelay?
    ensures c.stage.count == Count(s, c.id) - 1
  {
    hide Count;
  }

  lemma NextDelay(n: int)
    requires 1 <= n <= 3
    ensures DELAYS[..n] == DELAYS[..n - 1] + [Delay(n - 1)]
  {
    assert Delay(n - 1) == DELAYS[n - 1];
  }

  /** A command of any other call. */
  lemma OtherAdvanceAlone(p: Proto, t: nat, x: Inputs, id: Text)
    requires Sound(p, id) && Orderly(p, id) && t in p.calls && !Retrier(p, t, id)
    ensures Alone(Next(p, Advance(t, x)), id)
  {
    hide CallStep, CallTouch, Count, Delays, Owing, Current, DELAYS, BackedOff, Sound;
    var c, q := p.calls[t], Next(p, Advance(t, x));
    CallStepRetrying(p.store, c, x);
    forall u | Retrier(q, u, id) ensures Retrier(p, u, id) && Current(q.store, q.calls[u]) {
      assert Retrier(p, u, id);
      if c.id == id && c.stage.Save? {
        SavingIsUnfiled(p, t, id);
        RetrierIsFiled(p, u, id);
      } else {
        CallStepKeepsCount(p.store, c, x, id);
        CurrentLasts(p.store, q.store, p.calls[u]);
      }
    }
  }

  lemma SavingIsUnfiled(p: Proto, t: nat, id: Text)
    requires Sound(p, id) && t in p.calls && p.calls[t].id == id && p.calls[t].stage.Save?
    ensures id !in p.store.tasks
  {
    CallOfSound(p, t, id);
  }

  lemma OtherAdvanceBackedOff(p: Proto, t: nat, x: Inputs, id: Text)
    requires Sound(p, id) && Orderly(p, id) && t in p.calls && !Retrier(p, t, id)
    ensures BackedOff(Next(p, Advance(t, x)), id)
  {
    hide CallStep, CallTouch, Count, Delays, Owing, Current, DELAYS, Alone, Sound;
    var c, q := p.calls[t], Next(p, Advance(t, x));
    CallStepDelays(p.store, c, x, id);
    CallStepRetrying(p.store, c, x);
    OwingAfter(p, t, x, id);
    NotOwing(p, t, id);
    assert Owing(q, id) == Owing(p, id);
    if c.id == id && c.stage.Save? {
      SavingIsUnfiled(p, t, id);
      CallOfSound(p, t, id);
      SaveCounts(p.store, c, x);
      NoneRetrying(p, id);
    } else {
      CallStepKeepsCount(p.store, c, x, id);
    }
  }

  lemma OtherAdvanceOrderly(p: Proto, t: nat, x: Inputs, id: Text)
    requires Sound(p, id) && Orderly(p, id) && t in p.calls && !Retrier(p, t, id)
    ensures Orderly(Next(p, Advance(t, x)), id)
  {
    hide Next, Sound, Alone, BackedOff;
    OtherAdvanceAlone(p, t, x, id);
    OtherAdvanceBackedOff(p, t, x, id);
  }

  lemma CurrentLasts(s: Store, t: Store, c: Call)
    requires Current(s, c) && Count(s, c.id) == Count(t, c.id) && s.HGet(c.id, RETRY_COUNT) == t.HGet(c.id, RETRY_COUNT)
    ensures Current(t, c)
  {
    hide Count;
  }

  lemma NotOwing(p: Proto, t: nat, id: Text)
    ensures t in Owing(p, id) ==> Retrier(p, t, id)
  {
  }

  lemma CallStepRetrying(s: Store, c: Call, x: Inputs)
    ensures CallStep(s, c, x).1.Goes? && Retrying(CallStep(s, c, x).1.stage) ==> Retrying(c.stage)
  {
    hide Stoi, Stoll, ToString, Decode;
  }

  /** An unsaved task has no retry and no count. */
  lemma NoneRetrying(p: Proto, id: Text)
    requires Sound(p, id) && id !in p.store.tasks
    ensures forall t :: !Retrier(p, t, id)
    ensures Count(p.store, id) == 0 && Owing(p, id) == {}
  {
    forall t ensures !Retrier(p, t, id) { RetrierIsFiled(p, t, id); }
    forall t ensures t !in Owing(p, id) { NotOwing(p, t, id); }
  }

  lemma RetrierIsFiled(p: Proto, t: nat, id: Text)
    requires Sound(p, id)
    ensures Retrier(p, t, id) ==> id in p.store.tasks
  {
    hide Decode;
    if Retrier(p, t, id) { assert CallFits(p.store, p.calls[t]); }
  }

  lemma LoopStepOrderly(p: Proto, x: Inputs, id: Text)
    requires Sound(p, id) && Orderly(p, id)
    ensures Orderly(Next(p, LoopStep(x)), id)
  {
    hide LoopNext, Count, Delays, Sound;
    var q := Next(p, LoopStep(x));
    LoopStepKeepsCount(p.store, p.loop, x, id);
    LoopStepKeepsBackoffs(p.store, p.loop, x);
    assert Owing(q, id) == Owing(p, id);
    forall t | Retrier(q, t, id) ensures Retrier(p, t, id) {}
  }

  lemma LoopStepKeepsBackoffs(s: Store, l: Loop, x: Inputs)
    ensures LoopNext(s, l, x).0.backoffs == s.backoffs
  {
    hide Stoi, Stoll, ToString, Decode;
  }

  lemma StartAlone(p: Proto, a: Action, id: Text)
    requires Alone(p, id) && Lone(p, a) && !a.Advance? && !a.LoopStep?
    ensures Alone(Next(p, a), id)
  {
    hide Count, Proper;
    var q := Next(p, a);
    assert q.store == p.store;
    forall t | Retrier(q, t, id)
      ensures (Retrier(p, t, id) && q.calls[t] == p.calls[t]) ||
              (a.StartRetry? && t == a.thread && a.id == id && q.calls[t].stage == RetryRead)
    {}
  }

  lemma StartBackedOff(p: Proto, a: Action, id: Text)
    requires BackedOff(p, id) && !a.Advance? && !a.LoopStep?
    ensures BackedOff(Next(p, a), id)
  {
    hide Count, Delays, DELAYS;
    assert Owing(Next(p, a), id) == Owing(p, id);
  }

  lemma StartOrderly(p: Proto, a: Action, id: Text)
    requires Orderly(p, id) && Lone(p, a) && !a.Advance? && !a.LoopStep?
    ensures Orderly(Next(p, a), id)
  {
    hide Next, Lone, Alone, BackedOff;
    StartAlone(p, a, id);
    StartBackedOff(p, a, id);
  }

  lemma StepOrderly(p: Proto, a: Action, id: Text)
    requires Sound(p, id) && Orderly(p, id) && Lone(p, a)
    ensures Orderly(Next(p, a), id) && !Stale(p, a, id)
  {
    hide CallStep, LoopNext, Sound, Orderly, Proper;
    match a
    case Advance(t, x) =>
      if t in p.calls {
        if Retrier(p, t, id) { OwnAdvanceOrderly(p, t, x, id); CurrentIsNotStale(p, t, x, id); }
        else { OtherAdvanceOrderly(p, t, x, id); }
      }
    case LoopStep(x) => LoopStepOrderly(p, x, id);
    case _ => StartOrderly(p, a, id);
  }

  lemma CurrentIsNotStale(p: Proto, t: nat, x: Inputs, id: Text)
    requires Sound(p, id) && Orderly(p, id) && Retrier(p, t, id)
    ensures !Stale(p, Advance(t, x), id)
  {
    hide Count, CountRead, Decode;
    assert CallFits(p.store, p.calls[t]);
    ReadsCount(p.store, id);
  }

  lemma {:induction false} LoneRunsStayOrderly(actions: seq<Action>, id: Text)
    requires LoneRun(actions)
    ensures Orderly(Run(START, actions), id) && NeverStale(actions, id)
  {
    hide Next, Sound, Lone, Orderly;
    if actions == [] {
      StartIsOrderly(id);
    } else {
      var before := actions[..|actions| - 1];
      LoneRunsStayOrderly(before, id);
      LoneIsProper(before);
      RecordsStaySound(before, id);
      StepOrderly(Run(START, before), actions[|actions| - 1], id);
    }
  }

  lemma StartIsOrderly(id: Text)
    ensures Orderly(START, id)
  {
    assert DELAYS[..0] == [];
  }

  /**
   When submissions are new and retries of one task do not overlap, a task goes to a worker at most 1 + n times,
   where n <= 3 is its stored count; the queues, the loop and the workers have had it 1 + n times less what a
   retry or the submission has still to push; and its back-offs are 1, 2, 4 in this order.
   */
  lemma {:induction false} RetriesAreBounded(actions: seq<Action>, id: Text)
    requires LoneRun(actions)
    ensures var p := Run(START, actions);
            var n := Count(p.store, id);
            && p.delivered[id] <= 1 + n <= 4
            && Times(p.store, id) + Held(p.loop, id) + p.delivered[id] + (if id == [] then p.dropped else 0)
               == p.submitted[id] + n - |Pending(p, id)|
            && p.submitted[id] <= 1
            && |Owing(p, id)| <= n && Delays(p.store.backoffs, id) == DELAYS[..n - |Owing(p, id)|]
  {
    hide Next, Lone, Run, LoneRun, ProperRun, NeverStale, Times, Held, Count, Pending, Delays, Decode;
    LoneRunsStayOrderly(actions, id);
    LoneIsProper(actions);
    RecordsStaySound(actions, id);
    CountIsExactUnlessStale(actions, id);
    AlwaysIsNow(actions, id);
    DeliveryBalances(actions, id);
    PendingIsFiled(Run(START, actions), id);
    UnfiledCount(Run(START, actions).store, id);
  }

  lemma UnfiledCount(s: Store, id: Text)
    ensures id !in s.tasks ==> Count(s, id) == 0
  {
  }

  // ---------- retries that do overlap ----------

  ghost predicate Reached(p: Proto)
  {
    exists actions :: ProperRun(actions) && Run(START, actions) == p
  }

  /** Reached without a stale write of the task's count. */
  ghost predicate FreshlyReached(p: Proto, id: Text)
  {
    exists actions :: ProperRun(actions) && NeverStale(actions, id) && Run(START, actions) == p
  }

  lemma Reach(p: Proto, a: Action)
    requires Reached(p) && Proper(p, a)
    ensures Reached(Next(p, a))
  {
    hide Next, Proper;
    var actions :| ProperRun(actions) && Run(START, actions) == p;
    assert (actions + [a])[..|actions|] == actions;
    assert ProperRun(actions + [a]) && Run(START, actions + [a]) == Next(p, a);
  }

  lemma FreshReach(p: Proto, a: Action, id: Text)
    requires FreshlyReached(p, id) && Proper(p, a) && !Stale(p, a, id)
    ensures FreshlyReached(Next(p, a), id)
  {
    hide Next, Proper, Stale;
    var actions :| ProperRun(actions) && NeverStale(actions, id) && Run(START, actions) == p;
    assert (actions + [a])[..|actions|] == actions;
    assert ProperRun(actions + [a]) && Run(START, actions + [a]) == Next(p, a);
  }

  lemma FreshIsReached(p: Proto, id: Text)
    requires FreshlyReached(p, id)
    ensures Reached(p)
  {
    hide Run, ProperRun;
  }

  lemma ReachedIsSound(p: Proto, id: Text)
    requires Reached(p)
    ensures Sound(p, id)
  {
    hide Run, Sound;
    var actions :| ProperRun(actions) && Run(START, actions) == p;
    RecordsStaySound(actions, id);
  }

  const ONE_TASK: Text := [49]
  const INPUTS := Inputs(0, 0, _ => 0, TaskInfo(ONE_TASK, 0, 2, [], 0, 0, 0, 0, 0, [], []), [])

  /** The task is saved, with its retries counted so far and no worker, and the loop has not begun. */
  ghost predicate Waiting(p: Proto, n: Int64)
  {
    && ONE_TASK in p.store.tasks && p.store.HGet(ONE_TASK, RETRY_COUNT) == ToString(n)
    && p.store.HGet(ONE_TASK, WORKER_ID) == []
  }

  /** Threads from `j` up to `k`, each stopped at stage `g` of a retry. */
  ghost predicate Stopped(p: Proto, j: nat, k: nat, g: Stage)
  {
    && (forall t :: t in p.calls <==> j <= t < k)
    && (forall t :: j <= t < k ==> p.calls[t] == Call(ONE_TASK, g))
  }

  /** Past the guard, and about to read the count; or about to write, the count read. */
  const PAST_GUARD := RetryCount(0)
  const BEFORE_WRITE := RetryWrite(0, ToString(0))

  lemma OneSubmitted() returns (p: Proto)
    ensures FreshlyReached(p, ONE_TASK) && Waiting(p, 0) && p.calls == map[] && p.retried[ONE_TASK] == 0
    ensures p.store.high == [ONE_TASK] && p.store.loads == map[] && p.loop == AtHigh && p.balancer == START.balancer
  {
    hide ToString, FreshlyReached, Run, ProperRun, Queued, NeverStale;
    NothingIsReached();
    var t := INPUTS.junk;
    FreshReach(START, StartSubmit(0, t), ONE_TASK);
    var q := Next(START, StartSubmit(0, t));
    assert q == START.(calls := map[0 := Call(ONE_TASK, Save(t))]);
    FreshReach(q, Advance(0, INPUTS), ONE_TASK);
    var r := Next(q, Advance(0, INPUTS));
    SavedHashHolds(map[], t);
    assert r.store.tasks == map[ONE_TASK := map[] + FieldsOf(t)];
    assert r.calls == map[0 := Call(ONE_TASK, PushNew(2))];
    FreshReach(r, Advance(0, INPUTS), ONE_TASK);
    p := Next(r, Advance(0, INPUTS));
    assert p.store == r.store.(high := [ONE_TASK]) && p.calls == map[];
  }

  lemma NothingIsReached()
    ensures FreshlyReached(START, ONE_TASK)
  {
    assert ProperRun([]) && NeverStale([], ONE_TASK) && Run(START, []) == START;
  }

  lemma {:induction false} AllStop(k: nat) returns (p: Proto)
    ensures FreshlyReached(p, ONE_TASK) && Stopped(p, 0, k, PAST_GUARD) && Waiting(p, 0) && p.retried[ONE_TASK] == 0
  {
    if k == 0 {
      p := OneSubmitted();
    } else {
      var q := AllStop(k - 1);
      p := OneMoreStops(q, k - 1);
    }
  }

  lemma OneMoreStops(p: Proto, k: nat) returns (q: Proto)
    requires FreshlyReached(p, ONE_TASK) && Stopped(p, 0, k, PAST_GUARD) && Waiting(p, 0) && p.retried[ONE_TASK] == 0
    ensures FreshlyReached(q, ONE_TASK) && Stopped(q, 0, k + 1, PAST_GUARD) && Waiting(q, 0) && q.retried[ONE_TASK] == 0
  {
    hide ToString, FreshlyReached, CallStep, CallTouch;
    q := OneStarts(p, k);
    OneReadsWorker(q.store);
    q := OneReads(q, k, PAST_GUARD);
  }

  lemma OneReadsWorker(s: Store)
    requires s.HGet(ONE_TASK, WORKER_ID) == []
    ensures CallStep(s, Call(ONE_TASK, RetryWorker(0)), INPUTS) == (s, Goes(PAST_GUARD))
  {
  }

  /** A retry starts on a free thread and passes the guard. */
  lemma OneStarts(p: Proto, k: nat) returns (q: Proto)
    requires FreshlyReached(p, ONE_TASK) && k !in p.calls && Waiting(p, 0) && p.retried[ONE_TASK] == 0
    ensures FreshlyReached(q, ONE_TASK) && q.store == p.store && q.retried == p.retried
    ensures q.calls == p.calls[k := Call(ONE_TASK, RetryWorker(0))]
  {
    hide ToString, FreshlyReached, Stoll, Sound, Count, Decode, CallTouch;
    q := Next(p, StartRetry(k, ONE_TASK));
    assert q == p.(calls := p.calls[k := Call(ONE_TASK, RetryRead)]);
    FreshReach(p, StartRetry(k, ONE_TASK), ONE_TASK);
    FreshIsReached(q, ONE_TASK);
    ReachedIsSound(q, ONE_TASK);
    SoundTaskIsFiled(q, ONE_TASK);
    StoredCount(q.store, ONE_TASK, 0);
    FirstRead(q.store, q.calls[k], INPUTS);
    q := OneReads(q, k, RetryWorker(0));
  }

  /** A command that only reads. */
  lemma OneReads(p: Proto, k: nat, g: Stage) returns (q: Proto)
    requires FreshlyReached(p, ONE_TASK) && k in p.calls && CallStep(p.store, p.calls[k], INPUTS) == (p.store, Goes(g))
    requires !p.calls[k].stage.RetryWrite?
    ensures FreshlyReached(q, ONE_TASK) && q.store == p.store && q.calls == p.calls[k := Call(p.calls[k].id, g)]
    ensures q.retried == p.retried
  {
    hide CallStep, CallTouch, FreshlyReached;
    FreshReach(p, Advance(k, INPUTS), ONE_TASK);
    q := Next(p, Advance(k, INPUTS));
    assert !p.calls[k].stage.RetryPush? by { PushesEnd(p.store, p.calls[k], INPUTS); }
  }

  lemma PushesEnd(s: Store, c: Call, x: Inputs)
    ensures CallStep(s, c, x).1.Goes? ==> !Pushes(c.stage)
  {
  }

  lemma SoundTaskIsFiled(p: Proto, id: Text)
    requires Sound(p, id) && id in p.store.tasks
    ensures Filed(p.store, id)
  {
  }

  lemma StoredCount(s: Store, id: Text, n: Int64)
    requires id in s.tasks && s.HGet(id, RETRY_COUNT) == ToString(n)
    ensures Count(s, id) == n
  {
    NumeralRoundTrip(n);
  }

  /** The stopped threads read the count too, all before one writes. */
  lemma {:induction false} AllRead(p: Proto, j: nat, k: nat) returns (q: Proto)
    requires Reached(p) && Waiting(p, 0) && p.retried[ONE_TASK] == 0 && j <= k
    requires forall t :: t in p.calls <==> 0 <= t < k
    requires forall t :: 0 <= t < k ==> p.calls[t] == Call(ONE_TASK, if t < j then BEFORE_WRITE else PAST_GUARD)
    ensures Reached(q) && Stopped(q, 0, k, BEFORE_WRITE) && Waiting(q, 0) && q.retried[ONE_TASK] == 0
    decreases k - j
  {
    hide ToString, Reached;
    q := p;
    if j < k {
      Reach(p, Advance(j, INPUTS));
      q := AllRead(Next(p, Advance(j, INPUTS)), j + 1, k);
    }
  }

  /** A retry about to write goes on to its end. */
  lemma OneMoreGoes(p: Proto, j: nat) returns (q: Proto)
    requires Reached(p) && ONE_TASK in p.store.tasks && j in p.calls
    requires p.calls[j] == Call(ONE_TASK, BEFORE_WRITE)
    ensures Reached(q) && ONE_TASK in q.store.tasks && q.calls == p.calls - {j}
    ensures q.retried[ONE_TASK] == p.retried[ONE_TASK] + 1 && Count(q.store, ONE_TASK) == 1
  {
    hide ToString, Reached, Stoll, Sound, Count, Decode;
    ReachedIsSound(p, ONE_TASK);
    SoundTaskIsFiled(p, ONE_TASK);
    NumeralRoundTrip(0);
    assert CountRead(ToString(0)) == Some(0);
    CallStepCounts(p.store, p.calls[j], INPUTS);
    OwnCallStep(p.store, p.calls[j], INPUTS);
    Reach(p, Advance(j, INPUTS));
    q := Next(p, Advance(j, INPUTS));
    assert q.calls[j] == Call(ONE_TASK, RetryReread(0));
    q := CountedGoesOn(q, j);
  }

  /** Having counted, it reads the record again, sets the back-off and pushes. */
  lemma CountedGoesOn(p: Proto, j: nat) returns (q: Proto)
    requires Reached(p) && Filed(p.store, ONE_TASK) && j in p.calls && p.calls[j] == Call(ONE_TASK, RetryReread(0))
    ensures Reached(q) && ONE_TASK in q.store.tasks && q.calls == p.calls - {j}
    ensures q.retried[ONE_TASK] == p.retried[ONE_TASK] + 1 && Count(q.store, ONE_TASK) == Count(p.store, ONE_TASK)
    ensures q.store.tasks == p.store.tasks
    ensures FreshlyReached(p, ONE_TASK) ==> FreshlyReached(q, ONE_TASK)
  {
    hide ToString, Reached, FreshlyReached, Stoll, Sound, Count, Decode;
    q := p;
    for i := 0 to 3
      invariant Reached(q) && ONE_TASK in q.store.tasks && q.store.tasks == p.store.tasks
      invariant i < 3 ==> j in q.calls && q.calls == p.calls[j := q.calls[j]] && q.calls[j].id == ONE_TASK
      invariant i == 0 ==> q == p
      invariant i == 1 ==> q.calls[j].stage.RetryDelay?
      invariant i == 2 ==> q.calls[j].stage.RetryPush?
      invariant i == 3 ==> q.calls == p.calls - {j}
      invariant q.retried[ONE_TASK] == p.retried[ONE_TASK] + (if i == 3 then 1 else 0)
      invariant FreshlyReached(p, ONE_TASK) ==> FreshlyReached(q, ONE_TASK)
    {
      Reach(q, Advance(j, INPUTS));
      if FreshlyReached(p, ONE_TASK) { FreshReach(q, Advance(j, INPUTS), ONE_TASK); }
      q := Next(q, Advance(j, INPUTS));
    }
    SameTasksCount(p.store, q.store);
  }

  lemma SameTasksCount(s: Store, t: Store)
    requires s.tasks == t.tasks
    ensures Count(s, ONE_TASK) == Count(t, ONE_TASK)
  {
  }

  lemma {:induction false} AllGo(p: Proto, j: nat, k: nat) returns (q: Proto)
    requires Reached(p) && Stopped(p, j, k, BEFORE_WRITE) && j <= k && p.retried[ONE_TASK] == j
    requires ONE_TASK in p.store.tasks && (j > 0 ==> Count(p.store, ONE_TASK) == 1)
    ensures Reached(q) && q.retried[ONE_TASK] == k && (k > 0 ==> Count(q.store, ONE_TASK) == 1)
    decreases k - j
  {
    hide Reached, Count;
    q := p;
    if j < k {
      q := OneMoreGoes(p, j);
      q := AllGo(q, j + 1, k);
    }
  }

  /** Without that discipline nothing bounds the retries: `k` of them that overlap push `k` times and count 1. */
  lemma {:induction false} OverlapIsUnbounded(k: nat)
    requires k > 0
    ensures exists actions :: ProperRun(actions) && Count(Run(START, actions).store, ONE_TASK) == 1
                              && Run(START, actions).retried[ONE_TASK] == k
  {
    hide Run, Count;
    var p := AllStop(k);
    FreshIsReached(p, ONE_TASK);
    p := AllRead(p, 0, k);
    p := AllGo(p, 0, k);
    var actions :| ProperRun(actions) && Run(START, actions) == p;
  }

  /** A retry past the guard reads the count `n` and goes on to its end, with no other in between. */
  lemma OneMoreInTurn(p: Proto, j: nat, n: Int32) returns (q: Proto)
    requires FreshlyReached(p, ONE_TASK) && Waiting(p, n) && j in p.calls && p.calls[j] == Call(ONE_TASK, PAST_GUARD)
    ensures FreshlyReached(q, ONE_TASK) && Waiting(q, n + 1) && q.calls == p.calls - {j}
    ensures q.retried[ONE_TASK] == p.retried[ONE_TASK] + 1
  {
    hide ToString, Reached, FreshlyReached, Stoll, Sound, Count, Decode;
    FreshIsReached(p, ONE_TASK);
    ReachedIsSound(p, ONE_TASK);
    SoundTaskIsFiled(p, ONE_TASK);
    NumeralRoundTrip(n);
    StoredCount(p.store, ONE_TASK, n);
    assert CountRead(ToString(n)) == Some(n);
    FreshReach(p, Advance(j, INPUTS), ONE_TASK);
    q := Next(p, Advance(j, INPUTS));
    assert q.calls[j] == Call(ONE_TASK, RetryWrite(0, ToString(n)));
    FreshReach(q, Advance(j, INPUTS), ONE_TASK);
    OwnCallStep(q.store, q.calls[j], INPUTS);
    q := Next(q, Advance(j, INPUTS));
    assert q.calls[j] == Call(ONE_TASK, RetryReread(0));
    FreshIsReached(q, ONE_TASK);
    var written := q;
    q := CountedGoesOn(q, j);
  }

  /** The first `m` of them do, as long as the count fits 32 bits. */
  lemma {:induction false} AllInTurn(p: Proto, j: nat, m: nat, k: nat) returns (q: Proto)
    requires FreshlyReached(p, ONE_TASK) && Stopped(p, j, k, PAST_GUARD) && j <= m <= k && m <= TWO_31
    requires Waiting(p, j) && p.retried[ONE_TASK] == j
    ensures FreshlyReached(q, ONE_TASK) && Stopped(q, m, k, PAST_GUARD) && Waiting(q, m) && q.retried[ONE_TASK] == m
    decreases m - j
  {
    hide FreshlyReached, Waiting, ToString;
    q := p;
    if j < m {
      q := OneMoreInTurn(p, j, j);
      q := AllInTurn(q, j + 1, m, k);
    }
  }

  /** Nor does an exact count: `k` of them that pass the guard and then count in turn push `k` times, count `k`, and
      write nothing stale. So both conditions are needed, and neither gives the other. */
  lemma {:induction false} OvershootWithoutStaleWrite(k: nat)
    requires k <= TWO_31
    ensures exists actions :: ProperRun(actions) && NeverStale(actions, ONE_TASK)
                              && Count(Run(START, actions).store, ONE_TASK) == k
                              && Run(START, actions).retried[ONE_TASK] == k
  {
    hide Run, Count, ToString, ProperRun, NeverStale;
    var p := AllStop(k);
    p := AllInTurn(p, 0, k, k);
    StoredCount(p.store, ONE_TASK, k);
    var actions :| ProperRun(actions) && NeverStale(actions, ONE_TASK) && Run(START, actions) == p;
  }
}
