/**
 What the load balancer promises over whole runs: how little the ring moves, what reconciliation
 leaves, that the dead stay unchosen, and how even the two counting strategies are.
 */
module Balancing {
  import opened Texts
  import opened Division
  import opened Hashing
  import opened LoadBalancers
  import CB = CircuitBreakers

  // ---------- answers and effects of one selection ----------

  /** "" exactly when nobody is eligible, otherwise an eligible worker, whatever the strategy. */
  lemma AnswerIsEligible(b: Balancer, task: Text, now: Readings, r: Text)
    requires b.IsChoice(task, now, r)
    ensures b.EligibleSet(now) != {} ==> r in b.EligibleSet(now)
    ensures [] !in b.workers ==> (r == [] <==> b.EligibleSet(now) == {})
  {
    var e := b.EligibleSet(now);
    InOrderElements(e);
    if e != {} && b.strategy == ROUND_ROBIN {
      NoElements(InOrder(e));
      assert InOrder(e)[b.index % |InOrder(e)|] in Elements(InOrder(e));
    }
  }

  /**
   A selection moves the expired OPEN breakers of active workers to HALF_OPEN, chosen or not, and does nothing else.
   */
  lemma SelectionOnlyHalfOpensExpired(b: Balancer, now: Readings, id: Text)
    requires id in b.breakers
    ensures var f := b.breakers[id];
            b.AfterSelect(now).breakers[id] ==
            if b.Active(id) && f.state == CB.OPEN && CB.Seconds(now(id) - f.lastFailureTime) >= 30
              then f.(state := CB.HALF_OPEN) else f
    ensures b.AfterSelect(now).workers == b.workers && b.AfterSelect(now).breakers.Keys == b.breakers.Keys
  {
  }

  // ---------- the ring ----------

  ghost predicate DistinctHashes(e: set<Text>)
  {
    forall v, w :: v in e && w in e && HashOf(v) == HashOf(w) ==> v == w
  }

  lemma SameDistance(h: Word, v: Text, w: Text)
    ensures Distance(h, v) == Distance(h, w) <==> HashOf(v) == HashOf(w)
  {
  }

  /** Without collisions the circular successor is one worker; with them it is one place on the ring. */
  lemma RingChoiceUnique(e: set<Text>, h: Word, r: Text, s: Text)
    requires RingChoice(e, h, r) && RingChoice(e, h, s)
    ensures HashOf(r) == HashOf(s)
    ensures DistinctHashes(e) ==> r == s
  {
    SameDistance(h, r, s);
  }

  /** "ab" and "bA" share a place, so either may be chosen: uniqueness does need distinct hashes. */
  lemma CollidingNamesTie(h: Word)
    ensures var e: set<Text> := {[97, 98], [98, 65]}; RingChoice(e, h, [97, 98]) && RingChoice(e, h, [98, 65])
  {
    TwoCharacters([97, 98]);
    TwoCharacters([98, 65]);
  }

  lemma TwoCharacters(t: Text)
    requires |t| == 2
    ensures Base33(t) == 33 * Char(t[0]) + Char(t[1])
  {
    assert t[..1][..0] == [];
    assert Base33(t[..1]) == Char(t[0]);
  }

  /** Taking away a worker moves no task that had not chosen it. */
  lemma RemovalIsMinimal(e: set<Text>, w: Text, h: Word, r: Text, s: Text)
    requires RingChoice(e, h, r) && RingChoice(e - {w}, h, s) && r != w
    ensures HashOf(s) == HashOf(r)
    ensures DistinctHashes(e) ==> s == r
  {
    assert RingChoice(e - {w}, h, r);
    RingChoiceUnique(e - {w}, h, r, s);
  }

  /** Adding a worker moves tasks only to it. */
  lemma AdditionIsMinimal(e: set<Text>, w: Text, h: Word, r: Text, s: Text)
    requires RingChoice(e, h, r) && RingChoice(e + {w}, h, s) && s != w
    ensures HashOf(s) == HashOf(r)
    ensures DistinctHashes(e) ==> s == r
  {
    assert RingChoice(e, h, s);
    RingChoiceUnique(e, h, r, s);
  }

  lemma DeathLeavesOthersEligible(b: Balancer, w: Text, now: Readings)
    ensures b.WithDead(w).EligibleSet(now) == b.EligibleSet(now) - {w}
  {
    forall id ensures b.WithDead(w).Eligible(id, now) <==> b.Eligible(id, now) && id != w {}
  }

  /** Marking a worker dead changes no task's choice except those that had chosen it. */
  lemma DeathMovesOnlyItsOwnTasks(b: Balancer, w: Text, task: Text, now: Readings, r: Text, s: Text)
    requires b.strategy == CONSISTENT_HASH && task != [] && DistinctHashes(b.workers.Keys)
    requires b.IsChoice(task, now, r) && b.WithDead(w).IsChoice(task, now, s)
    requires r != w
    ensures s == r
  {
    var e := b.EligibleSet(now);
    DeathLeavesOthersEligible(b, w, now);
    if e != {} {
      assert r in e - {w};
      RemovalIsMinimal(e, w, HashOf(task), r, s);
    }
  }

  /** A newly listed worker changes a task's choice only to itself. */
  lemma JoiningMovesTasksOnlyToItself(b: Balancer, joined: ServiceInfo, beat: int, task: Text, now: Readings, r: Text,
        s: Text)
    requires b.strategy == CONSISTENT_HASH && task != [] && DistinctHashes(b.workers.Keys)
    requires joined.id !in b.workers
    requires b.IsChoice(task, now, r) && b.Upsert(joined, beat).IsChoice(task, now, s)
    ensures s == r || s == joined.id
  {
    var e := b.EligibleSet(now);
    var c := b.Upsert(joined, beat);
    assert c.EligibleSet(now) == e + {joined.id} by {
      forall id ensures c.Eligible(id, now) <==> b.Eligible(id, now) || id == joined.id {}
    }
    if e != {} && s != joined.id {
      AdditionIsMinimal(e, joined.id, HashOf(task), r, s);
    }
  }

  /** The names workers register under never collide, so the ring over them always meets the condition above. */
  lemma WorkerNamesHaveDistinctHashes(ids: set<Text>)
    requires forall id :: id in ids ==> exists n: Int32 :: id == WorkerName(n)
    ensures DistinctHashes(ids)
  {
    forall v, w | v in ids && w in ids && HashOf(v) == HashOf(w) ensures v == w {
      var m: Int32 :| v == WorkerName(m);
      var n: Int32 :| w == WorkerName(n);
      if m != n { WorkerNamesNeverCollide(m, n); }
    }
  }

  // ---------- reconciliation ----------

  /** The last position that lists `id`. */
  function LastListing(services: seq<ServiceInfo>, id: Text): (k: nat)
    requires id in Listed(services)
    ensures k < |services| && services[k].id == id
    ensures forall j :: k < j < |services| ==> services[j].id != id
  {
    var n := |services| - 1;
    if services[n].id == id then n else
    assert forall s :: s in services && s != services[n] ==> s in services[..n];
    LastListing(services[..n], id)
  }

  lemma ListedNext(services: seq<ServiceInfo>)
    requires services != []
    ensures Listed(services) == Listed(services[..|services| - 1]) + {services[|services| - 1].id}
  {
    assert services == services[..|services| - 1] + [services[|services| - 1]];
  }

  /** A listed worker keeps its load and status if it was known, starts idle and active if not;
      its last listing gives address, port and heartbeat. */
  function Refreshed(b: Balancer, services: seq<ServiceInfo>, beats: nat -> int, id: Text): WorkerNode
    requires id in Listed(services)
  {
    var k := LastListing(services, id);
    var kept := if id in b.workers then b.workers[id] else WorkerNode(id, [], 0, 0, ACTIVE, 0);
    kept.(address := services[k].address, port := services[k].port, lastHeartbeat := beats(k))
  }

  lemma {:induction false} MergedAt(b: Balancer, services: seq<ServiceInfo>, beats: nat -> int, id: Text)
    requires b.KeysAgree()
    ensures var c := b.Merged(services, beats);
            && c.index == b.index && c.strategy == b.strategy
            && (id in c.workers <==> id in b.workers || id in Listed(services))
            && (id in c.breakers <==> id in b.workers || id in Listed(services))
            && (id in Listed(services) ==> c.workers[id] == Refreshed(b, services, beats, id))
            && (id in b.workers && id !in Listed(services) ==> c.workers[id] == b.workers[id])
            && (id in c.breakers ==> c.breakers[id] == if id in b.workers then b.breakers[id] else CB.INITIAL)
  {
    if services == [] {
    } else {
      var n := |services| - 1;
      MergedAt(b, services[..n], beats, id);
      MergedAt(b, services[..n], beats, services[n].id);
      ListedNext(services);
    }
  }

  /** Reconciliation leaves exactly the listed workers, with duplicates or without, each with its breaker. */
  lemma ReconciliationIsExact(b: Balancer, services: seq<ServiceInfo>, beats: nat -> int)
    requires b.KeysAgree()
    ensures b.Reconciled(services, beats).workers.Keys == Listed(services)
    ensures b.Reconciled(services, beats).breakers.Keys == Listed(services)
    ensures b.Reconciled(services, beats).index == b.index && b.Reconciled(services, beats).strategy == b.strategy
    ensures forall id :: id in Listed(services) ==>
              && b.Reconciled(services, beats).workers[id] == Refreshed(b, services, beats, id)
              && b.Reconciled(services, beats).breakers[id] ==
                   if id in b.workers then b.breakers[id] else CB.Fields(CB.CLOSED, 0, 0, 0)
  {
    forall id {
      MergedAt(b, services, beats, id);
    }
  }

  // ---------- runs ----------

  datatype Op =
    | Reconcile(services: seq<ServiceInfo>, beats: nat -> int)
    | Load(id: Text, load: int)
    | Remove(id: Text)
    | MarkDead(id: Text)
    | Select(now: Readings)
    | Ask(id: Text, now: Readings)
    | BreakerEvent(id: Text, event: CB.Event)

  function Next(b: Balancer, op: Op): Balancer
  {
    match op
    case Reconcile(services, beats) => b.Reconciled(services, beats)
    case Load(id, load) => b.WithLoad(id, load)
    case Remove(id) => b.Without({id})
    case MarkDead(id) => b.WithDead(id)
    case Select(now) => b.AfterSelect(now)
    case Ask(id, now) => b.Consulted({id}, now)
    case BreakerEvent(id, e) => b.WithBreakerEvent(id, e)
  }

  function Run(b: Balancer, ops: seq<Op>): Balancer
  {
    if ops == [] then b else Next(Run(b, ops[..|ops| - 1]), ops[|ops| - 1])
  }

  /** The operation takes the worker out of the balancer. */
  ghost predicate Drops(op: Op, w: Text)
  {
    (op.Reconcile? && w !in Listed(op.services)) || (op.Remove? && op.id == w)
  }

  lemma {:induction false} KeysAlwaysAgree(b: Balancer, ops: seq<Op>)
    requires b.KeysAgree()
    ensures Run(b, ops).KeysAgree()
  {
    if ops == [] {
    } else {
      var c, op := Run(b, ops[..|ops| - 1]), ops[|ops| - 1];
      KeysAlwaysAgree(b, ops[..|ops| - 1]);
      if op.Reconcile? { ReconciliationIsExact(c, op.services, op.beats); }
    }
  }

  /** A worker marked dead is in no eligible set, and no selection answers it, until it has been dropped. */
  lemma {:induction false} DeadStaysUnchosen(b: Balancer, w: Text, ops: seq<Op>, task: Text, now: Readings, r: Text)
    requires b.KeysAgree() && w in b.workers && b.workers[w].status == DEAD
    requires forall i :: 0 <= i < |ops| ==> !Drops(ops[i], w)
    ensures w in Run(b, ops).workers && Run(b, ops).workers[w].status == DEAD
    ensures Run(b, ops).IsChoice(task, now, r) && r != [] ==> r != w
  {
    if ops == [] {
    } else {
      var c, op := Run(b, ops[..|ops| - 1]), ops[|ops| - 1];
      DeadStaysUnchosen(b, w, ops[..|ops| - 1], task, now, r);
      KeysAlwaysAgree(b, ops[..|ops| - 1]);
      if op.Reconcile? { ReconciliationIsExact(c, op.services, op.beats); }
    }
    if Run(b, ops).IsChoice(task, now, r) { AnswerIsEligible(Run(b, ops), task, now, r); }
  }

  // ---------- round robin ----------

  /** The selections made with the readings `nows`, one after another, all find the workers `e` eligible. */
  ghost predicate Stable(b: Balancer, nows: seq<Readings>, e: set<Text>)
    decreases |nows|
  {
    nows == [] || (b.EligibleSet(nows[0]) == e && Stable(b.AfterSelect(nows[0]), nows[1..], e))
  }

  /** Some of them may find nobody; the others all find `e`. */
  ghost predicate Gapped(b: Balancer, nows: seq<Readings>, e: set<Text>)
    decreases |nows|
  {
    nows == [] ||
    ((b.EligibleSet(nows[0]) == e || b.EligibleSet(nows[0]) == {}) && Gapped(b.AfterSelect(nows[0]), nows[1..], e))
  }

  lemma {:induction false} StableIsGapped(b: Balancer, nows: seq<Readings>, e: set<Text>)
    requires Stable(b, nows, e)
    ensures Gapped(b, nows, e)
    decreases |nows|
  {
    if nows == [] {
    } else {
      StableIsGapped(b.AfterSelect(nows[0]), nows[1..], e);
    }
  }

  /** How many of them find somebody. */
  function Found(b: Balancer, nows: seq<Readings>): (k: nat)
    ensures k <= |nows|
    decreases |nows|
  {
    if nows == [] then 0
    else (if b.EligibleSet(nows[0]) == {} then 0 else 1) + Found(b.AfterSelect(nows[0]), nows[1..])
  }

  lemma {:induction false} StableFindsAlways(b: Balancer, nows: seq<Readings>, e: set<Text>)
    requires Stable(b, nows, e) && e != {}
    ensures Found(b, nows) == |nows|
    decreases |nows|
  {
    if nows == [] {
    } else {
      StableFindsAlways(b.AfterSelect(nows[0]), nows[1..], e);
    }
  }

  /** `picks` are answers of those selections. */
  ghost predicate Answers(b: Balancer, nows: seq<Readings>, picks: seq<Text>)
    decreases |nows|
  {
    && |picks| == |nows|
    && (nows == [] || (b.IsChoice([], nows[0], picks[0]) && Answers(b.AfterSelect(nows[0]), nows[1..], picks[1..])))
  }

  /** How many of the counter values 0..m-1 point at position p of n. */
  function Hits(m: nat, n: nat, p: nat): nat
    requires p < n
  {
    if m == 0 then 0 else Hits(m - 1, n, p) + (if (m - 1) % n == p then 1 else 0)
  }

  lemma {:induction false} HitsClosedForm(m: nat, n: nat, p: nat)
    requires p < n
    ensures Hits(m, n, p) == (m + (n - 1 - p)) / n
  {
    var c := n - 1 - p;
    if m == 0 {
      RemainderUnique(c, n, 0, c);
    } else {
      HitsClosedForm(m - 1, n, p);
      StepAcross(m - 1, n, p);
    }
  }

  lemma StepAcross(m: nat, n: nat, p: nat)
    requires p < n
    ensures (m + 1 + (n - 1 - p)) / n == (m + (n - 1 - p)) / n + (if m % n == p then 1 else 0)
  {
    var q, r, c := m / n, m % n, n - 1 - p;
    assert m == q * n + r;
    assert (q + 1) * n == q * n + n;
    if r + c < n {
      RemainderUnique(m + c, n, q, r + c);
    } else {
      RemainderUnique(m + c, n, q + 1, r + c - n);
    }
    if r + c + 1 < n {
      RemainderUnique(m + 1 + c, n, q, r + c + 1);
    } else {
      RemainderUnique(m + 1 + c, n, q + 1, r + c + 1 - n);
    }
  }

  /** The wrapped counter points at the same place as an unwrapped one. */
  ghost predicate PointsRight(m: nat, k: nat, n: nat)
    requires n > 0
  {
    forall j :: m <= j < m + k ==> j % TWO_64 % n == j % n
  }

  lemma {:induction false} PicksAreHits(b: Balancer, nows: seq<Readings>, e: set<Text>, picks: seq<Text>, n: nat,
        p: nat, w: Text, m: nat)
    requires b.strategy == ROUND_ROBIN && Gapped(b, nows, e) && Answers(b, nows, picks)
    requires p < n == |InOrder(e)| && InOrder(e)[p] == w && b.index == m % TWO_64 && PointsRight(m, Found(b, nows), n)
    requires w != [] || Found(b, nows) == |nows|
    ensures multiset(picks)[w] == Hits(m + Found(b, nows), n, p) - Hits(m, n, p)
    decreases |nows|
  {
    hide Hits, Balancer.AfterSelect, Balancer.IsChoice, Balancer.EligibleSet, InOrder;
    if nows == [] {
    } else {
      InOrderElements(e);
      assert InOrder(e)[p] in Elements(InOrder(e));
      CountFirst(picks, w);
      if b.EligibleSet(nows[0]) == {} {
        EmptyAnswer(b, nows[0], picks[0]);
        PicksAreHits(b.AfterSelect(nows[0]), nows[1..], e, picks[1..], n, p, w, m);
      } else {
        NextIndex(b, nows[0], e, m);
        PicksAreHits(b.AfterSelect(nows[0]), nows[1..], e, picks[1..], n, p, w, m + 1);
        assert m % TWO_64 % n == m % n;
        PickIsHit(b, nows[0], e, picks[0], n, p, w, m);
        HitsGrow(m, n, p);
      }
    }
  }

  /** A selection that finds nobody answers "" and does not advance the counter. */
  lemma EmptyAnswer(b: Balancer, now: Readings, pick: Text)
    requires b.strategy == ROUND_ROBIN && b.EligibleSet(now) == {} && b.IsChoice([], now, pick)
    ensures pick == []
    ensures b.AfterSelect(now).strategy == ROUND_ROBIN && b.AfterSelect(now).index == b.index
  {
  }

  lemma NextIndex(b: Balancer, now: Readings, e: set<Text>, m: nat)
    requires b.strategy == ROUND_ROBIN && b.EligibleSet(now) == e && e != {} && b.index == m % TWO_64
    ensures b.AfterSelect(now).strategy == ROUND_ROBIN && b.AfterSelect(now).index == (m + 1) % TWO_64
  {
  }

  lemma PickIsHit(b: Balancer, now: Readings, e: set<Text>, pick: Text, n: nat, p: nat, w: Text, m: nat)
    requires b.strategy == ROUND_ROBIN && b.EligibleSet(now) == e && b.IsChoice([], now, pick)
    requires p < n == |InOrder(e)| && InOrder(e)[p] == w && b.index % n == m % n
    ensures pick == w <==> m % n == p
  {
    assert InOrder(e)[p] in e;
    AscendingDistinct(InOrder(e));
  }

  lemma HitsGrow(m: nat, n: nat, p: nat)
    requires p < n
    ensures Hits(m + 1, n, p) == Hits(m, n, p) + (if m % n == p then 1 else 0)
  {
  }

  lemma CountFirst(r: seq<Text>, w: Text)
    requires r != []
    ensures multiset(r)[w] == multiset(r[1..])[w] + (if r[0] == w then 1 else 0)
  {
    assert r == [r[0]] + r[1..];
  }

  lemma HitsBetween(m: nat, k: nat, n: nat, p: nat)
    requires p < n
    ensures k / n <= Hits(m + k, n, p) - Hits(m, n, p) <= (k + n - 1) / n
  {
    HitsClosedForm(m, n, p);
    HitsClosedForm(m + k, n, p);
    SumOfQuotients(m + (n - 1 - p), k, n);
    Ceiling(k, n);
    assert m + k + (n - 1 - p) == m + (n - 1 - p) + k;
  }

  /** Over selections of which k find the same n workers eligible and the others find nobody, in any order, each worker
      (the p-th in key order, for every p) is chosen floor(k/n) or ceil(k/n) times, as long as the 64-bit counter does
      not wrap meanwhile (or n divides 2^64, when wrapping is harmless). A worker whose id is "" cannot be told from
      nobody, so for it every selection must find somebody. */
  lemma {:induction false} RoundRobinIsFair(b: Balancer, nows: seq<Readings>, e: set<Text>, picks: seq<Text>, n: nat,
        p: nat, w: Text)
    requires b.strategy == ROUND_ROBIN && Gapped(b, nows, e) && Answers(b, nows, picks)
    requires p < n == |InOrder(e)| && InOrder(e)[p] == w
    requires b.index + Found(b, nows) <= TWO_64 || TWO_64 % n == 0
    requires w != [] || Found(b, nows) == |nows|
    ensures var k := Found(b, nows); k / n <= multiset(picks)[w] <= (k + n - 1) / n
  {
    hide Gapped, Answers, Hits, InOrder;
    var k := Found(b, nows);
    CounterPointsRight(b.index, k, n);
    PicksAreHits(b, nows, e, picks, n, p, w, b.index);
    HitsBetween(b.index, k, n, p);
  }

  lemma CounterPointsRight(m: nat, k: nat, n: nat)
    requires n > 0 && (m + k <= TWO_64 || TWO_64 % n == 0)
    ensures PointsRight(m, k, n)
  {
    forall j: nat | m <= j < m + k ensures j % TWO_64 % n == j % n {
      if TWO_64 % n == 0 { WrapIsHarmless(j, n); }
    }
  }

  lemma WrapIsHarmless(j: nat, n: nat)
    requires n > 0 && TWO_64 % n == 0
    ensures j % TWO_64 % n == j % n
  {
    var d, q, r := TWO_64 / n, j / TWO_64, j % TWO_64;
    assert TWO_64 == d * n && j == q * TWO_64 + r && r == r / n * n + r % n;
    assert q * TWO_64 == (q * d) * n;
    assert (q * d + r / n) * n == (q * d) * n + r / n * n;
    RemainderUnique(j, n, q * d + r / n, r % n);
  }

  /** Otherwise the wrap does break fairness: of the n selections that begin at the counter's last value, the last
      worker gets its one exactly when n divides 2^64, and else none. */
  lemma {:induction false} WrapIsFairExactly(b: Balancer, nows: seq<Readings>, e: set<Text>, picks: seq<Text>, n: nat,
        w: Text)
    requires b.strategy == ROUND_ROBIN && Stable(b, nows, e) && Answers(b, nows, picks)
    requires 0 < n == |InOrder(e)| == |nows| && n <= TWO_64 && InOrder(e)[n - 1] == w && b.index == TWO_64 - 1
    ensures multiset(picks)[w] == if TWO_64 % n == 0 then 1 else 0
  {
    hide Hits, Balancer.AfterSelect, Balancer.IsChoice, InOrder;
    InOrderElements(e);
    NoElements(InOrder(e));
    FirstAfterWrap(b, nows[0], e);
    CounterPointsRight(0, n - 1, n);
    StableIsGapped(b.AfterSelect(nows[0]), nows[1..], e);
    StableFindsAlways(b.AfterSelect(nows[0]), nows[1..], e);
    PicksAreHits(b.AfterSelect(nows[0]), nows[1..], e, picks[1..], n, n - 1, w, 0);
    PickIsHit(b, nows[0], e, picks[0], n, n - 1, w, TWO_64 - 1);
    CountFirst(picks, w);
    HitsBeforeLast(n);
    LastBeforeMultiple(TWO_64, n);
  }

  /** Three workers, all eligible and without breakers, and the counter at its last value. */
  const THREE: set<Text> := {[97], [98], [99]}

  function Idle(id: Text): WorkerNode { WorkerNode(id, [], 0, 0, ACTIVE, 0) }

  const AT_WRAP := Balancer(ROUND_ROBIN, map id | id in THREE :: Idle(id), TWO_64 - 1, map[])

  /** So with three workers it does happen: three selections go by and one worker gets none. */
  lemma {:induction false} ThreeWorkersMissOne(now: Readings)
    ensures exists picks, w :: Answers(AT_WRAP, [now, now, now], picks) && w in THREE && multiset(picks)[w] == 0
  {
    hide Balancer.IsChoice, InOrder, Answers, Stable;
    var nows := [now, now, now];
    ThreeInOrder();
    var w := InOrder(THREE)[2];
    ThreeAreStable(nows, AT_WRAP);
    var picks := AnswersExist(AT_WRAP, nows, THREE);
    WrapIsFairExactly(AT_WRAP, nows, THREE, picks, 3, w);
  }

  lemma ThreeInOrder()
    ensures |InOrder(THREE)| == 3 && InOrder(THREE)[2] in THREE
  {
    var r := InOrder(THREE);
    AscendingDistinct(r);
    DistinctSize(r);
    InOrderElements(THREE);
    assert r[2] in Elements(r);
  }

  lemma {:induction false} DistinctSize(r: seq<Text>)
    requires forall i, j :: 0 <= i < j < |r| ==> r[i] != r[j]
    ensures |Elements(r)| == |r|
  {
    if r == [] {
      assert Elements(r) == {};
    } else {
      var n := |r| - 1;
      DistinctSize(r[..n]);
      assert Elements(r) == Elements(r[..n]) + {r[n]};
    }
  }

  /** A balancer whose workers have no breakers finds the same ones eligible every time. */
  lemma {:induction false} ThreeAreStable(nows: seq<Readings>, b: Balancer)
    requires b.workers == AT_WRAP.workers && b.breakers == map[]
    ensures Stable(b, nows, THREE)
    decreases |nows|
  {
    if nows == [] {
    } else {
      assert b.EligibleSet(nows[0]) == THREE by {
        forall id ensures b.Eligible(id, nows[0]) <==> id in THREE {}
      }
      var c := b.AfterSelect(nows[0]);
      assert c.breakers == map[];
      ThreeAreStable(nows[1..], c);
    }
  }

  /** Round robin always has an answer while somebody is eligible. */
  lemma {:induction false} AnswersExist(b: Balancer, nows: seq<Readings>, e: set<Text>) returns (picks: seq<Text>)
    requires b.strategy == ROUND_ROBIN && Stable(b, nows, e) && e != {}
    ensures Answers(b, nows, picks)
    decreases |nows|
  {
    if nows == [] {
      picks := [];
    } else {
      InOrderElements(e);
      NoElements(InOrder(e));
      var rest := AnswersExist(b.AfterSelect(nows[0]), nows[1..], e);
      picks := [InOrder(e)[b.index % |InOrder(e)|]] + rest;
      assert picks[1..] == rest;
    }
  }

  lemma FirstAfterWrap(b: Balancer, now: Readings, e: set<Text>)
    requires b.strategy == ROUND_ROBIN && b.EligibleSet(now) == e && e != {} && b.index == TWO_64 - 1
    ensures b.AfterSelect(now).strategy == ROUND_ROBIN && b.AfterSelect(now).index == 0 == 0 % TWO_64
  {
  }

  lemma HitsBeforeLast(n: nat)
    requires n > 0
    ensures Hits(0 + (n - 1), n, n - 1) == 0 == Hits(0, n, n - 1)
  {
    HitsClosedForm(n - 1, n, n - 1);
    RemainderUnique(n - 1, n, 0, n - 1);
  }

  lemma LastBeforeMultiple(x: nat, n: nat)
    requires 0 < n <= x
    ensures (x - 1) % n == n - 1 <==> x % n == 0
  {
    var q, r := (x - 1) / n, (x - 1) % n;
    assert x - 1 == q * n + r;
    assert (q + 1) * n == q * n + n;
    if r == n - 1 { RemainderUnique(x, n, q + 1, 0); } else { RemainderUnique(x, n, q, r + 1); }
  }

  // ---------- least connection ----------

  /** Loads of the eligible workers. */
  function Loads(b: Balancer, e: set<Text>): map<Text, int>
    requires e <= b.workers.Keys
  {
    map id | id in e :: b.workers[id].currentLoad
  }

  /** A selection followed by the assignment that raises the chosen worker's mirrored load by one. */
  ghost predicate SelectsAndAssigns(b: Balancer, now: Readings, e: set<Text>, c: Balancer)
  {
    && b.strategy == LEAST_CONNECTION && b.EligibleSet(now) == e
    && exists r :: r in e && b.IsChoice([], now, r)
         && c == b.AfterSelect(now).WithLoad(r, b.workers[r].currentLoad + 1)
  }

  /** `bs[0]`, `bs[1]`, ... is a run of such steps with the same workers eligible at each. */
  ghost predicate AssigningRun(bs: seq<Balancer>, nows: seq<Readings>, e: set<Text>)
  {
    && |bs| == |nows| + 1 && e <= bs[0].workers.Keys
    && forall i :: 0 <= i < |nows| ==> SelectsAndAssigns(bs[i], nows[i], e, bs[i + 1])
  }

  ghost predicate SpreadAtMost(l: map<Text, int>, d: int)
  {
    forall v, w :: v in l && w in l ==> l[v] - l[w] <= d
  }

  ghost predicate RaisesLeast(l: map<Text, int>, m: map<Text, int>)
  {
    exists r :: r in l && (forall w :: w in l ==> l[r] <= l[w]) && m == l[r := l[r] + 1]
  }

  lemma StepRaisesLeast(b: Balancer, now: Readings, e: set<Text>, c: Balancer)
    requires SelectsAndAssigns(b, now, e, c)
    ensures e <= b.workers.Keys && e <= c.workers.Keys && RaisesLeast(Loads(b, e), Loads(c, e))
  {
    var r :| r in e && b.IsChoice([], now, r) && c == b.AfterSelect(now).WithLoad(r, b.workers[r].currentLoad + 1);
    assert b.LeastLoaded(e, r);
    RaisedLoad(b, now, e, r);
    assert forall w :: w in e ==> b.workers[r].currentLoad <= b.workers[w].currentLoad;
  }

  lemma RaisedLoad(b: Balancer, now: Readings, e: set<Text>, r: Text)
    requires e <= b.workers.Keys && r in e
    ensures var c := b.AfterSelect(now).WithLoad(r, b.workers[r].currentLoad + 1);
            e <= c.workers.Keys && Loads(c, e) == Loads(b, e)[r := Loads(b, e)[r] + 1]
  {
  }

  lemma RaiseKeepsSpread(l: map<Text, int>, m: map<Text, int>, d: int)
    requires RaisesLeast(l, m) && SpreadAtMost(l, d) && d >= 1
    ensures SpreadAtMost(m, d)
  {
  }

  /** The loads along a run. */
  ghost predicate RaisingRun(ls: seq<map<Text, int>>)
  {
    forall i :: 0 <= i < |ls| - 1 ==> RaisesLeast(ls[i], ls[i + 1])
  }

  lemma {:induction false} SpreadNeverWidens(ls: seq<map<Text, int>>, d: int, j: nat, k: nat)
    requires RaisingRun(ls) && j <= k < |ls| && d >= 1 && SpreadAtMost(ls[j], d)
    ensures SpreadAtMost(ls[k], d)
  {
    if k > j {
      SpreadNeverWidens(ls, d, j, k - 1);
      assert RaisesLeast(ls[k - 1], ls[k - 1 + 1]);
      RaiseKeepsSpread(ls[k - 1], ls[k], d);
    }
  }

  /** How far the loads of the listed workers are below `top`, summed. */
  function Shortfall(ids: seq<Text>, l: map<Text, int>, top: int): int
    requires forall id :: id in ids ==> id in l
  {
    if ids == [] then 0 else (top - l[ids[0]]) + Shortfall(ids[1..], l, top)
  }

  lemma {:induction false} ShortfallOfRaise(ids: seq<Text>, l: map<Text, int>, top: int, r: Text)
    requires Ascending(ids) && r in l && forall id :: id in ids ==> id in l
    ensures Shortfall(ids, l[r := l[r] + 1], top) == Shortfall(ids, l, top) - (if r in ids then 1 else 0)
  {
    if ids == [] {
    } else {
      ShortfallOfRaise(ids[1..], l, top, r);
      AscendingDistinct(ids);
      assert ids == [ids[0]] + ids[1..];
    }
  }

  lemma {:induction false} ShortfallSign(ids: seq<Text>, l: map<Text, int>, top: int)
    requires forall id :: id in ids ==> id in l && l[id] <= top
    ensures Shortfall(ids, l, top) >= 0
    ensures Shortfall(ids, l, top) == 0 <==> forall id :: id in ids ==> l[id] == top
  {
    if ids == [] {
    } else {
      ShortfallSign(ids[1..], l, top);
      assert ids == [ids[0]] + ids[1..];
    }
  }

  ghost predicate AllAtMost(l: map<Text, int>, top: int)
  {
    forall id :: id in l ==> l[id] <= top
  }

  lemma {:induction false} RaiseFillsShortfall(ids: seq<Text>, l: map<Text, int>, m: map<Text, int>, top: int)
    requires Ascending(ids) && Elements(ids) == l.Keys && RaisesLeast(l, m) && AllAtMost(l, top)
    requires Shortfall(ids, l, top) > 0
    ensures m.Keys == l.Keys && AllAtMost(m, top)
    ensures Shortfall(ids, m, top) == Shortfall(ids, l, top) - 1
  {
    var r :| r in l && (forall w :: w in l ==> l[r] <= l[w]) && m == l[r := l[r] + 1];
    ShortfallOfRaise(ids, l, top, r);
    ShortfallSign(ids, l, top);
    assert r in Elements(ids);
  }

  /** Until every load has reached the initial top, each step removes one unit of shortfall and none passes the top. */
  lemma {:induction false} ShortfallFalls(ls: seq<map<Text, int>>, ids: seq<Text>, top: int, k: nat)
    requires RaisingRun(ls) && k < |ls|
    requires Ascending(ids) && Elements(ids) == ls[0].Keys && AllAtMost(ls[0], top) && k <= Shortfall(ids, ls[0], top)
    ensures Elements(ids) == ls[k].Keys && AllAtMost(ls[k], top)
    ensures Shortfall(ids, ls[k], top) == Shortfall(ids, ls[0], top) - k
  {
    if k == 0 {
    } else {
      ShortfallFalls(ls, ids, top, k - 1);
      assert RaisesLeast(ls[k - 1], ls[k - 1 + 1]);
      RaiseFillsShortfall(ids, ls[k - 1], ls[k], top);
    }
  }

  lemma {:induction false} SpreadSettles(ls: seq<map<Text, int>>, ids: seq<Text>, top: int, k: nat)
    requires RaisingRun(ls) && k < |ls|
    requires Ascending(ids) && Elements(ids) == ls[0].Keys && AllAtMost(ls[0], top) && Shortfall(ids, ls[0], top) <= k
    ensures SpreadAtMost(ls[k], 1)
  {
    ShortfallSign(ids, ls[0], top);
    var j := Shortfall(ids, ls[0], top);
    ShortfallFalls(ls, ids, top, j);
    ShortfallSign(ids, ls[j], top);
    assert forall id :: id in ls[j] ==> id in Elements(ids);
    SpreadNeverWidens(ls, 1, j, k);
  }

  ghost predicate Present(bs: seq<Balancer>, e: set<Text>)
  {
    forall i :: 0 <= i < |bs| ==> e <= bs[i].workers.Keys
  }

  function LoadsAlong(bs: seq<Balancer>, e: set<Text>): (ls: seq<map<Text, int>>)
    requires Present(bs, e)
    ensures |ls| == |bs| && forall i :: 0 <= i < |bs| ==> ls[i] == Loads(bs[i], e)
  {
    seq(|bs|, i requires 0 <= i < |bs| => Loads(bs[i], e))
  }

  lemma {:induction false} RunStep(bs: seq<Balancer>, nows: seq<Readings>, e: set<Text>, i: nat)
    requires AssigningRun(bs, nows, e) && i < |nows|
    ensures e <= bs[i].workers.Keys && e <= bs[i + 1].workers.Keys && RaisesLeast(Loads(bs[i], e), Loads(bs[i + 1], e))
  {
    StepRaisesLeast(bs[i], nows[i], e, bs[i + 1]);
  }

  lemma {:induction false} RunRaises(bs: seq<Balancer>, nows: seq<Readings>, e: set<Text>)
    requires AssigningRun(bs, nows, e)
    ensures Present(bs, e) && RaisingRun(LoadsAlong(bs, e))
  {
    forall i | 0 <= i < |bs| ensures e <= bs[i].workers.Keys {
      if i > 0 { RunStep(bs, nows, e, i - 1); }
    }
    forall i | 0 <= i < |bs| - 1 ensures RaisesLeast(LoadsAlong(bs, e)[i], LoadsAlong(bs, e)[i + 1]) {
      RunStep(bs, nows, e, i);
    }
  }

  /** Least-connection dispatching never widens the spread of loads beyond the larger of what it was and 1; and once it
      has made as many assignments as the loads lacked below any bound on them, the spread is at most 1 and stays so. */
  lemma {:induction false} LeastConnectionBalances(bs: seq<Balancer>, nows: seq<Readings>, e: set<Text>, d: int,
        top: int, k: nat)
    requires AssigningRun(bs, nows, e) && k <= |nows| && d >= 1
    requires SpreadAtMost(Loads(bs[0], e), d) && AllAtMost(Loads(bs[0], e), top)
    ensures e <= bs[k].workers.Keys && SpreadAtMost(Loads(bs[k], e), d)
    ensures k >= Shortfall(InOrder(e), Loads(bs[0], e), top) ==> SpreadAtMost(Loads(bs[k], e), 1)
  {
    RunRaises(bs, nows, e);
    var ls := LoadsAlong(bs, e);
    InOrderElements(e);
    SpreadNeverWidens(ls, d, 0, k);
    if k >= Shortfall(InOrder(e), Loads(bs[0], e), top) {
      SpreadSettles(ls, InOrder(e), top, k);
    }
  }
}
