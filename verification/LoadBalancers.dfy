/**
 The load balancer: a map of workers in id order, one circuit breaker per worker, and three ways to
 choose a worker. `Balancer` is the value of the object's fields; its functions say what each
 operation does to that value and which answers a selection may give.

 A selection reads the steady clock once per OPEN breaker it consults: `now(id)` is that reading.
 */
module LoadBalancers {
  import opened Texts
  import opened Hashing
  import CB = CircuitBreakers

  datatype Strategy = ROUND_ROBIN | LEAST_CONNECTION | CONSISTENT_HASH

  datatype Status = ACTIVE | DEAD

  datatype ServiceInfo = ServiceInfo(id: Text, address: Text, port: Int32)

  datatype WorkerNode = WorkerNode(id: Text, address: Text, port: Int32, currentLoad: int, status: Status,
                                   lastHeartbeat: int)

  const WORKER_CONFIG := CB.Config(3, 30, 1)

  type Readings = Text -> int

  datatype Balancer = Balancer(strategy: Strategy, workers: map<Text, WorkerNode>, index: Word,
                               breakers: map<Text, CB.Fields>) {

    /** Every worker has a breaker and every breaker a worker. */
    ghost predicate KeysAgree()
    {
      workers.Keys == breakers.Keys
    }

    predicate Active(id: Text)
    {
      id in workers && workers[id].status == ACTIVE
    }

    predicate Eligible(id: Text, now: Readings)
    {
      Active(id) && (id in breakers ==> CB.Admits(WORKER_CONFIG, breakers[id], now(id)))
    }

    function EligibleAmong(ids: set<Text>, now: Readings): (e: set<Text>)
      ensures e <= workers.Keys
    {
      set id | id in ids && Eligible(id, now)
    }

    function EligibleSet(now: Readings): set<Text>
    {
      EligibleAmong(workers.Keys, now)
    }

    /** After the breakers of the active workers among `ids` have been asked. */
    function Consulted(ids: set<Text>, now: Readings): Balancer
    {
      this.(breakers := map id | id in breakers ::
              if id in ids && Active(id) then CB.Next(WORKER_CONFIG, breakers[id], CB.Allow(now(id))) else breakers[id])
    }

    /** Smallest load, and the smallest id among those. */
    ghost predicate LeastLoaded(e: set<Text>, r: Text)
      requires e <= workers.Keys
    {
      r in e && forall w :: w in e && w != r ==>
        workers[r].currentLoad < workers[w].currentLoad
          || (workers[r].currentLoad == workers[w].currentLoad && Less(r, w))
    }

    /** The answers a selection may give; the empty one stands for "no worker". */
    ghost predicate IsChoice(task: Text, now: Readings, r: Text)
    {
      var e := EligibleSet(now);
      if e == {} then r == [] else
      match strategy
      case ROUND_ROBIN => r == InOrder(e)[index % |InOrder(e)|]
      case LEAST_CONNECTION => LeastLoaded(e, r)
      case CONSISTENT_HASH => if task == [] then LeastLoaded(e, r) else RingChoice(e, HashOf(task), r)
    }

    /** The fields after a selection. */
    function AfterSelect(now: Readings): Balancer
    {
      var b := Consulted(workers.Keys, now);
      if strategy == ROUND_ROBIN && EligibleSet(now) != {} then b.(index := (index + 1) % TWO_64) else b
    }

    function Upsert(s: ServiceInfo, beat: int): Balancer
    {
      if s.id in workers then
        this.(workers := workers[s.id := workers[s.id].(address := s.address, port := s.port, lastHeartbeat := beat)])
      else
        this.(workers := workers[s.id := WorkerNode(s.id, s.address, s.port, 0, ACTIVE, beat)],
              breakers := breakers[s.id := CB.INITIAL])
    }

    /** `beats(k)` is the wall-clock reading taken for the k-th listed service. */
    function Merged(services: seq<ServiceInfo>, beats: nat -> int): Balancer
    {
      if services == [] then this else
      var n := |services| - 1;
      Merged(services[..n], beats).Upsert(services[n], beats(n))
    }

    function Without(ids: set<Text>): Balancer
    {
      this.(workers := workers - ids, breakers := breakers - ids)
    }

    function Reconciled(services: seq<ServiceInfo>, beats: nat -> int): Balancer
    {
      var b := Merged(services, beats);
      b.Without(b.workers.Keys - Listed(services))
    }

    function WithLoad(id: Text, load: int): Balancer
    {
      if id in workers then this.(workers := workers[id := workers[id].(currentLoad := load)]) else this
    }

    function WithDead(id: Text): Balancer
    {
      if id in workers then this.(workers := workers[id := workers[id].(status := DEAD)]) else this
    }

    function WithBreakerEvent(id: Text, e: CB.Event): Balancer
    {
      if id in breakers then this.(breakers := breakers[id := CB.Next(WORKER_CONFIG, breakers[id], e)]) else this
    }
  }

  function Listed(services: seq<ServiceInfo>): set<Text>
  {
    set s | s in services :: s.id
  }

  // ---------- the ring ----------

  /** How far clockwise from `h` the worker's place is. */
  function Distance(h: Word, w: Text): Word
  {
    (HashOf(w) - h) % TWO_64
  }

  /** The first of the workers at or after `h` clockwise. */
  ghost predicate RingChoice(e: set<Text>, h: Word, r: Text)
  {
    r in e && forall w :: w in e ==> Distance(h, r) <= Distance(h, w)
  }

  /** A worker and its place on the circle. */
  datatype Slot = Slot(place: Word, worker: Text)

  ghost predicate Sorted(c: seq<Slot>)
  {
    forall i, j :: 0 <= i < j < |c| ==> c[i].place <= c[j].place
  }

  /** Orders by hash; what becomes of equal hashes is not promised. */
  method Sort(c: seq<Slot>) returns (r: seq<Slot>)
    ensures Sorted(r) && multiset(r) == multiset(c)
  {
    r := [];
    for i := 0 to |c|
      invariant Sorted(r) && multiset(r) == multiset(c[..i])
    {
      r := Insert(r, c[i]);
      assert c[..i + 1] == c[..i] + [c[i]];
    }
    assert c[..|c|] == c;
  }

  method Insert(s: seq<Slot>, x: Slot) returns (r: seq<Slot>)
    requires Sorted(s)
    ensures Sorted(r) && multiset(r) == multiset(s) + multiset{x}
  {
    var k := |s|;
    while k > 0 && s[k - 1].place > x.place
      invariant 0 <= k <= |s|
      invariant forall j :: k <= j < |s| ==> s[j].place > x.place
    {
      k := k - 1;
    }
    InsertedInOrder(s, k, x);
    InsertedOnce(s, k, x);
    r := s[..k] + [x] + s[k..];
  }

  lemma InsertedOnce(s: seq<Slot>, k: nat, x: Slot)
    requires k <= |s|
    ensures multiset(s[..k] + [x] + s[k..]) == multiset(s) + multiset{x}
  {
    assert s[..k] + s[k..] == s;
  }

  lemma InsertedInOrder(s: seq<Slot>, k: nat, x: Slot)
    requires Sorted(s) && k <= |s|
    requires k > 0 ==> s[k - 1].place <= x.place
    requires k < |s| ==> x.place <= s[k].place
    ensures Sorted(s[..k] + [x] + s[k..])
  {
    SortedParts(s, k);
    SortedJoin(s[..k], [x]);
    SortedJoin(s[..k] + [x], s[k..]);
  }

  lemma SortedParts(s: seq<Slot>, k: nat)
    requires Sorted(s) && k <= |s|
    ensures Sorted(s[..k]) && Sorted(s[k..])
  {
  }

  lemma SortedJoin(a: seq<Slot>, b: seq<Slot>)
    requires Sorted(a) && Sorted(b)
    requires a != [] && b != [] ==> a[|a| - 1].place <= b[0].place
    ensures Sorted(a + b)
  {
    forall i, j | 0 <= i < j < |a + b| ensures (a + b)[i].place <= (a + b)[j].place {
      if i < |a| <= j {
        assert a[i].place <= a[|a| - 1].place && b[0].place <= b[j - |a|].place;
      }
    }
  }

  /** Entries of the circle carry the hash of their worker. */
  ghost predicate IsCircle(c: seq<Slot>, e: set<Text>)
  {
    && (forall i :: 0 <= i < |c| ==> c[i].place == HashOf(c[i].worker) && c[i].worker in e)
    && (forall w :: w in e ==> Slot(HashOf(w), w) in c)
  }

  /** The scan of the sorted circle. */
  method Scan(c: seq<Slot>, h: Word, ghost e: set<Text>) returns (r: Text)
    requires c != [] && Sorted(c) && IsCircle(c, e)
    ensures RingChoice(e, h, r)
  {
    for i := 0 to |c|
      invariant forall j :: 0 <= j < i ==> c[j].place < h
    {
      if h <= c[i].place {
        ScanStopsAtSuccessor(c, h, e, i);
        return c[i].worker;
      }
    }
    ScanStopsAtSuccessor(c, h, e, |c|);
    return c[0].worker;
  }

  method SortAndScan(c: seq<Slot>, h: Word, ghost e: set<Text>) returns (r: Text)
    requires c != [] && IsCircle(c, e)
    ensures RingChoice(e, h, r)
  {
    var sorted := Sort(c);
    SortedCircle(c, sorted, e);
    r := Scan(sorted, h, e);
  }

  lemma ScanStopsAtSuccessor(c: seq<Slot>, h: Word, e: set<Text>, i: nat)
    requires c != [] && Sorted(c) && IsCircle(c, e) && i <= |c|
    requires forall j :: 0 <= j < i ==> c[j].place < h
    requires i < |c| ==> h <= c[i].place
    ensures RingChoice(e, h, c[if i < |c| then i else 0].worker)
  {
    var k := if i < |c| then i else 0;
    forall w | w in e ensures Distance(h, c[k].worker) <= Distance(h, w) {
      var j :| 0 <= j < |c| && c[j] == Slot(HashOf(w), w);
      ClockwiseOrder(h, c[k].place, c[j].place);
    }
  }

  lemma ClockwiseOrder(h: Word, x: Word, y: Word)
    ensures (h <= x <= y || x <= y < h || y < h <= x) ==> (x - h) % TWO_64 <= (y - h) % TWO_64
  {
  }

  // ---------- the object ----------

  class LoadBalancer {
    var strategy: Strategy
    var workers: map<Text, WorkerNode>
    var roundRobinIndex: Word
    var breakers: map<Text, CB.CircuitBreaker>

    ghost predicate Valid()
      reads this, breakers.Values
    {
      && workers.Keys == breakers.Keys
      && (forall k, l :: k in breakers && l in breakers && k != l ==> breakers[k] != breakers[l])
      && (forall k :: k in breakers ==> breakers[k].config == WORKER_CONFIG)
    }

    ghost function View(): Balancer
      reads this, breakers.Values
    {
      Balancer(strategy, workers, roundRobinIndex, map id | id in breakers :: breakers[id].View())
    }

    constructor (strategy: Strategy)
      ensures Valid() && fresh(breakers.Values)
      ensures View() == Balancer(strategy, map[], 0, map[])
    {
      this.strategy := strategy;
      workers, roundRobinIndex, breakers := map[], 0, map[];
    }

    /** The test each loop applies: active, and admitted by the breaker if there is one. */
    method Consult(id: Text, now: int) returns (ok: bool)
      requires Valid() && id in workers
      modifies breakers.Values
      ensures Valid()
      ensures ok <==> old(View()).Eligible(id, (_) => now)
      ensures View() == old(View()).Consulted({id}, (_) => now)
    {
      ok := false;
      if workers[id].status == ACTIVE {
        ok := true;
        if id in breakers {
          ok := breakers[id].AllowRequest(now);
        }
      }
    }

    /** One round of a selection loop that began with fields `b` and has asked `asked`. */
    method ConsultOneMore(id: Text, now: Readings, ghost b: Balancer, ghost asked: set<Text>) returns (ok: bool)
      requires Valid() && id in workers && id !in asked
      requires View() == b.Consulted(asked, now)
      modifies breakers.Values
      ensures Valid()
      ensures View() == b.Consulted(asked + {id}, now)
      ensures ok <==> b.Eligible(id, now)
    {
      ConsultNext(b, asked, id, now);
      ok := Consult(id, now(id));
    }

    /** The first loop of the round-robin selection: the eligible ids in key order. */
    method Available(now: Readings) returns (available: seq<Text>)
      requires Valid()
      modifies breakers.Values
      ensures Valid()
      ensures View() == old(View()).Consulted(workers.Keys, now)
      ensures available == InOrder(old(View()).EligibleSet(now))
    {
      ghost var b := View();
      var order := InOrder(workers.Keys);
      available := [];
      ghost var asked: set<Text> := {};
      AskNobody(b, now);
      for i := 0 to |order|
        invariant Valid() && asked == Elements(order[..i]) && View() == b.Consulted(asked, now)
        invariant Ascending(available) && Elements(available) == b.EligibleAmong(asked, now)
      {
        var id := order[i];
        NextElement(order, i);
        var ok := ConsultOneMore(id, now, b, asked);
        EligibleNext(b, asked, id, now);
        if ok {
          AppendAbove(available, id);
          available := available + [id];
        }
        asked := asked + {id};
      }
      InOrderElements(workers.Keys);
      InOrderElements(b.EligibleSet(now));
      AscendingUnique(available, InOrder(b.EligibleSet(now)));
    }

    method RoundRobinSelect(now: Readings) returns (r: Text)
      requires Valid() && strategy == ROUND_ROBIN
      modifies `roundRobinIndex, breakers.Values
      ensures Valid()
      ensures View() == old(View()).AfterSelect(now)
      ensures old(View()).IsChoice([], now, r)
    {
      hide Balancer.Consulted, Balancer.EligibleAmong, Balancer.IsChoice, InOrder;
      ghost var b := View();
      var available := Available(now);
      ghost var asked := View();
      TakesTurns(b, now, available);
      if available == [] {
        return [];
      }
      var index := roundRobinIndex % |available|;
      roundRobinIndex := (roundRobinIndex + 1) % TWO_64;
      assert View() == asked.(index := roundRobinIndex);
      return available[index];
    }

    method LeastConnectionSelect(now: Readings) returns (r: Text)
      requires Valid()
      modifies breakers.Values
      ensures Valid()
      ensures View() == old(View()).Consulted(workers.Keys, now)
      ensures var b := old(View()); if b.EligibleSet(now) == {} then r == [] else b.LeastLoaded(b.EligibleSet(now), r)
    {
      ghost var b := View();
      var order := InOrder(workers.Keys);
      var best: Option<Text> := None;
      ghost var asked: set<Text> := {};
      AskNobody(b, now);
      for i := 0 to |order|
        invariant Valid() && asked == Elements(order[..i]) && View() == b.Consulted(asked, now)
        invariant BestSoFar(b, b.EligibleAmong(asked, now), best)
      {
        var id := order[i];
        NextElement(order, i);
        var ok := ConsultOneMore(id, now, b, asked);
        EligibleNext(b, asked, id, now);
        if ok {
          BestNext(b, b.EligibleAmong(asked, now), best, id);
          if best.None? || workers[id].currentLoad < workers[best.value].currentLoad {
            best := Some(id);
          }
        }
        asked := asked + {id};
      }
      InOrderElements(workers.Keys);
      r := if best.None? then [] else best.value;
    }

    method PlaceOneMore(circles: seq<Slot>, id: Text, now: Readings, ghost b: Balancer, ghost asked: set<Text>)
      returns (circles': seq<Slot>)
      requires Valid() && id in workers && id !in asked
      requires View() == b.Consulted(asked, now) && IsCircle(circles, b.EligibleAmong(asked, now))
      modifies breakers.Values
      ensures Valid()
      ensures View() == b.Consulted(asked + {id}, now) && IsCircle(circles', b.EligibleAmong(asked + {id}, now))
    {
      var ok := ConsultOneMore(id, now, b, asked);
      EligibleNext(b, asked, id, now);
      circles' := circles;
      if ok {
        var place := Hash(id);
        CircleNext(circles, b.EligibleAmong(asked, now), id);
        circles' := circles + [Slot(place, id)];
      }
    }

    /** The first loop of the consistent-hash selection: the eligible workers with their places. */
    method Circle(now: Readings) returns (circles: seq<Slot>)
      requires Valid()
      modifies breakers.Values
      ensures Valid()
      ensures View() == old(View()).Consulted(workers.Keys, now)
      ensures IsCircle(circles, old(View()).EligibleSet(now))
    {
      ghost var b := View();
      var order := InOrder(workers.Keys);
      circles := [];
      ghost var asked, e: set<Text> := {}, {};
      AskNobody(b, now);
      for i := 0 to |order|
        invariant Valid() && asked == Elements(order[..i]) && View() == b.Consulted(asked, now)
        invariant e == b.EligibleAmong(asked, now) && IsCircle(circles, e)
      {
        NextElement(order, i);
        circles := PlaceOneMore(circles, order[i], now, b, asked);
        asked := asked + {order[i]};
        e := b.EligibleAmong(asked, now);
      }
      InOrderElements(workers.Keys);
    }

    method ConsistentHashSelect(task: Text, now: Readings) returns (r: Text)
      requires Valid() && strategy == CONSISTENT_HASH
      modifies breakers.Values
      ensures Valid()
      ensures View() == old(View()).Consulted(workers.Keys, now)
      ensures old(View()).IsChoice(task, now, r)
    {
      hide Balancer.Consulted, Balancer.EligibleSet, HashOf, RingChoice;
      if task == [] {
        r := LeastConnectionSelect(now);
      } else {
        r := RingSelect(task, now);
      }
    }

    /** The rest of the consistent-hash selection: the first place at or after the task's, in circular order. */
    method RingSelect(task: Text, now: Readings) returns (r: Text)
      requires Valid()
      modifies breakers.Values
      ensures Valid()
      ensures View() == old(View()).Consulted(workers.Keys, now)
      ensures var e := old(View()).EligibleSet(now); if e == {} then r == [] else RingChoice(e, HashOf(task), r)
    {
      hide Balancer.Consulted, Balancer.EligibleSet, HashOf, IsCircle, RingChoice;
      ghost var e := View().EligibleSet(now);
      var h := Hash(task);
      var circles := Circle(now);
      EmptyCircle(circles, e);
      r := [];
      if circles != [] {
        r := SortAndScan(circles, h, e);
      }
    }

    method SelectWorker(task: Text, now: Readings) returns (r: Text)
      requires Valid()
      modifies `roundRobinIndex, breakers.Values
      ensures Valid()
      ensures View() == old(View()).AfterSelect(now)
      ensures old(View()).IsChoice(task, now, r)
    {
      if workers.Keys == {} {
        assert View().Consulted(workers.Keys, now) == View();
        return [];
      }
      match strategy
      case ROUND_ROBIN =>
        r := RoundRobinSelect(now);
      case LEAST_CONNECTION =>
        r := LeastConnectionSelect(now);
      case CONSISTENT_HASH =>
        r := ConsistentHashSelect(task, now);
    }

    method IsWorkerAvailable(id: Text, now: Readings) returns (ok: bool)
      requires Valid()
      modifies breakers.Values
      ensures Valid()
      ensures ok <==> old(View()).Eligible(id, now)
      ensures View() == old(View()).Consulted({id}, now)
    {
      if id !in workers {
        assert View().Consulted({id}, now) == View();
        return false;
      }
      ok := Consult(id, now(id));
    }

    method UpdateWorkerLoad(id: Text, load: int)
      requires Valid()
      modifies `workers
      ensures Valid()
      ensures View() == old(View()).WithLoad(id, load)
    {
      if id in workers {
        workers := workers[id := workers[id].(currentLoad := load)];
      }
    }

    method MarkWorkerDead(id: Text)
      requires Valid()
      modifies `workers
      ensures Valid()
      ensures View() == old(View()).WithDead(id)
    {
      if id in workers {
        workers := workers[id := workers[id].(status := DEAD)];
      }
    }

    method RemoveWorker(id: Text)
      requires Valid()
      modifies `workers, `breakers
      ensures Valid() && breakers.Values <= old(breakers.Values)
      ensures View() == old(View()).Without({id})
    {
      Erase(id);
    }

    method Erase(id: Text)
      requires Valid()
      modifies `workers, `breakers
      ensures Valid() && breakers.Values <= old(breakers.Values)
      ensures View() == old(View()).Without({id})
    {
      workers := workers - {id};
      breakers := breakers - {id};
      assert View().breakers == old(View()).Without({id}).breakers;
    }

    method RecordSuccess(id: Text)
      requires Valid()
      modifies breakers.Values
      ensures Valid()
      ensures View() == old(View()).WithBreakerEvent(id, CB.Success)
    {
      if id in breakers {
        breakers[id].RecordSuccess();
      }
    }

    method RecordFailure(id: Text, now: int)
      requires Valid()
      modifies breakers.Values
      ensures Valid()
      ensures View() == old(View()).WithBreakerEvent(id, CB.Failure(now))
    {
      if id in breakers {
        breakers[id].RecordFailure(now);
      }
    }

    method AddOrRefresh(s: ServiceInfo, beat: int)
      requires Valid()
      modifies `workers, `breakers
      ensures Valid() && fresh(breakers.Values - old(breakers.Values))
      ensures View() == old(View()).Upsert(s, beat)
    {
      if s.id !in workers {
        workers := workers[s.id := WorkerNode(s.id, s.address, s.port, 0, ACTIVE, beat)];
        var breaker := new CB.CircuitBreaker(WORKER_CONFIG);
        breakers := breakers[s.id := breaker];
        assert View().breakers == old(View()).Upsert(s, beat).breakers;
      } else {
        workers := workers[s.id := workers[s.id].(address := s.address, port := s.port, lastHeartbeat := beat)];
      }
    }

    method UpdateWorkers(services: seq<ServiceInfo>, beats: nat -> int)
      requires Valid()
      modifies `workers, `breakers
      ensures Valid() && fresh(breakers.Values - old(breakers.Values))
      ensures View() == old(View()).Reconciled(services, beats)
    {
      var current: set<Text> := {};
      for i := 0 to |services|
        invariant Valid() && fresh(breakers.Values - old(breakers.Values))
        invariant current == Listed(services[..i])
        invariant View() == old(View()).Merged(services[..i], beats)
      {
        assert services[..i + 1][..i] == services[..i];
        current := current + {services[i].id};
        AddOrRefresh(services[i], beats(i));
      }
      assert services[..|services|] == services;
      EraseUnlisted(current);
    }

    /** The second loop: workers that are not listed any more. */
    method EraseUnlisted(current: set<Text>)
      requires Valid()
      modifies `workers, `breakers
      ensures Valid() && breakers.Values <= old(breakers.Values)
      ensures View() == old(View()).Without(old(workers.Keys) - current)
    {
      hide Balancer.Without;
      ghost var b := View();
      var order := InOrder(workers.Keys);
      ghost var gone, seen: set<Text> := {}, {};
      EraseNone(b);
      for i := 0 to |order|
        invariant Valid() && breakers.Values <= old(breakers.Values)
        invariant seen == Elements(order[..i]) && gone == seen - current
        invariant View() == b.Without(gone)
      {
        NextElement(order, i);
        if order[i] !in current {
          EraseNext(b, gone, order[i]);
          Erase(order[i]);
          gone := gone + {order[i]};
        }
        seen := seen + {order[i]};
      }
      InOrderElements(b.workers.Keys);
    }
  }

  lemma EraseNone(b: Balancer)
    ensures b.Without({}) == b
  {
    assert b.breakers - {} == b.breakers;
  }

  lemma EraseNext(b: Balancer, gone: set<Text>, id: Text)
    ensures b.Without(gone).Without({id}) == b.Without(gone + {id})
  {
    assert b.workers - gone - {id} == b.workers - (gone + {id});
    assert b.breakers - gone - {id} == b.breakers - (gone + {id});
  }

  lemma TakesTurns(b: Balancer, now: Readings, available: seq<Text>)
    requires b.strategy == ROUND_ROBIN && available == InOrder(b.EligibleSet(now))
    ensures available == [] <==> b.EligibleSet(now) == {}
    ensures b.IsChoice([], now, if available == [] then [] else available[b.index % |available|])
  {
    if available != [] { assert available[0] in b.EligibleSet(now); }
  }

  lemma EmptyCircle(c: seq<Slot>, e: set<Text>)
    requires IsCircle(c, e)
    ensures c == [] <==> e == {}
  {
    if c != [] { assert c[0].worker in e; } else { assert forall w :: w in e ==> Slot(HashOf(w), w) in c; }
  }

  lemma AskNobody(b: Balancer, now: Readings)
    ensures b.Consulted({}, now) == b && b.EligibleAmong({}, now) == {}
  {
    assert b.Consulted({}, now).breakers == b.breakers;
  }

  lemma EligibleNext(b: Balancer, asked: set<Text>, id: Text, now: Readings)
    ensures b.EligibleAmong(asked + {id}, now) == b.EligibleAmong(asked, now) +
            (if b.Eligible(id, now) then {id} else {})
    ensures forall x :: Above(x, asked) ==> Above(x, b.EligibleAmong(asked, now))
  {
  }

  lemma AppendAbove(r: seq<Text>, id: Text)
    requires Ascending(r) && Above(id, Elements(r))
    ensures Ascending(r + [id]) && Elements(r + [id]) == Elements(r) + {id}
  {
    assert forall i :: 0 <= i < |r| ==> r[i] in Elements(r);
  }

  /** What the least-connection loop holds after it has seen the eligible workers `e`. */
  ghost predicate BestSoFar(b: Balancer, e: set<Text>, best: Option<Text>)
    requires e <= b.workers.Keys
  {
    match best
    case None => e == {}
    case Some(r) => b.LeastLoaded(e, r)
  }

  lemma BestNext(b: Balancer, e: set<Text>, best: Option<Text>, id: Text)
    requires e <= b.workers.Keys && id in b.workers && id !in e && Above(id, e) && BestSoFar(b, e, best)
    ensures best.Some? ==> best.value in b.workers
    ensures BestSoFar(b, e + {id},
              if best.None? || b.workers[id].currentLoad < b.workers[best.value].currentLoad then Some(id) else best)
  {
  }

  lemma CircleNext(c: seq<Slot>, e: set<Text>, id: Text)
    requires IsCircle(c, e)
    ensures IsCircle(c + [Slot(HashOf(id), id)], e + {id})
  {
    var d := c + [Slot(HashOf(id), id)];
    forall w | w in e + {id} ensures Slot(HashOf(w), w) in d {
      if w != id {
        assert Slot(HashOf(w), w) in c;
      } else {
        assert d[|c|] == Slot(HashOf(w), w);
      }
    }
  }

  /** Asking one more worker, in any order of asking. */
  lemma ConsultNext(b: Balancer, asked: set<Text>, id: Text, now: Readings)
    requires id !in asked
    ensures b.Consulted(asked + {id}, now) == b.Consulted(asked, now).Consulted({id}, (_) => now(id))
    ensures b.Consulted(asked, now).Eligible(id, (_) => now(id)) <==> b.Eligible(id, now)
  {
    assert b.Consulted(asked + {id}, now).breakers == b.Consulted(asked, now).Consulted({id}, (_) => now(id)).breakers;
  }

  lemma SortedCircle(c: seq<Slot>, s: seq<Slot>, e: set<Text>)
    requires IsCircle(c, e) && multiset(s) == multiset(c)
    ensures IsCircle(s, e) && |s| == |c|
  {
    assert |multiset(s)| == |multiset(c)|;
    assert forall x :: x in s <==> x in multiset(s);
    assert forall x :: x in c <==> x in multiset(c);
    forall i | 0 <= i < |s| ensures s[i].place == HashOf(s[i].worker) && s[i].worker in e {
      assert s[i] in multiset(c);
      var j :| 0 <= j < |c| && c[j] == s[i];
    }
  }
}
