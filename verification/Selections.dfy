/**
 What a selection answers, said of the workers' and breakers' fields alone: who can be chosen, who is under each
 strategy, and how the round-robin counter moves.
 */
module Selections {
  import opened Texts
  import opened Hashing
  import opened LoadBalancers
  import opened Balancing
  import CB = CircuitBreakers

  /** The worker is active, and its breaker, if it has one, is not OPEN or opened at least 30 s ago. */
  predicate Available(b: Balancer, id: Text, now: Readings)
  {
    && id in b.workers && b.workers[id].status == ACTIVE
    && (id in b.breakers ==>
          b.breakers[id].state != CB.OPEN || now(id) - b.breakers[id].lastFailureTime >= 30_000_000_000)
  }

  lemma EligibleIsAvailable(b: Balancer, id: Text, now: Readings)
    ensures b.Eligible(id, now) <==> Available(b, id, now)
  {
    if id in b.breakers { CB.SecondsFloorIsExact(now(id) - b.breakers[id].lastFailureTime, 30); }
  }

  /** The workers that can be chosen. */
  function Candidates(b: Balancer, now: Readings): set<Text>
  {
    set id | id in b.workers && Available(b, id, now)
  }

  lemma CandidatesAreEligible(b: Balancer, now: Readings)
    ensures Candidates(b, now) == b.EligibleSet(now)
  {
    forall id ensures id in Candidates(b, now) <==> id in b.EligibleSet(now) { EligibleIsAvailable(b, id, now); }
  }

  /** Every answer is an available worker, whatever the strategy; "" is answered exactly when no worker is. */
  lemma AnswersAreAvailable(b: Balancer, task: Text, now: Readings, r: Text)
    requires b.IsChoice(task, now, r)
    ensures r != [] ==> Available(b, r, now)
    ensures (exists id :: Available(b, id, now)) ==> Available(b, r, now)
    ensures [] !in b.workers ==> (r == [] <==> forall id :: id in b.workers ==> !Available(b, id, now))
  {
    hide Available, Balancer.EligibleSet;
    CandidatesAreEligible(b, now);
    AnswerIsEligible(b, task, now, r);
    AvailableIsCandidate(b, now);
    NobodyToChoose(b, task, now, r);
  }

  lemma AvailableIsCandidate(b: Balancer, now: Readings)
    ensures forall id :: Available(b, id, now) <==> id in Candidates(b, now)
  {
  }

  lemma NobodyToChoose(b: Balancer, task: Text, now: Readings, r: Text)
    requires b.IsChoice(task, now, r)
    ensures b.EligibleSet(now) == {} ==> r == []
  {
  }

  /** A worker can be chosen from the moment it is listed, as an idle one; one that was known is as available as before,
      if it is still listed. */
  lemma ListedAreAvailable(b: Balancer, services: seq<ServiceInfo>, beats: nat -> int, id: Text, now: Readings)
    requires b.KeysAgree()
    ensures var c := b.Reconciled(services, beats);
            && (Available(c, id, now) <==> id in Listed(services) && (id in b.workers ==> Available(b, id, now)))
            && (id in Listed(services) ==>
                  && id in c.workers
                  && c.workers[id].currentLoad == if id in b.workers then b.workers[id].currentLoad else 0)
  {
    ReconciliationIsExact(b, services, beats);
  }

  /** Asking after one worker says the same of it. */
  lemma AskedIsAvailable(b: Balancer, id: Text, now: Readings, ok: bool)
    requires ok <==> b.Eligible(id, now)
    ensures ok <==> Available(b, id, now)
  {
    EligibleIsAvailable(b, id, now);
  }

  /** Least connection: no available worker has less load, or the same load and a smaller id. */
  lemma LeastConnectionAnswers(b: Balancer, task: Text, now: Readings, r: Text, w: Text)
    requires b.IsChoice(task, now, r) && Available(b, w, now)
    requires b.strategy == LEAST_CONNECTION || (b.strategy == CONSISTENT_HASH && task == [])
    ensures r in b.workers && b.workers[r].currentLoad <= b.workers[w].currentLoad
    ensures b.workers[r].currentLoad == b.workers[w].currentLoad ==> !Less(w, r)
  {
    hide Available;
    AvailableIsCandidate(b, now);
    CandidatesAreEligible(b, now);
    LessTotal(r, w);
    LessTotal(r, r);
  }

  /** The hashes from `h` on, then those below it: `x` comes before `y`. */
  predicate Clockwise(h: Word, x: Word, y: Word)
  {
    if x >= h then y < h || x <= y else y < h && x <= y
  }

  /** Consistent hash: going clockwise from the task's hash, no available worker's hash comes before the answer's. */
  lemma ConsistentHashAnswers(b: Balancer, task: Text, now: Readings, r: Text, w: Text)
    requires b.IsChoice(task, now, r) && b.strategy == CONSISTENT_HASH && task != [] && Available(b, w, now)
    ensures Clockwise(HashOf(task), HashOf(r), HashOf(w))
  {
    hide Available, HashOf;
    AvailableIsCandidate(b, now);
    CandidatesAreEligible(b, now);
    NearerIsClockwise(HashOf(task), HashOf(r), HashOf(w));
  }

  lemma NearerIsClockwise(h: Word, x: Word, y: Word)
    ensures (x - h) % TWO_64 <= (y - h) % TWO_64 <==> Clockwise(h, x, y)
  {
  }

  /** The available workers with smaller ids. */
  function Below(b: Balancer, now: Readings, r: Text): set<Text>
  {
    set id | id in b.workers && Available(b, id, now) && Less(id, r)
  }

  /** Round robin: of n available workers the one with as many smaller ids among them as the counter leaves modulo n. */
  lemma RoundRobinAnswers(b: Balancer, now: Readings, r: Text)
    requires b.IsChoice([], now, r) && b.strategy == ROUND_ROBIN && Candidates(b, now) != {}
    ensures |Below(b, now, r)| == b.index % |Candidates(b, now)|
  {
    hide Available, Balancer.EligibleSet, InOrder;
    CandidatesAreEligible(b, now);
    AvailableIsCandidate(b, now);
    var e := Candidates(b, now);
    var order := InOrder(e);
    InOrderElements(e);
    OrderSize(order);
    NoElements(order);
    BelowPosition(order, b.index % |order|);
    forall id ensures id in Below(b, now, r) <==> id in Smaller(order, r) {
      assert id in e <==> id in Elements(order);
    }
    assert Below(b, now, r) == Smaller(order, r);
  }

  function Smaller(r: seq<Text>, x: Text): set<Text>
  {
    set id | id in r && Less(id, x)
  }

  lemma OrderSize(r: seq<Text>)
    requires Ascending(r)
    ensures |Elements(r)| == |r|
  {
    AscendingDistinct(r);
    DistinctSize(r);
  }

  lemma BelowPosition(r: seq<Text>, k: nat)
    requires Ascending(r) && k < |r|
    ensures |Smaller(r, r[k])| == k
  {
    var front := r[..k];
    OrderSize(front);
    forall id ensures id in Elements(front) <==> id in Smaller(r, r[k]) {
      if id in Smaller(r, r[k]) {
        var j :| 0 <= j < |r| && r[j] == id;
        LessTotal(r[j], r[k]);
        assert j < k;
        assert front[j] == id;
      }
    }
    assert Elements(front) == Smaller(r, r[k]);
  }

  // ---------- the counter ----------

  /** The operation is a round-robin selection that finds a worker. */
  predicate IsRound(b: Balancer, op: Op)
  {
    op.Select? && b.strategy == ROUND_ROBIN && Candidates(b, op.now) != {}
  }

  /** How many selections of a run of balancer operations find an available worker, under round robin. */
  function Rounds(b: Balancer, ops: seq<Op>): nat
  {
    if ops == [] then 0 else
    var before, op := ops[..|ops| - 1], ops[|ops| - 1];
    Rounds(b, before) + if IsRound(Run(b, before), op) then 1 else 0
  }

  /** Counting `k` steps from `i` on, a 64-bit counter is at `j`. */
  predicate Ahead(i: Word, k: nat, j: Word)
  {
    j == (i + k) % TWO_64
  }

  lemma AheadAdds(i: Word, k: nat, x: Word, l: nat, y: Word)
    requires Ahead(i, k, x) && Ahead(x, l, y)
    ensures Ahead(i, k + l, y)
  {
  }

  /** Over every run of balancer operations, the counter advances at the round-robin selections that find a worker, by
      one modulo 2^64, and at nothing else; the strategy stays. */
  lemma {:induction false} CounterCountsRounds(b: Balancer, ops: seq<Op>)
    requires b.KeysAgree()
    ensures Ahead(b.index, Rounds(b, ops), Run(b, ops).index) && Run(b, ops).strategy == b.strategy
  {
    if ops == [] {
    } else {
      hide *;
      var before, op := ops[..|ops| - 1], ops[|ops| - 1];
      CounterCountsRounds(b, before);
      KeysAlwaysAgree(b, before);
      var c := Run(b, before);
      OneRound(c, op);
      RoundsStep(b, ops);
      AheadAdds(b.index, Rounds(b, before), c.index, if IsRound(c, op) then 1 else 0, Run(b, ops).index);
    }
  }

  lemma RoundsStep(b: Balancer, ops: seq<Op>)
    requires ops != []
    ensures var before, op := ops[..|ops| - 1], ops[|ops| - 1];
            && Run(b, ops) == Next(Run(b, before), op)
            && Rounds(b, ops) == Rounds(b, before) + if IsRound(Run(b, before), op) then 1 else 0
  {
    hide Next, IsRound;
  }

  lemma OneRound(b: Balancer, op: Op)
    requires b.KeysAgree()
    ensures Next(b, op).strategy == b.strategy
    ensures Ahead(b.index, if IsRound(b, op) then 1 else 0, Next(b, op).index)
  {
    hide Candidates, Balancer.EligibleSet;
    if op.Select? { CandidatesAreEligible(b, op.now); }
    if op.Reconcile? { ReconciliationIsExact(b, op.services, op.beats); }
  }

  /** Said of the answers: a run of selections leaves the counter where it was plus the number of non-empty answers. */
  lemma {:induction false} CounterCountsAnswers(b: Balancer, nows: seq<Readings>, picks: seq<Text>)
    requires b.strategy == ROUND_ROBIN && [] !in b.workers && Answers(b, nows, picks)
    ensures Ahead(b.index, Named(picks), After(b, nows).index)
    decreases |nows|
  {
    if nows == [] {
    } else {
      hide Ahead, Balancer.AfterSelect, Balancer.EligibleSet, Balancer.IsChoice;
      var c := b.AfterSelect(nows[0]);
      SelectionKeeps(b, nows[0]);
      AnswerIsEligible(b, [], nows[0], picks[0]);
      CounterCountsAnswers(c, nows[1..], picks[1..]);
      AheadAdds(b.index, if picks[0] == [] then 0 else 1, c.index, Named(picks[1..]), After(b, nows).index);
    }
  }

  lemma SelectionKeeps(b: Balancer, now: Readings)
    requires b.strategy == ROUND_ROBIN
    ensures var c := b.AfterSelect(now);
            && c.workers == b.workers && c.strategy == b.strategy
            && Ahead(b.index, if b.EligibleSet(now) == {} then 0 else 1, c.index)
  {
  }

  /** The balancer after the selections. */
  function After(b: Balancer, nows: seq<Readings>): Balancer
    decreases |nows|
  {
    if nows == [] then b else After(b.AfterSelect(nows[0]), nows[1..])
  }

  /** How many answers name a worker. */
  function Named(picks: seq<Text>): nat
  {
    if picks == [] then 0 else (if picks[0] == [] then 0 else 1) + Named(picks[1..])
  }
}
