/**
 The workers inside the balancer: over every run of balancer operations, which of them set a worker's fields last.
 */
module WorkerRuns {
  import opened Texts
  import opened LoadBalancers
  import opened Balancing

  /** Whether the worker was there to begin with or, once a list was taken in or it was removed, by the latest of
      these. */
  function Known(at: bool, ops: seq<Op>, w: Text): bool
  {
    if ops == [] then at else
    var op := ops[|ops| - 1];
    if op.Reconcile? then exists s :: s in op.services && s.id == w
    else Known(at, ops[..|ops| - 1], w) && !(op.Remove? && op.id == w)
  }

  /** Over every run the balancer knows a worker, and has a breaker for it, exactly then. */
  lemma {:induction false} KnownIsListed(b: Balancer, ops: seq<Op>, w: Text)
    requires b.KeysAgree()
    ensures w in Run(b, ops).workers <==> Known(w in b.workers, ops, w)
    ensures w in Run(b, ops).breakers <==> w in Run(b, ops).workers
  {
    KeysAlwaysAgree(b, ops);
    if ops == [] {
    } else {
      var before, op := ops[..|ops| - 1], ops[|ops| - 1];
      KnownIsListed(b, before, w);
      KeysAlwaysAgree(b, before);
      if op.Reconcile? { ReconciliationIsExact(Run(b, before), op.services, op.beats); }
    }
  }

  /** The load last written for the worker; `n` if none was. */
  function LastLoad(n: int, ops: seq<Op>, w: Text): int
  {
    if ops == [] then n else
    var op := ops[|ops| - 1];
    if op.Load? && op.id == w then op.load else LastLoad(n, ops[..|ops| - 1], w)
  }

  /** Where a worker was last seen, and when. */
  datatype Sighting = Sighting(address: Text, port: Int32, beat: int)

  /** What the latest list that names the worker says of it, by its last entry for it; `s` if no list does. */
  function LastSighting(s: Sighting, ops: seq<Op>, w: Text): Sighting
  {
    if ops == [] then s else
    var op := ops[|ops| - 1];
    if op.Reconcile? && w in Listed(op.services) then
      var k := LastListing(op.services, w);
      Sighting(op.services[k].address, op.services[k].port, op.beats(k))
    else LastSighting(s, ops[..|ops| - 1], w)
  }

  ghost predicate Killed(ops: seq<Op>, w: Text)
  {
    exists i :: 0 <= i < |ops| && ops[i].MarkDead? && ops[i].id == w
  }

  lemma KilledNext(ops: seq<Op>, w: Text)
    requires ops != []
    ensures var op := ops[|ops| - 1];
            Killed(ops, w) <==> Killed(ops[..|ops| - 1], w) || (op.MarkDead? && op.id == w)
  {
    var before := ops[..|ops| - 1];
    assert forall i :: 0 <= i < |before| ==> before[i] == ops[i];
  }

  lemma StepSets(b: Balancer, op: Op, w: Text)
    requires b.KeysAgree() && w in b.workers && !Drops(op, w)
    ensures w in Next(b, op).workers
    ensures var x, y := b.workers[w], Next(b, op).workers[w];
            && y.id == x.id
            && y.currentLoad == (if op.Load? && op.id == w then op.load else x.currentLoad)
            && y.status == (if op.MarkDead? && op.id == w then DEAD else x.status)
            && (if op.Reconcile? then y == Refreshed(b, op.services, op.beats, w)
                else y.address == x.address && y.port == x.port && y.lastHeartbeat == x.lastHeartbeat)
  {
    if op.Reconcile? { ReconciliationIsExact(b, op.services, op.beats); }
  }

  /** Over every run in which the worker is not dropped: its load is the one written last, whoever selected or reported
      meanwhile; it is dead exactly if it was, or was marked so; the rest is what it was last listed with. */
  lemma {:induction false} WorkerIsItsHistory(b: Balancer, ops: seq<Op>, w: Text)
    requires b.KeysAgree() && w in b.workers
    requires forall i :: 0 <= i < |ops| ==> !Drops(ops[i], w)
    ensures w in Run(b, ops).workers
    ensures var x, y := b.workers[w], Run(b, ops).workers[w];
            && y.id == x.id && y.currentLoad == LastLoad(x.currentLoad, ops, w)
            && (y.status == DEAD <==> x.status == DEAD || Killed(ops, w))
            && Sighting(y.address, y.port, y.lastHeartbeat) ==
                 LastSighting(Sighting(x.address, x.port, x.lastHeartbeat), ops, w)
  {
    if ops == [] {
    } else {
      hide Next;
      var before, op := ops[..|ops| - 1], ops[|ops| - 1];
      WorkerIsItsHistory(b, before, w);
      KeysAlwaysAgree(b, before);
      StepSets(Run(b, before), op, w);
      KilledNext(ops, w);
    }
  }
}
