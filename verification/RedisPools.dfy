/**
 The connection pool: a vector of clients and, beside it, a vector saying which are leased.
 Every client in the pool is connected, since only connected clients enter it and none is disconnected there.
 */
module RedisPools {
  import opened Texts
  import opened Division
  import opened RedisStores

  class RedisClient {
    const server: RedisServer
    var connected: bool

    constructor (server: RedisServer)
      ensures this.server == server && !connected
    {
      this.server := server;
      connected := false;
    }

    /** `reachable`: what the connection attempt, if one is made, finds. */
    method Connect(reachable: bool) returns (ok: bool)
      modifies this
      ensures ok == connected == (old(connected) || reachable)
    {
      if connected {
        return true;
      }
      connected := reachable;
      return connected;
    }
  }

  /** Index of the first free slot. */
  function FirstFree(inUse: seq<bool>): (r: Option<nat>)
    ensures r.None? <==> forall i :: 0 <= i < |inUse| ==> inUse[i]
    ensures r.Some? ==> r.value < |inUse| && !inUse[r.value] && forall i :: 0 <= i < r.value ==> inUse[i]
  {
    if inUse == [] then None
    else if !inUse[0] then Some(0)
    else match FirstFree(inUse[1..])
         case None => None
         case Some(i) => Some(i + 1)
  }

  /** The leased slots after `getConnection`. */
  function AfterGet(inUse: seq<bool>, reachable: bool): seq<bool>
  {
    match FirstFree(inUse)
    case Some(i) => inUse[i := true]
    case None => if reachable then inUse + [true] else inUse
  }

  /** The slot it hands out. */
  function Granted(inUse: seq<bool>, reachable: bool): Option<nat>
  {
    match FirstFree(inUse)
    case Some(i) => Some(i)
    case None => if reachable then Some(|inUse|) else None
  }

  class RedisPool {
    const server: RedisServer
    var pool: seq<RedisClient>
    var inUse: seq<bool>

    ghost predicate Valid()
      reads this, pool
    {
      && |pool| == |inUse|
      && (forall i, j :: 0 <= i < j < |pool| ==> pool[i] != pool[j])
      && (forall i :: 0 <= i < |pool| ==> pool[i].connected && pool[i].server == server)
    }

    /** `reachable[i]`: whether the i-th of the initial connections succeeds. */
    constructor (server: RedisServer, reachable: seq<bool>)
      ensures Valid() && this.server == server && fresh(pool)
      ensures |pool| == multiset(reachable)[true]
      ensures forall i :: 0 <= i < |inUse| ==> !inUse[i]
    {
      this.server := server;
      pool, inUse := [], [];
      new;
      for i := 0 to |reachable|
        invariant Valid() && fresh(pool)
        invariant |pool| == multiset(reachable[..i])[true]
        invariant forall j :: 0 <= j < |inUse| ==> !inUse[j]
      {
        var client := new RedisClient(server);
        var ok := client.Connect(reachable[i]);
        if ok {
          pool := pool + [client];
          inUse := inUse + [false];
        }
        assert reachable[..i + 1] == reachable[..i] + [reachable[i]];
      }
      assert reachable[..|reachable|] == reachable;
    }

    method GetConnection(reachable: bool) returns (client: RedisClient?)
      requires Valid()
      modifies this
      ensures Valid() && old(pool) <= pool && fresh(pool[|old(pool)|..])
      ensures inUse == AfterGet(old(inUse), reachable)
      ensures client == null <==> Granted(old(inUse), reachable).None?
      ensures client != null ==> client.server == server && pool[Granted(old(inUse), reachable).value] == client
    {
      for i := 0 to |pool|
        invariant pool == old(pool) && inUse == old(inUse) && Valid()
        invariant forall j :: 0 <= j < i ==> inUse[j]
      {
        if !inUse[i] {
          if pool[i].connected {
            inUse := inUse[i := true];
            return pool[i];
          }
        }
      }
      var newcomer := new RedisClient(server);
      var ok := newcomer.Connect(reachable);
      if ok {
        pool := pool + [newcomer];
        inUse := inUse + [true];
        return newcomer;
      }
      return null;
    }

    method ReturnConnection(client: RedisClient?)
      requires Valid()
      modifies `inUse
      ensures Valid()
      ensures forall i :: 0 <= i < |pool| && pool[i] == client ==> inUse == old(inUse)[i := false]
      ensures client !in pool ==> inUse == old(inUse)
    {
      for i := 0 to |pool|
        invariant inUse == old(inUse)
        invariant forall j :: 0 <= j < i ==> pool[j] != client
      {
        if pool[i] == client {
          inUse := inUse[i := false];
          return;
        }
      }
    }

    method GetActiveConnections() returns (n: nat)
      requires Valid()
      ensures n == Active(inUse)
    {
      n := 0;
      for i := 0 to |inUse|
        invariant n == Active(inUse[..i])
      {
        if inUse[i] {
          n := n + 1;
        }
        assert inUse[..i + 1][..i] == inUse[..i];
      }
      assert inUse[..|inUse|] == inUse;
    }
  }

  function Active(inUse: seq<bool>): nat
  {
    if inUse == [] then 0 else Active(inUse[..|inUse| - 1]) + (if inUse[|inUse| - 1] then 1 else 0)
  }

  /** The leased slots after a call that took a connection and gave it back, or threw before giving it back. */
  function Settled(inUse: seq<bool>, reachable: bool, threw: bool): seq<bool>
  {
    match Granted(inUse, reachable)
    case None => inUse
    case Some(i) => if threw then AfterGet(inUse, reachable) else AfterGet(inUse, reachable)[i := false]
  }

  function Leased(inUse: seq<bool>): set<nat>
  {
    set i: nat | i < |inUse| && inUse[i]
  }

  /** Such a call leaves the leases as it found them unless it threw, and then it leaks exactly the one it took. */
  lemma SettledLeavesLeases(inUse: seq<bool>, reachable: bool, threw: bool)
    ensures Leased(Settled(inUse, reachable, threw)) ==
            Leased(inUse) + (match Granted(inUse, reachable)
                             case Some(i) => (if threw then {i} else {})
                             case None => {})
    ensures Granted(inUse, reachable).Some? ==> Granted(inUse, reachable).value !in Leased(inUse)
  {
  }

  // ---------- runs of leases ----------

  /** A thread takes a connection, or gives back the one in `slot`. */
  datatype PoolOp = Get(thread: nat, reachable: bool) | Return(thread: nat, slot: nat)

  /** A connection in a thread's hands. */
  datatype Lease = Lease(thread: nat, slot: nat)

  datatype PoolState = PoolState(inUse: seq<bool>, leases: set<Lease>)

  function Next(p: PoolState, op: PoolOp): PoolState
  {
    match op
    case Get(t, reachable) =>
      PoolState(AfterGet(p.inUse, reachable),
                p.leases + (match Granted(p.inUse, reachable) case Some(i) => {Lease(t, i)} case None => {}))
    case Return(t, i) =>
      PoolState(if i < |p.inUse| then p.inUse[i := false] else p.inUse, p.leases - {Lease(t, i)})
  }

  function Run(p: PoolState, ops: seq<PoolOp>): PoolState
  {
    if ops == [] then p else Next(Run(p, ops[..|ops| - 1]), ops[|ops| - 1])
  }

  /** A slot is marked in use exactly while one thread holds it. */
  ghost predicate Exclusive(p: PoolState)
  {
    && (forall l :: l in p.leases ==> l.slot < |p.inUse| && p.inUse[l.slot])
    && (forall k, l :: k in p.leases && l in p.leases && k.slot == l.slot ==> k == l)
    && (forall i :: 0 <= i < |p.inUse| && p.inUse[i] ==> exists t :: Lease(t, i) in p.leases)
  }

  /** Every thread gives back only what it holds. */
  ghost predicate ReturnsOwn(p: PoolState, ops: seq<PoolOp>)
  {
    ops == [] ||
    var op, before := ops[|ops| - 1], ops[..|ops| - 1];
    ReturnsOwn(p, before) && (op.Return? ==> Lease(op.thread, op.slot) in Run(p, before).leases)
  }

  /** A connection is never in two hands, whatever the threads do, as long as each returns a lease once. */
  lemma {:induction false} LeasesAreExclusive(p: PoolState, ops: seq<PoolOp>)
    requires Exclusive(p) && ReturnsOwn(p, ops)
    ensures Exclusive(Run(p, ops))
  {
    if ops == [] {
    } else {
      LeasesAreExclusive(p, ops[..|ops| - 1]);
      StepKeepsExclusive(Run(p, ops[..|ops| - 1]), ops[|ops| - 1]);
    }
  }

  lemma StepKeepsExclusive(p: PoolState, op: PoolOp)
    requires Exclusive(p) && (op.Return? ==> Lease(op.thread, op.slot) in p.leases)
    ensures Exclusive(Next(p, op))
  {
    if op.Get? { GetKeepsExclusive(p, op); } else { ReturnKeepsExclusive(p, op); }
  }

  lemma GetKeepsExclusive(p: PoolState, op: PoolOp)
    requires Exclusive(p) && op.Get?
    ensures Exclusive(Next(p, op))
  {
    var q := Next(p, op);
    forall i | 0 <= i < |q.inUse| && q.inUse[i] ensures exists t :: Lease(t, i) in q.leases {
      if i < |p.inUse| && p.inUse[i] {
        var t :| Lease(t, i) in p.leases;
        assert Lease(t, i) in q.leases;
      } else {
        assert Lease(op.thread, i) in q.leases;
      }
    }
  }

  lemma ReturnKeepsExclusive(p: PoolState, op: PoolOp)
    requires Exclusive(p) && op.Return? && Lease(op.thread, op.slot) in p.leases
    ensures Exclusive(Next(p, op))
  {
    var q := Next(p, op);
    forall i | 0 <= i < |q.inUse| && q.inUse[i] ensures exists t :: Lease(t, i) in q.leases {
      var t :| Lease(t, i) in p.leases;
      assert Lease(t, i) in q.leases;
    }
  }

  /** Giving back a connection one does not hold breaks this exactly when someone else holds it. */
  lemma StrayReturnBreaksExactly(p: PoolState, t: nat, i: nat)
    requires Exclusive(p) && Lease(t, i) !in p.leases
    ensures Exclusive(Next(p, Return(t, i))) <==> !(i < |p.inUse| && p.inUse[i])
  {
    var q := Next(p, Return(t, i));
    assert q.leases == p.leases;
    if i < |p.inUse| && p.inUse[i] {
      var u :| Lease(u, i) in p.leases;
      assert Lease(u, i) in q.leases;
    } else {
      assert q == p;
    }
  }

  /** The largest number of slots in use at any moment of the run. */
  function Peak(p: PoolState, ops: seq<PoolOp>): nat
  {
    if ops == [] then Active(p.inUse) else Max(Peak(p, ops[..|ops| - 1]), Active(Run(p, ops).inUse))
  }

  lemma {:induction false} ActiveBound(u: seq<bool>)
    ensures Active(u) <= |u|
    ensures Active(u) == |u| <==> forall i :: 0 <= i < |u| ==> u[i]
  {
    if u == [] {
    } else {
      ActiveBound(u[..|u| - 1]);
      assert u == u[..|u| - 1] + [u[|u| - 1]];
    }
  }

  lemma {:induction false} ActiveAfterSet(u: seq<bool>, i: nat, b: bool)
    requires i < |u|
    ensures Active(u[i := b]) == Active(u) - (if u[i] then 1 else 0) + (if b then 1 else 0)
  {
    var n := |u| - 1;
    if i == n {
      assert u[i := b][..n] == u[..n];
    } else {
      assert u[i := b][..n] == u[..n][i := b];
      ActiveAfterSet(u[..n], i, b);
    }
  }

  /** The pool is as long as the initial connections or the peak of concurrent leases demand, never longer. */
  lemma {:induction false} PoolIsTight(p: PoolState, ops: seq<PoolOp>)
    ensures |Run(p, ops).inUse| == Max(|p.inUse|, Peak(p, ops))
  {
    ActiveBound(p.inUse);
    if ops == [] {
    } else {
      var q, op := Run(p, ops[..|ops| - 1]), ops[|ops| - 1];
      PoolIsTight(p, ops[..|ops| - 1]);
      ActiveBound(q.inUse);
      ActiveBound(Next(q, op).inUse);
      if op.Return? && op.slot < |q.inUse| { ActiveAfterSet(q.inUse, op.slot, false); }
      if op.Get? && FirstFree(q.inUse).None? && op.reachable { assert (q.inUse + [true])[..|q.inUse|] == q.inUse; }
    }
  }
}
