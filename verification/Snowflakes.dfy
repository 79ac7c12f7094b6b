/**
 The 64-bit id generator. A call reads the wall clock once, and again as long as it waits for the
 next millisecond; `clock` holds the readings the call gets, in order, and may be any numbers at all.
 */
module Snowflakes {
  import opened Texts
  import opened Bits

  const EPOCH := 1609459200000
  const WORKER_ID_BITS := 5
  const DATACENTER_ID_BITS := 5
  const SEQUENCE_BITS := 12
  const MAX_WORKER_ID := Pow2(WORKER_ID_BITS) - 1
  const WORKER_ID_SHIFT := SEQUENCE_BITS
  const DATACENTER_ID_SHIFT := SEQUENCE_BITS + WORKER_ID_BITS
  const TIMESTAMP_SHIFT := SEQUENCE_BITS + WORKER_ID_BITS + DATACENTER_ID_BITS
  const SEQUENCE_MASK: nat := Pow2(SEQUENCE_BITS) - 1

  const TWO_41 := 0x200_0000_0000

  datatype Generator = Generator(workerId: nat, datacenterId: nat, sequence: nat, lastTimestamp: int) {

    ghost predicate Valid()
    {
      workerId < 32 && datacenterId < 32 && sequence < 4096
    }

    /** The id issued for these fields, shift by shift and bit by bit. */
    function Id(): int
    {
      Signed(Or(Or(Or(ShiftLeft(Pattern(lastTimestamp - EPOCH), TIMESTAMP_SHIFT),
                      ShiftLeft(datacenterId, DATACENTER_ID_SHIFT)),
                   ShiftLeft(workerId, WORKER_ID_SHIFT)),
                sequence))
    }

    ghost predicate InWindow()
    {
      -TWO_41 <= lastTimestamp - EPOCH < TWO_41
    }

    /** Later in (timestamp, sequence). */
    ghost predicate Before(g: Generator)
    {
      lastTimestamp < g.lastTimestamp || (lastTimestamp == g.lastTimestamp && sequence < g.sequence)
    }
  }

  /** The clock readings one call gets: at least one. */
  type Clock = c: seq<int> | c != [] witness [0]

  datatype Outcome = Issued(id: int) | ClockBackwards | Waiting

  /** Reading `k` is later than `after`, and none before it, from `from` on, is. */
  ghost predicate IsFirstLater(clock: seq<int>, from: nat, after: int, k: nat)
  {
    from <= k < |clock| && clock[k] > after && forall j :: from <= j < k ==> clock[j] <= after
  }

  /** The first reading from `clock[from..]` later than `after`. */
  function FirstLater(clock: seq<int>, from: nat, after: int): (r: Option<int>)
    requires from <= |clock|
    ensures r.None? <==> forall k :: from <= k < |clock| ==> clock[k] <= after
    ensures r.Some? ==> exists k :: from <= k < |clock| && clock[k] == r.value && IsFirstLater(clock, from, after, k)
    decreases |clock| - from
  {
    if from == |clock| then None
    else if clock[from] > after then assert IsFirstLater(clock, from, after, from); Some(clock[from])
    else
      var r := FirstLater(clock, from + 1, after);
      assert forall k :: IsFirstLater(clock, from + 1, after, k) ==> IsFirstLater(clock, from, after, k);
      r
  }

  /** The masked increment counts modulo 4096. */
  function NextSequence(s: nat): (n: nat)
    ensures n == (s + 1) % 4096
  {
    MaskIsRemainder(s + 1);
    And(s + 1, SEQUENCE_MASK)
  }

  datatype Step = Stamped | Refused | Blocked

  /** One call: how it ends and the fields it leaves. Blocked: it is still inside its wait loop. */
  function Next(g: Generator, clock: Clock): (Step, Generator)
  {
    if clock[0] < g.lastTimestamp then (Refused, g)
    else if clock[0] > g.lastTimestamp then
      (Stamped, g.(sequence := 0, lastTimestamp := clock[0]))
    else
      var n := NextSequence(g.sequence);
      if n != 0 then (Stamped, g.(sequence := n))
      else
        match FirstLater(clock, 1, g.lastTimestamp)
        case None => (Blocked, g.(sequence := 0))
        case Some(t) => (Stamped, g.(sequence := 0, lastTimestamp := t))
  }

  class Snowflake {
    var workerId: nat
    var datacenterId: nat
    var sequence: nat
    var lastTimestamp: int

    ghost function View(): Generator
      reads this
    {
      Generator(workerId, datacenterId, sequence, lastTimestamp)
    }

    constructor ()
      ensures View() == Generator(0, 0, 0, -1)
    {
      workerId, datacenterId, sequence, lastTimestamp := 0, 0, 0, -1;
    }

    /** Rejects a worker id that does not fit its field. */
    method Init(id: Int64) returns (ok: bool)
      modifies this
      ensures ok <==> 0 <= id <= 31
      ensures View() == if ok then old(View()).(workerId := id) else old(View())
    {
      if id < 0 || id > MAX_WORKER_ID {
        return false;
      }
      workerId := id;
      return true;
    }

    method NextId(clock: Clock) returns (r: Outcome)
      modifies this
      ensures View() == Next(old(View()), clock).1
      ensures r == match Next(old(View()), clock).0
                   case Stamped => Issued(View().Id())
                   case Refused => ClockBackwards
                   case Blocked => Waiting
    {
      var timestamp := clock[0];
      if timestamp < lastTimestamp {
        return ClockBackwards;
      }
      if lastTimestamp == timestamp {
        sequence := NextSequence(sequence);
        if sequence == 0 {
          var later := WaitNextMillis(clock);
          if later.None? {
            return Waiting;
          }
          timestamp := later.value;
        }
      } else {
        sequence := 0;
      }
      lastTimestamp := timestamp;
      r := Issued(CurrentId());
    }

    function CurrentId(): int
      reads this
    {
      Generator(workerId, datacenterId, sequence, lastTimestamp).Id()
    }

    /** Spins on the clock; None when the readings run out first. */
    method WaitNextMillis(clock: Clock) returns (r: Option<int>)
      requires clock[0] == lastTimestamp
      ensures r == FirstLater(clock, 1, lastTimestamp)
    {
      var timestamp, i := clock[0], 1;
      while timestamp <= lastTimestamp
        invariant 1 <= i <= |clock|
        invariant timestamp <= lastTimestamp ==>
                    FirstLater(clock, i, lastTimestamp) == FirstLater(clock, 1, lastTimestamp)
        invariant timestamp > lastTimestamp ==> FirstLater(clock, 1, lastTimestamp) == Some(timestamp)
        decreases |clock| - i, timestamp <= lastTimestamp
      {
        if i == |clock| {
          return None;
        }
        timestamp := clock[i];
        i := i + 1;
      }
      return Some(timestamp);
    }
  }

  // ---------- packing ----------

  lemma FieldWidths()
    ensures Pow2(5) == 32 && Pow2(12) == 4096 && Pow2(17) == 131072 && Pow2(22) == 4194304
  {
    assert Pow2(3) == 8;
    assert Pow2(6) == 64;
    assert Pow2(9) == 512;
    assert Pow2(12) == 4096;
    assert Pow2(15) == 32768;
    assert Pow2(18) == 262144;
    assert Pow2(21) == 2097152;
  }

  /** The shifted `|` is the sum of the four fields, taken modulo 2^64. */
  lemma IdIsSum(g: Generator)
    requires g.Valid()
    ensures g.Id() == Signed(((g.lastTimestamp - 1609459200000) * 4194304 + g.datacenterId * 131072 +
                              g.workerId * 4096 + g.sequence) % TWO_64)
  {
    hide ShiftLeft, Or, Pattern, Signed;
    var d := g.lastTimestamp - EPOCH;
    ShiftsAreProducts(d, g.datacenterId, g.workerId);
    OrsAreSums(d % TWO_42, g.datacenterId, g.workerId, g.sequence);
    WordOfFields(d, g.datacenterId * 131072 + g.workerId * 4096 + g.sequence);
  }

  lemma WordOfFields(d: int, low: nat)
    requires low < 4194304
    ensures (d * 4194304 + low) % TWO_64 == d % TWO_42 * 4194304 + low
  {
    var q := d / TWO_42;
    assert d == q * TWO_42 + d % TWO_42;
  }

  const TWO_42 := 2 * TWO_41

  lemma ShiftsAreProducts(d: int, dc: nat, w: nat)
    requires dc < 32 && w < 32
    ensures ShiftLeft(Pattern(d), 22) == d % TWO_42 * 4194304
    ensures ShiftLeft(dc, 17) == dc * 131072
    ensures ShiftLeft(w, 12) == w * 4096
  {
    hide Pow2;
    FieldWidths();
    ShiftDropsHighBits(d);
  }

  lemma ShiftDropsHighBits(d: int)
    ensures d % TWO_64 * 4194304 % TWO_64 == d % TWO_42 * 4194304
  {
    var q := d % TWO_64 / TWO_42;
    assert d % TWO_64 % TWO_42 == d % TWO_42;
    assert d % TWO_64 == q * TWO_42 + d % TWO_42;
    assert d % TWO_64 * 4194304 == q * TWO_64 + d % TWO_42 * 4194304;
  }

  lemma OrsAreSums(a: nat, dc: nat, w: nat, s: nat)
    requires dc < 32 && w < 32 && s < 4096
    ensures Or(Or(Or(a * 4194304, dc * 131072), w * 4096), s) == a * 4194304 + dc * 131072 + w * 4096 + s
  {
    FieldWidths();
    OrIsSum(a, dc * 131072, 22);
    OrIsSum(a * 32 + dc, w * 4096, 17);
    OrIsSum(a * 1024 + dc * 32 + w, s, 12);
  }

  /** The plain sum is what comes out exactly for the 2^42 milliseconds around the epoch; then it is
      non-negative exactly from the epoch on. */
  lemma IdIsExactInWindow(g: Generator)
    requires g.Valid()
    ensures g.InWindow() <==>
            g.Id() == (g.lastTimestamp - EPOCH) * 4194304 + g.datacenterId * 131072 + g.workerId * 4096 + g.sequence
    ensures g.InWindow() ==> (g.Id() >= 0 <==> g.lastTimestamp >= EPOCH)
    ensures -TWO_63 <= g.Id() < TWO_63
  {
    hide Generator.Id, Signed;
    IdIsSum(g);
    SignedIsExact((g.lastTimestamp - EPOCH) * 4194304 + g.datacenterId * 131072 + g.workerId * 4096 + g.sequence);
  }

  lemma SignedIsExact(x: int)
    ensures -TWO_63 <= Signed(x % TWO_64) < TWO_63
    ensures Signed(x % TWO_64) == x <==> -TWO_63 <= x < TWO_63
  {
  }

  /** The fields read back out of an id. */
  function Decode(id: int): Generator
  {
    Generator(id / 4096 % 32, id / 131072 % 32, id % 4096, id / 4194304 + EPOCH)
  }

  lemma DecodeOfSum(d: int, dc: nat, w: nat, s: nat)
    requires dc < 32 && w < 32 && s < 4096
    ensures Decode(d * 4194304 + dc * 131072 + w * 4096 + s) == Generator(w, dc, s, d + EPOCH)
  {
    LowestField(d * 1024 + dc * 32 + w, s);
    AboveWorker(d * 32 + dc, w * 4096 + s);
    AboveDatacenter(d, dc * 131072 + w * 4096 + s);
    LastFive(d * 32 + dc, w);
    LastFive(d, dc);
  }

  lemma LowestField(q: int, r: nat)
    requires r < 4096
    ensures (q * 4096 + r) / 4096 == q && (q * 4096 + r) % 4096 == r
  {
  }

  lemma AboveWorker(q: int, r: nat)
    requires r < 131072
    ensures (q * 131072 + r) / 131072 == q
  {
  }

  lemma AboveDatacenter(q: int, r: nat)
    requires r < 4194304
    ensures (q * 4194304 + r) / 4194304 == q
  {
  }

  lemma LastFive(q: int, r: nat)
    requires r < 32
    ensures (q * 32 + r) % 32 == r
  {
  }

  lemma DecodeUndoesPacking(g: Generator)
    requires g.Valid() && g.InWindow()
    ensures Decode(g.Id()) == g
  {
    IdIsExactInWindow(g);
    DecodeOfSum(g.lastTimestamp - EPOCH, g.datacenterId, g.workerId, g.sequence);
  }

  /** Two generators with different ids, or one generator at different stamps, never issue the same id. */
  lemma IdsAreUnique(g: Generator, h: Generator)
    requires g.Valid() && g.InWindow() && h.Valid() && h.InWindow()
    ensures g.Id() == h.Id() <==> g == h
  {
    DecodeUndoesPacking(g);
    DecodeUndoesPacking(h);
  }

  /** Ids order as (timestamp, datacenter, worker, sequence). */
  lemma IdsOrderAsFields(g: Generator, h: Generator)
    requires g.Valid() && g.InWindow() && h.Valid() && h.InWindow()
    ensures g.Id() < h.Id() <==>
              || g.lastTimestamp < h.lastTimestamp
              || (g.lastTimestamp == h.lastTimestamp &&
                  (g.datacenterId, g.workerId, g.sequence) != (h.datacenterId, h.workerId, h.sequence) &&
                  (g.datacenterId < h.datacenterId || (g.datacenterId == h.datacenterId &&
                   (g.workerId < h.workerId || (g.workerId == h.workerId && g.sequence < h.sequence)))))
  {
    IdIsExactInWindow(g);
    IdIsExactInWindow(h);
  }

  // ---------- runs ----------

  /** The stamps issued by a run of calls. A throwing call changes nothing; behind a call that waits
      for ever, the lock lets no other in. */
  function Stamps(g: Generator, calls: seq<Clock>): seq<Generator>
    decreases |calls|
  {
    if calls == [] then [] else
    var (r, g') := Next(g, calls[0]);
    match r
    case Stamped => [g'] + Stamps(g', calls[1..])
    case Refused => Stamps(g, calls[1..])
    case Blocked => []
  }

  /** `h` is a later stamp of the same generator, numbered without a gap. */
  ghost predicate Follows(g: Generator, h: Generator)
  {
    && h.Valid() && h.workerId == g.workerId && h.datacenterId == g.datacenterId
    && g.lastTimestamp <= h.lastTimestamp
    && h.sequence == if h.lastTimestamp == g.lastTimestamp then g.sequence + 1 else 0
  }

  /** One call: throws exactly on an earlier reading and then changes nothing; blocks exactly when the
      millisecond is used up and no later reading comes; otherwise issues the following stamp, taken from its clock. */
  lemma NextFollows(g: Generator, clock: Clock)
    requires g.Valid()
    ensures var (r, g') := Next(g, clock);
            && (r.Refused? <==> clock[0] < g.lastTimestamp)
            && (r.Refused? ==> g' == g)
            && (r.Blocked? <==> clock[0] == g.lastTimestamp && g.sequence == 4095
                                && forall k :: 1 <= k < |clock| ==> clock[k] <= g.lastTimestamp)
            && (r.Blocked? ==> g' == g.(sequence := 0))
            && (r.Stamped? ==> Follows(g, g') && g'.lastTimestamp in clock)
            && (r.Stamped? ==>
                  if clock[0] == g.lastTimestamp && g.sequence == 4095
                  then exists k: nat :: IsFirstLater(clock, 1, g.lastTimestamp, k) && g'.lastTimestamp == clock[k]
                  else g'.lastTimestamp == clock[0])
  {
    hide And, Pow2;
    var n := NextSequence(g.sequence);
    assert n == if g.sequence == 4095 then 0 else g.sequence + 1;
  }

  lemma MaskIsRemainder(n: nat)
    ensures And(n, SEQUENCE_MASK) == n % 4096
  {
    FieldWidths();
    AndIsRemainder(n, SEQUENCE_BITS);
  }

  ghost predicate Chain(g: Generator, s: seq<Generator>)
    decreases |s|
  {
    s == [] || (Follows(g, s[0]) && Chain(s[0], s[1..]))
  }

  lemma {:induction false} StampsFormChain(g: Generator, calls: seq<Clock>)
    requires g.Valid()
    ensures Chain(g, Stamps(g, calls))
    decreases |calls|
  {
    if calls == [] {
    } else {
      var (r, g') := Next(g, calls[0]);
      NextFollows(g, calls[0]);
      if r.Stamped? {
        StampsFormChain(g', calls[1..]);
      } else if r.Refused? {
        StampsFormChain(g, calls[1..]);
      }
    }
  }

  lemma {:induction false} ChainReaches(g: Generator, s: seq<Generator>, j: nat)
    requires Chain(g, s) && j < |s|
    ensures s[j].Valid() && s[j].workerId == g.workerId && s[j].datacenterId == g.datacenterId
    ensures g.Before(s[j])
    ensures s[j].lastTimestamp == g.lastTimestamp ==> s[j].sequence == g.sequence + 1 + j
    ensures Chain(s[j], s[j + 1..])
    decreases j
  {
    if j == 0 {
    } else {
      ChainReaches(s[0], s[1..], j - 1);
      assert s[1..][j - 1] == s[j] && s[1..][j..] == s[j + 1..];
    }
  }

  /**
   Over every run and every clock, stamps strictly increase, and within one millisecond they are numbered without gaps.
   */
  lemma StampsIncrease(g: Generator, calls: seq<Clock>, i: nat, j: nat)
    requires g.Valid() && i < j < |Stamps(g, calls)|
    ensures var s := Stamps(g, calls);
            && s[i].Valid() && s[j].Valid() && s[i].workerId == s[j].workerId && s[i].datacenterId == s[j].datacenterId
            && g.Before(s[i]) && s[i].Before(s[j])
            && (s[i].lastTimestamp == s[j].lastTimestamp ==> s[j].sequence == s[i].sequence + (j - i))
  {
    var s := Stamps(g, calls);
    StampsFormChain(g, calls);
    ChainReaches(g, s, i);
    ChainReaches(s[i], s[i + 1..], j - i - 1);
  }

  /** At most 4096 ids carry one millisecond: any two of a millisecond are fewer than 4096 places apart. */
  lemma MillisecondHolds4096(g: Generator, calls: seq<Clock>, i: nat, j: nat)
    requires g.Valid()
    requires i <= j < |Stamps(g, calls)| && Stamps(g, calls)[i].lastTimestamp == Stamps(g, calls)[j].lastTimestamp
    ensures j - i + 1 <= 4096
  {
    if i < j { StampsIncrease(g, calls, i, j); }
  }

  /** The ids themselves strictly increase over every run, for every clock that stays within 2^41 ms of the epoch. */
  lemma IdsIncrease(g: Generator, calls: seq<Clock>, i: nat, j: nat)
    requires g.Valid() && g.lastTimestamp >= -1
    requires i < j < |Stamps(g, calls)| && Stamps(g, calls)[j].lastTimestamp < EPOCH + TWO_41
    ensures Stamps(g, calls)[i].Id() < Stamps(g, calls)[j].Id()
  {
    StampsIncrease(g, calls, i, j);
    IdsOrderAsFields(Stamps(g, calls)[i], Stamps(g, calls)[j]);
  }

  /** Two submissions of one scheduler run never get the same task id: the decimal numerals differ. */
  lemma TaskIdsAreFresh(g: Generator, calls: seq<Clock>, i: nat, j: nat)
    requires g.Valid() && g.lastTimestamp >= -1
    requires i < j < |Stamps(g, calls)| && Stamps(g, calls)[j].lastTimestamp < EPOCH + TWO_41
    ensures ToString(Stamps(g, calls)[i].Id()) != ToString(Stamps(g, calls)[j].Id())
  {
    IdsIncrease(g, calls, i, j);
    StampsIncrease(g, calls, i, j);
    IdIsExactInWindow(Stamps(g, calls)[i]);
    IdIsExactInWindow(Stamps(g, calls)[j]);
    ToStringInjective(Stamps(g, calls)[i].Id(), Stamps(g, calls)[j].Id());
  }

  /**
   The window is exact: from it, a later stamp less than 2^42 ms away has the larger id if and only if it is still in
   it.
   */
  lemma OrderBreaksExactlyPastWindow(g: Generator, h: Generator)
    requires g.Valid() && h.Valid() && g.InWindow() && g.Before(h)
    requires g.workerId == h.workerId && g.datacenterId == h.datacenterId
    requires h.lastTimestamp < g.lastTimestamp + 2 * TWO_41
    ensures g.Id() < h.Id() <==> h.InWindow()
  {
    IdIsExactInWindow(g);
    IdIsExactInWindow(h);
    if !h.InWindow() {
      IdIsSum(h);
      SignedOfFields(h.lastTimestamp - EPOCH, h.datacenterId * 131072 + h.workerId * 4096 + h.sequence);
    } else {
      IdsOrderAsFields(g, h);
    }
  }

  /** The first millisecond past the window does break the order. */
  lemma OrderBreaksAtWindowEnd(g: Generator, h: Generator)
    requires g.Valid() && h.Valid() && g.workerId == h.workerId && g.datacenterId == h.datacenterId
    requires g.lastTimestamp == EPOCH + TWO_41 - 1 && h.lastTimestamp == EPOCH + TWO_41
    ensures g.Before(h) && g.Id() > 0 > h.Id()
  {
    hide Generator.Id, Signed;
    IdIsExactInWindow(g);
    IdIsSum(h);
    SignedOfFields(TWO_41, h.datacenterId * 131072 + h.workerId * 4096 + h.sequence);
  }

  lemma SignedOfFields(d: int, low: nat)
    requires low < 4194304 && TWO_41 <= d < TWO_41 + TWO_42
    ensures Signed((d * 4194304 + low) % TWO_64) == (d - TWO_42) * 4194304 + low
  {
    WordOfFields(d, low);
  }
}
