/**
 The data the scheduler keeps in Redis, and the task, queue and load operations over it: one hash per
 task, three lists, one counter per worker. Commands succeed; `Store` is the value of the server's data.
 */
module RedisStores {
  import opened Texts

  /** The field names a task hash uses. */
  datatype Field = TYPE | PRIORITY | DATA | CREATED_AT | STARTED_AT | FINISHED_AT | STATUS | RETRY_COUNT
                 | ERROR_MESSAGE | RESULT | WORKER_ID

  /** A Redis hash. */
  type Hash = map<Field, Text>

  datatype TaskInfo = TaskInfo(id: Text, kind: Int32, priority: Int32, data: Text, createdAt: Int64, startedAt: Int64,
                               finishedAt: Int64, status: Int32, retryCount: Int32, errorMessage: Text, result: Text)

  /** Conversion of a 64-bit to a 32-bit integer. */
  function Narrow(x: Int64): Int32
  {
    var w := x % 0x1_0000_0000;
    if w < TWO_31 then w else w - 0x1_0000_0000
  }

  /** `std::stoi`. */
  function Stoi(t: Text): Option<Int32>
  {
    match Stoll(t)
    case Some(n) => if -TWO_31 <= n < TWO_31 then Some(n) else None
    case None => None
  }

  function FieldsOf(t: TaskInfo): Hash
  {
    map[TYPE := ToString(t.kind), PRIORITY := ToString(t.priority), DATA := t.data,
        CREATED_AT := ToString(t.createdAt), STARTED_AT := ToString(t.startedAt),
        FINISHED_AT := ToString(t.finishedAt), STATUS := ToString(t.status),
        RETRY_COUNT := ToString(t.retryCount), ERROR_MESSAGE := t.errorMessage, RESULT := t.result]
  }

  /** An absent field reads as 0; a malformed one throws (None). */
  function GetInt(h: Hash, field: Field): Option<Int64>
  {
    if field in h then Stoll(h[field]) else Some(0)
  }

  function GetText(h: Hash, field: Field): Text
  {
    if field in h then h[field] else []
  }

  function Decode(id: Text, h: Hash): Option<TaskInfo>
  {
    var kind, priority, created := GetInt(h, TYPE), GetInt(h, PRIORITY), GetInt(h, CREATED_AT);
    var started, finished := GetInt(h, STARTED_AT), GetInt(h, FINISHED_AT);
    var status, retries := GetInt(h, STATUS), GetInt(h, RETRY_COUNT);
    if kind.None? || priority.None? || created.None? || started.None? || finished.None? || status.None? ||
       retries.None?
    then None
    else Some(TaskInfo(id, Narrow(kind.value), Narrow(priority.value), GetText(h, DATA), created.value, started.value,
                       finished.value, Narrow(status.value), Narrow(retries.value), GetText(h, ERROR_MESSAGE),
                       GetText(h, RESULT)))
  }

  datatype Class = HIGH | MEDIUM | LOW

  function ClassOf(priority: int): Class
  {
    if priority == 2 then HIGH else if priority == 1 then MEDIUM else LOW
  }

  /** A SETEX issued by a retry: the key names the delay and the task. */
  datatype Backoff = Backoff(id: Text, seconds: int)

  datatype Store = Store(tasks: map<Text, Hash>, high: seq<Text>, medium: seq<Text>, low: seq<Text>,
                         loads: map<Text, int>, backoffs: seq<Backoff>) {

    function HGet(id: Text, field: Field): Text
    {
      if id in tasks then GetText(tasks[id], field) else []
    }

    function HSet(id: Text, field: Field, value: Text): Store
    {
      this.(tasks := tasks[id := (if id in tasks then tasks[id] else map[])[field := value]])
    }

    function SaveTask(t: TaskInfo): Store
    {
      this.(tasks := tasks[t.id := (if t.id in tasks then tasks[t.id] else map[]) + FieldsOf(t)])
    }

    /** Without a record the integers are whatever memory held: those of `junk`. */
    function GetTask(id: Text, junk: TaskInfo): Option<TaskInfo>
    {
      if id in tasks && tasks[id] != map[] then Decode(id, tasks[id])
      else Some(junk.(id := id, data := [], errorMessage := [], result := []))
    }

    function UpdateTaskStatus(id: Text, status: Int32, error: Text, now: Int64): Store
    {
      var s := HSet(id, STATUS, ToString(status));
      var t := if error != [] then s.HSet(id, ERROR_MESSAGE, error) else s;
      if status == 2 || status == 3 then t.HSet(id, FINISHED_AT, ToString(now)) else t
    }

    /** None: the stored count is no 32-bit numeral and `stoi` throws. */
    function IncrementTaskRetry(id: Text): Option<Store>
    {
      var current := HGet(id, RETRY_COUNT);
      if current == [] then Some(HSet(id, RETRY_COUNT, ToString(1)))
      else match Stoi(current)
           case Some(n) => Some(HSet(id, RETRY_COUNT, ToString(n + 1)))
           case None => None
    }

    function Queue(c: Class): seq<Text>
    {
      match c case HIGH => high case MEDIUM => medium case LOW => low
    }

    function Push(priority: int, id: Text): Store
    {
      match ClassOf(priority)
      case HIGH => this.(high := high + [id])
      case MEDIUM => this.(medium := medium + [id])
      case LOW => this.(low := low + [id])
    }

    /** One LPOP: the head, or "" from an empty list. */
    function LPop(c: Class): (Text, Store)
    {
      var q := Queue(c);
      if q == [] then ([], this) else
      (q[0], match c
             case HIGH => this.(high := q[1..])
             case MEDIUM => this.(medium := q[1..])
             case LOW => this.(low := q[1..]))
    }

    function Pop(): (Text, Store)
    {
      var (id, s) := LPop(HIGH);
      if id != [] then (id, s) else
      var (id, s) := s.LPop(MEDIUM);
      if id != [] then (id, s) else s.LPop(LOW)
    }

    /** `getWorkerLoad`: a missing counter counts as 0. */
    function LoadOf(w: Text): int
    {
      if w in loads then loads[w] else 0
    }

    function Incremented(w: Text): Store
    {
      this.(loads := loads[w := LoadOf(w) + 1])
    }

    /** `decrementWorkerLoad` on an existing counter. */
    function Decremented(w: Text): Store
      requires w in loads
    {
      if loads[w] > 0 then this.(loads := loads[w := loads[w] - 1]) else this
    }
  }

  const EMPTY := Store(map[], [], [], [], map[], [])

  class RedisServer {
    var tasks: map<Text, Hash>
    var high: seq<Text>
    var medium: seq<Text>
    var low: seq<Text>
    var loads: map<Text, int>
    var backoffs: seq<Backoff>

    ghost function View(): Store
      reads this
    {
      Store(tasks, high, medium, low, loads, backoffs)
    }

    constructor ()
      ensures View() == EMPTY
    {
      tasks, high, medium, low, loads, backoffs := map[], [], [], [], map[], [];
    }

    function HGet(id: Text, field: Field): (v: Text)
      reads this
      ensures v == View().HGet(id, field)
    {
      if id in tasks && field in tasks[id] then tasks[id][field] else []
    }

    method HSet(id: Text, field: Field, value: Text)
      modifies `tasks
      ensures View() == old(View()).HSet(id, field, value)
    {
      var h: Hash := if id in tasks then tasks[id] else map[];
      tasks := tasks[id := h[field := value]];
    }

    method SaveTask(t: TaskInfo)
      modifies `tasks
      ensures View() == old(View()).SaveTask(t)
    {
      var h: Hash := if t.id in tasks then tasks[t.id] else map[];
      tasks := tasks[t.id := h + FieldsOf(t)];
    }

    method GetTask(id: Text, junk: TaskInfo) returns (t: Option<TaskInfo>)
      ensures t == View().GetTask(id, junk)
    {
      var h: Hash := if id in tasks then tasks[id] else map[];
      if h == map[] {
        return Some(junk.(id := id, data := [], errorMessage := [], result := []));
      }
      return Decode(id, h);
    }

    method UpdateTaskStatus(id: Text, status: Int32, error: Text, now: Int64)
      modifies `tasks
      ensures View() == old(View()).UpdateTaskStatus(id, status, error, now)
    {
      HSet(id, STATUS, ToString(status));
      if error != [] {
        HSet(id, ERROR_MESSAGE, error);
      }
      if status == 2 || status == 3 {
        HSet(id, FINISHED_AT, ToString(now));
      }
    }

    method IncrementTaskRetry(id: Text) returns (threw: bool)
      modifies `tasks
      ensures threw <==> old(View()).IncrementTaskRetry(id).None?
      ensures View() == if threw then old(View()) else old(View()).IncrementTaskRetry(id).value
    {
      var current := HGet(id, RETRY_COUNT);
      var retry := if current == [] then Some(0) else Stoi(current);
      if retry.None? {
        return true;
      }
      var n: int := retry.value;
      HSet(id, RETRY_COUNT, ToString(n + 1));
      return false;
    }

    method PushToPriorityQueue(priority: int, id: Text)
      modifies `high, `medium, `low
      ensures View() == old(View()).Push(priority, id)
    {
      if priority == 2 {
        high := high + [id];
      } else if priority == 1 {
        medium := medium + [id];
      } else {
        low := low + [id];
      }
    }

    method LPop(c: Class) returns (id: Text)
      modifies `high, `medium, `low
      ensures (id, View()) == old(View()).LPop(c)
    {
      id := [];
      match c
      case HIGH => if high != [] { id := high[0]; high := high[1..]; }
      case MEDIUM => if medium != [] { id := medium[0]; medium := medium[1..]; }
      case LOW => if low != [] { id := low[0]; low := low[1..]; }
    }

    method PopFromPriorityQueue() returns (id: Text)
      modifies `high, `medium, `low
      ensures (id, View()) == old(View()).Pop()
    {
      id := LPop(HIGH);
      if id != [] { return; }
      id := LPop(MEDIUM);
      if id != [] { return; }
      id := LPop(LOW);
    }

    method IncrementWorkerLoad(w: Text)
      modifies `loads
      ensures View() == old(View()).Incremented(w)
    {
      loads := loads[w := (if w in loads then loads[w] else 0) + 1];
    }

    /** Throws on a missing counter, whose text is empty. */
    method DecrementWorkerLoad(w: Text) returns (threw: bool)
      modifies `loads
      ensures threw <==> w !in old(loads)
      ensures View() == if threw then old(View()) else old(View()).Decremented(w)
    {
      if w !in loads {
        return true;
      }
      if loads[w] > 0 {
        loads := loads[w := loads[w] - 1];
      }
      return false;
    }

    function GetWorkerLoad(w: Text): (n: int)
      reads this
      ensures n == View().LoadOf(w)
    {
      if w in loads then loads[w] else 0
    }

    method SetEx(id: Text, seconds: int)
      modifies `backoffs
      ensures View() == old(View()).(backoffs := old(backoffs) + [Backoff(id, seconds)])
    {
      backoffs := backoffs + [Backoff(id, seconds)];
    }
  }

  // ---------- records ----------

  /** A stored integer keeps its low 32 bits, and the top one of them is the sign. */
  lemma NarrowKeepsLowBits(x: Int64)
    ensures var n: int := Narrow(x); (x - n) % 0x1_0000_0000 == 0 && -0x8000_0000 <= n < 0x8000_0000
  {
  }

  /** `std::stoi` accepts the numerals of 32-bit integers and throws on those of all others. */
  lemma StoiReadsExactly(n: Int64)
    ensures Stoi(ToString(n)) == if -0x8000_0000 <= n <= 0x7FFF_FFFF then Some(n) else None
  {
    NumeralRoundTrip(n);
  }

  lemma NarrowIsIdentity(x: Int32)
    ensures Narrow(x) == x
  {
  }

  lemma IntFieldRoundTrip(h: Hash, field: Field, n: Int64)
    requires field in h && h[field] == ToString(n)
    ensures GetInt(h, field) == Some(n)
  {
    NumeralRoundTrip(n);
  }

  predicate At(h: Hash, f: Field, v: Text)
  {
    f in h && h[f] == v
  }

  /** The hash holds at least the fields `saveTask` writes. */
  ghost predicate Holds(h: Hash, t: TaskInfo)
  {
    && At(h, TYPE, ToString(t.kind)) && At(h, PRIORITY, ToString(t.priority))
    && At(h, CREATED_AT, ToString(t.createdAt)) && At(h, STARTED_AT, ToString(t.startedAt))
    && At(h, FINISHED_AT, ToString(t.finishedAt)) && At(h, STATUS, ToString(t.status))
    && At(h, RETRY_COUNT, ToString(t.retryCount))
    && At(h, DATA, t.data) && At(h, ERROR_MESSAGE, t.errorMessage) && At(h, RESULT, t.result)
  }

  lemma HeldIntegers(h: Hash, t: TaskInfo)
    requires Holds(h, t)
    ensures GetInt(h, TYPE) == Some(t.kind) && GetInt(h, PRIORITY) == Some(t.priority)
    ensures GetInt(h, CREATED_AT) == Some(t.createdAt) && GetInt(h, STARTED_AT) == Some(t.startedAt)
    ensures GetInt(h, FINISHED_AT) == Some(t.finishedAt) && GetInt(h, STATUS) == Some(t.status)
    ensures GetInt(h, RETRY_COUNT) == Some(t.retryCount)
  {
    IntFieldRoundTrip(h, TYPE, t.kind);
    IntFieldRoundTrip(h, PRIORITY, t.priority);
    IntFieldRoundTrip(h, CREATED_AT, t.createdAt);
    IntFieldRoundTrip(h, STARTED_AT, t.startedAt);
    IntFieldRoundTrip(h, FINISHED_AT, t.finishedAt);
    IntFieldRoundTrip(h, STATUS, t.status);
    IntFieldRoundTrip(h, RETRY_COUNT, t.retryCount);
  }

  lemma HeldTaskDecodes(h: Hash, t: TaskInfo)
    requires Holds(h, t)
    ensures Decode(t.id, h) == Some(t)
  {
    HeldIntegers(h, t);
    NarrowIsIdentity(t.kind);
    NarrowIsIdentity(t.priority);
    NarrowIsIdentity(t.status);
    NarrowIsIdentity(t.retryCount);
  }

  lemma SavedHashHolds(h: Hash, t: TaskInfo)
    ensures Holds(h + FieldsOf(t), t) && h + FieldsOf(t) != map[]
    ensures GetText(h + FieldsOf(t), WORKER_ID) == GetText(h, WORKER_ID)
  {
    assert TYPE in h + FieldsOf(t);
  }

  /** Any record reads back exactly as saved, over whatever the hash held before. */
  lemma SavedTaskReadsBack(s: Store, t: TaskInfo, junk: TaskInfo)
    ensures s.SaveTask(t).GetTask(t.id, junk) == Some(t)
    ensures s.SaveTask(t).HGet(t.id, WORKER_ID) == s.HGet(t.id, WORKER_ID)
  {
    var h := if t.id in s.tasks then s.tasks[t.id] else map[];
    SavedHashHolds(h, t);
    HeldTaskDecodes(h + FieldsOf(t), t);
  }

  /** The record after its field `f` has been set to the text `v`. */
  function Rewritten(t: TaskInfo, f: Field, v: Text): Option<TaskInfo>
  {
    if f == DATA then Some(t.(data := v))
    else if f == ERROR_MESSAGE then Some(t.(errorMessage := v))
    else if f == RESULT then Some(t.(result := v))
    else if f == WORKER_ID then Some(t)
    else match Stoll(v)
         case None => None
         case Some(n) => Some(match f
                              case TYPE => t.(kind := Narrow(n))
                              case PRIORITY => t.(priority := Narrow(n))
                              case CREATED_AT => t.(createdAt := n)
                              case STARTED_AT => t.(startedAt := n)
                              case FINISHED_AT => t.(finishedAt := n)
                              case STATUS => t.(status := Narrow(n))
                              case _ => t.(retryCount := Narrow(n)))
  }

  /** A later write of one field changes that field of the record and no other, and no other task. */
  lemma {:induction false} FieldWriteIsLocal(s: Store, t: TaskInfo, f: Field, v: Text, other: Text, junk: TaskInfo)
    requires t.id in s.tasks && s.tasks[t.id] != map[] && s.GetTask(t.id, junk) == Some(t)
    ensures s.HSet(t.id, f, v).GetTask(t.id, junk) == Rewritten(t, f, v)
    ensures other != t.id ==> s.HSet(t.id, f, v).GetTask(other, junk) == s.GetTask(other, junk)
  {
    assert f in s.tasks[t.id][f := v];
    RewrittenDecodes(s.tasks[t.id], t, f, v);
  }

  lemma {:induction false} RewrittenDecodes(h: Hash, t: TaskInfo, f: Field, v: Text)
    requires Decode(t.id, h) == Some(t)
    ensures Decode(t.id, h[f := v]) == Rewritten(t, f, v)
  {
  }

  /** All queued ids, with multiplicity. */
  function Queued(s: Store): multiset<Text>
  {
    multiset(s.high) + multiset(s.medium) + multiset(s.low)
  }

  function Single(id: Text): multiset<Text>
  {
    if id == [] then multiset{} else multiset{id}
  }

  lemma PushAddsOne(s: Store, priority: int, id: Text)
    ensures Queued(s.Push(priority, id)) == Queued(s) + multiset{id}
  {
  }

  lemma LPopTakesOne(s: Store, c: Class)
    requires [] !in Queued(s)
    ensures Queued(s.LPop(c).1) + Single(s.LPop(c).0) == Queued(s)
    ensures s.LPop(c).0 == [] <==> s.Queue(c) == []
    ensures [] !in Queued(s.LPop(c).1)
  {
    var q := s.Queue(c);
    if q != [] {
      assert q == [q[0]] + q[1..];
      assert q[0] in multiset(q);
      assert multiset(q) == multiset{q[0]} + multiset(q[1..]);
    }
  }

  lemma PopTakesOne(s: Store)
    requires [] !in Queued(s)
    ensures Queued(s.Pop().1) + Single(s.Pop().0) == Queued(s)
  {
    LPopTakesOne(s, HIGH);
    var s1 := s.LPop(HIGH).1;
    LPopTakesOne(s1, MEDIUM);
    LPopTakesOne(s1.LPop(MEDIUM).1, LOW);
  }

  // ---------- the three lists are one stable priority queue ----------

  /** An entry of the one queue carries the number it was pushed with. */
  datatype Entry = Entry(id: Text, priority: int)

  datatype QueueOp = PushOp(priority: int, id: Text) | PopOp

  /** 2 before 1, and both before every other number. */
  predicate Outranks(p: int, q: int)
  {
    (p == 2 && q != 2) || (p == 1 && q != 2 && q != 1)
  }

  /** The numbers whose entries are kept on a list. */
  predicate Belongs(priority: int, c: Class)
  {
    match c
    case HIGH => priority == 2
    case MEDIUM => priority == 1
    case LOW => priority != 2 && priority != 1
  }

  /** Ids of the entries that belong on a list, in push order. */
  function Members(q: seq<Entry>, c: Class): seq<Text>
  {
    if q == [] then [] else (if Belongs(q[0].priority, c) then [q[0].id] else []) + Members(q[1..], c)
  }

  ghost predicate Represents(q: seq<Entry>, s: Store)
  {
    s.high == Members(q, HIGH) && s.medium == Members(q, MEDIUM) && s.low == Members(q, LOW)
  }

  /** Entry `k` is the earliest pushed of those that none outranks. */
  ghost predicate IsFront(q: seq<Entry>, k: nat)
  {
    && k < |q|
    && (forall j :: 0 <= j < |q| ==> !Outranks(q[j].priority, q[k].priority))
    && (forall j :: 0 <= j < k ==> Outranks(q[k].priority, q[j].priority))
  }

  lemma {:induction false} MembersOfConcat(p: seq<Entry>, q: seq<Entry>, c: Class)
    ensures Members(p + q, c) == Members(p, c) + Members(q, c)
  {
    if p == [] {
      assert p + q == q;
    } else {
      assert (p + q)[1..] == p[1..] + q;
      MembersOfConcat(p[1..], q, c);
    }
  }

  lemma {:induction false} NoMembers(q: seq<Entry>, c: Class)
    requires forall j :: 0 <= j < |q| ==> !Belongs(q[j].priority, c)
    ensures Members(q, c) == []
  {
    if q == [] {
    } else {
      NoMembers(q[1..], c);
    }
  }

  lemma MembersOfOne(e: Entry, c: Class)
    ensures Members([e], c) == if Belongs(e.priority, c) then [e.id] else []
  {
    assert [e][1..] == [];
  }

  /** A push appends to the one queue. */
  lemma PushAppends(q: seq<Entry>, s: Store, priority: int, id: Text)
    requires Represents(q, s)
    ensures Represents(q + [Entry(id, priority)], s.Push(priority, id))
  {
    var e := Entry(id, priority);
    forall c ensures Members(q + [e], c) == Members(q, c) + (if Belongs(priority, c) then [id] else []) {
      MembersOfConcat(q, [e], c);
      MembersOfOne(e, c);
    }
  }

  /** What taking out entry `k`, the first on its list, does to the list `c`. */
  lemma {:induction false} MembersWithout(q: seq<Entry>, k: nat, c: Class)
    requires k < |q|
    requires Belongs(q[k].priority, c) ==> forall j :: 0 <= j < k ==> !Belongs(q[j].priority, c)
    ensures Members(q, c) == (if Belongs(q[k].priority, c) then [q[k].id] else []) + Members(q[..k] + q[k + 1..], c)
  {
    var before, after := q[..k], q[k + 1..];
    assert q == before + ([q[k]] + after);
    MembersOfConcat(before, [q[k]] + after, c);
    MembersOfConcat([q[k]], after, c);
    MembersOfConcat(before, after, c);
    MembersOfOne(q[k], c);
    if Belongs(q[k].priority, c) { NoMembers(before, c); }
  }

  /** A pop takes out the front entry, for every queue of non-empty ids. */
  lemma {:induction false} PopTakesFront(q: seq<Entry>, s: Store, k: nat)
    requires Represents(q, s) && IsFront(q, k) && q[k].id != []
    ensures s.Pop().0 == q[k].id && Represents(q[..k] + q[k + 1..], s.Pop().1)
  {
    MembersWithout(q, k, HIGH);
    MembersWithout(q, k, MEDIUM);
    MembersWithout(q, k, LOW);
    if !Belongs(q[k].priority, HIGH) { NoMembers(q, HIGH); }
    if Belongs(q[k].priority, LOW) { NoMembers(q, MEDIUM); }
  }

  lemma {:induction false} FrontExists(q: seq<Entry>) returns (k: nat)
    requires q != []
    ensures IsFront(q, k)
  {
    if |q| == 1 {
      k := 0;
    } else {
      var j := FrontExists(q[1..]);
      k := if Outranks(q[1..][j].priority, q[0].priority) then j + 1 else 0;
      assert forall i :: 1 <= i < |q| ==> q[i] == q[1..][i - 1];
    }
  }

  /** The answers of the one queue to a list of calls: every pop gives the front entry, "" if there is none. */
  ghost predicate QueueAnswers(q: seq<Entry>, ops: seq<QueueOp>, answers: seq<Text>)
    decreases |ops|
  {
    if ops == [] then answers == [] else
    match ops[0]
    case PushOp(priority, id) => QueueAnswers(q + [Entry(id, priority)], ops[1..], answers)
    case PopOp =>
      answers != [] &&
      if q == [] then answers[0] == [] && QueueAnswers(q, ops[1..], answers[1..])
      else exists k: nat :: IsFront(q, k) && answers[0] == q[k].id &&
                            QueueAnswers(q[..k] + q[k + 1..], ops[1..], answers[1..])
  }

  /** The answers of the three lists. */
  function ListAnswers(s: Store, ops: seq<QueueOp>): seq<Text>
    decreases |ops|
  {
    if ops == [] then [] else
    match ops[0]
    case PushOp(priority, id) => ListAnswers(s.Push(priority, id), ops[1..])
    case PopOp => [s.Pop().0] + ListAnswers(s.Pop().1, ops[1..])
  }

  /** Whatever is pushed and popped, the three lists answer as one stable priority queue does. */
  lemma {:induction false} ListsAreOnePriorityQueue(q: seq<Entry>, s: Store, ops: seq<QueueOp>)
    requires Represents(q, s) && (forall e :: e in q ==> e.id != [])
    requires forall i :: 0 <= i < |ops| && ops[i].PushOp? ==> ops[i].id != []
    ensures QueueAnswers(q, ops, ListAnswers(s, ops))
    decreases |ops|
  {
    if ops == [] {
    } else if ops[0].PushOp? {
      PushAppends(q, s, ops[0].priority, ops[0].id);
      ListsAreOnePriorityQueue(q + [Entry(ops[0].id, ops[0].priority)], s.Push(ops[0].priority, ops[0].id),
        ops[1..]);
    } else if q == [] {
      ListsAreOnePriorityQueue(q, s, ops[1..]);
    } else {
      var k := FrontExists(q);
      PopTakesFront(q, s, k);
      assert q[k] in q;
      ListsAreOnePriorityQueue(q[..k] + q[k + 1..], s.Pop().1, ops[1..]);
    }
  }

  /** In particular from empty lists on, where nothing is said of how the lists are filled. */
  lemma EmptyListsAreOnePriorityQueue(ops: seq<QueueOp>)
    requires forall i :: 0 <= i < |ops| && ops[i].PushOp? ==> ops[i].id != []
    ensures QueueAnswers([], ops, ListAnswers(EMPTY, ops))
  {
    ListsAreOnePriorityQueue([], EMPTY, ops);
  }
}
