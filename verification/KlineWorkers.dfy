/** The candle consumer as a transition system: candles are batched by a ticker, worker tasks push them
    Redis command by Redis command under a lock per series, and any interleaving is allowed. */
module KlineWorkers {
  import opened Wrappers
  import opened Strings
  import opened Sequences
  import opened Klines
  import opened KlineCodec
  import opened SortedSet
  import opened KlineStore
  import opened KlineHistory
  import opened KlineTexts

  function SeriesKey(k: Kline): string { Key(k.chainId, k.pairAddr, k.interval) }

  // ---------------------------------------------------------------- batching

  /** The key of consume's map: pair address and candle time, without a separator. */
  function GroupKey(k: Kline): string { k.pairAddr + Itoa(k.candleTime) }

  type Groups = map<string, seq<Kline>>

  function AddToGroup(m: Groups, k: Kline): Groups {
    var key := GroupKey(k);
    m[key := (if key in m then m[key] else []) + [k]]
  }

  function AddAll(m: Groups, ks: seq<Kline>): Groups {
    if ks == [] then m else AddToGroup(AddAll(m, ks[..|ks| - 1]), ks[|ks| - 1])
  }

  /** What waits under a group's key. */
  function Group(m: Groups, key: string): seq<Kline> { if key in m then m[key] else [] }

  /** The candles of a group's key, in their order. */
  function OfGroup(ks: seq<Kline>, key: string): seq<Kline> { Filter(ks, (k: Kline) => GroupKey(k) == key) }

  /** Batching appends to every group what arrives for it, in the order of arrival. */
  lemma {:induction false} AddAllGroups(m: Groups, ks: seq<Kline>, key: string)
    ensures Group(AddAll(m, ks), key) == Group(m, key) + OfGroup(ks, key)
    ensures key in AddAll(m, ks) <==> key in m || OfGroup(ks, key) != []
  {
    hide GroupKey, OfGroup, AddToGroup, Group;
    if ks == [] {
      assert OfGroup([], key) == [] by { OfNothing(key); }
      assert Group(m, key) + [] == Group(m, key);
    } else {
      var front, k := ks[..|ks| - 1], ks[|ks| - 1];
      AddAllGroups(m, front, key);
      OfGroupLast(front, k, key);
      AddToGroupLast(AddAll(m, front), k, key);
      assert ks == front + [k];
      var waiting, arrived, more := Group(m, key), OfGroup(front, key), if GroupKey(k) == key then [k] else [];
      assert waiting + arrived + more == waiting + (arrived + more);
    }
  }

  lemma OfNothing(key: string)
    ensures OfGroup([], key) == []
  {
  }

  lemma OfGroupLast(ks: seq<Kline>, k: Kline, key: string)
    ensures OfGroup(ks + [k], key) == OfGroup(ks, key) + if GroupKey(k) == key then [k] else []
  {
    hide GroupKey;
    FilterSnoc(ks, k, (x: Kline) => GroupKey(x) == key);
  }

  lemma AddToGroupLast(m: Groups, k: Kline, key: string)
    ensures Group(AddToGroup(m, k), key) == Group(m, key) + if GroupKey(k) == key then [k] else []
    ensures key in AddToGroup(m, k) <==> key in m || GroupKey(k) == key
  {
    hide GroupKey;
    assert Group(m, key) + [] == Group(m, key);
  }

  /** Candles of one pair wait together exactly when they are of one time. */
  lemma GroupKeySeparates(a: Kline, b: Kline)
    requires a.pairAddr == b.pairAddr
    ensures GroupKey(a) == GroupKey(b) <==> a.candleTime == b.candleTime
  {
    hide Itoa;
    if GroupKey(a) == GroupKey(b) {
      assert GroupKey(a)[|a.pairAddr|..] == Itoa(a.candleTime) && GroupKey(b)[|b.pairAddr|..] == Itoa(b.candleTime);
      AtoiItoa(a.candleTime);
      AtoiItoa(b.candleTime);
    }
  }

  /** Candles of different pairs can wait together, since the key has no separator. */
  lemma GroupKeyCollision(k: Kline)
    ensures GroupKey(k.(pairAddr := "P", candleTime := 12)) == GroupKey(k.(pairAddr := "P1", candleTime := 2))
  {
  }

  /** Every candle sits in the group of its own key. */
  ghost predicate WellGrouped(m: Groups) {
    forall key, k :: key in m && k in m[key] ==> GroupKey(k) == key
  }

  /** How often x waits in the groups. */
  ghost function Waiting(m: Groups, x: Kline): nat {
    if GroupKey(x) in m then multiset(m[GroupKey(x)])[x] else 0
  }

  lemma AddToGroupCounts(m: Groups, k: Kline, x: Kline)
    requires WellGrouped(m)
    ensures WellGrouped(AddToGroup(m, k))
    ensures Waiting(AddToGroup(m, k), x) == Waiting(m, x) + multiset{k}[x]
  {
    var key := GroupKey(k);
    var group := if key in m then m[key] else [];
    assert multiset(group + [k]) == multiset(group) + multiset{k};
    forall kk, y | kk in AddToGroup(m, k) && y in AddToGroup(m, k)[kk] ensures GroupKey(y) == kk {
      if kk == key && y != k {
        assert y in group;
      }
    }
  }

  lemma {:induction false} AddAllCounts(m: Groups, ks: seq<Kline>, x: Kline)
    requires WellGrouped(m)
    ensures WellGrouped(AddAll(m, ks))
    ensures Waiting(AddAll(m, ks), x) == Waiting(m, x) + multiset(ks)[x]
  {
    hide WellGrouped, Waiting, AddToGroup, GroupKey;
    if ks == [] {
    } else {
      var front, k := ks[..|ks| - 1], ks[|ks| - 1];
      AddAllCounts(m, front, x);
      AddToGroupCounts(AddAll(m, front), k, x);
      assert ks == front + [k];
    }
  }

  /** order lists the keys of m, each once: the order in which a Go map happens to be ranged over. */
  ghost predicate IsOrderOf(order: seq<string>, m: Groups) {
    && (forall i, j :: 0 <= i < j < |order| ==> order[i] != order[j])
    && (forall key :: key in order <==> key in m)
  }

  /** How often x occurs in a list of batches. */
  ghost function Occurrences(batches: seq<seq<Kline>>, x: Kline): nat {
    if batches == [] then 0
    else Occurrences(batches[..|batches| - 1], x) + multiset(batches[|batches| - 1])[x]
  }

  ghost function BatchesOf(m: Groups, order: seq<string>): (batches: seq<seq<Kline>>)
    requires forall key :: key in order ==> key in m
    ensures |batches| == |order| && forall i :: 0 <= i < |order| ==> batches[i] == m[order[i]]
  {
    seq(|order|, i requires 0 <= i < |order| => m[order[i]])
  }

  /** In whatever order a tick hands out the groups, nothing is lost and nothing is doubled. */
  lemma {:induction false} TickCounts(m: Groups, order: seq<string>, x: Kline)
    requires WellGrouped(m)
    requires forall i, j :: 0 <= i < j < |order| ==> order[i] != order[j]
    requires forall key :: key in order ==> key in m
    ensures Occurrences(BatchesOf(m, order), x) == if GroupKey(x) in order then Waiting(m, x) else 0
  {
    hide GroupKey, WellGrouped, BatchesOf, Waiting;
    if order == [] {
    } else {
      var front, last := order[..|order| - 1], order[|order| - 1];
      TickCounts(m, front, x);
      assert BatchesOf(m, order)[..|order| - 1] == BatchesOf(m, front);
      assert order == front + [last];
      GroupCount(m, last, x);
      if GroupKey(x) == last {
        assert last !in front;
      }
    }
  }

  lemma GroupCount(m: Groups, key: string, x: Kline)
    requires WellGrouped(m) && key in m
    ensures multiset(m[key])[x] == if GroupKey(x) == key then Waiting(m, x) else 0
  {
    hide GroupKey;
    if GroupKey(x) != key {
      assert x !in m[key];
    }
  }

  lemma GroupNonempty(ks: seq<Kline>, key: string)
    ensures OfGroup(ks, key) != [] <==> exists k :: k in ks && GroupKey(k) == key
  {
    hide GroupKey;
    var keep := (k: Kline) => GroupKey(k) == key;
    if OfGroup(ks, key) != [] {
      FilterMember(ks, keep, OfGroup(ks, key)[0]);
    }
    forall k | k in ks && keep(k) ensures OfGroup(ks, key) != [] {
      FilterMember(ks, keep, k);
    }
  }

  /** The goroutine that receives and batches. */
  class Consumer {
    var m: Groups

    constructor ()
      ensures m == map[]
    {
      m := map[];
    }

    method Receive(list: seq<Kline>)
      modifies this
      ensures m == AddAll(old(m), list)
      ensures forall key :: Group(m, key) == Group(old(m), key) + Filter(list, (k: Kline) => GroupKey(k) == key)
      ensures forall key :: key in m <==> key in old(m) || exists k :: k in list && GroupKey(k) == key
    {
      hide GroupKey;
      var i := 0;
      while i < |list|
        invariant 0 <= i <= |list|
        invariant m == AddAll(old(m), list[..i])
      {
        var k := list[i];
        var key := GroupKey(k);
        assert list[..i + 1][..i] == list[..i];
        m := m[key := (if key in m then m[key] else []) + [k]];
        i := i + 1;
      }
      assert list[..i] == list;
      forall key
        ensures Group(m, key) == Group(old(m), key) + Filter(list, (k: Kline) => GroupKey(k) == key)
        ensures key in m <==> key in old(m) || exists k :: k in list && GroupKey(k) == key
      {
        AddAllGroups(old(m), list, key);
        GroupNonempty(list, key);
      }
    }

    /** One tick: the groups, in some order, and an empty map afterwards. */
    method Tick() returns (order: seq<string>, batches: seq<seq<Kline>>)
      modifies this
      ensures IsOrderOf(order, old(m)) && batches == BatchesOf(old(m), order)
      ensures m == map[]
    {
      order, batches := [], [];
      var keys := m.Keys;
      while keys != {}
        invariant keys <= m.Keys
        invariant forall i, j :: 0 <= i < j < |order| ==> order[i] != order[j]
        invariant forall key :: key in order <==> key in m.Keys - keys
        invariant |batches| == |order|
        invariant forall i :: 0 <= i < |order| ==> order[i] in m && batches[i] == m[order[i]]
        decreases keys
      {
        var key :| key in keys;
        assert key !in order;
        order, batches, keys := order + [key], batches + [m[key]], keys - {key};
      }
      m := map[];
    }
  }

  // ---------------------------------------------------------------- the machine

  /** Where a worker is in newPush for the candle at the head of its batch. */
  datatype Phase =
    | Idle
    | Locked                          // the series lock is held, nothing is read yet
    | Looked(found: ZSet)             // after ZRANGEBYSCORE
    | Cleared(stored: Kline)          // the old candle is decoded and deleted
    | Written                         // after ZADD
    | Counted(now: int, count: nat)   // after reading the clock and ZCOUNT

  datatype Task = Task(todo: seq<Kline>, phase: Phase)

  datatype System = System(
    groups: Groups,              // consume's map
    tasks: seq<Task>,            // submitted batches, each with what is left of it
    sets: map<string, ZSet>,     // the Redis sorted sets
    locks: map<string, nat>,     // series key to the task that holds its lock
    crashed: bool,               // a nil candle was dereferenced
    received: seq<Kline>,        // history: every candle that arrived
    log: seq<Push>,              // history: completed pushes, in the order of their lock releases
    dropped: seq<Kline>)         // history: candles given up on

  datatype Action =
    | Receive(list: seq<Kline>)  // a message from the channel
    | Tick(order: seq<string>)   // the ticker hands out all groups
    | Direct(k: Kline)           // a push requested by another goroutine
    | Timeout(i: nat)            // the lock was not obtained in time
    | Acquire(i: nat)
    | LookUp(i: nat)
    | GiveUp(i: nat)             // the stored text does not decode
    | Clear(i: nat)
    | Write(i: nat)
    | Count(i: nat, now: int)
    | CleanUp(i: nat)            // trim if needed, release the lock

  const INITIAL := System(map[], [], map[], map[], false, [], [], [])

  function Get(s: System, key: string): ZSet { if key in s.sets then s.sets[key] else [] }

  predicate Busy(s: System, i: nat) { i < |s.tasks| && s.tasks[i].todo != [] }

  ghost predicate Enabled(s: System, a: Action) {
    match a
    case Receive(_) => true
    case Tick(order) => IsOrderOf(order, s.groups)
    case Direct(_) => true
    case Timeout(i) => Busy(s, i) && s.tasks[i].phase == Idle
    case Acquire(i) => Busy(s, i) && s.tasks[i].phase == Idle && SeriesKey(s.tasks[i].todo[0]) !in s.locks
    case LookUp(i) => Busy(s, i) && s.tasks[i].phase == Locked
    case GiveUp(i) =>
      Busy(s, i) && s.tasks[i].phase.Looked? && s.tasks[i].phase.found != []
      && Decompress(s.tasks[i].phase.found[0].member) == None
    case Clear(i) =>
      Busy(s, i) && s.tasks[i].phase.Looked? && s.tasks[i].phase.found != []
      && Decompress(s.tasks[i].phase.found[0].member).Some?
    case Write(i) =>
      Busy(s, i) && (s.tasks[i].phase == Looked([]) || s.tasks[i].phase.Cleared?)
    case Count(i, _) => Busy(s, i) && s.tasks[i].phase == Written
    case CleanUp(i) => Busy(s, i) && s.tasks[i].phase.Counted?
  }

  /** A worker moves on to another phase and leaves z in the set of its series. */
  function Advance(s: System, i: nat, phase: Phase, z: ZSet): System
    requires Busy(s, i)
  {
    var t := s.tasks[i];
    s.(tasks := s.tasks[i := t.(phase := phase)], sets := s.sets[SeriesKey(t.todo[0]) := z])
  }

  /** A worker is done with its candle. */
  function Finish(s: System, i: nat): System
    requires Busy(s, i)
  {
    var t := s.tasks[i];
    s.(tasks := s.tasks[i := Task(t.todo[1..], Idle)])
  }

  ghost function Apply(s: System, a: Action): System
    requires Enabled(s, a)
  {
    match a
    case Receive(list) => s.(groups := AddAll(s.groups, list), received := s.received + list)
    case Tick(order) =>
      var batches := BatchesOf(s.groups, order);
      s.(groups := map[], tasks := s.tasks + seq(|batches|, n requires 0 <= n < |batches| => Task(batches[n], Idle)))
    case Direct(k) => s.(tasks := s.tasks + [Task([k], Idle)], received := s.received + [k])
    case Timeout(i) => Finish(s, i).(dropped := s.dropped + [s.tasks[i].todo[0]])
    case Acquire(i) =>
      s.(tasks := s.tasks[i := s.tasks[i].(phase := Locked)], locks := s.locks[SeriesKey(s.tasks[i].todo[0]) := i])
    case LookUp(i) =>
      var k := s.tasks[i].todo[0];
      var z := Get(s, SeriesKey(k));
      Advance(s, i, Looked(RangeByScore(z, k.candleTime, k.candleTime)), z)
    case GiveUp(i) =>
      var k := s.tasks[i].todo[0];
      Finish(s, i).(dropped := s.dropped + [k], locks := s.locks - {SeriesKey(k)})
    case Clear(i) =>
      var k := s.tasks[i].todo[0];
      Advance(s, i, Cleared(Decompress(s.tasks[i].phase.found[0].member).value),
              RemoveByScore(Get(s, SeriesKey(k)), k.candleTime, k.candleTime))
    case Write(i) =>
      var k := s.tasks[i].todo[0];
      var z := Get(s, SeriesKey(k));
      (match s.tasks[i].phase
       case Cleared(stored) =>
         (match Merge(stored, k)
          case None => s.(crashed := true)
          case Some(merged) => Advance(s, i, Written, Add(z, k.candleTime, Compress(merged))))
       case _ => Advance(s, i, Written, Add(z, k.candleTime, Compress(k))))
    case Count(i, now) =>
      var k := s.tasks[i].todo[0];
      var z := Get(s, SeriesKey(k));
      Advance(s, i, Counted(now, CountByScore(z, 0, Horizon(k.interval, now))), z)
    case CleanUp(i) =>
      var k := s.tasks[i].todo[0];
      var z := Get(s, SeriesKey(k));
      var p := s.tasks[i].phase;
      var y := if p.count > TRIM_THRESHOLD then RemoveByScore(z, 0, Horizon(k.interval, p.now)) else z;
      Finish(Advance(s, i, Idle, y), i).(locks := s.locks - {SeriesKey(k)}, log := s.log + [Push(k, p.now)])
  }

  /** The state after a run, or None when some action of it was not possible. */
  ghost function Execute(run: seq<Action>): Option<System> {
    if run == [] then Some(INITIAL)
    else
      match Execute(run[..|run| - 1])
      case None => None
      case Some(s) => if Enabled(s, run[|run| - 1]) then Some(Apply(s, run[|run| - 1])) else None
  }

  // ---------------------------------------------------------------- fine-grained pushes refine whole pushes

  /** The completed pushes of one series, in order. */
  function PushesOf(log: seq<Push>, key: string): seq<Push> {
    if log == [] then []
    else
      PushesOf(log[..|log| - 1], key) +
      if SeriesKey(log[|log| - 1].kline) == key then [log[|log| - 1]] else []
  }

  function Base(s: System, key: string): ZSet { RunSet(PushesOf(s.log, key)) }

  /** How the set z of a locked series relates to the set before the push in progress. */
  ghost predicate InProgress(t: Task, z: ZSet, base: ZSet)
    requires t.todo != []
  {
    var k := t.todo[0];
    match t.phase
    case Idle => false
    case Locked => z == base
    case Looked(found) => z == base && found == RangeByScore(base, k.candleTime, k.candleTime)
    case Cleared(stored) =>
      var found := RangeByScore(base, k.candleTime, k.candleTime);
      && found != [] && Decompress(found[0].member) == Some(stored)
      && z == RemoveByScore(base, k.candleTime, k.candleTime)
    case Written => PushSet(base, k).Stored? && z == PushSet(base, k).zset
    case Counted(now, count) =>
      && PushSet(base, k).Stored? && z == PushSet(base, k).zset
      && count == CountByScore(z, 0, Horizon(k.interval, now))
  }

  ghost predicate SeriesInv(s: System, key: string) {
    if key in s.locks then
      var i := s.locks[key];
      && Busy(s, i) && SeriesKey(s.tasks[i].todo[0]) == key
      && InProgress(s.tasks[i], Get(s, key), Base(s, key))
    else Get(s, key) == Base(s, key)
  }

  ghost predicate HoldsLock(s: System, i: nat)
    requires i < |s.tasks|
  {
    && s.tasks[i].todo != []
    && SeriesKey(s.tasks[i].todo[0]) in s.locks && s.locks[SeriesKey(s.tasks[i].todo[0])] == i
  }

  ghost predicate LockInv(s: System) {
    && (forall key :: SeriesInv(s, key))
    && (forall i: nat :: i < |s.tasks| && s.tasks[i].phase != Idle ==> HoldsLock(s, i))
  }

  lemma AdvanceKeepsLockInv(s: System, i: nat, phase: Phase, z: ZSet)
    requires LockInv(s) && Busy(s, i) && s.tasks[i].phase != Idle && phase != Idle
    requires InProgress(s.tasks[i].(phase := phase), z, Base(s, SeriesKey(s.tasks[i].todo[0])))
    ensures LockInv(Advance(s, i, phase, z))
  {
    hide InProgress, SeriesKey, RunSet, PushesOf;
    var y := Advance(s, i, phase, z);
    var mine := SeriesKey(s.tasks[i].todo[0]);
    assert HoldsLock(s, i);
    forall key ensures SeriesInv(y, key) {
      assert SeriesInv(s, key);
      assert Base(y, key) == Base(s, key);
      if key != mine {
        assert Get(y, key) == Get(s, key);
      }
    }
    forall j: nat | j < |y.tasks| && y.tasks[j].phase != Idle ensures HoldsLock(y, j) {
      assert HoldsLock(s, j);
    }
  }

  /** Releasing a lock with the set that the whole push leaves. */
  lemma ReleaseKeepsLockInv(s: System, y: System, i: nat, key: string)
    requires LockInv(s) && Busy(s, i) && s.tasks[i].phase != Idle && key == SeriesKey(s.tasks[i].todo[0])
    requires y.tasks == s.tasks[i := Task(s.tasks[i].todo[1..], Idle)] && y.locks == s.locks - {key}
    requires Get(y, key) == Base(y, key)
    requires forall other :: other != key ==> Get(y, other) == Get(s, other) && Base(y, other) == Base(s, other)
    ensures LockInv(y)
  {
    hide InProgress, SeriesKey, Base, Get;
    assert HoldsLock(s, i);
    forall other ensures SeriesInv(y, other) {
      assert SeriesInv(s, other);
      if other != key && other in s.locks {
        assert s.locks[other] != i;
      }
    }
    forall j: nat | j < |y.tasks| && y.tasks[j].phase != Idle ensures HoldsLock(y, j) {
      assert HoldsLock(s, j);
    }
  }

  /** New idle tasks, and steps outside the store, touch no series. */
  lemma IdleStepKeepsLockInv(s: System, y: System)
    requires LockInv(s) && y.sets == s.sets && y.locks == s.locks && y.log == s.log
    requires |y.tasks| >= |s.tasks|
    requires forall i: nat :: i < |s.tasks| && y.tasks[i] != s.tasks[i] ==> s.tasks[i].phase == Idle && y.tasks[i].phase == Idle
    requires forall i: nat :: |s.tasks| <= i < |y.tasks| ==> y.tasks[i].phase == Idle
    ensures LockInv(y)
  {
    hide SeriesKey, RunSet, PushesOf;
    forall key ensures SeriesInv(y, key) {
      assert SeriesInv(s, key);
      assert Base(y, key) == Base(s, key) && Get(y, key) == Get(s, key);
    }
    forall j: nat | j < |y.tasks| && y.tasks[j].phase != Idle ensures HoldsLock(y, j) {
      assert HoldsLock(s, j);
    }
  }

  // ---------------------------------------------------------------- conservation of candles

  ghost function Todo(tasks: seq<Task>, x: Kline): nat {
    if tasks == [] then 0 else Todo(tasks[..|tasks| - 1], x) + multiset(tasks[|tasks| - 1].todo)[x]
  }

  ghost function Pushed(log: seq<Push>, x: Kline): nat {
    if log == [] then 0 else Pushed(log[..|log| - 1], x) + (if log[|log| - 1].kline == x then 1 else 0)
  }

  /** Every candle that arrived waits in a group or a batch, or was pushed, or was given up on. */
  ghost predicate Accounted(s: System, x: Kline) {
    multiset(s.received)[x]
    == Waiting(s.groups, x) + Todo(s.tasks, x) + Pushed(s.log, x) + multiset(s.dropped)[x]
  }

  lemma {:induction false} TodoUpdate(tasks: seq<Task>, i: nat, t: Task, x: Kline)
    requires i < |tasks|
    ensures Todo(tasks[i := t], x) == Todo(tasks, x) - multiset(tasks[i].todo)[x] + multiset(t.todo)[x]
    ensures multiset(tasks[i].todo)[x] <= Todo(tasks, x)
  {
    var front := tasks[..|tasks| - 1];
    if i < |tasks| - 1 {
      TodoUpdate(front, i, t, x);
      assert tasks[i := t][..|tasks| - 1] == front[i := t];
    } else {
      assert tasks[i := t][..|tasks| - 1] == front;
    }
  }

  lemma TodoSamePhases(tasks: seq<Task>, i: nat, phase: Phase, x: Kline)
    requires i < |tasks|
    ensures Todo(tasks[i := tasks[i].(phase := phase)], x) == Todo(tasks, x)
  {
    TodoUpdate(tasks, i, tasks[i].(phase := phase), x);
  }

  lemma TodoFinish(s: System, i: nat, x: Kline)
    requires Busy(s, i)
    ensures Todo(Finish(s, i).tasks, x) == Todo(s.tasks, x) - (if s.tasks[i].todo[0] == x then 1 else 0)
  {
    var t := s.tasks[i];
    TodoUpdate(s.tasks, i, Task(t.todo[1..], Idle), x);
    assert t.todo == [t.todo[0]] + t.todo[1..];
    assert multiset(t.todo) == multiset{t.todo[0]} + multiset(t.todo[1..]);
  }

  lemma {:induction false} TodoSubmit(tasks: seq<Task>, batches: seq<seq<Kline>>, x: Kline)
    ensures Todo(tasks + seq(|batches|, n requires 0 <= n < |batches| => Task(batches[n], Idle)), x)
            == Todo(tasks, x) + Occurrences(batches, x)
  {
    var more := seq(|batches|, n requires 0 <= n < |batches| => Task(batches[n], Idle));
    if batches == [] {
      assert tasks + more == tasks;
    } else {
      var front := batches[..|batches| - 1];
      var fewer := seq(|front|, n requires 0 <= n < |front| => Task(front[n], Idle));
      TodoSubmit(tasks, front, x);
      assert (tasks + more)[..|tasks + more| - 1] == tasks + fewer;
    }
  }

  lemma SnocCount(ks: seq<Kline>, k: Kline, x: Kline)
    ensures multiset(ks + [k])[x] == multiset(ks)[x] + (if k == x then 1 else 0)
  {
  }

  lemma PushedSnoc(log: seq<Push>, p: Push, x: Kline)
    ensures Pushed(log + [p], x) == Pushed(log, x) + (if p.kline == x then 1 else 0)
  {
    assert (log + [p])[..|log|] == log;
  }

  ghost predicate Inv(s: System) {
    && LockInv(s)
    && WellGrouped(s.groups) && (forall x :: Accounted(s, x))
    && !s.crashed
  }

  lemma ReceiveAccounts(s: System, list: seq<Kline>, x: Kline)
    requires WellGrouped(s.groups) && Accounted(s, x)
    ensures var y := Apply(s, Receive(list)); WellGrouped(y.groups) && Accounted(y, x)
  {
    hide GroupKey, WellGrouped, Waiting, Todo, Pushed;
    AddAllCounts(s.groups, list, x);
    assert multiset(s.received + list) == multiset(s.received) + multiset(list);
  }

  lemma TickAccounts(s: System, order: seq<string>, x: Kline)
    requires Enabled(s, Tick(order)) && WellGrouped(s.groups) && Accounted(s, x)
    ensures var y := Apply(s, Tick(order)); WellGrouped(y.groups) && Accounted(y, x)
  {
    hide GroupKey, Todo, Pushed, Occurrences;
    TickCounts(s.groups, order, x);
    TodoSubmit(s.tasks, BatchesOf(s.groups, order), x);
  }

  lemma DirectAccounts(s: System, k: Kline, x: Kline)
    requires WellGrouped(s.groups) && Accounted(s, x)
    ensures var y := Apply(s, Direct(k)); WellGrouped(y.groups) && Accounted(y, x)
  {
    hide GroupKey, WellGrouped, Waiting, Pushed;
    SnocCount(s.received, k, x);
    assert (s.tasks + [Task([k], Idle)])[..|s.tasks|] == s.tasks;
  }

  lemma ConsumerStepAccounts(s: System, a: Action, x: Kline)
    requires Enabled(s, a) && WellGrouped(s.groups) && Accounted(s, x)
    requires a.Receive? || a.Tick? || a.Direct?
    ensures WellGrouped(Apply(s, a).groups) && Accounted(Apply(s, a), x)
  {
    hide WellGrouped, Accounted;
    match a
    case Receive(list) => ReceiveAccounts(s, list, x);
    case Tick(order) => TickAccounts(s, order, x);
    case Direct(k) => DirectAccounts(s, k, x);
  }

  lemma PhaseStepAccounts(s: System, y: System, i: nat, x: Kline)
    requires Accounted(s, x) && Busy(s, i) && i < |y.tasks|
    requires y.tasks == s.tasks[i := s.tasks[i].(phase := y.tasks[i].phase)]
    requires y.groups == s.groups && y.received == s.received && y.log == s.log && y.dropped == s.dropped
    ensures Accounted(y, x)
  {
    TodoSamePhases(s.tasks, i, y.tasks[i].phase, x);
  }

  /** A finished candle moves from its batch to the completed pushes or to the dropped candles. */
  lemma FinishStepAccounts(s: System, y: System, i: nat, now: int, x: Kline)
    requires Accounted(s, x) && Busy(s, i)
    requires y.tasks == Finish(s, i).tasks && y.groups == s.groups && y.received == s.received
    requires var k := s.tasks[i].todo[0];
             || (y.log == s.log && y.dropped == s.dropped + [k])
             || (y.log == s.log + [Push(k, now)] && y.dropped == s.dropped)
    ensures Accounted(y, x)
  {
    TodoFinish(s, i, x);
    SnocCount(s.dropped, s.tasks[i].todo[0], x);
    PushedSnoc(s.log, Push(s.tasks[i].todo[0], now), x);
  }

  lemma WorkerStepAccounts(s: System, a: Action, x: Kline)
    requires Enabled(s, a) && Accounted(s, x)
    requires !a.Receive? && !a.Tick? && !a.Direct?
    ensures Apply(s, a).groups == s.groups && Accounted(Apply(s, a), x)
  {
    hide SeriesKey, Decompress, Compress, RangeByScore, RemoveByScore, Add, Merge, Accounted;
    var y := Apply(s, a);
    var i := a.i;
    if a.Timeout? || a.GiveUp? {
      FinishStepAccounts(s, y, i, 0, x);
    } else if a.CleanUp? {
      CleanUpAccounts(s, i, x);
    } else if a.Write? {
      WriteAccounts(s, i, x);
    } else {
      PhaseStepAccounts(s, y, i, x);
    }
  }

  lemma WriteAccounts(s: System, i: nat, x: Kline)
    requires Enabled(s, Write(i)) && Accounted(s, x)
    ensures var y := Apply(s, Write(i)); y.groups == s.groups && Accounted(y, x)
  {
    hide SeriesKey, Compress, Add, Merge, Accounted, Advance;
    var k := s.tasks[i].todo[0];
    var z := Get(s, SeriesKey(k));
    match s.tasks[i].phase
    case Cleared(stored) =>
      if Merge(stored, k) == None {
        CrashAccounts(s, x);
      } else {
        AdvanceAccounts(s, i, Written, Add(z, k.candleTime, Compress(Merge(stored, k).value)), x);
      }
    case _ => AdvanceAccounts(s, i, Written, Add(z, k.candleTime, Compress(k)), x);
  }

  lemma AdvanceAccounts(s: System, i: nat, phase: Phase, z: ZSet, x: Kline)
    requires Busy(s, i) && Accounted(s, x)
    ensures var y := Advance(s, i, phase, z); y.groups == s.groups && Accounted(y, x)
  {
    hide SeriesKey;
    TodoSamePhases(s.tasks, i, phase, x);
  }

  lemma CleanUpAccounts(s: System, i: nat, x: Kline)
    requires Enabled(s, CleanUp(i)) && Accounted(s, x)
    ensures var y := Apply(s, CleanUp(i)); y.groups == s.groups && Accounted(y, x)
  {
    hide SeriesKey, Decompress, Compress, RangeByScore, RemoveByScore, Add, Merge, Accounted;
    assert s.tasks[i := s.tasks[i].(phase := Idle)][i := Task(s.tasks[i].todo[1..], Idle)]
        == s.tasks[i := Task(s.tasks[i].todo[1..], Idle)];
    FinishStepAccounts(s, Apply(s, CleanUp(i)), i, s.tasks[i].phase.now, x);
  }

  lemma CrashAccounts(s: System, x: Kline)
    requires Accounted(s, x)
    ensures Accounted(s.(crashed := true), x)
  {
  }

  // ---------------------------------------------------------------- every step keeps the invariant

  lemma {:induction false} PushedMember(log: seq<Push>, p: Push)
    requires p in log
    ensures Pushed(log, p.kline) > 0
  {
    if p != log[|log| - 1] {
      assert log == log[..|log| - 1] + [log[|log| - 1]];
      PushedMember(log[..|log| - 1], p);
    }
  }

  lemma {:induction false} PushesOfMember(log: seq<Push>, key: string, p: Push)
    ensures p in PushesOf(log, key) <==> p in log && SeriesKey(p.kline) == key
  {
    if log == [] {
    } else {
      assert log == log[..|log| - 1] + [log[|log| - 1]];
      PushesOfMember(log[..|log| - 1], key, p);
    }
  }

  lemma PushesOfSnoc(log: seq<Push>, p: Push, key: string)
    ensures PushesOf(log + [p], key) == PushesOf(log, key) + if SeriesKey(p.kline) == key then [p] else []
  {
    assert (log + [p])[..|log|] == log;
  }

  /** The series asked about has no comma in its pair address; other series may have. */
  ghost predicate CleanSeries(s: System, key: string) {
    forall k :: k in s.received && SeriesKey(k) == key ==> ',' !in k.pairAddr
  }

  /** What is pushed into a series without commas has no commas. */
  lemma LogCommaFree(s: System, key: string)
    requires CleanSeries(s, key) && forall x :: Accounted(s, x)
    ensures CommaFree(PushesOf(s.log, key))
  {
    hide SeriesKey;
    forall p | p in PushesOf(s.log, key) ensures ',' !in p.kline.pairAddr {
      PushesOfMember(s.log, key, p);
      PushedMember(s.log, p);
      assert Accounted(s, p.kline);
      assert p.kline in multiset(s.received);
    }
  }

  lemma WriteKeepsInv(s: System, i: nat)
    requires Inv(s) && Enabled(s, Write(i))
    ensures LockInv(Apply(s, Write(i))) && !Apply(s, Write(i)).crashed
  {
    hide SeriesKey, Decompress, Compress, RangeByScore, RemoveByScore, Add, MergeSame, RunSet, Texts;
    var k := s.tasks[i].todo[0];
    var key := SeriesKey(k);
    assert HoldsLock(s, i) && SeriesInv(s, key);
    RunTexts(PushesOf(s.log, key), k);
    AdvanceKeepsLockInv(s, i, Written, PushSet(Base(s, key), k).zset);
  }

  /** The set that the last step leaves is that of the whole push. */
  function Cleaned(z: ZSet, k: Kline, now: int, count: nat): ZSet {
    if count > TRIM_THRESHOLD then RemoveByScore(z, 0, Horizon(k.interval, now)) else z
  }

  lemma CleanUpShape(s: System, i: nat)
    requires Enabled(s, CleanUp(i))
    ensures var y, k, p := Apply(s, CleanUp(i)), s.tasks[i].todo[0], s.tasks[i].phase;
            && y.tasks == s.tasks[i := Task(s.tasks[i].todo[1..], Idle)]
            && y.locks == s.locks - {SeriesKey(k)} && y.log == s.log + [Push(k, p.now)] && y.crashed == s.crashed
            && forall other :: Get(y, other) ==
                 if other == SeriesKey(k) then Cleaned(Get(s, other), k, p.now, p.count) else Get(s, other)
  {
    hide SeriesKey, Decompress, Compress, RangeByScore, RemoveByScore;
  }

  lemma CleanedIsStep(base: ZSet, z: ZSet, t: Task)
    requires t.todo != [] && t.phase.Counted?
    ensures InProgress(t, z, base) ==>
              StepSet(base, Push(t.todo[0], t.phase.now)) == Cleaned(z, t.todo[0], t.phase.now, t.phase.count)
  {
    hide RangeByScore, RemoveByScore, PushSet;
  }

  lemma RunSetSnoc(h: seq<Push>, p: Push)
    ensures RunSet(h + [p]) == StepSet(RunSet(h), p)
  {
    hide StepSet;
    assert (h + [p])[..|h|] == h;
  }

  lemma CleanUpKeepsInv(s: System, i: nat)
    requires Inv(s) && Enabled(s, CleanUp(i))
    ensures LockInv(Apply(s, CleanUp(i))) && !Apply(s, CleanUp(i)).crashed
  {
    hide SeriesKey, Apply, StepSet, RunSet, PushesOf, Cleaned, Waiting, InProgress;
    var k := s.tasks[i].todo[0];
    var key := SeriesKey(k);
    var y := Apply(s, CleanUp(i));
    var p := Push(k, s.tasks[i].phase.now);
    CleanUpShape(s, i);
    assert HoldsLock(s, i) && SeriesInv(s, key);
    CleanedIsStep(Base(s, key), Get(s, key), s.tasks[i]);
    RunSetSnoc(PushesOf(s.log, key), p);
    forall other ensures PushesOf(y.log, other) == PushesOf(s.log, other) + if key == other then [p] else [] {
      PushesOfSnoc(s.log, p, other);
    }
    forall other | other != key ensures Get(y, other) == Get(s, other) && Base(y, other) == Base(s, other) {
      assert PushesOf(s.log, other) + [] == PushesOf(s.log, other);
    }
    ReleaseKeepsLockInv(s, y, i, key);
  }

  lemma OtherWorkerStepKeepsInv(s: System, a: Action)
    requires Inv(s) && Enabled(s, a) && (a.LookUp? || a.Clear? || a.Count? || a.Acquire? || a.Timeout? || a.GiveUp?)
    ensures LockInv(Apply(s, a)) && !Apply(s, a).crashed
  {
    hide SeriesKey, Decompress, RangeByScore, RemoveByScore, PushSet, RunSet, PushesOf, Waiting;
    var i := a.i;
    var key := SeriesKey(s.tasks[i].todo[0]);
    assert SeriesInv(s, key);
    if a.Timeout? {
      IdleStepKeepsLockInv(s, Apply(s, a));
    } else if a.Acquire? {
      AcquireKeepsLockInv(s, i);
    } else {
      assert HoldsLock(s, i);
      if a.GiveUp? {
        ReleaseKeepsLockInv(s, Apply(s, a), i, key);
      } else {
        AdvanceKeepsLockInv(s, i, Apply(s, a).tasks[i].phase, Get(Apply(s, a), key));
      }
    }
  }

  lemma AcquireKeepsLockInv(s: System, i: nat)
    requires LockInv(s) && Enabled(s, Acquire(i))
    ensures LockInv(Apply(s, Acquire(i)))
  {
    hide SeriesKey, RangeByScore, RemoveByScore, PushSet, RunSet, PushesOf;
    var y := Apply(s, Acquire(i));
    var mine := SeriesKey(s.tasks[i].todo[0]);
    forall key ensures SeriesInv(y, key) {
      assert SeriesInv(s, key);
      assert Base(y, key) == Base(s, key) && Get(y, key) == Get(s, key);
    }
    forall j: nat | j < |y.tasks| && y.tasks[j].phase != Idle ensures HoldsLock(y, j) {
      if j != i {
        assert HoldsLock(s, j);
        assert SeriesKey(s.tasks[j].todo[0]) != mine;
      }
    }
  }

  lemma StepKeepsInv(s: System, a: Action)
    requires Inv(s) && Enabled(s, a)
    ensures Inv(Apply(s, a))
  {
    hide LockInv, Waiting, Todo, Pushed, Advance, Finish, Accounted, WellGrouped;
    var y := Apply(s, a);
    forall x ensures Accounted(y, x) {
      assert Accounted(s, x);
      if a.Receive? || a.Tick? || a.Direct? {
        ConsumerStepAccounts(s, a, x);
      } else {
        WorkerStepAccounts(s, a, x);
      }
    }
    assert WellGrouped(y.groups) by {
      assert Accounted(s, EMPTY_KLINE);
      if a.Receive? || a.Tick? || a.Direct? {
        ConsumerStepAccounts(s, a, EMPTY_KLINE);
      } else {
        WorkerStepAccounts(s, a, EMPTY_KLINE);
      }
    }
    match a
    case Write(i) => WriteKeepsInv(s, i);
    case CleanUp(i) => CleanUpKeepsInv(s, i);
    case Receive(_) => IdleStepKeepsLockInv(s, y);
    case Tick(_) => IdleStepKeepsLockInv(s, y);
    case Direct(_) => IdleStepKeepsLockInv(s, y);
    case _ => OtherWorkerStepKeepsInv(s, a);
  }

  // ---------------------------------------------------------------- results over whole runs

  lemma InitialInv()
    ensures Inv(INITIAL)
  {
    hide SeriesKey;
    forall key ensures SeriesInv(INITIAL, key) {
      assert PushesOf([], key) == [];
    }
    forall x ensures Accounted(INITIAL, x) {
    }
  }

  /** In every reachable state: no push has dereferenced nil, every candle is accounted for, and every series
      that is not locked holds exactly what its completed pushes, taken whole and in order, leave. */
  lemma {:induction false} RunInvariant(run: seq<Action>)
    requires Execute(run).Some?
    ensures Inv(Execute(run).value)
  {
    hide Inv, Apply, Enabled;
    if run == [] {
      InitialInv();
    } else {
      var front, a := run[..|run| - 1], run[|run| - 1];
      RunInvariant(front);
      StepKeepsInv(Execute(front).value, a);
    }
  }

  /** The completed pushes of a series into a window are the logged candles of that series and window. */
  lemma {:induction false} InWindowCount(log: seq<Push>, key: string, lo: int, hi: int, x: Kline)
    ensures multiset(InWindow(PushesOf(log, key), lo, hi))[x]
            == if SeriesKey(x) == key && lo <= x.candleTime <= hi then Pushed(log, x) else 0
  {
    hide SeriesKey, InWindow;
    if log == [] {
      InWindowNothing(lo, hi);
    } else {
      var front, p := log[..|log| - 1], log[|log| - 1];
      InWindowCount(front, key, lo, hi, x);
      var h := PushesOf(front, key);
      InWindowSnoc(h, p, lo, hi);
      SnocCount(InWindow(h, lo, hi), p.kline, x);
      assert h + [] == h;
    }
  }

  lemma InWindowNothing(lo: int, hi: int)
    ensures InWindow([], lo, hi) == []
  {
  }

  lemma InWindowSnoc(h: seq<Push>, p: Push, lo: int, hi: int)
    ensures InWindow(h + [p], lo, hi)
            == if lo <= p.kline.candleTime <= hi then InWindow(h, lo, hi) + [p.kline] else InWindow(h, lo, hi)
  {
    assert (h + [p])[..|h|] == h;
  }

  /** Everything that arrived has been handed out and pushed or given up on. */
  ghost predicate Drained(s: System) {
    s.groups == map[] && forall i :: 0 <= i < |s.tasks| ==> s.tasks[i].todo == []
  }

  lemma {:induction false} NothingTodo(tasks: seq<Task>, x: Kline)
    requires forall i :: 0 <= i < |tasks| ==> tasks[i].todo == []
    ensures Todo(tasks, x) == 0
  {
    if tasks == [] {
    } else {
      NothingTodo(tasks[..|tasks| - 1], x);
    }
  }

  /** ks are the candles of one series and window that arrived and were not given up on. */
  ghost predicate Surviving(s: System, key: string, lo: int, hi: int, ks: seq<Kline>) {
    forall x ::
      if SeriesKey(x) == key && lo <= x.candleTime <= hi
      then multiset(ks)[x] + multiset(s.dropped)[x] == multiset(s.received)[x]
      else x !in ks
  }

  /** However candles were batched and their pushes interleaved: once the consumer is drained, a retained
      stored candle carries the totals and extremes of all the candles that arrived for it. */
  lemma DrainedRunAggregates(run: seq<Action>, key: string, t: int, ks: seq<Kline>)
    requires Execute(run).Some? && CleanSeries(Execute(run).value, key) && Drained(Execute(run).value)
    requires Surviving(Execute(run).value, key, t, t, ks)
    requires Retained(PushesOf(Execute(run).value.log, key), t)
    ensures match At(Get(Execute(run).value, key), t)
            case None => ks == []
            case Some(c) => ks != [] && Aggregates(c, ks)
  {
    hide SeriesKey, Decompress, RunSet, Aggregates, Execute, CleanSeries, InWindow;
    var s := Execute(run).value;
    RunInvariant(run);
    var h := PushesOf(s.log, key);
    LogCommaFree(s, key);
    assert SeriesInv(s, key);
    assert key !in s.locks;
    StoredCandleAggregates(h, t);
    SurvivorsPushed(s, key, t, t, ks);
    assert |multiset(AtTime(h, t))| == |multiset(ks)|;
    if ks != [] {
      AggregatesPermutation(At(Get(s, key), t).value, AtTime(h, t), ks);
    }
  }

  lemma SurvivorsPushed(s: System, key: string, lo: int, hi: int, ks: seq<Kline>)
    requires Inv(s) && Drained(s) && Surviving(s, key, lo, hi, ks)
    ensures multiset(InWindow(PushesOf(s.log, key), lo, hi)) == multiset(ks)
  {
    hide SeriesKey, LockInv, InWindow, PushesOf, GroupKey;
    forall x ensures multiset(InWindow(PushesOf(s.log, key), lo, hi))[x] == multiset(ks)[x] {
      assert Accounted(s, x);
      NothingTodo(s.tasks, x);
      InWindowCount(s.log, key, lo, hi, x);
    }
  }

  lemma UnlockedSeries(run: seq<Action>, key: string)
    requires Execute(run).Some? && CleanSeries(Execute(run).value, key) && key !in Execute(run).value.locks
    ensures var s := Execute(run).value;
            Get(s, key) == RunSet(PushesOf(s.log, key)) && CommaFree(PushesOf(s.log, key))
  {
    hide SeriesKey, RunSet, Execute, CleanSeries, PushesOf;
    var s := Execute(run).value;
    RunInvariant(run);
    LogCommaFree(s, key);
    assert SeriesInv(s, key);
  }

  lemma DrainedUnlocked(s: System, key: string)
    requires Inv(s) && Drained(s)
    ensures key !in s.locks
  {
    hide SeriesKey, PushesOf;
    assert SeriesInv(s, key);
  }
}
