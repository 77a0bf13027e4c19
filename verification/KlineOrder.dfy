/** In which order the candles of one group reach the store. */
module KlineOrder {
  import opened Wrappers
  import opened Strings
  import opened Sequences
  import opened Klines
  import opened KlineCodec
  import opened SortedSet
  import opened KlineStore
  import opened KlineHistory
  import opened KlineWorkers

  /** Some batch still has a candle of this group. */
  ghost predicate Holds(t: Task, g: string) { OfGroup(t.todo, g) != [] }

  ghost predicate NobodyHolds(tasks: seq<Task>, g: string) { forall i :: 0 <= i < |tasks| ==> !Holds(tasks[i], g) }

  ghost predicate AtMostOne(tasks: seq<Task>, g: string) {
    forall i, j :: 0 <= i < j < |tasks| ==> !(Holds(tasks[i], g) && Holds(tasks[j], g))
  }

  /** What the batches still have of the group, batch by batch. */
  function InFlight(tasks: seq<Task>, g: string): seq<Kline> {
    if tasks == [] then [] else InFlight(tasks[..|tasks| - 1], g) + OfGroup(tasks[|tasks| - 1].todo, g)
  }

  function CandlesOf(log: seq<Push>): (ks: seq<Kline>)
    ensures |ks| == |log| && forall i :: 0 <= i < |log| ==> ks[i] == log[i].kline
  {
    seq(|log|, i requires 0 <= i < |log| => log[i].kline)
  }

  /** At most one batch has candles of the group, and what was pushed, what that batch still has and what waits is,
      in this order, what arrived. */
  ghost predicate InOrder(s: System, g: string) {
    && AtMostOne(s.tasks, g)
    && OfGroup(CandlesOf(s.log), g) + InFlight(s.tasks, g) + Group(s.groups, g) == OfGroup(s.received, g)
  }

  /** The action does not hand out candles of the group while a batch still has some, and gives up on none. */
  ghost predicate KeepsApart(s: System, a: Action, g: string)
    requires Enabled(s, a)
  {
    match a
    case Tick(_) => g in s.groups ==> NobodyHolds(s.tasks, g)
    case Direct(k) => GroupKey(k) != g
    case Timeout(i) => GroupKey(s.tasks[i].todo[0]) != g
    case GiveUp(i) => GroupKey(s.tasks[i].todo[0]) != g
    case _ => true
  }

  ghost predicate Serial(run: seq<Action>, g: string)
    requires Execute(run).Some?
  {
    run == [] ||
    (Serial(run[..|run| - 1], g) && KeepsApart(Execute(run[..|run| - 1]).value, run[|run| - 1], g))
  }

  // ---------------------------------------------------------------- batches in flight

  lemma {:induction false} NoneInFlight(tasks: seq<Task>, g: string)
    requires NobodyHolds(tasks, g)
    ensures InFlight(tasks, g) == []
  {
    hide OfGroup;
    if tasks == [] {
    } else {
      var front := tasks[..|tasks| - 1];
      assert !Holds(tasks[|tasks| - 1], g);
      forall i | 0 <= i < |front| ensures !Holds(front[i], g) {
        assert !Holds(tasks[i], g);
      }
      NoneInFlight(front, g);
    }
  }

  /** When no other batch has candles of the group, this one's are all that is in flight. */
  lemma {:induction false} OneInFlight(tasks: seq<Task>, i: nat, g: string)
    requires i < |tasks| && forall j :: 0 <= j < |tasks| && j != i ==> !Holds(tasks[j], g)
    ensures InFlight(tasks, g) == OfGroup(tasks[i].todo, g)
  {
    hide OfGroup;
    var n := |tasks| - 1;
    var front := tasks[..n];
    if i == n {
      forall j | 0 <= j < n ensures !Holds(front[j], g) {
        assert !Holds(tasks[j], g);
      }
      NoneInFlight(front, g);
      assert [] + OfGroup(tasks[i].todo, g) == OfGroup(tasks[i].todo, g);
    } else {
      forall j | 0 <= j < n && j != i ensures !Holds(front[j], g) {
        assert !Holds(tasks[j], g);
      }
      OneInFlight(front, i, g);
      assert !Holds(tasks[n], g);
    }
  }

  /** Changing a batch without touching its candles of the group. */
  lemma {:induction false} InFlightSame(tasks: seq<Task>, i: nat, t: Task, g: string)
    requires i < |tasks| && OfGroup(t.todo, g) == OfGroup(tasks[i].todo, g)
    ensures InFlight(tasks[i := t], g) == InFlight(tasks, g)
  {
    hide OfGroup;
    var n := |tasks| - 1;
    if i == n {
      assert tasks[i := t][..n] == tasks[..n];
    } else {
      InFlightSame(tasks[..n], i, t, g);
      assert tasks[i := t][..n] == tasks[..n][i := t];
    }
  }

  lemma OfGroupHead(ks: seq<Kline>, g: string)
    requires ks != []
    ensures OfGroup(ks, g) == (if GroupKey(ks[0]) == g then [ks[0]] else []) + OfGroup(ks[1..], g)
  {
    hide GroupKey;
  }

  lemma OfGroupConcat(a: seq<Kline>, b: seq<Kline>, g: string)
    ensures OfGroup(a + b, g) == OfGroup(a, g) + OfGroup(b, g)
  {
    hide GroupKey;
    FilterConcat(a, b, (x: Kline) => GroupKey(x) == g);
  }

  lemma OwnGroup(m: Groups, key: string, g: string)
    requires WellGrouped(m) && key in m
    ensures OfGroup(m[key], g) == if key == g then m[g] else []
  {
    hide GroupKey;
    var keep := (k: Kline) => GroupKey(k) == g;
    if key == g {
      FilterIdempotent(m[g], keep);
    } else {
      FilterNone(m[key], keep);
    }
  }

  // ---------------------------------------------------------------- the steps

  lemma ReceiveInOrder(s: System, list: seq<Kline>, g: string)
    requires InOrder(s, g)
    ensures InOrder(Apply(s, Receive(list)), g)
  {
    hide OfGroup, GroupKey, InFlight;
    AddAllGroups(s.groups, list, g);
    OfGroupConcat(s.received, list, g);
    var before, flying := OfGroup(CandlesOf(s.log), g), InFlight(s.tasks, g);
    assert before + flying + (Group(s.groups, g) + OfGroup(list, g)) == before + flying + Group(s.groups, g) + OfGroup(list, g);
  }

  lemma InFlightLast(tasks: seq<Task>, t: Task, g: string)
    ensures InFlight(tasks + [t], g) == InFlight(tasks, g) + OfGroup(t.todo, g)
    ensures InFlight([], g) == []
  {
    hide OfGroup;
    assert (tasks + [t])[..|tasks|] == tasks;
  }

  lemma {:induction false} InFlightConcat(tasks: seq<Task>, more: seq<Task>, g: string)
    ensures InFlight(tasks + more, g) == InFlight(tasks, g) + InFlight(more, g)
  {
    hide OfGroup, InFlight;
    if more == [] {
      assert tasks + more == tasks;
      InFlightLast([], Task([], Idle), g);
      assert InFlight(tasks, g) + [] == InFlight(tasks, g);
    } else {
      var n := |more| - 1;
      var front, last := more[..n], more[n];
      InFlightConcat(tasks, front, g);
      InFlightLast(front, last, g);
      InFlightLast(tasks + front, last, g);
      assert more == front + [last] && tasks + more == (tasks + front) + [last];
      Grouped(InFlight(tasks, g), InFlight(front, g), OfGroup(last.todo, g));
    }
  }

  lemma Grouped(a: seq<Kline>, b: seq<Kline>, c: seq<Kline>)
    ensures a + b + c == a + (b + c)
  {
  }

  function Handed(batches: seq<seq<Kline>>): (tasks: seq<Task>)
    ensures |tasks| == |batches| && forall n :: 0 <= n < |batches| ==> tasks[n] == Task(batches[n], Idle)
  {
    seq(|batches|, n requires 0 <= n < |batches| => Task(batches[n], Idle))
  }

  /** A tick hands the group out in one batch, or not at all when nothing of it waits. */
  lemma HandedOut(m: Groups, order: seq<string>, g: string)
    requires WellGrouped(m) && IsOrderOf(order, m)
    ensures var tasks := Handed(BatchesOf(m, order));
            && AtMostOne(tasks, g) && InFlight(tasks, g) == Group(m, g)
            && (g !in m ==> NobodyHolds(tasks, g))
  {
    hide GroupKey, OfGroup, InFlight;
    var tasks := Handed(BatchesOf(m, order));
    forall n | 0 <= n < |tasks| ensures OfGroup(tasks[n].todo, g) == if order[n] == g then m[g] else [] {
      OwnGroup(m, order[n], g);
    }
    if g in m {
      var n :| 0 <= n < |order| && order[n] == g;
      forall j | 0 <= j < |tasks| && j != n ensures !Holds(tasks[j], g) {
        assert order[j] != order[n];
      }
      OneInFlight(tasks, n, g);
    } else {
      forall j | 0 <= j < |tasks| ensures !Holds(tasks[j], g) {
        assert order[j] in m;
      }
      NoneInFlight(tasks, g);
    }
  }

  lemma AppendOne(tasks: seq<Task>, more: seq<Task>, g: string)
    requires AtMostOne(tasks, g) && AtMostOne(more, g) && (NobodyHolds(tasks, g) || NobodyHolds(more, g))
    ensures AtMostOne(tasks + more, g)
  {
    hide OfGroup;
    var all := tasks + more;
    forall i, j | 0 <= i < j < |all| ensures !(Holds(all[i], g) && Holds(all[j], g)) {
      if j < |tasks| {
        assert all[i] == tasks[i] && all[j] == tasks[j];
      } else if i >= |tasks| {
        assert all[i] == more[i - |tasks|] && all[j] == more[j - |tasks|];
      } else {
        assert all[i] == tasks[i] && all[j] == more[j - |tasks|];
      }
    }
  }

  lemma TickInOrder(s: System, order: seq<string>, g: string)
    requires InOrder(s, g) && WellGrouped(s.groups) && Enabled(s, Tick(order)) && KeepsApart(s, Tick(order), g)
    ensures InOrder(Apply(s, Tick(order)), g)
  {
    hide OfGroup, GroupKey, InFlight, NobodyHolds, Holds, WellGrouped;
    var more := Handed(BatchesOf(s.groups, order));
    var y := Apply(s, Tick(order));
    assert y.tasks == s.tasks + more;
    HandedOut(s.groups, order, g);
    InFlightConcat(s.tasks, more, g);
    AppendOne(s.tasks, more, g);
    var before := OfGroup(CandlesOf(s.log), g);
    if g in s.groups {
      NoneInFlight(s.tasks, g);
      assert before + [] + Group(s.groups, g) == before + ([] + Group(s.groups, g)) + [];
    } else {
      assert before + InFlight(s.tasks, g) + [] == before + (InFlight(s.tasks, g) + []) + [];
    }
  }

  lemma DirectInOrder(s: System, k: Kline, g: string)
    requires InOrder(s, g) && GroupKey(k) != g
    ensures InOrder(Apply(s, Direct(k)), g)
  {
    hide GroupKey, InFlight, Holds;
    var more := [Task([k], Idle)];
    OfGroupHead([k], g);
    OfGroupLast(s.received, k, g);
    hide OfGroup;
    assert [k][1..] == [];
    assert OfGroup([], g) == [] by { OfNothing(g); }
    assert !Holds(more[0], g) by { NotHeld(more[0], g); }
    InFlightConcat(s.tasks, more, g);
    NoneInFlight(more, g);
    AppendOne(s.tasks, more, g);
    assert InFlight(s.tasks, g) + [] == InFlight(s.tasks, g);
    assert OfGroup(s.received, g) + [] == OfGroup(s.received, g);
  }

  lemma NotHeld(t: Task, g: string)
    requires OfGroup(t.todo, g) == []
    ensures !Holds(t, g)
  {
  }

  lemma SameHolders(tasks: seq<Task>, i: nat, t: Task, g: string)
    requires i < |tasks| && (Holds(t, g) ==> Holds(tasks[i], g)) && AtMostOne(tasks, g)
    ensures AtMostOne(tasks[i := t], g)
  {
    hide Holds;
  }

  /** A step that changes one batch, but none of its candles of the group, nor anything else that counts. */
  lemma BatchInOrder(s: System, y: System, i: nat, t: Task, g: string)
    requires InOrder(s, g) && i < |s.tasks| && OfGroup(t.todo, g) == OfGroup(s.tasks[i].todo, g)
    requires y.tasks == s.tasks[i := t] && y.groups == s.groups && y.log == s.log && y.received == s.received
    ensures InOrder(y, g)
  {
    hide OfGroup, InFlight;
    InFlightSame(s.tasks, i, t, g);
    SameHolders(s.tasks, i, t, g);
  }

  /** A worker that is done with a candle of another group. */
  lemma OtherDoneInOrder(s: System, y: System, i: nat, g: string)
    requires InOrder(s, g) && Busy(s, i) && GroupKey(s.tasks[i].todo[0]) != g
    requires y.tasks == s.tasks[i := Task(s.tasks[i].todo[1..], Idle)]
    requires y.groups == s.groups && y.log == s.log && y.received == s.received
    ensures InOrder(y, g)
  {
    hide GroupKey;
    var todo := s.tasks[i].todo;
    OfGroupHead(todo, g);
    hide OfGroup;
    assert [] + OfGroup(todo[1..], g) == OfGroup(todo[1..], g);
    BatchInOrder(s, y, i, Task(todo[1..], Idle), g);
  }

  lemma CandlesSnoc(log: seq<Push>, p: Push)
    ensures CandlesOf(log + [p]) == CandlesOf(log) + [p.kline]
  {
  }

  /** Taking k from the front of what is in flight to the end of what was pushed. */
  lemma Shifted(before: seq<Kline>, k: Kline, flying: seq<Kline>, waiting: seq<Kline>)
    ensures before + ([k] + flying) + waiting == (before + [k]) + flying + waiting
  {
  }

  /** What is in flight when a worker is done with the first candle of its batch. */
  lemma InFlightDone(tasks: seq<Task>, i: nat, g: string)
    requires i < |tasks| && tasks[i].todo != [] && AtMostOne(tasks, g)
    ensures var after := tasks[i := Task(tasks[i].todo[1..], Idle)];
            && AtMostOne(after, g)
            && InFlight(tasks, g) == (if GroupKey(tasks[i].todo[0]) == g then [tasks[i].todo[0]] else []) + InFlight(after, g)
  {
    hide GroupKey;
    var todo := tasks[i].todo;
    var t := Task(todo[1..], Idle);
    var after := tasks[i := t];
    OfGroupHead(todo, g);
    hide OfGroup, InFlight;
    SameHolders(tasks, i, t, g);
    if GroupKey(todo[0]) == g {
      forall j | 0 <= j < |tasks| && j != i ensures !Holds(tasks[j], g) {
        assert Holds(tasks[i], g);
      }
      OneInFlight(tasks, i, g);
      OneInFlight(after, i, g);
    } else {
      assert [] + OfGroup(todo[1..], g) == OfGroup(todo[1..], g);
      InFlightSame(tasks, i, t, g);
      assert [] + InFlight(after, g) == InFlight(after, g);
    }
  }

  /** A completed push takes the first candle in flight to the end of the log. */
  lemma PushedInOrder(s: System, y: System, i: nat, now: int, g: string)
    requires InOrder(s, g) && Busy(s, i)
    requires y.tasks == s.tasks[i := Task(s.tasks[i].todo[1..], Idle)]
    requires y.log == s.log + [Push(s.tasks[i].todo[0], now)] && y.groups == s.groups && y.received == s.received
    ensures InOrder(y, g)
  {
    hide GroupKey, OfGroup, InFlight, CandlesOf, AtMostOne;
    var k := s.tasks[i].todo[0];
    InFlightDone(s.tasks, i, g);
    CandlesSnoc(s.log, Push(k, now));
    OfGroupLast(CandlesOf(s.log), k, g);
    var before, flying := OfGroup(CandlesOf(s.log), g), InFlight(y.tasks, g);
    if GroupKey(k) == g {
      Shifted(before, k, flying, Group(s.groups, g));
    } else {
      assert before + [] == before && [] + flying == flying;
    }
  }

  lemma CleanUpInOrder(s: System, i: nat, g: string)
    requires InOrder(s, g) && Enabled(s, CleanUp(i))
    ensures InOrder(Apply(s, CleanUp(i)), g)
  {
    hide InOrder, RangeByScore, RemoveByScore;
    CleanUpShape(s, i);
    PushedInOrder(s, Apply(s, CleanUp(i)), i, s.tasks[i].phase.now, g);
  }

  /** Commands of a worker leave the candles of its batch alone. */
  lemma CommandShape(s: System, a: Action)
    requires Enabled(s, a) && (a.Acquire? || a.LookUp? || a.Clear? || a.Write? || a.Count?)
    ensures var y, i := Apply(s, a), a.i;
            && i < |s.tasks| && |y.tasks| == |s.tasks|
            && y.tasks == s.tasks[i := y.tasks[i]] && y.tasks[i].todo == s.tasks[i].todo
            && y.groups == s.groups && y.log == s.log && y.received == s.received
  {
    hide SeriesKey, Compress, Decompress, RangeByScore, RemoveByScore, Add, Merge;
  }

  lemma CommandInOrder(s: System, a: Action, g: string)
    requires InOrder(s, g) && Enabled(s, a) && (a.Acquire? || a.LookUp? || a.Clear? || a.Write? || a.Count?)
    ensures InOrder(Apply(s, a), g)
  {
    hide Apply, Enabled, InOrder, OfGroup;
    CommandShape(s, a);
    BatchInOrder(s, Apply(s, a), a.i, Apply(s, a).tasks[a.i], g);
  }

  lemma StepInOrder(s: System, a: Action, g: string)
    requires InOrder(s, g) && WellGrouped(s.groups) && Enabled(s, a) && KeepsApart(s, a, g)
    ensures InOrder(Apply(s, a), g)
  {
    hide InOrder, WellGrouped, SeriesKey, GroupKey, AddAll;
    match a
    case Receive(list) => ReceiveInOrder(s, list, g);
    case Tick(order) => TickInOrder(s, order, g);
    case Direct(k) => DirectInOrder(s, k, g);
    case Timeout(i) => OtherDoneInOrder(s, Apply(s, a), i, g);
    case GiveUp(i) => OtherDoneInOrder(s, Apply(s, a), i, g);
    case CleanUp(i) => CleanUpInOrder(s, i, g);
    case _ => CommandInOrder(s, a, g);
  }

  // ---------------------------------------------------------------- whole runs

  /** Candles of one group reach the store in the order in which they arrived, whatever happens to others, as long
      as each of its batches is finished before the next one is handed out. */
  lemma {:induction false} SerialInOrder(run: seq<Action>, g: string)
    requires Execute(run).Some? && Serial(run, g)
    ensures InOrder(Execute(run).value, g)
  {
    hide InOrder, Apply, Enabled, KeepsApart, Inv, WellGrouped;
    if run == [] {
      assert InOrder(INITIAL, g) by { NothingInOrder(g); }
    } else {
      var front := run[..|run| - 1];
      SerialInOrder(front, g);
      RunInvariant(front);
      assert WellGrouped(Execute(front).value.groups) by { GroupsWell(Execute(front).value); }
      StepInOrder(Execute(front).value, run[|run| - 1], g);
    }
  }

  lemma NothingInOrder(g: string)
    ensures InOrder(INITIAL, g)
  {
    OfNothing(g);
  }

  lemma GroupsWell(s: System)
    requires Inv(s)
    ensures WellGrouped(s.groups)
  {
  }

  /** A batch never gets more candles: a step leaves it alone or takes its first candle. */
  lemma BatchesShrink(s: System, a: Action, i: nat)
    requires Enabled(s, a) && i < |s.tasks|
    ensures i < |Apply(s, a).tasks|
    ensures var now, was := Apply(s, a).tasks[i].todo, s.tasks[i].todo; now == was || (was != [] && now == was[1..])
  {
    if a.CleanUp? {
      CleanUpShape(s, a.i);
      hide *;
    } else if a.Acquire? || a.LookUp? || a.Clear? || a.Write? || a.Count? {
      CommandShape(s, a);
      hide *;
    } else {
      hide SeriesKey, GroupKey, Decompress, AddAll;
    }
  }

  lemma NewBatches(s: System, a: Action, i: nat)
    requires Enabled(s, a) && |s.tasks| <= i < |Apply(s, a).tasks|
    ensures match a
            case Tick(order) => i - |s.tasks| < |order| && order[i - |s.tasks|] in s.groups
                                && Apply(s, a).tasks[i].todo == s.groups[order[i - |s.tasks|]]
            case Direct(k) => Apply(s, a).tasks[i].todo == [k]
            case _ => false
  {
    hide SeriesKey, GroupKey, Compress, Decompress, RangeByScore, RemoveByScore, Add, Merge, AddAll;
    if a.CleanUp? {
      CleanUpShape(s, a.i);
    }
  }

  /** Nothing of the group is handed out by this step either. */
  lemma StepKeepsUnheld(s: System, a: Action, g: string)
    requires Enabled(s, a) && WellGrouped(s.groups) && NobodyHolds(s.tasks, g)
    requires a.Tick? ==> g !in s.groups
    requires a.Direct? ==> GroupKey(a.k) != g
    ensures NobodyHolds(Apply(s, a).tasks, g)
  {
    hide Apply, Enabled, GroupKey, WellGrouped, OfGroup;
    var y := Apply(s, a);
    forall i | 0 <= i < |y.tasks| ensures !Holds(y.tasks[i], g) {
      if i < |s.tasks| {
        assert !Holds(s.tasks[i], g);
        BatchesShrink(s, a, i);
        if s.tasks[i].todo != [] {
          OfGroupHead(s.tasks[i].todo, g);
        }
      } else {
        NewBatches(s, a, i);
        if a.Tick? {
          OwnGroup(s.groups, a.order[i - |s.tasks|], g);
        } else {
          OfGroupHead([a.k], g);
          assert [a.k][1..] == [];
          OfNothing(g);
        }
      }
    }
  }

  ghost function StateAt(run: seq<Action>, i: int): System
    requires 0 <= i <= |run|
  {
    match Execute(run[..i])
    case Some(s) => s
    case None => INITIAL
  }

  /** The i-th action is a tick that hands out candles of the group. */
  ghost predicate HandsOut(run: seq<Action>, i: int, g: string)
    requires 0 <= i < |run|
  {
    run[i].Tick? && g in StateAt(run, i).groups
  }

  /** The i-th action pushes no candle of the group past the ticker and gives up on none. */
  ghost predicate LeavesAlone(run: seq<Action>, i: int, g: string)
    requires 0 <= i < |run|
  {
    match run[i]
    case Direct(k) => GroupKey(k) != g
    case Timeout(n) => Busy(StateAt(run, i), n) ==> GroupKey(StateAt(run, i).tasks[n].todo[0]) != g
    case GiveUp(n) => Busy(StateAt(run, i), n) ==> GroupKey(StateAt(run, i).tasks[n].todo[0]) != g
    case _ => true
  }

  ghost predicate OneTick(run: seq<Action>, g: string) {
    && (forall i, j :: 0 <= i < j < |run| ==> !(HandsOut(run, i, g) && HandsOut(run, j, g)))
    && (forall i :: 0 <= i < |run| ==> LeavesAlone(run, i, g))
  }

  lemma PrefixSame(run: seq<Action>, i: int, g: string)
    requires 0 <= i < |run| - 1
    ensures HandsOut(run[..|run| - 1], i, g) <==> HandsOut(run, i, g)
    ensures LeavesAlone(run[..|run| - 1], i, g) <==> LeavesAlone(run, i, g)
  {
    hide GroupKey, Execute;
    assert run[..|run| - 1][..i] == run[..i];
  }

  lemma LastSerial(run: seq<Action>, g: string)
    requires run != [] && Execute(run).Some?
    requires LeavesAlone(run, |run| - 1, g)
    requires HandsOut(run, |run| - 1, g) ==> NobodyHolds(Execute(run[..|run| - 1]).value.tasks, g)
    ensures KeepsApart(Execute(run[..|run| - 1]).value, run[|run| - 1], g)
  {
    hide GroupKey, SeriesKey, Decompress, NobodyHolds;
  }

  /** When all candles of the group that arrive are handed out by one tick, its batches cannot overlap. */
  lemma {:induction false} OneTickIsSerial(run: seq<Action>, g: string)
    requires Execute(run).Some? && OneTick(run, g)
    ensures Serial(run, g)
    ensures (forall i :: 0 <= i < |run| ==> !HandsOut(run, i, g)) ==> NobodyHolds(Execute(run).value.tasks, g)
  {
    hide Apply, Enabled, KeepsApart, Inv, WellGrouped, HandsOut, LeavesAlone;
    if run == [] {
    } else {
      var n := |run| - 1;
      var front, a := run[..n], run[n];
      forall i | 0 <= i < n
        ensures HandsOut(front, i, g) <==> HandsOut(run, i, g)
        ensures LeavesAlone(front, i, g) <==> LeavesAlone(run, i, g)
      {
        PrefixSame(run, i, g);
      }
      OneTickIsSerial(front, g);
      if HandsOut(run, n, g) {
        assert forall i :: 0 <= i < n ==> !HandsOut(run, i, g);
      }
      LastSerial(run, g);
      if forall i :: 0 <= i < |run| ==> !HandsOut(run, i, g) {
        RunInvariant(front);
        GroupsWell(Execute(front).value);
        LastHandsNothing(run, g);
        StepKeepsUnheld(Execute(front).value, a, g);
      }
    }
  }

  lemma LastHandsNothing(run: seq<Action>, g: string)
    requires run != [] && Execute(run).Some? && LeavesAlone(run, |run| - 1, g) && !HandsOut(run, |run| - 1, g)
    ensures var s, a := Execute(run[..|run| - 1]).value, run[|run| - 1];
            Enabled(s, a) && (a.Tick? ==> g !in s.groups) && (a.Direct? ==> GroupKey(a.k) != g)
  {
    hide GroupKey, SeriesKey, Decompress, Apply;
  }

  // ---------------------------------------------------------------- what arrived is what is stored

  /** Candles of one series and time that arrived, in the order of their arrival. */
  function Arrived(s: System, key: string, t: int): seq<Kline> {
    Filter(s.received, (k: Kline) => SeriesKey(k) == key && k.candleTime == t)
  }

  lemma {:induction false} PushesInOrder(log: seq<Push>, key: string, t: int)
    ensures AtTime(PushesOf(log, key), t) == Filter(CandlesOf(log), (k: Kline) => SeriesKey(k) == key && k.candleTime == t)
  {
    hide SeriesKey, InWindow, CandlesOf;
    if log == [] {
      InWindowNothing(t, t);
      assert CandlesOf([]) == [];
    } else {
      var n := |log| - 1;
      var front, p := log[..n], log[n];
      var keep := (k: Kline) => SeriesKey(k) == key && k.candleTime == t;
      PushesInOrder(front, key, t);
      CandlesSnoc(front, p);
      assert log == front + [p];
      FilterSnoc(CandlesOf(front), p.kline, keep);
      hide Filter, PushesOf;
      PushesOfSnoc(front, p, key);
      var h := PushesOf(front, key);
      InWindowSnoc(h, p, t, t);
      assert h + [] == h && AtTime(h, t) + [] == AtTime(h, t);
    }
  }

  /** Choosing among the candles of a group what lies in the group anyway. */
  lemma {:induction false} FilterWithin(ks: seq<Kline>, g: string, keep: Kline -> bool)
    requires forall k :: k in ks && keep(k) ==> GroupKey(k) == g
    ensures Filter(OfGroup(ks, g), keep) == Filter(ks, keep)
  {
    hide GroupKey;
    if ks == [] {
    } else {
      var rest := OfGroup(ks[1..], g);
      FilterWithin(ks[1..], g, keep);
      OfGroupHead(ks, g);
      assert ks[0] in ks;
      FilterConcat(if GroupKey(ks[0]) == g then [ks[0]] else [], rest, keep);
      assert [ks[0]][1..] == [];
      assert [] + Filter(rest, keep) == Filter(rest, keep);
    }
  }

  /** Once the consumer is drained, the candle of a retained time is the store's fold of what arrived for it, in
      the order of arrival, if the batches of its group did not overlap. */
  lemma ArrivedCandle(run: seq<Action>, key: string, pair: string, t: int)
    requires Execute(run).Some? && CleanSeries(Execute(run).value, key) && Drained(Execute(run).value)
    requires Serial(run, pair + Itoa(t))
    ensures var s := Execute(run).value;
            var ks := Arrived(s, key, t);
            Retained(PushesOf(s.log, key), t) && (forall k :: k in ks ==> k.pairAddr == pair) ==>
              At(Get(s, key), t) == if ks == [] then None else Some(StoredFold(ks))
  {
    hide *;
    var s := Execute(run).value;
    var ks, g := Arrived(s, key, t), pair + Itoa(t);
    if Retained(PushesOf(s.log, key), t) && forall k :: k in ks ==> k.pairAddr == pair {
      SerialInOrder(run, g);
      DrainedOrder(s, g);
      ArrivedPushed(run, key, pair, t);
      UnlockedAt(run, key);
      RunCandle(PushesOf(s.log, key), t);
    }
  }

  lemma UnlockedAt(run: seq<Action>, key: string)
    requires Execute(run).Some? && CleanSeries(Execute(run).value, key) && Drained(Execute(run).value)
    ensures var s := Execute(run).value;
            Get(s, key) == RunSet(PushesOf(s.log, key)) && CommaFree(PushesOf(s.log, key))
  {
    hide *;
    RunInvariant(run);
    DrainedUnlocked(Execute(run).value, key);
    UnlockedSeries(run, key);
  }

  lemma DrainedOrder(s: System, g: string)
    requires InOrder(s, g) && Drained(s)
    ensures OfGroup(CandlesOf(s.log), g) == OfGroup(s.received, g)
  {
    hide OfGroup, InFlight, CandlesOf;
    forall i | 0 <= i < |s.tasks| ensures !Holds(s.tasks[i], g) {
      assert s.tasks[i].todo == [];
      OfNothing(g);
    }
    NoneInFlight(s.tasks, g);
    assert OfGroup(CandlesOf(s.log), g) + [] + [] == OfGroup(CandlesOf(s.log), g);
  }

  lemma ArrivedPushed(run: seq<Action>, key: string, pair: string, t: int)
    requires Execute(run).Some?
    requires var s := Execute(run).value; OfGroup(CandlesOf(s.log), pair + Itoa(t)) == OfGroup(s.received, pair + Itoa(t))
    requires forall k :: k in Arrived(Execute(run).value, key, t) ==> k.pairAddr == pair
    ensures var s := Execute(run).value; AtTime(PushesOf(s.log, key), t) == Arrived(s, key, t)
  {
    hide Execute, SeriesKey, OfGroup, PushesOf, InWindow, Itoa;
    var s, g := Execute(run).value, pair + Itoa(t);
    var keep := (k: Kline) => SeriesKey(k) == key && k.candleTime == t;
    forall k | k in s.received && keep(k) ensures GroupKey(k) == g {
      FilterMember(s.received, keep, k);
      assert k in Arrived(s, key, t);
    }
    RunInvariant(run);
    forall k | k in CandlesOf(s.log) ensures k in s.received {
      LoggedReceived(s, k);
    }
    FilterWithin(s.received, g, keep);
    FilterWithin(CandlesOf(s.log), g, keep);
    PushesInOrder(s.log, key, t);
  }

  lemma LoggedReceived(s: System, k: Kline)
    requires Inv(s) && k in CandlesOf(s.log)
    ensures k in s.received
  {
    hide LockInv, WellGrouped, Waiting, Todo;
    var i :| 0 <= i < |s.log| && CandlesOf(s.log)[i] == k;
    PushedMember(s.log, s.log[i]);
    assert Accounted(s, k);
    assert k in multiset(s.received);
  }

  /** In particular, candles that arrive in order are stored as their in-memory merge. */
  lemma ArrivedInOrderStoresFold(run: seq<Action>, key: string, pair: string, t: int)
    requires Execute(run).Some? && CleanSeries(Execute(run).value, key) && Drained(Execute(run).value)
    requires OneTick(run, pair + Itoa(t))
    ensures var s := Execute(run).value;
            var ks := Arrived(s, key, t);
            && Retained(PushesOf(s.log, key), t) && (forall k :: k in ks ==> k.pairAddr == pair)
            && ks != [] && ArriveInOrder(ks) ==>
              At(Get(s, key), t) == Some(Strip(Fold(ks)))
  {
    hide *;
    OneTickIsSerial(run, pair + Itoa(t));
    ArrivedCandle(run, key, pair, t);
    var ks := Arrived(Execute(run).value, key, t);
    if ks != [] && ArriveInOrder(ks) {
      InOrderFold(ks);
    }
  }
}
