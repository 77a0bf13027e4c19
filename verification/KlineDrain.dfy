/** The candle consumer can always finish: from every reachable state some steps lead to a drained one. */
module KlineDrain {
  import opened Wrappers
  import opened Klines
  import opened KlineCodec
  import opened SortedSet
  import opened KlineStore
  import opened KlineHistory
  import opened KlineWorkers

  function Rank(p: Phase): nat {
    match p
    case Idle => 0
    case Locked => 1
    case Looked(_) => 2
    case Cleared(_) => 3
    case Written => 4
    case Counted(_, _) => 5
  }

  /** The commands that a batch still needs. */
  function Work(t: Task): int { 6 * |t.todo| - Rank(t.phase) }

  /** The commands that all batches still need; a batch without candles needs none. */
  function TotalWork(tasks: seq<Task>): int {
    if tasks == [] then 0 else TotalWork(tasks[..|tasks| - 1]) + Work(tasks[|tasks| - 1])
  }

  lemma {:induction false} WorkUpdate(tasks: seq<Task>, i: nat, t: Task)
    requires i < |tasks|
    ensures TotalWork(tasks[i := t]) == TotalWork(tasks) - Work(tasks[i]) + Work(t)
  {
    hide Work;
    var n := |tasks| - 1;
    if i == n {
      assert tasks[i := t][..n] == tasks[..n];
    } else {
      WorkUpdate(tasks[..n], i, t);
      assert tasks[i := t][..n] == tasks[..n][i := t];
    }
  }

  lemma {:induction false} WorkNotNegative(tasks: seq<Task>)
    requires forall i :: 0 <= i < |tasks| ==> Work(tasks[i]) >= 0
    ensures TotalWork(tasks) >= 0
  {
    hide Work;
    if tasks == [] {
    } else {
      WorkNotNegative(tasks[..|tasks| - 1]);
    }
  }

  lemma ReachableWork(s: System)
    requires Inv(s)
    ensures TotalWork(s.tasks) >= 0
  {
    hide SeriesInv, Accounted, WellGrouped;
    forall i: nat | i < |s.tasks| ensures Work(s.tasks[i]) >= 0 {
      assert s.tasks[i].phase != Idle ==> HoldsLock(s, i);
    }
    WorkNotNegative(s.tasks);
  }

  /** The next command of the worker that holds a lock. */
  function NextCommand(s: System, i: nat): Action
    requires Busy(s, i)
  {
    match s.tasks[i].phase
    case Idle => Acquire(i)
    case Locked => LookUp(i)
    case Looked(found) =>
      if found == [] then Write(i) else if Decompress(found[0].member).None? then GiveUp(i) else Clear(i)
    case Cleared(_) => Write(i)
    case Written => Count(i, 0)
    case Counted(_, _) => CleanUp(i)
  }

  /** Without any lock held every idle batch can start; otherwise the holder of a lock can go on. */
  lemma SomeoneCanGoOn(s: System) returns (i: nat)
    requires Inv(s) && exists j :: 0 <= j < |s.tasks| && s.tasks[j].todo != []
    ensures Busy(s, i) && Enabled(s, NextCommand(s, i))
  {
    hide SeriesKey, Decompress, RangeByScore, RemoveByScore, PushSet, RunSet, PushesOf, Accounted, WellGrouped;
    if j: nat :| j < |s.tasks| && s.tasks[j].phase != Idle {
      i := j;
      assert HoldsLock(s, i);
    } else {
      var j: nat :| j < |s.tasks| && s.tasks[j].todo != [];
      i := j;
      assert SeriesInv(s, SeriesKey(s.tasks[i].todo[0]));
    }
  }

  lemma AdvanceWorks(s: System, i: nat, phase: Phase, z: ZSet)
    requires Busy(s, i) && Rank(phase) > Rank(s.tasks[i].phase)
    ensures var y := Advance(s, i, phase, z); y.groups == s.groups && TotalWork(y.tasks) < TotalWork(s.tasks)
  {
    hide SeriesKey, Rank;
    WorkUpdate(s.tasks, i, s.tasks[i].(phase := phase));
  }

  lemma FinishWorks(s: System, i: nat)
    requires Busy(s, i)
    ensures var y := Finish(s, i); y.groups == s.groups && TotalWork(y.tasks) < TotalWork(s.tasks)
  {
    WorkUpdate(s.tasks, i, Task(s.tasks[i].todo[1..], Idle));
  }

  lemma WriteWorks(s: System, i: nat)
    requires Enabled(s, Write(i)) && !Apply(s, Write(i)).crashed
    ensures var y := Apply(s, Write(i)); y.groups == s.groups && TotalWork(y.tasks) < TotalWork(s.tasks)
  {
    hide SeriesKey, Compress, Decompress, RangeByScore, RemoveByScore, Add, Merge, Advance, TotalWork;
    var k := s.tasks[i].todo[0];
    var z := Get(s, SeriesKey(k));
    match s.tasks[i].phase
    case Cleared(stored) =>
      assert Merge(stored, k).Some?;
      AdvanceWorks(s, i, Written, Add(z, k.candleTime, Compress(Merge(stored, k).value)));
    case _ => AdvanceWorks(s, i, Written, Add(z, k.candleTime, Compress(k)));
  }

  lemma CleanUpWorks(s: System, i: nat)
    requires Enabled(s, CleanUp(i))
    ensures var y := Apply(s, CleanUp(i)); y.groups == s.groups && TotalWork(y.tasks) < TotalWork(s.tasks)
  {
    hide SeriesKey, RangeByScore, RemoveByScore;
    CleanUpShape(s, i);
    FinishWorks(s, i);
  }

  lemma OtherCommandWorks(s: System, a: Action)
    requires Enabled(s, a) && (a.Acquire? || a.LookUp? || a.GiveUp? || a.Clear? || a.Count?)
    ensures var y := Apply(s, a); y.groups == s.groups && TotalWork(y.tasks) < TotalWork(s.tasks)
  {
    hide SeriesKey, Compress, Decompress, RangeByScore, RemoveByScore, Add, Merge, Advance, Finish, TotalWork;
    var i := a.i;
    var k := s.tasks[i].todo[0];
    var z := Get(s, SeriesKey(k));
    match a
    case Acquire(_) => AcquireWorks(s, i);
    case LookUp(_) => AdvanceWorks(s, i, Looked(RangeByScore(z, k.candleTime, k.candleTime)), z);
    case GiveUp(_) => FinishWorks(s, i);
    case Clear(_) =>
      AdvanceWorks(s, i, Cleared(Decompress(s.tasks[i].phase.found[0].member).value),
                   RemoveByScore(z, k.candleTime, k.candleTime));
    case Count(_, now) => AdvanceWorks(s, i, Counted(now, CountByScore(z, 0, Horizon(k.interval, now))), z);
    case _ =>
  }

  lemma AcquireWorks(s: System, i: nat)
    requires Enabled(s, Acquire(i))
    ensures var y := Apply(s, Acquire(i)); y.groups == s.groups && TotalWork(y.tasks) < TotalWork(s.tasks)
  {
    hide SeriesKey;
    WorkUpdate(s.tasks, i, s.tasks[i].(phase := Locked));
  }

  /** The command leaves the groups alone and less work. */
  lemma CommandWorks(s: System, i: nat)
    requires Inv(s) && Busy(s, i) && Enabled(s, NextCommand(s, i))
    ensures var y := Apply(s, NextCommand(s, i));
            y.groups == s.groups && TotalWork(y.tasks) < TotalWork(s.tasks)
  {
    hide Inv, Apply, Enabled, TotalWork, Decompress;
    var a := NextCommand(s, i);
    StepKeepsInv(s, a);
    NotCrashed(Apply(s, a));
    match a
    case Write(_) => WriteWorks(s, i);
    case CleanUp(_) => CleanUpWorks(s, i);
    case _ => OtherCommandWorks(s, a);
  }

  lemma NotCrashed(s: System)
    requires Inv(s)
    ensures !s.crashed
  {
  }

  lemma ExecuteNext(run: seq<Action>, a: Action)
    requires Execute(run).Some? && Enabled(Execute(run).value, a)
    ensures Execute(run + [a]) == Some(Apply(Execute(run).value, a))
  {
    assert (run + [a])[..|run|] == run;
  }

  ghost predicate NoTimeout(more: seq<Action>) { forall a :: a in more ==> !a.Timeout? && !a.Receive? && !a.Direct? }

  lemma {:induction false} FinishBatches(run: seq<Action>) returns (more: seq<Action>)
    requires Execute(run).Some? && Execute(run).value.groups == map[]
    ensures Execute(run + more).Some? && Drained(Execute(run + more).value) && NoTimeout(more)
    decreases TotalWork(Execute(run).value.tasks)
  {
    hide Apply, Enabled, Inv, Execute;
    var s := Execute(run).value;
    RunInvariant(run);
    ReachableWork(s);
    if exists j :: 0 <= j < |s.tasks| && s.tasks[j].todo != [] {
      var i := SomeoneCanGoOn(s);
      var a := NextCommand(s, i);
      CommandWorks(s, i);
      ExecuteNext(run, a);
      RunInvariant(run + [a]);
      ReachableWork(Execute(run + [a]).value);
      var rest := FinishBatches(run + [a]);
      more := [a] + rest;
      assert run + more == run + [a] + rest;
    } else {
      more := [];
      assert run + more == run;
    }
  }

  lemma {:induction false} SomeOrder(m: Groups) returns (order: seq<string>)
    ensures IsOrderOf(order, m)
    decreases |m|
  {
    if m == map[] {
      order := [];
    } else {
      var key :| key in m;
      var rest := SomeOrder(m - {key});
      order := rest + [key];
    }
  }

  /** Every run extends to a drained one in which nothing more arrives and no further push times out. */
  lemma CanDrain(run: seq<Action>) returns (more: seq<Action>)
    requires Execute(run).Some?
    ensures Execute(run + more).Some? && Drained(Execute(run + more).value) && NoTimeout(more)
  {
    hide Execute;
    var order := SomeOrder(Execute(run).value.groups);
    ExecuteNext(run, Tick(order));
    var rest := FinishBatches(run + [Tick(order)]);
    more := [Tick(order)] + rest;
    assert run + more == run + [Tick(order)] + rest;
  }
}
