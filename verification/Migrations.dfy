/** The migration runner: registered migrations run in name order, each recorded in a table once it succeeds. */
module Migrations {
  import opened SortedSet
  import opened Sequences

  // ---------------------------------------------------------------- sorted names

  predicate Sorted(names: seq<string>) {
    forall i, j :: 0 <= i < j < |names| ==> TextBefore(names[i], names[j])
  }

  /** The names of a set, each once, in increasing order. */
  ghost predicate Listing(names: seq<string>, all: set<string>) {
    Sorted(names) && forall n :: n in names <==> n in all
  }

  lemma {:induction false} TextTotal(a: string, b: string)
    ensures a == b || TextBefore(a, b) || TextBefore(b, a)
    ensures !(TextBefore(a, b) && TextBefore(b, a)) && !TextBefore(a, a)
  {
    if a != [] && b != [] {
      TextTotal(a[1..], b[1..]);
      assert a == [a[0]] + a[1..] && b == [b[0]] + b[1..];
      TextIrreflexive(a);
    } else if a != [] {
      TextIrreflexive(a);
    }
  }

  lemma {:induction false} TextIrreflexive(a: string)
    ensures !TextBefore(a, a)
  {
    if a == [] {
    } else {
      TextIrreflexive(a[1..]);
    }
  }

  lemma {:induction false} TextTransitive(a: string, b: string, c: string)
    requires TextBefore(a, b) && TextBefore(b, c)
    ensures TextBefore(a, c)
  {
    if a == [] || b[0] != a[0] || c[0] != b[0] {
    } else {
      TextTransitive(a[1..], b[1..], c[1..]);
    }
  }

  /** A set has one sorted listing, so the iteration order of the registry map cannot matter. */
  lemma {:induction false} ListingUnique(a: seq<string>, b: seq<string>, all: set<string>)
    requires Listing(a, all) && Listing(b, all)
    ensures a == b
  {
    assert a != [] ==> a[0] in all;
    assert b != [] ==> b[0] in all;
    if a != [] && b != [] {
      var i, j := IndexIn(a[0], b), IndexIn(b[0], a);
      TextTotal(a[0], b[0]);
      assert a[0] == b[0];
      ListingTail(a, all);
      ListingTail(b, all);
      ListingUnique(a[1..], b[1..], all - {a[0]});
    }
  }

  ghost function IndexIn(n: string, names: seq<string>): (i: nat)
    requires n in names
    ensures i < |names| && names[i] == n
  {
    var i :| 0 <= i < |names| && names[i] == n;
    i
  }

  lemma ListingTail(a: seq<string>, all: set<string>)
    requires Listing(a, all) && a != []
    ensures Listing(a[1..], all - {a[0]})
  {
    forall n ensures n in a[1..] <==> n in all - {a[0]} {
      TextIrreflexive(a[0]);
      assert a == [a[0]] + a[1..];
    }
  }

  /** One step of sort.Strings: a name goes to its place. */
  function Placed(names: seq<string>, n: string): seq<string> {
    if names == [] || TextBefore(n, names[0]) then [n] + names else [names[0]] + Placed(names[1..], n)
  }

  lemma {:induction false} PlacedMember(names: seq<string>, n: string, x: string)
    ensures x in Placed(names, n) <==> x in names || x == n
  {
    if names == [] || TextBefore(n, names[0]) {
    } else {
      PlacedMember(names[1..], n, x);
      assert names == [names[0]] + names[1..];
    }
  }

  lemma {:induction false} PlacedSorted(names: seq<string>, n: string)
    requires Sorted(names) && n !in names
    ensures Sorted(Placed(names, n))
  {
    if names == [] {
    } else {
      if TextBefore(n, names[0]) {
        forall i | 0 <= i < |names| ensures TextBefore(n, names[i]) {
          if i > 0 { TextTransitive(n, names[0], names[i]); }
        }
      } else {
        PlacedSorted(names[1..], n);
        TextTotal(n, names[0]);
        var rest := Placed(names[1..], n);
        forall i | 0 <= i < |rest| ensures TextBefore(names[0], rest[i]) {
          PlacedMember(names[1..], n, rest[i]);
        }
      }
    }
  }

  /** Collecting the keys of the registry and sorting them. */
  method SortedNames(registered: set<string>) returns (names: seq<string>)
    ensures Listing(names, registered)
  {
    names := [];
    var left := registered;
    while left != {}
      invariant left <= registered && Listing(names, registered - left)
      decreases left
    {
      var n :| n in left;
      PlacedSorted(names, n);
      forall x ensures x in Placed(names, n) <==> x in registered - (left - {n}) {
        PlacedMember(names, n, x);
      }
      names, left := Placed(names, n), left - {n};
    }
  }

  // ---------------------------------------------------------------- one run

  datatype Outcome = Failed | Unrecorded | Recorded

  datatype Attempt = Attempt(name: string, outcome: Outcome)

  /** What the database does in one run: setting up fails, migrations that fail, records that cannot be written. */
  datatype Weather = Weather(setupFails: bool, failing: set<string>, unrecordable: set<string>)

  function OutcomeOf(w: Weather, name: string): Outcome {
    if name in w.failing then Failed else if name in w.unrecordable then Unrecorded else Recorded
  }

  /** The attempts of one run over the sorted names. */
  function Attempts(names: seq<string>, executed: set<string>, w: Weather): seq<Attempt> {
    if names == [] then []
    else if names[0] in executed then Attempts(names[1..], executed, w)
    else
      var a := Attempt(names[0], OutcomeOf(w, names[0]));
      [a] + if a.outcome == Recorded then Attempts(names[1..], executed, w) else []
  }

  function RecordedIn(attempts: seq<Attempt>): set<string> {
    set a | a in attempts && a.outcome == Recorded :: a.name
  }

  function Unrun(names: seq<string>, executed: set<string>): seq<string> {
    Filter(names, n => n !in executed)
  }

  /** A run attempts exactly the unrecorded names in order, up to and including the first that fails to run or
      to be recorded. */
  ghost predicate AttemptsInOrder(attempts: seq<Attempt>, todo: seq<string>, w: Weather) {
    && |attempts| <= |todo|
    && (forall i :: 0 <= i < |attempts| ==> attempts[i] == Attempt(todo[i], OutcomeOf(w, todo[i])))
    && (forall i :: 0 <= i < |attempts| - 1 ==> attempts[i].outcome == Recorded)
    && (|attempts| < |todo| ==> attempts != [] && attempts[|attempts| - 1].outcome != Recorded)
  }

  lemma {:induction false} RunAttempts(names: seq<string>, executed: set<string>, w: Weather)
    ensures AttemptsInOrder(Attempts(names, executed, w), Unrun(names, executed), w)
  {
    hide AttemptsInOrder, OutcomeOf;
    if names == [] {
      assert AttemptsInOrder([], [], w) by { NoAttempts(w); }
    } else {
      RunAttempts(names[1..], executed, w);
      var later := Unrun(names[1..], executed);
      if names[0] in executed {
        assert Unrun(names, executed) == [] + later == later;
      } else {
        assert Unrun(names, executed) == [names[0]] + later;
        FirstAttempt(names[0], Attempts(names[1..], executed, w), later, w);
      }
    }
  }

  lemma NoAttempts(w: Weather)
    ensures AttemptsInOrder([], [], w)
  {
  }

  lemma FirstAttempt(name: string, rest: seq<Attempt>, later: seq<string>, w: Weather)
    requires AttemptsInOrder(rest, later, w)
    ensures var a := Attempt(name, OutcomeOf(w, name));
            AttemptsInOrder([a] + if a.outcome == Recorded then rest else [], [name] + later, w)
  {
  }

  /** A run that can write its records goes through exactly when nothing unrecorded fails, and then records it all. */
  lemma {:induction false} GoesThroughIff(names: seq<string>, executed: set<string>, w: Weather)
    ensures var attempts := Attempts(names, executed, w);
            && (Stops(attempts) <==> exists n :: n in names && n !in executed && OutcomeOf(w, n) != Recorded)
            && (!Stops(attempts) ==> forall n :: n in RecordedIn(attempts) <==> n in names && n !in executed)
  {
    hide OutcomeOf;
    if names == [] {
    } else {
      var first, later := names[0], names[1..];
      GoesThroughIff(later, executed, w);
      assert names == [first] + later;
      var rest := Attempts(later, executed, w);
      if first !in executed {
        var a := Attempt(first, OutcomeOf(w, first));
        RecordedCons(a, rest);
        assert a.outcome == Recorded ==> Attempts(names, executed, w) == [a] + rest;
        assert rest != [] ==> ([a] + rest)[|rest|] == rest[|rest| - 1];
      }
    }
  }

  lemma FinishesIff(names: seq<string>, registered: set<string>, executed: set<string>, w: Weather)
    requires Listing(names, registered)
    ensures var attempts := Attempts(names, executed, w);
            && (!Stops(attempts) <==>
                forall n :: n in registered && n !in executed ==> n !in w.failing && n !in w.unrecordable)
            && (!Stops(attempts) ==> executed + RecordedIn(attempts) == executed + registered)
  {
    hide Attempts, Stops, RecordedIn;
    GoesThroughIff(names, executed, w);
  }

  function Stops(attempts: seq<Attempt>): bool {
    attempts != [] && attempts[|attempts| - 1].outcome != Recorded
  }

  lemma StopsSnoc(attempts: seq<Attempt>, a: Attempt)
    ensures Stops(attempts + [a]) <==> a.outcome != Recorded
    ensures !Stops([])
  {
  }

  /** The migration registry and the migrations table, with the history of attempts. */
  class Runner {
    var registered: set<string>
    var executed: set<string>
    var history: seq<Attempt>

    constructor ()
      ensures registered == {} && executed == {} && history == []
    {
      registered, executed, history := {}, {}, [];
    }

    /** registerMigration: the last registration of a name stays. */
    method Register(name: string)
      modifies this`registered
      ensures registered == old(registered) + {name}
    {
      registered := registered + {name};
    }

    method RunMigrations(w: Weather) returns (ok: bool, names: seq<string>)
      modifies this`executed, this`history
      ensures Listing(names, registered)
      ensures w.setupFails ==> !ok && executed == old(executed) && history == old(history)
      ensures !w.setupFails ==>
        var attempts := Attempts(names, old(executed), w);
        && AttemptsInOrder(attempts, Unrun(names, old(executed)), w)
        && history == old(history) + attempts
        && executed == old(executed) + RecordedIn(attempts)
        && ok == !Stops(attempts)
      ensures ok <==> !w.setupFails && forall n :: n in registered && n !in old(executed) ==> n !in w.failing && n !in w.unrecordable
      ensures ok ==> executed == old(executed) + registered
      ensures Store(executed, history) == AfterStart(Store(old(executed), old(history)), Start(names, w))
    {
      hide AttemptsInOrder, Unrun, RecordedIn, OutcomeOf, Listing, Attempts, Stops;
      names := SortedNames(registered);
      if w.setupFails { return false, names; }
      var done := executed;
      FinishesIff(names, registered, done, w);
      ghost var attempts: seq<Attempt> := [];
      RunAttempts(names, done, w);
      NothingRecorded();
      StopsSnoc([], Attempt("", Recorded));
      assert names[0..] == names;
      var i := 0;
      while i < |names|
        invariant 0 <= i <= |names|
        invariant done == old(executed) && executed == done + RecordedIn(attempts)
        invariant history == old(history) + attempts
        invariant attempts + Attempts(names[i..], done, w) == Attempts(names, done, w)
        invariant !Stops(attempts)
      {
        var name := names[i];
        assert names[i..] == [name] + names[i + 1..];
        AttemptsCons(name, names[i + 1..], done, w);
        if name !in done {
          var a := Attempt(name, OutcomeOf(w, name));
          history := history + [a];
          assert history == old(history) + (attempts + [a]);
          RecordedSnoc(attempts, a);
          StopsSnoc(attempts, a);
          assert attempts + ([a] + Attempts(names[i + 1..], done, w)) == attempts + [a] + Attempts(names[i + 1..], done, w);
          attempts := attempts + [a];
          if a.outcome != Recorded {
            assert attempts == Attempts(names, done, w);
            return false, names;
          }
          executed := executed + {name};
        }
        i := i + 1;
      }
      assert names[i..] == [];
      AttemptsCons("", [], done, w);
      assert attempts == Attempts(names, done, w);
      ok := true;
    }
  }

  lemma NothingRecorded()
    ensures RecordedIn([]) == {}
  {
  }

  lemma RecordedSnoc(attempts: seq<Attempt>, a: Attempt)
    ensures RecordedIn(attempts + [a]) == RecordedIn(attempts) + if a.outcome == Recorded then {a.name} else {}
  {
    forall n ensures n in RecordedIn(attempts + [a]) <==>
        n in RecordedIn(attempts) + if a.outcome == Recorded then {a.name} else {} {
      if n in RecordedIn(attempts + [a]) {
        var x :| x in attempts + [a] && x.outcome == Recorded && x.name == n;
        assert x in attempts || x == a;
      }
      if n in RecordedIn(attempts) {
        var x :| x in attempts && x.outcome == Recorded && x.name == n;
        assert x in attempts + [a];
      }
      assert a in attempts + [a];
    }
  }

  // ---------------------------------------------------------------- many runs

  datatype Store = Store(executed: set<string>, history: seq<Attempt>)

  /** The migrations of one start of the program, in sorted order, and what the database does to it. */
  datatype Start = Start(names: seq<string>, weather: Weather)

  function AfterStart(s: Store, start: Start): Store {
    if start.weather.setupFails then s
    else
      var attempts := Attempts(start.names, s.executed, start.weather);
      Store(s.executed + RecordedIn(attempts), s.history + attempts)
  }

  function AfterStarts(s: Store, starts: seq<Start>): Store {
    if starts == [] then s else AfterStart(AfterStarts(s, starts[..|starts| - 1]), starts[|starts| - 1])
  }

  function CountOf(history: seq<Attempt>, name: string, outcome: Outcome): nat {
    multiset(history)[Attempt(name, outcome)]
  }

  /** How often a migration ran without an error. */
  function Successes(history: seq<Attempt>, name: string): nat {
    CountOf(history, name, Recorded) + CountOf(history, name, Unrecorded)
  }

  ghost predicate EachSorted(starts: seq<Start>) { forall s :: s in starts ==> Sorted(s.names) }

  lemma AttemptsCons(first: string, later: seq<string>, executed: set<string>, w: Weather)
    ensures Attempts([first] + later, executed, w) ==
            if first in executed then Attempts(later, executed, w)
            else
              var a := Attempt(first, OutcomeOf(w, first));
              [a] + if a.outcome == Recorded then Attempts(later, executed, w) else []
    ensures Attempts([], executed, w) == []
  {
    hide OutcomeOf;
    assert ([first] + later)[1..] == later;
  }

  lemma {:induction false} AttemptsOnce(names: seq<string>, executed: set<string>, w: Weather, name: string)
    requires Sorted(names)
    ensures var attempts := Attempts(names, executed, w);
            && CountOf(attempts, name, Recorded) == (if name in RecordedIn(attempts) then 1 else 0)
            && (name in executed ==> name !in RecordedIn(attempts))
            && forall a :: a in attempts ==> a.name in names && a.name !in executed
  {
    hide Attempts, OutcomeOf, RecordedIn;
    if names == [] {
      AttemptsCons("", [], executed, w);
      NothingRecorded();
    } else {
      var first, later := names[0], names[1..];
      AttemptsOnce(later, executed, w, name);
      AttemptsCons(first, later, executed, w);
      assert names == [first] + later;
      FirstNotLater(first, later);
      var rest, a := Attempts(later, executed, w), Attempt(first, OutcomeOf(w, first));
      RecordedCons(a, rest);
      RecordedCons(a, []);
      RecordedMember(rest, first);
    }
  }

  lemma FirstNotLater(first: string, later: seq<string>)
    requires Sorted([first] + later)
    ensures first !in later
  {
    var names := [first] + later;
    if first in later {
      var i :| 0 <= i < |later| && later[i] == first;
      assert TextBefore(names[0], names[i + 1]);
      TextIrreflexive(first);
    }
  }

  lemma RecordedMember(attempts: seq<Attempt>, name: string)
    ensures name in RecordedIn(attempts) ==> exists a :: a in attempts && a.name == name
  {
  }

  lemma RecordedCons(a: Attempt, rest: seq<Attempt>)
    ensures RecordedIn([a] + rest) == (if a.outcome == Recorded then {a.name} else {}) + RecordedIn(rest)
    ensures RecordedIn([]) == {}
  {
    assert forall x :: x in [a] + rest <==> x == a || x in rest;
    assert a in [a] + rest;
  }

  /** Over any number of starts, whatever is registered in each and however each is disturbed: a migration is
      recorded exactly when one of its attempts was, and recorded at most once. */
  lemma {:induction false} RecordedOnce(starts: seq<Start>, name: string)
    requires EachSorted(starts)
    ensures var s := AfterStarts(Store({}, []), starts);
            CountOf(s.history, name, Recorded) == if name in s.executed then 1 else 0
  {
    if starts == [] {
    } else {
      var front, last := starts[..|starts| - 1], starts[|starts| - 1];
      RecordedOnce(front, name);
      var s := AfterStarts(Store({}, []), front);
      AttemptsOnce(last.names, s.executed, last.weather, name);
    }
  }

  // ---------------------------------------------------------------- when a migration succeeds

  /** In a run over these names the migration is reached and does not fail: it is not recorded yet, and every
      unrecorded name before it succeeds and is recorded. */
  predicate Succeeds(names: seq<string>, executed: set<string>, w: Weather, name: string) {
    && name in names && name !in executed && name !in w.failing
    && forall n :: n in names && TextBefore(n, name) && n !in executed ==> n !in w.failing && n !in w.unrecordable
  }

  lemma {:induction false} AttemptsCount(names: seq<string>, executed: set<string>, w: Weather, name: string)
    requires Sorted(names)
    ensures var attempts := Attempts(names, executed, w);
            && CountOf(attempts, name, Recorded)
               == (if Succeeds(names, executed, w, name) && name !in w.unrecordable then 1 else 0)
            && CountOf(attempts, name, Unrecorded)
               == (if Succeeds(names, executed, w, name) && name in w.unrecordable then 1 else 0)
  {
    if names == [] {
    } else {
      var first, later := names[0], names[1..];
      AttemptsCount(later, executed, w, name);
      SucceedsCons(first, later, executed, w, name);
      var rest := Attempts(later, executed, w);
      assert names == [first] + later;
      if first !in executed {
        var a := Attempt(first, OutcomeOf(w, first));
        assert Attempts(names, executed, w) == [a] + if a.outcome == Recorded then rest else [];
      }
    }
  }

  /** Whether the migration succeeds, from the first name and the rest. */
  lemma SucceedsCons(first: string, later: seq<string>, executed: set<string>, w: Weather, name: string)
    requires Sorted([first] + later)
    ensures Succeeds([first] + later, executed, w, name) <==>
              if first == name then name !in executed && name !in w.failing
              else Succeeds(later, executed, w, name)
                   && (first in executed || (first !in w.failing && first !in w.unrecordable))
    ensures first == name ==> !Succeeds(later, executed, w, name)
  {
    var names := [first] + later;
    assert names[0] == first;
    forall n | n in later ensures TextBefore(first, n) && !TextBefore(n, first) && n != first {
      var i :| 0 <= i < |later| && later[i] == n;
      assert names[i + 1] == n;
      TextTotal(first, n);
    }
    TextIrreflexive(first);
  }

  /** The migration succeeds in this start, which finds the names in the table recorded. */
  predicate RunsIn(start: Start, table: set<string>, name: string) {
    !start.weather.setupFails && Succeeds(start.names, table, start.weather, name)
  }

  /** The migrations table after some starts, from what the starts register and the database does. */
  function Table(starts: seq<Start>): set<string> {
    if starts == [] then {}
    else
      var table, last := Table(starts[..|starts| - 1]), starts[|starts| - 1];
      table + set n | n in last.names && RunsIn(last, table, n) && n !in last.weather.unrecordable
  }

  /** The migration succeeds in the i-th start. */
  predicate RunsAt(starts: seq<Start>, i: int, name: string)
    requires 0 <= i < |starts|
  {
    RunsIn(starts[i], Table(starts[..i]), name)
  }

  function CountRuns(starts: seq<Start>, name: string): nat {
    if starts == [] then 0
    else
      var front := starts[..|starts| - 1];
      CountRuns(front, name) + if RunsIn(starts[|starts| - 1], Table(front), name) then 1 else 0
  }

  lemma {:induction false} TableIsExecuted(starts: seq<Start>)
    requires EachSorted(starts)
    ensures AfterStarts(Store({}, []), starts).executed == Table(starts)
  {
    hide Succeeds, Attempts, RecordedIn;
    if starts == [] {
    } else {
      var front, last := starts[..|starts| - 1], starts[|starts| - 1];
      TableIsExecuted(front);
      var table := Table(front);
      var attempts := Attempts(last.names, table, last.weather);
      forall n ensures n in RecordedIn(attempts) <==>
          Succeeds(last.names, table, last.weather, n) && n !in last.weather.unrecordable {
        AttemptsOnce(last.names, table, last.weather, n);
        AttemptsCount(last.names, table, last.weather, n);
      }
      forall n | Succeeds(last.names, table, last.weather, n) ensures n in last.names {
        SucceedsListed(last.names, table, last.weather, n);
      }
    }
  }

  lemma SucceedsListed(names: seq<string>, executed: set<string>, w: Weather, name: string)
    requires Succeeds(names, executed, w, name)
    ensures name in names && name !in executed
  {
  }

  lemma {:induction false} SuccessesAreRuns(starts: seq<Start>, name: string)
    requires EachSorted(starts)
    ensures Successes(AfterStarts(Store({}, []), starts).history, name) == CountRuns(starts, name)
  {
    hide Succeeds, Attempts, RecordedIn, Table;
    if starts == [] {
    } else {
      var front, last := starts[..|starts| - 1], starts[|starts| - 1];
      SuccessesAreRuns(front, name);
      TableIsExecuted(front);
      AttemptsCount(last.names, Table(front), last.weather, name);
    }
  }

  lemma {:induction false} RunsCounted(starts: seq<Start>, name: string)
    ensures CountRuns(starts, name) == 0 <==> forall i :: 0 <= i < |starts| ==> !RunsAt(starts, i, name)
    ensures CountRuns(starts, name) <= 1 <==>
            forall i, j :: 0 <= i < j < |starts| ==> !(RunsAt(starts, i, name) && RunsAt(starts, j, name))
  {
    hide RunsIn, Table;
    if starts == [] {
    } else {
      var n := |starts| - 1;
      var front := starts[..n];
      RunsCounted(front, name);
      forall i | 0 <= i < n ensures RunsAt(starts, i, name) <==> RunsAt(front, i, name) {
        assert front[..i] == starts[..i];
      }
      assert RunsAt(starts, n, name) <==> RunsIn(starts[n], Table(front), name);
    }
  }

  lemma {:induction false} TableGrows(starts: seq<Start>, i: nat, j: nat)
    requires i <= j <= |starts|
    ensures Table(starts[..i]) <= Table(starts[..j])
    decreases j
  {
    hide RunsIn;
    if i == j {
    } else {
      TableGrows(starts, i, j - 1);
      assert starts[..j][..j - 1] == starts[..j - 1];
    }
  }

  /** A start in which a migration succeeds again comes after one that could not record its success. */
  lemma RunsAgainUnrecorded(starts: seq<Start>, name: string, i: nat, j: nat)
    requires i < j < |starts| && RunsAt(starts, i, name) && RunsAt(starts, j, name)
    ensures name in starts[i].weather.unrecordable
  {
    TableGrows(starts, i + 1, j);
    assert starts[..i + 1][..i] == starts[..i] && starts[..i + 1][i] == starts[i];
  }

  /** A migration succeeds at most once exactly when no two starts run it: both find it unrecorded, not failing,
      and nothing before it in the way. That never happens while its success can be recorded. */
  lemma SucceedsAtMostOnceIff(starts: seq<Start>, name: string)
    requires EachSorted(starts)
    ensures var s := AfterStarts(Store({}, []), starts);
            && Successes(s.history, name) == (if name in s.executed then 1 else 0) + CountOf(s.history, name, Unrecorded)
            && (Successes(s.history, name) <= 1 <==>
                forall i, j :: 0 <= i < j < |starts| ==> !(RunsAt(starts, i, name) && RunsAt(starts, j, name)))
            && ((forall x :: x in starts ==> name !in x.weather.unrecordable) ==> Successes(s.history, name) <= 1)
  {
    hide RunsAt, CountRuns, AfterStarts;
    RecordedOnce(starts, name);
    SuccessesAreRuns(starts, name);
    RunsCounted(starts, name);
    forall i, j | 0 <= i < j < |starts| && RunsAt(starts, i, name) && RunsAt(starts, j, name)
      ensures starts[i] in starts && name in starts[i].weather.unrecordable
    {
      RunsAgainUnrecorded(starts, name, i, j);
    }
  }

  /** A success that cannot be recorded is repeated by the next start. */
  lemma UnrecordedSuccessRepeats()
    ensures var starts := [Start(["m"], Weather(false, {}, {"m"})), Start(["m"], Weather(false, {}, {}))];
            Successes(AfterStarts(Store({}, []), starts).history, "m") == 2
  {
    var starts := [Start(["m"], Weather(false, {}, {"m"})), Start(["m"], Weather(false, {}, {}))];
    var first := [Attempt("m", Unrecorded)];
    assert ["m"][1..] == [];
    assert Attempts(["m"], {}, starts[0].weather) == first;
    assert RecordedIn(first) == {};
    assert Attempts(["m"], {}, starts[1].weather) == [Attempt("m", Recorded)];
    assert starts[..1][..0] == [] && starts[..1][0] == starts[0];
    assert AfterStarts(Store({}, []), []) == Store({}, []);
    assert AfterStarts(Store({}, []), starts[..1]) == Store({}, first);
  }

  // ---------------------------------------------------------------- resuming

  function Elements(names: seq<string>): set<string> { set n | n in names }

  /** The names that succeeded, in the order they did. */
  function SucceededNames(history: seq<Attempt>): seq<string> {
    if history == [] then []
    else SucceededNames(history[..|history| - 1])
         + if history[|history| - 1].outcome == Failed then [] else [history[|history| - 1].name]
  }

  lemma SucceededSnoc(history: seq<Attempt>, a: Attempt)
    ensures SucceededNames(history + [a]) == SucceededNames(history) + if a.outcome == Failed then [] else [a.name]
    ensures SucceededNames([]) == []
  {
    assert (history + [a])[..|history|] == history;
  }

  lemma {:induction false} SucceededConcat(a: seq<Attempt>, b: seq<Attempt>)
    ensures SucceededNames(a + b) == SucceededNames(a) + SucceededNames(b)
  {
    hide SucceededNames;
    if b == [] {
      assert a + b == a;
      SucceededSnoc([], Attempt("", Failed));
    } else {
      var front, last := b[..|b| - 1], b[|b| - 1];
      SucceededConcat(a, front);
      SucceededSnoc(front, last);
      SucceededSnoc(a + front, last);
      assert b == front + [last] && a + b == (a + front) + [last];
    }
  }

  lemma {:induction false} AllRecorded(attempts: seq<Attempt>, todo: seq<string>)
    requires |attempts| <= |todo| && forall i :: 0 <= i < |attempts| ==> attempts[i] == Attempt(todo[i], Recorded)
    ensures SucceededNames(attempts) == todo[..|attempts|]
    ensures RecordedIn(attempts) == Elements(todo[..|attempts|])
  {
    if attempts == [] {
      assert RecordedIn(attempts) == {};
    } else {
      var n := |attempts| - 1;
      AllRecorded(attempts[..n], todo);
      assert attempts == attempts[..n] + [attempts[n]] && todo[..n + 1] == todo[..n] + [todo[n]];
      RecordedSnoc(attempts[..n], attempts[n]);
    }
  }

  /** The successes of a run whose records can all be written are a prefix of what was to do. */
  lemma PrefixSucceeds(attempts: seq<Attempt>, todo: seq<string>, w: Weather) returns (j: nat)
    requires AttemptsInOrder(attempts, todo, w) && w.unrecordable == {}
    ensures j <= |todo| && SucceededNames(attempts) == todo[..j] && RecordedIn(attempts) == Elements(todo[..j])
    ensures w.failing == {} ==> j == |todo|
  {
    j := |attempts|;
    if Stops(attempts) {
      j := j - 1;
      assert attempts == attempts[..j] + [attempts[j]];
      RecordedSnoc(attempts[..j], attempts[j]);
    }
    AllRecorded(attempts[..j], todo);
    assert !Stops(attempts) ==> attempts[..j] == attempts;
  }

  lemma {:induction false} FilterSorted(names: seq<string>, keep: string -> bool)
    requires Sorted(names)
    ensures Sorted(Filter(names, keep))
  {
    if names == [] {
    } else {
      var rest := Filter(names[1..], keep);
      FilterSorted(names[1..], keep);
      forall i | 0 <= i < |rest| ensures TextBefore(names[0], rest[i]) {
        FilterMember(names[1..], keep, rest[i]);
      }
    }
  }

  lemma {:induction false} UnrunFurther(names: seq<string>, executed: set<string>, more: set<string>)
    ensures Unrun(names, executed + more) == Filter(Unrun(names, executed), n => n !in more)
  {
    if names == [] {
    } else {
      UnrunFurther(names[1..], executed, more);
      var keep := (n: string) => n !in more;
      var later := Unrun(names[1..], executed);
      assert names[0] !in executed ==> ([names[0]] + later)[1..] == later;
      assert names[0] in executed ==> [] + later == later;
    }
  }

  /** Once a prefix of what was to do is recorded, the rest is to do. */
  lemma RestIsUnrun(names: seq<string>, executed: set<string>, j: nat)
    requires Sorted(names) && j <= |Unrun(names, executed)|
    ensures var todo := Unrun(names, executed);
            Unrun(names, executed + Elements(todo[..j])) == todo[j..]
  {
    var todo := Unrun(names, executed);
    var done := Elements(todo[..j]);
    var keep := (n: string) => n !in done;
    UnrunFurther(names, executed, done);
    assert todo == todo[..j] + todo[j..];
    FilterConcat(todo[..j], todo[j..], keep);
    FilterNone(todo[..j], keep);
    FilterSorted(names, n => n !in executed);
    forall n | n in todo[j..] ensures keep(n) {
      TextIrreflexive(n);
    }
    FilterIdempotent(todo[j..], keep);
  }

  /** One start that can write its records, whatever is registered and whatever was recorded: what succeeds is,
      in order, a prefix of what was to do, and the rest is still to do; without a failure that is all of it. */
  lemma StartResumes(s: Store, start: Start) returns (k: nat)
    requires Sorted(start.names) && start.weather.unrecordable == {}
    ensures var todo, r := Unrun(start.names, s.executed), AfterStart(s, start);
            && k <= |todo|
            && SucceededNames(r.history) == SucceededNames(s.history) + todo[..k]
            && r.executed == s.executed + Elements(todo[..k])
            && Unrun(start.names, r.executed) == todo[k..]
            && (!start.weather.setupFails && start.weather.failing == {} ==> k == |todo|)
  {
    hide Attempts, AttemptsInOrder, SucceededNames, RecordedIn, Unrun;
    k := 0;
    if !start.weather.setupFails {
      var attempts := Attempts(start.names, s.executed, start.weather);
      RunAttempts(start.names, s.executed, start.weather);
      k := PrefixSucceeds(attempts, Unrun(start.names, s.executed), start.weather);
      SucceededConcat(s.history, attempts);
      RestIsUnrun(start.names, s.executed, k);
    }
  }

  /** Over any number of such starts with one registry, however often migrations fail: what succeeded is, in
      order, a prefix of what was to do at the beginning, and the rest is still to do. */
  lemma {:induction false} StartsResume(s: Store, starts: seq<Start>, names: seq<string>) returns (k: nat)
    requires Sorted(names)
    requires forall x :: x in starts ==> x.names == names && x.weather.unrecordable == {}
    ensures var todo, r := Unrun(names, s.executed), AfterStarts(s, starts);
            && k <= |todo|
            && SucceededNames(r.history) == SucceededNames(s.history) + todo[..k]
            && r.executed == s.executed + Elements(todo[..k])
            && Unrun(names, r.executed) == todo[k..]
    ensures starts != [] && !starts[|starts| - 1].weather.setupFails && starts[|starts| - 1].weather.failing == {} ==>
              k == |Unrun(names, s.executed)|
  {
    hide AfterStart, SucceededNames, Unrun;
    if starts == [] {
      k := 0;
    } else {
      var todo, last := Unrun(names, s.executed), starts[|starts| - 1];
      k := StartsResume(s, starts[..|starts| - 1], names);
      var j := StartResumes(AfterStarts(s, starts[..|starts| - 1]), last);
      assert todo[..k + j] == todo[..k] + todo[k..][..j];
      k := k + j;
    }
  }

  /** With one registry, a failure-free start after any disturbed ones completes the job: every migration that
      was to do has succeeded exactly once, in name order. */
  lemma OneRegistryCompletes(s: Store, starts: seq<Start>, names: seq<string>)
    requires Sorted(names) && starts != []
    requires forall x :: x in starts ==> x.names == names && x.weather.unrecordable == {}
    requires !starts[|starts| - 1].weather.setupFails && starts[|starts| - 1].weather.failing == {}
    ensures var r := AfterStarts(s, starts);
            && SucceededNames(r.history) == SucceededNames(s.history) + Unrun(names, s.executed)
            && r.executed == s.executed + Elements(names)
  {
    var k := StartsResume(s, starts, names);
    var r, todo := AfterStarts(s, starts), Unrun(names, s.executed);
    assert todo[..k] == todo;
    forall n ensures n in todo <==> n in names && n !in s.executed {
      FilterMember(names, n => n !in s.executed, n);
    }
  }

  /** Releases may register other migrations in every start: after a failure-free last start all its names are
      recorded and a further start has nothing to attempt, it went through what was to do in name order, and
      every migration has succeeded exactly once or, if it is not recorded, never. */
  lemma FailureFreeStartCompletes(starts: seq<Start>, name: string, w: Weather)
    requires EachSorted(starts) && starts != []
    requires forall x :: x in starts ==> x.weather.unrecordable == {}
    requires !starts[|starts| - 1].weather.setupFails && starts[|starts| - 1].weather.failing == {}
    ensures var before := AfterStarts(Store({}, []), starts[..|starts| - 1]);
            var r, names := AfterStarts(Store({}, []), starts), starts[|starts| - 1].names;
            && (forall n :: n in names ==> n in r.executed)
            && Attempts(names, r.executed, w) == []
            && SucceededNames(r.history) == SucceededNames(before.history) + Unrun(names, before.executed)
            && Successes(r.history, name) == if name in r.executed then 1 else 0
  {
    hide SucceededNames, Attempts, AfterStart, Unrun;
    var last := starts[|starts| - 1];
    var before := AfterStarts(Store({}, []), starts[..|starts| - 1]);
    var r, todo := AfterStarts(Store({}, []), starts), Unrun(last.names, before.executed);
    var k := StartResumes(before, last);
    assert todo[..k] == todo && todo[k..] == [];
    NothingUnrun(last.names, r.executed);
    RunAttempts(last.names, r.executed, w);
    RecordedOnce(starts, name);
    NeverUnrecorded(starts, name);
  }

  lemma NothingUnrun(names: seq<string>, executed: set<string>)
    requires Unrun(names, executed) == []
    ensures forall n :: n in names ==> n in executed
  {
    forall n | n in names ensures n in executed {
      FilterMember(names, n => n !in executed, n);
    }
  }

  lemma {:induction false} NeverUnrecorded(starts: seq<Start>, name: string)
    requires EachSorted(starts) && forall x :: x in starts ==> x.weather.unrecordable == {}
    ensures CountOf(AfterStarts(Store({}, []), starts).history, name, Unrecorded) == 0
  {
    hide Attempts, Succeeds;
    if starts == [] {
    } else {
      var front, last := starts[..|starts| - 1], starts[|starts| - 1];
      NeverUnrecorded(front, name);
      AttemptsCount(last.names, AfterStarts(Store({}, []), front).executed, last.weather, name);
    }
  }
}
