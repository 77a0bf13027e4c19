/** The sharded, deduplicating trade writer: one table a day, rows keyed on hash, pair and type. */
module TradeWriter {
  import opened Calendar
  import opened Wrappers
  import opened Strings
  import opened Sequences

  // ---------------------------------------------------------------- tables

  /** %02d for what a month or a day can be. */
  function TwoDigits(n: nat): string { if n < 10 then "0" + Digits(n) else Digits(n) }

  /** getShardTableNameByTime for the trade table. */
  function TableName(d: Date): string {
    "trade_" + Itoa(d.year) + "_" + TwoDigits(d.month) + "_" + TwoDigits(d.day)
  }

  lemma DigitsNext(n: nat)
    requires n >= 10
    ensures Digits(n) == Digits(n / 10) + [DigitChar(n % 10)]
  {
  }

  lemma YearText()
    ensures Digits(2024) == "2024" && Digits(2025) == "2025"
  {
    assert Digits(2) == "2";
    hide Digits;
    DigitsNext(20);
    DigitsNext(202);
    DigitsNext(2024);
    DigitsNext(2025);
  }

  lemma MonthText()
    ensures TwoDigits(1) == "01" && TwoDigits(3) == "03" && TwoDigits(9) == "09"
    ensures TwoDigits(10) == "10" && TwoDigits(12) == "12" && TwoDigits(30) == "30"
  {
    assert Digits(1) == "1" && Digits(3) == "3" && Digits(9) == "9";
    hide Digits;
    DigitsNext(10);
    DigitsNext(12);
    DigitsNext(30);
  }

  lemma TableNameText()
    ensures TableName(Date(2024, 12, 3)) == "trade_2024_12_03" && TableName(Date(2025, 1, 30)) == "trade_2025_01_30"
    ensures TableName(Date(2025, 10, 9)) == "trade_2025_10_09" && TableName(Date(2025, 9, 10)) == "trade_2025_09_10"
  {
    hide TwoDigits, Digits;
    YearText();
    MonthText();
  }

  lemma TwoDigitsInjective(m: nat, n: nat)
    requires m < 100 && n < 100
    ensures '_' !in TwoDigits(m)
    ensures TwoDigits(m) == TwoDigits(n) ==> m == n
  {
    hide Digits;
    DigitsRoundTrip(m);
    DigitsRoundTrip(n);
    LeadingZero(Digits(m));
    LeadingZero(Digits(n));
    assert m < 10 ==> TwoDigits(m)[1..] == Digits(m);
    assert forall c :: c in TwoDigits(m) ==> IsDigit(c);
    assert AllDigits(TwoDigits(m));
  }

  lemma {:induction false} LeadingZero(s: string)
    requires AllDigits(s)
    ensures AllDigits("0" + s) && DigitsValue("0" + s) == DigitsValue(s)
  {
    if s != [] {
      var front := s[..|s| - 1];
      LeadingZero(front);
      assert ("0" + s)[..|s|] == "0" + front;
    } else {
      assert ("0" + s)[..0] == [];
    }
  }

  /** Different days have different tables. */
  lemma TableNameInjective(a: Date, b: Date)
    requires ValidDate(a) && ValidDate(b)
    ensures TableName(a) == TableName(b) <==> a == b
  {
    hide TwoDigits, Itoa;
    if TableName(a) == TableName(b) {
      TwoDigitsInjective(a.day, b.day);
      TwoDigitsInjective(b.day, a.day);
      TwoDigitsInjective(a.month, b.month);
      TwoDigitsInjective(b.month, a.month);
      var p, q := "trade_" + Itoa(a.year), "trade_" + Itoa(b.year);
      LastSeparator(p + "_" + TwoDigits(a.month), TwoDigits(a.day), q + "_" + TwoDigits(b.month), TwoDigits(b.day), '_');
      LastSeparator(p, TwoDigits(a.month), q, TwoDigits(b.month), '_');
      assert p[6..] == Itoa(a.year) && q[6..] == Itoa(b.year);
      ItoaRoundTrip(a.year);
      ItoaRoundTrip(b.year);
    }
  }

  // ---------------------------------------------------------------- trades and their keys

  /** A trade row; details stands for the columns that the writer does not look at. */
  datatype Trade = Trade(txHash: string, pairAddr: string, tradeType: string, blockDate: Date, details: string)

  function TradeKey(t: Trade): string { t.txHash + "#" + t.pairAddr + "#" + t.tradeType }

  predicate SameTrade(a: Trade, b: Trade) {
    a.txHash == b.txHash && a.pairAddr == b.pairAddr && a.tradeType == b.tradeType
  }

  predicate CleanKey(t: Trade) { '#' !in t.txHash && '#' !in t.pairAddr }

  /** The joined key identifies hash, pair and type when hash and pair contain no separator. */
  lemma TradeKeyInjective(a: Trade, b: Trade)
    requires CleanKey(a) && CleanKey(b)
    ensures TradeKey(a) == TradeKey(b) <==> SameTrade(a, b)
  {
    if TradeKey(a) == TradeKey(b) {
      var x, y := a.pairAddr + "#" + a.tradeType, b.pairAddr + "#" + b.tradeType;
      assert TradeKey(a) == a.txHash + ['#'] + x && TradeKey(b) == b.txHash + ['#'] + y;
      FirstSeparator(a.txHash, x, b.txHash, y, '#');
      FirstSeparator(a.pairAddr, a.tradeType, b.pairAddr, b.tradeType, '#');
    }
  }

  lemma TradeKeyText()
    ensures TradeKey(Trade("h", "p", "buy", Date(2025, 1, 30), "")) == "h#p#buy"
  {
  }

  lemma SplitKey(t: Trade)
    ensures Split(TradeKey(t), '#') == Split(t.txHash, '#') + Split(t.pairAddr, '#') + Split(t.tradeType, '#')
  {
    var rest := t.pairAddr + ['#'] + t.tradeType;
    assert TradeKey(t) == t.txHash + ['#'] + rest;
    SplitAtSeparator(t.txHash, rest, '#');
    SplitAtSeparator(t.pairAddr, t.tradeType, '#');
  }

  /** A trade without a separator shares its key with no other trade, separators or not. */
  lemma PlainKeyUnique(a: Trade, b: Trade)
    requires '#' !in a.txHash && '#' !in a.pairAddr && '#' !in a.tradeType && TradeKey(a) == TradeKey(b)
    ensures SameTrade(a, b)
  {
    SplitKey(a);
    SplitKey(b);
    SplitWhole(a.txHash, '#');
    SplitWhole(a.pairAddr, '#');
    SplitWhole(a.tradeType, '#');
    SplitWhole(b.txHash, '#');
    SplitWhole(b.pairAddr, '#');
    SplitWhole(b.tradeType, '#');
    var parts := [a.txHash] + [a.pairAddr] + [a.tradeType];
    assert |Split(b.txHash, '#')| + |Split(b.pairAddr, '#')| + |Split(b.tradeType, '#')| == |parts|;
    assert [b.txHash] + [b.pairAddr] + [b.tradeType] == parts;
    assert parts[0] == b.txHash && parts[1] == b.pairAddr && parts[2] == b.tradeType;
  }

  lemma CutAt(s: string) returns (p: string, q: string)
    requires '#' in s
    ensures s == p + "#" + q
  {
    var i :| 0 <= i < |s| && s[i] == '#';
    p, q := s[..i], s[i + 1..];
  }

  /** A trade with a separator shares its key with one that is cut elsewhere. */
  lemma SeparatorCollides(a: Trade) returns (b: Trade)
    requires '#' in a.txHash || '#' in a.pairAddr || '#' in a.tradeType
    ensures TradeKey(a) == TradeKey(b) && !SameTrade(a, b)
  {
    if '#' in a.txHash {
      var p, q := CutAt(a.txHash);
      b := a.(txHash := p, pairAddr := q + "#" + a.pairAddr);
      assert |b.txHash| < |a.txHash|;
    } else if '#' in a.pairAddr {
      var p, q := CutAt(a.pairAddr);
      b := a.(txHash := a.txHash + "#" + p, pairAddr := q);
      assert |b.pairAddr| < |a.pairAddr|;
    } else {
      var p, q := CutAt(a.tradeType);
      b := a.(pairAddr := a.pairAddr + "#" + p, tradeType := q);
      assert |b.tradeType| < |a.tradeType|;
    }
  }

  /** The joined key tells a trade from every other one exactly when none of its three parts has a separator. */
  lemma TradeKeyIdentifiesIff(a: Trade)
    ensures (forall b :: TradeKey(b) == TradeKey(a) ==> SameTrade(a, b)) <==>
            '#' !in a.txHash && '#' !in a.pairAddr && '#' !in a.tradeType
  {
    hide TradeKey;
    if '#' !in a.txHash && '#' !in a.pairAddr && '#' !in a.tradeType {
      forall b | TradeKey(b) == TradeKey(a) ensures SameTrade(a, b) {
        PlainKeyUnique(a, b);
      }
    } else {
      var b := SeparatorCollides(a);
    }
  }

  /** With a separator inside, two different trades can share a key. */
  lemma TradeKeyCollision(d: Date)
    ensures TradeKey(Trade("a#b", "c", "buy", d, "")) == TradeKey(Trade("a", "b#c", "buy", d, ""))
  {
  }

  function TableOf(t: Trade): string { TableName(t.blockDate) }

  // ---------------------------------------------------------------- the in-place filter

  /** The trades whose key is not seen yet, each key once, in order. */
  function KeepNew(group: seq<Trade>, seen: set<string>): seq<Trade> {
    if group == [] then []
    else if TradeKey(group[0]) in seen then KeepNew(group[1..], seen)
    else [group[0]] + KeepNew(group[1..], seen + {TradeKey(group[0])})
  }

  ghost predicate DistinctKeys(rows: seq<Trade>) {
    forall i, j :: 0 <= i < j < |rows| ==> TradeKey(rows[i]) != TradeKey(rows[j])
  }

  ghost predicate HasKey(rows: seq<Trade>, key: string) { exists r :: r in rows && TradeKey(r) == key }

  /** The filter writes kept elements over the front of the slice it is still reading, and that is safe: the
      read position never falls behind the write position. */
  method FilterInPlace(group: array<Trade>, have: set<string>) returns (kept: nat)
    modifies group
    ensures kept <= group.Length
    ensures group[..kept] == KeepNew(old(group[..]), have)
  {
    hide TradeKey, KeepNew;
    ghost var was := group[..];
    ghost var front: seq<Trade> := [];
    var seen := have;
    kept := 0;
    var i := 0;
    KeepNewStart(was, have);
    while i < group.Length
      invariant 0 <= kept <= i <= group.Length
      invariant forall j :: i <= j < group.Length ==> group[j] == was[j]
      invariant group[..kept] == front
      invariant front + KeepNew(was[i..], seen) == KeepNew(was, have)
    {
      var t := group[i];
      KeepNewStep(was, i, seen, front);
      if TradeKey(t) !in seen {
        seen := seen + {TradeKey(t)};
        front := front + [t];
        group[kept] := t;
        kept := kept + 1;
        assert group[..kept] == group[..kept - 1] + [t];
      }
      i := i + 1;
    }
    KeepNewEnd(was, i, seen, front);
  }

  lemma KeepNewStart(group: seq<Trade>, seen: set<string>)
    ensures [] + KeepNew(group[0..], seen) == KeepNew(group, seen)
  {
    hide KeepNew;
    assert group[0..] == group;
  }

  lemma KeepNewStep(group: seq<Trade>, i: nat, seen: set<string>, front: seq<Trade>)
    requires i < |group|
    ensures front + KeepNew(group[i..], seen) ==
            if TradeKey(group[i]) in seen then front + KeepNew(group[i + 1..], seen)
            else (front + [group[i]]) + KeepNew(group[i + 1..], seen + {TradeKey(group[i])})
  {
    hide TradeKey, KeepNew;
    KeepNewCons(group, i, seen);
  }

  lemma KeepNewEnd(group: seq<Trade>, i: nat, seen: set<string>, front: seq<Trade>)
    requires i == |group|
    ensures front + KeepNew(group[i..], seen) == front
  {
    assert group[i..] == [];
    KeepNewNone(seen);
  }

  lemma KeepNewNone(seen: set<string>)
    ensures KeepNew([], seen) == []
  {
  }

  lemma KeepNewCons(group: seq<Trade>, i: nat, seen: set<string>)
    requires i < |group|
    ensures KeepNew(group[i..], seen) ==
            if TradeKey(group[i]) in seen then KeepNew(group[i + 1..], seen)
            else [group[i]] + KeepNew(group[i + 1..], seen + {TradeKey(group[i])})
  {
    hide TradeKey;
    assert group[i..][1..] == group[i + 1..];
  }

  lemma {:induction false} KeepNewMember(group: seq<Trade>, seen: set<string>, t: Trade)
    requires t in KeepNew(group, seen)
    ensures t in group && TradeKey(t) !in seen
  {
    hide TradeKey;
    if TradeKey(group[0]) in seen {
      KeepNewMember(group[1..], seen, t);
    } else if t != group[0] {
      KeepNewMember(group[1..], seen + {TradeKey(group[0])}, t);
    }
  }

  lemma {:induction false} KeepNewDistinct(group: seq<Trade>, seen: set<string>)
    ensures DistinctKeys(KeepNew(group, seen))
  {
    hide TradeKey;
    if group == [] {
    } else {
      if TradeKey(group[0]) in seen {
        KeepNewDistinct(group[1..], seen);
      } else {
        var more := seen + {TradeKey(group[0])};
        var rest := KeepNew(group[1..], more);
        KeepNewDistinct(group[1..], more);
        forall t | t in rest ensures TradeKey(t) != TradeKey(group[0]) {
          KeepNewMember(group[1..], more, t);
        }
      }
    }
  }

  lemma {:induction false} KeepNewComplete(group: seq<Trade>, seen: set<string>, t: Trade)
    requires t in group
    ensures TradeKey(t) in seen || HasKey(KeepNew(group, seen), TradeKey(t))
  {
    hide TradeKey;
    if TradeKey(group[0]) in seen {
      if t != group[0] {
        KeepNewComplete(group[1..], seen, t);
      }
    } else {
      var more := seen + {TradeKey(group[0])};
      assert group[0] in KeepNew(group, seen);
      if TradeKey(t) != TradeKey(group[0]) {
        KeepNewComplete(group[1..], more, t);
        if HasKey(KeepNew(group[1..], more), TradeKey(t)) {
          var r :| r in KeepNew(group[1..], more) && TradeKey(r) == TradeKey(t);
          assert r in KeepNew(group, seen);
        }
      }
    }
  }

  function KeysOf(group: seq<Trade>): set<string> { set t | t in group :: TradeKey(t) }

  /** The filter keeps the order: what it keeps of a later part follows what it keeps of an earlier one. */
  lemma {:induction false} KeepNewConcat(a: seq<Trade>, b: seq<Trade>, seen: set<string>)
    ensures KeepNew(a + b, seen) == KeepNew(a, seen) + KeepNew(b, seen + KeysOf(a))
  {
    hide TradeKey;
    if a == [] {
      assert a + b == b && seen + KeysOf(a) == seen;
    } else {
      var key := TradeKey(a[0]);
      assert (a + b)[1..] == a[1..] + b && (a + b)[0] == a[0];
      assert a == [a[0]] + a[1..];
      assert KeysOf(a) == {key} + KeysOf(a[1..]);
      if key in seen {
        KeepNewConcat(a[1..], b, seen);
        assert seen + KeysOf(a[1..]) == seen + KeysOf(a);
      } else {
        KeepNewConcat(a[1..], b, seen + {key});
        assert seen + {key} + KeysOf(a[1..]) == seen + KeysOf(a);
      }
    }
  }

  // ---------------------------------------------------------------- one table of one call

  /** How the insertion into a table goes. A failed insertion inserts nothing. */
  datatype Insertion = Inserted | Deadlock(retryInserts: bool) | Failed

  /** What the database does for one table of one call. */
  datatype Response = Response(tableReady: bool, readSucceeds: bool, insertion: Insertion)

  datatype Verdict = Continue | ReturnNil | ReturnError

  /** The keys read back: of the stored rows that share a hash with the group; nothing when the read fails. */
  function SeenKeys(rows: seq<Trade>, group: seq<Trade>, readSucceeds: bool): set<string> {
    if !readSucceeds then {}
    else set r | r in rows && (exists t :: t in group && t.txHash == r.txHash) :: TradeKey(r)
  }

  function NewRows(rows: seq<Trade>, group: seq<Trade>, w: Response): seq<Trade> {
    KeepNew(group, SeenKeys(rows, group, w.readSucceeds))
  }

  function TableVerdict(rows: seq<Trade>, group: seq<Trade>, w: Response): Verdict {
    if !w.tableReady then ReturnError
    else if NewRows(rows, group, w) == [] then Continue
    else
      match w.insertion
      case Inserted => Continue
      case Deadlock(retryInserts) => if retryInserts then ReturnNil else ReturnError
      case Failed => ReturnError
  }

  predicate Inserts(w: Response) { w.tableReady && (w.insertion == Inserted || w.insertion == Deadlock(true)) }

  function TableRows(rows: seq<Trade>, group: seq<Trade>, w: Response): seq<Trade> {
    if Inserts(w) then rows + NewRows(rows, group, w)
    else rows
  }

  // ---------------------------------------------------------------- one call

  type Tables = map<string, seq<Trade>>

  function Rows(tables: Tables, name: string): seq<Trade> { if name in tables then tables[name] else [] }

  /** The trades of one table, in the order given. */
  function Group(trades: seq<Trade>, name: string): seq<Trade> {
    if trades == [] then []
    else Group(trades[..|trades| - 1], name) + if TableOf(trades[|trades| - 1]) == name then [trades[|trades| - 1]] else []
  }

  datatype Outcome = Outcome(tables: Tables, verdict: Verdict, handled: nat)

  /** The tables of one call in the order in which the map happens to be ranged over. */
  function Process(tables: Tables, trades: seq<Trade>, order: seq<string>, world: string -> Response): Outcome {
    if order == [] then Outcome(tables, Continue, 0)
    else
      var front := Process(tables, trades, order[..|order| - 1], world);
      if front.verdict != Continue then front
      else
        var name := order[|order| - 1];
        var rows, group := Rows(front.tables, name), Group(trades, name);
        Outcome(front.tables[name := TableRows(rows, group, world(name))],
                TableVerdict(rows, group, world(name)), front.handled + 1)
  }

  lemma ProcessNone(tables: Tables, trades: seq<Trade>, world: string -> Response)
    ensures Process(tables, trades, [], world) == Outcome(tables, Continue, 0)
  {
  }

  lemma ProcessNext(tables: Tables, trades: seq<Trade>, order: seq<string>, name: string, world: string -> Response)
    requires Process(tables, trades, order, world).verdict == Continue
    ensures var front := Process(tables, trades, order, world);
            var rows, group := Rows(front.tables, name), Group(trades, name);
            Process(tables, trades, order + [name], world)
            == Outcome(front.tables[name := TableRows(rows, group, world(name))],
                       TableVerdict(rows, group, world(name)), front.handled + 1)
  {
    hide TableRows, TableVerdict, Group, Rows;
    assert (order + [name])[..|order|] == order;
  }

  lemma RowsUpdate(tables: Tables, name: string, rows: seq<Trade>, other: string)
    ensures Rows(tables[name := rows], other) == if other == name then rows else Rows(tables, other)
  {
  }

  predicate Distinct(order: seq<string>) { forall i, j :: 0 <= i < j < |order| ==> order[i] != order[j] }

  /** order lists the tables of the trades, each once. */
  ghost predicate IsTableOrder(order: seq<string>, trades: seq<Trade>) {
    && Distinct(order)
    && (forall name :: name in order <==> exists t :: t in trades && TableOf(t) == name)
  }

  class TradeModel {
    var tables: Tables

    constructor ()
      ensures tables == map[]
    {
      tables := map[];
    }

    /** The groups of a call, by table. */
    method GroupByTable(trades: seq<Trade>) returns (groups: map<string, seq<Trade>>)
      ensures forall name :: name in groups <==> exists t :: t in trades && TableOf(t) == name
      ensures forall name :: name in groups ==> groups[name] == Group(trades, name)
    {
      hide TableOf, Group;
      groups := map[];
      var i := 0;
      forall name ensures Group([], name) == [] {
        GroupNone(name);
      }
      assert trades[..0] == [];
      while i < |trades|
        invariant 0 <= i <= |trades|
        invariant forall name :: name in groups <==> Group(trades[..i], name) != []
        invariant forall name :: name in groups ==> groups[name] == Group(trades[..i], name)
      {
        var name := TableOf(trades[i]);
        forall other ensures Group(trades[..i + 1], other)
            == Group(trades[..i], other) + if name == other then [trades[i]] else [] {
          GroupSnoc(trades, i, other);
        }
        groups := groups[name := (if name in groups then groups[name] else []) + [trades[i]]];
        i := i + 1;
      }
      assert trades[..i] == trades;
      forall name ensures Group(trades, name) != [] <==> exists t :: t in trades && TableOf(t) == name {
        GroupNonempty(trades, name);
      }
    }

    /** BatchInsertTrades: true is a nil error. `handled` counts the tables reached before returning. */
    method BatchInsertTrades(trades: seq<Trade>, world: string -> Response)
      returns (ok: bool, ghost order: seq<string>, handled: nat)
      modifies this
      ensures IsTableOrder(order, trades)
      ensures var outcome := Process(old(tables), trades, order, world);
              && ok == (outcome.verdict != ReturnError)
              && handled == outcome.handled
              && forall name :: Rows(tables, name) == Rows(outcome.tables, name)
    {
      hide TableOf, Process, Rows, Group, TableRows, TableVerdict;
      order, handled, ok := [], 0, true;
      assert Process(tables, trades, [], world) == Outcome(tables, Continue, 0) by { ProcessNone(tables, trades, world); }
      if |trades| == 0 {
        return;
      }
      var groups := GroupByTable(trades);
      var remaining := groups.Keys;
      ghost var was := tables;
      while remaining != {}
        invariant remaining <= groups.Keys
        invariant forall i, j :: 0 <= i < j < |order| ==> order[i] != order[j]
        invariant forall name :: name in order <==> name in groups.Keys - remaining
        invariant Process(was, trades, order, world).verdict == Continue
        invariant Process(was, trades, order, world).handled == handled
        invariant forall name :: Rows(tables, name) == Rows(Process(was, trades, order, world).tables, name)
        decreases remaining
      {
        var name :| name in remaining;
        assert name !in order;
        ghost var front := Process(was, trades, order, world).tables;
        ProcessNext(was, trades, order, name, world);
        order, remaining := order + [name], remaining - {name};
        var verdict := InsertGroup(name, groups[name], world(name));
        handled := handled + 1;
        forall other ensures Rows(tables, other) == Rows(Process(was, trades, order, world).tables, other) {
          RowsUpdate(front, name, TableRows(Rows(front, name), Group(trades, name), world(name)), other);
        }
        if verdict != Continue {
          ok := verdict == ReturnNil;
          order := CompleteOrder(was, trades, order, remaining, world);
          return;
        }
      }
    }

    /** One table: read the relevant keys back, filter in place, insert what is new. */
    method InsertGroup(name: string, trades: seq<Trade>, w: Response) returns (verdict: Verdict)
      modifies this
      ensures verdict == TableVerdict(old(Rows(tables, name)), trades, w)
      ensures Rows(tables, name) == TableRows(old(Rows(tables, name)), trades, w)
      ensures forall other :: other != name ==> Rows(tables, other) == old(Rows(tables, other))
    {
      if !w.tableReady {
        return ReturnError;
      }
      var rows := Rows(tables, name);
      var seen := SeenKeys(rows, trades, w.readSucceeds);
      var group := new Trade[|trades|](i requires 0 <= i < |trades| => trades[i]);
      assert group[..] == trades;
      var kept := FilterInPlace(group, seen);
      if kept == 0 {
        return Continue;
      }
      match w.insertion
      case Inserted =>
        tables := tables[name := rows + group[..kept]];
        return Continue;
      case Deadlock(retryInserts) =>
        if retryInserts {
          tables := tables[name := rows + group[..kept]];
          return ReturnNil;
        }
        return ReturnError;
      case Failed =>
        return ReturnError;
    }

    /** FindOneByTxHashWithTime, when the queries succeed. */
    method FindOneByTxHash(txHash: string, created: Date) returns (found: Option<Trade>)
      ensures found == FirstWithHash(Candidates(tables, created), txHash)
    {
      hide TableName, NextDay;
      var day := created;
      FirstWithHashConcat(Rows(tables, TableName(created)), Rows(tables, TableName(NextDay(created))), txHash);
      for i := 0 to 2
        invariant day == if i == 0 then created else if i == 1 then NextDay(created) else NextDay(NextDay(created))
        invariant i > 0 ==> FirstWithHash(Rows(tables, TableName(created)), txHash) == None
        invariant i > 1 ==> FirstWithHash(Rows(tables, TableName(NextDay(created))), txHash) == None
      {
        found := FirstInTable(Rows(tables, TableName(day)), txHash);
        if found.Some? { return; }
        day := NextDay(day);
      }
      found := None;
    }
  }

  lemma GroupNone(name: string)
    ensures Group([], name) == []
  {
  }

  lemma GroupSnoc(trades: seq<Trade>, i: nat, name: string)
    requires i < |trades|
    ensures Group(trades[..i + 1], name)
            == Group(trades[..i], name) + if TableOf(trades[i]) == name then [trades[i]] else []
  {
    hide TableOf;
    assert trades[..i + 1][..i] == trades[..i];
  }

  lemma {:induction false} GroupNonempty(trades: seq<Trade>, name: string)
    ensures Group(trades, name) != [] <==> exists t :: t in trades && TableOf(t) == name
  {
    hide TableOf;
    if trades == [] {
    } else {
      var front, last := trades[..|trades| - 1], trades[|trades| - 1];
      GroupNonempty(front, name);
      assert trades == front + [last];
      assert last in trades;
    }
  }

  /** After an early return the remaining tables can be listed in any order: they are not touched. */
  lemma CompleteOrder(tables: Tables, trades: seq<Trade>, order: seq<string>, remaining: set<string>, world: string -> Response)
      returns (full: seq<string>)
    requires Process(tables, trades, order, world).verdict != Continue
    requires forall i, j :: 0 <= i < j < |order| ==> order[i] != order[j]
    requires forall name :: name in remaining ==> name !in order
    ensures Process(tables, trades, full, world) == Process(tables, trades, order, world)
    ensures forall i, j :: 0 <= i < j < |full| ==> full[i] != full[j]
    ensures forall name :: name in full <==> name in order || name in remaining
    decreases remaining
  {
    hide TableOf, TableVerdict, TableRows, Group;
    if remaining == {} {
      full := order;
    } else {
      var name :| name in remaining;
      var longer := order + [name];
      assert longer[..|order|] == order;
      full := CompleteOrder(tables, trades, longer, remaining - {name}, world);
    }
  }

  // ---------------------------------------------------------------- what a call keeps and what it stores

  /** A table of one day: clean rows of that day, no key twice. */
  ghost predicate RowsOk(rows: seq<Trade>, name: string) {
    DistinctKeys(rows) && CleanKeys(rows) && forall r :: r in rows ==> TableOf(r) == name
  }

  ghost predicate TablesOk(tables: Tables) { forall name :: RowsOk(Rows(tables, name), name) }

  ghost predicate CleanKeys(trades: seq<Trade>) { forall t :: t in trades ==> CleanKey(t) }

  ghost predicate ReadsSucceed(world: string -> Response) { forall name :: world(name).readSucceeds }

  lemma {:induction false} GroupMember(trades: seq<Trade>, name: string, t: Trade)
    ensures t in Group(trades, name) <==> t in trades && TableOf(t) == name
  {
    hide TableOf;
    if trades == [] {
    } else {
      var front, last := trades[..|trades| - 1], trades[|trades| - 1];
      GroupMember(front, name, t);
      assert trades == front + [last];
    }
  }

  /** A table's group is the call's trades of that day, in the order given. */
  lemma {:induction false} GroupIsFilter(trades: seq<Trade>, name: string)
    ensures Group(trades, name) == Filter(trades, (t: Trade) => TableOf(t) == name)
  {
    hide TableOf;
    if trades == [] {
    } else {
      var front, last := trades[..|trades| - 1], trades[|trades| - 1];
      GroupIsFilter(front, name);
      FilterSnoc(front, last, (t: Trade) => TableOf(t) == name);
      assert trades == front + [last];
    }
  }

  /** Looking only at rows that share a hash with the group misses no stored key of the group. */
  lemma SeenKeysExact(rows: seq<Trade>, group: seq<Trade>, t: Trade)
    requires CleanKeys(rows) && CleanKeys(group) && t in group
    ensures TradeKey(t) in SeenKeys(rows, group, true) <==> HasKey(rows, TradeKey(t))
  {
    hide TradeKey;
    if HasKey(rows, TradeKey(t)) {
      var r :| r in rows && TradeKey(r) == TradeKey(t);
      TradeKeyInjective(r, t);
      assert TradeKey(r) in SeenKeys(rows, group, true);
    }
  }

  lemma SeenKeysStored(rows: seq<Trade>, group: seq<Trade>, readSucceeds: bool, key: string)
    requires key in SeenKeys(rows, group, readSucceeds)
    ensures HasKey(rows, key)
  {
    hide TradeKey;
  }

  /** One table of one call, its read failing or not: rows are only appended, only from the group, and all of
      the group is stored unless the table fails. */
  lemma TableStep(rows: seq<Trade>, group: seq<Trade>, w: Response)
    ensures rows <= TableRows(rows, group, w)
    ensures forall r :: r in TableRows(rows, group, w) ==> r in rows || r in group
    ensures TableVerdict(rows, group, w) != ReturnError ==>
              forall t :: t in group ==> HasKey(TableRows(rows, group, w), TradeKey(t))
  {
    hide TradeKey, KeepNew, SeenKeys, HasKey;
    var seen := SeenKeys(rows, group, w.readSucceeds);
    var added := KeepNew(group, seen);
    forall t | t in added ensures t in group {
      KeepNewMember(group, seen, t);
    }
    if TableVerdict(rows, group, w) != ReturnError {
      forall t | t in group ensures HasKey(TableRows(rows, group, w), TradeKey(t)) {
        KeepNewComplete(group, seen, t);
        if TradeKey(t) in seen {
          SeenKeysStored(rows, group, w.readSucceeds, TradeKey(t));
        }
        NoKeyInNothing(TradeKey(t));
        StillHasKey(rows, added, TradeKey(t));
      }
    }
  }

  /** A table that is not ready, or an insertion that fails, leaves the rows alone; otherwise the new trades follow
      the old rows. */
  lemma TableRowsIs(rows: seq<Trade>, group: seq<Trade>, w: Response)
    ensures !w.tableReady || w.insertion == Failed || w.insertion == Deadlock(false) ==> TableRows(rows, group, w) == rows
    ensures w.tableReady && (w.insertion == Inserted || w.insertion == Deadlock(true)) ==>
              TableRows(rows, group, w) == rows + KeepNew(group, SeenKeys(rows, group, w.readSucceeds))
  {
    hide KeepNew, SeenKeys;
  }

  lemma NoKeyInNothing(key: string)
    ensures !HasKey([], key)
  {
  }

  lemma AppendDistinct(rows: seq<Trade>, added: seq<Trade>)
    requires DistinctKeys(rows) && DistinctKeys(added)
    requires forall t :: t in added ==> !HasKey(rows, TradeKey(t))
    ensures DistinctKeys(rows + added)
  {
    hide TradeKey;
    forall i, j | 0 <= i < j < |rows + added| ensures TradeKey((rows + added)[i]) != TradeKey((rows + added)[j]) {
      if i < |rows| <= j {
        assert rows[i] in rows && added[j - |rows|] in added;
      }
    }
  }

  lemma StillHasKey(rows: seq<Trade>, added: seq<Trade>, key: string)
    ensures HasKey(rows, key) || HasKey(added, key) ==> HasKey(rows + added, key)
    ensures added == [] ==> rows + added == rows
  {
    if HasKey(rows, key) {
      var r :| r in rows && TradeKey(r) == key;
      assert r in rows + added;
    }
    if HasKey(added, key) {
      var r :| r in added && TradeKey(r) == key;
      assert r in rows + added;
    }
  }

  ghost predicate GroupStored(tables: Tables, trades: seq<Trade>, name: string) {
    forall t :: t in trades && TableOf(t) == name ==> HasKey(Rows(tables, name), TradeKey(t))
  }

  /** How a table that is reached with its initial rows turns out. */
  function VerdictOf(tables: Tables, trades: seq<Trade>, name: string, world: string -> Response): Verdict {
    TableVerdict(Rows(tables, name), Group(trades, name), world(name))
  }

  /** Every trade of this table was read back: the read succeeded and found its key in a row that shares a hash
      with the group. */
  ghost predicate AllReadBack(tables: Tables, trades: seq<Trade>, name: string, world: string -> Response) {
    forall t :: t in trades && TableOf(t) == name ==>
      world(name).readSucceeds && exists r :: r in Rows(tables, name) && TradeKey(r) == TradeKey(t) && SharesHash(r, trades, name)
  }

  ghost predicate SharesHash(r: Trade, trades: seq<Trade>, name: string) {
    exists u :: u in trades && TableOf(u) == name && u.txHash == r.txHash
  }

  /** The table is ready, and nothing of it is new or the insertion succeeds at once. */
  ghost predicate GoesOn(tables: Tables, trades: seq<Trade>, name: string, world: string -> Response) {
    world(name).tableReady && (AllReadBack(tables, trades, name, world) || world(name).insertion == Inserted)
  }

  /** The table is ready, something of it is new, and inserting it hits a deadlock whose retry succeeds. */
  ghost predicate Retried(tables: Tables, trades: seq<Trade>, name: string, world: string -> Response) {
    world(name).tableReady && !AllReadBack(tables, trades, name, world) && world(name).insertion == Deadlock(true)
  }

  /** Every table before the j-th lets the call go on. */
  ghost predicate Reached(tables: Tables, trades: seq<Trade>, order: seq<string>, world: string -> Response, j: int)
    requires j <= |order|
  {
    forall i :: 0 <= i < j ==> GoesOn(tables, trades, order[i], world)
  }

  /** Nothing is left to insert exactly when everything was read back. */
  lemma NewRowsIff(tables: Tables, trades: seq<Trade>, name: string, world: string -> Response)
    ensures NewRows(Rows(tables, name), Group(trades, name), world(name)) == [] <==>
            AllReadBack(tables, trades, name, world)
  {
    hide TradeKey, TableOf, KeepNew, Group, Rows;
    var rows, group, w := Rows(tables, name), Group(trades, name), world(name);
    var seen := SeenKeys(rows, group, w.readSucceeds);
    forall t ensures t in group <==> t in trades && TableOf(t) == name {
      GroupMember(trades, name, t);
    }
    if KeepNew(group, seen) == [] {
      forall t | t in group ensures TradeKey(t) in seen {
        KeepNewComplete(group, seen, t);
        NoKeyInNothing(TradeKey(t));
      }
    } else {
      KeepNewMember(group, seen, KeepNew(group, seen)[0]);
    }
  }

  /** When a table lets the call go on, and when it ends it with nil. */
  lemma VerdictIs(tables: Tables, trades: seq<Trade>, name: string, world: string -> Response)
    ensures VerdictOf(tables, trades, name, world) == Continue <==> GoesOn(tables, trades, name, world)
    ensures VerdictOf(tables, trades, name, world) == ReturnNil <==> Retried(tables, trades, name, world)
  {
    hide AllReadBack, NewRows, Group, Rows;
    NewRowsIff(tables, trades, name, world);
  }

  /** o tells which tables a call reaches, what it leaves in them and how it ends, in terms of those it found. */
  ghost predicate Accounts(o: Outcome, tables: Tables, trades: seq<Trade>, order: seq<string>, world: string -> Response) {
    && o.handled <= |order|
    && (forall j :: 0 <= j < |order| ==> (j < o.handled <==> Reached(tables, trades, order, world, j)))
    && (o.verdict == Continue <==> Reached(tables, trades, order, world, |order|))
    && (o.verdict != Continue ==> o.handled > 0 && o.verdict == VerdictOf(tables, trades, order[o.handled - 1], world))
    && (forall j :: 0 <= j < o.handled ==>
          Rows(o.tables, order[j]) == TableRows(Rows(tables, order[j]), Group(trades, order[j]), world(order[j])))
    && (forall name :: name !in order[..o.handled] ==> Rows(o.tables, name) == Rows(tables, name))
  }

  lemma ReachedPrefix(tables: Tables, trades: seq<Trade>, order: seq<string>, name: string, world: string -> Response)
    ensures forall j :: 0 <= j <= |order| ==>
              (Reached(tables, trades, order + [name], world, j) <==> Reached(tables, trades, order, world, j))
  {
    hide GoesOn;
    var longer := order + [name];
    assert forall i :: 0 <= i < |order| ==> longer[i] == order[i];
  }

  lemma ReachedLast(tables: Tables, trades: seq<Trade>, order: seq<string>, name: string, world: string -> Response)
    ensures Reached(tables, trades, order + [name], world, |order| + 1) <==>
            Reached(tables, trades, order, world, |order|) && GoesOn(tables, trades, name, world)
  {
    hide GoesOn;
    var longer := order + [name];
    assert longer[|order|] == name && forall i :: 0 <= i < |order| ==> longer[i] == order[i];
  }

  /** Every table of a call that went on to the end has been visited, and the next one is new. */
  lemma AllVisited(o: Outcome, tables: Tables, trades: seq<Trade>, order: seq<string>, name: string, world: string -> Response)
    requires Distinct(order + [name]) && Accounts(o, tables, trades, order, world) && o.verdict == Continue
    ensures o.handled == |order| && name !in order && Rows(o.tables, name) == Rows(tables, name)
    ensures Reached(tables, trades, order, world, |order|)
    ensures forall j :: 0 <= j < |order| ==>
              Reached(tables, trades, order, world, j)
              && Rows(o.tables, order[j]) == TableRows(Rows(tables, order[j]), Group(trades, order[j]), world(order[j]))
    ensures forall other :: other !in order ==> Rows(o.tables, other) == Rows(tables, other)
  {
    hide TableRows, TableVerdict, Group, Rows, GoesOn;
    var n, longer := |order|, order + [name];
    assert o.handled == n by { assert n > 0 ==> Reached(tables, trades, order, world, n - 1); }
    assert order[..n] == order;
    assert name !in order by {
      assert longer[n] == name && forall i :: 0 <= i < n ==> longer[i] == order[i];
    }
  }

  lemma AccountsNext(o: Outcome, tables: Tables, trades: seq<Trade>, order: seq<string>, name: string, world: string -> Response)
    requires Distinct(order + [name]) && Accounts(o, tables, trades, order, world) && o.verdict == Continue
    ensures var rows, group := Rows(o.tables, name), Group(trades, name);
            Accounts(Outcome(o.tables[name := TableRows(rows, group, world(name))],
                             TableVerdict(rows, group, world(name)), o.handled + 1),
                     tables, trades, order + [name], world)
  {
    AllVisited(o, tables, trades, order, name, world);
    VerdictIs(tables, trades, name, world);
    ReachedPrefix(tables, trades, order, name, world);
    ReachedLast(tables, trades, order, name, world);
    hide TableRows, TableVerdict, Group, Rows, GoesOn, Reached, Distinct;
    var n, longer := |order|, order + [name];
    var rows, group := Rows(o.tables, name), Group(trades, name);
    var next := Outcome(o.tables[name := TableRows(rows, group, world(name))], TableVerdict(rows, group, world(name)), n + 1);
    assert longer[..n + 1] == longer && longer[n] == name;
    forall j | 0 <= j < n + 1 ensures Reached(tables, trades, longer, world, j) {
      if j < n {
        assert Reached(tables, trades, order, world, j);
      }
    }
    forall j | 0 <= j < n + 1
      ensures Rows(next.tables, longer[j])
              == TableRows(Rows(tables, longer[j]), Group(trades, longer[j]), world(longer[j]))
    {
      RowsUpdate(o.tables, name, TableRows(rows, group, world(name)), longer[j]);
      if j < n {
        assert longer[j] == order[j] && order[j] in order;
      }
    }
    forall other | other !in longer ensures Rows(next.tables, other) == Rows(tables, other) {
      RowsUpdate(o.tables, name, TableRows(rows, group, world(name)), other);
      assert name == longer[n] && forall x :: x in order ==> x in longer;
    }
  }

  lemma AccountsStopped(o: Outcome, tables: Tables, trades: seq<Trade>, order: seq<string>, name: string, world: string -> Response)
    requires Accounts(o, tables, trades, order, world) && o.verdict != Continue
    ensures Accounts(o, tables, trades, order + [name], world)
  {
    hide TableRows, VerdictOf, Group, Rows, GoesOn;
    ReachedPrefix(tables, trades, order, name, world);
    assert (order + [name])[..o.handled] == order[..o.handled];
  }

  /** A call in terms of the tables it found: which tables it reaches, what it leaves in them, how it ends. */
  lemma {:induction false} ProcessOutcome(tables: Tables, trades: seq<Trade>, order: seq<string>, world: string -> Response)
    requires Distinct(order)
    ensures Accounts(Process(tables, trades, order, world), tables, trades, order, world)
  {
    hide TableRows, TableVerdict, Group, Rows, Process;
    if order == [] {
      ProcessNone(tables, trades, world);
    } else {
      hide Accounts, VerdictOf;
      var before, name := order[..|order| - 1], order[|order| - 1];
      assert order == before + [name];
      ProcessOutcome(tables, trades, before, world);
      var front := Process(tables, trades, before, world);
      if front.verdict == Continue {
        ProcessNext(tables, trades, before, name, world);
        AccountsNext(front, tables, trades, before, name, world);
      } else {
        ProcessStopped(tables, trades, before, name, world);
        AccountsStopped(front, tables, trades, before, name, world);
      }
    }
  }

  lemma ProcessStopped(tables: Tables, trades: seq<Trade>, order: seq<string>, name: string, world: string -> Response)
    requires Process(tables, trades, order, world).verdict != Continue
    ensures Process(tables, trades, order + [name], world) == Process(tables, trades, order, world)
  {
    assert (order + [name])[..|order|] == order;
  }

  /** A group is stored exactly when reading its keys back leaves nothing to insert. */
  lemma StoredIffNothingNew(tables: Tables, trades: seq<Trade>, name: string, w: Response)
    requires CleanKeys(Rows(tables, name)) && CleanKeys(trades) && w.readSucceeds
    ensures GroupStored(tables, trades, name) <==> NewRows(Rows(tables, name), Group(trades, name), w) == []
  {
    hide TradeKey, TableOf, KeepNew, SeenKeys, Group, Rows;
    var rows, group := Rows(tables, name), Group(trades, name);
    var seen := SeenKeys(rows, group, true);
    forall t ensures t in group <==> t in trades && TableOf(t) == name {
      GroupMember(trades, name, t);
    }
    GroupClean(trades, name);
    forall t | t in group ensures TradeKey(t) in seen || HasKey(KeepNew(group, seen), TradeKey(t)) {
      KeepNewComplete(group, seen, t);
    }
    forall t | t in group ensures TradeKey(t) in seen <==> HasKey(rows, TradeKey(t)) {
      SeenKeysExact(rows, group, t);
    }
    var added := KeepNew(group, seen);
    if added != [] {
      KeepNewMember(group, seen, added[0]);
    }
  }

  /** The call reaches its j-th table, and that one does not fail. */
  ghost predicate Completes(tables: Tables, trades: seq<Trade>, order: seq<string>, world: string -> Response, j: int)
    requires 0 <= j < |order|
  {
    && Reached(tables, trades, order, world, j)
    && (GoesOn(tables, trades, order[j], world) || Retried(tables, trades, order[j], world))
  }

  /** From the tables a call found to those it leaves, having visited some: rows are only appended, each in the
      table of its day. */
  ghost predicate Grows(tables: Tables, after: Tables, trades: seq<Trade>, visited: seq<string>) {
    && (forall name :: Rows(tables, name) <= Rows(after, name))
    && (forall name, r :: r in Rows(after, name) ==> r in Rows(tables, name) || (r in trades && TableOf(r) == name))
    && (forall name :: name !in visited ==> Rows(after, name) == Rows(tables, name))
  }

  lemma VisitedGrows(o: Outcome, tables: Tables, trades: seq<Trade>, order: seq<string>, world: string -> Response, j: int)
    requires Accounts(o, tables, trades, order, world) && 0 <= j < o.handled
    ensures Rows(tables, order[j]) <= Rows(o.tables, order[j])
    ensures forall r :: r in Rows(o.tables, order[j]) ==>
              r in Rows(tables, order[j]) || (r in trades && TableOf(r) == order[j])
    ensures Completes(tables, trades, order, world, j) ==> GroupStored(o.tables, trades, order[j])
  {
    hide TableOf, TableRows, TableVerdict, TradeKey, Rows, Group, HasKey, AllReadBack;
    var name := order[j];
    forall t ensures t in Group(trades, name) <==> t in trades && TableOf(t) == name {
      GroupMember(trades, name, t);
    }
    TableStep(Rows(tables, name), Group(trades, name), world(name));
    VerdictIs(tables, trades, name, world);
  }

  lemma VisitedName(order: seq<string>, n: nat, name: string) returns (j: nat)
    requires n <= |order| && name in order[..n]
    ensures j < n && order[j] == name
  {
    j :| 0 <= j < n && order[..n][j] == name;
  }

  lemma ProcessGrows(tables: Tables, trades: seq<Trade>, order: seq<string>, world: string -> Response)
    requires Distinct(order)
    ensures var o := Process(tables, trades, order, world);
            && o.handled <= |order|
            && Grows(tables, o.tables, trades, order[..o.handled])
            && (o.verdict == Continue ==> o.handled == |order|)
  {
    hide Process, TableOf, TableRows, VerdictOf, Rows, Group, GroupStored, Completes;
    ProcessOutcome(tables, trades, order, world);
    var o := Process(tables, trades, order, world);
    forall j | 0 <= j < o.handled
      ensures Rows(tables, order[j]) <= Rows(o.tables, order[j])
      ensures forall r :: r in Rows(o.tables, order[j]) ==>
                r in Rows(tables, order[j]) || (r in trades && TableOf(r) == order[j])
    {
      VisitedGrows(o, tables, trades, order, world, j);
    }
    forall name | name in order[..o.handled] ensures exists j :: 0 <= j < o.handled && order[j] == name {
      var j := VisitedName(order, o.handled, name);
    }
    if o.verdict == Continue && |order| > 0 {
      assert Reached(tables, trades, order, world, |order| - 1);
    }
  }

  lemma ProcessStores(tables: Tables, trades: seq<Trade>, order: seq<string>, world: string -> Response, j: int)
    requires Distinct(order) && 0 <= j < |order| && Completes(tables, trades, order, world, j)
    ensures GroupStored(Process(tables, trades, order, world).tables, trades, order[j])
  {
    hide Process, TableOf, TableRows, VerdictOf, Rows, Group, GroupStored, GoesOn, Retried;
    ProcessOutcome(tables, trades, order, world);
    VisitedGrows(Process(tables, trades, order, world), tables, trades, order, world, j);
  }

  /** Without an error every table that was visited completes. */
  lemma VisitedCompletes(o: Outcome, tables: Tables, trades: seq<Trade>, order: seq<string>, world: string -> Response, k: int)
    requires Accounts(o, tables, trades, order, world) && o.verdict != ReturnError && 0 <= k < o.handled
    ensures Completes(tables, trades, order, world, k)
  {
    hide VerdictOf, Rows, Group, TableRows, GoesOn, Retried;
    VerdictIs(tables, trades, order[k], world);
    assert Reached(tables, trades, order, world, k);
    if k < o.handled - 1 {
      assert Reached(tables, trades, order, world, o.handled - 1);
    } else if o.verdict == Continue {
      assert Reached(tables, trades, order, world, |order|);
    }
  }

  /** The k-th table comes after one that is reached and hits a deadlock whose retry succeeds. */
  ghost predicate AfterRetry(tables: Tables, trades: seq<Trade>, order: seq<string>, world: string -> Response, k: nat)
    requires k <= |order|
  {
    exists j :: 0 <= j < k && Reached(tables, trades, order, world, j) && Retried(tables, trades, order[j], world)
  }

  lemma SkippedIff(o: Outcome, tables: Tables, trades: seq<Trade>, order: seq<string>, world: string -> Response, k: nat)
    requires Accounts(o, tables, trades, order, world) && o.verdict != ReturnError && k < |order|
    ensures AfterRetry(tables, trades, order, world, k) <==> k >= o.handled
  {
    hide VerdictOf, Rows, Group, TableRows, AllReadBack;
    if k >= o.handled {
      assert !Reached(tables, trades, order, world, k);
      assert o.verdict != Continue;
      assert Reached(tables, trades, order, world, o.handled - 1);
      VerdictIs(tables, trades, order[o.handled - 1], world);
    } else {
      assert Reached(tables, trades, order, world, k);
    }
  }

  /** Tables that are ready and take their rows at once are all reached, whatever was stored before and however the
      reads go, and everything is stored afterwards: a replay never stops early. */
  lemma AllInsertedStoresAll(tables: Tables, trades: seq<Trade>, order: seq<string>, world: string -> Response)
    requires IsTableOrder(order, trades)
    requires forall name :: name in order ==> world(name).tableReady && world(name).insertion == Inserted
    ensures var o := Process(tables, trades, order, world);
            && o.verdict == Continue && o.handled == |order|
            && forall t :: t in trades ==> exists r :: r in Rows(o.tables, TableOf(t)) && TradeKey(r) == TradeKey(t)
  {
    hide Process, Rows, AllReadBack, TableOf, TradeKey;
    TableOrderDistinct(order, trades);
    ProcessOutcome(tables, trades, order, world);
    ProcessGrows(tables, trades, order, world);
    var o := Process(tables, trades, order, world);
    assert Reached(tables, trades, order, world, |order|);
    forall t | t in trades ensures exists r :: r in Rows(o.tables, TableOf(t)) && TradeKey(r) == TradeKey(t) {
      assert TableOf(t) in order;
      assert forall i :: 0 <= i < |order| ==> Reached(tables, trades, order, world, i);
      var i :| 0 <= i < |order| && order[i] == TableOf(t);
      ProcessStores(tables, trades, order, world, i);
    }
  }

  /** A nil error that comes early comes from a table that hit a deadlock whose retry succeeded, with a trade that
      was not read back. */
  lemma EarlyNil(tables: Tables, trades: seq<Trade>, order: seq<string>, world: string -> Response)
    requires Distinct(order) && Process(tables, trades, order, world).verdict == ReturnNil
    ensures var o := Process(tables, trades, order, world);
            && 0 < o.handled <= |order|
            && Reached(tables, trades, order, world, o.handled - 1)
            && Retried(tables, trades, order[o.handled - 1], world)
  {
    hide Process, Rows, AllReadBack, VerdictOf, TableRows;
    ProcessOutcome(tables, trades, order, world);
    var o := Process(tables, trades, order, world);
    VerdictIs(tables, trades, order[o.handled - 1], world);
  }

  /** After a nil error everything is stored exactly when every table that comes after a deadlock whose retry
      succeeds held its group already: this looks only at the tables found, the trades and the database's
      answers, and holds whether or not reads fail. */
  lemma NilMeansStoredIff(tables: Tables, trades: seq<Trade>, order: seq<string>, world: string -> Response)
    requires Distinct(order) && Process(tables, trades, order, world).verdict != ReturnError
    ensures (forall k :: 0 <= k < |order| ==> GroupStored(Process(tables, trades, order, world).tables, trades, order[k]))
            <==>
            (forall k :: 0 <= k < |order| && AfterRetry(tables, trades, order, world, k) ==>
                           GroupStored(tables, trades, order[k]))
  {
    hide *;
    forall k | 0 <= k < |order|
      ensures GroupStored(Process(tables, trades, order, world).tables, trades, order[k]) <==>
              (AfterRetry(tables, trades, order, world, k) ==> GroupStored(tables, trades, order[k]))
    {
      StoredUnlessSkipped(tables, trades, order, world, k);
    }
  }

  lemma StoredUnlessSkipped(tables: Tables, trades: seq<Trade>, order: seq<string>, world: string -> Response, k: nat)
    requires Distinct(order) && k < |order| && Process(tables, trades, order, world).verdict != ReturnError
    ensures GroupStored(Process(tables, trades, order, world).tables, trades, order[k]) <==>
            (AfterRetry(tables, trades, order, world, k) ==> GroupStored(tables, trades, order[k]))
  {
    hide TableOf, TradeKey, HasKey, Process, AfterRetry, Rows, VerdictOf, TableRows, Completes;
    ProcessOutcome(tables, trades, order, world);
    var o := Process(tables, trades, order, world);
    SkippedIff(o, tables, trades, order, world, k);
    if k >= o.handled {
      assert order[k] !in order[..o.handled];
    } else {
      VisitedCompletes(o, tables, trades, order, world, k);
      VisitedGrows(o, tables, trades, order, world, k);
    }
  }

  lemma TableOrderDistinct(order: seq<string>, trades: seq<Trade>)
    requires IsTableOrder(order, trades)
    ensures Distinct(order)
  {
  }

  /** The early return is real: a deadlock whose retry succeeds gives nil and skips the next table. */
  lemma DeadlockSkipsTables(a: Trade, b: Trade)
    requires TableOf(a) != TableOf(b)
    ensures var world: string -> Response :=
              name => Response(true, true, if name == TableOf(a) then Deadlock(true) else Inserted);
            var o := Process(map[], [a, b], [TableOf(a), TableOf(b)], world);
            o.verdict == ReturnNil && Rows(o.tables, TableOf(b)) == []
  {
    hide TableOf, TradeKey;
    var world: string -> Response := name => Response(true, true, if name == TableOf(a) then Deadlock(true) else Inserted);
    var order := [TableOf(a), TableOf(b)];
    assert order[..1] == [TableOf(a)] && [TableOf(a)][..0] == [];
    GroupMember([a, b], TableOf(a), a);
    var group := Group([a, b], TableOf(a));
    assert SeenKeys([], group, true) == {};
    assert NewRows([], group, world(TableOf(a))) != [];
    assert Process(map[], [a, b], [TableOf(a)], world).verdict == ReturnNil;
  }

  /** Reading back succeeds, or nothing is inserted, or nothing of the group is stored yet. */
  ghost predicate NothingTwice(rows: seq<Trade>, group: seq<Trade>, w: Response) {
    w.readSucceeds || !Inserts(w) || forall t :: t in group ==> !HasKey(rows, TradeKey(t))
  }

  /** A table gets no key twice exactly in these cases. */
  lemma DistinctIff(rows: seq<Trade>, group: seq<Trade>, w: Response)
    requires DistinctKeys(rows) && CleanKeys(rows) && CleanKeys(group)
    ensures DistinctKeys(TableRows(rows, group, w)) <==> NothingTwice(rows, group, w)
  {
    hide TradeKey, KeepNew, SeenKeys, CleanKeys;
    var seen := SeenKeys(rows, group, w.readSucceeds);
    var added := KeepNew(group, seen);
    KeepNewDistinct(group, seen);
    forall t | t in added ensures t in group && TradeKey(t) !in seen {
      KeepNewMember(group, seen, t);
    }
    if w.readSucceeds {
      forall t | t in added ensures !HasKey(rows, TradeKey(t)) {
        SeenKeysExact(rows, group, t);
      }
      AppendDistinct(rows, added);
    } else if NothingTwice(rows, group, w) {
      if Inserts(w) { AppendDistinct(rows, added); }
    } else {
      var t :| t in group && HasKey(rows, TradeKey(t));
      NothingSeen(rows, group);
      KeepNewComplete(group, seen, t);
      SharedKeyNotDistinct(rows, added, TradeKey(t));
    }
  }

  lemma NothingSeen(rows: seq<Trade>, group: seq<Trade>)
    ensures SeenKeys(rows, group, false) == {}
  {
  }

  lemma SharedKeyNotDistinct(rows: seq<Trade>, added: seq<Trade>, key: string)
    requires HasKey(rows, key) && HasKey(added, key)
    ensures !DistinctKeys(rows + added)
  {
    hide TradeKey;
    var r :| r in rows && TradeKey(r) == key;
    var t :| t in added && TradeKey(t) == key;
    var i :| 0 <= i < |rows| && rows[i] == r;
    var j :| 0 <= j < |added| && added[j] == t;
    assert (rows + added)[i] == r && (rows + added)[|rows| + j] == t;
  }

  ghost predicate NoKeyTwice(tables: Tables) { forall name :: DistinctKeys(Rows(tables, name)) }

  ghost predicate AllClean(tables: Tables) { forall name :: CleanKeys(Rows(tables, name)) }

  /** No table that the call reaches gets a key twice. */
  ghost predicate CallAddsNothingTwice(tables: Tables, trades: seq<Trade>, order: seq<string>, world: string -> Response) {
    forall j :: 0 <= j < |order| && Reached(tables, trades, order, world, j) ==>
      NothingTwice(Rows(tables, order[j]), Group(trades, order[j]), world(order[j]))
  }

  /** A call, reads failing or not, leaves no key twice anywhere exactly when no table it reaches gets one. */
  lemma CallDistinctIff(tables: Tables, trades: seq<Trade>, order: seq<string>, world: string -> Response)
    requires NoKeyTwice(tables) && AllClean(tables) && CleanKeys(trades) && Distinct(order)
    ensures NoKeyTwice(Process(tables, trades, order, world).tables) <==>
            CallAddsNothingTwice(tables, trades, order, world)
  {
    hide TableOf, TradeKey, Process, Reached, Rows, Group, TableRows, NothingTwice, DistinctKeys, CleanKeys;
    ProcessOutcome(tables, trades, order, world);
    var o := Process(tables, trades, order, world);
    forall j | 0 <= j < o.handled
      ensures DistinctKeys(Rows(o.tables, order[j])) <==>
              NothingTwice(Rows(tables, order[j]), Group(trades, order[j]), world(order[j]))
    {
      GroupClean(trades, order[j]);
      DistinctIff(Rows(tables, order[j]), Group(trades, order[j]), world(order[j]));
    }
    forall name | name in order[..o.handled] ensures exists j :: 0 <= j < o.handled && order[j] == name {
      var j := VisitedName(order, o.handled, name);
    }
  }

  lemma GroupClean(trades: seq<Trade>, name: string)
    requires CleanKeys(trades)
    ensures CleanKeys(Group(trades, name))
  {
    hide CleanKey, TableOf;
    forall t | t in Group(trades, name) ensures t in trades {
      GroupMember(trades, name, t);
    }
  }

  /** A call, reads failing or not, only appends, stores the tables it completed and leaves the others alone;
      when its reads succeed it keeps every table sound. */
  lemma ProcessEffect(tables: Tables, trades: seq<Trade>, order: seq<string>, world: string -> Response)
    requires Distinct(order)
    ensures var o := Process(tables, trades, order, world);
            && o.handled <= |order|
            && Grows(tables, o.tables, trades, order[..o.handled])
            && (forall j :: 0 <= j < |order| && Completes(tables, trades, order, world, j) ==>
                  GroupStored(o.tables, trades, order[j]))
            && (o.verdict == Continue ==> o.handled == |order|)
    ensures TablesOk(tables) && CleanKeys(trades) && ReadsSucceed(world) ==>
              TablesOk(Process(tables, trades, order, world).tables)
  {
    hide *;
    ProcessGrows(tables, trades, order, world);
    forall j | 0 <= j < |order| && Completes(tables, trades, order, world, j)
      ensures GroupStored(Process(tables, trades, order, world).tables, trades, order[j])
    {
      ProcessStores(tables, trades, order, world, j);
    }
    if TablesOk(tables) && CleanKeys(trades) && ReadsSucceed(world) {
      SoundStays(tables, trades, order, world);
    }
  }

  lemma SoundStays(tables: Tables, trades: seq<Trade>, order: seq<string>, world: string -> Response)
    requires TablesOk(tables) && CleanKeys(trades) && ReadsSucceed(world) && Distinct(order)
    ensures TablesOk(Process(tables, trades, order, world).tables)
  {
    hide Process, TableOf, Rows, CallAddsNothingTwice, DistinctKeys, CleanKeys;
    var after := Process(tables, trades, order, world).tables;
    forall name ensures DistinctKeys(Rows(tables, name)) && CleanKeys(Rows(tables, name)) {
      assert RowsOk(Rows(tables, name), name);
    }
    ReadsAddNothingTwice(tables, trades, order, world);
    CallDistinctIff(tables, trades, order, world);
    ProcessGrows(tables, trades, order, world);
    forall name ensures RowsOk(Rows(after, name), name) {
      assert RowsOk(Rows(tables, name), name);
      CleanGrows(Rows(tables, name), Rows(after, name), trades);
    }
  }

  lemma ReadsAddNothingTwice(tables: Tables, trades: seq<Trade>, order: seq<string>, world: string -> Response)
    requires ReadsSucceed(world)
    ensures CallAddsNothingTwice(tables, trades, order, world)
  {
    hide Reached, Rows, Group;
  }

  lemma CleanGrows(rows: seq<Trade>, more: seq<Trade>, trades: seq<Trade>)
    requires CleanKeys(rows) && CleanKeys(trades) && forall r :: r in more ==> r in rows || r in trades
    ensures CleanKeys(more)
  {
    hide CleanKey;
  }

  /** A read error is not noticed: replaying a stored trade then stores it again. */
  lemma FailedReadDuplicates(t: Trade)
    ensures TableRows([t], [t], Response(true, false, Inserted)) == [t, t]
  {
    hide TradeKey;
    assert [t][1..] == [];
    assert KeepNew([t], {}) == [t];
  }

  // ---------------------------------------------------------------- any number of calls

  datatype Call = Call(trades: seq<Trade>, order: seq<string>, world: string -> Response)

  function RunCalls(calls: seq<Call>): Tables {
    if calls == [] then map[]
    else
      var c := calls[|calls| - 1];
      Process(RunCalls(calls[..|calls| - 1]), c.trades, c.order, c.world).tables
  }

  /** Every call visits the tables of its trades in some order, as ranging over a map does. */
  ghost predicate TableOrders(calls: seq<Call>) {
    forall i :: 0 <= i < |calls| ==> IsTableOrder(calls[i].order, calls[i].trades)
  }

  ghost predicate CleanCalls(calls: seq<Call>) { forall i :: 0 <= i < |calls| ==> CleanKeys(calls[i].trades) }

  ghost predicate ReadsAlwaysSucceed(calls: seq<Call>) { forall i :: 0 <= i < |calls| ==> ReadsSucceed(calls[i].world) }

  ghost predicate Submitted(calls: seq<Call>, t: Trade) { exists i :: 0 <= i < |calls| && t in calls[i].trades }

  /** Whoever reports a trade reports it for the same day. */
  ghost predicate OneDayPerKey(calls: seq<Call>) {
    forall a, b :: Submitted(calls, a) && Submitted(calls, b) && TradeKey(a) == TradeKey(b) ==> a.blockDate == b.blockDate
  }

  /** The call with this number came to t's table and did not fail there. */
  ghost predicate Delivered(calls: seq<Call>, i: int, t: Trade) {
    && 0 <= i < |calls| && t in calls[i].trades
    && exists j :: 0 <= j < |calls[i].order| && calls[i].order[j] == TableOf(t)
                   && Completes(RunCalls(calls[..i]), calls[i].trades, calls[i].order, calls[i].world, j)
  }

  function CountKey(rows: seq<Trade>, key: string): nat {
    if rows == [] then 0 else (if TradeKey(rows[0]) == key then 1 else 0) + CountKey(rows[1..], key)
  }

  lemma {:induction false} CountDistinct(rows: seq<Trade>, key: string)
    requires DistinctKeys(rows)
    ensures CountKey(rows, key) == if HasKey(rows, key) then 1 else 0
  {
    hide TradeKey;
    if rows == [] {
    } else {
      CountDistinct(rows[1..], key);
      assert rows == [rows[0]] + rows[1..];
      if TradeKey(rows[0]) == key {
        assert rows[0] in rows;
        forall r | r in rows[1..] ensures TradeKey(r) != key {
          var j :| 0 <= j < |rows[1..]| && rows[1..][j] == r;
          assert rows[j + 1] == r;
        }
      } else if HasKey(rows, key) {
        var r :| r in rows && TradeKey(r) == key;
        assert r in rows[1..];
      }
    }
  }

  /** Whatever the calls, every stored row was submitted and is in the table of its day. */
  lemma {:induction false} RunCallsRows(calls: seq<Call>)
    requires TableOrders(calls)
    ensures forall name, r :: r in Rows(RunCalls(calls), name) ==> Submitted(calls, r) && TableOf(r) == name
  {
    hide Process, TableOf, TradeKey, Rows;
    if calls == [] {
      assert forall name :: Rows(map[], name) == [] by { NothingStored(); }
    } else {
      var before, c := calls[..|calls| - 1], calls[|calls| - 1];
      RunCallsRows(before);
      TableOrderDistinct(c.order, c.trades);
      ProcessGrows(RunCalls(before), c.trades, c.order, c.world);
      forall name, r | r in Rows(RunCalls(calls), name) ensures Submitted(calls, r) && TableOf(r) == name {
        if r in Rows(RunCalls(before), name) {
          assert Submitted(before, r);
          var i :| 0 <= i < |before| && r in before[i].trades;
          assert r in calls[i].trades;
        }
      }
    }
  }

  lemma NothingStored()
    ensures forall name :: Rows(map[], name) == []
  {
  }

  lemma RunCallsClean(calls: seq<Call>)
    requires TableOrders(calls) && CleanCalls(calls)
    ensures AllClean(RunCalls(calls))
  {
    hide RunCalls, Rows, CleanKey;
    RunCallsRows(calls);
    forall name, r | r in Rows(RunCalls(calls), name) ensures CleanKey(r) {
      assert Submitted(calls, r);
      var i :| 0 <= i < |calls| && r in calls[i].trades;
      assert CleanKeys(calls[i].trades);
    }
  }

  lemma LastCallDistinct(calls: seq<Call>)
    requires calls != [] && TableOrders(calls) && CleanCalls(calls)
    ensures var before, c := calls[..|calls| - 1], calls[|calls| - 1];
            NoKeyTwice(RunCalls(calls)) <==>
              NoKeyTwice(RunCalls(before)) && CallAddsNothingTwice(RunCalls(before), c.trades, c.order, c.world)
  {
    hide Process, CallAddsNothingTwice, Rows, TableOf, AllClean, CleanKeys, DistinctKeys, IsTableOrder;
    var before, c := calls[..|calls| - 1], calls[|calls| - 1];
    RunCallsClean(before);
    TableOrderDistinct(c.order, c.trades);
    ProcessGrows(RunCalls(before), c.trades, c.order, c.world);
    if NoKeyTwice(RunCalls(calls)) {
      forall name ensures DistinctKeys(Rows(RunCalls(before), name)) {
        PrefixDistinct(Rows(RunCalls(before), name), Rows(RunCalls(calls), name));
      }
    }
    if NoKeyTwice(RunCalls(before)) {
      CallDistinctIff(RunCalls(before), c.trades, c.order, c.world);
    }
  }

  /** The i-th call adds no key twice to a table that it reaches. */
  ghost predicate AddsNothingTwice(calls: seq<Call>, i: int)
    requires 0 <= i < |calls|
  {
    CallAddsNothingTwice(RunCalls(calls[..i]), calls[i].trades, calls[i].order, calls[i].world)
  }

  /** Over any calls, reads failing or not, no key is stored twice exactly when no call adds one twice to a table
      that it reaches. */
  lemma {:induction false} NoKeyTwiceIff(calls: seq<Call>)
    requires TableOrders(calls) && CleanCalls(calls)
    ensures NoKeyTwice(RunCalls(calls)) <==> forall i :: 0 <= i < |calls| ==> AddsNothingTwice(calls, i)
  {
    hide CallAddsNothingTwice, NoKeyTwice, IsTableOrder, CleanKeys, RunCalls;
    if calls == [] {
      assert NoKeyTwice(RunCalls([])) by { NothingStoredTwice(); }
    } else {
      var n := |calls| - 1;
      var before := calls[..n];
      NoKeyTwiceIff(before);
      LastCallDistinct(calls);
      forall i | 0 <= i < n ensures AddsNothingTwice(calls, i) <==> AddsNothingTwice(before, i) {
        assert before[..i] == calls[..i];
      }
      assert AddsNothingTwice(calls, n) <==>
        CallAddsNothingTwice(RunCalls(before), calls[n].trades, calls[n].order, calls[n].world);
    }
  }

  lemma NothingStoredTwice()
    ensures NoKeyTwice(RunCalls([]))
  {
  }

  lemma PrefixDistinct(rows: seq<Trade>, more: seq<Trade>)
    requires rows <= more && DistinctKeys(more)
    ensures DistinctKeys(rows)
  {
    hide TradeKey;
    assert forall i :: 0 <= i < |rows| ==> rows[i] == more[i];
  }

  lemma ReadsKeepDistinct(calls: seq<Call>)
    requires TableOrders(calls) && CleanCalls(calls) && ReadsAlwaysSucceed(calls)
    ensures NoKeyTwice(RunCalls(calls))
  {
    hide RunCalls, Reached, Rows, Group, NoKeyTwice;
    NoKeyTwiceIff(calls);
    forall i | 0 <= i < |calls| ensures AddsNothingTwice(calls, i) {
      ReadsAddNothingTwice(RunCalls(calls[..i]), calls[i].trades, calls[i].order, calls[i].world);
    }
  }

  /** What a call delivered stays stored, whatever later calls do and however their reads go. */
  lemma {:induction false} DeliveredStays(calls: seq<Call>, i: int, t: Trade)
    requires TableOrders(calls) && Delivered(calls, i, t)
    ensures HasKey(Rows(RunCalls(calls), TableOf(t)), TradeKey(t))
  {
    hide Process, TableOf, TradeKey, Completes;
    var before, c := calls[..|calls| - 1], calls[|calls| - 1];
    TableOrderDistinct(c.order, c.trades);
    ProcessGrows(RunCalls(before), c.trades, c.order, c.world);
    if i < |calls| - 1 {
      assert before[..i] == calls[..i] && before[i] == calls[i];
      DeliveredStays(before, i, t);
      var rows, more := Rows(RunCalls(before), TableOf(t)), Rows(RunCalls(calls), TableOf(t));
      assert more == rows + more[|rows|..];
      StillHasKey(rows, more[|rows|..], TradeKey(t));
    } else {
      assert calls[..i] == before;
      var j :| 0 <= j < |c.order| && c.order[j] == TableOf(t)
               && Completes(RunCalls(before), c.trades, c.order, c.world, j);
      ProcessStores(RunCalls(before), c.trades, c.order, c.world, j);
    }
  }

  /** Replays, other partitions into calls, failures between tables and retries: once any call delivered a
      trade there is exactly one row for its key, in the table of its day, and no key ever has two. */
  lemma ExactlyOnce(calls: seq<Call>, t: Trade, name: string)
    requires TableOrders(calls) && CleanCalls(calls) && ReadsAlwaysSucceed(calls)
    requires OneDayPerKey(calls) && Submitted(calls, t)
    ensures CountKey(Rows(RunCalls(calls), name), TradeKey(t)) <= if name == TableOf(t) then 1 else 0
    ensures name == TableOf(t) && (exists i :: Delivered(calls, i, t)) ==>
              CountKey(Rows(RunCalls(calls), name), TradeKey(t)) == 1
  {
    hide Delivered, TradeKey, TableName, RunCalls, ReadsAlwaysSucceed, CleanCalls;
    RunCallsRows(calls);
    ReadsKeepDistinct(calls);
    var rows := Rows(RunCalls(calls), name);
    assert DistinctKeys(rows);
    CountDistinct(rows, TradeKey(t));
    if HasKey(rows, TradeKey(t)) {
      var r :| r in rows && TradeKey(r) == TradeKey(t);
      assert Submitted(calls, r);
      assert r.blockDate == t.blockDate;
    }
    if name == TableOf(t) && exists i :: Delivered(calls, i, t) {
      var i :| Delivered(calls, i, t);
      DeliveredStays(calls, i, t);
    }
  }

  // ---------------------------------------------------------------- looking a trade up

  function FirstWithHash(rows: seq<Trade>, txHash: string): Option<Trade> {
    if rows == [] then None else if rows[0].txHash == txHash then Some(rows[0]) else FirstWithHash(rows[1..], txHash)
  }

  /** The rows of the order's day, then those of the next. */
  function Candidates(tables: Tables, created: Date): seq<Trade> {
    Rows(tables, TableName(created)) + Rows(tables, TableName(NextDay(created)))
  }

  lemma {:induction false} FirstWithHashConcat(a: seq<Trade>, b: seq<Trade>, txHash: string)
    ensures FirstWithHash(a + b, txHash)
            == if FirstWithHash(a, txHash).Some? then FirstWithHash(a, txHash) else FirstWithHash(b, txHash)
  {
    if a == [] {
      assert a + b == b;
    } else {
      assert (a + b)[1..] == a[1..] + b;
      FirstWithHashConcat(a[1..], b, txHash);
    }
  }

  method FirstInTable(rows: seq<Trade>, txHash: string) returns (found: Option<Trade>)
    ensures found == FirstWithHash(rows, txHash)
  {
    for i := 0 to |rows|
      invariant FirstWithHash(rows, txHash) == FirstWithHash(rows[i..], txHash)
    {
      assert rows[i..][1..] == rows[i + 1..];
      if rows[i].txHash == txHash { return Some(rows[i]); }
    }
    return None;
  }

  lemma {:induction false} FirstWithHashMeaning(rows: seq<Trade>, txHash: string)
    ensures FirstWithHash(rows, txHash) == None <==> forall r :: r in rows ==> r.txHash != txHash
    ensures FirstWithHash(rows, txHash).Some? ==>
              FirstWithHash(rows, txHash).value in rows && FirstWithHash(rows, txHash).value.txHash == txHash
  {
    if rows == [] {
    } else {
      FirstWithHashMeaning(rows[1..], txHash);
      assert rows == [rows[0]] + rows[1..];
    }
  }

  /** It is the first row with the hash. */
  lemma {:induction false} FirstWithHashFirst(rows: seq<Trade>, txHash: string) returns (k: nat)
    requires FirstWithHash(rows, txHash).Some?
    ensures k < |rows| && rows[k] == FirstWithHash(rows, txHash).value && rows[k].txHash == txHash
    ensures forall j :: 0 <= j < k ==> rows[j].txHash != txHash
  {
    if rows[0].txHash == txHash {
      k := 0;
    } else {
      var i := FirstWithHashFirst(rows[1..], txHash);
      k := i + 1;
    }
  }

  ghost predicate ValidDates(calls: seq<Call>) { forall t :: Submitted(calls, t) ==> ValidDate(t.blockDate) }

  /** After any calls, reads failing or not, a hash is found exactly when some stored trade with it is of the
      order's day or the next: no row of another day is ever returned, and none of these days is overlooked. */
  lemma FoundIff(calls: seq<Call>, txHash: string, created: Date)
    requires TableOrders(calls) && ValidDates(calls) && ValidDate(created)
    ensures FirstWithHash(Candidates(RunCalls(calls), created), txHash).Some? <==>
            exists name, r :: r in Rows(RunCalls(calls), name) && r.txHash == txHash
                              && (r.blockDate == created || r.blockDate == NextDay(created))
    ensures var found := FirstWithHash(Candidates(RunCalls(calls), created), txHash);
            found.Some? ==> Submitted(calls, found.value) && found.value.txHash == txHash
                            && (found.value.blockDate == created || found.value.blockDate == NextDay(created))
  {
    hide TableName, NextDay, RunCalls, Rows, ValidDate, Submitted;
    var tables := RunCalls(calls);
    RunCallsRows(calls);
    FirstWithHashMeaning(Candidates(tables, created), txHash);
    var today, tomorrow := TableName(created), TableName(NextDay(created));
    forall name, r | r in Rows(tables, name)
      ensures name == today <==> r.blockDate == created
      ensures name == tomorrow <==> r.blockDate == NextDay(created)
    {
      assert Submitted(calls, r) && TableOf(r) == name;
      TableNameInjective(r.blockDate, created);
      TableNameInjective(r.blockDate, NextDay(created));
    }
    assert forall r :: r in Candidates(tables, created) <==> r in Rows(tables, today) || r in Rows(tables, tomorrow);
  }

  /** The order's own day comes first: a row of the next day is found only when its own day has none. */
  lemma OwnDayFirst(calls: seq<Call>, txHash: string, created: Date)
    requires TableOrders(calls) && ValidDates(calls) && ValidDate(created)
    ensures var found := FirstWithHash(Candidates(RunCalls(calls), created), txHash);
            found.Some? && (exists r :: r in Rows(RunCalls(calls), TableName(created)) && r.txHash == txHash) ==>
              found.value.blockDate == created
  {
    hide TableName, NextDay, RunCalls, Rows, ValidDate, Submitted;
    var tables := RunCalls(calls);
    RunCallsRows(calls);
    var today := Rows(tables, TableName(created));
    FirstWithHashConcat(today, Rows(tables, TableName(NextDay(created))), txHash);
    FirstWithHashMeaning(today, txHash);
    forall r | r in today ensures r.blockDate == created {
      assert Submitted(calls, r) && TableOf(r) == TableName(created);
      TableNameInjective(r.blockDate, created);
    }
  }

  /** The hash of a delivered trade is found from an order of its day or of the day before. */
  lemma DeliveredIsFound(calls: seq<Call>, i: int, t: Trade, created: Date)
    requires TableOrders(calls) && CleanCalls(calls) && Delivered(calls, i, t)
    requires t.blockDate == created || t.blockDate == NextDay(created)
    ensures FirstWithHash(Candidates(RunCalls(calls), created), t.txHash).Some?
  {
    hide TableName, NextDay, RunCalls, TradeKey, Rows, CleanKey, Process;
    var rows := Rows(RunCalls(calls), TableOf(t));
    DeliveredStays(calls, i, t);
    RunCallsClean(calls);
    var r :| r in rows && TradeKey(r) == TradeKey(t);
    assert CleanKeys(rows) && CleanKeys(calls[i].trades);
    TradeKeyInjective(r, t);
    FirstWithHashMeaning(Candidates(RunCalls(calls), created), t.txHash);
  }

  /** A single stored trade is not found from an order of the day after it. */
  lemma PreviousDayNotFound(t: Trade)
    requires ValidDate(t.blockDate)
    ensures var world: string -> Response := name => Response(true, true, Inserted);
            var calls := [Call([t], [TableOf(t)], world)];
            && TableOrders(calls) && Delivered(calls, 0, t)
            && FirstWithHash(Candidates(RunCalls(calls), NextDay(t.blockDate)), t.txHash) == None
  {
    hide TableName;
    var world: string -> Response := name => Response(true, true, Inserted);
    var calls := [Call([t], [TableOf(t)], world)];
    assert t in [t];
    OneCall(t, world);
    assert calls[..0] == [];
    assert RunCalls(calls) == Process(map[], [t], [TableOf(t)], world).tables;
    RunCallsRows(calls);
    var created := NextDay(t.blockDate);
    FoundIff(calls, t.txHash, created);
    TwoDaysLater(t.blockDate);
  }

  lemma OneCall(t: Trade, world: string -> Response)
    requires world(TableOf(t)) == Response(true, true, Inserted)
    ensures Process(map[], [t], [TableOf(t)], world).verdict == Continue
    ensures Process(map[], [t], [TableOf(t)], world).handled == 1
  {
    hide TableOf, TableRows;
    var order := [TableOf(t)];
    assert order[..0] == [];
  }

  lemma TwoDaysLater(d: Date)
    requires ValidDate(d)
    ensures NextDay(d) != d && NextDay(NextDay(d)) != d
  {
  }
}
