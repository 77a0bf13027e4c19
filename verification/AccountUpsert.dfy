/** Balances upserted under a slot guard, deduplicated per batch, sharded by week. */
module AccountUpsert {
  import opened Calendar
  import opened Wrappers
  import opened Sequences

  // ---------------------------------------------------------------- weekly tables

  /** getStartOfWeek: the Monday of the week; a weekly table is named after it. */
  function StartOfWeek(day: int): int { day - (Weekday(day) + 6) % 7 }

  /** The start of the week is the only Monday among the day and the six days before it. */
  lemma StartOfWeekIsMonday(day: int, monday: int)
    ensures monday == StartOfWeek(day) <==> Weekday(monday) == 1 && monday <= day < monday + 7
  {
  }

  /** The table of a week is named after the date of its Monday. */
  datatype TableName = TableName(monday: int)

  function TableOf(day: int): TableName { TableName(StartOfWeek(day)) }

  // ---------------------------------------------------------------- rows

  /** A token account row; created is the day that selects its table, details the columns that a conflict
      leaves as they were first inserted. */
  datatype Account = Account(owner: string, address: string, created: int, balance: int64, slot: int64, details: string)

  datatype Key = Key(owner: string, address: string)

  function KeyOf(a: Account): Key { Key(a.owner, a.address) }

  type Table = map<Key, Account>

  /** ON DUPLICATE KEY UPDATE: balance is assigned before slot, so both compare with the stored slot. */
  function Bump(row: Account, a: Account): Account {
    var row' := row.(balance := if a.slot > row.slot then a.balance else row.balance);
    row'.(slot := if a.slot > row'.slot then a.slot else row'.slot)
  }

  function Upsert(table: Table, a: Account): Table {
    table[KeyOf(a) := if KeyOf(a) in table then Bump(table[KeyOf(a)], a) else a]
  }

  function UpsertAll(table: Table, accounts: seq<Account>): Table {
    if accounts == [] then table
    else Upsert(UpsertAll(table, accounts[..|accounts| - 1]), accounts[|accounts| - 1])
  }

  // ---------------------------------------------------------------- one key: a last-writer-wins register

  /** The updates of one key, in order. */
  function Select(accounts: seq<Account>, key: Key): seq<Account> {
    if accounts == [] then []
    else
      Select(accounts[..|accounts| - 1], key) +
      if KeyOf(accounts[|accounts| - 1]) == key then [accounts[|accounts| - 1]] else []
  }

  /** The row that a run of updates of one key leaves. */
  function Register(us: seq<Account>): Account
    requires us != []
  {
    if |us| == 1 then us[0] else Bump(Register(us[..|us| - 1]), us[|us| - 1])
  }

  lemma {:induction false} RowIsRegister(accounts: seq<Account>, key: Key)
    ensures var us := Select(accounts, key);
            && (key in UpsertAll(map[], accounts) <==> us != [])
            && (us != [] ==> UpsertAll(map[], accounts)[key] == Register(us))
  {
    hide Bump;
    if accounts == [] {
    } else {
      var front, a := accounts[..|accounts| - 1], accounts[|accounts| - 1];
      RowIsRegister(front, key);
      var us := Select(front, key);
      if KeyOf(a) == key {
        assert (us + [a])[..|us|] == us;
      } else {
        assert us + [] == us;
      }
    }
  }

  lemma {:induction false} SelectMember(accounts: seq<Account>, key: Key, a: Account)
    ensures a in Select(accounts, key) <==> a in accounts && KeyOf(a) == key
  {
    if accounts == [] {
    } else {
      var front, last := accounts[..|accounts| - 1], accounts[|accounts| - 1];
      SelectMember(front, key, a);
      assert accounts == front + [last];
    }
  }

  /** i is the first update with the greatest slot. */
  predicate IsWinner(us: seq<Account>, i: int) {
    && 0 <= i < |us|
    && (forall j :: 0 <= j < |us| ==> us[j].slot <= us[i].slot)
    && (forall j :: 0 <= j < i ==> us[j].slot < us[i].slot)
  }

  function Winner(us: seq<Account>): (i: nat)
    requires us != []
    ensures IsWinner(us, i)
  {
    if |us| == 1 then 0
    else
      var i := Winner(us[..|us| - 1]);
      if us[|us| - 1].slot > us[i].slot then |us| - 1 else i
  }

  /** The register holds the slot and balance of the first update with the greatest slot, and everything else
      of the first update. */
  lemma {:induction false} RegisterMeaning(us: seq<Account>, i: int)
    requires IsWinner(us, i)
    ensures Register(us) == us[0].(balance := us[i].balance, slot := us[i].slot)
  {
    if |us| == 1 {
    } else {
      var front := us[..|us| - 1];
      RegisterMeaning(front, Winner(front));
    }
  }

  /** All updates with the greatest slot carry the same balance. */
  ghost predicate TopAgrees(us: seq<Account>) {
    forall a, b :: a in us && b in us && a.slot == b.slot && (forall c :: c in us ==> c.slot <= a.slot) ==> a.balance == b.balance
  }

  lemma RegisterConverges(us: seq<Account>, vs: seq<Account>)
    requires us != [] && multiset(us) == multiset(vs) && TopAgrees(us)
    ensures vs != []
    ensures Register(us).slot == Register(vs).slot && Register(us).balance == Register(vs).balance
  {
    SameMembers(us, vs);
    var i, j := Winner(us), Winner(vs);
    RegisterMeaning(us, i);
    RegisterMeaning(vs, j);
    assert us[i] in us && vs[j] in vs;
    assert us[i] in vs && vs[j] in us;
  }

  lemma RegisterDiverges(us: seq<Account>) returns (vs: seq<Account>)
    requires us != [] && !TopAgrees(us)
    ensures multiset(us) == multiset(vs) && vs != []
    ensures Register(us).balance != Register(vs).balance
  {
    hide Register;
    var i := Winner(us);
    RegisterMeaning(us, i);
    var a, b :| a in us && b in us && a.slot == b.slot && (forall c :: c in us ==> c.slot <= a.slot) && a.balance != b.balance;
    var c := if a.balance != us[i].balance then a else b;
    vs := MoveToFront(us, c);
    SameMembers(us, vs);
    assert us[i] in us;
    forall j | 0 <= j < |vs| ensures vs[j].slot <= c.slot {
      assert vs[j] in vs;
    }
    RegisterMeaning(vs, 0);
  }

  lemma MoveToFront(us: seq<Account>, c: Account) returns (vs: seq<Account>)
    requires c in us
    ensures multiset(us) == multiset(vs) && vs != [] && vs[0] == c
  {
    var k :| 0 <= k < |us| && us[k] == c;
    var rest := us[..k] + us[k + 1..];
    vs := [c] + rest;
    assert us == us[..k] + [c] + us[k + 1..];
    MultisetMiddle(us[..k], c, us[k + 1..]);
    assert vs == [] + [c] + rest && [] + rest == rest;
    MultisetMiddle([], c, rest);
  }

  lemma SameMembers(us: seq<Account>, vs: seq<Account>)
    requires multiset(us) == multiset(vs)
    ensures |us| == |vs| && forall a :: a in us <==> a in vs
  {
    assert |multiset(us)| == |multiset(vs)|;
    forall a ensures a in us <==> a in vs {
      assert a in multiset(us) <==> a in multiset(vs);
    }
  }

  /** The order of arrival of a key's updates is irrelevant exactly when the updates with its greatest slot
      carry equal balances. */
  lemma RegisterConvergesIff(us: seq<Account>)
    requires us != []
    ensures (forall vs :: multiset(us) == multiset(vs) && vs != [] ==>
               Register(us).slot == Register(vs).slot && Register(us).balance == Register(vs).balance)
            <==> TopAgrees(us)
  {
    if TopAgrees(us) {
      forall vs | multiset(us) == multiset(vs) && vs != []
        ensures Register(us).slot == Register(vs).slot && Register(us).balance == Register(vs).balance
      {
        RegisterConverges(us, vs);
      }
    } else {
      var vs := RegisterDiverges(us);
    }
  }

  // ---------------------------------------------------------------- deduplication: reverse, unique, reverse

  function Reversed(s: seq<Account>): seq<Account> {
    if s == [] then [] else Reversed(s[1..]) + [s[0]]
  }

  predicate HasKey(s: seq<Account>, key: Key) { exists a :: a in s && KeyOf(a) == key }

  /** The first occurrence of every key, in order: slice.UniqueByComparator. */
  function FirstOfEach(s: seq<Account>): seq<Account> {
    if s == [] then []
    else
      var firsts := FirstOfEach(s[..|s| - 1]);
      if HasKey(firsts, KeyOf(s[|s| - 1])) then firsts else firsts + [s[|s| - 1]]
  }

  /** The last occurrence of every key, in order. */
  function LastOfEach(s: seq<Account>): seq<Account> {
    if s == [] then []
    else (if HasKey(s[1..], KeyOf(s[0])) then [] else [s[0]]) + LastOfEach(s[1..])
  }

  lemma {:induction false} FirstOfEachKeys(s: seq<Account>, key: Key)
    ensures HasKey(FirstOfEach(s), key) <==> HasKey(s, key)
  {
    if s == [] {
    } else {
      var front, last := s[..|s| - 1], s[|s| - 1];
      FirstOfEachKeys(front, key);
      assert s == front + [last];
      HasKeySnoc(front, last, key);
      HasKeySnoc(FirstOfEach(front), last, key);
    }
  }

  lemma HasKeySnoc(s: seq<Account>, a: Account, key: Key)
    ensures HasKey(s + [a], key) <==> HasKey(s, key) || KeyOf(a) == key
  {
    assert a in s + [a];
    if HasKey(s, key) {
      var x :| x in s && KeyOf(x) == key;
      assert x in s + [a];
    }
  }

  lemma {:induction false} ReversedSnoc(s: seq<Account>, a: Account)
    ensures Reversed(s + [a]) == [a] + Reversed(s)
  {
    if s == [] {
    } else {
      ReversedSnoc(s[1..], a);
      assert (s + [a])[1..] == s[1..] + [a];
    }
  }

  lemma {:induction false} ReversedKeys(s: seq<Account>, key: Key)
    ensures HasKey(Reversed(s), key) <==> HasKey(s, key)
  {
    if s == [] {
    } else {
      ReversedKeys(s[1..], key);
      HasKeySnoc(Reversed(s[1..]), s[0], key);
      assert s == [s[0]] + s[1..];
    }
  }

  /** Reverse, keep first occurrences, reverse: the last occurrences stay, in their order. */
  lemma {:induction false} DedupKeepsLast(s: seq<Account>)
    ensures Reversed(FirstOfEach(Reversed(s))) == LastOfEach(s)
  {
    if s == [] {
    } else {
      var h, t := s[0], s[1..];
      DedupKeepsLast(t);
      var r := Reversed(t);
      assert (r + [h])[..|r|] == r;
      FirstOfEachKeys(r, KeyOf(h));
      ReversedKeys(t, KeyOf(h));
      ReversedSnoc(FirstOfEach(r), h);
    }
  }

  /** An account survives exactly when it occurs somewhere with nothing of its key behind it. */
  lemma {:induction false} LastOfEachMember(s: seq<Account>, a: Account)
    ensures a in LastOfEach(s) <==> exists i :: 0 <= i < |s| && s[i] == a && !HasKey(s[i + 1..], KeyOf(a))
  {
    if s == [] {
    } else {
      LastOfEachMember(s[1..], a);
      if exists i :: 0 <= i < |s[1..]| && s[1..][i] == a && !HasKey(s[1..][i + 1..], KeyOf(a)) {
        var i :| 0 <= i < |s[1..]| && s[1..][i] == a && !HasKey(s[1..][i + 1..], KeyOf(a));
        assert s[i + 1] == a && s[i + 1 + 1..] == s[1..][i + 1..];
      }
      if exists i :: 0 <= i < |s| && s[i] == a && !HasKey(s[i + 1..], KeyOf(a)) {
        var i :| 0 <= i < |s| && s[i] == a && !HasKey(s[i + 1..], KeyOf(a));
        if i > 0 {
          assert s[1..][i - 1] == a && s[1..][i - 1 + 1..] == s[i + 1..];
        }
      }
    }
  }

  /** No key survives twice. */
  lemma {:induction false} LastOfEachDistinct(s: seq<Account>)
    ensures forall i, j :: 0 <= i < j < |LastOfEach(s)| ==> KeyOf(LastOfEach(s)[i]) != KeyOf(LastOfEach(s)[j])
  {
    hide KeyOf;
    if s == [] {
    } else {
      var rest := LastOfEach(s[1..]);
      LastOfEachDistinct(s[1..]);
      if !HasKey(s[1..], KeyOf(s[0])) {
        forall k | 0 <= k < |rest| ensures KeyOf(rest[k]) != KeyOf(s[0]) {
          LastOfEachMember(s[1..], rest[k]);
        }
        assert LastOfEach(s) == [s[0]] + rest;
      } else {
        assert LastOfEach(s) == [] + rest == rest;
      }
    }
  }

  method ReverseInPlace(a: array<Account>)
    modifies a
    ensures a[..] == Reversed(old(a[..]))
  {
    hide Reversed;
    ghost var was := a[..];
    var i, j := 0, a.Length;
    while i < j
      invariant 0 <= i && i + j == a.Length && i <= j + 1
      invariant forall k :: 0 <= k < i ==> a[k] == was[a.Length - 1 - k]
      invariant forall k :: j <= k < a.Length ==> a[k] == was[a.Length - 1 - k]
      invariant forall k :: i <= k < j ==> a[k] == was[k]
    {
      j := j - 1;
      a[i], a[j] := a[j], a[i];
      i := i + 1;
    }
    IsReversed(was, a[..]);
  }

  lemma {:induction false} IsReversed(s: seq<Account>, r: seq<Account>)
    requires |r| == |s| && forall k :: 0 <= k < |r| ==> r[k] == s[|s| - 1 - k]
    ensures r == Reversed(s)
  {
    if s == [] {
    } else {
      var n := |r| - 1;
      assert r == r[..n] + [r[n]] && r[n] == s[0];
      forall k | 0 <= k < n ensures r[..n][k] == s[1..][n - 1 - k] {
        assert r[k] == s[n - k];
      }
      IsReversed(s[1..], r[..n]);
    }
  }

  /** slice.UniqueByComparator with key equality: two nested loops over what is kept so far. */
  method UniqueByKey(accounts: seq<Account>) returns (result: seq<Account>)
    ensures result == FirstOfEach(accounts)
  {
    result := [];
    var i := 0;
    while i < |accounts|
      invariant 0 <= i <= |accounts|
      invariant result == FirstOfEach(accounts[..i])
    {
      var item := accounts[i];
      var duplicate := false;
      var j := 0;
      while j < |result| && !duplicate
        invariant 0 <= j <= |result|
        invariant duplicate ==> HasKey(result, KeyOf(item))
        invariant !duplicate ==> forall k :: 0 <= k < j ==> KeyOf(result[k]) != KeyOf(item)
      {
        if item.owner == result[j].owner && item.address == result[j].address {
          assert result[j] in result;
          duplicate := true;
        }
        j := j + 1;
      }
      assert accounts[..i + 1][..i] == accounts[..i];
      if !duplicate {
        result := result + [item];
      }
      i := i + 1;
    }
    assert accounts[..i] == accounts;
  }

  // ---------------------------------------------------------------- the batch writers

  /** The accounts of one weekly table, in the order given. */
  function OfWeek(accounts: seq<Account>, week: TableName): seq<Account> {
    if accounts == [] then []
    else
      OfWeek(accounts[..|accounts| - 1], week) +
      if TableOf(accounts[|accounts| - 1].created) == week then [accounts[|accounts| - 1]] else []
  }

  const LOCK_TRIES := 20 * 10

  ghost predicate GetsLock(tryLock: nat -> bool) { exists i :: 1 <= i < LOCK_TRIES && tryLock(i) }

  /** The lock loop: it counts down before every try, so the lock is tried 199 times, and it is never lost
      once it was obtained. */
  method AcquireLock(tryLock: nat -> bool) returns (locked: bool)
    ensures locked <==> GetsLock(tryLock)
    ensures locked <==> exists i :: 1 <= i <= 199 && tryLock(i)
  {
    var times := LOCK_TRIES;
    locked := false;
    while true
      invariant 0 < times <= LOCK_TRIES
      invariant locked ==> times < LOCK_TRIES && tryLock(LOCK_TRIES - times)
      invariant !locked ==> forall i :: 1 <= i <= LOCK_TRIES - times ==> !tryLock(i)
      decreases times
    {
      times := times - 1;
      if locked {
        return;
      }
      if times <= 0 {
        return;
      }
      if tryLock(LOCK_TRIES - times) {
        locked := true;
      }
    }
  }

  /** The rows of a week after one batch. */
  function WeekAfter(table: Table, accounts: seq<Account>, week: TableName, works: bool): Table {
    if works then UpsertAll(table, LastOfEach(OfWeek(accounts, week))) else table
  }

  /** One call: its accounts, which tries of the lock succeed, and which weeks' statements do. */
  datatype TokenCall = TokenCall(accounts: seq<Account>, tryLock: nat -> bool, works: TableName -> bool)

  /** What a call leaves in the table of a week. */
  ghost function AfterCall(table: Table, c: TokenCall, week: TableName): Table {
    if GetsLock(c.tryLock) then WeekAfter(table, c.accounts, week, c.works(week)) else table
  }

  /** A wallet's row in the native table, whose unique key is the address alone. */
  datatype Wallet = Wallet(address: string, balance: int64, slot: int64, details: string)

  function AsAccount(w: Wallet): Account { Account("", w.address, 0, w.balance, w.slot, w.details) }

  function AsAccounts(wallets: seq<Wallet>): (accounts: seq<Account>)
    ensures |accounts| == |wallets| && forall i :: 0 <= i < |wallets| ==> accounts[i] == AsAccount(wallets[i])
  {
    seq(|wallets|, i requires 0 <= i < |wallets| => AsAccount(wallets[i]))
  }

  class AccountModel {
    // token accounts by week, and native accounts under their addresses
    var weeks: map<TableName, Table>
    var natives: Table

    constructor ()
      ensures weeks == map[] && natives == map[]
    {
      weeks, natives := map[], map[];
    }

    function Week(week: TableName): Table
      reads this
    {
      if week in weeks then weeks[week] else map[]
    }

    /** BatchInsertTokenAccounts: false is the lock timeout. A week whose statement fails is skipped silently. */
    method BatchInsertTokenAccounts(accounts: seq<Account>, tryLock: nat -> bool, works: TableName -> bool) returns (ok: bool)
      modifies this
      ensures natives == old(natives)
      ensures ok <==> accounts == [] || GetsLock(tryLock)
      ensures forall week :: Week(week) ==
                if ok then WeekAfter(old(Week(week)), accounts, week, works(week)) else old(Week(week))
      ensures forall week :: Week(week) == AfterCall(old(Week(week)), TokenCall(accounts, tryLock, works), week)
    {
      hide TableOf, LastOfEach, Upsert, GetsLock;
      if |accounts| == 0 {
        assert forall week :: OfWeek([], week) == [];
        EmptyBatch();
        return true;
      }
      var groups := GroupByWeek(accounts);
      var locked := AcquireLock(tryLock);
      if !locked {
        return false;
      }
      ok := true;
      EmptyBatch();
      ghost var was := weeks;
      var remaining := groups.Keys;
      while remaining != {}
        invariant remaining <= groups.Keys && natives == old(natives)
        invariant forall week :: Week(week) ==
                    if week in groups && week !in remaining
                    then WeekAfter(old(Week(week)), accounts, week, works(week)) else old(Week(week))
        decreases remaining
      {
        var week :| week in remaining;
        UpsertWeek(week, groups[week], works(week));
        remaining := remaining - {week};
      }
    }

    method GroupByWeek(accounts: seq<Account>) returns (groups: map<TableName, seq<Account>>)
      ensures forall week :: week in groups <==> OfWeek(accounts, week) != []
      ensures forall week :: week in groups ==> groups[week] == OfWeek(accounts, week)
    {
      hide TableOf;
      groups := map[];
      var i := 0;
      while i < |accounts|
        invariant 0 <= i <= |accounts|
        invariant forall week :: week in groups <==> OfWeek(accounts[..i], week) != []
        invariant forall week :: week in groups ==> groups[week] == OfWeek(accounts[..i], week)
      {
        var week := TableOf(accounts[i].created);
        assert accounts[..i + 1][..i] == accounts[..i];
        groups := groups[week := (if week in groups then groups[week] else []) + [accounts[i]]];
        i := i + 1;
      }
      assert accounts[..i] == accounts;
    }

    /** The routine of one table: reverse, unique, reverse, guarded insert. */
    method UpsertWeek(week: TableName, group: seq<Account>, works: bool)
      modifies this`weeks
      ensures Week(week) == if works then UpsertAll(old(Week(week)), LastOfEach(group)) else old(Week(week))
      ensures forall other :: other != week ==> Week(other) == old(Week(other))
    {
      hide LastOfEach, UpsertAll;
      var unique := Deduplicate(group);
      if works {
        var table := InsertGuarded(Week(week), unique);
        weeks := weeks[week := table];
      }
    }

    /** BatchInsertAccounts: the same guard, no deduplication. */
    method BatchInsertAccounts(wallets: seq<Wallet>, works: bool) returns (ok: bool)
      modifies this`natives
      ensures ok <==> wallets == [] || works
      ensures natives == if works then UpsertAll(old(natives), AsAccounts(wallets)) else old(natives)
    {
      if |wallets| == 0 {
        return true;
      }
      if works {
        natives := InsertGuarded(natives, AsAccounts(wallets));
      }
      ok := works;
    }
  }

  /** Reverse, unique, reverse, on a slice of its own. */
  method Deduplicate(group: seq<Account>) returns (unique: seq<Account>)
    ensures unique == LastOfEach(group)
  {
    hide LastOfEach;
    var a := new Account[|group|](i requires 0 <= i < |group| => group[i]);
    assert a[..] == group;
    ReverseInPlace(a);
    unique := UniqueByKey(a[..]);
    var b := new Account[|unique|](i requires 0 <= i < |unique| => unique[i]);
    assert b[..] == unique;
    ReverseInPlace(b);
    DedupKeepsLast(group);
    unique := b[..];
  }

  /** The multi-row INSERT ... ON DUPLICATE KEY UPDATE, row by row. */
  method InsertGuarded(table: Table, accounts: seq<Account>) returns (after: Table)
    ensures after == UpsertAll(table, accounts)
  {
    after := table;
    var i := 0;
    while i < |accounts|
      invariant 0 <= i <= |accounts|
      invariant after == UpsertAll(table, accounts[..i])
    {
      var a := accounts[i];
      var key := KeyOf(a);
      assert accounts[..i + 1][..i] == accounts[..i];
      if key in after {
        var row := after[key];
        if a.slot > row.slot {
          after := after[key := row.(balance := a.balance, slot := a.slot)];
        } else {
          assert after[key := row] == after;
        }
      } else {
        after := after[key := a];
      }
      i := i + 1;
    }
    assert accounts[..i] == accounts;
  }

  lemma EmptyBatch()
    ensures LastOfEach([]) == []
  {
  }

  // ---------------------------------------------------------------- convergence over any order of batches

  lemma {:induction false} SelectCount(s: seq<Account>, key: Key, a: Account)
    ensures multiset(Select(s, key))[a] == if KeyOf(a) == key then multiset(s)[a] else 0
  {
    if s == [] {
    } else {
      var front, last := s[..|s| - 1], s[|s| - 1];
      SelectCount(front, key, a);
      assert s == front + [last];
      assert multiset(s) == multiset(front) + multiset{last};
    }
  }

  lemma SelectPermutation(s: seq<Account>, r: seq<Account>, key: Key)
    requires multiset(s) == multiset(r)
    ensures multiset(Select(s, key)) == multiset(Select(r, key))
  {
    forall a ensures multiset(Select(s, key))[a] == multiset(Select(r, key))[a] {
      SelectCount(s, key, a);
      SelectCount(r, key, a);
    }
  }

  /** Guarded upserts in any order leave the same slot and balance, key by key, when the updates with the
      key's greatest slot agree. */
  lemma UpsertsConverge(s: seq<Account>, r: seq<Account>, key: Key)
    requires multiset(s) == multiset(r) && TopAgrees(Select(s, key))
    ensures var t, u := UpsertAll(map[], s), UpsertAll(map[], r);
            && (key in t <==> key in u)
            && (key in t ==> t[key].slot == u[key].slot && t[key].balance == u[key].balance)
  {
    hide UpsertAll, Register, Select, TopAgrees;
    RowIsRegister(s, key);
    RowIsRegister(r, key);
    SelectPermutation(s, r, key);
    SameMembers(Select(s, key), Select(r, key));
    if Select(s, key) != [] {
      RegisterConverges(Select(s, key), Select(r, key));
    }
  }

  /** What reaches the table of a run of batches, after the deduplication of each. */
  function Arrivals(batches: seq<seq<Account>>): seq<Account> {
    if batches == [] then [] else LastOfEach(batches[0]) + Arrivals(batches[1..])
  }

  lemma ArrivalsCons(batch: seq<Account>, batches: seq<seq<Account>>)
    ensures Arrivals([batch] + batches) == LastOfEach(batch) + Arrivals(batches)
    ensures Arrivals([]) == []
  {
    hide LastOfEach;
    assert ([batch] + batches)[1..] == batches;
  }

  lemma {:induction false} ArrivalsConcat(a: seq<seq<Account>>, b: seq<seq<Account>>)
    ensures Arrivals(a + b) == Arrivals(a) + Arrivals(b)
  {
    hide LastOfEach, Arrivals;
    if a == [] {
      assert a + b == b;
      ArrivalsCons([], b);
    } else {
      ArrivalsConcat(a[1..], b);
      ArrivalsCons(a[0], a[1..]);
      ArrivalsCons(a[0], a[1..] + b);
      assert a == [a[0]] + a[1..] && a + b == [a[0]] + (a[1..] + b);
    }
  }

  lemma {:induction false} ArrivalsPermutation(bs: seq<seq<Account>>, cs: seq<seq<Account>>)
    requires multiset(bs) == multiset(cs)
    ensures multiset(Arrivals(bs)) == multiset(Arrivals(cs))
  {
    hide LastOfEach;
    if bs == [] {
      assert |multiset(cs)| == 0;
    } else {
      var left, right := PermutationPullOut(bs, cs);
      ArrivalsPermutation(bs[1..], left + right);
      ArrivalsConcat(left, right);
      ArrivalsConcat(left + [bs[0]], right);
      ArrivalsConcat(left, [bs[0]]);
      assert [bs[0]][1..] == [];
    }
  }

  function RunBatches(batches: seq<seq<Account>>): Table {
    if batches == [] then map[]
    else UpsertAll(RunBatches(batches[..|batches| - 1]), LastOfEach(batches[|batches| - 1]))
  }

  lemma {:induction false} UpsertAllConcat(table: Table, a: seq<Account>, b: seq<Account>)
    ensures UpsertAll(table, a + b) == UpsertAll(UpsertAll(table, a), b)
  {
    hide Upsert;
    if b == [] {
      assert a + b == a;
    } else {
      var front := b[..|b| - 1];
      UpsertAllConcat(table, a, front);
      assert (a + b)[..|a + b| - 1] == a + front;
    }
  }

  lemma {:induction false} RunBatchesIsArrivals(batches: seq<seq<Account>>)
    ensures RunBatches(batches) == UpsertAll(map[], Arrivals(batches))
  {
    hide LastOfEach, Upsert;
    if batches == [] {
    } else {
      var front, last := batches[..|batches| - 1], batches[|batches| - 1];
      RunBatchesIsArrivals(front);
      assert batches == front + [last] && [last][1..] == [];
      ArrivalsConcat(front, [last]);
      assert Arrivals([last]) == LastOfEach(last);
      UpsertAllConcat(map[], Arrivals(front), LastOfEach(last));
    }
  }

  ghost predicate Reported(batches: seq<seq<Account>>, a: Account) { exists i :: 0 <= i < |batches| && a in batches[i] }

  /** Within a batch the slots of a key do not decrease. */
  ghost predicate SlotsInOrder(b: seq<Account>) {
    forall i, j :: 0 <= i < j < |b| && KeyOf(b[i]) == KeyOf(b[j]) ==> b[i].slot <= b[j].slot
  }

  lemma {:induction false} LastDominates(b: seq<Account>, a: Account) returns (last: Account)
    requires SlotsInOrder(b) && a in b
    ensures last in LastOfEach(b) && KeyOf(last) == KeyOf(a) && last.slot >= a.slot
  {
    var rest := b[1..];
    if HasKey(rest, KeyOf(a)) {
      var x := a;
      if a !in rest {
        x :| x in rest && KeyOf(x) == KeyOf(a);
      }
      last := LastDominates(rest, x);
      assert last in LastOfEach(b);
    } else {
      assert a == b[0] by {
        assert b == [b[0]] + rest;
      }
      last := a;
    }
  }

  lemma {:induction false} ArrivalsMember(batches: seq<seq<Account>>, a: Account)
    ensures a in Arrivals(batches) <==> exists i :: 0 <= i < |batches| && a in LastOfEach(batches[i])
  {
    hide LastOfEach;
    if batches == [] {
    } else {
      ArrivalsMember(batches[1..], a);
      if exists i :: 0 <= i < |batches[1..]| && a in LastOfEach(batches[1..][i]) {
        var i :| 0 <= i < |batches[1..]| && a in LastOfEach(batches[1..][i]);
        assert a in LastOfEach(batches[i + 1]);
      }
      if exists i :: 0 <= i < |batches| && a in LastOfEach(batches[i]) {
        var i :| 0 <= i < |batches| && a in LastOfEach(batches[i]);
        assert i > 0 ==> a in LastOfEach(batches[1..][i - 1]);
      }
    }
  }

  ghost predicate Orderly(batches: seq<seq<Account>>) {
    && (forall i :: 0 <= i < |batches| ==> SlotsInOrder(batches[i]))
    && (forall a, b :: Reported(batches, a) && Reported(batches, b) && KeyOf(a) == KeyOf(b) && a.slot == b.slot
                       ==> a.balance == b.balance)
  }

  lemma ArrivalsReported(batches: seq<seq<Account>>, a: Account)
    requires a in Arrivals(batches)
    ensures Reported(batches, a)
  {
    ArrivalsMember(batches, a);
    var i :| 0 <= i < |batches| && a in LastOfEach(batches[i]);
    LastOfEachMember(batches[i], a);
    assert a in batches[i];
  }

  /** An account is the last of its key in some batch. */
  ghost predicate LastInBatch(batches: seq<seq<Account>>, a: Account) {
    exists i :: 0 <= i < |batches| && a in LastOfEach(batches[i])
  }

  /** Every key of a batch has a last account in it. */
  lemma {:induction false} LastOfEachKeys(s: seq<Account>, key: Key)
    requires HasKey(s, key)
    ensures HasKey(LastOfEach(s), key)
  {
    assert s == [s[0]] + s[1..];
    if HasKey(s[1..], key) {
      LastOfEachKeys(s[1..], key);
      var a :| a in LastOfEach(s[1..]) && KeyOf(a) == key;
      assert a in LastOfEach(s);
    } else {
      assert s[0] in LastOfEach(s);
    }
  }

  lemma ReportedKey(batches: seq<seq<Account>>, a: Account) returns (last: Account)
    requires Reported(batches, a)
    ensures LastInBatch(batches, last) && KeyOf(last) == KeyOf(a)
  {
    hide LastOfEach;
    var i :| 0 <= i < |batches| && a in batches[i];
    LastOfEachKeys(batches[i], KeyOf(a));
    last :| last in LastOfEach(batches[i]) && KeyOf(last) == KeyOf(a);
  }

  /** Whatever the batches: a key is stored when it was ever reported, with the greatest slot among the last
      accounts of its batches and the balance of such an account. */
  lemma GreatestLastStored(batches: seq<seq<Account>>, key: Key)
    ensures key in RunBatches(batches) <==> exists a :: Reported(batches, a) && KeyOf(a) == key
    ensures key in RunBatches(batches) ==>
              && (forall a :: LastInBatch(batches, a) && KeyOf(a) == key ==> a.slot <= RunBatches(batches)[key].slot)
              && (exists a :: LastInBatch(batches, a) && KeyOf(a) == key
                              && a.slot == RunBatches(batches)[key].slot && a.balance == RunBatches(batches)[key].balance)
  {
    hide LastOfEach, Register, RunBatches, UpsertAll, Select, Arrivals;
    var s := Arrivals(batches);
    var us := Select(s, key);
    RunBatchesIsArrivals(batches);
    RowIsRegister(s, key);
    forall a ensures a in us <==> LastInBatch(batches, a) && KeyOf(a) == key {
      SelectMember(s, key, a);
      ArrivalsMember(batches, a);
    }
    forall a | Reported(batches, a) && KeyOf(a) == key ensures us != [] {
      var last := ReportedKey(batches, a);
      assert last in us;
    }
    if us != [] {
      var i := Winner(us);
      RegisterMeaning(us, i);
      assert us[i] in us && us[0] in us;
      ArrivalsMember(batches, us[0]);
      ArrivalsReported(batches, us[0]);
    }
  }

  /** The stored slot of a key is the greatest ever reported for it exactly when every slot reported for it is
      reached by the last account of the key in some batch. */
  lemma GreatestSlotStoredIff(batches: seq<seq<Account>>, key: Key)
    requires key in RunBatches(batches)
    ensures (forall a :: Reported(batches, a) && KeyOf(a) == key ==> a.slot <= RunBatches(batches)[key].slot)
            <==>
            (forall a :: Reported(batches, a) && KeyOf(a) == key ==>
               exists u :: LastInBatch(batches, u) && KeyOf(u) == key && u.slot >= a.slot)
  {
    hide LastInBatch, Reported, RunBatches;
    GreatestLastStored(batches, key);
    var top :| LastInBatch(batches, top) && KeyOf(top) == key && top.slot == RunBatches(batches)[key].slot;
  }

  /** Over batches that are ordered by slot the stored slot of a key is the greatest ever reported for it. */
  lemma GreatestSlotStored(batches: seq<seq<Account>>, key: Key)
    requires forall i :: 0 <= i < |batches| ==> SlotsInOrder(batches[i])
    ensures key in RunBatches(batches) <==> exists a :: Reported(batches, a) && KeyOf(a) == key
    ensures key in RunBatches(batches) ==>
              && (forall a :: Reported(batches, a) && KeyOf(a) == key ==> a.slot <= RunBatches(batches)[key].slot)
              && (exists a :: Reported(batches, a) && KeyOf(a) == key
                              && a.slot == RunBatches(batches)[key].slot && a.balance == RunBatches(batches)[key].balance)
  {
    hide LastOfEach, RunBatches, SlotsInOrder;
    GreatestLastStored(batches, key);
    if key in RunBatches(batches) {
      forall a | Reported(batches, a) && KeyOf(a) == key
        ensures exists u :: LastInBatch(batches, u) && KeyOf(u) == key && u.slot >= a.slot
      {
        var i :| 0 <= i < |batches| && a in batches[i];
        var last := LastDominates(batches[i], a);
      }
      GreatestSlotStoredIff(batches, key);
      var top :| LastInBatch(batches, top) && KeyOf(top) == key
                 && top.slot == RunBatches(batches)[key].slot && top.balance == RunBatches(batches)[key].balance;
      ArrivalsMember(batches, top);
      ArrivalsReported(batches, top);
    }
  }

  /** Batches may arrive in any order: for every key the same balance and slot are left, and the slot is the
      greatest ever reported. */
  lemma BatchesConverge(bs: seq<seq<Account>>, cs: seq<seq<Account>>, key: Key)
    requires multiset(bs) == multiset(cs) && Orderly(bs)
    ensures var t, u := RunBatches(bs), RunBatches(cs);
            && (key in t <==> key in u)
            && (key in t ==> t[key].slot == u[key].slot && t[key].balance == u[key].balance)
    ensures key in RunBatches(bs) ==>
              forall a :: Reported(bs, a) && KeyOf(a) == key ==> a.slot <= RunBatches(bs)[key].slot
  {
    hide LastOfEach, RunBatches, UpsertAll, Select, Arrivals, Reported;
    RunBatchesIsArrivals(bs);
    RunBatchesIsArrivals(cs);
    ArrivalsPermutation(bs, cs);
    var us := Select(Arrivals(bs), key);
    forall a | a in us ensures Reported(bs, a) && KeyOf(a) == key {
      SelectMember(Arrivals(bs), key, a);
      ArrivalsReported(bs, a);
    }
    UpsertsConverge(Arrivals(bs), Arrivals(cs), key);
    GreatestSlotStored(bs, key);
  }

  // ---------------------------------------------------------------- wallets

  /** The row of an address is there if and only if it was reported, and holds the slot and balance of the first
      report with its greatest slot. */
  lemma WalletRow(wallets: seq<Wallet>, address: string)
    ensures var table := UpsertAll(map[], AsAccounts(wallets));
            && (Key("", address) in table <==> exists w :: w in wallets && w.address == address)
            && (Key("", address) in table ==>
                  var row := table[Key("", address)];
                  exists i :: 0 <= i < |wallets| && wallets[i].address == address
                    && row.slot == wallets[i].slot && row.balance == wallets[i].balance
                    && (forall j :: 0 <= j < |wallets| && wallets[j].address == address ==> wallets[j].slot <= row.slot)
                    && (forall j :: 0 <= j < i && wallets[j].address == address ==> wallets[j].slot < row.slot))
  {
    hide Register, UpsertAll, Select;
    var accounts, key := AsAccounts(wallets), Key("", address);
    RowIsRegister(accounts, key);
    var us := Select(accounts, key);
    var at := SelectPositions(accounts, key);
    if us != [] {
      var k := Winner(us);
      RegisterMeaning(us, k);
      var i := at[k];
      assert accounts[i] == us[k] == AsAccount(wallets[i]);
      forall j | 0 <= j < |wallets| && wallets[j].address == address
        ensures wallets[j].slot <= us[k].slot && (j < i ==> wallets[j].slot < us[k].slot)
      {
        assert accounts[j] == AsAccount(wallets[j]) && KeyOf(accounts[j]) == key;
        var n :| 0 <= n < |at| && at[n] == j;
        assert us[n] == accounts[j];
        assert j < i ==> n < k;
      }
      assert wallets[i] in wallets;
    }
    forall w | w in wallets && w.address == address ensures us != [] {
      var j :| 0 <= j < |wallets| && wallets[j] == w;
      assert KeyOf(accounts[j]) == key && j in at;
    }
  }

  /** The updates of a key are the accounts of that key, in their order. */
  lemma SelectPositions(accounts: seq<Account>, key: Key) returns (at: seq<nat>)
    ensures |at| == |Select(accounts, key)|
    ensures forall k :: 0 <= k < |at| ==> at[k] < |accounts| && accounts[at[k]] == Select(accounts, key)[k]
    ensures forall j, k :: 0 <= j < k < |at| ==> at[j] < at[k]
    ensures forall i :: 0 <= i < |accounts| ==> (KeyOf(accounts[i]) == key <==> i in at)
  {
    hide KeyOf;
    SelectIsFilter(accounts, key);
    at := FilterPositions(accounts, (a: Account) => KeyOf(a) == key);
  }

  lemma {:induction false} SelectIsFilter(accounts: seq<Account>, key: Key)
    ensures Select(accounts, key) == Filter(accounts, (a: Account) => KeyOf(a) == key)
  {
    hide KeyOf;
    if accounts == [] {
    } else {
      var front, last := accounts[..|accounts| - 1], accounts[|accounts| - 1];
      SelectIsFilter(front, key);
      FilterSnoc(front, last, (a: Account) => KeyOf(a) == key);
      assert accounts == front + [last];
    }
  }

  // ---------------------------------------------------------------- calls and weeks

  /** What a run of calls leaves in the table of a week. */
  ghost function AfterCalls(calls: seq<TokenCall>, week: TableName): Table {
    if calls == [] then map[] else AfterCall(AfterCalls(calls[..|calls| - 1], week), calls[|calls| - 1], week)
  }

  /** The batches of a week that were written: of the calls that got the lock and whose statement worked. */
  ghost function Written(calls: seq<TokenCall>, week: TableName): seq<seq<Account>> {
    if calls == [] then []
    else
      var c := calls[|calls| - 1];
      Written(calls[..|calls| - 1], week)
      + if GetsLock(c.tryLock) && c.works(week) then [OfWeek(c.accounts, week)] else []
  }

  /** Every week's table ends as the run of the batches written to it: what is said about runs of batches holds for
      each week of any calls, timeouts and silently skipped weeks included. */
  lemma {:induction false} WeekIsRunOfWritten(calls: seq<TokenCall>, week: TableName)
    ensures AfterCalls(calls, week) == RunBatches(Written(calls, week))
  {
    hide GetsLock, OfWeek, LastOfEach, UpsertAll;
    if calls == [] {
    } else {
      var front, c := calls[..|calls| - 1], calls[|calls| - 1];
      WeekIsRunOfWritten(front, week);
      var batches, batch := Written(front, week), OfWeek(c.accounts, week);
      assert (batches + [batch])[..|batches|] == batches && batches + [] == batches;
    }
  }

  /** A week's group is the call's accounts of that week, in the order given. */
  lemma {:induction false} OfWeekIsFilter(accounts: seq<Account>, week: TableName)
    ensures OfWeek(accounts, week) == Filter(accounts, (a: Account) => StartOfWeek(a.created) == week.monday)
  {
    hide StartOfWeek;
    if accounts == [] {
    } else {
      var front, last := accounts[..|accounts| - 1], accounts[|accounts| - 1];
      OfWeekIsFilter(front, week);
      FilterSnoc(front, last, (a: Account) => StartOfWeek(a.created) == week.monday);
      assert accounts == front + [last];
    }
  }

  lemma OfWeekKeepsSlots(accounts: seq<Account>, week: TableName)
    requires SlotsInOrder(accounts)
    ensures SlotsInOrder(OfWeek(accounts, week))
  {
    hide StartOfWeek, KeyOf;
    OfWeekIsFilter(accounts, week);
    var at := FilterPositions(accounts, (a: Account) => StartOfWeek(a.created) == week.monday);
    var b := OfWeek(accounts, week);
    forall i, j | 0 <= i < j < |b| && KeyOf(b[i]) == KeyOf(b[j]) ensures b[i].slot <= b[j].slot {
      assert at[i] < at[j] && accounts[at[i]] == b[i] && accounts[at[j]] == b[j];
    }
  }

  /** Some call that got the lock, and whose statement for the week worked, had this account of the week. */
  ghost predicate ReportedIn(calls: seq<TokenCall>, week: TableName, a: Account) {
    exists i :: 0 <= i < |calls| && a in calls[i].accounts && StartOfWeek(a.created) == week.monday
                && GetsLock(calls[i].tryLock) && calls[i].works(week)
  }

  lemma {:induction false} WrittenReported(calls: seq<TokenCall>, week: TableName, a: Account)
    ensures Reported(Written(calls, week), a) <==> ReportedIn(calls, week, a)
  {
    hide StartOfWeek, GetsLock, OfWeek;
    if calls == [] {
    } else {
      var n := |calls| - 1;
      var front, c := calls[..n], calls[n];
      WrittenReported(front, week, a);
      OfWeekIsFilter(c.accounts, week);
      FilterMember(c.accounts, (x: Account) => StartOfWeek(x.created) == week.monday, a);
      ReportedSnoc(Written(front, week), OfWeek(c.accounts, week), a);
      assert Written(front, week) + [] == Written(front, week);
      if ReportedIn(front, week, a) {
        var i :| 0 <= i < |front| && a in front[i].accounts && StartOfWeek(a.created) == week.monday
                 && GetsLock(front[i].tryLock) && front[i].works(week);
        assert calls[i] == front[i];
      }
      if ReportedIn(calls, week, a) {
        var i :| 0 <= i < |calls| && a in calls[i].accounts && StartOfWeek(a.created) == week.monday
                 && GetsLock(calls[i].tryLock) && calls[i].works(week);
        assert i < n ==> front[i] == calls[i];
      }
    }
  }

  lemma ReportedSnoc(batches: seq<seq<Account>>, batch: seq<Account>, a: Account)
    ensures Reported(batches + [batch], a) <==> Reported(batches, a) || a in batch
  {
    var all := batches + [batch];
    if Reported(batches, a) {
      var i :| 0 <= i < |batches| && a in batches[i];
      assert all[i] == batches[i];
    }
    if a in batch {
      assert all[|batches|] == batch;
    }
  }

  lemma {:induction false} WrittenKeepsSlots(calls: seq<TokenCall>, week: TableName)
    requires forall i :: 0 <= i < |calls| ==> SlotsInOrder(calls[i].accounts)
    ensures forall i :: 0 <= i < |Written(calls, week)| ==> SlotsInOrder(Written(calls, week)[i])
  {
    hide SlotsInOrder, OfWeek, GetsLock;
    if calls == [] {
    } else {
      WrittenKeepsSlots(calls[..|calls| - 1], week);
      OfWeekKeepsSlots(calls[|calls| - 1].accounts, week);
    }
  }

  /** End to end: after calls whose accounts are ordered by slot per key, a week's row of a key is there if and only
      if it was reported for that week, and carries the greatest slot reported for it there. */
  lemma WeekHoldsGreatest(calls: seq<TokenCall>, week: TableName, key: Key)
    requires forall i :: 0 <= i < |calls| ==> SlotsInOrder(calls[i].accounts)
    ensures var table := AfterCalls(calls, week);
            && (key in table <==> exists a :: ReportedIn(calls, week, a) && KeyOf(a) == key)
            && (key in table ==>
                  && (forall a :: ReportedIn(calls, week, a) && KeyOf(a) == key ==> a.slot <= table[key].slot)
                  && (exists a :: ReportedIn(calls, week, a) && KeyOf(a) == key
                                  && a.slot == table[key].slot && a.balance == table[key].balance))
  {
    hide AfterCalls, RunBatches, Written, ReportedIn, Reported, SlotsInOrder, KeyOf;
    WeekIsRunOfWritten(calls, week);
    WrittenKeepsSlots(calls, week);
    GreatestSlotStored(Written(calls, week), key);
    forall a ensures Reported(Written(calls, week), a) <==> ReportedIn(calls, week, a) {
      WrittenReported(calls, week, a);
    }
  }

  /** A batch whose slots go down for a key: the deduplication keeps the older slot. */
  lemma UnorderedBatchLosesSlot(a: Account, b: Account)
    requires KeyOf(a) == KeyOf(b) && a.slot > b.slot
    ensures KeyOf(b) in RunBatches([[a, b]]) && RunBatches([[a, b]])[KeyOf(b)] == b
  {
    var s := [a, b];
    assert LastOfEach(s) == [b] by { DedupOfTwo(a, b); }
    assert UpsertAll(map[], [b]) == map[KeyOf(b) := b] by { UpsertOne(b); }
    hide LastOfEach, UpsertAll;
    var batches: seq<seq<Account>> := [s];
    assert batches[..0] == [];
    assert RunBatches([]) == map[];
  }

  lemma DedupOfTwo(a: Account, b: Account)
    requires KeyOf(a) == KeyOf(b)
    ensures LastOfEach([a, b]) == [b]
  {
    var s := [a, b];
    assert b in s[1..];
    assert s[1..] == [b] && [b][1..] == [];
    assert LastOfEach([b]) == [b];
  }

  lemma UpsertOne(b: Account)
    ensures UpsertAll(map[], [b]) == map[KeyOf(b) := b]
  {
    assert [b][..0] == [];
  }
}
