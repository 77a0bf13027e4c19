/** The candle cache: pushes that rewrite a sorted set command by command, and the two readers. */
module KlineCache {
  import opened Wrappers
  import opened Sequences
  import opened Klines
  import opened KlineCodec
  import opened SortedSet
  import opened KlineStore
  import opened KlineHistory

  // ---------------------------------------------------------------- FetchKline

  /** The decodable candles of a range that lie before `to`, labelled with their series. */
  function CandlesBefore(list: ZSet, chainId: int64, interval: string, to: int): seq<Kline> {
    if list == [] then []
    else
      (match Decompress(list[0].member)
       case None => []
       case Some(k) => if k.candleTime < to then [k.(chainId := chainId, interval := interval)] else [])
      + CandlesBefore(list[1..], chainId, interval, to)
  }

  lemma CandlesBeforeNothing(chainId: int64, interval: string, to: int)
    ensures CandlesBefore([], chainId, interval, to) == []
  {
  }

  lemma CandlesBeforeCons(list: ZSet, chainId: int64, interval: string, to: int)
    requires list != []
    ensures CandlesBefore(list, chainId, interval, to)
            == CandlesBefore([list[0]], chainId, interval, to) + CandlesBefore(list[1..], chainId, interval, to)
  {
    hide Decompress;
    var one := [list[0]];
    assert one[1..] == [];
  }

  lemma {:induction false} CandlesBeforeConcat(a: ZSet, b: ZSet, chainId: int64, interval: string, to: int)
    ensures CandlesBefore(a + b, chainId, interval, to)
            == CandlesBefore(a, chainId, interval, to) + CandlesBefore(b, chainId, interval, to)
  {
    hide CandlesBefore;
    if a == [] {
      assert a + b == b;
      CandlesBeforeNothing(chainId, interval, to);
    } else {
      CandlesBeforeConcat(a[1..], b, chainId, interval, to);
      assert (a + b)[1..] == a[1..] + b && (a + b)[0] == a[0];
      CandlesBeforeCons(a, chainId, interval, to);
      CandlesBeforeCons(a + b, chainId, interval, to);
    }
  }

  /** A faithful, strictly ordered range yields one candle per stored time, in order. */
  lemma {:induction false} CandlesOfRange(list: ZSet, chainId: int64, interval: string, to: int)
    requires Valid(list) && forall e :: e in list ==> e.score <= to
    ensures var list' := if list != [] && list[|list| - 1].score == to then list[..|list| - 1] else list;
            var ks := CandlesBefore(list, chainId, interval, to);
            && |ks| == |list'|
            && forall i :: 0 <= i < |ks| ==>
                 Decompress(list'[i].member) == Some(ks[i].(chainId := 0, interval := ""))
                 && ks[i].candleTime == list'[i].score && ks[i].chainId == chainId && ks[i].interval == interval
  {
    hide Decompress, CandlesBefore;
    if list == [] {
      CandlesBeforeNothing(chainId, interval, to);
    } else {
      var e, rest := list[0], list[1..];
      CandlesBeforeCons(list, chainId, interval, to);
      CandlesBeforeOne(e, chainId, interval, to);
      assert e in list && list[|list| - 1] in list;
      assert forall x :: x in rest ==> x in list;
      assert Faithful(e);
      DecodedLabels(e.member);
      CandlesOfRange(rest, chainId, interval, to);
      assert rest != [] ==> rest[|rest| - 1] == list[|list| - 1];
    }
  }

  /** What a query over [from, to) of a stored series may return. */
  ghost predicate AnswersQuery(res: seq<Kline>, z: ZSet, chainId: int64, interval: string, from: int, to: int, limit: nat) {
    && (forall i, j :: 0 <= i < j < |res| ==> res[i].candleTime < res[j].candleTime)
    && (forall i :: 0 <= i < |res| ==>
          && from <= res[i].candleTime < to
          && At(z, res[i].candleTime) == Some(res[i].(chainId := 0, interval := ""))
          && res[i].chainId == chainId && res[i].interval == interval)
    && |res| <= limit
    && (forall t :: from <= t < to && At(z, t).Some? ==>
          (exists i :: 0 <= i < |res| && res[i].candleTime == t)
          || (|res| == limit && (forall i :: 0 <= i < |res| ==> res[i].candleTime < t)))
  }

  function Take(ks: seq<Kline>, n: nat): seq<Kline> { if |ks| <= n then ks else ks[..n] }

  lemma RangeFaithful(z: ZSet, lo: int, hi: int)
    requires Valid(z)
    ensures Valid(RangeByScore(z, lo, hi))
    ensures forall e :: e in RangeByScore(z, lo, hi) <==> e in z && lo <= e.score <= hi
  {
    hide Decompress;
    RangeStrict(z, lo, hi);
    forall e ensures e in RangeByScore(z, lo, hi) <==> e in z && lo <= e.score <= hi {
      RangeMember(z, lo, hi, e);
    }
  }

  /** Each stored candle of [from, to), once and in order. */
  ghost predicate ExactCandles(ks: seq<Kline>, z: ZSet, chainId: int64, interval: string, from: int, to: int) {
    && (forall i, j :: 0 <= i < j < |ks| ==> ks[i].candleTime < ks[j].candleTime)
    && (forall i :: 0 <= i < |ks| ==>
          && from <= ks[i].candleTime < to
          && At(z, ks[i].candleTime) == Some(ks[i].(chainId := 0, interval := ""))
          && ks[i].chainId == chainId && ks[i].interval == interval)
    && (forall t :: from <= t < to && At(z, t).Some? ==> exists i :: 0 <= i < |ks| && ks[i].candleTime == t)
  }

  /** A stored candle of [from, to) is among those of the range. */
  lemma RangeHasCandle(z: ZSet, chainId: int64, interval: string, from: int, to: int, t: int) returns (i: nat)
    requires Valid(z) && from <= t < to && At(z, t).Some?
    ensures var ks := CandlesBefore(RangeByScore(z, from, to), chainId, interval, to);
            i < |ks| && ks[i].candleTime == t
  {
    hide Decompress, CandlesBefore, RangeByScore, At;
    var list := RangeByScore(z, from, to);
    RangeFaithful(z, from, to);
    CandlesOfRange(list, chainId, interval, to);
    var e := EntryAt(z, t);
    i :| 0 <= i < |list| && list[i] == e;
    assert i == |list| - 1 ==> list[|list| - 1].score == t;
  }

  lemma RangeIsExact(z: ZSet, chainId: int64, interval: string, from: int, to: int)
    requires Valid(z)
    ensures ExactCandles(CandlesBefore(RangeByScore(z, from, to), chainId, interval, to), z, chainId, interval, from, to)
  {
    hide Decompress, CandlesBefore, RangeByScore, At;
    var list := RangeByScore(z, from, to);
    RangeFaithful(z, from, to);
    CandlesOfRange(list, chainId, interval, to);
    var ks := CandlesBefore(list, chainId, interval, to);
    forall i | 0 <= i < |ks|
      ensures from <= ks[i].candleTime < to && At(z, ks[i].candleTime) == Some(ks[i].(chainId := 0, interval := ""))
    {
      assert list[i] in list;
      AtEntry(z, list[i]);
    }
    forall t | from <= t < to && At(z, t).Some? ensures exists i :: 0 <= i < |ks| && ks[i].candleTime == t {
      var i := RangeHasCandle(z, chainId, interval, from, to, t);
    }
  }

  /** The first candles of the range answer the query. */
  lemma FirstCandlesAnswer(ks: seq<Kline>, z: ZSet, chainId: int64, interval: string, from: int, to: int, limit: nat)
    requires ExactCandles(ks, z, chainId, interval, from, to)
    ensures AnswersQuery(Take(ks, limit), z, chainId, interval, from, to, limit)
  {
    hide At;
    var res := Take(ks, limit);
    forall t | from <= t < to && At(z, t).Some?
      ensures (exists i :: 0 <= i < |res| && res[i].candleTime == t)
              || (|res| == limit && (forall i :: 0 <= i < |res| ==> res[i].candleTime < t))
    {
      var j :| 0 <= j < |ks| && ks[j].candleTime == t;
      if j < |res| {
        assert res[j].candleTime == t;
      }
    }
  }

  /** Reading one more entry of a range. */
  lemma CandlesBeforeStep(list: ZSet, i: nat, chainId: int64, interval: string, to: int)
    requires i < |list|
    ensures CandlesBefore(list[..i + 1], chainId, interval, to)
            == CandlesBefore(list[..i], chainId, interval, to) + CandlesBefore([list[i]], chainId, interval, to)
    ensures CandlesBefore(list, chainId, interval, to)
            == CandlesBefore(list[..i + 1], chainId, interval, to) + CandlesBefore(list[i + 1..], chainId, interval, to)
  {
    assert list[..i + 1] == list[..i] + [list[i]];
    CandlesBeforeConcat(list[..i], [list[i]], chainId, interval, to);
    assert list == list[..i + 1] + list[i + 1..];
    CandlesBeforeConcat(list[..i + 1], list[i + 1..], chainId, interval, to);
  }

  lemma CandlesBeforeOne(e: Entry, chainId: int64, interval: string, to: int)
    ensures CandlesBefore([e], chainId, interval, to) ==
            match Decompress(e.member)
            case None => []
            case Some(k) => if k.candleTime < to then [k.(chainId := chainId, interval := interval)] else []
  {
    hide Decompress;
    assert [e][1..] == [];
  }

  /** A range that starts at its upper bound has nothing before it. */
  lemma NothingBeforeBound(list: ZSet, chainId: int64, interval: string, to: int)
    requires Valid(list) && list != [] && list[0].score >= to && forall e :: e in list ==> e.score <= to
    ensures CandlesBefore(list, chainId, interval, to) == []
  {
    hide Decompress, CandlesBefore;
    assert list[|list| - 1] in list;
    CandlesOfRange(list, chainId, interval, to);
  }

  // ---------------------------------------------------------------- GetKline24Info

  /** Kline24InfoItem; the quotient of the price change is exact here. */
  datatype DayInfo = DayInfo(change: real, volume: F64, txs: uint32)

  const NO_INFO := DayInfo(0.0, 0, 0)

  function PriceChange(open: F64, close: F64): real
    requires open != 0
  {
    var change := (close - open) as real / open as real;
    if change > 999.99 then 999.99 else change
  }

  /** What the stored range is worth as day information, when every member decodes. */
  function DayInfoOf(list: ZSet): DayInfo {
    if list == [] then NO_INFO
    else
      match (Decompress(list[|list| - 1].member), Decompress(list[0].member))
      case (Some(latest), Some(oldest)) =>
        if oldest.open == 0 then NO_INFO
        else DayInfo(PriceChange(oldest.open, latest.close),
                     Sum(list, EntryAmountUsd), Sum(list, EntryTotalCount) % 0x1_0000_0000)
      case _ => NO_INFO
  }

  /** t is the earliest candle time among ks. */
  ghost predicate Earliest(ks: seq<Kline>, t: int) {
    (exists k :: k in ks && k.candleTime == t) && (forall k :: k in ks ==> t <= k.candleTime)
  }

  lemma {:induction false} WindowMember(h: seq<Push>, lo: int, hi: int, k: Kline)
    ensures k in InWindow(h, lo, hi) <==> lo <= k.candleTime <= hi && exists p :: p in h && p.kline == k
  {
    if h == [] {
    } else {
      var front, last := h[..|h| - 1], h[|h| - 1];
      WindowMember(front, lo, hi, k);
      assert h == front + [last];
      assert last in h;
    }
  }

  /** t is the latest candle time among ks. */
  ghost predicate Latest(ks: seq<Kline>, t: int) {
    (exists k :: k in ks && k.candleTime == t) && (forall k :: k in ks ==> k.candleTime <= t)
  }

  /** Any candles have an earliest and a latest time. */
  lemma {:induction false} EndsExist(ks: seq<Kline>) returns (t: int, u: int)
    requires ks != []
    ensures Earliest(ks, t) && Latest(ks, u)
  {
    var first := ks[0].candleTime;
    assert ks == [ks[0]] + ks[1..];
    if |ks| == 1 {
      t, u := first, first;
    } else {
      t, u := EndsExist(ks[1..]);
      t := if first < t then first else t;
      u := if first > u then first else u;
    }
  }

  ghost predicate HasTime(ks: seq<Kline>, t: int) { exists k :: k in ks && k.candleTime == t }

  /** An entry of a retained window is the store's fold of all candles pushed for its time, and some were. */
  lemma EntryOfWindow(h: seq<Push>, lo: int, hi: int, e: Entry)
    requires CommaFree(h) && WindowRetained(h, lo, hi)
    ensures e in RangeByScore(RunSet(h), lo, hi) ==>
              && AtTime(h, e.score) != [] && Decompress(e.member) == Some(StoredFold(AtTime(h, e.score)))
              && HasTime(InWindow(h, lo, hi), e.score)
  {
    hide Decompress, RunSet, InWindow, RangeByScore, At, StoredFold;
    if e in RangeByScore(RunSet(h), lo, hi) {
      var z := RunSet(h);
      RunValid(h, EMPTY_KLINE);
      RangeFaithful(z, lo, hi);
      AtEntry(z, e);
      RunCandle(h, e.score);
      var k := AtTime(h, e.score)[0];
      assert k in AtTime(h, e.score);
      WindowMember(h, e.score, e.score, k);
      WindowMember(h, lo, hi, k);
    }
  }

  /** Every candle time pushed into a retained window has its entry. */
  lemma TimeOfWindow(h: seq<Push>, lo: int, hi: int, t: int) returns (e: Entry)
    requires CommaFree(h) && WindowRetained(h, lo, hi) && HasTime(InWindow(h, lo, hi), t)
    ensures e in RangeByScore(RunSet(h), lo, hi) && e.score == t
  {
    hide Decompress, RunSet, InWindow, RangeByScore, At, StoredFold;
    var z := RunSet(h);
    var k :| k in InWindow(h, lo, hi) && k.candleTime == t;
    WindowMember(h, lo, hi, k);
    WindowMember(h, t, t, k);
    RunValid(h, EMPTY_KLINE);
    RunCandle(h, t);
    RangeFaithful(z, lo, hi);
    e := EntryAt(z, t);
  }

  /** The range of a retained window starts with the earliest candle pushed into it. */
  lemma OldestOfWindow(h: seq<Push>, lo: int, hi: int, t: int)
    requires CommaFree(h) && WindowRetained(h, lo, hi) && Earliest(InWindow(h, lo, hi), t)
    ensures var list := RangeByScore(RunSet(h), lo, hi);
            && list != [] && AtTime(h, t) != []
            && Decompress(list[0].member) == Some(StoredFold(AtTime(h, t)))
  {
    hide Decompress, RunSet, InWindow, RangeByScore, StoredFold, WindowRetained, CommaFree, Faithful;
    var list := RangeByScore(RunSet(h), lo, hi);
    RunValid(h, EMPTY_KLINE);
    RangeFaithful(RunSet(h), lo, hi);
    var e := TimeOfWindow(h, lo, hi, t);
    var j :| 0 <= j < |list| && list[j] == e;
    var first := list[0];
    EntryOfWindow(h, lo, hi, first);
    assert first.score == t;
  }

  lemma LatestBound(ks: seq<Kline>, t: int)
    requires Latest(ks, t)
    ensures HasTime(ks, t) && forall s :: HasTime(ks, s) ==> s <= t
  {
  }

  lemma LastEntry(list: ZSet, e: Entry)
    requires StrictScores(list) && e in list
    ensures e.score <= list[|list| - 1].score && list[|list| - 1] in list
  {
  }

  /** It ends with the latest one. */
  lemma LatestOfWindow(h: seq<Push>, lo: int, hi: int, t: int)
    requires CommaFree(h) && WindowRetained(h, lo, hi) && Latest(InWindow(h, lo, hi), t)
    ensures var list := RangeByScore(RunSet(h), lo, hi);
            && list != [] && AtTime(h, t) != []
            && Decompress(list[|list| - 1].member) == Some(StoredFold(AtTime(h, t)))
  {
    hide *;
    var list := RangeByScore(RunSet(h), lo, hi);
    LatestBound(InWindow(h, lo, hi), t);
    var e := TimeOfWindow(h, lo, hi, t);
    RangeIsStrict(h, lo, hi);
    LastEntry(list, e);
    EntryOfWindow(h, lo, hi, list[|list| - 1]);
  }

  lemma RangeIsStrict(h: seq<Push>, lo: int, hi: int)
    requires CommaFree(h)
    ensures StrictScores(RangeByScore(RunSet(h), lo, hi))
  {
    hide RunSet, RangeByScore;
    RunValid(h, EMPTY_KLINE);
    RangeFaithful(RunSet(h), lo, hi);
  }

  /** Nothing was pushed into the window: nothing is stored in it. */
  lemma NothingInWindow(h: seq<Push>, lo: int, hi: int)
    requires CommaFree(h) && WindowRetained(h, lo, hi) && InWindow(h, lo, hi) == []
    ensures RangeByScore(RunSet(h), lo, hi) == []
    ensures DayInfoOf(RangeByScore(RunSet(h), lo, hi)) == DayInfo(0.0, 0, 0)
  {
    hide Decompress, RunSet, InWindow, StoredFold;
    var list := RangeByScore(RunSet(h), lo, hi);
    if list != [] {
      EntryOfWindow(h, lo, hi, list[0]);
    }
  }

  /** End to end: inside the retention period the reported volume and count are those of every candle ever
      pushed into the window, and the change leads from the earliest Open to the latest Close, unless the
      earliest stored candle opened at zero. */
  lemma DayTotals(h: seq<Push>, lo: int, hi: int, t: int, u: int)
    requires CommaFree(h) && WindowRetained(h, lo, hi)
    requires Earliest(InWindow(h, lo, hi), t) && Latest(InWindow(h, lo, hi), u)
    ensures AtTime(h, t) != [] && AtTime(h, u) != []
    ensures var info := DayInfoOf(RangeByScore(RunSet(h), lo, hi));
            var ks := InWindow(h, lo, hi);
            var open, close := StoredFold(AtTime(h, t)).open, StoredFold(AtTime(h, u)).close;
            if open == 0 then info == DayInfo(0.0, 0, 0)
            else
              && info.volume == Sum(ks, AmountUsd)
              && info.txs == Sum(ks, TotalCount) % 0x1_0000_0000
              && info.change == PriceChange(open, close)
  {
    hide Decompress, RunSet, InWindow, At, StoredFold, PriceChange;
    OldestOfWindow(h, lo, hi, t);
    LatestOfWindow(h, lo, hi, u);
    WindowVolume(h, lo, hi);
    WindowCount(h, lo, hi);
  }

  /** The change is the relative one: applied to a positive Open it gives the Close, up to a gain of 99999
      percent, where it is capped. */
  lemma PriceChangeMeaning(open: F64, close: F64)
    requires open > 0
    ensures var change := PriceChange(open, close);
            && change <= 999.99
            && (change > 0.0 <==> close > open)
            && (change < 999.99 ==> open as real + change * open as real == close as real)
            && (change == 999.99 <==> close as real >= 1000.99 * open as real)
  {
    var o, c := open as real, close as real;
    var relative := (c - o) / o;
    assert (close - open) as real == c - o;
    assert relative * o == c - o;
    RelativeChange(o, c, relative);
  }

  lemma RelativeChange(o: real, c: real, relative: real)
    requires o > 0.0 && relative * o == c - o
    ensures relative > 0.0 <==> c > o
    ensures o + relative * o == c
    ensures relative >= 999.99 <==> c >= 1000.99 * o
  {
    ScaledOrder(relative, 0.0, o);
    ScaledOrder(relative, 999.99, o);
    assert 999.99 * o + o == 1000.99 * o;
  }

  lemma ScaledOrder(x: real, y: real, o: real)
    requires o > 0.0
    ensures x >= y <==> x * o >= y * o
    ensures x > y <==> x * o > y * o
  {
    assert (x - y) * o == x * o - y * o;
    if x > y {
      assert (x - y) * o > 0.0;
    } else {
      assert (y - x) * o >= 0.0;
      assert y > x ==> (y - x) * o > 0.0;
    }
  }

  // ---------------------------------------------------------------- the cache

  /** make panics for a capacity that is negative or whose 8-byte pointers exceed the 2^48 bytes of a 64-bit
      process; this is the largest it accepts. */
  const MAX_CAPACITY: int64 := 0x2000_0000_0000

  predicate CapacityOk(limit: int64) { 0 <= limit <= MAX_CAPACITY }

  datatype FetchResult = Fetched(klines: seq<Kline>) | BadCapacity

  class Cache {
    // the sorted sets of the Redis server, by key
    var sets: map<string, ZSet>

    constructor ()
      ensures sets == map[]
    {
      sets := map[];
    }

    function Get(key: string): ZSet
      reads this
    {
      if key in sets then sets[key] else []
    }

    /** NewPush: nothing happens without the lock; with it, one push of the series' sorted set. The
        result is the candle that was handed in, overwritten by the merge. */
    method NewPush(kline: KlineRecord, locked: bool, now: int) returns (newKline: KlineRecord?, crashed: bool)
      modifies this, kline
      ensures !locked ==>
                newKline == null && !crashed && sets == old(sets) && kline.Value() == old(kline.Value())
      ensures locked ==>
                var k := old(kline.Value());
                var key := Key(k.chainId, k.pairAddr, k.interval);
                match PushSet(old(Get(key)), k)
                case Stored(z, n) =>
                  && !crashed && newKline == kline && kline.Value() == n
                  && sets == old(sets)[key := Trim(z, k.interval, now)]
                case Undecodable =>
                  !crashed && newKline == kline && kline.Value() == k && sets == old(sets)
                case NilDereference => crashed
    {
      newKline, crashed := null, false;
      if !locked {
        return;
      }
      var key := Key(kline.chainId, kline.pairAddr, kline.interval);
      var interval, candleTime := kline.interval, kline.candleTime;
      newKline := kline;
      var z := Get(key);
      var v := RangeByScore(z, candleTime, candleTime);
      if |v| == 0 {
        z := Add(z, candleTime, Compress(kline.Value()));
      } else {
        var decoded := Decompress(v[0].member);
        if decoded == None {
          return;
        }
        z := RemoveByScore(z, candleTime, candleTime);
        var oldKline := new KlineRecord(decoded.value);
        newKline := MergeKline(oldKline, kline);
        if newKline == null {
          crashed := true;
          return;
        }
        z := Add(z, candleTime, Compress(newKline.Value()));
      }
      if CountByScore(z, 0, Horizon(interval, now)) > TRIM_THRESHOLD {
        z := RemoveByScore(z, 0, Horizon(interval, now));
      }
      sets := sets[key := z];
    }

    /** FetchKline: the first Limit candles of [From, To) in order; a Limit of 0 still admits one. */
    method FetchKline(chainId: int64, pairAddr: string, interval: string, from: int64, to: int64, limit: int64)
      returns (r: FetchResult)
      ensures !CapacityOk(limit) <==> r == BadCapacity
      ensures 0 <= limit <= 35_184_372_088_832 <==> r.Fetched?
      ensures CapacityOk(limit) && Valid(Get(Key(chainId, pairAddr, interval))) ==>
                r.Fetched? && AnswersQuery(r.klines, Get(Key(chainId, pairAddr, interval)), chainId, interval, from, to,
                                           if limit == 0 then 1 else limit)
    {
      hide CandlesBefore, Decompress, RangeByScore, AnswersQuery, ExactCandles, Key;
      if !CapacityOk(limit) {
        return BadCapacity;
      }
      var z := Get(Key(chainId, pairAddr, interval));
      var list := RangeByScore(z, from, to);
      var res := ReadCandles(list, chainId, interval, to, limit);
      r := Fetched(res);
      if Valid(z) {
        RangeFaithful(z, from, to);
        RangeIsExact(z, chainId, interval, from, to);
        FirstCandlesAnswer(CandlesBefore(list, chainId, interval, to), z, chainId, interval, from, to,
                           if limit == 0 then 1 else limit);
        if limit == 0 {
          FirstOfRange(list, chainId, interval, to);
        }
      }
    }

    /** GetKline24Info of one series: the totals of a stored range, read in one pass. A member that does not
        decode would be dereferenced as nil. */
    method GetKline24Info(chainId: int64, pairAddr: string, from: int64, to: int64)
      returns (info: DayInfo, crashed: bool)
      ensures Valid(Get(Key(chainId, pairAddr, "1m"))) ==>
                !crashed && info == DayInfoOf(RangeByScore(Get(Key(chainId, pairAddr, "1m")), from, to))
    {
      hide Decompress, RangeByScore, Key, Sum;
      var z := Get(Key(chainId, pairAddr, "1m"));
      var list := RangeByScore(z, from, to);
      info, crashed := NO_INFO, false;
      if list == [] {
        return;
      }
      var latest, oldest := Decompress(list[|list| - 1].member), Decompress(list[0].member);
      if latest == None || oldest == None || oldest.value.open == 0 {
        return;
      }
      var volume, txs := SumEntries(list);
      if volume.None? {
        crashed := true;
        if Valid(z) {
          RangeFaithful(z, from, to);
        }
        return;
      }
      info := DayInfo(PriceChange(oldest.value.open, latest.value.close), volume.value, txs);
    }
  }

  /** FetchKline's loop: decode, label, stop as soon as the limit is reached. */
  method ReadCandles(list: ZSet, chainId: int64, interval: string, to: int64, limit: int64) returns (res: seq<Kline>)
    requires limit >= 0
    ensures limit >= 1 ==> res == Take(CandlesBefore(list, chainId, interval, to), limit)
    ensures limit == 0 && (forall e :: e in list ==> Decompress(e.member).Some?) ==>
              res == if list == [] then [] else CandlesBefore(list[..1], chainId, interval, to)
  {
    hide CandlesBefore, Decompress;
    res := [];
    CandlesBeforeNothing(chainId, interval, to);
    ghost var ks := CandlesBefore(list, chainId, interval, to);
    var i := 0;
    while i < |list|
      invariant 0 <= i <= |list|
      invariant res == CandlesBefore(list[..i], chainId, interval, to)
      invariant |res| < limit || (limit == 0 && forall j :: 0 <= j < i ==> Decompress(list[j].member).None?)
    {
      CandlesBeforeStep(list, i, chainId, interval, to);
      CandlesBeforeOne(list[i], chainId, interval, to);
      var decoded := Decompress(list[i].member);
      if decoded.Some? {
        var kline := decoded.value.(chainId := chainId, interval := interval);
        if kline.candleTime < to {
          res := res + [kline];
        }
        if |res| >= limit {
          assert limit == 0 && i > 0 ==> list[0] in list;
          return;
        }
      }
      i := i + 1;
    }
    assert list[..i] == list;
    assert limit == 0 && i > 0 ==> list[0] in list;
  }

  /** The candle of a range's first entry is the first candle of the range. */
  lemma FirstOfRange(list: ZSet, chainId: int64, interval: string, to: int)
    requires Valid(list) && forall e :: e in list ==> e.score <= to
    ensures (if list == [] then [] else CandlesBefore(list[..1], chainId, interval, to))
            == Take(CandlesBefore(list, chainId, interval, to), 1)
  {
    hide CandlesBefore, Decompress;
    if list == [] {
      CandlesBeforeNothing(chainId, interval, to);
    } else {
      assert list[0] in list && Faithful(list[0]);
      CandlesBeforeStep(list, 0, chainId, interval, to);
      CandlesBeforeNothing(chainId, interval, to);
      CandlesBeforeOne(list[0], chainId, interval, to);
      assert list[..0] == [] && [list[0]] == list[..1];
      if list[0].score >= to {
        NothingBeforeBound(list, chainId, interval, to);
      }
    }
  }

  /** GetKline24Info's loop; None is the nil dereference. */
  method SumEntries(list: ZSet) returns (volume: Option<F64>, txs: uint32)
    ensures volume == None <==> exists e :: e in list && Decompress(e.member).None?
    ensures volume.Some? ==>
              volume.value == Sum(list, EntryAmountUsd) && txs == Sum(list, EntryTotalCount) % 0x1_0000_0000
  {
    hide Decompress;
    var total := 0;
    volume, txs := None, 0;
    var i := 0;
    while i < |list|
      invariant 0 <= i <= |list|
      invariant forall j :: 0 <= j < i ==> Decompress(list[j].member).Some?
      invariant total == Sum(list[..i], EntryAmountUsd)
      invariant txs == Sum(list[..i], EntryTotalCount) % 0x1_0000_0000
    {
      var decoded := Decompress(list[i].member);
      if decoded == None {
        assert list[i] in list;
        return;
      }
      assert list[..i + 1] == list[..i] + [list[i]];
      SumSnoc(list[..i], list[i], EntryAmountUsd);
      SumSnoc(list[..i], list[i], EntryTotalCount);
      Uint32Add(Sum(list[..i], EntryTotalCount), decoded.value.totalCount);
      total := total + decoded.value.amountUsd;
      txs := (txs + decoded.value.totalCount % 0x1_0000_0000) % 0x1_0000_0000;
      i := i + 1;
    }
    assert list[..i] == list;
    volume := Some(total);
  }

  lemma Uint32Add(a: int, b: int)
    ensures (a % 0x1_0000_0000 + b % 0x1_0000_0000) % 0x1_0000_0000 == (a + b) % 0x1_0000_0000
  {
    Mod32(a % 0x1_0000_0000 + b % 0x1_0000_0000, a + b, a / 0x1_0000_0000 + b / 0x1_0000_0000);
  }
}
