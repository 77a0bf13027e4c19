/** The day information of a series that concurrent workers have filled. */
module KlineReports {
  import opened Sequences
  import opened Klines
  import opened SortedSet
  import opened KlineStore
  import opened KlineHistory
  import opened KlineCache
  import opened KlineWorkers

  /** What is reported for a window of the set z: the totals of ks and the change between two prices, or nothing
      when the earlier one is zero. */
  ghost predicate ReportsDay(z: ZSet, lo: int, hi: int, open: F64, close: F64, ks: seq<Kline>) {
    DayInfoOf(RangeByScore(z, lo, hi)) ==
      if open == 0 then NO_INFO
      else DayInfo(PriceChange(open, close), Sum(ks, AmountUsd), Sum(ks, TotalCount) % 0x1_0000_0000)
  }

  /** Between pushes, in any reachable state, the day information of a series is that of its completed pushes. */
  lemma UnlockedDayTotals(run: seq<Action>, key: string, lo: int, hi: int, t: int, u: int)
    requires Execute(run).Some? && CleanSeries(Execute(run).value, key)
    ensures var s := Execute(run).value;
            var h := PushesOf(s.log, key);
            var ks := InWindow(h, lo, hi);
            key !in s.locks && WindowRetained(h, lo, hi) && Earliest(ks, t) && Latest(ks, u) ==>
              && AtTime(h, t) != [] && AtTime(h, u) != []
              && ReportsDay(Get(s, key), lo, hi, StoredFold(AtTime(h, t)).open, StoredFold(AtTime(h, u)).close, ks)
  {
    hide *;
    var s := Execute(run).value;
    var h := PushesOf(s.log, key);
    var ks := InWindow(h, lo, hi);
    if key !in s.locks && WindowRetained(h, lo, hi) && Earliest(ks, t) && Latest(ks, u) {
      UnlockedSeries(run, key);
      SerialDay(h, lo, hi, t, u);
    }
  }

  lemma SerialDay(h: seq<Push>, lo: int, hi: int, t: int, u: int)
    requires CommaFree(h)
    ensures var ks := InWindow(h, lo, hi);
            WindowRetained(h, lo, hi) && Earliest(ks, t) && Latest(ks, u) ==>
              && AtTime(h, t) != [] && AtTime(h, u) != []
              && ReportsDay(RunSet(h), lo, hi, StoredFold(AtTime(h, t)).open, StoredFold(AtTime(h, u)).close, ks)
  {
    hide RunSet, InWindow, RangeByScore, StoredFold, WindowRetained, Earliest, Latest, CommaFree, PriceChange, Sum, DayInfoOf;
    var ks := InWindow(h, lo, hi);
    if WindowRetained(h, lo, hi) && Earliest(ks, t) && Latest(ks, u) {
      DayTotals(h, lo, hi, t, u);
    }
  }

  /** Once the consumer is drained, whatever the batching and interleaving, the day information of a retained
      window adds up all the candles that arrived for it and were not given up on. */
  lemma DrainedDayTotals(run: seq<Action>, key: string, lo: int, hi: int, t: int, u: int, ks: seq<Kline>)
    requires Execute(run).Some? && CleanSeries(Execute(run).value, key) && Drained(Execute(run).value)
    ensures var s := Execute(run).value;
            var z := Get(s, key);
            WindowRetained(PushesOf(s.log, key), lo, hi) && Surviving(s, key, lo, hi, ks) && Earliest(ks, t) && Latest(ks, u) ==>
              At(z, t).Some? && At(z, u).Some? && ReportsDay(z, lo, hi, At(z, t).value.open, At(z, u).value.close, ks)
  {
    hide *;
    var s := Execute(run).value;
    var h := PushesOf(s.log, key);
    if WindowRetained(h, lo, hi) && Surviving(s, key, lo, hi, ks) && Earliest(ks, t) && Latest(ks, u) {
      RunInvariant(run);
      DrainedUnlocked(s, key);
      UnlockedSeries(run, key);
      SurvivorsPushed(s, key, lo, hi, ks);
      SameTimes(ks, InWindow(h, lo, hi), t, u);
      UnlockedDayTotals(run, key, lo, hi, t, u);
      SurvivorsWithin(s, key, lo, hi, ks, t);
      SurvivorsWithin(s, key, lo, hi, ks, u);
      WindowTimesRetained(h, lo, hi, t);
      WindowTimesRetained(h, lo, hi, u);
      RunCandle(h, t);
      RunCandle(h, u);
      SameReport(Get(s, key), lo, hi, StoredFold(AtTime(h, t)).open, StoredFold(AtTime(h, u)).close, InWindow(h, lo, hi), ks);
    }
  }

  lemma SameReport(z: ZSet, lo: int, hi: int, open: F64, close: F64, a: seq<Kline>, b: seq<Kline>)
    requires multiset(a) == multiset(b) && ReportsDay(z, lo, hi, open, close, a)
    ensures ReportsDay(z, lo, hi, open, close, b)
  {
    hide Sum, DayInfoOf, RangeByScore, PriceChange;
    SumPermutation(a, b, AmountUsd);
    SumPermutation(a, b, TotalCount);
  }

  lemma WindowTimesRetained(h: seq<Push>, lo: int, hi: int, t: int)
    requires WindowRetained(h, lo, hi) && lo <= t <= hi
    ensures Retained(h, t)
  {
  }

  /** Reordered candles have the same earliest and latest time. */
  lemma SameTimes(a: seq<Kline>, b: seq<Kline>, t: int, u: int)
    requires multiset(a) == multiset(b) && Earliest(a, t) && Latest(a, u)
    ensures Earliest(b, t) && Latest(b, u)
  {
    forall k ensures k in a <==> k in b {
      assert k in multiset(a) <==> k in multiset(b);
    }
  }

  lemma SurvivorsWithin(s: System, key: string, lo: int, hi: int, ks: seq<Kline>, t: int)
    requires Surviving(s, key, lo, hi, ks) && (Earliest(ks, t) || Latest(ks, t))
    ensures lo <= t <= hi
  {
    hide SeriesKey;
  }
}
