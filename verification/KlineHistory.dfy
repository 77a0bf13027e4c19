/** Whole runs of pushes into one candle series, and what the stored candles are worth afterwards. */
module KlineHistory {
  import opened Wrappers
  import opened Sequences
  import opened Klines
  import opened KlineCodec
  import opened SortedSet
  import opened KlineStore

  /** One completed push: the candle, and the clock reading that its clean-up used. */
  datatype Push = Push(kline: Kline, now: int)

  function StepSet(z: ZSet, p: Push): ZSet {
    match PushSet(z, p.kline)
    case Stored(y, _) => Trim(y, p.kline.interval, p.now)
    case Undecodable => z
    case NilDereference => z
  }

  /** The set left by a run of pushes that starts without one. */
  function RunSet(h: seq<Push>): ZSet {
    if h == [] then [] else StepSet(RunSet(h[..|h| - 1]), h[|h| - 1])
  }

  ghost predicate CommaFree(h: seq<Push>) {
    forall p :: p in h ==> ',' !in p.kline.pairAddr
  }

  /** No clean-up of the run reached back to time t. */
  ghost predicate Retained(h: seq<Push>, t: int) {
    t < 0 || forall p :: p in h ==> t > Horizon(p.kline.interval, p.now)
  }

  /** The candles pushed for times in [lo, hi], in the order of their pushes. */
  function InWindow(h: seq<Push>, lo: int, hi: int): seq<Kline> {
    if h == [] then []
    else
      var p := h[|h| - 1];
      InWindow(h[..|h| - 1], lo, hi) + (if lo <= p.kline.candleTime <= hi then [p.kline] else [])
  }

  function AtTime(h: seq<Push>, t: int): seq<Kline> { InWindow(h, t, t) }

  // ---------------------------------------------------------------- the sorted-set invariant

  lemma StepEffect(z: ZSet, p: Push)
    requires Valid(z) && ',' !in p.kline.pairAddr
    ensures Valid(StepSet(z, p))
    ensures forall t :: (t < 0 || t > Horizon(p.kline.interval, p.now)) ==>
              At(StepSet(z, p), t) ==
                if t == p.kline.candleTime then Some(Strip(Merged(At(z, t), p.kline))) else At(z, t)
  {
    PushEffect(z, p.kline);
    TrimEffect(PushSet(z, p.kline).zset, p.kline.interval, p.now);
  }

  /** After any run every member decodes to a candle of its own score, no score has two members, and the
      next push neither fails to decode nor dereferences nil. */
  lemma {:induction false} RunValid(h: seq<Push>, next: Kline)
    requires CommaFree(h) && ',' !in next.pairAddr
    ensures Valid(RunSet(h))
    ensures PushSet(RunSet(h), next).Stored?
  {
    if h == [] {
    } else {
      RunValid(h[..|h| - 1], h[|h| - 1].kline);
      StepEffect(RunSet(h[..|h| - 1]), h[|h| - 1]);
    }
    PushEffect(RunSet(h), next);
  }

  // ---------------------------------------------------------------- one stored candle

  /** Left-to-right merge as the store performs it: OpenAt and CloseAt are forgotten after every push. */
  function StoredFold(ks: seq<Kline>): Kline
    requires ks != []
  {
    if |ks| == 1 then Strip(ks[0]) else Strip(MergeSame(StoredFold(ks[..|ks| - 1]), ks[|ks| - 1]))
  }

  lemma StoredFoldSnoc(ks: seq<Kline>, k: Kline)
    ensures StoredFold(ks + [k]) == Strip(Merged(if ks == [] then None else Some(StoredFold(ks)), k))
  {
    assert (ks + [k])[..|ks|] == ks;
  }

  /** The candle stored for a retained time is the store's fold of all candles pushed for it. */
  lemma {:induction false} RunCandle(h: seq<Push>, t: int)
    requires CommaFree(h) && Retained(h, t)
    ensures var ks := AtTime(h, t);
            At(RunSet(h), t) == if ks == [] then None else Some(StoredFold(ks))
  {
    hide Decompress, Compress, MergeSame, Strip, PushSet, Trim;
    if h == [] {
    } else {
      var front, p := h[..|h| - 1], h[|h| - 1];
      assert p in h;
      RunCandle(front, t);
      RunValid(front, p.kline);
      StepEffect(RunSet(front), p);
      var ks := AtTime(front, t);
      StoredFoldSnoc(ks, p.kline);
      assert AtTime(h, t) == ks + (if p.kline.candleTime == t then [p.kline] else []);
      if p.kline.candleTime == t {
        assert At(RunSet(h), t) == Some(Strip(Merged(At(RunSet(front), t), p.kline)));
      } else {
        assert ks + [] == ks;
        assert At(RunSet(h), t) == At(RunSet(front), t);
      }
    }
  }

  lemma AggregatesStrip(s: Kline, ks: seq<Kline>)
    requires Aggregates(s, ks)
    ensures Aggregates(Strip(s), ks)
  {
  }

  lemma {:induction false} StoredFoldAggregates(ks: seq<Kline>)
    requires ks != []
    ensures Aggregates(StoredFold(ks), ks)
  {
    if |ks| == 1 {
      assert ks == [ks[0]];
      AggregatesOne(ks[0]);
      AggregatesStrip(ks[0], ks);
    } else {
      var front, k := ks[..|ks| - 1], ks[|ks| - 1];
      StoredFoldAggregates(front);
      AggregatesMerge(StoredFold(front), front, k);
      assert ks == front + [k];
      AggregatesStrip(MergeSame(StoredFold(front), k), ks);
    }
  }

  /** A stored candle carries the totals and extremes of every candle pushed for its time, and there is
      one exactly when something was pushed for it. */
  lemma StoredCandleAggregates(h: seq<Push>, t: int)
    requires CommaFree(h) && Retained(h, t)
    ensures match At(RunSet(h), t)
            case None => AtTime(h, t) == []
            case Some(s) => AtTime(h, t) != [] && Aggregates(s, AtTime(h, t))
  {
    RunCandle(h, t);
    if AtTime(h, t) != [] {
      StoredFoldAggregates(AtTime(h, t));
    }
  }

  lemma AggregatesDetermine(a: Kline, b: Kline, ks: seq<Kline>)
    requires Aggregates(a, ks) && Aggregates(b, ks)
    ensures (a.amountUsd, a.volumeToken, a.buyCount, a.sellCount, a.totalCount, a.high, a.low)
            == (b.amountUsd, b.volumeToken, b.buyCount, b.sellCount, b.totalCount, b.high, b.low)
  {
  }

  /** Two interleavings of the same pushes store the same totals and extremes. */
  lemma InterleavingIrrelevant(h: seq<Push>, g: seq<Push>, t: int)
    requires CommaFree(h) && CommaFree(g) && Retained(h, t) && Retained(g, t)
    requires multiset(AtTime(h, t)) == multiset(AtTime(g, t))
    ensures match (At(RunSet(h), t), At(RunSet(g), t))
            case (None, None) => true
            case (Some(a), Some(b)) =>
              && Aggregates(a, AtTime(g, t))
              && (a.amountUsd, a.volumeToken, a.buyCount, a.sellCount, a.totalCount, a.high, a.low)
                 == (b.amountUsd, b.volumeToken, b.buyCount, b.sellCount, b.totalCount, b.high, b.low)
            case _ => false
  {
    StoredCandleAggregates(h, t);
    StoredCandleAggregates(g, t);
    assert |multiset(AtTime(h, t))| == |multiset(AtTime(g, t))|;
    if AtTime(h, t) != [] {
      var a, b := At(RunSet(h), t).value, At(RunSet(g), t).value;
      AggregatesPermutation(a, AtTime(h, t), AtTime(g, t));
      AggregatesDetermine(a, b, AtTime(g, t));
    }
  }

  // ---------------------------------------------------------------- the store against the in-memory merge

  /** The candle whose Open the store keeps: the last later one with OpenAt at most 0, or else the first. */
  function StoredOpener(ks: seq<Kline>): (i: nat)
    requires ks != []
    ensures i < |ks| && (i > 0 ==> ks[i].openAt <= 0)
    ensures forall j :: i < j < |ks| ==> ks[j].openAt > 0
  {
    if |ks| == 1 || ks[|ks| - 1].openAt <= 0 then |ks| - 1 else StoredOpener(ks[..|ks| - 1])
  }

  /** The candle whose Close the store keeps: the last later one with CloseAt at least 0, or else the first. */
  function StoredCloser(ks: seq<Kline>): (i: nat)
    requires ks != []
    ensures i < |ks| && (i > 0 ==> ks[i].closeAt >= 0)
    ensures forall j :: i < j < |ks| ==> ks[j].closeAt < 0
  {
    if |ks| == 1 || ks[|ks| - 1].closeAt >= 0 then |ks| - 1 else StoredCloser(ks[..|ks| - 1])
  }

  lemma {:induction false} StoredFoldMarks(ks: seq<Kline>)
    requires ks != []
    ensures var s, i, j := StoredFold(ks), StoredOpener(ks), StoredCloser(ks);
            && s.open == ks[i].open && s.mcapOpen == ks[i].mcapOpen
            && s.close == ks[j].close && s.mcapClose == ks[j].mcapClose
  {
    if |ks| == 1 {
    } else {
      StoredFoldMarks(ks[..|ks| - 1]);
    }
  }

  lemma {:induction false} StoredFoldRest(ks: seq<Kline>)
    requires ks != []
    ensures var s, f := StoredFold(ks), Fold(ks);
            s.(open := f.open, mcapOpen := f.mcapOpen, close := f.close, mcapClose := f.mcapClose) == Strip(f)
  {
    if |ks| == 1 {
    } else {
      StoredFoldRest(ks[..|ks| - 1]);
    }
  }

  /** The store holds the same fifteen fields as merging in memory exactly when the candles whose marks
      the two keep have the same marks. */
  lemma StorageRefinesFold(ks: seq<Kline>)
    requires ks != []
    ensures var i, j := StoredOpener(ks), StoredCloser(ks);
            var m, n := Opener(ks), Closer(ks);
            StoredFold(ks) == Strip(Fold(ks)) <==>
              && ks[i].open == ks[m].open && ks[i].mcapOpen == ks[m].mcapOpen
              && ks[j].close == ks[n].close && ks[j].mcapClose == ks[n].mcapClose
  {
    StoredFoldMarks(ks);
    StoredFoldRest(ks);
    FoldOpenClose(ks, Opener(ks), Closer(ks));
  }

  /** The first candle opens, strictly before all later ones, and the closes arrive in order. */
  predicate ArriveInOrder(ks: seq<Kline>)
    requires ks != []
  {
    && (|ks| > 1 ==> ks[0].openAt > 0)
    && (forall j :: 0 < j < |ks| ==> ks[0].openAt < ks[j].openAt)
    && (|ks| > 1 ==> forall j :: 0 <= j < |ks| ==> ks[j].closeAt >= 0)
    && (forall i, j :: 0 <= i < j < |ks| ==> ks[i].closeAt <= ks[j].closeAt)
  }

  /** For candles in order the store's fold is the in-memory merge. */
  lemma InOrderFold(ks: seq<Kline>)
    requires ks != [] && ArriveInOrder(ks)
    ensures StoredFold(ks) == Strip(Fold(ks))
  {
    StorageRefinesFold(ks);
    assert StoredOpener(ks) == 0 == Opener(ks);
    assert StoredCloser(ks) == |ks| - 1 == Closer(ks);
  }

  /** For candles that are pushed in order the run of pushes stores exactly the in-memory merge. */
  lemma InOrderStoresFold(h: seq<Push>, t: int)
    requires CommaFree(h) && Retained(h, t)
    requires AtTime(h, t) != [] && ArriveInOrder(AtTime(h, t))
    ensures At(RunSet(h), t) == Some(Strip(Fold(AtTime(h, t))))
  {
    RunCandle(h, t);
    InOrderFold(AtTime(h, t));
  }

  /** A candle that arrives late but opened earlier: the store keeps the wrong Open. */
  lemma LateOpenerIsLost(k: Kline)
    ensures var first, late := k.(openAt := 20, open := 2), k.(openAt := 10, open := 1);
            && Fold([first, late]).open == 1
            && StoredFold([first, late]).open == 2
  {
    var ks := [k.(openAt := 20, open := 2), k.(openAt := 10, open := 1)];
    assert ks[..1] == [ks[0]];
  }

  // ---------------------------------------------------------------- totals over a window of times

  function EntryAmountUsd(e: Entry): int {
    match Decompress(e.member)
    case None => 0
    case Some(k) => k.amountUsd
  }

  function EntryTotalCount(e: Entry): int {
    match Decompress(e.member)
    case None => 0
    case Some(k) => k.totalCount
  }

  function RangeSum(z: ZSet, lo: int, hi: int, f: Entry -> int): int { Sum(RangeByScore(z, lo, hi), f) }

  function Within(lo: int, t: int, hi: int, x: int): int { if lo <= t <= hi then x else 0 }

  lemma RangeSumCons(e: Entry, z: ZSet, lo: int, hi: int, f: Entry -> int)
    ensures RangeSum([e] + z, lo, hi, f) == Within(lo, e.score, hi, f(e)) + RangeSum(z, lo, hi, f)
  {
    assert ([e] + z)[1..] == z;
    var rest := RangeByScore(z, lo, hi);
    assert ([e] + rest)[1..] == rest && [] + rest == rest;
  }

  lemma {:induction false} RangeSumInsert(z: ZSet, e: Entry, lo: int, hi: int, f: Entry -> int)
    ensures RangeSum(Insert(z, e), lo, hi, f) == RangeSum(z, lo, hi, f) + Within(lo, e.score, hi, f(e))
  {
    RangeSumCons(e, z, lo, hi, f);
    if z == [] || Before(e, z[0]) {
    } else {
      RangeSumInsert(z[1..], e, lo, hi, f);
      RangeSumCons(z[0], z[1..], lo, hi, f);
      RangeSumCons(z[0], Insert(z[1..], e), lo, hi, f);
      assert z == [z[0]] + z[1..];
    }
  }

  /** Deleting a range that the window does not meet. */
  lemma {:induction false} RangeSumRemoveApart(z: ZSet, a: int, b: int, lo: int, hi: int, f: Entry -> int)
    requires b < lo || hi < a
    ensures RangeSum(RemoveByScore(z, a, b), lo, hi, f) == RangeSum(z, lo, hi, f)
  {
    hide RangeSum;
    if z == [] {
    } else {
      var rest := RemoveByScore(z[1..], a, b);
      RangeSumRemoveApart(z[1..], a, b, lo, hi, f);
      RangeSumCons(z[0], z[1..], lo, hi, f);
      RangeSumCons(z[0], rest, lo, hi, f);
      assert z == [z[0]] + z[1..] && [] + rest == rest;
    }
  }

  /** Deleting the only entry of a score. */
  lemma {:induction false} RangeSumRemoveOne(z: ZSet, e: Entry, lo: int, hi: int, f: Entry -> int)
    requires StrictScores(z) && e in z
    ensures RangeSum(RemoveByScore(z, e.score, e.score), lo, hi, f)
            == RangeSum(z, lo, hi, f) - Within(lo, e.score, hi, f(e))
  {
    var t := e.score;
    var rest := RemoveByScore(z[1..], t, t);
    assert z == [z[0]] + z[1..] && [] + rest == rest;
    RangeSumCons(z[0], z[1..], lo, hi, f);
    if z[0] == e {
      RemoveByScoreNothing(z[1..], t);
    } else {
      assert e in z[1..];
      RangeSumRemoveOne(z[1..], e, lo, hi, f);
      RangeSumCons(z[0], rest, lo, hi, f);
      assert z[0].score < e.score;
    }
  }

  lemma {:induction false} RemoveByScoreNothing(z: ZSet, t: int)
    requires forall x :: x in z ==> x.score != t
    ensures RemoveByScore(z, t, t) == z
  {
    if z == [] {
    } else {
      assert z[0] in z;
      RemoveByScoreNothing(z[1..], t);
    }
  }

  /** What writing at a free time adds to a window total. */
  lemma AddRangeSum(z: ZSet, k: Kline, lo: int, hi: int, f: Entry -> int)
    requires Valid(z) && !HasScore(z, k.candleTime) && ',' !in k.pairAddr
    ensures var e := Entry(k.candleTime, Compress(k));
            RangeSum(Add(z, e.score, e.member), lo, hi, f) == RangeSum(z, lo, hi, f) + Within(lo, e.score, hi, f(e))
  {
    var e := Entry(k.candleTime, Compress(k));
    RoundTrip(k);
    forall x | x in z ensures x.member != e.member {
      assert Faithful(x);
    }
    RemoveAbsent(z, e.member);
    RangeSumInsert(z, e, lo, hi, f);
  }

  lemma MergedIdentity(stored: Option<Kline>, k: Kline)
    ensures Merged(stored, k).pairAddr == k.pairAddr && Merged(stored, k).candleTime == k.candleTime
  {
  }

  /** What a push adds to a window total: the new text's value instead of the old one's. */
  lemma PushRangeSum(z: ZSet, k: Kline, lo: int, hi: int, f: Entry -> int)
    requires Valid(z) && ',' !in k.pairAddr && PushSet(z, k).Stored?
    ensures var t := k.candleTime;
            var v, r := RangeByScore(z, t, t), PushSet(z, k);
            RangeSum(r.zset, lo, hi, f) == RangeSum(z, lo, hi, f)
              + Within(lo, t, hi, f(Entry(t, Compress(r.kline))) - if v == [] then 0 else f(v[0]))
  {
    hide Decompress, Compress, MergeSame, Faithful, RangeByScore, RemoveByScore, Add;
    var t := k.candleTime;
    RangeOne(z, t);
    var v := RangeByScore(z, t, t);
    if v == [] {
      AddRangeSum(z, k, lo, hi, f);
    } else {
      RemoveEffect(z, t, t);
      RangeSumRemoveOne(z, v[0], lo, hi, f);
      MergedIdentity(At(z, t), k);
      PushEffect(z, k);
      assert !HasScore(RemoveByScore(z, t, t), t);
      AddRangeSum(RemoveByScore(z, t, t), PushSet(z, k).kline, lo, hi, f);
    }
  }

  /** The window lies after every clean-up, or before the times that clean-ups look at. */
  ghost predicate WindowRetained(h: seq<Push>, lo: int, hi: int) {
    hi < 0 || forall p :: p in h ==> lo > Horizon(p.kline.interval, p.now)
  }

  lemma EntryValues(k: Kline)
    requires ',' !in k.pairAddr
    ensures EntryAmountUsd(Entry(k.candleTime, Compress(k))) == k.amountUsd
    ensures EntryTotalCount(Entry(k.candleTime, Compress(k))) == k.totalCount
  {
    RoundTrip(k);
  }

  lemma StepRangeSum(z: ZSet, p: Push, lo: int, hi: int, f: Entry -> int)
    requires Valid(z) && ',' !in p.kline.pairAddr
    requires hi < 0 || lo > Horizon(p.kline.interval, p.now)
    ensures var t := p.kline.candleTime;
            var v, n := RangeByScore(z, t, t), Merged(At(z, t), p.kline);
            RangeSum(StepSet(z, p), lo, hi, f) == RangeSum(z, lo, hi, f)
              + Within(lo, t, hi, f(Entry(t, Compress(n))) - if v == [] then 0 else f(v[0]))
  {
    hide Decompress, Compress, MergeSame, Faithful, RangeByScore, At;
    var k := p.kline;
    PushEffect(z, k);
    PushRangeSum(z, k, lo, hi, f);
    RangeSumRemoveApart(PushSet(z, k).zset, 0, Horizon(k.interval, p.now), lo, hi, f);
  }

  /** The value of the text that a push writes, against the value of the text it replaces. */
  lemma MergedValues(z: ZSet, k: Kline)
    requires Valid(z) && ',' !in k.pairAddr
    ensures var t := k.candleTime;
            var v, e := RangeByScore(z, t, t), Entry(t, Compress(Merged(At(z, t), k)));
            && EntryAmountUsd(e) == k.amountUsd + (if v == [] then 0 else EntryAmountUsd(v[0]))
            && EntryTotalCount(e) == Wrap64(k.totalCount + if v == [] then 0 else EntryTotalCount(v[0]))
  {
    hide Decompress, Compress, Faithful, RangeByScore, Wrap64;
    RangeOne(z, k.candleTime);
    var v := RangeByScore(z, k.candleTime, k.candleTime);
    EntryValues(Merged(At(z, k.candleTime), k));
    WrapInRange(k.totalCount);
    if v != [] {
      assert Faithful(v[0]);
    }
  }

  lemma StepAmountUsd(z: ZSet, p: Push, lo: int, hi: int)
    requires Valid(z) && ',' !in p.kline.pairAddr
    requires hi < 0 || lo > Horizon(p.kline.interval, p.now)
    ensures RangeSum(StepSet(z, p), lo, hi, EntryAmountUsd)
            == RangeSum(z, lo, hi, EntryAmountUsd) + Within(lo, p.kline.candleTime, hi, p.kline.amountUsd)
  {
    hide Decompress, Compress, MergeSame, PushSet, Trim, Faithful, RangeByScore, Wrap64, At;
    StepRangeSum(z, p, lo, hi, EntryAmountUsd);
    MergedValues(z, p.kline);
  }

  /** Equal up to uint32 wrap-around. */
  predicate Congruent(a: int, b: int) { a % 0x1_0000_0000 == b % 0x1_0000_0000 }

  lemma StepTotalCount(z: ZSet, p: Push, lo: int, hi: int)
    requires Valid(z) && ',' !in p.kline.pairAddr
    requires hi < 0 || lo > Horizon(p.kline.interval, p.now)
    ensures Congruent(RangeSum(StepSet(z, p), lo, hi, EntryTotalCount),
                      RangeSum(z, lo, hi, EntryTotalCount) + Within(lo, p.kline.candleTime, hi, p.kline.totalCount))
  {
    hide Decompress, Compress, MergeSame, PushSet, Trim, Faithful, RangeByScore, Wrap64, At;
    var t := p.kline.candleTime;
    var v := RangeByScore(z, t, t);
    StepRangeSum(z, p, lo, hi, EntryTotalCount);
    MergedValues(z, p.kline);
    WrappedDifference(p.kline.totalCount, if v == [] then 0 else EntryTotalCount(v[0]), RangeSum(z, lo, hi, EntryTotalCount));
  }

  lemma WrappedDifference(a: int, b: int, base: int)
    ensures Congruent(base + (Wrap64(a + b) - b), base + a)
  {
    WrapTruncate(a + b, base - b);
  }

  lemma CongruentAdd(a: int, b: int, c: int)
    requires Congruent(a, b)
    ensures Congruent(a + c, b + c)
  {
    Mod32(a + c, b + c, b / 0x1_0000_0000 - a / 0x1_0000_0000);
  }

  lemma CongruentTransitive(a: int, b: int, c: int)
    requires Congruent(a, b) && Congruent(b, c)
    ensures Congruent(a, c)
  {
  }

  lemma RangeEmpty(lo: int, hi: int)
    ensures RangeByScore([], lo, hi) == []
  {
  }

  /** The stored volume of a window is the volume of everything ever pushed into it. */
  lemma {:induction false} WindowVolume(h: seq<Push>, lo: int, hi: int)
    requires CommaFree(h) && WindowRetained(h, lo, hi)
    ensures RangeSum(RunSet(h), lo, hi, EntryAmountUsd) == Sum(InWindow(h, lo, hi), AmountUsd)
  {
    hide Decompress, Compress, StepSet, RangeByScore, Faithful;
    if h != [] {
      var front, p := h[..|h| - 1], h[|h| - 1];
      assert p in h;
      WindowVolume(front, lo, hi);
      RunValid(front, p.kline);
      StepAmountUsd(RunSet(front), p, lo, hi);
      var ks := InWindow(front, lo, hi);
      SumSnoc(ks, p.kline, AmountUsd);
      assert InWindow(h, lo, hi) == if lo <= p.kline.candleTime <= hi then ks + [p.kline] else ks;
    } else {
      RangeEmpty(lo, hi);
    }
  }

  /** The stored counts of a window are those of everything ever pushed into it, up to uint32 wrap-around. */
  lemma {:induction false} WindowCount(h: seq<Push>, lo: int, hi: int)
    requires CommaFree(h) && WindowRetained(h, lo, hi)
    ensures Congruent(RangeSum(RunSet(h), lo, hi, EntryTotalCount), Sum(InWindow(h, lo, hi), TotalCount))
  {
    hide Decompress, Compress, StepSet, RangeByScore, RangeSum, Sum, Valid, Congruent;
    if h != [] {
      var front, p := h[..|h| - 1], h[|h| - 1];
      assert p in h;
      WindowCount(front, lo, hi);
      RunValid(front, p.kline);
      StepTotalCount(RunSet(front), p, lo, hi);
      var ks := InWindow(front, lo, hi);
      SumSnoc(ks, p.kline, TotalCount);
      assert InWindow(h, lo, hi) == if lo <= p.kline.candleTime <= hi then ks + [p.kline] else ks;
      var stored, pushed := RangeSum(RunSet(front), lo, hi, EntryTotalCount), Sum(ks, TotalCount);
      var step := Within(lo, p.kline.candleTime, hi, p.kline.totalCount);
      CongruentAdd(stored, pushed, step);
      assert RunSet(h) == StepSet(RunSet(front), p);
      CongruentTransitive(RangeSum(RunSet(h), lo, hi, EntryTotalCount), stored + step, pushed + step);
      assert pushed + step == Sum(InWindow(h, lo, hi), TotalCount);
    } else {
      RangeEmpty(lo, hi);
      CongruentTotalsOfNothing(lo, hi);
    }
  }

  lemma CongruentTotalsOfNothing(lo: int, hi: int)
    ensures Congruent(RangeSum([], lo, hi, EntryTotalCount), Sum(InWindow([], lo, hi), TotalCount))
  {
  }
}
