/** Candles ("klines") and the merge of two candles of the same candle time. */
module Klines {
  import opened Wrappers
  import opened Sequences

  /** A float64 field, as its count of units of 2^-1074: every finite float64 is a whole number of
      them. Sums are exact here; the rounding of float64 addition is not part of this model. */
  type F64 = int

  datatype Kline = Kline(
    chainId: int64, interval: string, pairAddr: string, candleTime: int64, openAt: int64, closeAt: int64,
    open: F64, close: F64, high: F64, low: F64,
    mcapOpen: F64, mcapHigh: F64, mcapLow: F64, mcapClose: F64,
    amountUsd: F64, volumeToken: F64,
    buyCount: int64, sellCount: int64, totalCount: int64)

  const EMPTY_KLINE := Kline(0, "", "", 0, 0, 0, 0, 0, 0, 0, 0, 0, 0, 0, 0, 0, 0, 0, 0)

  function AmountUsd(k: Kline): int { k.amountUsd }
  function VolumeToken(k: Kline): int { k.volumeToken }
  function BuyCount(k: Kline): int { k.buyCount }
  function SellCount(k: Kline): int { k.sellCount }
  function TotalCount(k: Kline): int { k.totalCount }

  // ---------------------------------------------------------------- merging

  /** What merging an older candle o into k leaves in k, when their candle times agree. */
  function MergeSame(o: Kline, k: Kline): Kline {
    k.(openAt := if k.openAt > o.openAt then o.openAt else k.openAt,
       open := if k.openAt > o.openAt then o.open else k.open,
       mcapOpen := if k.openAt > o.openAt then o.mcapOpen else k.mcapOpen,
       closeAt := if k.closeAt < o.closeAt then o.closeAt else k.closeAt,
       close := if k.closeAt < o.closeAt then o.close else k.close,
       mcapClose := if k.closeAt < o.closeAt then o.mcapClose else k.mcapClose,
       high := if k.high < o.high then o.high else k.high,
       mcapHigh := if k.high < o.high then o.mcapHigh else k.mcapHigh,
       low := if k.low > o.low then o.low else k.low,
       mcapLow := if k.low > o.low then o.mcapLow else k.mcapLow,
       amountUsd := k.amountUsd + o.amountUsd,
       volumeToken := k.volumeToken + o.volumeToken,
       totalCount := Wrap64(k.totalCount + o.totalCount),
       buyCount := Wrap64(k.buyCount + o.buyCount),
       sellCount := Wrap64(k.sellCount + o.sellCount))
  }

  /** mergeKline on values; None is the nil result. */
  function Merge(o: Kline, k: Kline): Option<Kline> {
    if o.candleTime != k.candleTime then None else Some(MergeSame(o, k))
  }

  lemma WrapAssociative(x: int, y: int, z: int)
    ensures Wrap64(z + Wrap64(y + x)) == Wrap64(Wrap64(z + y) + x)
  {
    WrapAdd(y + x, z);
    WrapAdd(z + y, x);
  }

  lemma MergeAssociativeOpenClose(a: Kline, b: Kline, c: Kline)
    ensures var l, r := MergeSame(MergeSame(a, b), c), MergeSame(a, MergeSame(b, c));
            && l.openAt == r.openAt && l.open == r.open && l.mcapOpen == r.mcapOpen
            && l.closeAt == r.closeAt && l.close == r.close && l.mcapClose == r.mcapClose
  {
  }

  lemma MergeAssociativeHighLow(a: Kline, b: Kline, c: Kline)
    ensures var l, r := MergeSame(MergeSame(a, b), c), MergeSame(a, MergeSame(b, c));
            && l.high == r.high && l.mcapHigh == r.mcapHigh
            && l.low == r.low && l.mcapLow == r.mcapLow
  {
  }

  lemma MergeAssociativeBuyCount(a: Kline, b: Kline, c: Kline)
    ensures MergeSame(MergeSame(a, b), c).buyCount == MergeSame(a, MergeSame(b, c)).buyCount
  {
    hide Wrap64;
    WrapAssociative(a.buyCount, b.buyCount, c.buyCount);
  }

  lemma MergeAssociativeSellCount(a: Kline, b: Kline, c: Kline)
    ensures MergeSame(MergeSame(a, b), c).sellCount == MergeSame(a, MergeSame(b, c)).sellCount
  {
    hide Wrap64;
    WrapAssociative(a.sellCount, b.sellCount, c.sellCount);
  }

  lemma MergeAssociativeTotalCount(a: Kline, b: Kline, c: Kline)
    ensures MergeSame(MergeSame(a, b), c).totalCount == MergeSame(a, MergeSame(b, c)).totalCount
  {
    hide Wrap64;
    WrapAssociative(a.totalCount, b.totalCount, c.totalCount);
  }

  /** Merging is associative: how a run of candles is bracketed does not matter. */
  lemma MergeAssociative(a: Kline, b: Kline, c: Kline)
    ensures MergeSame(MergeSame(a, b), c) == MergeSame(a, MergeSame(b, c))
  {
    MergeAssociativeOpenClose(a, b, c);
    MergeAssociativeHighLow(a, b, c);
    MergeAssociativeBuyCount(a, b, c);
    MergeAssociativeSellCount(a, b, c);
    MergeAssociativeTotalCount(a, b, c);
  }

  /** Merging commutes exactly when every tie is between equal payloads. */
  lemma MergeCommutes(a: Kline, b: Kline)
    ensures MergeSame(a, b) == MergeSame(b, a) <==>
            && (a.openAt == b.openAt ==> a.open == b.open && a.mcapOpen == b.mcapOpen)
            && (a.closeAt == b.closeAt ==> a.close == b.close && a.mcapClose == b.mcapClose)
            && (a.high == b.high ==> a.mcapHigh == b.mcapHigh)
            && (a.low == b.low ==> a.mcapLow == b.mcapLow)
            && a.chainId == b.chainId && a.interval == b.interval
            && a.pairAddr == b.pairAddr && a.candleTime == b.candleTime
  {
    assert a.buyCount + b.buyCount == b.buyCount + a.buyCount;
    var ab, ba := MergeSame(a, b), MergeSame(b, a);
    assert ab.buyCount == ba.buyCount && ab.sellCount == ba.sellCount && ab.totalCount == ba.totalCount;
  }

  /** Left-to-right merge of a run of candles, as if OpenAt and CloseAt were never forgotten. */
  function Fold(ks: seq<Kline>): Kline
    requires ks != []
  {
    if |ks| == 1 then ks[0] else MergeSame(Fold(ks[..|ks| - 1]), ks[|ks| - 1])
  }

  /** Any split of a run may be folded separately. */
  lemma {:induction false} FoldConcat(a: seq<Kline>, b: seq<Kline>)
    requires a != [] && b != []
    ensures Fold(a + b) == MergeSame(Fold(a), Fold(b))
  {
    var s := a + b;
    var b' := b[..|b| - 1];
    if |b| == 1 {
      assert s[..|s| - 1] == a;
    } else {
      assert s[..|s| - 1] == a + b';
      FoldConcat(a, b');
      MergeAssociative(Fold(a), Fold(b'), b[|b| - 1]);
    }
  }

  ghost predicate PairwiseCommuting(ks: seq<Kline>) {
    forall x, y :: x in ks && y in ks ==> MergeSame(x, y) == MergeSame(y, x)
  }

  lemma {:induction false} FoldMoveLastToFront(ks: seq<Kline>, x: Kline)
    requires ks != [] && PairwiseCommuting(ks + [x])
    ensures Fold(ks + [x]) == MergeSame(x, Fold(ks))
  {
    FoldConcat(ks, [x]);
    if |ks| > 1 {
      var front, y := ks[..|ks| - 1], ks[|ks| - 1];
      assert PairwiseCommuting(front + [x]) by {
        assert forall z :: z in front + [x] ==> z in ks + [x];
      }
      FoldMoveLastToFront(front, x);
      FoldConcat(front, [x]);
      assert x in ks + [x] && y in ks + [x];
      calc {
        MergeSame(Fold(ks), x);
        { MergeAssociative(Fold(front), y, x); }
        MergeSame(Fold(front), MergeSame(x, y));
        { MergeAssociative(Fold(front), x, y); }
        MergeSame(MergeSame(x, Fold(front)), y);
        { MergeAssociative(x, Fold(front), y); }
        MergeSame(x, Fold(ks));
      }
    } else {
      assert ks[0] in ks + [x] && x in ks + [x];
    }
  }

  /** One commuting candle may be pulled out of the middle of a run to its front. */
  lemma FoldPullOut(left: seq<Kline>, x: Kline, right: seq<Kline>)
    requires left + right != [] && PairwiseCommuting(left + [x] + right)
    ensures Fold(left + [x] + right) == MergeSame(x, Fold(left + right))
  {
    assert PairwiseCommuting(left + [x]) by {
      assert forall z :: z in left + [x] ==> z in left + [x] + right;
    }
    if left == [] {
      assert left + [x] + right == [x] + right && left + right == right;
      FoldConcat([x], right);
    } else {
      FoldMoveLastToFront(left, x);
      if right == [] {
        assert left + [x] + right == left + [x] && left + right == left;
      } else {
        FoldConcat(left + [x], right);
        FoldConcat(left, right);
        MergeAssociative(x, Fold(left), Fold(right));
      }
    }
  }

  /** Candles without differing ties fold to the same candle in every arrival order. */
  lemma {:induction false} FoldPermutation(a: seq<Kline>, b: seq<Kline>)
    requires a != [] && multiset(a) == multiset(b)
    requires forall x, y :: x in a && y in a ==> MergeSame(x, y) == MergeSame(y, x)
    ensures b != [] && Fold(a) == Fold(b)
  {
    var x := a[0];
    var left, right := PermutationPullOut(a, b);
    forall y | y in b ensures y in a { assert y in multiset(b); }
    assert [x] + a[1..] == a;
    if |a| == 1 {
      assert |multiset(left + right)| == |multiset(a[1..])| == 0;
      assert left == [] && right == [];
    } else {
      assert |multiset(left + right)| == |multiset(a[1..])| > 0;
      FoldPermutation(a[1..], left + right);
      FoldConcat([x], a[1..]);
      FoldPullOut(left, x, right);
    }
  }

  // ---------------------------------------------------------------- what a fold keeps

  /** Prices that lie between low and high still do after any run of merges. */
  lemma {:induction false} FoldOrdered(ks: seq<Kline>)
    requires ks != [] && forall k :: k in ks ==> k.low <= k.open <= k.high && k.low <= k.close <= k.high
    ensures var f := Fold(ks); f.low <= f.open <= f.high && f.low <= f.close <= f.high
  {
    if |ks| > 1 {
      FoldOrdered(ks[..|ks| - 1]);
      assert ks[|ks| - 1] in ks;
    } else {
      assert ks[0] in ks;
    }
  }

  /** i is the rightmost candle with the least OpenAt. */
  predicate IsOpener(ks: seq<Kline>, i: int) {
    && 0 <= i < |ks|
    && (forall j :: 0 <= j < |ks| ==> ks[i].openAt <= ks[j].openAt)
    && (forall j :: i < j < |ks| ==> ks[i].openAt < ks[j].openAt)
  }

  /** i is the rightmost candle with the greatest CloseAt. */
  predicate IsCloser(ks: seq<Kline>, i: int) {
    && 0 <= i < |ks|
    && (forall j :: 0 <= j < |ks| ==> ks[i].closeAt >= ks[j].closeAt)
    && (forall j :: i < j < |ks| ==> ks[i].closeAt > ks[j].closeAt)
  }

  function Opener(ks: seq<Kline>): (i: nat)
    requires ks != []
    ensures IsOpener(ks, i)
  {
    if |ks| == 1 then 0
    else
      var i := Opener(ks[..|ks| - 1]);
      if ks[|ks| - 1].openAt > ks[i].openAt then i else |ks| - 1
  }

  function Closer(ks: seq<Kline>): (i: nat)
    requires ks != []
    ensures IsCloser(ks, i)
  {
    if |ks| == 1 then 0
    else
      var i := Closer(ks[..|ks| - 1]);
      if ks[|ks| - 1].closeAt < ks[i].closeAt then i else |ks| - 1
  }

  /** The folded candle opens as the rightmost earliest candle and closes as the rightmost latest one. */
  lemma {:induction false} FoldOpenClose(ks: seq<Kline>, i: int, j: int)
    requires IsOpener(ks, i) && IsCloser(ks, j)
    ensures Fold(ks).openAt == ks[i].openAt && Fold(ks).open == ks[i].open && Fold(ks).mcapOpen == ks[i].mcapOpen
    ensures Fold(ks).closeAt == ks[j].closeAt && Fold(ks).close == ks[j].close && Fold(ks).mcapClose == ks[j].mcapClose
  {
    if |ks| == 1 {
    } else {
      hide Fold, MergeSame;
      var front, k := ks[..|ks| - 1], ks[|ks| - 1];
      var m, n := Opener(front), Closer(front);
      FoldOpenClose(front, m, n);
      assert front + [k] == ks;
      FoldSnoc(front, k);
      OpenerSnoc(front, k, m);
      CloserSnoc(front, k, n);
      SameMarks(ks, i, j, if k.openAt > front[m].openAt then m else |ks| - 1, if k.closeAt < front[n].closeAt then n else |ks| - 1);
      MergeMarks(Fold(front), k);
    }
  }

  lemma MergeMarks(o: Kline, k: Kline)
    ensures var r, x := MergeSame(o, k), if k.openAt > o.openAt then o else k;
            r.openAt == x.openAt && r.open == x.open && r.mcapOpen == x.mcapOpen
    ensures var r, x := MergeSame(o, k), if k.closeAt < o.closeAt then o else k;
            r.closeAt == x.closeAt && r.close == x.close && r.mcapClose == x.mcapClose
  {
  }

  lemma FoldSnoc(ks: seq<Kline>, k: Kline)
    requires ks != []
    ensures Fold(ks + [k]) == MergeSame(Fold(ks), k)
  {
    hide MergeSame;
    assert (ks + [k])[..|ks|] == ks;
  }

  lemma OpenerSnoc(ks: seq<Kline>, k: Kline, m: int)
    requires IsOpener(ks, m)
    ensures IsOpener(ks + [k], if k.openAt > ks[m].openAt then m else |ks|)
  {
  }

  lemma CloserSnoc(ks: seq<Kline>, k: Kline, n: int)
    requires IsCloser(ks, n)
    ensures IsCloser(ks + [k], if k.closeAt < ks[n].closeAt then n else |ks|)
  {
  }

  /** There is one opener and one closer. */
  lemma SameMarks(ks: seq<Kline>, i: int, j: int, m: int, n: int)
    requires IsOpener(ks, i) && IsCloser(ks, j) && IsOpener(ks, m) && IsCloser(ks, n)
    ensures i == m && j == n
  {
  }

  /** i is the rightmost candle with the greatest High, j the rightmost with the least Low. */
  predicate IsHighest(ks: seq<Kline>, i: int) {
    && 0 <= i < |ks|
    && (forall j :: 0 <= j < |ks| ==> ks[j].high <= ks[i].high)
    && (forall j :: i < j < |ks| ==> ks[j].high < ks[i].high)
  }

  predicate IsLowest(ks: seq<Kline>, i: int) {
    && 0 <= i < |ks|
    && (forall j :: 0 <= j < |ks| ==> ks[j].low >= ks[i].low)
    && (forall j :: i < j < |ks| ==> ks[j].low > ks[i].low)
  }

  function Highest(ks: seq<Kline>): (i: nat)
    requires ks != []
    ensures IsHighest(ks, i)
  {
    if |ks| == 1 then 0
    else
      var i := Highest(ks[..|ks| - 1]);
      if ks[|ks| - 1].high < ks[i].high then i else |ks| - 1
  }

  function Lowest(ks: seq<Kline>): (i: nat)
    requires ks != []
    ensures IsLowest(ks, i)
  {
    if |ks| == 1 then 0
    else
      var i := Lowest(ks[..|ks| - 1]);
      if ks[|ks| - 1].low > ks[i].low then i else |ks| - 1
  }

  lemma HighestSnoc(ks: seq<Kline>, k: Kline, i: int)
    requires IsHighest(ks, i)
    ensures IsHighest(ks + [k], if k.high < ks[i].high then i else |ks|)
  {
  }

  lemma LowestSnoc(ks: seq<Kline>, k: Kline, i: int)
    requires IsLowest(ks, i)
    ensures IsLowest(ks + [k], if k.low > ks[i].low then i else |ks|)
  {
  }

  lemma SameExtremes(ks: seq<Kline>, i: int, j: int, m: int, n: int)
    requires IsHighest(ks, i) && IsLowest(ks, j) && IsHighest(ks, m) && IsLowest(ks, n)
    ensures i == m && j == n
  {
  }

  lemma MergeExtremes(o: Kline, k: Kline)
    ensures var r, x := MergeSame(o, k), if k.high < o.high then o else k; r.high == x.high && r.mcapHigh == x.mcapHigh
    ensures var r, x := MergeSame(o, k), if k.low > o.low then o else k; r.low == x.low && r.mcapLow == x.mcapLow
  {
  }

  /** The extremes of a merged run, with the market caps that go with them, are those of the rightmost highest and of
      the rightmost lowest candle. */
  lemma {:induction false} FoldHighLow(ks: seq<Kline>, i: int, j: int)
    requires IsHighest(ks, i) && IsLowest(ks, j)
    ensures Fold(ks).high == ks[i].high && Fold(ks).mcapHigh == ks[i].mcapHigh
    ensures Fold(ks).low == ks[j].low && Fold(ks).mcapLow == ks[j].mcapLow
  {
    if |ks| == 1 {
    } else {
      hide Fold, MergeSame;
      var front, k := ks[..|ks| - 1], ks[|ks| - 1];
      var m, n := Highest(front), Lowest(front);
      FoldHighLow(front, m, n);
      assert front + [k] == ks;
      FoldSnoc(front, k);
      HighestSnoc(front, k, m);
      LowestSnoc(front, k, n);
      SameExtremes(ks, i, j, if k.high < front[m].high then m else |ks| - 1, if k.low > front[n].low then n else |ks| - 1);
      MergeExtremes(Fold(front), k);
    }
  }

  /** A merged run goes under the labels of its last candle. */
  lemma {:induction false} FoldLabels(ks: seq<Kline>)
    requires ks != []
    ensures var last := ks[|ks| - 1];
            && Fold(ks).chainId == last.chainId && Fold(ks).interval == last.interval
            && Fold(ks).pairAddr == last.pairAddr && Fold(ks).candleTime == last.candleTime
  {
    if |ks| == 1 {
    } else {
      FoldLabels(ks[..|ks| - 1]);
    }
  }

  predicate IsGreatestHigh(ks: seq<Kline>, h: F64) {
    (forall k :: k in ks ==> k.high <= h) && (exists k :: k in ks && k.high == h)
  }

  predicate IsLeastLow(ks: seq<Kline>, l: F64) {
    (forall k :: k in ks ==> l <= k.low) && (exists k :: k in ks && k.low == l)
  }

  /** s carries the totals, the greatest high and the least low of ks. */
  ghost predicate Aggregates(s: Kline, ks: seq<Kline>) {
    && s.amountUsd == Sum(ks, AmountUsd)
    && s.volumeToken == Sum(ks, VolumeToken)
    && s.buyCount == Wrap64(Sum(ks, BuyCount))
    && s.sellCount == Wrap64(Sum(ks, SellCount))
    && s.totalCount == Wrap64(Sum(ks, TotalCount))
    && IsGreatestHigh(ks, s.high)
    && IsLeastLow(ks, s.low)
  }

  lemma AggregatesOne(k: Kline)
    ensures Aggregates(k, [k])
  {
    assert [k][1..] == [];
    assert k in [k];
  }

  lemma WrappedSumSnoc(total: int64, ks: seq<Kline>, k: Kline, f: Kline -> int)
    requires total == Wrap64(Sum(ks, f))
    ensures Wrap64(f(k) + total) == Wrap64(Sum(ks + [k], f))
  {
    SumSnoc(ks, k, f);
    WrapAdd(Sum(ks, f), f(k));
  }

  lemma ExtremesSnoc(s: Kline, ks: seq<Kline>, k: Kline)
    requires IsGreatestHigh(ks, s.high) && IsLeastLow(ks, s.low)
    ensures IsGreatestHigh(ks + [k], MergeSame(s, k).high) && IsLeastLow(ks + [k], MergeSame(s, k).low)
  {
    var x :| x in ks && x.high == s.high;
    var y :| y in ks && y.low == s.low;
    assert x in ks + [k] && y in ks + [k] && k in ks + [k];
  }

  /** One more merge adds one more candle to the aggregates, whatever OpenAt and CloseAt say. */
  lemma AggregatesMerge(s: Kline, ks: seq<Kline>, k: Kline)
    requires Aggregates(s, ks)
    ensures Aggregates(MergeSame(s, k), ks + [k])
  {
    hide Wrap64, IsGreatestHigh, IsLeastLow, Sum;
    SumSnoc(ks, k, AmountUsd);
    SumSnoc(ks, k, VolumeToken);
    WrappedSumSnoc(s.buyCount, ks, k, BuyCount);
    WrappedSumSnoc(s.sellCount, ks, k, SellCount);
    WrappedSumSnoc(s.totalCount, ks, k, TotalCount);
    ExtremesSnoc(s, ks, k);
  }

  /** The aggregates do not depend on the order of arrival. */
  lemma AggregatesPermutation(s: Kline, a: seq<Kline>, b: seq<Kline>)
    requires multiset(a) == multiset(b) && Aggregates(s, a)
    ensures Aggregates(s, b)
  {
    SumPermutation(a, b, AmountUsd);
    SumPermutation(a, b, VolumeToken);
    SumPermutation(a, b, BuyCount);
    SumPermutation(a, b, SellCount);
    SumPermutation(a, b, TotalCount);
    forall k ensures k in a <==> k in b {
      assert k in multiset(a) <==> k in multiset(b);
    }
  }

  // ---------------------------------------------------------------- the record merged in place

  /** The protobuf message that mergeKline receives by pointer and overwrites. */
  class KlineRecord {
    var chainId: int64
    var interval: string
    var pairAddr: string
    var candleTime: int64
    var openAt: int64
    var closeAt: int64
    var open: F64
    var close: F64
    var high: F64
    var low: F64
    var mcapOpen: F64
    var mcapHigh: F64
    var mcapLow: F64
    var mcapClose: F64
    var amountUsd: F64
    var volumeToken: F64
    var buyCount: int64
    var sellCount: int64
    var totalCount: int64

    function Value(): Kline
      reads this
    {
      Kline(chainId, interval, pairAddr, candleTime, openAt, closeAt, open, close, high, low,
            mcapOpen, mcapHigh, mcapLow, mcapClose, amountUsd, volumeToken, buyCount, sellCount, totalCount)
    }

    constructor (k: Kline)
      ensures Value() == k
    {
      chainId, interval, pairAddr, candleTime := k.chainId, k.interval, k.pairAddr, k.candleTime;
      openAt, closeAt, open, close, high, low := k.openAt, k.closeAt, k.open, k.close, k.high, k.low;
      mcapOpen, mcapHigh, mcapLow, mcapClose := k.mcapOpen, k.mcapHigh, k.mcapLow, k.mcapClose;
      amountUsd, volumeToken := k.amountUsd, k.volumeToken;
      buyCount, sellCount, totalCount := k.buyCount, k.sellCount, k.totalCount;
    }
  }

  /** mergeKline's comparisons of the opening and closing marks. */
  method MergeOpenCloseInto(oldKline: KlineRecord, newKline: KlineRecord)
    modifies newKline`openAt, newKline`open, newKline`mcapOpen
    modifies newKline`closeAt, newKline`close, newKline`mcapClose
    ensures var keep := old(newKline.openAt > oldKline.openAt);
            && newKline.openAt == (if keep then old(oldKline.openAt) else old(newKline.openAt))
            && newKline.open == (if keep then old(oldKline.open) else old(newKline.open))
            && newKline.mcapOpen == (if keep then old(oldKline.mcapOpen) else old(newKline.mcapOpen))
    ensures var keep := old(newKline.closeAt < oldKline.closeAt);
            && newKline.closeAt == (if keep then old(oldKline.closeAt) else old(newKline.closeAt))
            && newKline.close == (if keep then old(oldKline.close) else old(newKline.close))
            && newKline.mcapClose == (if keep then old(oldKline.mcapClose) else old(newKline.mcapClose))
  {
    if newKline.openAt > oldKline.openAt {
      newKline.openAt := oldKline.openAt;
      newKline.open := oldKline.open;
      newKline.mcapOpen := oldKline.mcapOpen;
    }
    if newKline.closeAt < oldKline.closeAt {
      newKline.closeAt := oldKline.closeAt;
      newKline.close := oldKline.close;
      newKline.mcapClose := oldKline.mcapClose;
    }
  }

  /** mergeKline's comparisons of the extremes. */
  method MergeHighLowInto(oldKline: KlineRecord, newKline: KlineRecord)
    modifies newKline`high, newKline`mcapHigh, newKline`low, newKline`mcapLow
    ensures var keep := old(newKline.high < oldKline.high);
            && newKline.high == (if keep then old(oldKline.high) else old(newKline.high))
            && newKline.mcapHigh == (if keep then old(oldKline.mcapHigh) else old(newKline.mcapHigh))
    ensures var keep := old(newKline.low > oldKline.low);
            && newKline.low == (if keep then old(oldKline.low) else old(newKline.low))
            && newKline.mcapLow == (if keep then old(oldKline.mcapLow) else old(newKline.mcapLow))
  {
    if newKline.high < oldKline.high {
      newKline.high := oldKline.high;
      newKline.mcapHigh := oldKline.mcapHigh;
    }
    if newKline.low > oldKline.low {
      newKline.low := oldKline.low;
      newKline.mcapLow := oldKline.mcapLow;
    }
  }

  /** mergeKline's additions. */
  method AddTotalsInto(oldKline: KlineRecord, newKline: KlineRecord)
    modifies newKline`amountUsd, newKline`volumeToken
    modifies newKline`totalCount, newKline`buyCount, newKline`sellCount
    ensures newKline.amountUsd == old(newKline.amountUsd + oldKline.amountUsd)
    ensures newKline.volumeToken == old(newKline.volumeToken + oldKline.volumeToken)
    ensures newKline.totalCount == Wrap64(old(newKline.totalCount + oldKline.totalCount))
    ensures newKline.buyCount == Wrap64(old(newKline.buyCount + oldKline.buyCount))
    ensures newKline.sellCount == Wrap64(old(newKline.sellCount + oldKline.sellCount))
  {
    newKline.amountUsd := newKline.amountUsd + oldKline.amountUsd;
    newKline.volumeToken := newKline.volumeToken + oldKline.volumeToken;
    newKline.totalCount := Wrap64(newKline.totalCount + oldKline.totalCount);
    newKline.buyCount := Wrap64(newKline.buyCount + oldKline.buyCount);
    newKline.sellCount := Wrap64(newKline.sellCount + oldKline.sellCount);
  }

  /** mergeKline past its guards. */
  method MergeInto(oldKline: KlineRecord, newKline: KlineRecord)
    modifies newKline
    ensures newKline.Value() == MergeSame(old(oldKline.Value()), old(newKline.Value()))
  {
    MergeOpenCloseInto(oldKline, newKline);
    MergeHighLowInto(oldKline, newKline);
    AddTotalsInto(oldKline, newKline);
  }

  /** mergeKline: the result, when there is one, is the second argument, overwritten. */
  method MergeKline(oldKline: KlineRecord?, kline: KlineRecord?) returns (newKline: KlineRecord?)
    modifies kline
    ensures oldKline == null || kline == null ==> newKline == null
    ensures oldKline == null && kline != null ==> kline.Value() == old(kline.Value())
    ensures oldKline != null && kline != null ==>
              match Merge(old(oldKline.Value()), old(kline.Value()))
              case None => newKline == null && kline.Value() == old(kline.Value())
              case Some(m) => newKline == kline && kline.Value() == m
  {
    newKline := null;
    if oldKline == null || kline == null {
      return;
    }
    if oldKline.candleTime != kline.candleTime {
      return;
    }
    newKline := kline;
    MergeInto(oldKline, newKline);
  }
}
