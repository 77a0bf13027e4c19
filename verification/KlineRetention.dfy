/** How many candles a series can hold after a clean-up. */
module KlineRetention {
  import opened Arithmetic
  import opened KlineCodec
  import opened SortedSet
  import opened KlineStore
  import opened KlineHistory

  lemma {:induction false} RangeAbove(z: ZSet, lo: int, h: int)
    requires forall e :: e in z ==> e.score > h
    ensures RangeByScore(z, lo, h) == []
  {
    if z == [] {
    } else {
      assert z[0] in z;
      RangeAbove(z[1..], lo, h);
    }
  }

  /** The part of a sorted set at or below a score, and the part above it. */
  lemma {:induction false} SplitAtScore(z: ZSet, lo: int, h: int)
    requires StrictScores(z) && forall e :: e in z ==> lo <= e.score
    ensures var n := CountByScore(z, lo, h);
            && n <= |z|
            && (forall e :: e in z[n..] ==> e.score > h)
  {
    if z == [] {
    } else {
      assert z[0] in z;
      SplitAtScore(z[1..], lo, h);
      var n := CountByScore(z[1..], lo, h);
      if z[0].score <= h {
        assert z[n + 1..] == z[1..][n..];
      } else {
        RangeAbove(z[1..], lo, h);
        assert z[0..] == z;
      }
    }
  }

  predicate Aligned(t: int, step: int)
    requires step > 0
  {
    t % step == 0
  }

  /** Distinct multiples of step, in increasing order, spread at least step apart. */
  lemma {:induction false} AlignedSpread(z: ZSet, step: int)
    requires z != [] && StrictScores(z) && step > 0
    requires forall e :: e in z ==> Aligned(e.score, step)
    ensures z[|z| - 1].score - z[0].score >= (|z| - 1) * step
  {
    hide Aligned;
    if |z| == 1 {
    } else {
      var front := z[..|z| - 1];
      AlignedSpread(front, step);
      var a, b := z[|z| - 2], z[|z| - 1];
      assert a in z && b in z;
      MultiplesApart(a.score, b.score, step);
    }
  }

  lemma MultiplesApart(a: int, b: int, step: int)
    requires step > 0 && Aligned(a, step) && Aligned(b, step) && a < b
    ensures b - a >= step
  {
    Division(a, step);
    Division(b, step);
    var i, j := a / step, b / step;
    if j <= i {
      MulLe(j, i, step);
    } else {
      MulLe(1, j - i, step);
    }
  }

  lemma QuotientBound(n: nat, step: int, width: int)
    requires step > 0 && n > 0 && (n - 1) * step < width && Aligned(width, step)
    ensures n <= width / step
  {
    Division(width, step);
    if n > width / step {
      MulLe(width / step, n - 1, step);
    }
  }

  /** Aligned candles that are not older than the horizon and not in the future. */
  lemma AlignedCount(z: ZSet, step: int, horizon: int, now: int)
    requires StrictScores(z) && step > 0 && Aligned(now - horizon, step) && now >= horizon
    requires forall e :: e in z ==> Aligned(e.score, step) && horizon < e.score <= now
    ensures |z| <= (now - horizon) / step
  {
    hide Aligned;
    if z != [] {
      AlignedSpread(z, step);
      assert z[0] in z && z[|z| - 1] in z;
      QuotientBound(|z|, step, now - horizon);
    }
  }

  /** Every stored candle time was pushed. */
  lemma {:induction false} StoredTimesPushed(h: seq<Push>, e: Entry)
    requires CommaFree(h)
    ensures e in RunSet(h) ==> exists p :: p in h && p.kline.candleTime == e.score
  {
    hide Decompress, Compress, PushSet, Trim, At;
    if h != [] && e in RunSet(h) {
      var front, last := h[..|h| - 1], h[|h| - 1];
      assert h == front + [last];
      assert last in h;
      RunValid(h, last.kline);
      RunValid(front, last.kline);
      AtEntry(RunSet(h), e);
      PushEffect(RunSet(front), last.kline);
      TrimEffect(PushSet(RunSet(front), last.kline).zset, last.kline.interval, last.now);
      if e.score != last.kline.candleTime {
        assert At(RunSet(front), e.score).Some?;
        var f := EntryAt(RunSet(front), e.score);
        StoredTimesPushed(front, f);
      }
    }
  }

  /** The aligned candles after the first n, all younger than the horizon and none in the future. */
  lemma YoungPart(z: ZSet, n: nat, step: int, horizon: int, now: int)
    requires StrictScores(z) && n <= |z| && step > 0 && Aligned(now - horizon, step) && now >= horizon
    requires forall e :: e in z ==> Aligned(e.score, step) && e.score <= now
    requires forall e :: e in z[n..] ==> e.score > horizon
    ensures |z| - n <= (now - horizon) / step
  {
    hide Aligned;
    forall e | e in z[n..] ensures e in z {
    }
    AlignedCount(z[n..], step, horizon, now);
  }

  /** A series whose candle times are aligned, not negative and not in the future holds at most 300 candles
      beyond what its retention period can hold. */
  lemma RetentionBound(h: seq<Push>, step: int)
    requires h != [] && CommaFree(h)
    requires var p := h[|h| - 1];
             && step > 0 && Aligned(Retention(p.kline.interval), step)
             && (forall q :: q in h ==> 0 <= q.kline.candleTime <= p.now && Aligned(q.kline.candleTime, step))
    ensures |RunSet(h)| <= TRIM_THRESHOLD + Retention(h[|h| - 1].kline.interval) / step
  {
    hide RunSet, RangeByScore, Retention, CommaFree, StrictScores, Aligned;
    var p := h[|h| - 1];
    var z, horizon := RunSet(h), Horizon(p.kline.interval, p.now);
    OldPart(h);
    forall e | e in z ensures 0 <= e.score <= p.now && Aligned(e.score, step) {
      StoredTimesPushed(h, e);
    }
    SplitAtScore(z, 0, horizon);
    RetentionPositive(p.kline.interval);
    assert p.now - horizon == Retention(p.kline.interval);
    YoungPart(z, CountByScore(z, 0, horizon), step, horizon, p.now);
  }

  lemma RetentionPositive(interval: string)
    ensures Retention(interval) >= 0
  {
  }

  /** After the last clean-up at most 300 candles are at or before its horizon. */
  lemma OldPart(h: seq<Push>)
    requires h != [] && CommaFree(h)
    ensures var p := h[|h| - 1];
            && StrictScores(RunSet(h))
            && CountByScore(RunSet(h), 0, Horizon(p.kline.interval, p.now)) <= TRIM_THRESHOLD
  {
    hide Decompress, Compress, PushSet, Trim, At;
    var front, p := h[..|h| - 1], h[|h| - 1];
    assert p in h;
    RunValid(h, p.kline);
    RunValid(front, p.kline);
    PushEffect(RunSet(front), p.kline);
    TrimEffect(PushSet(RunSet(front), p.kline).zset, p.kline.interval, p.now);
  }

  /** One-minute candles: at most 300 + 3 * 24 * 60. */
  lemma OneMinuteBound(h: seq<Push>)
    requires h != [] && CommaFree(h) && h[|h| - 1].kline.interval == "1m"
    requires forall q :: q in h ==> 0 <= q.kline.candleTime <= h[|h| - 1].now && Aligned(q.kline.candleTime, 60)
    ensures |RunSet(h)| <= 4620
  {
    RetentionBound(h, 60);
  }
}
