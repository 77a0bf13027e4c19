/** A candle series whose pair address contains a comma: nothing that is stored for it can be decoded. */
module KlineCommas {
  import opened Klines
  import opened KlineCodec
  import opened SortedSet
  import opened KlineStore
  import opened KlineHistory
  import opened KlineTexts

  ghost predicate AllCommas(h: seq<Push>) { forall p :: p in h ==> ',' in p.kline.pairAddr }

  /** Texts of which none decodes. */
  ghost predicate Undecodables(z: ZSet) { Texts(z) && forall e :: e in z ==> Decompress(e.member).None? }

  lemma RangeSameEntries(z: ZSet, y: ZSet, t: int)
    requires StrictScores(z) && StrictScores(y)
    requires forall e: Entry :: e.score == t ==> (e in z <==> e in y)
    ensures RangeByScore(z, t, t) == RangeByScore(y, t, t)
  {
    hide RangeByScore;
    if HasScore(z, t) {
      var e :| e in z && e.score == t;
      RangeOnePresent(z, e);
      RangeOnePresent(y, e);
    } else {
      RangeOneAbsent(z, t);
      RangeOneAbsent(y, t);
    }
  }

  lemma AddComma(z: ZSet, k: Kline)
    requires Undecodables(z) && !HasScore(z, k.candleTime) && ',' in k.pairAddr
    ensures var y := Add(z, k.candleTime, Compress(k));
            && Undecodables(y)
            && forall e :: e in y <==> e in z || e == Entry(k.candleTime, Compress(k))
  {
    hide Compress, Decompress, Add, IsText;
    AddText(z, k);
    RoundTrip(k);
  }

  lemma TrimComma(z: ZSet, interval: string, now: int)
    requires Undecodables(z)
    ensures Undecodables(Trim(z, interval, now))
    ensures forall t :: (t < 0 || t > Horizon(interval, now)) ==>
              RangeByScore(Trim(z, interval, now), t, t) == RangeByScore(z, t, t)
  {
    hide RangeByScore, RemoveByScore, IsText, Decompress;
    var lo, hi := 0, Horizon(interval, now);
    RemoveText(z, lo, hi);
    forall t | t < 0 || t > hi ensures RangeByScore(RemoveByScore(z, lo, hi), t, t) == RangeByScore(z, t, t) {
      RangeSameEntries(z, RemoveByScore(z, lo, hi), t);
    }
  }

  /** The first text of a time stays; nothing after it gets through. */
  lemma PushComma(z: ZSet, k: Kline)
    requires Undecodables(z) && ',' in k.pairAddr
    ensures if HasScore(z, k.candleTime) then PushSet(z, k) == Undecodable
            else PushSet(z, k) == Stored(Add(z, k.candleTime, Compress(k)), k)
  {
    hide Compress, Decompress;
    RangeOne(z, k.candleTime);
    if HasScore(z, k.candleTime) {
      assert RangeByScore(z, k.candleTime, k.candleTime)[0] in z;
    }
  }

  function FirstText(ks: seq<Kline>, t: int): ZSet {
    if ks == [] then [] else [Entry(t, Compress(ks[0]))]
  }

  /** Over any run, as long as no clean-up reaches a time: what is stored for it is the text of the first candle
      pushed for it, undecodable, and every later candle of that time is lost. */
  lemma {:induction false} CommaKeepsFirst(h: seq<Push>, t: int)
    requires AllCommas(h) && Retained(h, t)
    ensures Undecodables(RunSet(h))
    ensures RangeByScore(RunSet(h), t, t) == FirstText(AtTime(h, t), t)
  {
    hide Compress, Decompress, RangeByScore, PushSet, Trim, Add, IsText;
    if h == [] {
      RangeOneAbsent([], t);
    } else {
      var front, p := h[..|h| - 1], h[|h| - 1];
      assert p in h;
      CommaKeepsFirst(front, t);
      var z, k := RunSet(front), p.kline;
      PushComma(z, k);
      RangeOne(z, t);
      assert AtTime(front, t) + [] == AtTime(front, t);
      if !HasScore(z, k.candleTime) {
        AddComma(z, k);
        var y, x := Add(z, k.candleTime, Compress(k)), Entry(k.candleTime, Compress(k));
        TrimComma(y, k.interval, p.now);
        if t == k.candleTime {
          RangeOnePresent(y, x);
        } else {
          RangeSameEntries(z, y, t);
        }
      }
    }
  }

  /** Every push for a time that has one already is rejected. */
  lemma CommaLosesEveryUpdate(h: seq<Push>, later: Kline)
    requires AllCommas(h) && Retained(h, later.candleTime) && ',' in later.pairAddr
    ensures PushSet(RunSet(h), later) == Undecodable <==> AtTime(h, later.candleTime) != []
  {
    hide Compress, Decompress, RangeByScore, PushSet, Add, RunSet, InWindow;
    CommaKeepsFirst(h, later.candleTime);
    PushComma(RunSet(h), later);
    RangeOne(RunSet(h), later.candleTime);
  }
}
