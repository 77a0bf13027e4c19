/** What every stored set is, whatever was pushed into it: texts of candles under their own candle times. */
module KlineTexts {
  import opened Klines
  import opened KlineCodec
  import opened SortedSet
  import opened KlineStore
  import opened KlineHistory

  ghost predicate IsText(e: Entry, k: Kline) { e.score == k.candleTime && e.member == Compress(k) }

  /** Scores are distinct and every member is the text of a candle of its score. */
  ghost predicate Texts(z: ZSet) {
    StrictScores(z) && forall e :: e in z ==> exists k :: IsText(e, k)
  }

  lemma AddText(z: ZSet, k: Kline)
    requires Texts(z) && !HasScore(z, k.candleTime)
    ensures var y := Add(z, k.candleTime, Compress(k));
            && Texts(y)
            && forall e :: e in y <==> e in z || e == Entry(k.candleTime, Compress(k))
  {
    hide Compress;
    var x := Entry(k.candleTime, Compress(k));
    forall e | e in z ensures e.member != x.member {
      var other :| IsText(e, other);
      CompressInjective(other, k);
      assert e.member == x.member ==> other.candleTime == k.candleTime;
    }
    RemoveAbsent(z, x.member);
    InsertStrict(z, x);
    forall e ensures e in Insert(z, x) <==> e in z || e == x {
      InsertMember(z, x, e);
    }
    assert IsText(x, k);
  }

  lemma RemoveText(z: ZSet, lo: int, hi: int)
    requires Texts(z)
    ensures Texts(RemoveByScore(z, lo, hi))
    ensures forall e :: e in RemoveByScore(z, lo, hi) <==> e in z && !(lo <= e.score <= hi)
  {
    hide RemoveByScore, IsText;
    RemoveByScoreStrict(z, lo, hi);
    forall e ensures e in RemoveByScore(z, lo, hi) <==> e in z && !(lo <= e.score <= hi) {
      RemoveByScoreMember(z, lo, hi, e);
    }
  }

  /** Whatever was stored, a push never merges candles of different times: nil is never dereferenced. */
  lemma PushText(z: ZSet, k: Kline)
    requires Texts(z)
    ensures !PushSet(z, k).NilDereference?
    ensures PushSet(z, k).Stored? ==> Texts(PushSet(z, k).zset)
  {
    hide Compress, Decompress, IsText, Add, RemoveByScore, MergeSame;
    var t := k.candleTime;
    RangeOne(z, t);
    if HasScore(z, t) {
      var e := RangeByScore(z, t, t)[0];
      StoredText(z, e);
      RemoveText(z, t, t);
      if Decompress(e.member).Some? {
        var merged := MergeSame(Decompress(e.member).value, k);
        MergedTime(Decompress(e.member).value, k);
        AddText(RemoveByScore(z, t, t), merged);
      }
    } else {
      AddText(z, k);
    }
  }

  lemma StoredText(z: ZSet, e: Entry)
    requires Texts(z) && e in z
    ensures Decompress(e.member).Some? ==> Decompress(e.member).value.candleTime == e.score
  {
    hide Compress, Decompress;
    var o :| IsText(e, o);
    RoundTrip(o);
  }

  lemma MergedTime(o: Kline, k: Kline)
    ensures MergeSame(o, k).candleTime == k.candleTime
  {
  }

  /** Any run of pushes, with commas or without, leaves texts, and its next push dereferences no nil. */
  lemma {:induction false} RunTexts(h: seq<Push>, next: Kline)
    ensures Texts(RunSet(h)) && !PushSet(RunSet(h), next).NilDereference?
  {
    hide PushSet, RemoveByScore, RangeByScore, IsText;
    if h == [] {
    } else {
      var front, p := h[..|h| - 1], h[|h| - 1];
      RunTexts(front, p.kline);
      PushText(RunSet(front), p.kline);
      if PushSet(RunSet(front), p.kline).Stored? {
        RemoveText(PushSet(RunSet(front), p.kline).zset, 0, Horizon(p.kline.interval, p.now));
      }
    }
    PushText(RunSet(h), next);
  }
}
