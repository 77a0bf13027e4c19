/** One push into a candle store: look up, merge, replace, trim. */
module KlineStore {
  import opened Wrappers
  import opened Strings
  import opened Klines
  import opened KlineCodec
  import opened SortedSet

  const THREE_DAYS_SECONDS := 3 * 24 * 60 * 60
  const SEVEN_DAYS_SECONDS := 7 * 24 * 60 * 60
  const TRIM_THRESHOLD := 300

  /** How far back trimming keeps the candles of an interval. */
  function Retention(interval: string): int {
    if interval == "1m" then THREE_DAYS_SECONDS else SEVEN_DAYS_SECONDS
  }

  /** The Redis key of a candle series. */
  function Key(chainId: int64, pairAddr: string, interval: string): string {
    "kline:" + Itoa(chainId) + ":" + pairAddr + ":" + interval
  }

  lemma KeyText()
    ensures Key(100000, "P", "1m") == "kline:100000:P:1m"
  {
  }

  lemma KeyParts(c1: int64, p1: string, c2: int64, p2: string)
    requires Itoa(c1) + [':'] + p1 == Itoa(c2) + [':'] + p2
    ensures c1 == c2 && p1 == p2
  {
    ItoaAlphabet(c1, ':');
    ItoaAlphabet(c2, ':');
    FirstSeparator(Itoa(c1), p1, Itoa(c2), p2, ':');
    AtoiItoa(c1);
    AtoiItoa(c2);
  }

  /** Different series have different keys, as long as intervals contain no colon. */
  lemma KeyInjective(c1: int64, p1: string, i1: string, c2: int64, p2: string, i2: string)
    requires ':' !in i1 && ':' !in i2
    ensures Key(c1, p1, i1) == Key(c2, p2, i2) <==> c1 == c2 && p1 == p2 && i1 == i2
  {
    hide Itoa;
    if Key(c1, p1, i1) == Key(c2, p2, i2) {
      var a, b := "kline:" + Itoa(c1) + ":" + p1, "kline:" + Itoa(c2) + ":" + p2;
      LastSeparator(a, i1, b, i2, ':');
      assert a[6..] == Itoa(c1) + [':'] + p1 && b[6..] == Itoa(c2) + [':'] + p2;
      KeyParts(c1, p1, c2, p2);
    }
  }

  // ---------------------------------------------------------------- the commands of one push

  datatype PushOutcome =
    | Stored(zset: ZSet, kline: Kline)
    | Undecodable       // the stored text does not split into fifteen fields: nothing is written
    | NilDereference    // mergeKline gave nil and compress would dereference it

  /** newPush from the look-up to the last ZADD. */
  function PushSet(z: ZSet, k: Kline): PushOutcome {
    var v := RangeByScore(z, k.candleTime, k.candleTime);
    if v == [] then Stored(Add(z, k.candleTime, Compress(k)), k)
    else
      match Decompress(v[0].member)
      case None => Undecodable
      case Some(stored) =>
        var removed := RemoveByScore(z, k.candleTime, k.candleTime);
        match Merge(stored, k)
        case None => NilDereference
        case Some(merged) => Stored(Add(removed, k.candleTime, Compress(merged)), merged)
  }

  function Horizon(interval: string, now: int): int { now - Retention(interval) }

  /** The clean-up at the end of newPush. */
  function Trim(z: ZSet, interval: string, now: int): ZSet {
    if CountByScore(z, 0, Horizon(interval, now)) > TRIM_THRESHOLD
    then RemoveByScore(z, 0, Horizon(interval, now))
    else z
  }

  // ---------------------------------------------------------------- the invariant of a stored set

  /** The entry decodes to a candle of its own score. */
  predicate Faithful(e: Entry) {
    && Decompress(e.member).Some?
    && Decompress(e.member).value.candleTime == e.score
  }

  ghost predicate Valid(z: ZSet) {
    StrictScores(z) && forall e :: e in z ==> Faithful(e)
  }

  /** The candle stored at time t, looked up and decoded as newPush does it. */
  function At(z: ZSet, t: int): Option<Kline> {
    var v := RangeByScore(z, t, t);
    if v == [] then None else Decompress(v[0].member)
  }

  lemma AtEntry(z: ZSet, e: Entry)
    requires Valid(z) && e in z
    ensures At(z, e.score) == Decompress(e.member)
  {
    RangeOne(z, e.score);
    SameScore(z, RangeByScore(z, e.score, e.score)[0], e);
  }

  lemma AtAbsent(z: ZSet, t: int)
    requires Valid(z) && !HasScore(z, t)
    ensures At(z, t) == None
  {
    RangeOne(z, t);
  }

  lemma EntryAt(z: ZSet, t: int) returns (e: Entry)
    requires Valid(z) && At(z, t).Some?
    ensures e in z && e.score == t
  {
    RangeOne(z, t);
    e := RangeByScore(z, t, t)[0];
  }

  /** Sets with the same entries at a time give the same candle for it. */
  lemma AtSameEntries(z: ZSet, y: ZSet, t: int)
    requires Valid(z) && Valid(y)
    requires forall e: Entry :: e.score == t ==> (e in z <==> e in y)
    ensures At(z, t) == At(y, t)
  {
    if HasScore(z, t) {
      var e :| e in z && e.score == t;
      AtEntry(z, e);
      AtEntry(y, e);
    } else {
      AtAbsent(z, t);
      AtAbsent(y, t);
    }
  }

  /** Writing a candle at a time that is free. */
  lemma AddEffect(z: ZSet, k: Kline)
    requires Valid(z) && !HasScore(z, k.candleTime) && ',' !in k.pairAddr
    ensures var added := Add(z, k.candleTime, Compress(k));
            && Valid(added)
            && At(added, k.candleTime) == Some(Strip(k))
            && (forall t :: t != k.candleTime ==> At(added, t) == At(z, t))
            && (forall x :: x in added <==> x in z || x == Entry(k.candleTime, Compress(k)))
  {
    var e := Entry(k.candleTime, Compress(k));
    var added := Add(z, e.score, e.member);
    RoundTrip(k);
    forall x | x in z ensures x.member != e.member {
      assert Faithful(x);
    }
    RemoveAbsent(z, e.member);
    forall x ensures x in added <==> x in z || x == e {
      InsertMember(z, e, x);
    }
    InsertStrict(z, e);
    AtEntry(added, e);
    forall t | t != e.score ensures At(added, t) == At(z, t) {
      AtSameEntries(added, z, t);
    }
  }

  /** Deleting a range of times. */
  lemma RemoveEffect(z: ZSet, lo: int, hi: int)
    requires Valid(z)
    ensures var removed := RemoveByScore(z, lo, hi);
            && Valid(removed)
            && (forall t :: At(removed, t) == if lo <= t <= hi then None else At(z, t))
            && (forall e :: e in removed <==> e in z && !(lo <= e.score <= hi))
  {
    var removed := RemoveByScore(z, lo, hi);
    forall e ensures e in removed <==> e in z && !(lo <= e.score <= hi) {
      RemoveByScoreMember(z, lo, hi, e);
    }
    RemoveByScoreStrict(z, lo, hi);
    forall t ensures At(removed, t) == if lo <= t <= hi then None else At(z, t) {
      if lo <= t <= hi {
        AtAbsent(removed, t);
      } else {
        AtSameEntries(removed, z, t);
      }
    }
  }

  /** What a push makes of the candle that was stored at its time. */
  function Merged(stored: Option<Kline>, k: Kline): Kline {
    match stored
    case None => k
    case Some(o) => MergeSame(o, k)
  }

  /** A push on a valid set always succeeds and replaces exactly the candle of its own time. */
  lemma PushEffect(z: ZSet, k: Kline)
    requires Valid(z) && ',' !in k.pairAddr
    ensures PushSet(z, k).Stored?
    ensures var r := PushSet(z, k);
            && r.kline == Merged(At(z, k.candleTime), k)
            && Valid(r.zset)
            && (forall t :: At(r.zset, t) ==
                  if t == k.candleTime then Some(Strip(Merged(At(z, t), k))) else At(z, t))
  {
    var t := k.candleTime;
    RangeOne(z, t);
    if HasScore(z, t) {
      var e := RangeByScore(z, t, t)[0];
      assert Faithful(e);
      var merged := MergeSame(Decompress(e.member).value, k);
      RemoveEffect(z, t, t);
      AddEffect(RemoveByScore(z, t, t), merged);
    } else {
      AddEffect(z, k);
    }
  }

  /** Trimming drops old candles, and only when more than 300 of them are stored. */
  lemma TrimEffect(z: ZSet, interval: string, now: int)
    requires Valid(z)
    ensures Valid(Trim(z, interval, now))
    ensures forall t :: (t < 0 || t > Horizon(interval, now)) ==> At(Trim(z, interval, now), t) == At(z, t)
    ensures forall t :: At(Trim(z, interval, now), t) == At(z, t) || At(Trim(z, interval, now), t) == None
    ensures CountByScore(Trim(z, interval, now), 0, Horizon(interval, now)) <= TRIM_THRESHOLD
  {
    var h := Horizon(interval, now);
    RemoveEffect(z, 0, h);
    RangeRemoved(z, 0, h);
  }

  /** Up to 300 old candles the clean-up removes nothing; from 301 on it removes all of them, and only them. Old is
      three days for one-minute candles and seven days for any other interval. */
  lemma TrimIff(z: ZSet, interval: string, now: int)
    requires Valid(z)
    ensures var horizon := now - if interval == "1m" then 259_200 else 604_800;
            if |RangeByScore(z, 0, horizon)| <= 300 then Trim(z, interval, now) == z
            else forall t :: At(Trim(z, interval, now), t) == if 0 <= t <= horizon then None else At(z, t)
  {
    HorizonIs(interval, now);
    hide RangeByScore, RemoveByScore, At, Valid, Horizon;
    RemoveEffect(z, 0, Horizon(interval, now));
  }

  lemma HorizonIs(interval: string, now: int)
    ensures Horizon(interval, now) == now - if interval == "1m" then 259_200 else 604_800
  {
  }

  /** A pair address with a comma: the first candle is written, every later one of its time is lost. */
  lemma CommaLosesUpdates(z: ZSet, first: Kline, later: Kline)
    requires Valid(z) && !HasScore(z, first.candleTime)
    requires ',' in first.pairAddr && later.candleTime == first.candleTime
    ensures PushSet(z, first).Stored?
    ensures PushSet(PushSet(z, first).zset, later) == Undecodable
  {
    RangeOne(z, first.candleTime);
    RoundTrip(first);
    var e := Entry(first.candleTime, Compress(first));
    forall x | x in z ensures x.member != e.member {
      assert Faithful(x);
    }
    RemoveAbsent(z, e.member);
    InsertStrict(z, e);
    InsertMember(z, e, e);
    var y := Insert(z, e);
    RangeOne(y, e.score);
    SameScore(y, RangeByScore(y, e.score, e.score)[0], e);
  }
}
