/** Redis sorted sets: unique members, each with a score, ordered by score and then by member. */
module SortedSet {

  datatype Entry = Entry(score: int, member: string)

  type ZSet = seq<Entry>

  /** Redis orders members of equal score by their text. */
  predicate TextBefore(a: string, b: string) {
    if b == [] then false
    else if a == [] then true
    else a[0] < b[0] || (a[0] == b[0] && TextBefore(a[1..], b[1..]))
  }

  /** At position i the first text is smaller, and up to there they agree. */
  predicate SmallerAt(a: string, b: string, i: int) {
    0 <= i < |a| && i < |b| && a[i] < b[i] && forall j :: 0 <= j < i ==> a[j] == b[j]
  }

  predicate ProperPrefix(a: string, b: string) { |a| < |b| && forall j :: 0 <= j < |a| ==> a[j] == b[j] }

  lemma SmallerShift(a: string, b: string, i: int)
    requires a != [] && b != [] && a[0] == b[0]
    ensures SmallerAt(a[1..], b[1..], i) <==> i >= 0 && SmallerAt(a, b, i + 1)
  {
    if i >= 0 && SmallerAt(a, b, i + 1) {
      forall j | 0 <= j < i ensures a[1..][j] == b[1..][j] {
        assert a[j + 1] == b[j + 1];
      }
    }
    if SmallerAt(a[1..], b[1..], i) {
      forall j | 0 <= j < i + 1 ensures a[j] == b[j] {
        assert j > 0 ==> a[1..][j - 1] == b[1..][j - 1];
      }
    }
  }

  lemma PrefixShift(a: string, b: string)
    requires a != [] && b != [] && a[0] == b[0]
    ensures ProperPrefix(a[1..], b[1..]) <==> ProperPrefix(a, b)
  {
    if ProperPrefix(a, b) {
      forall j | 0 <= j < |a[1..]| ensures a[1..][j] == b[1..][j] {
        assert a[j + 1] == b[j + 1];
      }
    }
    if ProperPrefix(a[1..], b[1..]) {
      forall j | 0 <= j < |a| ensures a[j] == b[j] {
        assert j > 0 ==> a[1..][j - 1] == b[1..][j - 1];
      }
    }
  }

  /** One text sorts before another exactly when it is a proper prefix of it or smaller at the first difference. */
  lemma {:induction false} TextBeforeMeaning(a: string, b: string)
    ensures TextBefore(a, b) <==> ProperPrefix(a, b) || exists i :: SmallerAt(a, b, i)
  {
    if a == [] || b == [] {
    } else if a[0] != b[0] {
      assert SmallerAt(a, b, 0) <==> a[0] < b[0];
      assert forall i :: SmallerAt(a, b, i) ==> i == 0;
    } else {
      TextBeforeMeaning(a[1..], b[1..]);
      PrefixShift(a, b);
      forall i ensures SmallerAt(a[1..], b[1..], i) <==> i >= 0 && SmallerAt(a, b, i + 1) {
        SmallerShift(a, b, i);
      }
      assert !SmallerAt(a, b, 0);
      hide ProperPrefix, SmallerAt;
      if i :| SmallerAt(a[1..], b[1..], i) {
        assert SmallerAt(a, b, i + 1);
      }
      if i :| SmallerAt(a, b, i) {
        SmallerPositive(a, b, i);
        assert SmallerAt(a, b, i - 1 + 1);
        assert SmallerAt(a[1..], b[1..], i - 1);
      }
    }
  }

  lemma SmallerPositive(a: string, b: string, i: int)
    requires SmallerAt(a, b, i) && a[0] == b[0]
    ensures i > 0
  {
  }

  predicate Before(a: Entry, b: Entry) {
    a.score < b.score || (a.score == b.score && TextBefore(a.member, b.member))
  }

  function Insert(z: ZSet, e: Entry): ZSet {
    if z == [] || Before(e, z[0]) then [e] + z else [z[0]] + Insert(z[1..], e)
  }

  function Remove(z: ZSet, member: string): ZSet {
    if z == [] then []
    else (if z[0].member == member then [] else [z[0]]) + Remove(z[1..], member)
  }

  /** ZADD: a member already present is moved to its new score. */
  function Add(z: ZSet, score: int, member: string): ZSet {
    Insert(Remove(z, member), Entry(score, member))
  }

  /** ZRANGEBYSCORE with both bounds included. */
  function RangeByScore(z: ZSet, lo: int, hi: int): ZSet {
    if z == [] then []
    else (if lo <= z[0].score <= hi then [z[0]] else []) + RangeByScore(z[1..], lo, hi)
  }

  /** ZREMRANGEBYSCORE. */
  function RemoveByScore(z: ZSet, lo: int, hi: int): ZSet {
    if z == [] then []
    else (if lo <= z[0].score <= hi then [] else [z[0]]) + RemoveByScore(z[1..], lo, hi)
  }

  /** ZCOUNT. */
  function CountByScore(z: ZSet, lo: int, hi: int): nat { |RangeByScore(z, lo, hi)| }

  // ---------------------------------------------------------------- one member per score

  /** Scores strictly increase: no score has two members. */
  predicate StrictScores(z: ZSet) {
    forall i, j :: 0 <= i < j < |z| ==> z[i].score < z[j].score
  }

  predicate HasScore(z: ZSet, t: int) { exists e :: e in z && e.score == t }

  lemma {:induction false} RangeMember(z: ZSet, lo: int, hi: int, e: Entry)
    ensures e in RangeByScore(z, lo, hi) <==> e in z && lo <= e.score <= hi
  {
    if z == [] {
    } else {
      RangeMember(z[1..], lo, hi, e);
      assert z == [z[0]] + z[1..];
    }
  }

  lemma {:induction false} RemoveByScoreMember(z: ZSet, lo: int, hi: int, e: Entry)
    ensures e in RemoveByScore(z, lo, hi) <==> e in z && !(lo <= e.score <= hi)
  {
    if z == [] {
    } else {
      RemoveByScoreMember(z[1..], lo, hi, e);
      assert z == [z[0]] + z[1..];
    }
  }

  lemma {:induction false} InsertMember(z: ZSet, x: Entry, e: Entry)
    ensures e in Insert(z, x) <==> e in z || e == x
  {
    if z == [] || Before(x, z[0]) {
    } else {
      InsertMember(z[1..], x, e);
      assert z == [z[0]] + z[1..];
    }
  }

  lemma {:induction false} RemoveAbsent(z: ZSet, member: string)
    requires forall e :: e in z ==> e.member != member
    ensures Remove(z, member) == z
  {
    if z == [] {
    } else {
      assert z[0] in z;
      RemoveAbsent(z[1..], member);
    }
  }

  /** Strictly increasing is: the head is below all the rest, and the rest is strictly increasing. */
  lemma StrictCons(e: Entry, z: ZSet)
    requires StrictScores(z) && forall x :: x in z ==> e.score < x.score
    ensures StrictScores([e] + z)
  {
    forall i, j | 0 <= i < j < |[e] + z| ensures ([e] + z)[i].score < ([e] + z)[j].score {
      assert z[j - 1] in z;
    }
  }

  lemma {:induction false} RangeStrict(z: ZSet, lo: int, hi: int)
    requires StrictScores(z)
    ensures StrictScores(RangeByScore(z, lo, hi))
  {
    if z == [] {
    } else {
      var rest := RangeByScore(z[1..], lo, hi);
      RangeStrict(z[1..], lo, hi);
      if lo <= z[0].score <= hi {
        forall x | x in rest ensures z[0].score < x.score { RangeMember(z[1..], lo, hi, x); }
        StrictCons(z[0], rest);
      } else {
        assert [] + rest == rest;
      }
    }
  }

  lemma {:induction false} RemoveByScoreStrict(z: ZSet, lo: int, hi: int)
    requires StrictScores(z)
    ensures StrictScores(RemoveByScore(z, lo, hi))
  {
    if z == [] {
    } else {
      var rest := RemoveByScore(z[1..], lo, hi);
      RemoveByScoreStrict(z[1..], lo, hi);
      if lo <= z[0].score <= hi {
        assert [] + rest == rest;
      } else {
        forall x | x in rest ensures z[0].score < x.score { RemoveByScoreMember(z[1..], lo, hi, x); }
        StrictCons(z[0], rest);
      }
    }
  }

  lemma {:induction false} InsertStrict(z: ZSet, x: Entry)
    requires StrictScores(z) && !HasScore(z, x.score)
    ensures StrictScores(Insert(z, x))
  {
    if z == [] || Before(x, z[0]) {
      assert z != [] ==> z[0] in z;
      StrictCons(x, z);
    } else {
      assert z[0] in z;
      var rest := Insert(z[1..], x);
      InsertStrict(z[1..], x);
      forall e | e in rest ensures z[0].score < e.score { InsertMember(z[1..], x, e); }
      StrictCons(z[0], rest);
    }
  }

  lemma SameScore(z: ZSet, a: Entry, b: Entry)
    requires StrictScores(z) && a in z && b in z && a.score == b.score
    ensures a == b
  {
  }

  lemma RangeOneAbsent(z: ZSet, t: int)
    requires !HasScore(z, t)
    ensures RangeByScore(z, t, t) == []
  {
    var v := RangeByScore(z, t, t);
    if v != [] {
      RangeMember(z, t, t, v[0]);
      assert HasScore(z, t);
    }
  }

  lemma RangeOnePresent(z: ZSet, e: Entry)
    requires StrictScores(z) && e in z
    ensures RangeByScore(z, e.score, e.score) == [e]
  {
    var t := e.score;
    var v := RangeByScore(z, t, t);
    RangeStrict(z, t, t);
    RangeMember(z, t, t, e);
    RangeMember(z, t, t, v[0]);
    SameScore(z, v[0], e);
    if |v| >= 2 {
      RangeMember(z, t, t, v[1]);
      assert false;
    }
  }

  /** Looking one score up finds its only member, or nothing. */
  lemma RangeOne(z: ZSet, t: int)
    requires StrictScores(z)
    ensures var v := RangeByScore(z, t, t);
            if HasScore(z, t) then |v| == 1 && v[0] in z && v[0].score == t else v == []
  {
    if HasScore(z, t) {
      var e :| e in z && e.score == t;
      RangeOnePresent(z, e);
    } else {
      RangeOneAbsent(z, t);
    }
  }

  /** Nothing is left in a range that was removed. */
  lemma {:induction false} RangeRemoved(z: ZSet, lo: int, hi: int)
    ensures RangeByScore(RemoveByScore(z, lo, hi), lo, hi) == []
  {
    if z == [] {
    } else {
      RangeRemoved(z[1..], lo, hi);
      var rest := RemoveByScore(z[1..], lo, hi);
      assert ([z[0]] + rest)[1..] == rest;
      assert [] + rest == rest;
    }
  }
}
