/** Filtering, summing and reordering of finite sequences. */
module Sequences {

  function Filter<T(!new)>(s: seq<T>, keep: T -> bool): seq<T>
  {
    if s == [] then []
    else (if keep(s[0]) then [s[0]] else []) + Filter(s[1..], keep)
  }

  function Sum<T(!new)>(s: seq<T>, f: T -> int): int {
    if s == [] then 0 else f(s[0]) + Sum(s[1..], f)
  }

  lemma {:induction false} FilterMember<T(!new)>(s: seq<T>, keep: T -> bool, x: T)
    ensures x in Filter(s, keep) <==> x in s && keep(x)
  {
    if s == [] {
    } else {
      FilterMember(s[1..], keep, x);
      assert s == [s[0]] + s[1..];
    }
  }

  lemma {:induction false} FilterConcat<T(!new)>(a: seq<T>, b: seq<T>, keep: T -> bool)
    ensures Filter(a + b, keep) == Filter(a, keep) + Filter(b, keep)
  {
    if a == [] {
      assert a + b == b;
    } else {
      FilterConcat(a[1..], b, keep);
      assert (a + b)[1..] == a[1..] + b && (a + b)[0] == a[0];
      var head := if keep(a[0]) then [a[0]] else [];
      assert Filter(a, keep) == head + Filter(a[1..], keep);
      assert Filter(a + b, keep) == head + Filter((a + b)[1..], keep);
    }
  }

  lemma FilterSnoc<T(!new)>(s: seq<T>, x: T, keep: T -> bool)
    ensures Filter(s + [x], keep) == Filter(s, keep) + if keep(x) then [x] else []
  {
    FilterConcat(s, [x], keep);
    assert [x][1..] == [];
  }

  lemma {:induction false} FilterNone<T(!new)>(s: seq<T>, keep: T -> bool)
    requires forall x :: x in s ==> !keep(x)
    ensures Filter(s, keep) == []
  {
    if s == [] {
    } else {
      FilterNone(s[1..], keep);
    }
  }

  /** Filtering keeps exactly the positions that satisfy keep, in their order. */
  lemma {:induction false} FilterPositions<T(!new)>(s: seq<T>, keep: T -> bool) returns (at: seq<nat>)
    ensures |at| == |Filter(s, keep)|
    ensures forall k :: 0 <= k < |at| ==> at[k] < |s| && s[at[k]] == Filter(s, keep)[k]
    ensures forall j, k :: 0 <= j < k < |at| ==> at[j] < at[k]
    ensures forall i :: 0 <= i < |s| ==> (keep(s[i]) <==> i in at)
  {
    if s == [] {
      at := [];
    } else {
      var n := |s| - 1;
      var front := s[..n];
      at := FilterPositions(front, keep);
      FilterSnoc(front, s[n], keep);
      assert s == front + [s[n]];
      assert forall i :: 0 <= i < n ==> front[i] == s[i];
      if keep(s[n]) {
        at := at + [n];
      }
    }
  }

  lemma {:induction false} FilterIdempotent<T(!new)>(s: seq<T>, keep: T -> bool)
    requires forall x :: x in s ==> keep(x)
    ensures Filter(s, keep) == s
  {
    if s == [] {
    } else {
      FilterIdempotent(s[1..], keep);
    }
  }

  lemma {:induction false} SumConcat<T(!new)>(a: seq<T>, b: seq<T>, f: T -> int)
    ensures Sum(a + b, f) == Sum(a, f) + Sum(b, f)
  {
    if a == [] {
      assert a + b == b;
    } else {
      SumConcat(a[1..], b, f);
      assert (a + b)[1..] == a[1..] + b;
    }
  }

  lemma SumSnoc<T(!new)>(s: seq<T>, x: T, f: T -> int)
    ensures Sum(s + [x], f) == Sum(s, f) + f(x)
  {
    SumConcat(s, [x], f);
    assert [x][1..] == [];
  }

  lemma MultisetMiddle<T(!new)>(left: seq<T>, x: T, right: seq<T>)
    ensures multiset(left + [x] + right) == multiset{x} + multiset(left + right)
  {
    assert multiset(left + [x] + right) == multiset(left) + multiset([x]) + multiset(right);
    assert multiset(left + right) == multiset(left) + multiset(right);
  }

  lemma MultisetCancel<T(!new)>(x: T, a: multiset<T>, b: multiset<T>)
    requires multiset{x} + a == multiset{x} + b
    ensures a == b
  {
    forall y ensures a[y] == b[y] {
      assert (multiset{x} + a)[y] == (multiset{x} + b)[y];
    }
  }

  /** The first element of a, taken out of a reordering of a. */
  lemma PermutationPullOut<T(!new)>(a: seq<T>, b: seq<T>) returns (left: seq<T>, right: seq<T>)
    requires a != [] && multiset(a) == multiset(b)
    ensures b == left + [a[0]] + right
    ensures multiset(a[1..]) == multiset(left + right)
  {
    var x := a[0];
    assert x in multiset(a);
    assert x in multiset(b);
    var i :| 0 <= i < |b| && b[i] == x;
    left, right := b[..i], b[i + 1..];
    assert b == left + [x] + right;
    MultisetMiddle(left, x, right);
    assert a == [] + [x] + a[1..] && [] + a[1..] == a[1..];
    MultisetMiddle([], x, a[1..]);
    MultisetCancel(x, multiset(a[1..]), multiset(left + right));
  }

  /** A sum depends only on which elements occur and how often. */
  lemma {:induction false} SumPermutation<T(!new)>(a: seq<T>, b: seq<T>, f: T -> int)
    requires multiset(a) == multiset(b)
    ensures Sum(a, f) == Sum(b, f)
  {
    if a == [] {
      assert |multiset(b)| == 0;
    } else {
      var x := a[0];
      var left, right := PermutationPullOut(a, b);
      SumPermutation(a[1..], left + right, f);
      SumConcat(left, right, f);
      SumConcat(left + [x], right, f);
      SumSnoc(left, x, f);
    }
  }
}
