/** Numbers of math/big's Float at the 53 bits of precision that NewFloat sets, rounded to nearest even. */
module BigFloats {

  function Power(n: nat): (p: int)
    ensures p >= 1
  {
    if n == 0 then 1 else 2 * Power(n - 1)
  }

  /** The unit of a binade: two to the k. */
  function Scale(k: int): (u: real)
    ensures u > 0.0
  {
    if k >= 0 then Power(k) as real else 1.0 / Power(-k) as real
  }

  const LEAST := 0x10_0000_0000_0000   // 2^52

  /** One part in 2^53. */
  function Err(x: real): real { x / 9007199254740992.0 }

  function Abs(x: real): real { if x < 0.0 then -x else x }

  /** x lies in the binade of unit 2^k, where its mantissa has 53 bits. */
  predicate InBinade(x: real, k: int) { 4503599627370496.0 * Scale(k) <= Abs(x) < 9007199254740992.0 * Scale(k) }

  /** The m-th multiple of u is nearest to x, with an even multiple on a tie. */
  predicate Closest(x: real, u: real, m: int) {
    Abs(m as real * u - x) <= u / 2.0 && (Abs(m as real * u - x) == u / 2.0 ==> m % 2 == 0)
  }

  predicate Nearest(x: real, y: real, k: int, m: int) { y == m as real * Scale(k) && Closest(x, Scale(k), m) }

  ghost predicate IsRounded(x: real, y: real) {
    if x == 0.0 then y == 0.0 else exists k, m :: InBinade(x, k) && Nearest(x, y, k, m)
  }

  ghost predicate IsRounding(round: real -> real) { forall x :: IsRounded(x, round(x)) }

  /** Rounding errs by at most one part in 2^53. */
  lemma RelativeError(x: real, y: real)
    requires IsRounded(x, y)
    ensures Abs(y - x) <= Err(Abs(x))
  {
    hide Scale;
    if x != 0.0 {
      var k, m :| InBinade(x, k) && Nearest(x, y, k, m);
    }
  }

  lemma {:induction false} PowerAdd(a: nat, b: nat)
    ensures Power(a + b) == Power(a) * Power(b)
  {
    if a == 0 {
    } else {
      PowerAdd(a - 1, b);
    }
  }

  lemma PowerStep(n: nat)
    ensures Power(n + 1) == 2 * Power(n)
  {
  }

  lemma SmallPowers()
    ensures Power(2) == 4 && Power(3) == 8 && Power(4) == 0x10 && Power(8) == 0x100 && Power(16) == 0x1_0000
  {
    assert Power(2) == 4 && Power(3) == 8 by { assert Power(1) == 2; }
    hide Power;
    PowerAdd(2, 2);
    PowerAdd(4, 4);
    PowerAdd(8, 8);
  }

  lemma SomePowers()
    ensures Power(47) == 0x8000_0000_0000
    ensures Power(52) == LEAST && Power(53) == 2 * LEAST && Power(54) == 4 * LEAST
  {
    hide Power;
    SmallPowers();
    PowerAdd(16, 16);
    PowerAdd(32, 8);
    PowerAdd(40, 4);
    PowerAdd(44, 3);
    PowerAdd(44, 8);
    PowerStep(52);
    PowerStep(53);
  }

  lemma ScaleStep(k: int)
    ensures Scale(k + 1) == 2.0 * Scale(k)
  {
    if k < 0 {
      assert Power(-k) == 2 * Power(-k - 1);
    }
  }

  lemma {:induction false} ScaleGrows(j: int, k: int)
    requires j < k
    ensures 2.0 * Scale(j) <= Scale(k)
    decreases k - j
  {
    hide Scale;
    ScaleStep(k - 1);
    if j == k - 1 {
    } else {
      ScaleGrows(j, k - 1);
    }
  }

  /** A number lies in one binade. */
  lemma BinadeUnique(x: real, j: int, k: int)
    requires InBinade(x, j) && InBinade(x, k)
    ensures j == k
  {
    hide Scale;
    if j < k {
      ScaleGrows(j, k);
    } else if k < j {
      ScaleGrows(k, j);
    }
  }

  lemma Apart(x: real, u: real, p: real, q: real)
    requires u > 0.0 && Abs(p - x) <= u / 2.0 && Abs(q - x) <= u / 2.0
    ensures Abs(q - p) <= u
    ensures Abs(q - p) == u ==> Abs(p - x) == u / 2.0 && Abs(q - x) == u / 2.0
  {
  }

  lemma Distribute(m: int, n: int, u: real)
    ensures (n - m) as real * u == n as real * u - m as real * u
  {
  }

  lemma OneApart(m: int, n: int, u: real)
    requires u > 0.0 && Abs(n as real * u - m as real * u) <= u
    ensures m == n || (Abs(n as real * u - m as real * u) == u && (n == m + 1 || n == m - 1))
  {
    Distribute(m, n, u);
    var x, y := (n - m) as real * u, n as real * u - m as real * u;
    assert x == y;
    if n > m + 1 || n < m - 1 {
      MultiplesFar(n - m, u);
    } else if n != m {
      MultiplesApart(n - m, u);
    }
  }

  lemma ClosestUnique(x: real, u: real, m: int, n: int)
    requires u > 0.0 && Closest(x, u, m) && Closest(x, u, n)
    ensures m == n
  {
    hide Abs;
    Apart(x, u, m as real * u, n as real * u);
    OneApart(m, n, u);
  }

  /** In a known binade the closest multiple is the result. */
  lemma RoundsTo(x: real, y: real, k: int, m: int)
    requires x != 0.0 && IsRounded(x, y) && InBinade(x, k) && Closest(x, Scale(k), m)
    ensures y == m as real * Scale(k)
  {
    hide Scale;
    var j, n :| InBinade(x, j) && Nearest(x, y, j, n);
    BinadeUnique(x, j, k);
    hide InBinade;
    ClosestUnique(x, Scale(k), m, n);
  }

  lemma MultiplesApart(d: int, u: real)
    requires u > 0.0 && d != 0
    ensures Abs(d as real * u) >= u
  {
    if d > 0 {
      assert (d as real - 1.0) * u >= 0.0;
    } else {
      assert (-1.0 - d as real) * u >= 0.0;
    }
  }

  lemma MultiplesFar(d: int, u: real)
    requires u > 0.0 && (d > 1 || d < -1)
    ensures Abs(d as real * u) >= 2.0 * u
  {
    if d > 0 {
      assert (d as real - 2.0) * u >= 0.0;
    } else {
      assert (-2.0 - d as real) * u >= 0.0;
    }
  }

  // ---------------------------------------------------------------- there is exactly one rounding

  lemma {:induction false} BinadeAbove(x: real) returns (k: int)
    requires x >= 4503599627370496.0
    ensures InBinade(x, k)
    decreases x.Floor
  {
    if x < 9007199254740992.0 {
      k := 0;
    } else {
      k := BinadeAbove(x / 2.0);
      ScaleStep(k);
      hide Scale;
      k := k + 1;
    }
  }

  lemma {:induction false} BinadeBelow(x: real) returns (k: int)
    requires 0.0 < x < 9007199254740992.0
    ensures InBinade(x, k)
    decreases (9007199254740992.0 / x).Floor
  {
    if x >= 4503599627370496.0 {
      k := 0;
    } else {
      assert 9007199254740992.0 / (2.0 * x) == 9007199254740992.0 / x / 2.0;
      assert 9007199254740992.0 / x > 2.0;
      k := BinadeBelow(2.0 * x);
      ScaleStep(k - 1);
      hide Scale;
      k := k - 1;
    }
  }

  lemma ClosestExists(x: real, u: real) returns (m: int)
    requires u > 0.0
    ensures Closest(x, u, m)
  {
    var f := (x / u).Floor;
    Bracket(x, u, f);
    var below := f as real * u;
    if x - below < u / 2.0 || (x - below == u / 2.0 && f % 2 == 0) {
      m := f;
    } else {
      m := f + 1;
    }
  }

  lemma Bracket(x: real, u: real, f: int)
    requires u > 0.0 && f == (x / u).Floor
    ensures f as real * u <= x < f as real * u + u
    ensures (f + 1) as real * u == f as real * u + u
  {
    Distribute(f, f + 1, u);
    assert (x / u) * u == x;
    Between(f as real, x / u, (f + 1) as real, u, x);
  }

  lemma Between(p: real, q: real, r: real, u: real, x: real)
    requires u > 0.0 && p <= q < r && q * u == x
    ensures p * u <= x < r * u
  {
    MulMono(p, q, u);
    MulStrict(q, r, u);
  }

  lemma MulStrict(x: real, y: real, z: real)
    requires x < y && z > 0.0
    ensures x * z < y * z
  {
    assert (y - x) * z > 0.0;
  }

  lemma RoundedExists(x: real)
    ensures exists y :: IsRounded(x, y)
  {
    if x == 0.0 {
      assert IsRounded(x, 0.0);
    } else {
      var k: int;
      if Abs(x) >= 4503599627370496.0 {
        k := BinadeAbove(Abs(x));
      } else {
        k := BinadeBelow(Abs(x));
      }
      hide Scale;
      assert InBinade(x, k);
      var m := ClosestExists(x, Scale(k));
      assert Nearest(x, m as real * Scale(k), k, m);
      assert IsRounded(x, m as real * Scale(k));
    }
  }

  ghost function Round(x: real): (y: real)
    ensures IsRounded(x, y)
  {
    RoundedExists(x);
    var y :| IsRounded(x, y);
    y
  }

  /** Rounding to 53 bits, to nearest even, is a function, and there is no other. */
  lemma OneRounding(round: real -> real)
    ensures exists r: real -> real :: IsRounding(r)
    ensures IsRounding(round) ==> forall x :: round(x) == Round(x)
  {
    assert IsRounding(x => Round(x));
    if IsRounding(round) {
      forall x ensures round(x) == Round(x) {
        SameRounded(x, round(x), Round(x));
      }
    }
  }

  lemma SameRounded(x: real, y: real, z: real)
    requires IsRounded(x, y) && IsRounded(x, z)
    ensures y == z
  {
    hide Scale, InBinade, Closest;
    if x != 0.0 {
      var k, m :| InBinade(x, k) && Nearest(x, z, k, m);
      RoundsTo(x, y, k, m);
    }
  }

  // ---------------------------------------------------------------- products of reals

  lemma MulMono(x: real, y: real, z: real)
    requires x <= y && z >= 0.0
    ensures x * z <= y * z
  {
    assert (y - x) * z >= 0.0;
  }

  lemma AbsProduct(x: real, y: real)
    ensures Abs(x * y) == Abs(x) * Abs(y)
  {
    if x < 0.0 {
      assert (-x) * y == -(x * y);
      MulMono(0.0, -x, Abs(y));
    } else {
      MulMono(0.0, x, Abs(y));
    }
    assert x * -y == -(x * y) && (-x) * -y == x * y;
  }

  lemma AbsMul(x: real, y: real, dx: real, dy: real)
    requires Abs(x) <= dx && Abs(y) <= dy
    ensures Abs(x * y) <= dx * dy
  {
    AbsProduct(x, y);
    MulMono(Abs(x), dx, Abs(y));
    MulMono(Abs(y), dy, dx);
    assert Abs(y) * dx == dx * Abs(y) && dy * dx == dx * dy;
  }
}
