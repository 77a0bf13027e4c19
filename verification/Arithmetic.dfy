/** Small facts about products and quotients of integers. */
module Arithmetic {

  lemma MulLe(a: int, b: int, c: int)
    requires a <= b && c >= 0
    ensures a * c <= b * c
  {
  }

  lemma MulLt(a: int, b: int, c: int)
    requires a < b && c > 0
    ensures a * c < b * c
  {
  }

  /** Euclidean division by a positive number. */
  lemma Division(n: int, d: int)
    requires d > 0
    ensures n / d * d <= n < (n / d + 1) * d
    ensures n == n / d * d + n % d && 0 <= n % d < d
  {
  }

  lemma FloorAtMost(n: nat, d: int, most: int)
    requires d > 0 && n <= most * d
    ensures 0 <= n / d <= most
  {
    Division(n, d);
    var q := n / d;
    if q > most {
      MulLe(most + 1, q, d);
    } else if q < 0 {
      MulLe(q + 1, 0, d);
    }
  }

  /** The quotient is the only number that fits. */
  lemma QuotientUnique(n: int, d: int, q: int)
    requires d > 0 && q * d <= n < (q + 1) * d
    ensures n / d == q
  {
    Division(n, d);
    var p := n / d;
    if p < q {
      MulLe(p + 1, q, d);
    } else if p > q {
      MulLe(q + 1, p, d);
    }
  }
}
