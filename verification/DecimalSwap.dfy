/** The decimal constant-product estimator. Decimals are held as whole numbers of 10^-18; a product of two of
    them is a whole number of 10^-36. Division rounds to 18 digits, halves away from zero. */
module DecimalSwap {
  import opened Arithmetic
  import opened Wrappers

  const E18 := 1_000_000_000_000_000_000
  const FEE_DENOMINATOR := 1_000_000
  const ALL_BP := 10_000

  function Abs(x: int): nat { if x < 0 then -x else x }

  function Sign(x: int): int { if x < 0 then -1 else if x == 0 then 0 else 1 }

  /** big.Int.Quo: truncation towards zero. */
  function Quo(n: int, d: int): int
    requires d != 0
  {
    Sign(n) * Sign(d) * (Abs(n) / Abs(d))
  }

  /** Decimal.DivRound on scaled operands: truncate, then look at the doubled remainder. */
  function DivRound(n: int, d: int): int
    requires d != 0
  {
    var q := Quo(n, d);
    var r := n - q * d;
    if 2 * Abs(r) < Abs(d) then q
    else if Sign(n) * Sign(d) < 0 then q - 1
    else q + 1
  }

  function FeeFraction(feeRate: uint64): int { DivRound(feeRate * E18, FEE_DENOMINATOR) }

  function NetInput(amountIn: uint64, feeRate: uint64): int { amountIn * E18 - amountIn * FeeFraction(feeRate) }

  function SlipFactor(slip: uint32): int { DivRound((ALL_BP - slip) * E18, ALL_BP) }

  datatype Estimate = Estimate(minOut: uint64, out: uint64)

  /** The input reserve after the trade. */
  function Denominator(amountIn: uint64, totalIn: uint64, feeRate: uint64): int {
    totalIn * E18 + NetInput(amountIn, feeRate)
  }

  /** The output before slippage, with its 18 digits. */
  function RoundedOut(amountIn: uint64, totalIn: uint64, totalOut: uint64, feeRate: uint64): int
    requires Denominator(amountIn, totalIn, feeRate) != 0
  {
    totalOut * E18 - DivRound(totalIn * totalOut * E18 * E18, Denominator(amountIn, totalIn, feeRate))
  }

  /** CalcMinAmountOutBySwap; None is the panic of a decimal division by zero. */
  function MinAmountOutBySwap(slip: uint32, amountIn: uint64, totalIn: uint64, totalOut: uint64, feeRate: uint64): Option<Estimate> {
    if Denominator(amountIn, totalIn, feeRate) == 0 then None
    else
      var out := RoundedOut(amountIn, totalIn, totalOut, feeRate);
      var minOut := out * SlipFactor(slip);
      if minOut <= 0 || out <= 0 then Some(Estimate(0, 0))
      else Some(Estimate(LowBits(minOut / (E18 * E18)), LowBits(out / E18)))
  }

  /** CalcMinAmountOutByAmm: buying puts base in and takes tokens out. */
  function MinAmountOutByAmm(slip: uint32, amountIn: uint64, isBuy: bool, tokenAmount: uint64, baseAmount: uint64,
                             feeRate: uint64): Option<Estimate> {
    if isBuy then MinAmountOutBySwap(slip, amountIn, baseAmount, tokenAmount, feeRate)
    else MinAmountOutBySwap(slip, amountIn, tokenAmount, baseAmount, feeRate)
  }

  // ---------------------------------------------------------------- rounding

  /** The rounded quotient of non-negative operands: the floor, plus one from half of the divisor on. */
  lemma DivRoundPositive(n: nat, d: nat)
    requires d > 0
    ensures DivRound(n, d) == n / d + (if 2 * (n % d) < d then 0 else 1)
  {
    Division(n, d);
    if n == 0 {
      QuotientUnique(0, d, 0);
    }
  }

  /** The rounded quotient is the nearest integer; halves go away from zero. */
  lemma DivRoundNearest(n: nat, d: nat)
    requires d > 0
    ensures d + 2 * (n - DivRound(n, d) * d) >= 0
    ensures 2 * (n - DivRound(n, d) * d) < d
  {
    hide DivRound;
    DivRoundPositive(n, d);
    Division(n, d);
    assert (n / d + 1) * d == n / d * d + d;
  }

  /** Rounding goes away from zero on either side of it. */
  lemma DivRoundOdd(n: int, d: int)
    requires d > 0 && n >= 0
    ensures DivRound(-n, d) == -DivRound(n, d) && DivRound(n, -d) == -DivRound(n, d)
  {
    QuotientNotNegative(n, d);
    var q: int := n / d;
    assert (-q) * d == -(q * d) && (-q) * (-d) == q * d;
  }

  lemma DivRoundExact(q: nat, d: nat)
    requires d > 0
    ensures DivRound(q * d, d) == q
  {
    hide DivRound;
    DivRoundPositive(q * d, d);
    QuotientUnique(q * d, d, q);
    Division(q * d, d);
  }

  lemma ScaledQuotient(n: nat, d: nat, c: nat)
    requires d > 0 && c > 0
    ensures d * c > 0 && n * c / (d * c) == n / d && n * c % (d * c) == n % d * c
  {
    Division(n, d);
    var q, r := n / d, n % d;
    MulLe(1, d, c);
    MulLt(r, d, c);
    ScaleSplit(n, q, d, r, c);
    assert q * c * d == q * (d * c);
    assert (q + 1) * (d * c) == q * (d * c) + d * c;
    MulLe(0, r, c);
    QuotientUnique(n * c, d * c, q);
    Division(n * c, d * c);
  }

  lemma DivRoundScaled(n: nat, d: nat, c: nat)
    requires d > 0 && c > 0
    ensures d * c > 0 && n * c >= 0 && DivRound(n * c, d * c) == DivRound(n, d)
  {
    hide DivRound;
    MulLe(0, n, c);
    ScaledQuotient(n, d, c);
    DivRoundPositive(n, d);
    DivRoundPositive(n * c, d * c);
    var r := n % d;
    assert 2 * (r * c) == 2 * r * c;
    if 2 * r < d {
      MulLt(2 * r, d, c);
    } else {
      MulLe(d, 2 * r, c);
    }
  }

  /** Whole quotients can be taken out of the rounding. */
  lemma DivRoundShift(k: nat, r: nat, d: nat)
    requires d > 0
    ensures k * d + r >= 0 && DivRound(k * d + r, d) == k + DivRound(r, d)
  {
    hide DivRound;
    MulLe(0, k, d);
    Division(r, d);
    assert (k + r / d) * d == k * d + r / d * d;
    assert (k + r / d + 1) * d == k * d + (r / d + 1) * d;
    QuotientUnique(k * d + r, d, k + r / d);
    Division(k * d + r, d);
    DivRoundPositive(k * d + r, d);
    DivRoundPositive(r, d);
  }

  /** Rounding a fraction r/d of E18 gives at most E18, and gives 0 exactly below half a unit. */
  lemma DivRoundFraction(r: nat, d: nat)
    requires r < d
    ensures 0 <= DivRound(r * E18, d) <= E18
    ensures DivRound(r * E18, d) == 0 <==> 2 * r * E18 < d
  {
    hide DivRound;
    MulLe(r, d, E18);
    RoundsWithin(r * E18, d, E18);
    RoundsToZero(r * E18, d);
  }

  lemma RoundsWithin(n: nat, d: nat, s: nat)
    requires d > 0 && n <= s * d
    ensures 0 <= DivRound(n, d) <= s
  {
    hide DivRound;
    DivRoundPositive(n, d);
    FloorAtMost(n, d, s);
    Division(n, d);
    if n / d == s {
      assert n % d == 0;
    }
  }

  lemma RoundsToZero(n: nat, d: nat)
    requires d > 0
    ensures DivRound(n, d) == 0 <==> 2 * n < d
  {
    hide DivRound;
    DivRoundPositive(n, d);
    Division(n, d);
    if n < d {
      QuotientUnique(n, d, 0);
    } else {
      var q := n / d;
      if q < 1 {
        MulLe(q + 1, 1, d);
      }
    }
  }

  // ---------------------------------------------------------------- the estimate in closed form

  /** The input reserve after the trade, in millionths: the fee has six digits. */
  function ReserveAfter(amountIn: uint64, totalIn: uint64, feeRate: uint64): int {
    totalIn * 1_000_000 + amountIn * (1_000_000 - feeRate)
  }

  function Product(totalIn: uint64, totalOut: uint64): int { totalIn * totalOut * 1_000_000 }

  /** The quotient of the product is rounded up: its fraction is at least half of 10^-18. */
  predicate RoundsUp(product: int, reserve: int)
    requires reserve > 0
  {
    2 * (product % reserve) * E18 >= reserve
  }

  lemma DenominatorValue(amountIn: uint64, totalIn: uint64, feeRate: uint64)
    ensures Denominator(amountIn, totalIn, feeRate) == ReserveAfter(amountIn, totalIn, feeRate) * 1_000_000_000_000
  {
    hide DivRound;
    DivRoundExact(feeRate * 1_000_000_000_000, FEE_DENOMINATOR);
    assert feeRate * E18 == feeRate * 1_000_000_000_000 * FEE_DENOMINATOR;
    assert amountIn * (feeRate * 1_000_000_000_000) == amountIn * feeRate * 1_000_000_000_000;
    assert amountIn * (1_000_000 - feeRate) == amountIn * 1_000_000 - amountIn * feeRate;
  }

  lemma SlipFactorValue(slip: uint32)
    requires slip <= ALL_BP
    ensures SlipFactor(slip) == (ALL_BP - slip) * 100_000_000_000_000
  {
    hide DivRound;
    DivRoundExact((ALL_BP - slip) * 100_000_000_000_000, ALL_BP);
    assert (ALL_BP - slip) * E18 == (ALL_BP - slip) * 100_000_000_000_000 * ALL_BP;
  }

  lemma ScaleSplit(n: int, f: int, d: int, r: int, s: int)
    requires n == f * d + r
    ensures n * s == f * s * d + r * s
  {
    assert (f * d + r) * s == f * d * s + r * s;
  }

  lemma DivRoundSplit(n: nat, f: nat, d: nat, r: nat)
    requires n == f * d + r && r < d
    ensures DivRound(n * E18, d) == f * E18 + DivRound(r * E18, d)
  {
    hide DivRound;
    ScaleSplit(n, f, d, r, E18);
    DivRoundShift(f * E18, r * E18, d);
  }

  lemma QuotientOfProduct(product: nat, reserve: nat)
    requires reserve > 0
    ensures var c := DivRound(product % reserve * E18, reserve);
            DivRound(product * E18, reserve) == product / reserve * E18 + c
            && 0 <= c <= E18 && (c > 0 <==> RoundsUp(product, reserve))
  {
    hide DivRound;
    Division(product, reserve);
    MulLe(0, 1, product);
    QuotientNotNegative(product, reserve);
    DivRoundSplit(product, product / reserve, reserve, product % reserve);
    DivRoundFraction(product % reserve, reserve);
  }

  lemma QuotientNotNegative(n: nat, d: nat)
    requires d > 0
    ensures n / d >= 0
  {
    Division(n, d);
    if n / d < 0 {
      MulLe(n / d + 1, 0, d);
    }
  }

  /** The rounded output: whole units minus a fraction c, which is zero unless the quotient rounds up. */
  lemma RoundedOutValue(amountIn: uint64, totalIn: uint64, totalOut: uint64, feeRate: uint64) returns (c: nat)
    requires ReserveAfter(amountIn, totalIn, feeRate) > 0
    ensures Denominator(amountIn, totalIn, feeRate) > 0
    ensures var y, d := Product(totalIn, totalOut), ReserveAfter(amountIn, totalIn, feeRate);
            && RoundedOut(amountIn, totalIn, totalOut, feeRate) == (totalOut - y / d) * E18 - c
            && c <= E18 && (c > 0 <==> RoundsUp(y, d)) && c == DivRound(y % d * E18, d)
  {
    hide DivRound, RoundsUp, Denominator;
    var y, d := Product(totalIn, totalOut), ReserveAfter(amountIn, totalIn, feeRate);
    DenominatorValue(amountIn, totalIn, feeRate);
    MulLe(0, totalIn, totalOut);
    var k := totalIn * totalOut;
    DivRoundScaled(y * E18, d, 1_000_000_000_000);
    assert k * E18 * E18 == y * E18 * 1_000_000_000_000;
    QuotientOfProduct(y, d);
    c := DivRound(y % d * E18, d);
  }

  lemma ProductWithinOut(amountIn: uint64, totalIn: uint64, totalOut: uint64, feeRate: uint64)
    requires feeRate <= FEE_DENOMINATOR
    ensures 0 <= Product(totalIn, totalOut) <= totalOut * ReserveAfter(amountIn, totalIn, feeRate)
  {
    MulLe(0, 1_000_000 - feeRate, amountIn);
    MulLe(totalIn * 1_000_000, ReserveAfter(amountIn, totalIn, feeRate), totalOut);
    MulLe(0, totalIn, totalOut);
  }

  lemma QuotientWithin(y: nat, d: nat, most: nat)
    requires d > 0 && y <= most * d
    ensures 0 <= y / d <= most
    ensures y / d == most ==> !RoundsUp(y, d)
  {
    Division(y, d);
    QuotientNotNegative(y, d);
    var f := y / d;
    if f > most {
      MulLe(most + 1, f, d);
    }
    if f == most {
      assert y % d == 0;
    }
  }

  /** The floor of what a slippage in basis points leaves of an 18-digit output, in whole units. */
  function Share(rounded: int, slip: uint32): int { rounded * (ALL_BP - slip) / (ALL_BP * E18) }

  /** The returned estimates in closed form: the output is what the floored quotient leaves, less one unit
      when the quotient rounds up; the minimum is the floor of its share of the 18-digit output. */
  lemma EstimateValue(slip: uint32, amountIn: uint64, totalIn: uint64, totalOut: uint64, feeRate: uint64)
    requires feeRate <= FEE_DENOMINATOR && slip < ALL_BP && ReserveAfter(amountIn, totalIn, feeRate) > 0
    ensures MinAmountOutBySwap(slip, amountIn, totalIn, totalOut, feeRate).Some?
    ensures var y, d := Product(totalIn, totalOut), ReserveAfter(amountIn, totalIn, feeRate);
            var e := MinAmountOutBySwap(slip, amountIn, totalIn, totalOut, feeRate).value;
            e.out == totalOut - y / d - if RoundsUp(y, d) then 1 else 0
    ensures Denominator(amountIn, totalIn, feeRate) != 0
    ensures var e := MinAmountOutBySwap(slip, amountIn, totalIn, totalOut, feeRate).value;
            var rounded := RoundedOut(amountIn, totalIn, totalOut, feeRate);
            e.minOut == if rounded <= 0 then 0 else Share(rounded, slip)
  {
    hide *;
    var y, d := Product(totalIn, totalOut), ReserveAfter(amountIn, totalIn, feeRate);
    var c := RoundedOutValue(amountIn, totalIn, totalOut, feeRate);
    ProductWithinOut(amountIn, totalIn, totalOut, feeRate);
    QuotientWithin(y, d, totalOut);
    var rounded, whole := RoundedOut(amountIn, totalIn, totalOut, feeRate), totalOut - y / d;
    UnitsOfRounded(rounded, whole, c);
    EstimateShape(slip, amountIn, totalIn, totalOut, feeRate);
  }

  lemma EstimateShape(slip: uint32, amountIn: uint64, totalIn: uint64, totalOut: uint64, feeRate: uint64)
    requires slip < ALL_BP && Denominator(amountIn, totalIn, feeRate) != 0
    ensures var rounded := RoundedOut(amountIn, totalIn, totalOut, feeRate);
            var e := MinAmountOutBySwap(slip, amountIn, totalIn, totalOut, feeRate);
            (rounded > 0 ==> rounded / E18 <= totalOut) ==>
            && e.Some?
            && e.value.minOut == (if rounded <= 0 then 0 else Share(rounded, slip))
            && e.value.out == if rounded <= 0 then 0 else rounded / E18
  {
    hide RoundedOut, SlipFactor, Denominator, Share, LowBits;
    var rounded := RoundedOut(amountIn, totalIn, totalOut, feeRate);
    SlippedShare(rounded, slip);
    if rounded > 0 && rounded / E18 <= totalOut {
      LowBitsKeep(Share(rounded, slip));
      LowBitsKeep(rounded / E18);
    }
  }

  lemma UnitsOfRounded(rounded: int, whole: nat, c: nat)
    requires rounded == whole * E18 - c && c <= E18 && (whole == 0 ==> c == 0)
    ensures rounded > 0 ==> rounded / E18 == whole - (if c > 0 then 1 else 0)
    ensures rounded <= 0 ==> whole - (if c > 0 then 1 else 0) == 0
  {
    if c > 0 {
      QuotientUnique(rounded, E18, whole - 1);
    } else {
      QuotientUnique(rounded, E18, whole);
    }
  }

  /** Taking the slippage off with eighteen more digits and truncating is one floored division. */
  lemma SlippedShare(rounded: int, slip: uint32)
    requires slip < ALL_BP
    ensures rounded * SlipFactor(slip) <= 0 <==> rounded <= 0
    ensures rounded > 0 ==> rounded * SlipFactor(slip) / (E18 * E18) == Share(rounded, slip)
    ensures rounded > 0 ==> 0 <= Share(rounded, slip) <= rounded / E18
  {
    hide SlipFactor;
    SlipFactorValue(slip);
    var share, c := ALL_BP - slip, 100_000_000_000_000;
    assert rounded * (share * c) == rounded * share * c;
    if rounded > 0 {
      MulLe(1, share, rounded);
      ScaledQuotient(rounded * share, ALL_BP * E18, c);
      ShareBounds(rounded, share);
    } else {
      MulLe(rounded, 0, share);
    }
  }

  lemma ShareBounds(rounded: nat, share: nat)
    requires share <= ALL_BP
    ensures 0 <= rounded * share / (ALL_BP * E18) <= rounded / E18
  {
    MulLe(0, rounded, share);
    MulLe(share, ALL_BP, rounded);
    Division(rounded, E18);
    var units := rounded / E18;
    QuotientNotNegative(rounded, E18);
    var n, d := rounded * share, ALL_BP * E18;
    assert n < (units + 1) * d;
    Division(n, d);
    var q := n / d;
    QuotientNotNegative(n, d);
    if q > units {
      MulLe(units + 1, q, d);
    }
  }
}
