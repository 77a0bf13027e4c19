/** What the decimal estimate promises, and how the two estimators compare. */
module SwapAgreement {
  import opened Arithmetic
  import opened Wrappers
  import IntegerSwap
  import opened DecimalSwap

  // ---------------------------------------------------------------- the decimal estimate alone

  lemma DivRoundNotPositive(n: int, d: int)
    requires n <= 0 && d > 0
    ensures DivRound(n, d) <= 0
  {
    Division(-n, d);
    QuotientNotNegative(-n, d);
  }

  /** The minimum is at most the estimate and the estimate at most the reserve; a slippage of everything or
      more leaves nothing. */
  lemma EstimateBounds(slip: uint32, amountIn: uint64, totalIn: uint64, totalOut: uint64, feeRate: uint64)
    requires feeRate <= FEE_DENOMINATOR && ReserveAfter(amountIn, totalIn, feeRate) > 0
    ensures MinAmountOutBySwap(slip, amountIn, totalIn, totalOut, feeRate).Some?
    ensures var e := MinAmountOutBySwap(slip, amountIn, totalIn, totalOut, feeRate).value;
            e.minOut <= e.out <= totalOut && (slip >= ALL_BP ==> e == Estimate(0, 0))
  {
    hide *;
    if slip < ALL_BP {
      BoundsBelowAll(slip, amountIn, totalIn, totalOut, feeRate);
    } else {
      NothingLeft(slip, amountIn, totalIn, totalOut, feeRate);
    }
  }

  lemma BoundsBelowAll(slip: uint32, amountIn: uint64, totalIn: uint64, totalOut: uint64, feeRate: uint64)
    requires feeRate <= FEE_DENOMINATOR && slip < ALL_BP && ReserveAfter(amountIn, totalIn, feeRate) > 0
    ensures MinAmountOutBySwap(slip, amountIn, totalIn, totalOut, feeRate).Some?
    ensures var e := MinAmountOutBySwap(slip, amountIn, totalIn, totalOut, feeRate).value; e.minOut <= e.out <= totalOut
  {
    hide *;
    EstimateValue(slip, amountIn, totalIn, totalOut, feeRate);
    var y, d := Product(totalIn, totalOut), ReserveAfter(amountIn, totalIn, feeRate);
    ProductWithinOut(amountIn, totalIn, totalOut, feeRate);
    QuotientWithin(y, d, totalOut);
    var c := RoundedOutValue(amountIn, totalIn, totalOut, feeRate);
    var rounded := RoundedOut(amountIn, totalIn, totalOut, feeRate);
    UnitsOfRounded(rounded, totalOut - y / d, c);
    SlippedShare(rounded, slip);
  }

  /** A slippage of everything or more makes the minimum not positive. */
  lemma NothingLeft(slip: uint32, amountIn: uint64, totalIn: uint64, totalOut: uint64, feeRate: uint64)
    requires slip >= ALL_BP && ReserveAfter(amountIn, totalIn, feeRate) > 0
    ensures MinAmountOutBySwap(slip, amountIn, totalIn, totalOut, feeRate) == Some(Estimate(0, 0))
  {
    hide DivRound, RoundedOut, Denominator, ReserveAfter, SlipFactor;
    var c := RoundedOutValue(amountIn, totalIn, totalOut, feeRate);
    SlipFactorNotPositive(slip);
    var rounded := RoundedOut(amountIn, totalIn, totalOut, feeRate);
    if rounded > 0 {
      MulLe(SlipFactor(slip), 0, rounded);
    }
  }

  lemma SlipFactorNotPositive(slip: uint32)
    requires slip >= ALL_BP
    ensures SlipFactor(slip) <= 0
  {
    hide DivRound;
    DivRoundNotPositive((ALL_BP - slip) * E18, ALL_BP);
  }

  /** The trade takes no more out than the constant product allows. */
  predicate ProductKept(y: int, d: int, totalOut: int, out: int) { d * (totalOut - out) >= y }

  lemma KeptArithmetic(y: nat, d: nat, f: nat, r: nat, up: nat)
    requires d > 0 && y == f * d + r && r < d && up <= 1 && (up == 1 <==> 2 * r * E18 >= d)
    ensures d * (f + up) >= y <==> r == 0 || up == 1
    ensures 2 * E18 * (y - d * (f + up)) <= d
    ensures d < 2 * E18 ==> d * (f + up) >= y
  {
    assert d * (f + up) == f * d + d * up;
    if up == 1 {
      assert d * up == d;
    } else {
      assert d * up == 0;
    }
  }

  /** The constant product is kept exactly when the quotient is whole or rounds up; otherwise it falls short
      by at most half of 10^-18 of the input reserve, and below 2 * 10^18 millionths it never does. */
  lemma ProductKeptIff(slip: uint32, amountIn: uint64, totalIn: uint64, totalOut: uint64, feeRate: uint64)
    requires feeRate <= FEE_DENOMINATOR && slip < ALL_BP && ReserveAfter(amountIn, totalIn, feeRate) > 0
    ensures MinAmountOutBySwap(slip, amountIn, totalIn, totalOut, feeRate).Some?
    ensures var out := MinAmountOutBySwap(slip, amountIn, totalIn, totalOut, feeRate).value.out;
            var y, d := Product(totalIn, totalOut), ReserveAfter(amountIn, totalIn, feeRate);
            && (ProductKept(y, d, totalOut, out) <==> y % d == 0 || RoundsUp(y, d))
            && 2 * E18 * (y - d * (totalOut - out)) <= d
            && (d < 2 * E18 ==> ProductKept(y, d, totalOut, out))
  {
    hide MinAmountOutBySwap, ReserveAfter, Product;
    EstimateValue(slip, amountIn, totalIn, totalOut, feeRate);
    var y, d := Product(totalIn, totalOut), ReserveAfter(amountIn, totalIn, feeRate);
    ProductWithinOut(amountIn, totalIn, totalOut, feeRate);
    QuotientNotNegative(y, d);
    Division(y, d);
    KeptArithmetic(y, d, y / d, y % d, if RoundsUp(y, d) then 1 else 0);
  }

  /** Reserves of 2 * 10^18 on both sides and an input of 1: the estimate takes one unit too many. */
  lemma ProductNotAlwaysKept()
    ensures var r := 2_000_000_000_000_000_000;
            var e := MinAmountOutBySwap(0, 1, r, r, 0);
            && e.Some? && e.value.out == 1
            && (r + 1) * (r - e.value.out) < r * r
  {
    hide MinAmountOutBySwap;
    var r := 2_000_000_000_000_000_000;
    var y, d := Product(r, r), ReserveAfter(1, r, 0);
    assert y == (r - 1) * d + 1_000_000;
    QuotientUnique(y, d, r - 1);
    Division(y, d);
    assert y % d == 1_000_000;
    EstimateValue(0, 1, r, r, 0);
  }

  // ---------------------------------------------------------------- the two estimators

  /** With exactly the same fee, the fee of the integer path is rounded down. */
  lemma NetInputs(amountIn: uint64, feeRate: uint64, baseRate: uint64, feeMillionths: uint64)
    requires 0 < baseRate && feeMillionths <= FEE_DENOMINATOR && feeRate * FEE_DENOMINATOR == feeMillionths * baseRate
    ensures feeRate <= baseRate
    ensures IntegerSwap.NetOfFee(amountIn, feeRate, baseRate) * 1_000_000 >= amountIn * (1_000_000 - feeMillionths)
  {
    MulLe(feeMillionths, FEE_DENOMINATOR, baseRate);
    IntegerSwap.FeeWithinAmount(amountIn, feeRate, baseRate);
    var fee := amountIn * feeRate / baseRate;
    // fee * baseRate <= amountIn * feeRate, times a million
    var lhs, rhs := fee * 1_000_000, amountIn * feeMillionths;
    FeeInMillionths(amountIn, feeRate, baseRate, feeMillionths, fee);
    assert (amountIn - fee) * 1_000_000 == amountIn * 1_000_000 - lhs;
    assert amountIn * (1_000_000 - feeMillionths) == amountIn * 1_000_000 - rhs;
  }

  lemma FeeInMillionths(amountIn: nat, feeRate: nat, baseRate: nat, feeMillionths: nat, fee: nat)
    requires baseRate > 0 && fee * baseRate <= amountIn * feeRate
    requires feeRate * 1_000_000 == feeMillionths * baseRate
    ensures fee * 1_000_000 <= amountIn * feeMillionths
  {
    assert fee * 1_000_000 * baseRate == fee * baseRate * 1_000_000;
    assert amountIn * feeMillionths * baseRate == amountIn * (feeRate * 1_000_000);
    assert amountIn * (feeRate * 1_000_000) == amountIn * feeRate * 1_000_000;
    if fee * 1_000_000 > amountIn * feeMillionths {
      MulLt(amountIn * feeMillionths, fee * 1_000_000, baseRate);
    }
  }

  /** A larger denominator cannot have the larger floored quotient. */
  lemma QuotientsCompare(k: nat, dInt: nat, g: nat, d6: nat, f: nat)
    requires dInt > 0 && d6 > 0 && dInt * 1_000_000 >= d6
    requires g * dInt <= k && k * 1_000_000 < (f + 1) * d6
    ensures g <= f
  {
    MulLe(d6, dInt * 1_000_000, g);
    assert g * (dInt * 1_000_000) == g * dInt * 1_000_000;
    if g > f {
      MulLe(f + 1, g, d6);
    }
  }

  /** With the same fee and a slippage below everything, the integer estimate of a buy is never below the
      decimal one. */
  lemma IntegerIsNeverBelow(slip: uint32, amountIn: uint64, totalIn: uint64, totalOut: uint64,
                            feeRate: uint64, baseRate: uint64, feeMillionths: uint64)
    requires slip < ALL_BP && 0 < baseRate && feeMillionths <= FEE_DENOMINATOR
    requires feeRate * FEE_DENOMINATOR == feeMillionths * baseRate
    requires ReserveAfter(amountIn, totalIn, feeMillionths) > 0
    ensures MinAmountOutByAmm(slip, amountIn, true, totalOut, totalIn, feeMillionths).Some?
    ensures IntegerSwap.Value(IntegerSwap.BaseAmountOut(totalIn, totalOut, amountIn, feeRate, baseRate))
            >= MinAmountOutByAmm(slip, amountIn, true, totalOut, totalIn, feeMillionths).value.out
  {
    hide MinAmountOutBySwap, IntegerSwap.BaseAmountOut, IntegerSwap.NetOfFee, IntegerSwap.Value, RoundsUp;
    NetInputs(amountIn, feeRate, baseRate, feeMillionths);
    IntegerSwap.NetOfFeeBounds(amountIn, feeRate, baseRate);
    EstimateValue(slip, amountIn, totalIn, totalOut, feeMillionths);
    var d := totalIn + IntegerSwap.NetOfFee(amountIn, feeRate, baseRate);
    IntegerSwap.BuyValue(totalIn, totalOut, amountIn, feeRate, baseRate);
    IntegerSwap.FlooredProduct(totalIn, totalOut, d);
    var y, d6 := Product(totalIn, totalOut), ReserveAfter(amountIn, totalIn, feeMillionths);
    ProductWithinOut(amountIn, totalIn, totalOut, feeMillionths);
    QuotientNotNegative(y, d6);
    Division(y, d6);
    assert totalIn * totalOut == totalOut * totalIn;
    QuotientsCompare(totalOut * totalIn, d, totalOut * totalIn / d, d6, y / d6);
  }

  lemma ScaledRounding(k: nat, d: nat)
    requires d > 0
    ensures k * 1_000_000 / (d * 1_000_000) == k / d
    ensures RoundsUp(k * 1_000_000, d * 1_000_000) <==> RoundsUp(k, d)
  {
    Division(k, d);
    var f, r := k / d, k % d;
    assert k * 1_000_000 == f * (d * 1_000_000) + r * 1_000_000;
    assert (f + 1) * (d * 1_000_000) == f * (d * 1_000_000) + d * 1_000_000;
    QuotientUnique(k * 1_000_000, d * 1_000_000, f);
    Division(k * 1_000_000, d * 1_000_000);
  }

  /** Without fee the two estimates are equal exactly when the constant product is not rounded up, and
      otherwise the integer estimate is one unit higher. */
  lemma EstimatesDifferByRounding(slip: uint32, amountIn: uint64, totalIn: uint64, totalOut: uint64, baseRate: uint64)
    requires slip < ALL_BP && 0 < baseRate && totalIn + amountIn > 0
    ensures MinAmountOutByAmm(slip, amountIn, true, totalOut, totalIn, 0).Some?
    ensures totalIn * totalOut >= 0
    ensures IntegerSwap.Value(IntegerSwap.BaseAmountOut(totalIn, totalOut, amountIn, 0, baseRate))
            - MinAmountOutByAmm(slip, amountIn, true, totalOut, totalIn, 0).value.out
            == if RoundsUp(totalIn * totalOut, totalIn + amountIn) then 1 else 0
  {
    hide MinAmountOutBySwap, IntegerSwap.BaseAmountOut, IntegerSwap.NetOfFee, IntegerSwap.Value, RoundsUp;
    IntegerSwap.NetOfFeeBounds(amountIn, 0, baseRate);
    IntegerSwap.BuyValue(totalIn, totalOut, amountIn, 0, baseRate);
    assert ReserveAfter(amountIn, totalIn, 0) == (totalIn + amountIn) * 1_000_000;
    EstimateValue(slip, amountIn, totalIn, totalOut, 0);
    MulLe(0, totalIn, totalOut);
    assert totalIn * totalOut == totalOut * totalIn;
    ScaledRounding(totalIn * totalOut, totalIn + amountIn);
  }

  /** Before slippage a sale by the integer estimator is a buy with the reserves exchanged. */
  lemma SaleIsBuy(quoteReserve: uint64, baseReserve: uint64, baseIn: nat, feeRate: uint64, baseRate: uint64)
    requires 0 < baseRate && feeRate <= baseRate
    requires baseReserve + IntegerSwap.NetOfFee(baseIn, feeRate, baseRate) > 0
    ensures IntegerSwap.QuoteReceived(quoteReserve, baseReserve, baseIn, feeRate, baseRate)
            == Some(IntegerSwap.Value(IntegerSwap.BaseAmountOut(baseReserve, quoteReserve, baseIn, feeRate, baseRate)))
  {
    hide IntegerSwap.NetOfFee, IntegerSwap.BaseAmountOut, IntegerSwap.Value;
    IntegerSwap.BuyValue(baseReserve, quoteReserve, baseIn, feeRate, baseRate);
    assert baseReserve * quoteReserve == quoteReserve * baseReserve;
  }

  /** The integer estimate of a sale, before its slippage, is never below the decimal one with the same fee, and
      without fee it exceeds that by one exactly when the constant product rounds up. */
  lemma SalesCompare(slip: uint32, amountIn: uint64, tokens: uint64, base: uint64,
                     feeRate: uint64, baseRate: uint64, feeMillionths: uint64)
    requires slip < ALL_BP && 0 < baseRate && feeMillionths <= FEE_DENOMINATOR
    requires feeRate * FEE_DENOMINATOR == feeMillionths * baseRate
    requires ReserveAfter(amountIn, tokens, feeMillionths) > 0
    ensures MinAmountOutByAmm(slip, amountIn, false, tokens, base, feeMillionths).Some?
    ensures tokens * base >= 0
    ensures var received := IntegerSwap.QuoteReceived(base, tokens, amountIn, feeRate, baseRate);
            var estimate := MinAmountOutByAmm(slip, amountIn, false, tokens, base, feeMillionths).value.out;
            && received.Some? && received.value >= estimate
            && (feeRate == 0 ==>
                  && tokens + amountIn > 0
                  && received.value - estimate == if RoundsUp(tokens * base, tokens + amountIn) then 1 else 0)
  {
    hide MinAmountOutBySwap, IntegerSwap.BaseAmountOut, IntegerSwap.QuoteReceived, IntegerSwap.NetOfFee, IntegerSwap.Value, RoundsUp;
    IntegerIsNeverBelow(slip, amountIn, tokens, base, feeRate, baseRate, feeMillionths);
    SameFee(amountIn, tokens, feeRate, baseRate, feeMillionths);
    SaleIsBuy(base, tokens, amountIn, feeRate, baseRate);
    MulLe(0, tokens, base);
    if feeRate == 0 {
      EstimatesDifferByRounding(slip, amountIn, tokens, base, baseRate);
    }
  }

  lemma SameFee(amountIn: uint64, totalIn: uint64, feeRate: uint64, baseRate: uint64, feeMillionths: uint64)
    requires 0 < baseRate && feeMillionths <= FEE_DENOMINATOR
    requires feeRate * FEE_DENOMINATOR == feeMillionths * baseRate
    requires ReserveAfter(amountIn, totalIn, feeMillionths) > 0
    ensures feeRate <= baseRate && totalIn + IntegerSwap.NetOfFee(amountIn, feeRate, baseRate) > 0
    ensures feeRate == 0 ==> feeMillionths == 0 && totalIn + amountIn > 0
  {
    hide IntegerSwap.NetOfFee;
    NetInputs(amountIn, feeRate, baseRate, feeMillionths);
    if feeRate == 0 && feeMillionths > 0 {
      MulLe(1, feeMillionths, baseRate);
    }
    IntegerSwap.NetOfFeeBounds(amountIn, feeRate, baseRate);
  }

  /** Both directions of the decimal quote in terms of their arguments alone: a buy pays base in and takes tokens
      out, a sale the other way round; out is what the floored quotient leaves, less one when its fraction is at
      least half of 10^-18, and minOut is the floor of what the slippage leaves of the output with its 18 digits. */
  lemma AmmQuote(slip: uint32, amountIn: uint64, isBuy: bool, tokens: uint64, base: uint64, fee: uint64)
    requires fee <= 1_000_000 && slip < 10_000
    requires (if isBuy then base else tokens) * 1_000_000 + amountIn * (1_000_000 - fee) > 0
    ensures var into, from := if isBuy then base else tokens, if isBuy then tokens else base;
            var y, d := into * from * 1_000_000, into * 1_000_000 + amountIn * (1_000_000 - fee);
            var n := y % d * 1_000_000_000_000_000_000;
            var fraction := n / d + if 2 * (n % d) < d then 0 else 1;
            var rounded := (from - y / d) * 1_000_000_000_000_000_000 - fraction;
            var e := MinAmountOutByAmm(slip, amountIn, isBuy, tokens, base, fee);
            && e.Some?
            && e.value.out == from - y / d - (if 2 * (y % d) * 1_000_000_000_000_000_000 >= d then 1 else 0)
            && e.value.minOut
               == if rounded <= 0 then 0 else rounded * (10_000 - slip) / 10_000_000_000_000_000_000_000
  {
    hide MinAmountOutBySwap, DivRound, RoundedOut;
    var into, from := if isBuy then base else tokens, if isBuy then tokens else base;
    EstimateValue(slip, amountIn, into, from, fee);
    var c := RoundedOutValue(amountIn, into, from, fee);
    var y, d := Product(into, from), ReserveAfter(amountIn, into, fee);
    MulLe(0, into, from);
    Division(y, d);
    MulLe(0, 1, y % d);
    DivRoundPositive(y % d * E18, d);
  }
}
