/** The slippage of the integer estimator's sales: a percentage taken off in 53-bit floating point. */
module SlippedSale {
  import opened Arithmetic
  import opened Wrappers
  import opened BigFloats
  import opened IntegerSwap

  /** Float.Int: truncation towards zero. */
  function Truncate(x: real): int { if x >= 0.0 then x.Floor else -((-x).Floor) }

  /** One minus the slippage, with the roundings of the quotient and of the difference. */
  function Multiplier(slippage: uint32, round: real -> real): real { round(1.0 - round(slippage as real / 100.0)) }

  function Times(x: real, y: real): real { x * y }

  /** The amount received as a Float, times the multiplier; both are rounded. */
  function Discounted(received: int, slippage: uint32, round: real -> real): real {
    round(Times(round(received as real), Multiplier(slippage, round)))
  }

  /** CalcPSMinQuoteAmountOut. */
  function MinQuoteAmountOut(quoteReserve: uint64, baseReserve: uint64, baseIn: int, slippage: uint32,
                             feeRate: uint64, baseRate: uint64, round: real -> real): Quote {
    match QuoteReceived(quoteReserve, baseReserve, baseIn, feeRate, baseRate)
    case None => DivisionByZero
    case Some(received) =>
      var minimum := Truncate(Discounted(received, slippage, round));
      if minimum <= 0 then NotPositive else Amount(LowBits(minimum))
  }

  // ---------------------------------------------------------------- the error of the product

  lemma ErrorOfProduct(amount: real, share: real, a: real, r: real, m: real)
    requires amount >= 0.0 && 0.0 <= share <= 1.0
    requires Abs(r - amount) <= Err(amount) && Abs(a - share) <= 2.0 * Err(1.0)
    requires Abs(m - Times(r, a)) <= Err(Abs(Times(r, a)))
    ensures Abs(m - Times(amount, share)) <= 5.0 * Err(amount)
  {
    hide Times;
    TimesAbs(r - amount, a, Err(amount), 1.5);
    TimesAbs(amount, a - share, amount, 2.0 * Err(1.0));
    TimesAbs(amount, share, amount, 1.0);
    SplitProduct(amount, share, a, r);
    TimesConstants(amount);
    ErrorSum(amount, Times(r, a), Times(amount, share), m, Times(r - amount, a), Times(amount, a - share));
  }

  lemma TimesAbs(x: real, y: real, dx: real, dy: real)
    requires Abs(x) <= dx && Abs(y) <= dy
    ensures Abs(Times(x, y)) <= Times(dx, dy)
  {
    AbsMul(x, y, dx, dy);
  }

  lemma TimesConstants(x: real)
    ensures Times(Err(x), 1.5) == 1.5 * Err(x) && Times(x, 2.0 * Err(1.0)) == 2.0 * Err(x) && Times(x, 1.0) == x
  {
  }

  lemma TimesNotNegative(x: real, y: real)
    requires x >= 0.0 && y >= 0.0
    ensures Times(x, y) >= 0.0 && Times(x, -y) == -Times(x, y)
  {
    MulMono(0.0, x, y);
  }

  lemma SplitProduct(amount: real, share: real, a: real, r: real)
    ensures Times(r, a) - Times(amount, share) == Times(r - amount, a) + Times(amount, a - share)
  {
  }

  lemma ErrorSum(amount: real, p: real, e: real, m: real, d1: real, d2: real)
    requires amount >= 0.0 && p - e == d1 + d2 && Abs(e) <= amount
    requires Abs(d1) <= 1.5 * Err(amount) && Abs(d2) <= 2.0 * Err(amount) && Abs(m - p) <= Err(Abs(p))
    ensures Abs(m - e) <= 5.0 * Err(amount)
  {
  }

  /** Below 100 percent the multiplier errs by at most 2^-52 and stays positive. */
  lemma MultiplierError(slippage: uint32, round: real -> real)
    requires IsRounding(round) && slippage < 100
    ensures Abs(Multiplier(slippage, round) - (100 - slippage) as real / 100.0) <= 2.0 * Err(1.0)
    ensures Multiplier(slippage, round) > 0.0
  {
    hide IsRounded;
    var s := slippage as real / 100.0;
    var q := round(s);
    RelativeError(s, q);
    RelativeError(1.0 - q, round(1.0 - q));
    assert (100 - slippage) as real / 100.0 == 1.0 - s;
  }

  lemma DiscountedError(received: nat, slippage: uint32, round: real -> real)
    requires IsRounding(round) && slippage < 100
    ensures Abs(Discounted(received, slippage, round) - Times(received as real, (100 - slippage) as real / 100.0))
            <= 5.0 * Err(received as real)
    ensures Discounted(received, slippage, round) >= 0.0
  {
    hide IsRounded, Multiplier, Times;
    MultiplierError(slippage, round);
    var amount, a := received as real, Multiplier(slippage, round);
    var r := round(amount);
    RelativeError(amount, r);
    var p := Times(r, a);
    RelativeError(p, round(p));
    TimesNotNegative(r, a);
    ErrorOfProduct(amount, (100 - slippage) as real / 100.0, a, r, round(p));
  }

  lemma ExactProduct(received: nat, slippage: uint32)
    requires slippage <= 100
    ensures Times(received as real, (100 - slippage) as real / 100.0) == (received * (100 - slippage)) as real / 100.0
    ensures received * (100 - slippage) >= 0
  {
    var a, b := received as real, (100 - slippage) as real;
    assert (received * (100 - slippage)) as real == a * b;
    assert a * (b / 100.0) == a * b / 100.0;
  }

  /** At any size the minimum is the exact share, up to the truncation and five units of 2^-53 of the amount. */
  lemma MinimumError(received: nat, slippage: uint32, round: real -> real)
    requires IsRounding(round) && slippage < 100
    ensures var exact := (received * (100 - slippage)) as real / 100.0;
            var error := 5.0 * Err(received as real);
            exact - error - 1.0 < Truncate(Discounted(received, slippage, round)) as real <= exact + error
  {
    hide IsRounding, Discounted, Times;
    DiscountedError(received, slippage, round);
    ExactProduct(received, slippage);
  }

  const SMALL := 0x1000_0000_0000   // 2^44

  /** Near a multiple of a hundredth truncation gives its floor, or one less when it is whole. */
  lemma TruncateNear(x: real, n: nat)
    requires x >= 0.0 && Abs(x - n as real / 100.0) < 0.01
    ensures Truncate(x) == n / 100 || (n % 100 == 0 && Truncate(x) == n / 100 - 1)
  {
    var q, r := n / 100, n % 100;
    assert n as real == 100.0 * q as real + r as real;
  }

  lemma SmallError(received: nat)
    requires received <= SMALL
    ensures 5.0 * Err(received as real) < 0.01
  {
  }

  lemma ShareWithin(received: nat, slippage: uint32)
    requires slippage <= 100
    ensures 0 <= received * (100 - slippage) <= 100 * received
  {
    MulLe(0, received, 100 - slippage);
    MulLe(100 - slippage, 100, received);
  }

  lemma MinimumOfSmall(received: nat, slippage: uint32, round: real -> real)
    requires IsRounding(round) && slippage < 100 && received <= SMALL
    ensures var n, minimum := received * (100 - slippage), Truncate(Discounted(received, slippage, round));
            && n >= 0 && 0 <= minimum <= received
            && (minimum == n / 100 || (n % 100 == 0 && minimum == n / 100 - 1))
  {
    hide IsRounding, Discounted, Truncate, Times, Err;
    DiscountedError(received, slippage, round);
    ExactProduct(received, slippage);
    SmallError(received);
    ShareWithin(received, slippage);
    var n, x := received * (100 - slippage), Discounted(received, slippage, round);
    TruncateNear(x, n);
    TruncateNotNegative(x);
  }

  lemma TruncateNotNegative(x: real)
    requires x >= 0.0
    ensures Truncate(x) >= 0
  {
  }

  // ---------------------------------------------------------------- everything or more

  lemma RoundsOne(round: real -> real)
    requires IsRounding(round)
    ensures round(1.0) == 1.0 && round(0.0) == 0.0
  {
    assert IsRounded(1.0, round(1.0)) && IsRounded(0.0, round(0.0));
    SomePowers();
    assert Scale(-52) * LEAST as real == 1.0;
    hide Scale;
    RoundsTo(1.0, round(1.0), -52, LEAST);
  }

  lemma NothingLeft(received: nat, slippage: uint32, round: real -> real)
    requires IsRounding(round) && slippage >= 100
    ensures Truncate(Discounted(received, slippage, round)) <= 0
  {
    hide IsRounded, Multiplier, Times;
    MultiplierNotPositive(slippage, round);
    var amount, a := received as real, Multiplier(slippage, round);
    var r := round(amount);
    RelativeError(amount, r);
    TimesNotNegative(r, -a);
    assert - -a == a;
    RelativeError(Times(r, a), round(Times(r, a)));
  }

  lemma MultiplierNotPositive(slippage: uint32, round: real -> real)
    requires IsRounding(round) && slippage >= 100
    ensures Multiplier(slippage, round) <= 0.0
  {
    hide IsRounded;
    var s := slippage as real / 100.0;
    var q := round(s);
    RoundsOne(round);
    RelativeError(s, q);
    RelativeError(1.0 - q, round(1.0 - q));
    assert slippage == 100 ==> s == 1.0;
  }

  /** From 100 percent on a sale is an error. Below, the minimum of an amount of up to 2^44 is the floor of the
      share that is left, or one less when that share is a whole number; larger amounts obey MinimumError. */
  lemma SlippageLowers(quoteReserve: uint64, baseReserve: uint64, baseIn: nat, slippage: uint32,
                       feeRate: uint64, baseRate: uint64, round: real -> real)
    requires IsRounding(round) && 0 < baseRate && feeRate <= baseRate
    requires baseReserve + NetOfFee(baseIn, feeRate, baseRate) > 0
    ensures var received := QuoteReceived(quoteReserve, baseReserve, baseIn, feeRate, baseRate);
            var quote := MinQuoteAmountOut(quoteReserve, baseReserve, baseIn, slippage, feeRate, baseRate, round);
            && received.Some?
            && (slippage >= 100 ==> quote == NotPositive)
            && (slippage < 100 && received.value <= SMALL ==>
                  var n := received.value * (100 - slippage);
                  && Value(quote) <= received.value && (quote.Amount? <==> Value(quote) > 0)
                  && (Value(quote) == n / 100 || (n % 100 == 0 && Value(quote) == n / 100 - 1)))
  {
    hide QuoteReceived, Truncate, Discounted, IsRounding, NetOfFee, LowBits;
    ReceivedBounds(quoteReserve, baseReserve, baseIn, feeRate, baseRate);
    var received := QuoteReceived(quoteReserve, baseReserve, baseIn, feeRate, baseRate).value;
    if slippage >= 100 {
      NothingLeft(received, slippage, round);
    } else if received <= SMALL {
      MinimumOfSmall(received, slippage, round);
      LowBitsKeep(Truncate(Discounted(received, slippage, round)));
    }
  }

  /** A concrete rounding: x lies in the binade of unit 2^k, and the m-th multiple is the closest. */
  lemma RoundsAt(round: real -> real, x: real, k: int, m: int)
    requires IsRounding(round) && x > 0.0 && InBinade(x, k) && Closest(x, Scale(k), m)
    ensures round(x) == m as real * Scale(k)
  {
    assert IsRounded(x, round(x));
    hide *;
    RoundsTo(x, round(x), k, m);
  }

  lemma SomeScales()
    ensures Scale(-54) == 1.0 / 18014398509481984.0 && Scale(-53) == 1.0 / 9007199254740992.0
    ensures Scale(-47) == 1.0 / 140737488355328.0 && Scale(1) == 2.0
  {
    SomePowers();
    assert Power(1) == 2;
  }

  /** An exact share can lose one: 66 percent of 50 are 33, and the minimum is 32. */
  lemma SlippageCanLoseOne(round: real -> real)
    requires IsRounding(round)
    ensures Truncate(Discounted(50, 34, round)) == 32
  {
    SomeScales();
    hide Scale, IsRounding;
    RoundsAt(round, 34.0 / 100.0, -54, 6124895493223875);
    var q := 6124895493223875.0 / 18014398509481984.0;
    RoundsAt(round, 1.0 - q, -53, 5944751508129054);
    var a := 5944751508129054.0 / 9007199254740992.0;
    RoundsAt(round, 50.0, -47, 7036874417766400);
    RoundsAt(round, Times(50.0, a), -47, 4644337115725823);
  }

  lemma RoundsLarge(round: real -> real)
    requires IsRounding(round)
    ensures round(9007199254740995.0) == 9007199254740996.0
    ensures round(9007199254740996.0) == 9007199254740996.0
  {
    SomeScales();
    hide Scale, IsRounding;
    RoundsAt(round, 9007199254740995.0, 1, 4503599627370498);
    RoundsAt(round, 9007199254740996.0, 1, 4503599627370498);
  }

  /** Without any slippage a large amount can be rounded up: the minimum asks for more than is received. */
  lemma MinimumCanExceed(round: real -> real)
    requires IsRounding(round)
    ensures Truncate(Discounted(9007199254740995, 0, round)) == 9007199254740996
  {
    RoundsOne(round);
    assert Multiplier(0, round) == 1.0 by { assert 0 as real / 100.0 == 0.0; }
    hide IsRounding, Times, Multiplier;
    RoundsLarge(round);
    TimesConstants(9007199254740996.0);
  }
}
