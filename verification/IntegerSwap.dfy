/** The integer constant-product estimator. */
module IntegerSwap {
  import opened Arithmetic
  import opened Wrappers

  /** A result, the "not positive" error (returned with a zero amount), or a big.Int division by zero. */
  datatype Quote = Amount(out: uint64) | NotPositive | DivisionByZero

  /** The amount a caller reads: errors come with zero. */
  function Value(q: Quote): uint64 { if q.Amount? then q.out else 0 }

  /** What is left of an input after the fee, which is rounded down. */
  function NetOfFee(amount: int, feeRate: uint64, baseRate: uint64): int
    requires baseRate != 0
  {
    amount - amount * feeRate / baseRate
  }

  /** CalcPSBaseAmountOut. */
  function BaseAmountOut(quoteReserve: uint64, baseReserve: uint64, quoteIn: int, feeRate: uint64, baseRate: uint64): Quote {
    if baseRate == 0 then DivisionByZero
    else
      var denominator := quoteReserve + NetOfFee(quoteIn, feeRate, baseRate);
      if denominator == 0 then DivisionByZero
      else
        var received := baseReserve - baseReserve * quoteReserve / denominator;
        if received <= 0 then NotPositive else Amount(LowBits(received))
  }

  /** CalcPSMinQuoteAmountOut up to the quote received, before slippage. */
  function QuoteReceived(quoteReserve: uint64, baseReserve: uint64, baseIn: int, feeRate: uint64, baseRate: uint64): Option<int> {
    if baseRate == 0 then None
    else
      var denominator := baseReserve + NetOfFee(baseIn, feeRate, baseRate);
      if denominator == 0 then None
      else Some(quoteReserve - baseReserve * quoteReserve / denominator)
  }

  /** A floored quotient of at most b*d. */
  lemma FlooredQuotient(product: nat, b: nat, d: int)
    requires d > 0 && product <= b * d
    ensures 0 <= product / d <= b
    ensures product / d * d <= product < (product / d + 1) * d
  {
    Division(product, d);
    FloorAtMost(product, d, b);
  }

  lemma FeeWithinAmount(amount: nat, feeRate: nat, baseRate: nat)
    requires 0 < baseRate && feeRate <= baseRate
    ensures 0 <= amount * feeRate / baseRate <= amount
    ensures amount * feeRate / baseRate * baseRate <= amount * feeRate
  {
    MulLe(feeRate, baseRate, amount);
    MulLe(0, feeRate, amount);
    FlooredQuotient(amount * feeRate, amount, baseRate);
  }

  lemma NetOfFeeBounds(amount: nat, feeRate: uint64, baseRate: uint64)
    requires 0 < baseRate && feeRate <= baseRate
    ensures 0 <= NetOfFee(amount, feeRate, baseRate) <= amount
    ensures feeRate == 0 ==> NetOfFee(amount, feeRate, baseRate) == amount
  {
    FeeWithinAmount(amount, feeRate, baseRate);
    if feeRate == 0 {
      assert amount * feeRate == 0;
    }
  }

  /** A floored constant product over a larger denominator. */
  lemma FlooredProduct(q: nat, b: nat, d: int)
    requires d >= q && d > 0
    ensures 0 <= b * q / d <= b
    ensures b * q / d * d <= b * q < (b * q / d + 1) * d
  {
    MulLe(q, d, b);
    MulLe(0, q, b);
    FlooredQuotient(b * q, b, d);
  }

  /** The amount read from a buy, when the fee is at most everything. */
  lemma BuyValue(quoteReserve: uint64, baseReserve: uint64, quoteIn: nat, feeRate: uint64, baseRate: uint64)
    requires 0 < baseRate && feeRate <= baseRate
    requires quoteReserve + NetOfFee(quoteIn, feeRate, baseRate) > 0
    ensures var d := quoteReserve + NetOfFee(quoteIn, feeRate, baseRate);
            var q := BaseAmountOut(quoteReserve, baseReserve, quoteIn, feeRate, baseRate);
            && Value(q) == baseReserve - baseReserve * quoteReserve / d
            && (q.Amount? <==> Value(q) > 0)
  {
    NetOfFeeBounds(quoteIn, feeRate, baseRate);
    FlooredProduct(quoteReserve, baseReserve, quoteReserve + NetOfFee(quoteIn, feeRate, baseRate));
  }

  lemma LeastOutput(q: nat, b: nat, d: nat, rest: nat, o: int)
    requires d > 0 && rest * d <= b * q < (rest + 1) * d
    ensures (b - o) * d <= b * q <==> o >= b - rest
  {
    if o < b - rest {
      MulLe(rest + 1, b - o, d);
    } else {
      MulLe(b - o, rest, d);
    }
  }

  /** What the rounded-down fee leaves is the least whole number that is not below the exact net amount. */
  lemma NetIsLeast(amount: nat, feeRate: uint64, baseRate: uint64, n: int)
    requires 0 < baseRate && feeRate <= baseRate
    requires amount * (baseRate - feeRate) <= n * baseRate < amount * (baseRate - feeRate) + baseRate
    ensures NetOfFee(amount, feeRate, baseRate) == n && n >= 0
  {
    MulLe(0, baseRate - feeRate, amount);
    if n < 0 {
      MulLe(n, -1, baseRate);
    }
    assert amount * (baseRate - feeRate) == amount * baseRate - amount * feeRate;
    assert (amount - n) * baseRate == amount * baseRate - n * baseRate;
    assert (amount - n + 1) * baseRate == (amount - n) * baseRate + baseRate;
    QuotientUnique(amount * feeRate, baseRate, amount - n);
  }

  /** A buy's quote in terms of its arguments alone: n is what the fee leaves of the input, rounded up. */
  lemma BuyQuote(quoteReserve: uint64, baseReserve: uint64, quoteIn: nat, feeRate: uint64, baseRate: uint64, n: nat)
    requires 0 < baseRate && feeRate <= baseRate && quoteReserve + n > 0
    requires quoteIn * (baseRate - feeRate) <= n * baseRate < quoteIn * (baseRate - feeRate) + baseRate
    ensures var q := BaseAmountOut(quoteReserve, baseReserve, quoteIn, feeRate, baseRate);
            var out := baseReserve - baseReserve * quoteReserve / (quoteReserve + n);
            && 0 <= out <= baseReserve
            && q == if out > 0 then Amount(out) else NotPositive
  {
    hide NetOfFee;
    NetIsLeast(quoteIn, feeRate, baseRate, n);
    FlooredProduct(quoteReserve, baseReserve, quoteReserve + n);
  }

  /** The quote is the smallest output that keeps the constant product from growing: it is rounded up. */
  lemma BuyIsLeast(quoteReserve: uint64, baseReserve: uint64, quoteIn: nat, feeRate: uint64, baseRate: uint64, n: nat, o: int)
    requires 0 < baseRate && feeRate <= baseRate && quoteReserve + n > 0
    requires quoteIn * (baseRate - feeRate) <= n * baseRate < quoteIn * (baseRate - feeRate) + baseRate
    ensures (baseReserve - o) * (quoteReserve + n) <= baseReserve * quoteReserve
            <==> o >= Value(BaseAmountOut(quoteReserve, baseReserve, quoteIn, feeRate, baseRate))
  {
    hide BaseAmountOut;
    var d := quoteReserve + n;
    BuyQuote(quoteReserve, baseReserve, quoteIn, feeRate, baseRate, n);
    FlooredProduct(quoteReserve, baseReserve, d);
    LeastOutput(quoteReserve, baseReserve, d, baseReserve * quoteReserve / d, o);
  }

  /** A sale's amount before slippage, in terms of its arguments alone. */
  lemma SaleQuote(quoteReserve: uint64, baseReserve: uint64, baseIn: nat, feeRate: uint64, baseRate: uint64, n: nat)
    requires 0 < baseRate && feeRate <= baseRate && baseReserve + n > 0
    requires baseIn * (baseRate - feeRate) <= n * baseRate < baseIn * (baseRate - feeRate) + baseRate
    ensures QuoteReceived(quoteReserve, baseReserve, baseIn, feeRate, baseRate)
            == Some(quoteReserve - baseReserve * quoteReserve / (baseReserve + n))
  {
    hide NetOfFee;
    NetIsLeast(baseIn, feeRate, baseRate, n);
  }

  /** Both quotes panic exactly when the base rate is zero, or the reserve that is paid into is empty and the fee
      leaves nothing to pay in. */
  lemma QuotePanicsIff(intoReserve: uint64, fromReserve: uint64, amount: nat, feeRate: uint64, baseRate: uint64)
    requires feeRate <= baseRate
    ensures BaseAmountOut(intoReserve, fromReserve, amount, feeRate, baseRate) == DivisionByZero <==>
            baseRate == 0 || (intoReserve == 0 && (amount == 0 || feeRate == baseRate))
    ensures QuoteReceived(fromReserve, intoReserve, amount, feeRate, baseRate) == None <==>
            baseRate == 0 || (intoReserve == 0 && (amount == 0 || feeRate == baseRate))
  {
    if baseRate > 0 {
      NetOfFeeBounds(amount, feeRate, baseRate);
      NothingLeft(amount, feeRate, baseRate);
    }
  }

  lemma NothingLeft(amount: nat, feeRate: uint64, baseRate: uint64)
    requires 0 < baseRate && feeRate <= baseRate
    ensures NetOfFee(amount, feeRate, baseRate) == 0 <==> amount == 0 || feeRate == baseRate
  {
    if amount == 0 || feeRate == baseRate {
      assert amount * (baseRate - feeRate) == 0;
      NetIsLeast(amount, feeRate, baseRate, 0);
    } else {
      MulLe(feeRate + 1, baseRate, amount);
      Division(amount * feeRate, baseRate);
      if amount * feeRate / baseRate >= amount {
        MulLe(amount, amount * feeRate / baseRate, baseRate);
      }
    }
  }

  /** A quarter of a percent is taken: a million out of equal reserves of a thousand million. */
  lemma FeeIsTaken()
    ensures BaseAmountOut(1_000_000_000, 1_000_000_000, 1_000_000, 25, 10_000) == Amount(996_506)
  {
    hide BaseAmountOut;
    BuyQuote(1_000_000_000, 1_000_000_000, 1_000_000, 25, 10_000, 997_500);
    QuotientUnique(1_000_000_000_000_000_000, 1_000_997_500, 999_003_494);
  }

  // ---------------------------------------------------------------- splitting a buy

  datatype Pool = Pool(quote: uint64, base: uint64)

  function Total(xs: seq<nat>): nat { if xs == [] then 0 else xs[0] + Total(xs[1..]) }

  function Buy(p: Pool, x: nat, baseRate: uint64): Quote { BaseAmountOut(p.quote, p.base, x, 0, baseRate) }

  /** What a buy without fee leaves of the base reserve. */
  function BaseLeft(p: Pool, x: nat): nat
    requires p.quote + x > 0
  {
    FlooredProduct(p.quote, p.base, p.quote + x);
    p.base * p.quote / (p.quote + x)
  }

  lemma BuyValueNoFee(p: Pool, x: nat, baseRate: uint64)
    requires baseRate > 0 && p.quote + x > 0
    ensures var q := Buy(p, x, baseRate);
            && Value(q) == p.base - BaseLeft(p, x)
            && (q.Amount? <==> Value(q) > 0)
  {
    hide BaseAmountOut, NetOfFee;
    NetOfFeeBounds(x, 0, baseRate);
    BuyValue(p.quote, p.base, x, 0, baseRate);
  }

  /** The pool after a buy without fee; an error leaves it alone. */
  function AfterBuy(p: Pool, x: nat, baseRate: uint64): Pool
    requires baseRate > 0 && 0 < x && p.quote + x < 0x1_0000_0000_0000_0000
  {
    match Buy(p, x, baseRate)
    case Amount(out) =>
      BuyValueNoFee(p, x, baseRate);
      Pool(p.quote + x, p.base - out)
    case _ => p
  }

  predicate Positive(xs: seq<nat>) { forall i :: 0 <= i < |xs| ==> xs[i] > 0 }

  function AfterAll(p: Pool, xs: seq<nat>, baseRate: uint64): Pool
    requires baseRate > 0 && Positive(xs) && p.quote + Total(xs) < 0x1_0000_0000_0000_0000
    decreases xs
  {
    if xs == [] then p else AfterAll(AfterBuy(p, xs[0], baseRate), xs[1..], baseRate)
  }

  /** The sum of the outputs of consecutive buys. */
  function SplitOutput(p: Pool, xs: seq<nat>, baseRate: uint64): nat
    requires baseRate > 0 && Positive(xs) && p.quote + Total(xs) < 0x1_0000_0000_0000_0000
    decreases xs
  {
    if xs == [] then 0
    else Value(Buy(p, xs[0], baseRate)) + SplitOutput(AfterBuy(p, xs[0], baseRate), xs[1..], baseRate)
  }

  lemma {:induction false} SplitOutputIsReserveDrop(p: Pool, xs: seq<nat>, baseRate: uint64)
    requires baseRate > 0 && Positive(xs) && p.quote + Total(xs) < 0x1_0000_0000_0000_0000
    ensures SplitOutput(p, xs, baseRate) == p.base - AfterAll(p, xs, baseRate).base
    decreases xs
  {
    hide Buy;
    if xs == [] {
    } else {
      SplitOutputIsReserveDrop(AfterBuy(p, xs[0], baseRate), xs[1..], baseRate);
    }
  }

  lemma BaseLeftShrinks(p: Pool, x: nat)
    requires x > 0 && p.base > 0
    ensures BaseLeft(p, x) < p.base
  {
    var d := p.quote + x;
    FlooredProduct(p.quote, p.base, d);
    if p.base * p.quote / d == p.base {
      MulLt(p.quote, d, p.base);
    }
  }

  /** The reserves after one positive buy. */
  lemma AfterBuyReserves(p: Pool, x: nat, baseRate: uint64)
    requires baseRate > 0 && x > 0 && p.quote + x < 0x1_0000_0000_0000_0000
    ensures var q := AfterBuy(p, x, baseRate);
            if p.base == 0 then q == p else q.quote == p.quote + x && q.base == BaseLeft(p, x)
  {
    hide Buy, BaseLeft;
    BuyValueNoFee(p, x, baseRate);
    if p.base > 0 {
      BaseLeftShrinks(p, x);
    }
  }

  /** After k buys at most k times the current quote reserve is missing from the product k0 of the start. */
  predicate ProductTrack(k0: nat, k: nat, p: Pool) {
    && p.base * p.quote <= k0
    && k0 <= p.base * p.quote + k * Slack(p)
  }

  function Slack(p: Pool): nat { if p.quote == 0 then 0 else p.quote - 1 }

  lemma TrackStart(p: Pool)
    ensures p.base * p.quote >= 0 && ProductTrack(p.base * p.quote, 0, p)
  {
    MulLe(0, p.base, p.quote);
  }

  lemma TrackStep(k0: nat, k: nat, p: Pool, x: nat, baseRate: uint64)
    requires baseRate > 0 && x > 0 && p.quote + x < 0x1_0000_0000_0000_0000
    requires ProductTrack(k0, k, p)
    ensures ProductTrack(k0, k + 1, AfterBuy(p, x, baseRate))
  {
    hide AfterBuy;
    AfterBuyReserves(p, x, baseRate);
    var q := AfterBuy(p, x, baseRate);
    assert (k + 1) * Slack(q) == k * Slack(q) + Slack(q);
    if p.base > 0 {
      FlooredProduct(p.quote, p.base, q.quote);
      assert (q.base + 1) * q.quote == q.base * q.quote + q.quote;
      MulLe(Slack(p), Slack(q), k);
    }
  }

  lemma {:induction false} TrackAll(k0: nat, k: nat, p: Pool, xs: seq<nat>, baseRate: uint64)
    requires baseRate > 0 && Positive(xs) && p.quote + Total(xs) < 0x1_0000_0000_0000_0000
    requires ProductTrack(k0, k, p)
    ensures var q := AfterAll(p, xs, baseRate);
            && ProductTrack(k0, k + |xs|, q)
            && q.base <= p.base
            && q.quote <= p.quote + Total(xs)
            && (q.base > 0 ==> q.quote == p.quote + Total(xs))
    decreases xs
  {
    hide AfterBuy, ProductTrack, BaseLeft;
    if xs == [] {
    } else {
      TrackStep(k0, k, p, xs[0], baseRate);
      AfterBuyReserves(p, xs[0], baseRate);
      if p.base > 0 {
        BaseLeftShrinks(p, xs[0]);
      }
      TrackAll(k0, k + 1, AfterBuy(p, xs[0], baseRate), xs[1..], baseRate);
    }
  }

  /** What the track says about the floor of the starting product over the final denominator. */
  lemma TrackBounds(k0: nat, n: nat, q: Pool, d: nat, rest: nat)
    requires ProductTrack(k0, n, q) && n > 0 && d > 0 && q.quote <= d && (q.base > 0 ==> q.quote == d)
    requires rest * d <= k0 < (rest + 1) * d
    ensures q.base <= rest < q.base + n
  {
    if q.base > rest {
      MulLe(rest + 1, q.base, d);
    }
    assert (q.base + n) * d == q.base * d + n * d;
    assert n * (d - 1) == n * d - n;
    MulLe(q.quote, d, q.base);
    MulLe(Slack(q), d - 1, n);
    if rest >= q.base + n {
      MulLe(q.base + n, rest, d);
    }
  }

  /** Splitting a buy into n positive parts gains between nothing and n - 1 units. */
  lemma SplitGain(p: Pool, xs: seq<nat>, baseRate: uint64)
    requires baseRate > 0 && xs != [] && Positive(xs) && p.quote + Total(xs) < 0x1_0000_0000_0000_0000
    ensures var single := Value(Buy(p, Total(xs), baseRate));
            single <= SplitOutput(p, xs, baseRate) <= single + |xs| - 1
  {
    hide Buy, AfterAll, SplitOutput, ProductTrack;
    TrackStart(p);
    var k0, d := p.base * p.quote, p.quote + Total(xs);
    assert xs[0] > 0;
    TrackAll(k0, 0, p, xs, baseRate);
    SplitOutputIsReserveDrop(p, xs, baseRate);
    BuyValueNoFee(p, Total(xs), baseRate);
    FlooredProduct(p.quote, p.base, d);
    TrackBounds(k0, |xs|, AfterAll(p, xs, baseRate), d, k0 / d);
  }

  // ---------------------------------------------------------------- buying and selling back

  lemma RoundTripArithmetic(q: nat, b: nat, e: nat, left: nat, rest: nat)
    requires b > 0
    requires left * (q + e) <= b * q < (left + 1) * (q + e)
    requires rest * b <= left * (q + e) < (rest + 1) * b
    ensures rest <= q
    ensures b * (q - rest - 1) < q + e
  {
    if rest > q {
      MulLe(q + 1, rest, b);
    }
    assert (left + 1) * (q + e) == left * (q + e) + (q + e);
    assert b * (q - rest - 1) == b * q - (rest + 1) * b;
  }

  /** A buy of e without fee, and the sale of all of its output into the resulting reserves: before slippage
      the sale returns at least e, and less than e + 1 + (quote + e) / base. */
  lemma RoundTrip(p: Pool, e: nat, baseRate: uint64)
    requires baseRate > 0 && e > 0 && p.base > 0 && p.quote + e < 0x1_0000_0000_0000_0000
    ensures Buy(p, e, baseRate).Amount?
    ensures var q := AfterBuy(p, e, baseRate);
            match QuoteReceived(q.quote, q.base, Buy(p, e, baseRate).out, 0, baseRate)
            case None => false
            case Some(received) => e <= received && p.base * (received - e - 1) < p.quote + e
  {
    hide Buy, AfterBuy;
    BuyValueNoFee(p, e, baseRate);
    BaseLeftShrinks(p, e);
    AfterBuyReserves(p, e, baseRate);
    var q, out := AfterBuy(p, e, baseRate), Buy(p, e, baseRate).out;
    NetOfFeeBounds(out, 0, baseRate);
    FlooredProduct(p.quote, p.base, p.quote + e);
    FlooredProduct(q.base, q.quote, p.base);
    assert q.base * q.quote == q.quote * q.base;
    RoundTripArithmetic(p.quote, p.base, e, q.base, q.base * q.quote / p.base);
  }

  lemma GainArithmetic(q: nat, b: nat, e: nat, left: nat, rest: nat)
    requires b > 0 && left * (q + e) <= b * q
    requires rest * b <= left * (q + e) < (rest + 1) * b
    ensures rest < q <==> left * (q + e) < b * q
  {
    if rest < q {
      MulLe(rest + 1, q, b);
    } else {
      MulLe(q, rest, b);
    }
  }

  /** Selling back returns more than was paid exactly when the buy's division leaves a remainder, which is
      when its quote was rounded up. */
  lemma RoundTripGainsIff(p: Pool, e: nat, baseRate: uint64)
    requires baseRate > 0 && e > 0 && p.base > 0 && p.quote + e < 0x1_0000_0000_0000_0000
    ensures Buy(p, e, baseRate).Amount?
    ensures var q := AfterBuy(p, e, baseRate);
            match QuoteReceived(q.quote, q.base, Buy(p, e, baseRate).out, 0, baseRate)
            case None => false
            case Some(received) => received > e <==> p.base * p.quote % (p.quote + e) != 0
  {
    hide Buy, AfterBuy;
    BuyValueNoFee(p, e, baseRate);
    BaseLeftShrinks(p, e);
    AfterBuyReserves(p, e, baseRate);
    var q, out := AfterBuy(p, e, baseRate), Buy(p, e, baseRate).out;
    NetOfFeeBounds(out, 0, baseRate);
    FlooredProduct(p.quote, p.base, p.quote + e);
    FlooredProduct(q.base, q.quote, p.base);
    assert q.base * q.quote == q.quote * q.base;
    Division(p.base * p.quote, p.quote + e);
    GainArithmetic(p.quote, p.base, e, q.base, q.base * q.quote / p.base);
  }

  /** Ten units on either side: buying with one unit and selling back returns more than one. */
  lemma RoundTripCanGain(baseRate: uint64)
    requires baseRate > 0
    ensures var p := Pool(10, 10);
            Buy(p, 1, baseRate).Amount? &&
            var q := AfterBuy(p, 1, baseRate);
            match QuoteReceived(q.quote, q.base, Buy(p, 1, baseRate).out, 0, baseRate)
            case None => false
            case Some(received) => received > 1
  {
    hide Buy, AfterBuy, QuoteReceived;
    RoundTripGainsIff(Pool(10, 10), 1, baseRate);
  }

  lemma ReceivedBounds(quoteReserve: uint64, baseReserve: uint64, baseIn: nat, feeRate: uint64, baseRate: uint64)
    requires 0 < baseRate && feeRate <= baseRate
    requires baseReserve + NetOfFee(baseIn, feeRate, baseRate) > 0
    ensures var received := QuoteReceived(quoteReserve, baseReserve, baseIn, feeRate, baseRate);
            received.Some? && 0 <= received.value <= quoteReserve
  {
    hide NetOfFee;
    NetOfFeeBounds(baseIn, feeRate, baseRate);
    FlooredProduct(baseReserve, quoteReserve, baseReserve + NetOfFee(baseIn, feeRate, baseRate));
    assert quoteReserve * baseReserve == baseReserve * quoteReserve;
  }
}
