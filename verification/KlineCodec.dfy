/** The comma-separated text under which a candle is a member of the Redis sorted set. */
module KlineCodec {
  import opened Wrappers
  import opened Strings
  import opened Klines

  /** Float64ToString; a numeral of 2^-1074 units stands for Go's shortest decimal. */
  function PrintF64(x: F64): string { Itoa(x) }

  /** StringToFloat64 with its error dropped. */
  function ParseF64(s: string): F64 {
    match ParseNumeral(s)
    case None => 0
    case Some(x) => x
  }

  /** The fifteen encoded fields, in order. OpenAt, CloseAt, ChainId and Interval are not among them. */
  function Fields(k: Kline): (parts: seq<string>)
    ensures |parts| == 15
  {
    [k.pairAddr, Itoa(k.candleTime),
     PrintF64(k.open), PrintF64(k.close), PrintF64(k.high), PrintF64(k.low),
     PrintF64(k.mcapOpen), PrintF64(k.mcapHigh), PrintF64(k.mcapLow), PrintF64(k.mcapClose),
     PrintF64(k.amountUsd), PrintF64(k.volumeToken),
     Itoa(k.buyCount), Itoa(k.sellCount), Itoa(k.totalCount)]
  }

  function Compress(k: Kline): string { Join(Fields(k), ',') }

  function Decompress(text: string): Option<Kline> {
    var p := Split(text, ',');
    if |p| != 15 then None
    else Some(Kline(
      chainId := 0, interval := "", pairAddr := p[0], candleTime := Atoi(p[1]), openAt := 0, closeAt := 0,
      open := ParseF64(p[2]), close := ParseF64(p[3]), high := ParseF64(p[4]), low := ParseF64(p[5]),
      mcapOpen := ParseF64(p[6]), mcapHigh := ParseF64(p[7]), mcapLow := ParseF64(p[8]), mcapClose := ParseF64(p[9]),
      amountUsd := ParseF64(p[10]), volumeToken := ParseF64(p[11]),
      buyCount := Atoi(p[12]), sellCount := Atoi(p[13]), totalCount := Atoi(p[14])))
  }

  /** What survives encoding: every field but ChainId, Interval, OpenAt and CloseAt. */
  function Strip(k: Kline): Kline {
    k.(chainId := 0, interval := "", openAt := 0, closeAt := 0)
  }

  lemma DecodedLabels(text: string)
    ensures match Decompress(text)
            case None => true
            case Some(k) => k == Strip(k)
  {
  }

  lemma F64RoundTrip(x: F64)
    ensures ParseF64(PrintF64(x)) == x
  {
    ItoaRoundTrip(x);
  }

  lemma NumeralsCommaFree(k: Kline)
    ensures forall p :: p in Fields(k)[1..] ==> ',' !in p
  {
    forall n: int ensures ',' !in Itoa(n) {
      ItoaAlphabet(n, ',');
    }
  }

  /** The decoded fields of a list of parts that prints k. */
  lemma FieldsRoundTrip(k: Kline, text: string)
    requires Split(text, ',') == Fields(k)
    ensures Decompress(text) == Some(Strip(k))
  {
    AtoiItoa(k.candleTime);
    AtoiItoa(k.buyCount);
    AtoiItoa(k.sellCount);
    AtoiItoa(k.totalCount);
    forall x: F64 ensures ParseF64(PrintF64(x)) == x {
      F64RoundTrip(x);
    }
  }

  lemma SplitCompressed(k: Kline)
    ensures Split(Compress(k), ',') == Split(k.pairAddr, ',') + Fields(k)[1..]
  {
    NumeralsCommaFree(k);
    var rest := Fields(k)[1..];
    SplitJoin(rest, ',');
    SplitAtSeparator(k.pairAddr, Join(rest, ','), ',');
  }

  /** Decoding an encoded candle succeeds exactly when its pair address has no comma, and then gives
      back everything that was encoded. */
  lemma RoundTrip(k: Kline)
    ensures Decompress(Compress(k)) == if ',' in k.pairAddr then None else Some(Strip(k))
  {
    SplitCompressed(k);
    SplitWhole(k.pairAddr, ',');
    if ',' !in k.pairAddr {
      assert Split(Compress(k), ',') == Fields(k);
      FieldsRoundTrip(k, Compress(k));
    }
  }

  /** What stands where in the text of a candle. */
  lemma TextPositions(k: Kline)
    requires ',' !in k.pairAddr
    ensures var p := Split(Compress(k), ',');
            && |p| == 15 && p[0] == k.pairAddr && p[1] == Itoa(k.candleTime)
            && p[2] == Itoa(k.open) && p[3] == Itoa(k.close) && p[4] == Itoa(k.high) && p[5] == Itoa(k.low)
            && p[6] == Itoa(k.mcapOpen) && p[7] == Itoa(k.mcapHigh) && p[8] == Itoa(k.mcapLow) && p[9] == Itoa(k.mcapClose)
            && p[10] == Itoa(k.amountUsd) && p[11] == Itoa(k.volumeToken)
            && p[12] == Itoa(k.buyCount) && p[13] == Itoa(k.sellCount) && p[14] == Itoa(k.totalCount)
  {
    hide Compress, Split, Itoa;
    SplitCompressed(k);
    SplitWhole(k.pairAddr, ',');
  }

  /** A field that is no numeral counts as zero. */
  lemma NoNumberIsZero()
    ensures ParseF64("") == 0 && ParseF64("x") == 0
  {
    assert !IsDigit("x"[0]);
  }

  /** The fourteen numerals determine everything that is encoded beside the pair address. */
  lemma NumeralsDetermine(a: Kline, b: Kline)
    requires Fields(a)[1..] == Fields(b)[1..]
    ensures Strip(a.(pairAddr := "")) == Strip(b.(pairAddr := ""))
  {
    var x, y := a.(pairAddr := ""), b.(pairAddr := "");
    assert Fields(x) == [""] + Fields(a)[1..] && Fields(y) == [""] + Fields(b)[1..];
    hide Decompress;
    RoundTrip(x);
    RoundTrip(y);
  }

  /** Two candles share a text exactly when they agree on the fifteen encoded fields. */
  lemma CompressInjective(a: Kline, b: Kline)
    ensures Compress(a) == Compress(b) <==> Strip(a) == Strip(b)
  {
    if Compress(a) == Compress(b) {
      SplitCompressed(a);
      SplitCompressed(b);
      var p, q := Split(a.pairAddr, ','), Split(b.pairAddr, ',');
      var x, y := Fields(a)[1..], Fields(b)[1..];
      assert p == (p + x)[..|p|] && q == (q + y)[..|q|];
      assert x == (p + x)[|p|..] && y == (q + y)[|q|..];
      JoinSplit(a.pairAddr, ',');
      JoinSplit(b.pairAddr, ',');
      hide Fields, Compress, Decompress, Join, Split;
      NumeralsDetermine(a, b);
    } else {
      assert Fields(a) == Fields(Strip(a)) && Fields(b) == Fields(Strip(b));
    }
  }
}
