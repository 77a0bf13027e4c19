# FlowDEX: verified models of its stateful core

FlowDEX indexes on-chain trades, keeps candles in Redis and rows in sharded MySQL tables, quotes swaps against
constant-product pools, and pushes updates to browsers over WebSockets. This project models the parts of it that
hold state or do arithmetic, and proves what they keep over whole runs.

Check everything with `dafny verify dfyconfig.toml`.

## What is modelled

- **Candle store** (`Klines`, `KlineCodec`, `SortedSet`, `KlineStore`, `KlineHistory`, `KlineTexts`,
  `KlineCommas`, `KlineRetention`, `KlineCache`, `KlineWorkers`, `KlineDrain`, `KlineOrder`,
  `KlineReports`). Candles are merged,
  printed as comma-separated text, and kept in one Redis sorted set per series. The text forgets `OpenAt` and
  `CloseAt`. `KlineRecord`, `Cache` and `Consumer` are the mutable objects; `KlineWorkers` is the same code as a
  transition system in which every Redis command of every worker is a step of its own.
- **AMM quoting** (`IntegerSwap`, `BigFloats`, `SlippedSale`, `DecimalSwap`, `SwapAgreement`). The `big.Int`
  estimator that floors, the 53-bit floating point in which its sales take the slippage off, and the `decimal`
  estimator that rounds at the eighteenth digit, each on its own and against each other.
- **Trade writer** (`TradeWriter`). Daily tables, the in-place duplicate filter, every way a call can stop half
  way, any number of calls, and the look-up by hash.
- **Account upserts** (`AccountUpsert`). Weekly tables, the lock loop, the deduplication, and the slot guard as a
  last-writer-wins register.
- **WebSocket hub** (`FanOutHub`). Registration, broadcasts, removals scheduled from several places, bounded
  channels: as a class, and as a transition system that the class's methods are runs of.
- **Migrations** (`Migrations`) and **error codes** (`StatusCodes`).

`Wrappers`, `Arithmetic`, `Sequences`, `Strings` and `Calendar` hold the vocabulary: Go's integer widths, integer
division facts, filters and sums, days and weekdays, and the `strings` and `strconv` primitives.

## What the proofs found

- **A late opener is lost.** Because the stored text forgets `OpenAt`, a stored candle takes Open from the last
  later push whose `OpenAt` is at most 0, or else from the first push. `StorageRefinesFold` says exactly when that
  is the in-memory merge. Candles pushed in order are safe (`InOrderStoresFold`), and so are candles that arrive in
  order and leave in one tick (`ArrivedInOrderStoresFold`); `LateOpenerIsLost` is a case that is not. The totals,
  High and Low are always right.
- **A comma in a pair address** makes the stored text undecodable, and every later candle of its time is lost
  (`CommaKeepsFirst`, `CommaLosesEveryUpdate`).
- **`FetchKline`** treats a `Limit` of 0 as 1 and panics on a negative or absurdly large one, because the limit is
  compared after appending and is also the capacity of a slice.
- **The decimal quote can take one unit too many.** The constant product is kept exactly when the quotient is
  whole or rounds up (`ProductKeptIff`); `ProductNotAlwaysKept` is a pool where it is not.
- **Buying and selling back can return more than was paid**, since both integer quotes round up: exactly when the
  buy's division leaves a remainder (`RoundTripGainsIff`, `RoundTripCanGain`). `RoundTrip` bounds by how much.
- **`BatchInsertTrades` returns nil too early.** After a deadlock whose retry succeeds it returns without visiting
  the remaining tables (`DeadlockSkipsTables`; `NilMeansStoredIff` says when that matters), and it ignores a failed
  read, after which a replay duplicates rows (`FailedReadDuplicates`; `DistinctIff`, `CallDistinctIff` and
  `NoKeyTwiceIff` say when).
- **An unordered batch loses the newer slot**: the deduplication keeps the last occurrence of a key, not the one
  with the greatest slot (`UnorderedBatchLosesSlot`; `GreatestSlotStoredIff` says when the greatest is stored).
- **The lock loop** counts down before each try, so the lock is tried 199 times, not 200.
- **`FindOneByTxHashWithTime`** allows, in its comment, for time zones in which the two times may sit. It looks at
  the order's day and the next one only (`FoundIff`), so a block dated the day before the order is not found
  (`PreviousDayNotFound`).
- **A migration whose success cannot be recorded runs again** (`UnrecordedSuccessRepeats`;
  `SucceedsAtMostOnceIff` says when it does not).
- **An error text that mentions "connect"** hides whatever code it carries (`ConnectHidesCode`), and an earlier
  "desc = " in the text misleads the parser. `PrintParse` says exactly when code and message come back.
- **The slippage of a sale is inexact.** `CalcPSMinQuoteAmountOut` works in 53 bits, so a whole share can lose one
  (`SlippageCanLoseOne`), and a large amount can be rounded up to a minimum above what is received
  (`MinimumCanExceed`).
- **A # inside a hash, a pair or a type** makes different trades share a key (`TradeKeyIdentifiesIff`).

## Model

| member | source | states |
|---|---|---|
| Klines.MergeAssociative | dataflow/internal/cache/klineredis.go:442-480 | merging candles of one time is associative, wrap-around of the counts included |
| Klines.MergeCommutes | dataflow/internal/cache/klineredis.go:442-480 | merging commutes if and only if every tie of OpenAt, CloseAt, High or Low is between equal payloads and the labels agree |
| Klines.FoldConcat | dataflow/internal/cache/klineredis.go:442-480 | a run of candles may be cut anywhere and its parts merged separately |
| Klines.FoldPermutation | dataflow/internal/cache/klineredis.go:442-480 | pairwise commuting candles merge to the same candle in every arrival order |
| Klines.FoldOrdered | dataflow/internal/cache/klineredis.go:442-480 | Low <= Open, Close <= High survives any run of merges |
| Klines.FoldOpenClose | dataflow/internal/cache/klineredis.go:452-462 | a merged run opens as its rightmost candle with the least OpenAt and closes as its rightmost with the greatest CloseAt |
| Klines.FoldHighLow | dataflow/internal/cache/klineredis.go:464-472 | High and Low of a merged run, with their market caps, are those of its rightmost highest and its rightmost lowest candle |
| Klines.FoldLabels | dataflow/internal/cache/klineredis.go:451-479 | a merged run goes under the labels of its last candle |
| Klines.AggregatesMerge | dataflow/internal/cache/klineredis.go:464-478 | one more merge adds one more candle to the sums, the greatest High and the least Low, whatever the marks say |
| Klines.AggregatesPermutation | dataflow/internal/cache/klineredis.go:464-478 | the sums and extremes of candles do not depend on their order |
| Klines.MergeKline | dataflow/internal/cache/klineredis.go:442-480 | nil for a nil argument or different candle times, and then nothing changes; otherwise the second argument itself, overwritten with the merge |
| KlineCodec.RoundTrip | dataflow/internal/cache/klineredis.go:43-89 | decoding an encoded candle fails if and only if its pair address has a comma, and otherwise gives all but ChainId, Interval, OpenAt and CloseAt |
| KlineCodec.TextPositions | dataflow/internal/cache/klineredis.go:43-63 | which field stands where in the text |
| KlineCodec.CompressInjective | dataflow/internal/cache/klineredis.go:43-63 | two candles have the same text if and only if they agree on the fifteen encoded fields |
| KlineCodec.DecodedLabels | dataflow/internal/cache/klineredis.go:72-88 | decoded candles carry no chain, interval or marks |
| KlineCodec.NoNumberIsZero | dataflow/internal/cache/klineredis.go:65-89 | a price field that is no numeral counts as zero |
| KlineStore.KeyInjective | dataflow/internal/cache/klineredis.go:39-41 | two series share a Redis key if and only if they are the same series |
| KlineStore.KeyText | dataflow/internal/cache/klineredis.go:39-41 | a key in full |
| KlineStore.AddEffect | dataflow/internal/cache/klineredis.go:167-180 | writing at a free time keeps the set valid, stores that candle and touches no other time |
| KlineStore.RemoveEffect | dataflow/internal/cache/klineredis.go:189-208 | deleting a range of scores keeps the set valid and removes exactly the candles of those times |
| KlineStore.PushEffect | dataflow/internal/cache/klineredis.go:163-199 | a push on a valid set decodes and succeeds, replaces exactly the candle of its own time by the merge, and keeps the set valid |
| KlineStore.TrimEffect | dataflow/internal/cache/klineredis.go:201-210 | the clean-up drops nothing newer than the horizon, alters nothing it keeps, and leaves at most 300 candles at or before the horizon |
| KlineStore.TrimIff | dataflow/internal/cache/klineredis.go:201-210 | with up to 300 candles at or before the horizon nothing is removed, from 301 on all of them and only them; the horizon is three days back for one-minute candles and seven for any other interval |
| KlineStore.CommaLosesUpdates | dataflow/internal/cache/klineredis.go:183-187 | after a candle whose pair address has a comma, the next candle of its time fails to decode it and is rejected |
| KlineCommas.CommaKeepsFirst | dataflow/internal/cache/klineredis.go:163-210 | over any run of such candles, while no clean-up reaches a time, what is stored for it is the text of the first candle pushed for it |
| KlineCommas.CommaLosesEveryUpdate | dataflow/internal/cache/klineredis.go:183-187 | a further such candle is rejected if and only if one was pushed for its time before |
| KlineHistory.StepEffect | dataflow/internal/cache/klineredis.go:150-213 | one push with its clean-up: outside the cleaned range, only the candle of its own time changes |
| KlineHistory.RunValid | dataflow/internal/cache/klineredis.go:163-210 | after any run of pushes every member decodes to a candle of its own score, scores are distinct, and the next push succeeds |
| KlineTexts.PushText | dataflow/internal/cache/klineredis.go:163-199 | whatever was stored before, with commas or without, a push merges only candles of one time, so nil is never dereferenced |
| KlineTexts.RunTexts | dataflow/internal/cache/klineredis.go:163-210 | any run of pushes leaves distinct scores, each with the text of a candle of that time |
| KlineHistory.RunCandle | dataflow/internal/cache/klineredis.go:163-199 | the candle of a retained time is the store's own fold of exactly the candles pushed for it, in order |
| KlineHistory.StoredCandleAggregates | dataflow/internal/cache/klineredis.go:163-199 | a stored candle carries sums, greatest High and least Low of all candles pushed for its time, and exists if and only if one was |
| KlineHistory.InterleavingIrrelevant | dataflow/internal/cache/klineredis.go:109-213 | two runs with the same candles for a time, in any orders, store the same sums and extremes |
| KlineHistory.StoredFoldMarks | dataflow/internal/cache/klineredis.go:183-195 | whose Open and whose Close the store keeps, given that decoded marks are zero |
| KlineHistory.StoredFoldRest | dataflow/internal/cache/klineredis.go:183-195 | in every other field the store's fold is the in-memory fold |
| KlineHistory.StorageRefinesFold | dataflow/internal/cache/klineredis.go:150-199 | the stored candle equals the encoded in-memory merge if and only if the candles whose marks the store follows carry the right prices |
| KlineHistory.InOrderStoresFold | dataflow/internal/cache/klineredis.go:150-199 | if the first candle pushed opens strictly before all others and closes are pushed in order, a run of pushes stores exactly the in-memory merge |
| KlineHistory.LateOpenerIsLost | dataflow/internal/cache/klineredis.go:183-195 | two candles for which the store keeps the wrong Open |
| KlineHistory.WindowVolume | dataflow/internal/cache/klineredis.go:163-210 | the volumes stored in a retained window add up to the volumes of every candle ever pushed into it |
| KlineHistory.WindowCount | dataflow/internal/cache/klineredis.go:163-210 | the same for the counts, modulo 2^32 |
| KlineRetention.StoredTimesPushed | dataflow/internal/cache/klineredis.go:163-210 | every stored candle time was pushed |
| KlineRetention.AlignedCount | dataflow/internal/cache/klineredis.go:201-210 | distinct aligned times between the horizon and now are at most retention divided by interval |
| KlineRetention.RetentionBound | dataflow/internal/cache/klineredis.go:201-210 | after every push of aligned, not future candles the set holds at most 300 + retention/interval entries |
| KlineRetention.OneMinuteBound | dataflow/internal/cache/klineredis.go:157-210 | for one-minute candles that is 4620 |
| KlineCache.CandlesOfRange | dataflow/internal/cache/klineredis.go:227-237 | a range of a valid set yields one labelled candle per stored time before To, in order |
| KlineCache.RangeIsExact | dataflow/internal/cache/klineredis.go:216-241 | the decoded range holds each stored candle of [From, To) once, in order, and nothing else |
| KlineCache.FirstCandlesAnswer | dataflow/internal/cache/klineredis.go:226-241 | the first Limit of those answer the query: no earlier candle is missing and none is left out unless Limit is reached |
| KlineCache.Cache.FetchKline | dataflow/internal/cache/klineredis.go:215-243 | panics if and only if Limit is negative or beyond the largest slice capacity; otherwise the first max(Limit, 1) stored candles of [From, To), labelled, in order |
| KlineCache.ReadCandles | dataflow/internal/cache/klineredis.go:226-242 | the reading loop returns the first Limit decodable candles before To |
| KlineCache.Cache.NewPush | dataflow/internal/cache/klineredis.go:145-213 | without the lock nothing changes and nil is returned; with it the sets change as one push and one clean-up, an undecodable entry leaves everything alone, and the returned record is the argument overwritten |
| KlineCache.EntryOfWindow | dataflow/internal/cache/klineredis.go:284-330 | an entry of a retained window is the store's fold of all candles pushed for its time, of which there is at least one |
| KlineCache.TimeOfWindow | dataflow/internal/cache/klineredis.go:284-330 | every candle time pushed into a retained window has its entry |
| KlineCache.OldestOfWindow | dataflow/internal/cache/klineredis.go:284-314 | the first entry of a retained window is the store's fold of all candles pushed for the earliest time in it |
| KlineCache.LatestOfWindow | dataflow/internal/cache/klineredis.go:284-304 | the last entry likewise belongs to the latest time |
| KlineCache.NothingInWindow | dataflow/internal/cache/klineredis.go:284-298 | a window into which nothing was pushed reads as empty and reports no change, volume or count |
| KlineCache.DayTotals | dataflow/internal/cache/klineredis.go:284-330 | end to end: Vol_24H and Txs_24H are the sums over every candle ever pushed into the window and Change_24 leads from the earliest stored Open to the latest stored Close, unless that Open is zero, when nothing is reported |
| KlineCache.EndsExist | dataflow/internal/cache/klineredis.go:300-310 | any candles have an earliest and a latest time |
| KlineCache.PriceChangeMeaning | dataflow/internal/cache/klineredis.go:316-321 | for a positive Open the change is positive if and only if the price rose, gives the Close when applied to the Open, and is capped exactly from 999.99 on |
| KlineCache.Cache.GetKline24Info | dataflow/internal/cache/klineredis.go:284-330 | on a valid set it does not panic and reports the day information of the stored range |
| KlineCache.SumEntries | dataflow/internal/cache/klineredis.go:323-327 | the loop dereferences nil if and only if some entry does not decode; otherwise exact volume and uint32 count |
| KlineWorkers.AddAllGroups | dataflow/internal/cache/klineredis.go:133-140 | batching a message appends to every group what the message has for it, in the order of the message |
| KlineWorkers.GroupKeySeparates | dataflow/internal/cache/klineredis.go:138-138 | candles of one pair share a group if and only if they are of one time |
| KlineWorkers.GroupKeyCollision | dataflow/internal/cache/klineredis.go:138-138 | candles of two pairs that share a group, as the key has no separator |
| KlineWorkers.AddAllCounts | dataflow/internal/cache/klineredis.go:132-140 | batching a message keeps every candle exactly once, in the group of its own key |
| KlineWorkers.TickCounts | dataflow/internal/cache/klineredis.go:115-122 | a tick hands every waiting candle out exactly once, in whatever order the map is ranged over |
| KlineWorkers.Consumer.Receive | dataflow/internal/cache/klineredis.go:132-140 | each group is its old candles followed by the message's candles of that key, in the order of the message |
| KlineWorkers.Consumer.Tick | dataflow/internal/cache/klineredis.go:115-130 | the batches are the groups in some order, and the map is empty afterwards |
| KlineWorkers.AdvanceKeepsLockInv | dataflow/internal/cache/klineredis.go:163-206 | a command of the lock holder keeps the lock invariant when it leaves the set at the matching stage of one push |
| KlineWorkers.ReleaseKeepsLockInv | dataflow/internal/cache/klineredis.go:156-213 | releasing the lock with the set of a whole push keeps the lock invariant for every series |
| KlineWorkers.WriteKeepsInv | dataflow/internal/cache/klineredis.go:177-199 | the ZADD step never merges nil and keeps the invariant |
| KlineWorkers.CleanUpKeepsInv | dataflow/internal/cache/klineredis.go:206-213 | the last step leaves the set of the completed push and releases the lock |
| KlineWorkers.StepKeepsInv | dataflow/internal/cache/klineredis.go:109-213 | every step of every worker keeps: no nil dereference, every candle accounted for, every series explained by its completed pushes and at most one in progress |
| KlineWorkers.RunInvariant | dataflow/internal/cache/klineredis.go:109-213 | that holds in every state reachable by any interleaving of any candles |
| KlineWorkers.InWindowCount | dataflow/internal/cache/klineredis.go:150-199 | the completed pushes of a series into a window are exactly the logged candles of that series and window |
| KlineWorkers.DrainedRunAggregates | dataflow/internal/cache/klineredis.go:109-213 | once drained, whatever the batching, interleaving and lock timeouts, a retained stored candle carries sums and extremes of all candles that arrived for it and were not given up on |
| KlineOrder.SerialInOrder | dataflow/internal/cache/klineredis.go:109-213 | if no batch of a group is handed out before the last one is finished and none of its candles is given up on, then what was pushed, what is in flight and what waits of it is, in this order, what arrived |
| KlineOrder.OneTickIsSerial | dataflow/internal/cache/klineredis.go:115-130 | that is so when one tick hands out all of the group |
| KlineOrder.ArrivedCandle | dataflow/internal/cache/klineredis.go:109-213 | once drained, the stored candle of a retained time is then the store's fold of what arrived for it, in the order of arrival |
| KlineOrder.ArrivedInOrderStoresFold | dataflow/internal/cache/klineredis.go:109-213 | candles that arrive in order and leave in one tick are stored as their in-memory merge |
| KlineDrain.CanDrain | dataflow/internal/cache/klineredis.go:109-213 | every run extends to a drained one in which nothing more arrives and no further push times out |
| KlineReports.UnlockedDayTotals | dataflow/internal/cache/klineredis.go:109-330 | in any state reachable by concurrent workers, a series that is not locked reports the day totals of its completed pushes |
| KlineReports.DrainedDayTotals | dataflow/internal/cache/klineredis.go:109-330 | once drained, whatever the batching and interleaving, the day information of a retained window adds up all candles that arrived for it and were not given up on, and leads from the earliest stored Open to the latest stored Close |
| IntegerSwap.NetIsLeast | pkg/trade/swap.go:90-96 | what the fee leaves of an amount is the least whole number not below amount*(baseRate-feeRate)/baseRate |
| IntegerSwap.BuyQuote | pkg/trade/swap.go:84-116 | for the n that the fee leaves, a buy returns B - floor(B*Q/(Q+n)), or the error "not positive" when that is zero |
| IntegerSwap.SaleQuote | pkg/trade/swap.go:126-146 | a sale receives Q - floor(B*Q/(B+n)) before slippage |
| IntegerSwap.QuotePanicsIff | pkg/trade/swap.go:90-107 | a quote divides by zero if and only if the base rate is zero, or the reserve paid into is empty and nothing is left to pay in |
| IntegerSwap.FeeIsTaken | pkg/trade/swap.go:84-116 | a concrete buy with a fee of a quarter of a percent |
| IntegerSwap.BuyIsLeast | pkg/trade/swap.go:84-116 | for that n an output o keeps the product from growing, (B-o)*(Q+n) <= B*Q, if and only if it is at least the quote |
| IntegerSwap.SplitOutputIsReserveDrop | pkg/trade/swap.go:97-115 | outputs of consecutive buys add up to what the base reserve lost |
| IntegerSwap.TrackAll | pkg/trade/swap.go:97-111 | through any run of buys the product of the reserves falls by at most one quote reserve per buy |
| IntegerSwap.SplitGain | pkg/trade/swap.go:84-116 | splitting a zero-fee buy into n positive parts yields at least the single output and at most n - 1 units more |
| IntegerSwap.RoundTrip | pkg/trade/swap.go:84-146 | buying with e and selling all of it back returns, before slippage, at least e and less than e + 1 + (Q+e)/B |
| IntegerSwap.RoundTripGainsIff | pkg/trade/swap.go:84-146 | the sale returns more than e if and only if B*Q is not a multiple of Q+e, that is, if the buy was rounded up |
| IntegerSwap.RoundTripCanGain | pkg/trade/swap.go:84-146 | a pool of ten and ten where one unit returns more than one |
| IntegerSwap.ReceivedBounds | pkg/trade/swap.go:126-146 | with a fee of at most everything, a sale receives between nothing and the whole quote reserve |
| SlippedSale.SlippageLowers | pkg/trade/swap.go:118-163 | under every rounding to 53 bits: an error from 100 percent on; below, for amounts up to 2^44, the floor of the share that is left, or one less when that share is whole |
| SlippedSale.MinimumError | pkg/trade/swap.go:147-158 | for amounts of any size the minimum is the exact share up to the truncation and five parts in 2^53 of the amount |
| SlippedSale.SlippageCanLoseOne | pkg/trade/swap.go:147-158 | 66 percent of 50 gives 32, not 33 |
| SlippedSale.MinimumCanExceed | pkg/trade/swap.go:147-158 | with no slippage at all 2^53 + 3 gives a minimum of 2^53 + 4 |
| BigFloats.RelativeError | pkg/trade/swap.go:147-158 | a rounding errs by at most one part in 2^53 |
| BigFloats.OneRounding | pkg/trade/swap.go:147-158 | rounding to 53 bits, to nearest even, exists for every number, and there is only one |
| BigFloats.RoundsTo | pkg/trade/swap.go:147-158 | a number lies in one binade and has one nearest multiple, so its rounding is determined |
| DecimalSwap.DivRoundPositive | pkg/util/decimal.go:12-15 | eighteen-digit division is the floor plus one from half of the divisor on |
| DecimalSwap.DivRoundNearest | pkg/util/decimal.go:12-15 | it is the nearest multiple of 10^-18, halves up for non-negative operands |
| DecimalSwap.DivRoundOdd | pkg/util/decimal.go:12-15 | negative operands round away from zero as positive ones do |
| DecimalSwap.RoundedOutValue | pkg/trade/swap.go:60-73 | the unrounded output is a whole number of units less a fraction that is zero unless the quotient rounds up |
| DecimalSwap.EstimateValue | pkg/trade/swap.go:59-81 | out is what the floored quotient leaves less one unit exactly when the quotient rounds up; minOut is the floor of (10000 - slip)/10000 of the rounded output |
| SwapAgreement.EstimateBounds | pkg/trade/swap.go:59-81 | minOut <= out <= the output reserve for every slippage, and both are zero from 100 percent on |
| SwapAgreement.ProductKeptIff | pkg/trade/swap.go:59-81 | the constant product is kept if and only if the quotient is whole or rounds up, always below 2*10^18 millionths, and otherwise misses by at most half of 10^-18 of the input reserve |
| SwapAgreement.ProductNotAlwaysKept | pkg/trade/swap.go:59-81 | a pool and an input for which it is not kept |
| SwapAgreement.IntegerIsNeverBelow | pkg/trade/swap.go:52-116 | with equal fees the integer estimate of a buy is at least the decimal one, for all reserves |
| SwapAgreement.EstimatesDifferByRounding | pkg/trade/swap.go:52-116 | without fee the integer estimate exceeds the decimal one by 1 if the constant product rounds up at the eighteenth digit, and by 0 otherwise |
| SwapAgreement.SaleIsBuy | pkg/trade/swap.go:84-146 | before slippage a sale is a buy with the reserves exchanged |
| SwapAgreement.SalesCompare | pkg/trade/swap.go:52-146 | the same comparison for sales: the amount received is never below the decimal estimate, and without fee exceeds it by the rounding |
| SwapAgreement.AmmQuote | pkg/trade/swap.go:52-81 | out and minOut of a buy and of a sale, in terms of the arguments alone |
| TradeWriter.TableNameInjective | model/solmodel/trademodel.go:105-113 | two days share a table if and only if they are the same day |
| TradeWriter.TableNameText | model/solmodel/trademodel.go:105-113 | two table names in full |
| TradeWriter.TradeKeyInjective | model/solmodel/trademodel.go:172-178 | two trades without # in hash and pair share a key if and only if hash, pair and type agree |
| TradeWriter.TradeKeyIdentifiesIff | model/solmodel/trademodel.go:172-178 | a trade shares its key with no other one, whatever that contains, if and only if none of its three parts has a # |
| TradeWriter.TradeKeyText | model/solmodel/trademodel.go:172-178 | a key in full |
| TradeWriter.TradeKeyCollision | model/solmodel/trademodel.go:172-178 | two different trades with a # inside that share a key |
| TradeWriter.FilterInPlace | model/solmodel/trademodel.go:176-184 | filtering into group[:0] while reading group keeps exactly the trades not seen before, each key once, in order |
| TradeWriter.KeepNewDistinct | model/solmodel/trademodel.go:176-183 | no key is kept twice |
| TradeWriter.KeepNewComplete | model/solmodel/trademodel.go:176-183 | every key of the group is seen or kept |
| TradeWriter.KeepNewConcat | model/solmodel/trademodel.go:176-183 | the filter keeps the order |
| TradeWriter.SeenKeysExact | model/solmodel/trademodel.go:161-175 | reading back only rows that share a hash finds exactly the keys of the group that are stored |
| TradeWriter.TableStep | model/solmodel/trademodel.go:150-206 | one table of one call, its read failing or not: rows only appended and only from the group, and all of the group stored unless the table fails |
| TradeWriter.TableRowsIs | model/solmodel/trademodel.go:150-206 | a table that is not ready or whose insertion fails keeps its rows; otherwise the new trades follow them |
| TradeWriter.GroupIsFilter | model/solmodel/trademodel.go:140-145 | a table's group is the call's trades of that day in their order |
| TradeWriter.VerdictIs | model/solmodel/trademodel.go:150-206 | a table lets the call go on if and only if it is ready and nothing of it is new or it takes its rows at once; it ends the call with nil if and only if it is ready, something is new and a deadlock's retry succeeds |
| TradeWriter.AllInsertedStoresAll | model/solmodel/trademodel.go:150-209 | tables that are ready and take their rows at once are all visited, replays and failing reads included, nil is returned and every trade is stored |
| TradeWriter.EarlyNil | model/solmodel/trademodel.go:197-202 | a nil that comes early comes from a table with a trade that was not read back and a deadlock whose retry succeeded |
| TradeWriter.TradeModel.GroupByTable | model/solmodel/trademodel.go:140-145 | the groups are the trades of each table in the order given |
| TradeWriter.TradeModel.InsertGroup | model/solmodel/trademodel.go:152-206 | one table, with its result and its new rows for every way the database can answer; other tables are untouched |
| TradeWriter.TradeModel.BatchInsertTrades | model/solmodel/trademodel.go:135-210 | for some order of the tables, the rows, the returned error and the number of tables visited are those of the step by step account |
| TradeWriter.ProcessEffect | model/solmodel/trademodel.go:135-210 | a call, reads failing or not, only appends, each row in the table of its day, stores every table that it reaches and that does not fail, even when a later one does, and leaves the others alone; with succeeding reads it keeps every table sound |
| TradeWriter.ProcessOutcome | model/solmodel/trademodel.go:150-209 | a call in terms of the tables it found: it reaches a table if and only if all before it let it go on, leaves in each what its own rows, group and answers give, and ends as the last one says |
| TradeWriter.NilMeansStoredIff | model/solmodel/trademodel.go:171-209 | after a nil error, reads failing or not, everything is stored if and only if each table that comes after a deadlock whose retry succeeds held its group already |
| TradeWriter.StoredIffNothingNew | model/solmodel/trademodel.go:171-187 | for clean keys and a successful read a table held its group already if and only if the filter leaves nothing to insert |
| TradeWriter.DeadlockSkipsTables | model/solmodel/trademodel.go:197-202 | a deadlock whose retry succeeds returns nil with the next table not written |
| TradeWriter.DistinctIff | model/solmodel/trademodel.go:170-206 | a table gets no key twice if and only if its read succeeds, nothing is inserted, or nothing of the group is stored yet |
| TradeWriter.CallDistinctIff | model/solmodel/trademodel.go:150-209 | a call leaves no key twice anywhere if and only if that holds for every table it reaches |
| TradeWriter.NoKeyTwiceIff | model/solmodel/trademodel.go:135-210 | over any calls no key is ever stored twice if and only if that holds for every table that every call reaches |
| TradeWriter.FailedReadDuplicates | model/solmodel/trademodel.go:170-175 | after a failed read a replayed trade is stored twice |
| TradeWriter.DeliveredStays | model/solmodel/trademodel.go:135-210 | what a call stored stays stored whatever later calls do and however their reads go |
| TradeWriter.ExactlyOnce | model/solmodel/trademodel.go:135-210 | over any calls whose reads succeed, with replays, partitions, failures and retries: at most one row per key and only in its day's table, exactly one once a call got through that table |
| Calendar.NextDayIsNext | model/solmodel/trademodel.go:89-89 | the second day looked at is the first calendar day after the first |
| Calendar.NextDayCounts | model/solmodel/trademodel.go:89-89 | its number since 1970-01-01 is the next one, through month ends, year ends and leap years |
| Calendar.WeekdaysGoRound | model/solmodel/soltokenaccountmodel.go:208-217 | the weekdays go round, from a Thursday on 1970-01-01 |
| TradeWriter.TradeModel.FindOneByTxHash | model/solmodel/trademodel.go:88-103 | the first row with the hash in the order's day, or else in the next |
| TradeWriter.FirstWithHashFirst | model/solmodel/trademodel.go:94-97 | what is found in a table is its first row with the hash |
| TradeWriter.OwnDayFirst | model/solmodel/trademodel.go:88-97 | a row of the next day is found only when the order's own day has none |
| TradeWriter.FoundIff | model/solmodel/trademodel.go:82-103 | after any calls, reads failing or not, a hash is found if and only if a stored trade with it is of the order's day or the next, and what is found is such a trade |
| TradeWriter.DeliveredIsFound | model/solmodel/trademodel.go:82-103 | a delivered trade's hash is found from an order of its day or of the day before |
| TradeWriter.PreviousDayNotFound | model/solmodel/trademodel.go:82-103 | a single delivered trade is not found from an order of the day after it |
| AccountUpsert.StartOfWeekIsMonday | model/solmodel/soltokenaccountmodel.go:208-217 | the start of the week is the only Monday among the day and the six before it |
| AccountUpsert.RowIsRegister | model/solmodel/soltokenaccountmodel.go:129-136 | the row of a key is the register of its own updates, and exists if and only if there was one |
| AccountUpsert.RegisterMeaning | model/solmodel/soltokenaccountmodel.go:131-135 | the register holds slot and balance of the first update with the greatest slot, and the other columns of the first update |
| AccountUpsert.RegisterConverges | model/solmodel/soltokenaccountmodel.go:131-135 | reordered updates leave the same slot and balance when those with the greatest slot carry one balance |
| AccountUpsert.RegisterConvergesIff | model/solmodel/soltokenaccountmodel.go:131-135 | every order leaves the same slot and balance if and only if the updates with the greatest slot carry one balance |
| AccountUpsert.DedupKeepsLast | model/solmodel/soltokenaccountmodel.go:113-121 | reversing, keeping first occurrences and reversing again keeps the last occurrences in order |
| AccountUpsert.LastOfEachMember | model/solmodel/soltokenaccountmodel.go:113-121 | an account survives if and only if nothing of its key follows it somewhere |
| AccountUpsert.LastOfEachDistinct | model/solmodel/soltokenaccountmodel.go:113-121 | no key survives twice |
| AccountUpsert.ReverseInPlace | model/solmodel/soltokenaccountmodel.go:113-121 | the slice holds its old elements in reverse |
| AccountUpsert.UniqueByKey | model/solmodel/soltokenaccountmodel.go:114-120 | the first occurrence of every key, in order |
| AccountUpsert.Deduplicate | model/solmodel/soltokenaccountmodel.go:113-121 | the last occurrence of every key, in order |
| AccountUpsert.AcquireLock | model/solmodel/soltokenaccountmodel.go:79-102 | the lock is obtained if and only if one of the first 199 tries succeeds |
| AccountUpsert.AccountModel.GroupByWeek | model/solmodel/soltokenaccountmodel.go:72-77 | the groups are the accounts of each weekly table in the order given |
| AccountUpsert.AccountModel.UpsertWeek | model/solmodel/soltokenaccountmodel.go:110-151 | a week's table is upserted with the last occurrences, or left alone when its statement fails; other weeks are untouched |
| AccountUpsert.AccountModel.BatchInsertTokenAccounts | model/solmodel/soltokenaccountmodel.go:58-161 | an error if and only if the lock cannot be had; otherwise every week holds what its own accounts make of it |
| AccountUpsert.AccountModel.BatchInsertAccounts | model/solmodel/solaccountmodel.go:58-77 | the guarded upsert of the whole batch, keyed on the address alone, without deduplication, all or nothing |
| AccountUpsert.WalletRow | model/solmodel/solaccountmodel.go:67-74 | an address has a row if and only if it was reported, with the slot and balance of the first report with its greatest slot |
| AccountUpsert.InsertGuarded | model/solmodel/soltokenaccountmodel.go:129-136 | the rows are upserted one after the other under the slot guard |
| AccountUpsert.UpsertsConverge | model/solmodel/solaccountmodel.go:67-74 | reordered upserts leave the same slot and balance for a key whose greatest slot carries one balance |
| AccountUpsert.GreatestLastStored | model/solmodel/soltokenaccountmodel.go:108-136 | whatever the batches, a key is stored if and only if it was reported, with the greatest slot among the last accounts of its batches and the balance of one of them |
| AccountUpsert.GreatestSlotStoredIff | model/solmodel/soltokenaccountmodel.go:108-136 | the stored slot is the greatest ever reported if and only if every reported slot is reached by the last account of the key in some batch |
| AccountUpsert.GreatestSlotStored | model/solmodel/soltokenaccountmodel.go:108-136 | over batches ordered by slot a key's row carries the greatest slot ever reported, with a balance reported for it |
| AccountUpsert.BatchesConverge | model/solmodel/soltokenaccountmodel.go:108-136 | such batches may arrive in any order |
| AccountUpsert.WeekIsRunOfWritten | model/solmodel/soltokenaccountmodel.go:58-161 | over any calls, timeouts and silently skipped weeks included, a week's table is the run of the batches written to it |
| AccountUpsert.OfWeekIsFilter | model/solmodel/soltokenaccountmodel.go:72-77 | a week's group is the call's accounts of that week in their order |
| AccountUpsert.WeekHoldsGreatest | model/solmodel/soltokenaccountmodel.go:58-161 | end to end: after calls ordered by slot per key, a key has a row in a week if and only if it was reported there by a call that was written, with the greatest slot reported and a balance reported with it |
| AccountUpsert.UnorderedBatchLosesSlot | model/solmodel/soltokenaccountmodel.go:113-121 | a batch with decreasing slots stores the older one |
| FanOutHub.StepSafe | websocket/token_websocket_server.go:419-507 | every step keeps: a client is in the map if and only if its channel is open, channels are closed once and never sent on afterwards, backlogs stay within 256, and channels are first in, first out |
| FanOutHub.RunSafe | websocket/token_websocket_server.go:412-507 | that holds over all runs, although the read loop and any number of overflowing broadcasts schedule removals |
| FanOutHub.ChannelsSafe | websocket/token_websocket_server.go:412-507 | the same in full: open exactly while registered, closed at most once, at most 256 queued, and never closed when a broadcast is about to send |
| FanOutHub.StepDelivers | websocket/token_websocket_server.go:482-507 | every step keeps the delivery invariant |
| FanOutHub.RunDelivers | websocket/token_websocket_server.go:429-452 | over all runs the channel of a client that never changed its subscription, as no kline client can, accepts in publication order a subsequence of the broadcasts for it since it registered, and all of them while it never overflowed |
| FanOutHub.NothingMissed | websocket/token_websocket_server.go:412-507 | between broadcasts such a client that is registered and never overflowed was delivered, or has queued, exactly the broadcasts for it since it registered |
| FanOutHub.PairClientGets | websocket/token_websocket_server.go:482-507 | over all runs a kline client accepts only kline updates of its pair, and while it never overflows exactly those published since it registered, in order |
| FanOutHub.TokenClientGets | websocket/token_websocket_server.go:281-376 | a token client accepts only messages of its chain: status updates, and new tokens whose pump status 2, 4 or other is completing, completed or new and among its categories; without overflow exactly those, in order |
| FanOutHub.FullMeans256 | websocket/token_websocket_server.go:497-505 | a wanted message is taken while fewer than 256 wait, else dropped with a removal scheduled |
| FanOutHub.RunRemovalDue | websocket/token_websocket_server.go:454-507 | over all runs a client whose read loop ended or whose channel was full is gone or due for removal |
| FanOutHub.VisitsAreSends | websocket/token_websocket_server.go:493-506 | the loop of a broadcast is a run of send steps |
| FanOutHub.BroadcastIsRun | websocket/token_websocket_server.go:482-507 | a whole broadcast, in any iteration order of the map, is a run of the transition system |
| FanOutHub.VisitAllOne | websocket/token_websocket_server.go:493-506 | what a broadcast does to one client does not depend on the others or on the order |
| FanOutHub.Server.Register | websocket/token_websocket_server.go:412-421 | registration is the registration step and keeps the hub safe |
| FanOutHub.Server.ReaderStops | websocket/token_websocket_server.go:454-468 | the read loop's deferred removal is scheduled |
| FanOutHub.Server.Resubscribe | websocket/token_websocket_server.go:256-265 | the categories change, the chain and what is queued do not |
| FanOutHub.Server.Remove | websocket/token_websocket_server.go:470-478 | a due removal closes the channel if and only if the client is still registered, and never closes twice |
| FanOutHub.Server.WriterTakes | websocket/token_websocket_server.go:429-440 | the write loop takes the oldest message |
| FanOutHub.Server.Broadcast | websocket/token_websocket_server.go:482-507 | one broadcast under the read lock reaches the state of a run of the transition system, with the effect on each channel stated |
| Migrations.ListingUnique | model/migration/migration.go:37-42 | a set of names has one sorted listing, so the registry's iteration order does not matter |
| SortedSet.TextBeforeMeaning | model/migration/migration.go:42-42 | one name sorts before another if and only if it is a proper prefix of it or smaller at the first difference |
| Migrations.SortedNames | model/migration/migration.go:37-42 | the sorted names are the registered names, each once |
| Migrations.Runner.RunMigrations | model/migration/migration.go:25-63 | a failed set-up changes nothing; otherwise exactly the unrecorded names are attempted in order up to the first failure and successes are recorded; nil is returned if and only if the set-up works and no unrecorded name fails to run or to be recorded, and then all are recorded |
| Migrations.RunAttempts | model/migration/migration.go:44-60 | the attempts of a run are the unrecorded names in order, up to and including the first that fails to run or to be recorded |
| Migrations.RecordedOnce | model/migration/migration.go:25-101 | over any starts, whatever is registered in each and whatever fails: a name is recorded if and only if one of its attempts was, and at most once |
| Migrations.AttemptsCount | model/migration/migration.go:44-60 | in one run a migration succeeds if and only if it is registered, unrecorded and not failing and every unrecorded name before it succeeds and is recorded; its success is recorded unless that fails |
| Migrations.TableIsExecuted | model/migration/migration.go:25-101 | what is recorded after any starts, computed from what the starts register and the database does |
| Migrations.SucceedsAtMostOnceIff | model/migration/migration.go:44-60 | a migration succeeds at most once if and only if no two starts run it, and always when its success can be recorded in every start |
| Migrations.RunsAgainUnrecorded | model/migration/migration.go:52-54 | a start that runs a migration again comes after one that could not record it |
| Migrations.UnrecordedSuccessRepeats | model/migration/migration.go:52-54 | a success that cannot be recorded is repeated by the next start |
| Migrations.StartResumes | model/migration/migration.go:25-63 | one start without recording failures, whatever is registered and recorded: the successes are, in order, a prefix of what was to do, the rest is still to do, and without a failure that is all |
| Migrations.StartsResume | model/migration/migration.go:25-63 | over any such starts with one registry the successes are, in order, a prefix of what was to do at the beginning |
| Migrations.OneRegistryCompletes | model/migration/migration.go:25-63 | with one registry a failure-free last start completes what was to do, in name order across all starts |
| Migrations.FailureFreeStartCompletes | model/migration/migration.go:25-63 | registries may differ from start to start: after a failure-free last start its names are all recorded, a further start attempts nothing, and every migration succeeded exactly once if recorded and never otherwise |
| StatusCodes.UnwrapPrinted | gateway/middleware/response.go:203-222 | what the gateway reads back from a carried code, for every code and message, when the text has no "connect" and no earlier "desc = " |
| StatusCodes.PrintParse | pkg/xcode/xcode.go:20-26 | for every text in front, code and message: code and message come back if and only if either the text has "connect" and the code is 515 without a message, or it has none, no "desc = " comes earlier, the code is not zero and the message does not end in white space |
| StatusCodes.ErrorText | pkg/xcode/xcode.go:20-26 | printed codes in full |
| StatusCodes.NoMark | gateway/middleware/response.go:209-212 | a text without "connect" and without "desc = " comes back as it is with code 0 |
| StatusCodes.ConnectIs515 | gateway/middleware/response.go:204-207 | a text with "connect" anywhere is code 515 without a message |
| StatusCodes.UnwrapMarked | gateway/middleware/response.go:209-221 | after the first mark, a first word with a value other than zero is the code and the rest the message; otherwise the code is 0 and the message the whole trimmed text |
| StatusCodes.TrimSpaceMeaning | gateway/middleware/response.go:213-213 | trimming takes off white space only, and all of it at both ends |
| Strings.WhiteSpace | gateway/middleware/response.go:213-213 | the code points that count as white space |
| StatusCodes.EarlierMarkMisleads | gateway/middleware/response.go:209-219 | with an earlier mark in the text the message never comes back |
| StatusCodes.ConnectHidesCode | gateway/middleware/response.go:204-207 | a message with "connect" in it yields the internal error and no text |
| Strings.IndexOf | gateway/middleware/response.go:204-209 | the first position of a pattern, or -1 if and only if there is none |
| Strings.SplitJoin | dataflow/internal/cache/klineredis.go:43-66 | splitting a joined list gives it back when no part contains the separator |
| Strings.JoinSplit | gateway/middleware/response.go:214-216 | joining a split text gives it back, always |
| Strings.ItoaRoundTrip | gateway/middleware/response.go:215-215 | a printed integer parses to itself |
| Strings.AtoiMeaning | gateway/middleware/response.go:215-215 | a text that is no numeral has the value 0, a numeral its own, cut off at the ends of the 64-bit range |
| Sequences.FilterPositions | dataflow/internal/cache/klineredis.go:138-139 | what a filter keeps are exactly the positions that satisfy it, in their order |

## Left out

- Floating-point rounding: a kline float is a whole number of units of 2^-1074 and sums are exact; NaN and infinities do not occur. The text prints that number of units where the program prints the shortest decimal; Float64ToString and its inverse live in a package that is not part of this model and are taken to be inverse.
- Redis scores are 64-bit floats; candle times above 2^53 would lose digits.
- KlineCache.Cache.FetchKline: the largest slice capacity is that of eight-byte pointers in a 48-bit address space; running out of memory below it is not modelled.
- Redis errors, key expiry and the expiry of a lock that is held longer than its ten seconds: a command on a held lock succeeds.
- KlineCache.Cache.GetKline24Info: Change_24 is the exact quotient, not the decimal one converted to float64.
- GetKlineFluctuation and GetKlineAllFluctuation, the kline fields AvgPrice, MktCap, PumpPoint and TokenAddr that neither the merge nor the text touches, and the log lines of the consumer.
- CalcMinAmountOutByPrice, whose price is a float64.
- DecimalSwap.EstimateValue: fee rates above 100 percent and a zero denominator, where the decimal division panics, are in the function but not in the theorems.
- IntegerSwap.BuyQuote: fee rates above the base rate, for which the net input is negative, are in the function but not in the theorems.
- KlineOrder.ArrivedCandle: when two batches of one group are pushed at the same time, or a push times out, the order of the candles is open; only their totals and extremes are then known.
- IntegerSwap.SplitGain: fees, for which the rounding of each part's fee would enter the bound, are left at zero, and reserves stay below 2^64.
- Concurrent calls of BatchInsertTrades: its lock is commented out, and two calls that read before either writes can both insert a trade.
- CreateInBatches is all or nothing here, as it is inside one transaction.
- GetNativeTokenPrice and the other look-ups of the trade and account models.
- TradeWriter.TradeModel.FindOneByTxHash: the failing queries, and an order by primary key other than the order of insertion.
- AccountUpsert.AccountModel.BatchInsertAccounts: addresses are compared character by character, while the tables' collation ignores case; the block time stamp and the creation date are part of the details.
- The updated_at column of the guarded upserts, statement timeouts, and cancellation of the context, which is replaced by a fresh one before the lock loop.
- AccountUpsert.StartOfWeekIsMonday: a weekly table is named here by the number of its Monday; formatting that day as YYYYMMDD is not modelled.
- The token hub's welcome message, which is sent outside the lock, WebSocket writes, pings and deadlines, and the data race on the categories of a client that subscribes again.
- FanOutHub.RunDelivers: nothing is said about a token client once it has changed its categories. Broadcasts of one hub are serialised, as one subscription goroutine publishes them.
- Migrations.Runner.RunMigrations: a collation under which two different names count as the same record, and duplicates of the unique name column, which an unrecorded name cannot produce.
- StatusCodes.PrintParse: texts are sequences of characters; invalid UTF-8 is not modelled.
- WrapResponse, the response writer and the message tables of the error codes.
- The disruptor ring, tickers, pickers, back-off, configuration, transports, generated code and the user interface.
