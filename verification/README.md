# A model of the exchange core

This project models the core of a cryptocurrency exchange and proves properties of it: the matching engine with its
order book, the fixed-point decimals and their text form, the ledger with order freezing, settlement, deposits and
withdrawals, and three smaller stateful parts: the rate limiter, margin liquidation and withdrawal limits.

`dafny verify dfyconfig.toml` checks everything.

## How it is built

**Matching.** `FlatBook.dfy` is the reference: a book is two plain lists in price-time priority, and matching consumes
a list from the front. `MatchingLaws.dfy` and `BookLaws.dfy` prove what traders rely on: best execution, conservation,
exactness of the fill-or-kill pre-check, order and no crossing. The book the engine really works on is heap-allocated
and changed in place. `OrderQueue.dfy` has the doubly linked queue of one price level, with cached volume and length
and nodes recycled through a pool; `OrderBook.dfy` has the two sorted slices of levels with binary search and the
matching loops; `Engine.dfy` has the shard, its event log and its event loop. Each method is proved to do to the flat
book what the reference says, and to disturb no queue that is not the book's own. `Levels.dfy` relates grouped levels
to the flat list, and `Snapshots.dfy` does so for the price ladder shown to readers.

`CommandLaws.dfy` says outright what a submission and a cancellation do and answer.

**Whole histories.** These speak about every run of commands. `Histories.dfy`: no pair of orders trades twice, and no
settlement key repeats, over all shards. `Provenance.dfy`: every trade and every resting order goes back to submitted
orders. `EventLog.dfy`: the published events alone tell the book. `Lifetime.dfy`: no order trades more than its
quantity, and a limit buy never costs more than was frozen for it. `FreezeBound.dfy`: for which buys the freeze covers
the charge. `Grid.dfy`: when no trade is rounded. `MarketRules.dfy` has the orders a market lets through, and
`RoundingBoundary.dfy` proves over histories of such orders which of them can be rounded. `MarketOrders.dfy`: which
market orders are turned away. `Scenarios.dfy` has the steps from which counterexample histories are built.

**Numbers.** `Decimal.dfy`, `DecimalText.dfy` and `DecimalTextLaws.dfy`: integers scaled by 10^18 with flooring
product and quotient, the printer, and the parser with its carry loop.

**Money.** `Ledger.dfy` has the accounts table and its guarded updates, `Settlement.dfy` the settlement transaction,
`LedgerHistory.dfy` every interleaving of the services, `Deposits.dfy` the deposit steps under any scheduling,
`Validator.dfy` the order checks, `OrderFunds.dfy` what an order freezes and releases, `Placements.dfy` what the order
service answers and stores, failures included, `Releases.dfy` for which requests freeze and releases agree, and
`NegativePrices.dfy` what a negative price does to the ledger.

**The rest.** `RateLimit.dfy`, `Margin.dfy`, `WithdrawalLimits.dfy`.

Go's `big.Int` quotient and remainder are Euclidean, as Dafny's are, so the arithmetic carries over unchanged.

## Assumptions

- Order identifiers are distinct and each order is submitted once, where a statement about histories needs it.
- An order's side is buy or sell (`internal/order/validator.go:80`), it is submitted to the shard of its symbol with
  nothing filled yet, and nobody but the shard's goroutine writes to the book. Readers may look between matching and
  resting, so the invariants are proved there too.
- Time does not go backwards. Reals stand for the floating-point tokens and seconds of the rate limiter.
- A rate-limited request is two atomic steps, the lookup under the limiter's lock and the draw under the bucket's.
  Steps of other requests and the sweeps of a cleanup may fall between them. Draws may fall between the sweeps of one
  cleanup. The model allows lookups there too, though the limiter's lock is held throughout a cleanup
  (`internal/gateway/middleware/ratelimit.go:103-104`), so its laws cover more runs than there are.
- An admitted order is one its market finds well formed; histories of admitted orders do not track who can pay for
  them.
- A database transaction either commits or changes nothing, and each statement may fail.
- User identifiers contain no colon, where withdrawal tracker entries of different users must differ.

## Where code and comments disagree

The model follows the code.

- The decimal package's comment speaks of int64 (`internal/common/decimal/decimal.go:2`); the numbers are unbounded.
- The parser's comment says the extra digit is rounded (`internal/common/decimal/decimal.go:62`). It is truncated
  after eighteen nines: `DecimalTextLaws.HalfUpIff` gives the exact condition and `CarryIsLost` an example.
- `addToBook` is described as resting limit orders (`internal/matching/engine.go:301`). Market and stop orders without
  a time in force rest too, at their own price, usually zero. That breaks neither order nor crossing
  (`BookLaws.PlaceKeepsBook`), but with an unchecked price it breaks exactness (`RoundingBoundary.DefaultBoundary`).
- Freezing is meant to keep concurrent orders from spending the same money (`internal/order/service.go:55`). Among
  buys it covers what the order is charged exactly for limit orders at a non-negative price; a stop-limit buy takes at
  any price and can cost more than any amount, a market buy more than the whole balance that is frozen for it, and for
  a stop-loss nothing is frozen (`FreezeBound.FreezeCoversIff`).
- A market order is said to be rejected when there is no liquidity (`internal/matching/engine.go:246`). It is also
  rejected when the best offer is at price zero, where any market order without a price comes to rest
  (`MarketOrders.MarketTurnedAwayIff`, `ZeroPriceBlocks`).
- Prices are checked against the tick only for limit and stop-limit orders (`internal/order/validator.go:100-105`).
  Any other order that can rest leads to rounded trades exactly when its price is not whole for the quantities that
  are traded (`RoundingBoundary.AdmittedBoundary`, `SoundBoundary`).
- Freezing is described as moving money out of the balance (`internal/order/balance_provider.go:39`). Nothing checks
  the sign of a stop-limit price, so an accepted buy at a negative one gains balance from nothing
  (`NegativePrices.FreezeSignIff`, `NegativePriceCreatesBalance`). `LedgerHistory.HistoryNonNegativeIff` says which
  runs keep the ledger non-negative.
- Cleanup is described as removing stale buckets (`internal/gateway/middleware/ratelimit.go:87`). A bucket removed
  between a request's lookup and its draw is still drawn from, and its key starts over with a full one
  (`RateLimit.StaleIff`, `WindowBound`, `BoundIsReached`).
- Cancelling is described as releasing what was locked (`internal/order/service.go:220`). For a stop-loss buy nothing
  was locked and something is released, and for a market buy the reverse. `Releases.AlwaysReleasedIff` says for which
  requests it is right.
- Margin positions are opened without a look at the sign of quantity and entry price. `Margin.LiquidationPriceBounds`
  says where they are then liquidated, and `Margin.GoesAtAProfitIff` which of them at a profit.

## Model

| member | source | states |
|---|---|---|
| MatchingLaws.MatchTrades | internal/matching/matcher.go:50-94 | Trades happen in list order, each with a different maker; each names taker and maker with their users in their roles, the taker's side and the maker's price, for a positive quantity no larger than what that maker has left, its value rounded down, and never at a price the taker refuses |
| MatchingLaws.MatchSettles | internal/matching/matcher.go:47-103 | Every maker that trades except the last is consumed, and the last is consumed or stays in front with its fill grown by its trade; the pass ends only when the taker is filled, the list is empty or the price is refused |
| MatchingLaws.MatchConserves | internal/matching/matcher.go:81-86 | The depth that leaves the book equals the summed trade quantity and the taker's own fill; MatchSettles says maker by maker how the fills grow |
| MatchingLaws.MatchKeepsSide | internal/matching/matcher.go:89-99 | What is left of a side after a pass is still in strict price-time order with positive remainders |
| MatchingLaws.MatchedQuantity | internal/matching/matcher.go:47-103 | The traded quantity is the minimum of the request and the whole acceptable depth of the book |
| MatchingLaws.GreedyIsBest | internal/matching/matcher.go:50-53 | Over a price-sorted list, no way of taking a quantity from acceptable orders beats taking it from the front |
| MatchingLaws.BestExecution | internal/matching/matcher.go:47-156 | No other allocation of the traded quantity over acceptable resting orders is cheaper for a buyer or brings a seller more, before rounding |
| MatchingLaws.CanFillExact | internal/matching/matcher.go:159-186 | For a positive quantity, the fill-or-kill pre-check holds if and only if the matching pass would fill the order completely |
| MatchingLaws.CanFillNonPositive | internal/matching/matcher.go:159-186 | For a quantity of zero or less, where nothing is left to fill, the pre-check holds exactly when some resting order is acceptable |
| MatchingLaws.FillOrKillIsAtomic | internal/matching/engine.go:239-244 | A fill-or-kill order is either rejected with the book untouched and no trade, or filled completely; the trade-discarding branch of MatchOrder is unreachable |
| CommandLaws.PlaceDecides | internal/matching/engine.go:239-298 | The whole answer to a new order of any type and time in force: rejected, with nothing changed, if and only if it is fill-or-kill and larger than the acceptable depth, or a market order facing nobody or a best price of zero; otherwise filled with the minimum of quantity and acceptable depth, all trades reported, and told as filled, cancelled or open accordingly |
| CommandLaws.PlaceChanges | internal/matching/engine.go:262-298 | An order that is not rejected leaves the makers as its pass leaves them and adds just its own remainder to its side |
| Provenance.EveryTradeIsExplained | internal/matching/matcher.go:70-80 | Over every history each resting order was submitted on its very terms, and each trade is between two submitted orders of opposite sides, under their own identifiers and users, at the price of the one submitted earlier, which the later one accepts |
| FlatBook.FillShrinks | internal/matching/matcher.go:65-99 | Each iteration removes its maker or exhausts the taker, which is why the loop ends |
| FlatBook.Find | internal/matching/orderbook.go:188-211 | The first order with the identifier, with none before it, or the end of the list |
| BookLaws.InsertContents | internal/matching/orderbook.go:129-183 | Inserting keeps exactly the orders there were and adds the new one |
| BookLaws.InsertKeepsSide | internal/matching/orderbook.go:129-183 | Inserting a newcomer with the next sequence number keeps strict price-time order |
| BookLaws.PriorityIsUnique | internal/matching/orderbook.go:129-183 | Price-time priority determines the list: two ordered lists with the same orders are equal |
| BookLaws.RestIsTheSortedSide | internal/matching/orderbook.go:129-183 | A list is the side after resting if and only if it is price-time ordered and holds the old orders plus the newcomer |
| BookLaws.MatchOrderKeepsBook | internal/matching/engine.go:262-264 | Between matching and resting, when readers may look, both sides are ordered and the book is not crossed |
| BookLaws.LeftoverCannotTrade | internal/matching/engine.go:287-293 | Whatever MatchOrder leaves to rest cannot trade with the other side, for every order type and time in force |
| BookLaws.RestKeepsUncrossed | internal/matching/engine.go:302-308 | Resting such a leftover leaves the best bid strictly below the best ask |
| BookLaws.PlaceKeepsBook | internal/matching/engine.go:239-298 | Accepted, rejected, filled or resting, every order leaves both sides ordered and the book not crossed, also when a market remainder rests at its own price |
| BookLaws.CancelKeepsBook | internal/matching/orderbook.go:187-212 | So does every cancellation |
| CommandLaws.CancelTakesOut | internal/matching/orderbook.go:187-212 | Cancelling answers nothing and changes nothing if and only if neither side holds the identifier; otherwise it answers one resting order with it, a bid if there is one, as cancelled, takes exactly that one out, and changes nothing else |
| CommandLaws.LookupFinds | internal/matching/orderbook.go:260-279 | A lookup finds nothing if and only if neither side holds the identifier, and otherwise a resting order with it, a bid if there is one |
| Levels.FillLevelFlat | internal/matching/matcher.go:84-98 | Filling the head of the first level and dropping the level when it empties is filling the head of the flat list |
| Levels.SearchedLevel | internal/matching/orderbook.go:188-211 | Searching level after level finds the first order with the identifier in the flat list, and taking it out of its level takes it out of the list |
| Levels.InsertOrderFlat | internal/matching/orderbook.go:129-155 | Joining an existing level or opening a new one at the searched position is the flat insertion |
| Levels.CoverDecides | internal/matching/matcher.go:164-170 | Adding up whole levels until a refusal or until they suffice decides the same as the eligible depth of the flat list |
| OrderQueues.NodePool.Get | internal/matching/pool.go:10-14 | The node handed out is new or taken from the pool, cleared, and linked into no queue; no queue is disturbed |
| OrderQueues.NodePool.Recycle | internal/matching/orderbook.go:62-66 | Only a node linked into no queue goes back, cleared; no queue is disturbed |
| OrderQueues.OrderQueue.Push | internal/matching/orderbook.go:28-44 | Appends the order to the queue's contents; links, volume and length stay consistent; every other queue is unchanged |
| OrderQueues.OrderQueue.Pop | internal/matching/orderbook.go:47-67 | Removes and returns the first order, or returns nothing when empty; its node goes to the pool and is reachable from no queue |
| OrderQueues.OrderQueue.Remove | internal/matching/orderbook.go:70-95 | Removes the first order with the identifier and nothing else, wherever it stands, or changes nothing |
| OrderQueues.OrderQueue.Unlink | internal/matching/orderbook.go:73-88 | Rewires the neighbours or head and tail around a node; the chain is the old one without it |
| OrderQueues.OrderQueue.FillHead | internal/matching/matcher.go:58-86 | One trade with the front order: the trade, both fills and the cached volume agree |
| OrderQueues.OrderQueue.TradeHead | internal/matching/matcher.go:58-95 | The same, with the filled maker marked, popped and its node recycled |
| OrderQueues.OrderQueue.Cancel | internal/matching/orderbook.go:190-194 | Removes an order and marks it cancelled |
| OrderBooks.OrderBook.MatchBuy | internal/matching/matcher.go:47-103 | The mutating loop over levels, queues and cached volumes yields exactly the trades, taker and asks of the flat specification, and disturbs no queue outside the book |
| OrderBooks.OrderBook.MatchSell | internal/matching/matcher.go:106-156 | The mirror image over the bids |
| OrderBooks.OrderBook.MatchOrder | internal/matching/matcher.go:12-44 | Matching and the time-in-force handling refine the flat book; the order is handed back exactly when something is left |
| OrderBooks.OrderBook.SearchBids | internal/matching/orderbook.go:135-137 | Binary search finds the first level whose price is not above the order's |
| OrderBooks.OrderBook.AddBid | internal/matching/orderbook.go:129-155 | Insertion behind all orders at least as good, by binary search, joining a level or shifting the slice, with the next sequence number |
| OrderBooks.OrderBook.AddAsk | internal/matching/orderbook.go:159-183 | The mirror image over the asks |
| OrderBooks.OrderBook.CancelOrder | internal/matching/orderbook.go:187-212 | Takes the first order with the identifier, bids before asks, out of the book and drops its level when empty; the result is that order marked cancelled, or nothing |
| OrderBooks.OrderBook.CanFillFOK | internal/matching/matcher.go:159-186 | The sum of cached level volumes decides exactly as the flat eligible depth |
| OrderBooks.OrderBook.GetOrder | internal/matching/orderbook.go:260-279 | The order found, and its state, are those of the flat lookup |
| OrderBooks.OrderBook.BestPrices | internal/matching/orderbook.go:227-246 | Best bid and ask are the prices of the first resting orders, or zero |
| Snapshots.LadderTotals | internal/matching/orderbook.go:282-318 | On an ordered side the ladder's prices get strictly worse, and each rung shows exactly the remaining quantity and number of the orders at its price |
| Snapshots.EveryOrderIsShown | internal/matching/orderbook.go:282-318 | Every resting order is counted on some rung |
| Snapshots.Snapshot | internal/matching/orderbook.go:282-318 | The snapshot, read off the cached totals, shows the best rungs of both ladders, as many as the depth asks for |
| Snapshots.SnapshotReads | internal/matching/orderbook.go:282-318 | Its numbers read back: as many best rungs as asked for, or all for a depth of zero or less, each with the exact quantity and number of the orders at its price |
| Engine.RunKeepsBook | internal/matching/engine.go:209-218 | Over every run of place and cancel commands the book stays ordered and is never crossed |
| Engine.Shard.ProcessPlace | internal/matching/engine.go:239-298 | Checks, matching, resting, answer and events of a submitted order are those of the flat book |
| Engine.Shard.Accept | internal/matching/engine.go:262-298 | Match, publish, rest: book, answer and event log refine the flat book, with the book intact at the moment between |
| Engine.Shard.IsTurnedAway | internal/matching/engine.go:239-260 | An order is turned away exactly when it is fill-or-kill and cannot be filled, or a market order and the opposite best price is zero |
| CommandLaws.TurnedAwayIff | internal/matching/engine.go:239-260 | On an ordered book, for a positive quantity, that is when the acceptable depth is below a fill-or-kill quantity, or a market order faces nobody or a best price of zero |
| MarketOrders.MarketTurnedAwayIff | internal/matching/engine.go:246-253 | On an ordered book a market order is turned away if and only if nobody is on offer, or somebody is on offer at price zero and nobody at a better price, or it is fill-or-kill and larger than the whole other side |
| MarketOrders.ZeroPriceBlocks | internal/matching/engine.go:246-253 | Every admitted order at price zero that can rest, such as a market order without a price, does so in some history of admitted orders, after which every market order of the other side is turned away with it on offer |
| Engine.Shard.EmitMatches | internal/matching/engine.go:273-285 | One trade event per match in order, then one event telling whether the order was filled |
| Engine.Shard.ProcessCancel | internal/matching/engine.go:229-237 | A cancellation's effect, answer and event are those of the flat book |
| Engine.Shard.Run | internal/matching/engine.go:209-218 | The event loop over any sequence of commands leaves the book and the event log that the flat book's run prescribes |
| EventLog.LogTellsBook | internal/matching/engine.go:312-357 | Over every history of new orders with distinct identifiers, reading the published events alone tells which orders rest, whose they are, on what terms, and how much of each has been filled |
| EventLog.SubmissionTold | internal/matching/engine.go:239-298 | A submission publishes a rejection and nothing else if and only if the order is rejected; otherwise its trades in order, then whether it was filled, if it traded, then its resting, if it rests |
| EventLog.CancellationTold | internal/matching/engine.go:229-237 | A cancellation is published if and only if an order is taken out, under its identifier and user |
| Histories.TradesAreUnique | internal/matching/matcher.go:50-100 | With every order submitted once and distinct identifiers, no pair of maker and taker trades twice in a whole history |
| Histories.TradeIdInjective | internal/settlement/service.go:41 | The settlement key tells pairs apart when identifiers have one length |
| Histories.TradeIdAmbiguous | internal/settlement/service.go:41 | That condition matters to the format: identifiers of unequal length can share a key. NewOrderID, whose identifiers all have one length (internal/common/idgen.go:13-16), never makes such a pair |
| Histories.TradeIdsAreUnique | internal/settlement/service.go:41 | Over the histories of all symbols' shards together, with identifiers submitted once and of one length, no settlement key repeats, neither within a shard nor between two |
| Lifetime.NoTradeDiscarded | internal/matching/matcher.go:29-35 | On any ordered book an accepted order is reported with all trades of its pass |
| Lifetime.LimitBuyWithinFreeze | internal/order/service.go:62-66 | Over a whole history, the quote quantities of all trades of a limit buy, as taker and later as maker, add up to at most the product frozen for it |
| Lifetime.OwnPriceGapInHistory | internal/matching/matcher.go:67-68 | When all n trades of an order are at one price, rounding keeps at most n - 1 units against that price times the filled quantity |
| Lifetime.HistoryFloored | internal/matching/matcher.go:67-80 | Every trade of every history has a positive quantity and the floored product as quote quantity |
| FreezeBound.FreezeCoversIff | internal/order/service.go:62-72 | What is frozen for an accepted buy of any type, the product for limit and stop-limit, the balance for market, nothing for stop-loss, covers what it is charged in every history of admitted orders if and only if it is a limit order with a non-negative price |
| FreezeBound.TakesAnyPrice | internal/matching/matcher.go:46-53 | Every admitted buy of any other type, whatever its time in force, is charged more than any given amount in some history of two admitted orders |
| Lifetime.TradedWithinQuantity | internal/order/service.go:73-74 | Over a whole history an order, on either side and of any type, trades at most its quantity, so a sell never delivers more than is frozen for it; while it rests, the book holds exactly what it has traded |
| Grid.WholeProduct | internal/common/decimal/decimal.go:119-123 | At a price that is whole for the step, every step multiple is multiplied without rounding |
| Grid.TickIsWhole | internal/order/validator.go:101-111 | Every tick multiple is such a price when the scale divides tick times step |
| Grid.ExactIff | internal/matching/matcher.go:68 | A trade is charged the exact product if and only if the scale divides it |
| Grid.NoRoundingLoss | internal/matching/matcher.go:67-68 | In a history of on-step orders all resting quantities are step multiples, and every trade made by one of the given orders is exact when these cannot rest or have whole prices |
| RoundingBoundary.SomeTradeIsRounded | internal/matching/engine.go:287-293 | In every market, every admitted order that can rest and has no whole price makes a rounded trade in some history of admitted orders, whatever its quantity, the minimum included |
| RoundingBoundary.MakeOffer | internal/matching/matcher.go:81-89 | Partial fills can leave any multiple of the step on offer, however far below the minimum quantity, by orders the market admits |
| Validator.OrderValidator.Validate | internal/order/validator.go:69-140 | The verdict is the first failed check in order, or acceptance; the default time in force is written exactly when market, side, type and stop price are good |
| Validator.VerdictSpelledOut | internal/order/validator.go:69-193 | The verdict in terms of the request's texts and numbers, reason by reason and in order, with the quote currency paying for buys and the base currency for sells |
| Validator.GivesDefaultIff | internal/order/validator.go:86-93 | The default time in force is written if and only if none of the checks before it is the one that fails |
| Validator.OpenMeansGoodTillCancelled | internal/order/validator.go:86-93 | A limit or stop-limit request that leaves its time in force open becomes good till cancelled; a named one, and that of other types, is kept |
| Validator.AcceptedIff | internal/order/validator.go:69-140 | A request is accepted if and only if its market is known, it is well formed for it (status, side, type, precision, range, notional), its funds suffice and the limiter allows it |
| Validator.OrderValidator.ValidateOrderType | internal/order/validator.go:142-154 | Unknown types are refused; stop types need a stop price |
| Validator.OrderValidator.CheckBalance | internal/order/validator.go:156-193 | Unreadable and insufficient balances are told apart; a market buy needs any balance, another buy the product, a sell the quantity |
| Validator.OrderValidator.constructor | internal/order/validator.go:43-53 | Markets by symbol, a later one replacing an earlier one |
| Validator.LastMarketHolds | internal/order/validator.go:43-53 | A symbol stands for the last market that has it, and for none if no market has |
| RoundingBoundary.AdmittedBoundary | internal/order/validator.go:100-119 | The exact boundary over histories of admitted orders, for every market: an order never makes a rounded trade if and only if it cannot rest or its price is whole for the grain, which is the step, or the one admissible quantity when the market admits only one |
| RoundingBoundary.SoundBoundary | internal/order/validator.go:100-105 | Where prices on the tick are whole that leaves market orders of more than one step and stop-loss orders that are neither immediate-or-cancel nor fill-or-kill and name a price that is not whole, market orders only if the market admits two quantities |
| MarketRules.AcceptedIsAdmitted | internal/order/service.go:82-99 | The order built from an accepted request is one the market admits, which is what the boundary speaks about |
| MarketRules.ValidatedHistoryIsExact | internal/order/validator.go:100-111 | Histories of admitted orders on the safe side of that boundary are never rounded and rest on the grain |
| MarketRules.LowestIsLeast | internal/order/validator.go:108-119 | The quantities a market admits start at the least step multiple in its range |
| RoundingBoundary.DefaultBoundary | cmd/api-gateway/main.go:161-175 | On the gateway's default market exactly the market and stop-loss orders that may rest at a price not whole for the step can be rounded, whatever their quantity |
| MarketRules.DefaultMarketIsSound | cmd/api-gateway/main.go:161-175 | The default market's tick times step is a multiple of the scale, so its checked prices are whole, and it admits more than one quantity |
| Decimal.MulGalois | internal/common/decimal/decimal.go:119-123 | A number is at most the product if and only if its exact value is at most the exact product |
| Decimal.MulIsFloor | internal/common/decimal/decimal.go:119-123 | The product is the floor of the exact one |
| Decimal.MulMinusOne | internal/common/decimal/decimal.go:119-123 | Multiplying by minus one negates exactly |
| Decimal.MulSplit | internal/common/decimal/decimal.go:119-123 | Cutting a product in two loses at most one unit and never gains |
| Decimal.DivIsFloor | internal/common/decimal/decimal.go:126-133 | The quotient by a positive divisor is the floor of the exact one |
| Decimal.DivRemainder | internal/common/decimal/decimal.go:126-133 | By any divisor but zero the remainder is never negative, so a negative divisor rounds the quotient up |
| Decimal.ModIsRemainder | internal/common/decimal/decimal.go:136-142 | The remainder by any divisor but zero lies between zero and its size, and by zero it is zero |
| DecimalText.RoundUp | internal/common/decimal/decimal.go:65-76 | The carry loop over the bytes adds one to the last digit with carry, and leaves a run of nines as it was |
| DecimalText.NewFromString | internal/common/decimal/decimal.go:34-96 | The parser accepts, refuses and yields exactly what the reading function says |
| DecimalTextLaws.RoundTrip | internal/common/decimal/decimal.go:185-204 | Reading a printed number gives the number back, for every integer value |
| DecimalTextLaws.PrintIsCanonical | internal/common/decimal/decimal.go:185-204 | A printed number has no superfluous zeros and no sign on zero |
| DecimalTextLaws.IncrementedValue | internal/common/decimal/decimal.go:67-75 | Carrying adds exactly one unit, except to a run of nines |
| DecimalTextLaws.PlainRounding | internal/common/decimal/decimal.go:34-96 | Any digits with an optional sign, plus or minus, and fraction are read exactly up to eighteen fraction digits, otherwise half up in magnitude unless the carry is lost |
| DecimalTextLaws.HalfUpIff | internal/common/decimal/decimal.go:61-77 | Half-up rounding is met if and only if the kept digits are not all nine with five or more following |
| DecimalTextLaws.CarryIsLost | internal/common/decimal/decimal.go:61-77 | A concrete number that is truncated instead of rounded up |
| DecimalTextLaws.PlainErrorBelowOne | internal/common/decimal/decimal.go:34-96 | In every case the error is below one unit |
| DecimalTextLaws.TrimmedEnds | internal/common/decimal/decimal.go:35 | Blanks, tabs and line ends are taken off both ends of a text and nothing else is |
| DecimalTextLaws.ParseIgnoresBlanks | internal/common/decimal/decimal.go:35 | So blanks around a text do not change what is read |
| DecimalTextLaws.BlankIsZero | internal/common/decimal/decimal.go:36-38 | A text of blanks is zero |
| DecimalTextLaws.ReadableIff | internal/common/decimal/decimal.go:40-96 | Any other text is read if and only if, after an optional minus, it is a numeral, or two with one dot between them; of a fraction of more than eighteen characters only the first eighteen must be digits |
| Ledger.AccountsTable.FreezeBalance | internal/order/balance_provider.go:40-53 | Moves the amount from balance to frozen balance when a row has it; otherwise refuses and changes nothing |
| Ledger.AccountsTable.UnfreezeBalance | internal/order/balance_provider.go:56-63 | Moves the amount back when that much is frozen, silently nothing otherwise |
| Ledger.AccountsTable.RequestWithdrawal | internal/wallet/service.go:229-291 | Debits amount and fee, or changes nothing |
| Ledger.TotalWrite | internal/settlement/service.go:112-144 | Writing one row changes the currency's total by that row's change |
| Ledger.MovesIff | internal/order/balance_provider.go:40-63 | Freezing, releasing and withdrawing something take place if and only if the account exists and would not be overdrawn |
| Settlement.Service.SettleTrade | internal/settlement/service.go:34-92 | Succeeds exactly when no statement fails and no update would go negative; then all five updates take effect, otherwise none |
| Settlement.Service.OnTradeExecuted | internal/settlement/service.go:199-222 | Reads the payload's numbers and settles that trade |
| Settlement.SymbolNames | internal/common/types.go:94-112 | Every symbol is read as the one pair of currencies it names: base before the first dash and quote behind it, or the whole symbol and nothing |
| Settlement.SettlementMoves | internal/settlement/service.go:46-87 | For a symbol naming base and quote, the buyer gets the base quantity for quote quantity plus its fee, the seller quote quantity less its fee, the fee account both fees, and nothing else moves, also when parties coincide |
| Settlement.PostAllIff | internal/settlement/service.go:128-131 | The five updates go through if and only if none of them overdraws its account, an empty balance included |
| Settlement.SettlementReleases | internal/settlement/service.go:133-137 | Between two users each frozen balance falls by exactly what the balance falls, down to zero, and what is received is not frozen |
| Settlement.PostingsBalance | internal/settlement/service.go:46-87 | The five updates cancel out in every currency |
| Settlement.SettlementConserves | internal/settlement/service.go:34-92 | Settling, successful or not, changes no currency's total balance |
| Settlement.PayloadRoundTrip | internal/settlement/service.go:205-219 | The payload the engine emits is read back as the very trade |
| Settlement.PayloadReads | internal/settlement/service.go:205-219 | Whatever the payload, numbers that cannot be read count as zero and all else is taken over |
| Settlement.EngineTradeSettles | internal/matching/engine.go:345-357 | Settling the emitted payload has the effect of settling the trade and conserves money |
| Settlement.FeesBounded | internal/settlement/fees.go:45-52 | For rates from zero to one each fee is between zero and the quote quantity |
| LedgerHistory.ApplyKeepsIff | internal/order/balance_provider.go:40-63 | One step keeps every balance non-negative if and only if it is safe: a freeze leaves the frozen balance, a release or deposit the balance, at zero or more; settlements and withdrawals always do |
| LedgerHistory.HistoryNonNegativeIff | internal/order/balance_provider.go:40-63 | Over any interleaving of the services all balances stay non-negative throughout if and only if every step is safe when it is taken, whatever the signs of the amounts |
| NegativePrices.FreezeSignIff | internal/order/validator.go:100-126 | What an accepted request freezes is non-negative if and only if the request is no stop-limit buy at a negative price |
| NegativePrices.NegativePriceCreatesBalance | internal/order/service.go:63-65 | Every well-formed stop-limit buy at a negative price is accepted on any row, its freeze adds to the balance what it takes from the frozen balance, and the ledger stays non-negative if and only if that much was frozen |
| NegativePrices.BalanceFromNothing | internal/order/validator.go:119-126 | On the default market a row of zeros gets a balance of one hundred that way |
| LedgerHistory.HistoryNonNegative | internal/settlement/service.go:112-144 | So with non-negative amounts no interleaving of freezes, releases, settlements, deposits and withdrawals makes a balance or frozen balance negative, and no more is frozen than freezing moved there on balance |
| LedgerHistory.HistoryConserves | internal/settlement/service.go:112-144 | In each currency, balances plus net moves to frozen minus deposits plus withdrawals with fees never change |
| Deposits.CreditedAtMostOnce | internal/wallet/service.go:184-194 | However deliveries are duplicated, reordered and interleaved step by step, each deposit is credited at most once |
| Deposits.CreditedOnceConfirmed | internal/wallet/service.go:146-174 | After a delivery with enough confirmations finished without a database error, its deposit has been credited exactly once |
| Deposits.CreditsAreRightful | internal/wallet/service.go:146-174 | Every credit is for a delivered transfer with enough confirmations, in its amount and currency, to the owner of its address |
| Deposits.OnlyDeservedIsCredited | internal/wallet/service.go:169-173 | So a deposit that no delivery confirms, for want of confirmations or of an owner, is never credited, in any interleaving |
| Deposits.CallProgresses | internal/wallet/service.go:146-174 | A delivery whose statements all succeed is through after three steps, whatever the others do, and in between exactly where its address and confirmations put it |
| Deposits.CreditedIffDeserved | internal/wallet/service.go:146-226 | When all deliveries are processed to their end without database errors, in any interleaving, exactly the deposits that some delivery confirms are credited, each exactly once |
| Deposits.CreditsArePaid | internal/wallet/service.go:196-205 | Every account grows by exactly the credits made to it |
| Deposits.WalletService.LookupUser | internal/wallet/service.go:147-154 | The owner of the address on the chain, or none |
| Deposits.WalletService.InsertDeposit | internal/wallet/service.go:156-167 | Records a deposit as pending unless it is known |
| Deposits.WalletService.ConfirmDeposit | internal/wallet/service.go:177-226 | Flips a pending deposit and credits the user in one transaction, or changes nothing |
| OrderFunds.StoredRoundTrip | internal/order/service.go:113-116 | A number survives being printed, stored in its column and read back |
| OrderFunds.EngineFill | internal/order/service.go:135-155 | For every outcome the filled quantity the service computes from the engine's answer is what the book filled, and it is complete exactly when nothing is handed back |
| Placements.StatusTold | internal/order/service.go:135-155 | The status told to the user for every outcome; it is final if and only if the order is not resting in the book, so exactly the resting orders can be cancelled |
| OrderFunds.RestedFill | internal/order/service.go:135-155 | For an order that rests, the filled quantity the service computes is the one the book holds, below the order's quantity |
| OrderFunds.FreezeAndReleaseBalance | internal/order/service.go:236-286 | The comparison at a given fill, for the fill the book made, with the engine's own answer and the release read back from the stored text; Releases.AlwaysReleasedIff has the condition on the request alone |
| OrderFunds.ReleasedExactly | internal/order/service.go:159-172 | At a given fill the releases on placing and on cancelling add up to the freeze if and only if the stated comparison of costs holds, for every side, type and sign of the price |
| Releases.EveryFill | internal/order/service.go:258-285 | They do so at every fill with which the order can rest if and only if a condition on the request and the frozen amount alone holds |
| Releases.AlwaysReleasedIff | internal/order/service.go:236-286 | Over every ordered book in which the order comes to rest, with the engine's own answer and the stored text, freeze and releases agree if and only if the order can never rest or the request is a sell, a priced buy at a non-negative price, of one unit or at a price that rounds all costs alike, a stop-loss of product zero, or a market buy that froze nothing or the one cost all its fills have |
| OrderFunds.AccountsRestored | internal/order/service.go:76-80 | For a sell or priced buy at a non-negative price, freezing and the two releases leave the accounts as they were when nobody else moves them |
| OrderFunds.EntryRelease | internal/order/service.go:159-168 | A sell or priced buy that is over on entry, turned away, filled or cancelled, has all released except, after a partial fill, the freeze of what it did not fill |
| OrderFunds.StopLossReleasesUnfrozen | internal/order/service.go:258-268 | A stop-loss buy freezes nothing, but its cancellation releases price times quantity |
| OrderFunds.MarketBuyStaysFrozen | internal/order/service.go:66-71 | A market buy that rests at price zero keeps its whole freeze after cancellation |
| OrderFunds.AcceptedCanFreeze | internal/order/validator.go:156-193 | An accepted request finds the amount to freeze in its account unless somebody else moved it; NegativePrices.FreezeSignIff says when that amount is non-negative |
| OrderFunds.OrderService.PlaceOrder | internal/order/service.go:50-191 | Accounts, orders table and answer after validation, freezing, persisting, matching and releasing, for every pattern of database errors and any engine answer; which failure or success is answered is part of it |
| OrderFunds.OrderService.OnlyThePayerChanges | internal/order/service.go:57-80 | Placing touches no account but the payer's: a buyer's in the quote currency, a seller's in the base currency |
| OrderFunds.OrderService.Execute | internal/order/service.go:54-172 | The part after validation: everything frozen is released again when the order does not reach the engine, and the answer is freeze failure, persist failure, engine failure or submission by the first that applies |
| Placements.AnswerTold | internal/order/service.go:76-133 | The answer names the first failure, or what the engine made of the order |
| Placements.FailureRestores | internal/order/service.go:101-133 | A request that does not reach the engine, and whose release does not fail, leaves all accounts as they were |
| Placements.SuccessFreezes | internal/order/service.go:157-168 | One that does leaves frozen just its freeze less what its fill or its end released |
| Placements.RowTold | internal/order/service.go:101-172 | Exactly a stored order has a row, with the request's own terms, and the status and fill that were answered unless the update failed; no other row changes |
| OrderFunds.OrderService.CancelOrder | internal/order/service.go:194-233 | Who may cancel what, and what is released and stored then |
| OrderFunds.OrderService.CancelTouchesThePayer | internal/order/service.go:256-268 | Nor does cancelling |
| OrderFunds.OrderService.UnfreezeCancelOrder | internal/order/service.go:236-286 | The release computed from the stored text; nothing for unreadable text or an unknown market |
| OrderFunds.UnreadableReleasesNothing | internal/order/service.go:245-256 | A row with a number that cannot be read releases nothing |
| RateLimit.TokenBucket.Allow | internal/gateway/middleware/ratelimit.go:30-47 | Refill up to the capacity, then take one token if there is one |
| RateLimit.RateLimiter.AllowIP | internal/gateway/middleware/ratelimit.go:67-69 | Serves the address's own bucket and no other |
| RateLimit.RateLimiter.AllowUser | internal/gateway/middleware/ratelimit.go:72-74 | Serves the user's own bucket and no other |
| RateLimit.RateLimiter.Find | internal/gateway/middleware/ratelimit.go:77-83 | Under the limiter's lock: finds the key's bucket or creates a full one, and remembers which bucket the request holds |
| RateLimit.RateLimiter.DrawFrom | internal/gateway/middleware/ratelimit.go:84 | After the lock is released: draws from the bucket found before, whatever has happened to the map since |
| RateLimit.KeysDiffer | internal/gateway/middleware/ratelimit.go:67-74 | Distinct callers, addresses or users, have distinct keys |
| RateLimit.CallersLimits | internal/gateway/middleware/ratelimit.go:67-74 | Addresses are limited at the one rate and users at the other, with twice the rate as capacity |
| RateLimit.RateLimiter.Allow | internal/gateway/middleware/ratelimit.go:76-85 | Lookup and draw in sequence, the two steps the source takes under different locks; the key is served by its own bucket and no other |
| RateLimit.RateLimiter.Cleanup | internal/gateway/middleware/ratelimit.go:102-114 | Deletes exactly the buckets last used before the cutoff |
| RateLimit.SweptIff | internal/gateway/middleware/ratelimit.go:107-113 | What a cleanup leaves in the map: exactly the buckets used at the cutoff or later, unchanged |
| RateLimit.CleanupIsSweeps | internal/gateway/middleware/ratelimit.go:107-113 | A cleanup is one sweep for each key, in any order; draws of other requests may fall between them, and the laws allow lookups there as well, which the limiter's lock rules out |
| RateLimit.StepLevel | internal/gateway/middleware/ratelimit.go:30-47 | A draw from a bucket that is still the key's own is allowed if and only if the key's level is at least one, and costs one token of that key only; lookups, sweeps and stale draws change no level |
| RateLimit.EvictionIsUnobservable | internal/gateway/middleware/ratelimit.go:76-114 | With time to live times rate at least the capacity, and no bucket evicted between a request's lookup and its draw, arbitrary cleanups change no answer |
| RateLimit.StaleDrawIsSeen | internal/gateway/middleware/ratelimit.go:76-114 | The first draw from a bucket evicted since its lookup makes the limiter answer differently from one that never forgets, at once or after some further requests of that key |
| RateLimit.StaleIff | internal/gateway/middleware/ratelimit.go:76-114 | So, for a key that can be allowed anything at all, all answers from a draw on are unchanged if and only if no eviction fell between that request's two steps |
| RateLimit.NothingBelowOne | internal/gateway/middleware/ratelimit.go:41-46 | A key whose capacity is below one token is never allowed anything, stale or not |
| RateLimit.EarlyEvictionIsSeen | internal/gateway/middleware/ratelimit.go:102-114 | For every rate of at least one half and every time to live below two seconds some run without evictions between two steps is answered differently |
| RateLimit.TtlIff | internal/gateway/middleware/ratelimit.go:102-114 | For such a rate, cleanups are unobservable if and only if the time to live is at least two seconds, the time an empty bucket takes to fill |
| RateLimit.WindowBound | internal/gateway/middleware/ratelimit.go:30-47 | In any window of a given length a key is allowed at most capacity plus rate times length requests, and one more for each draw whose bucket was evicted after its lookup |
| RateLimit.BoundIsReached | internal/gateway/middleware/ratelimit.go:76-114 | That is reached, for every whole capacity and every sufficient time to live: in one instant capacity plus one requests are allowed when one draw is stale |
| RateLimit.DeployedIsGenerous | cmd/api-gateway/main.go:123-124 | Five minutes satisfy the condition for every non-negative rate |
| Margin.DistanceAtMost | internal/trading/margin/engine.go:163-171 | The nested roundings never exceed entry price times maintenance ratio, rounded down |
| Margin.DistanceAtLeast | internal/trading/margin/engine.go:163-171 | With a negative margin, which a negative quantity gives, they go the other way: the distance is never less |
| Margin.Shortfall | internal/trading/margin/engine.go:163-171 | And with s the shortfall against it, (s - 1) times the margin is below entry price plus one |
| Margin.LargeMarginIsSharp | internal/trading/margin/engine.go:163-171 | So a margin of at least entry price plus one loses at most one unit |
| Margin.MarginIsShare | internal/trading/margin/engine.go:164 | The margin times the leverage is the position's value rounded down |
| Margin.LiquidationPriceBounds | internal/trading/margin/engine.go:163-171 | For every entry price and quantity: at a non-negative entry price a long is liquidated at or below it, a short at or above, within the maintenance part for a non-negative quantity and beyond it for a negative one; at a negative entry price the sides change over and the distance is bounded from both sides around entry price times ratio |
| Margin.NegativeEntryDistance | internal/trading/margin/engine.go:163-171 | Those bounds: the distance is within two units of entry price times ratio, plus the scale or the entry price divided by the margin |
| Margin.LiquidatedOnlyAtALoss | internal/trading/margin/engine.go:173-178 | Opened at a non-negative entry price a position goes only at a loss, by the time the loss reaches the maintenance part, or not before for a negative quantity; opened at a negative one it goes at every loss |
| Margin.GoesAtAProfitIff | internal/trading/margin/engine.go:173-178 | A position is liquidated at a profit at some mark price if and only if its entry price is negative and its maintenance part is not rounded away |
| Margin.SplitMerges | internal/trading/margin/engine.go:101-118 | Within a user, the liquidated and the kept merged again are the old positions: none lost, doubled or reordered |
| Margin.SplitByHit | internal/trading/margin/engine.go:101-118 | Exactly the positions of the symbol whose liquidation price the mark price has reached are liquidated, and exactly the others kept |
| Margin.SecondScanOfAll | internal/trading/margin/engine.go:90-121 | An immediate second scan, in any order of users, liquidates nobody and changes nothing |
| Margin.MarginEngine.OpenPosition | internal/trading/margin/engine.go:56-87 | Leverage outside 1 to 125 is refused; otherwise the position is appended with the liquidation price of its own terms |
| Margin.MarginEngine.CheckLiquidations | internal/trading/margin/engine.go:90-121 | Visits every user once, keeps and liquidates as specified; without a mark price nothing happens |
| Margin.MarginEngine.UpdateMarkPrice | internal/trading/margin/engine.go:124-128 | Sets one symbol's mark price |
| WithdrawalLimits.WithdrawalLimiter.Validate | internal/risk/withdrawal_limits.go:51-97 | Resets the tracker when due, checks minimum, single and daily limit, and records exactly what it accepts |
| WithdrawalLimits.WithdrawalLimiter.constructor | internal/risk/withdrawal_limits.go:30-48 | The built-in limits, an empty tracker and the current time |
| WithdrawalLimits.TrackerIsSum | internal/risk/withdrawal_limits.go:55-94 | Over any history a tracker entry is the sum accepted for its user and currency since the last reset |
| WithdrawalLimits.AcceptedIff | internal/risk/withdrawal_limits.go:51-97 | A request of a history is accepted if and only if its amount keeps to the minimum and the single limit and, with the sum accepted since the last reset, to the daily limit, as far as there are such limits |
| WithdrawalLimits.NeverOverDaily | internal/risk/withdrawal_limits.go:81-94 | For a limited currency no entry ever exceeds the daily limit |
| WithdrawalLimits.RollingBound | internal/risk/withdrawal_limits.go:51-97 | In any twenty-four hours, wherever they start, a user gets at most twice the daily limit accepted |
| WithdrawalLimits.BoundIsReached | internal/risk/withdrawal_limits.go:30-58 | With the built-in limits, for either currency, eight withdrawals of the single limit within a nanosecond around a reset reach twice the daily limit, 400 ETH or 4,000,000 USDT |

## Left out

- HTTP, gRPC, Kafka, Redis, ClickHouse, migrations, logging and metrics: plumbing.
- Locks, channels and contexts, except for the rate limiter's and the deposit steps' interleavings: a shard takes its commands one at a time.
- The engine's map of shards: shards share no book; only the settlement keys are compared across them.
- The order pointer handed back by the engine stays shared with the shard while the order service reads it; the model reads it at the moment of the answer.
- Timestamps of orders, trades and events, event identifiers, and latencies: no decision reads them.
- StopPrice in the book and stop triggering: the book never reads it, so stop orders match at once and at any price, as the code does.
- Wrap-around of the 64-bit sequence number.
- Running without an event bus, a database or a balance provider: those branches skip what is modelled here.
- Pooling of match results: the pool is never used by the matching loops.
- Spread, Size and Dump of the book: easy readers.
- Text with multi-byte characters, the Unicode spaces that trimming also removes, an inner sign or junk after eighteen fraction digits, and reading decimals from floats.
- NUMERIC(36,18) overflow: columns hold every number; they hand text back with eighteen fraction digits.
- The trade insert of a settlement puts its conflict clause before the values, which is no valid statement; the model lets the insert succeed or fail and claims no idempotence of settlement.
- The audit rows, which are written on a best-effort basis, and the row versions, which cannot conflict under the row lock.
- Conservation of balance plus frozen balance through settlement: negative deltas reduce both columns, so only the weaker invariant holds.
- Release of every frozen amount once an order is final: a partly filled immediate-or-cancel order keeps the rest, and later maker fills are not written to the orders table. OrderFunds.EntryRelease gives the amount kept on entry.
- OrderFunds.OrderService.PlaceOrder: the engine's answer is a parameter, because the shard is modelled on its own; OrderFunds.RestedFill and OrderFunds.FreezeAndReleaseBalance put the flat book's answer in.
- The sender and block number of a deposit: no decision reads them.
- Address generation, key derivation, the hot or cold wallet choice and the withdrawal record.
- Funding payments: no code sets a funding rate, so the step is never reached; positions are values because nothing else changes them.
- Floating-point rounding in the rate limiter and in the maintenance ratio, which is a parameter.
- OrderFunds.AccountsRestored: a priced buy at a negative price is not covered; Releases.AlwaysReleasedIff says when its releases match its freeze.
- RateLimit.StaleIff: says nothing about draws after an earlier stale one; RateLimit.WindowBound counts them.
- The circuit breaker, the order state machine, blacklist, AML, KYC and multisig: easy members only.
- The rate limiter an order validation may consult is a parameter.
