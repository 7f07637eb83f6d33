/** Checking an order request before anything is frozen or matched, and what acceptance buys later. */
module Validator {
  import opened Types
  import opened Ledger
  import Decimal

  datatype MarketConfig = MarketConfig(
    symbol: string, base: string, quote: string, tick: int, step: int, minQty: int, maxQty: int, minNotional: int,
      status: string)

  /** A request's fields at one moment; side, type and time in force are still text. */
  datatype RequestView = RequestView(
    user: string, symbol: string, side: string, typ: string, tif: string, price: int, stopPrice: int, quantity: int)

  datatype Reason =
    | MarketNotAvailable | InvalidSide | InvalidOrderType | StopPriceRequired | InvalidTimeInForce
    | InvalidPricePrecision | InvalidQtyPrecision | OrderSizeOutOfRange
    | BalanceUnavailable | NotEnoughBalance | RateLimitExceeded

  datatype Verdict = Accepted | Refused(reason: Reason)

  // ---------- The text of a request ----------

  predicate IsSide(s: string) {
    s == "buy" || s == "sell"
  }

  function SideOf(s: string): Side {
    if s == "buy" then Buy else Sell
  }

  /** The type a text names, if any. */
  function TypeOf(s: string): Option<OrderType> {
    if s == "market" then Some(Market)
    else if s == "limit" then Some(Limit)
    else if s == "stop_loss" then Some(StopLoss)
    else if s == "stop_limit" then Some(StopLimit)
    else None
  }

  /** Every other text is handled like GTC by the engine. */
  function TifOf(s: string): TimeInForce {
    if s == "GTC" then GTC else if s == "IOC" then IOC else if s == "FOK" then FOK else Unset
  }

  /** Limit and stop-limit orders name a price. */
  predicate IsPriced(typ: string) {
    typ == "limit" || typ == "stop_limit"
  }

  predicate NeedsStopPrice(typ: string) {
    typ == "stop_loss" || typ == "stop_limit"
  }

  /** The order the engine is given. */
  function OrderFor(r: RequestView, id: string): OrderView
    requires TypeOf(r.typ).Some?
  {
    OrderView(id, r.user, SideOf(r.side), TypeOf(r.typ).value, TifOf(r.tif), r.price, r.quantity, 0, Created, 0)
  }

  // ---------- The checks ----------

  /** A multiple of the step; a step of zero admits everything. */
  predicate ValidPrecision(value: int, step: int) {
    step == 0 || Decimal.Mod(value, step) == 0
  }

  function DefaultTif(r: RequestView): string {
    if IsPriced(r.typ) && r.tif == "" then "GTC" else r.tif
  }

  /** A priced request that leaves its time in force open is good till cancelled; what is named is not touched. */
  lemma OpenMeansGoodTillCancelled(r: RequestView, id: string)
    requires TypeOf(r.typ).Some?
    ensures var o := OrderFor(r.(tif := DefaultTif(r)), id);
      && (r.typ in {"limit", "stop_limit"} && r.tif == "" ==> o.tif == GTC)
      && (r.typ !in {"limit", "stop_limit"} || r.tif != "" ==> o == OrderFor(r, id))
      && (r.tif == "GTC" ==> o.tif == GTC) && (r.tif == "IOC" ==> o.tif == IOC) && (r.tif == "FOK" ==> o.tif == FOK)
  {
  }

  lemma NothingDefaulted(r: RequestView)
    ensures !IsPriced(r.typ) ==> DefaultTif(r) == r.tif
  {
  }

  /** A balance that can be read. */
  function BalanceOf(a: Accounts, user: string, currency: string, dbError: bool): Option<int> {
    if dbError || Key(user, currency) !in a then None else Some(a[Key(user, currency)].balance)
  }

  function PayCurrency(side: string, m: MarketConfig): string {
    if SideOf(side) == Buy then m.quote else m.base
  }

  /** Enough to pay with: for a market buy, anything but zero. */
  predicate Affordable(side: string, typ: string, price: int, quantity: int, balance: int) {
    if SideOf(side) == Sell then balance >= quantity
    else if typ == "market" then balance != 0
    else balance >= Decimal.Mul(price, quantity)
  }

  datatype Check = Check(passes: bool, reason: Reason)

  /** Everything a request is judged by. */
  datatype Facts = Facts(r: RequestView, m: MarketConfig, balance: Option<int>, limiterAllows: bool)

  const CHECKS: nat := 12

  /** The n-th check, in the order they are made. */
  function CheckAt(f: Facts, n: nat): Check {
    var r, m := f.r, f.m;
    if n == 0 then Check(m.status == "active", MarketNotAvailable)
    else if n == 1 then Check(IsSide(r.side), InvalidSide)
    else if n == 2 then Check(TypeOf(r.typ).Some?, InvalidOrderType)
    else if n == 3 then Check(NeedsStopPrice(r.typ) ==> r.stopPrice != 0, StopPriceRequired)
    else if n == 4 then Check(IsPriced(r.typ) ==> TifOf(DefaultTif(r)) != Unset, InvalidTimeInForce)
    else if n == 5 then Check(IsPriced(r.typ) ==> ValidPrecision(r.price, m.tick), InvalidPricePrecision)
    else if n == 6 then Check(ValidPrecision(r.quantity, m.step), InvalidQtyPrecision)
    else if n == 7 then Check(m.minQty <= r.quantity <= m.maxQty, OrderSizeOutOfRange)
    else if n == 8 then
      Check(r.typ == "limit" && r.price != 0 ==> Decimal.Mul(r.price, r.quantity) >= m.minNotional, OrderSizeOutOfRange)
    else if n == 9 then Check(f.balance.Some?, BalanceUnavailable)
    else if n == 10 then
      Check(f.balance.Some? ==> Affordable(r.side, r.typ, r.price, r.quantity, f.balance.value), NotEnoughBalance)
    else Check(f.limiterAllows, RateLimitExceeded)
  }

  /** The reason of the first check from the n-th on that fails. */
  function FirstFailure(f: Facts, n: nat): Verdict
    decreases CHECKS - n
  {
    if n >= CHECKS then Accepted
    else if !CheckAt(f, n).passes then Refused(CheckAt(f, n).reason)
    else FirstFailure(f, n + 1)
  }

  lemma {:induction false} AcceptedIffAllPass(f: Facts, n: nat)
    ensures FirstFailure(f, n) == Accepted <==> forall i :: n <= i < CHECKS ==> CheckAt(f, i).passes
    decreases CHECKS - n
  {
    hide CheckAt;
    if n < CHECKS {
      AcceptedIffAllPass(f, n + 1);
    }
  }

  /** The verdict is settled by the n-th check, or left to the next. */
  lemma NextCheck(f: Facts, n: nat)
    requires n < CHECKS
    ensures FirstFailure(f, n) == if CheckAt(f, n).passes then FirstFailure(f, n + 1) else Refused(CheckAt(f, n).reason)
  {
  }

  lemma NoMoreChecks(f: Facts)
    ensures FirstFailure(f, CHECKS) == Accepted
  {
  }

  function FactsOf(m: MarketConfig, r: RequestView, a: Accounts, dbError: bool, limiterAllows: bool): Facts {
    Facts(r, m, BalanceOf(a, r.user, PayCurrency(r.side, m), dbError), limiterAllows)
  }

  function VerdictFor(markets: map<string, MarketConfig>, r: RequestView, a: Accounts, dbError: bool,
                      limiterAllows: bool): Verdict {
    if r.symbol !in markets then Refused(MarketNotAvailable)
    else FirstFailure(FactsOf(markets[r.symbol], r, a, dbError, limiterAllows), 0)
  }

  /** The checks before the time in force, which is written even when a later check fails. */
  predicate GivesDefault(markets: map<string, MarketConfig>, r: RequestView) {
    && r.symbol in markets
    && markets[r.symbol].status == "active"
    && IsSide(r.side)
    && TypeOf(r.typ).Some?
    && (NeedsStopPrice(r.typ) ==> r.stopPrice != 0)
  }

  // ---------- What acceptance means ----------

  /** What the market demands of a request, whoever makes it. */
  predicate WellFormed(r: RequestView, m: MarketConfig) {
    && m.status == "active"
    && IsSide(r.side)
    && TypeOf(r.typ).Some?
    && (NeedsStopPrice(r.typ) ==> r.stopPrice != 0)
    && (IsPriced(r.typ) ==> r.tif in {"", "GTC", "IOC", "FOK"} && ValidPrecision(r.price, m.tick))
    && ValidPrecision(r.quantity, m.step)
    && m.minQty <= r.quantity <= m.maxQty
    && (r.typ == "limit" && r.price != 0 ==> Decimal.Mul(r.price, r.quantity) >= m.minNotional)
  }

  /** The user can pay, as far as is checked. */
  predicate Funded(r: RequestView, balance: Option<int>) {
    balance.Some? && Affordable(r.side, r.typ, r.price, r.quantity, balance.value)
  }

  lemma DefaultedTif(r: RequestView)
    requires IsPriced(r.typ)
    ensures TifOf(DefaultTif(r)) != Unset <==> r.tif in {"", "GTC", "IOC", "FOK"}
  {
  }

  /**
   A request is accepted exactly when its market is known and finds it well formed, it is funded, and the limiter
   agrees.
   */
  lemma AcceptedIff(markets: map<string, MarketConfig>, r: RequestView, a: Accounts, dbError: bool, limiterAllows: bool)
    ensures VerdictFor(markets, r, a, dbError, limiterAllows) == Accepted <==>
      && r.symbol in markets
      && WellFormed(r, markets[r.symbol])
      && Funded(r, BalanceOf(a, r.user, PayCurrency(r.side, markets[r.symbol]), dbError))
      && limiterAllows
  {
    hide Affordable;
    hide TypeOf;
    hide IsSide;
    hide NeedsStopPrice;
    hide ValidPrecision;
    hide BalanceOf;
    hide PayCurrency;
    hide TifOf;
    hide DefaultTif;
    hide FirstFailure;
    hide Decimal.Mul;
    if r.symbol in markets {
      var f := FactsOf(markets[r.symbol], r, a, dbError, limiterAllows);
      AcceptedIffAllPass(f, 0);
      if IsPriced(r.typ) {
        DefaultedTif(r);
      }
      AllTwelve(f);
    }
  }

  /** The verdict on a request, check by check, in terms of its texts and numbers. */
  lemma VerdictSpelledOut(markets: map<string, MarketConfig>, r: RequestView, a: Accounts, dbError: bool,
                          limiterAllows: bool)
    ensures VerdictFor(markets, r, a, dbError, limiterAllows) ==
      if r.symbol !in markets || markets[r.symbol].status != "active" then Refused(MarketNotAvailable)
      else
        var m := markets[r.symbol];
        var pays := Key(r.user, if r.side == "buy" then m.quote else m.base);
        var priced := r.typ == "limit" || r.typ == "stop_limit";
        var stops := r.typ == "stop_loss" || r.typ == "stop_limit";
        if r.side !in {"buy", "sell"} then Refused(InvalidSide)
        else if r.typ !in {"market", "limit", "stop_loss", "stop_limit"} then Refused(InvalidOrderType)
        else if stops && r.stopPrice == 0 then Refused(StopPriceRequired)
        else if priced && r.tif !in {"", "GTC", "IOC", "FOK"} then Refused(InvalidTimeInForce)
        else if priced && m.tick != 0 && r.price % m.tick != 0 then Refused(InvalidPricePrecision)
        else if m.step != 0 && r.quantity % m.step != 0 then Refused(InvalidQtyPrecision)
        else if r.quantity < m.minQty || r.quantity > m.maxQty then Refused(OrderSizeOutOfRange)
        else if r.typ == "limit" && r.price != 0 && Decimal.Mul(r.price, r.quantity) < m.minNotional then
          Refused(OrderSizeOutOfRange)
        else if dbError || pays !in a then Refused(BalanceUnavailable)
        else if r.side == "sell" && a[pays].balance < r.quantity then Refused(NotEnoughBalance)
        else if r.side == "buy" && r.typ == "market" && a[pays].balance == 0 then Refused(NotEnoughBalance)
        else if r.side == "buy" && r.typ != "market" && a[pays].balance < Decimal.Mul(r.price, r.quantity) then
          Refused(NotEnoughBalance)
        else if !limiterAllows then Refused(RateLimitExceeded)
        else Accepted
  {
    hide Decimal.Mul;
    hide FirstFailure;
    hide CheckAt;
    hide TifOf;
    hide DefaultTif;
    if r.symbol in markets {
      var f := FactsOf(markets[r.symbol], r, a, dbError, limiterAllows);
      FirstOfTwelve(f);
      TextChecks(f);
      NumberChecks(f);
      if IsPriced(r.typ) {
        DefaultedTif(r);
      }
    }
  }

  lemma TextChecks(f: Facts)
    ensures CheckAt(f, 0) == Check(f.m.status == "active", MarketNotAvailable)
    ensures CheckAt(f, 1) == Check(IsSide(f.r.side), InvalidSide)
    ensures CheckAt(f, 2) == Check(TypeOf(f.r.typ).Some?, InvalidOrderType)
    ensures CheckAt(f, 3) == Check(NeedsStopPrice(f.r.typ) ==> f.r.stopPrice != 0, StopPriceRequired)
    ensures CheckAt(f, 4) == Check(IsPriced(f.r.typ) ==> TifOf(DefaultTif(f.r)) != Unset, InvalidTimeInForce)
    ensures CheckAt(f, 11) == Check(f.limiterAllows, RateLimitExceeded)
  {
  }

  lemma NumberChecks(f: Facts)
    ensures var r, m := f.r, f.m;
      && CheckAt(f, 5) == Check(IsPriced(r.typ) ==> ValidPrecision(r.price, m.tick), InvalidPricePrecision)
      && CheckAt(f, 6) == Check(ValidPrecision(r.quantity, m.step), InvalidQtyPrecision)
      && CheckAt(f, 7) == Check(m.minQty <= r.quantity <= m.maxQty, OrderSizeOutOfRange)
      && CheckAt(f, 8) == Check(r.typ == "limit" && r.price != 0 ==>
                                  Decimal.Mul(r.price, r.quantity) >= m.minNotional, OrderSizeOutOfRange)
      && CheckAt(f, 9) == Check(f.balance.Some?, BalanceUnavailable)
      && CheckAt(f, 10) == Check(f.balance.Some? ==>
                                   Affordable(r.side, r.typ, r.price, r.quantity, f.balance.value), NotEnoughBalance)
  {
  }

  /** The default time in force is written exactly when none of the checks before it is the one that fails. */
  lemma GivesDefaultIff(markets: map<string, MarketConfig>, r: RequestView, a: Accounts, dbError: bool,
                        limiterAllows: bool)
    ensures GivesDefault(markets, r) <==>
      VerdictFor(markets, r, a, dbError, limiterAllows) !in
        {Refused(MarketNotAvailable), Refused(InvalidSide), Refused(InvalidOrderType), Refused(StopPriceRequired)}
  {
    hide VerdictFor;
    hide Decimal.Mul;
    VerdictSpelledOut(markets, r, a, dbError, limiterAllows);
  }

  lemma FirstOfTwelve(f: Facts)
    ensures FirstFailure(f, 0) ==
      if !CheckAt(f, 0).passes then Refused(CheckAt(f, 0).reason)
      else if !CheckAt(f, 1).passes then Refused(CheckAt(f, 1).reason)
      else if !CheckAt(f, 2).passes then Refused(CheckAt(f, 2).reason)
      else if !CheckAt(f, 3).passes then Refused(CheckAt(f, 3).reason)
      else if !CheckAt(f, 4).passes then Refused(CheckAt(f, 4).reason)
      else if !CheckAt(f, 5).passes then Refused(CheckAt(f, 5).reason)
      else if !CheckAt(f, 6).passes then Refused(CheckAt(f, 6).reason)
      else if !CheckAt(f, 7).passes then Refused(CheckAt(f, 7).reason)
      else if !CheckAt(f, 8).passes then Refused(CheckAt(f, 8).reason)
      else if !CheckAt(f, 9).passes then Refused(CheckAt(f, 9).reason)
      else if !CheckAt(f, 10).passes then Refused(CheckAt(f, 10).reason)
      else if !CheckAt(f, 11).passes then Refused(CheckAt(f, 11).reason)
      else Accepted
  {
    hide CheckAt;
    hide FirstFailure;
    NextCheck(f, 0);
    NextCheck(f, 1);
    NextCheck(f, 2);
    NextCheck(f, 3);
    NextCheck(f, 4);
    NextCheck(f, 5);
    NextCheck(f, 6);
    NextCheck(f, 7);
    NextCheck(f, 8);
    NextCheck(f, 9);
    NextCheck(f, 10);
    NextCheck(f, 11);
    NoMoreChecks(f);
  }

  lemma AllTwelve(f: Facts)
    ensures (forall i :: 0 <= i < CHECKS ==> CheckAt(f, i).passes) <==>
      && CheckAt(f, 0).passes && CheckAt(f, 1).passes && CheckAt(f, 2).passes && CheckAt(f, 3).passes
      && CheckAt(f, 4).passes && CheckAt(f, 5).passes && CheckAt(f, 6).passes && CheckAt(f, 7).passes
      && CheckAt(f, 8).passes && CheckAt(f, 9).passes && CheckAt(f, 10).passes && CheckAt(f, 11).passes
  {
    hide CheckAt;
  }

  // ---------- The validator ----------

  /** The markets by symbol; a later one replaces an earlier one with the same symbol. */
  function BySymbol(ms: seq<MarketConfig>): map<string, MarketConfig> {
    if ms == [] then map[] else BySymbol(ms[..|ms| - 1])[ms[|ms| - 1].symbol := ms[|ms| - 1]]
  }

  /** A symbol stands for the last of the markets that have it. */
  lemma {:induction false} LastMarketHolds(ms: seq<MarketConfig>, symbol: string) returns (i: int)
    ensures -1 <= i < |ms| && forall j :: i < j < |ms| ==> ms[j].symbol != symbol
    ensures if i < 0 then symbol !in BySymbol(ms)
      else ms[i].symbol == symbol && symbol in BySymbol(ms) && BySymbol(ms)[symbol] == ms[i]
  {
    i := |ms| - 1;
    if ms != [] && ms[i].symbol != symbol {
      i := LastMarketHolds(ms[..|ms| - 1], symbol);
    }
  }

  class PlaceOrderRequest {
    const user: string
    const symbol: string
    const side: string
    const typ: string
    var timeInForce: string
    const price: int
    const stopPrice: int
    const quantity: int

    constructor (r: RequestView)
      ensures View() == r
    {
      user, symbol, side, typ, timeInForce := r.user, r.symbol, r.side, r.typ, r.tif;
      price, stopPrice, quantity := r.price, r.stopPrice, r.quantity;
    }

    function View(): RequestView
      reads this
    {
      RequestView(user, symbol, side, typ, timeInForce, price, stopPrice, quantity)
    }
  }

  class OrderValidator {
    var markets: map<string, MarketConfig>
    const balances: AccountsTable

    constructor (configs: seq<MarketConfig>, balances: AccountsTable)
      ensures markets == BySymbol(configs) && this.balances == balances
    {
      this.balances := balances;
      markets := map[];
      new;
      var i := 0;
      while i < |configs|
        invariant i <= |configs| && markets == BySymbol(configs[..i])
      {
        assert configs[..i + 1][..i] == configs[..i];
        markets := markets[configs[i].symbol := configs[i]];
        i := i + 1;
      }
      assert configs[..i] == configs;
    }

    /** Check the request; a priced one without a time in force is given GTC once its market, side and type are good. */
    method Validate(req: PlaceOrderRequest, dbError: bool, limiterAllows: bool) returns (v: Verdict)
      modifies req`timeInForce
      ensures v == VerdictFor(markets, old(req.View()), balances.rows, dbError, limiterAllows)
      ensures req.timeInForce ==
        if GivesDefault(markets, old(req.View())) then DefaultTif(old(req.View())) else old(req.timeInForce)
    {
      hide Decimal.Mul;
      hide FirstFailure;
      hide Affordable;
      hide BalanceOf;
      hide PayCurrency;
      hide ValidPrecision;
      hide NeedsStopPrice;
      hide IsPriced;
      hide IsSide;
      hide TifOf;
      hide SideOf;
      hide TypeOf;
      hide DefaultTif;
      NothingDefaulted(req.View());
      if req.symbol !in markets {
        return Refused(MarketNotAvailable);
      }
      var market := markets[req.symbol];
      ghost var f := FactsOf(market, req.View(), balances.rows, dbError, limiterAllows);
      NextCheck(f, 0);
      if market.status != "active" {
        return Refused(MarketNotAvailable);
      }
      NextCheck(f, 1);
      if !IsSide(req.side) {
        return Refused(InvalidSide);
      }
      NextCheck(f, 2);
      NextCheck(f, 3);
      var typeError := ValidateOrderType(req);
      if typeError != Accepted {
        return typeError;
      }
      NextCheck(f, 4);
      NextCheck(f, 5);
      if IsPriced(req.typ) {
        SetDefault(req);
        if TifOf(req.timeInForce) == Unset {
          return Refused(InvalidTimeInForce);
        }
        if !ValidPrecision(req.price, market.tick) {
          return Refused(InvalidPricePrecision);
        }
      }
      NextCheck(f, 6);
      if !ValidPrecision(req.quantity, market.step) {
        return Refused(InvalidQtyPrecision);
      }
      NextCheck(f, 7);
      if req.quantity < market.minQty {
        return Refused(OrderSizeOutOfRange);
      }
      if req.quantity > market.maxQty {
        return Refused(OrderSizeOutOfRange);
      }
      NextCheck(f, 8);
      if req.typ == "limit" && req.price != 0 {
        var notional := Decimal.Mul(req.price, req.quantity);
        if notional < market.minNotional {
          return Refused(OrderSizeOutOfRange);
        }
      }
      NextCheck(f, 9);
      NextCheck(f, 10);
      var balanceError := CheckBalance(req, market, dbError);
      if balanceError != Accepted {
        return balanceError;
      }
      NextCheck(f, 11);
      if !limiterAllows {
        return Refused(RateLimitExceeded);
      }
      NoMoreChecks(f);
      return Accepted;
    }

    method SetDefault(req: PlaceOrderRequest)
      requires IsPriced(req.typ)
      modifies req`timeInForce
      ensures req.timeInForce == DefaultTif(old(req.View()))
    {
      if req.timeInForce == "" {
        req.timeInForce := "GTC";
      }
    }

    method ValidateOrderType(req: PlaceOrderRequest) returns (v: Verdict)
      ensures v == if TypeOf(req.typ).None? then Refused(InvalidOrderType)
        else if NeedsStopPrice(req.typ) && req.stopPrice == 0 then Refused(StopPriceRequired)
        else Accepted
    {
      if req.typ == "market" || req.typ == "limit" {
        return Accepted;
      }
      if req.typ == "stop_loss" || req.typ == "stop_limit" {
        if req.stopPrice == 0 {
          return Refused(StopPriceRequired);
        }
        return Accepted;
      }
      return Refused(InvalidOrderType);
    }

    method CheckBalance(req: PlaceOrderRequest, market: MarketConfig, dbError: bool) returns (v: Verdict)
      requires IsSide(req.side)
      ensures var b := BalanceOf(balances.rows, req.user, PayCurrency(req.side, market), dbError);
        v == if b.None? then Refused(BalanceUnavailable)
             else if Affordable(req.side, req.typ, req.price, req.quantity, b.value) then Accepted
             else Refused(NotEnoughBalance)
    {
      var currency := if req.side == "buy" then market.quote else market.base;
      var key := Key(req.user, currency);
      if req.side == "buy" {
        if req.typ == "market" {
          if dbError || key !in balances.rows {
            return Refused(BalanceUnavailable);
          }
          return if balances.rows[key].balance == 0 then Refused(NotEnoughBalance) else Accepted;
        }
        var required := Decimal.Mul(req.price, req.quantity);
        if dbError || key !in balances.rows {
          return Refused(BalanceUnavailable);
        }
        return if balances.rows[key].balance < required then Refused(NotEnoughBalance) else Accepted;
      }
      if dbError || key !in balances.rows {
        return Refused(BalanceUnavailable);
      }
      return if balances.rows[key].balance < req.quantity then Refused(NotEnoughBalance) else Accepted;
    }
  }
}
