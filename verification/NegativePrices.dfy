/**
 Nothing checks the sign of a stop-limit order's price: what validation lets through, and what freezing makes of it.
 */
module NegativePrices {
  import opened Types
  import opened Ledger
  import opened LedgerHistory
  import opened Validator
  import opened OrderFunds
  import opened MarketRules
  import Decimal

  /**
   The market takes only positive quantities, and a limit order's notional is compared with a bound that is not
   negative.
   */
  predicate Sensible(m: MarketConfig) {
    m.minQty > 0 && m.minNotional >= 0
  }

  /** The branch of the freeze that nothing guards. */
  predicate NegativeStopLimitBuy(r: RequestView) {
    r.side == "buy" && r.typ == "stop_limit" && r.price < 0
  }

  /**
   An accepted request asks for a freeze that is not negative exactly when it is no stop-limit buy at a negative
   price.
   */
  lemma FreezeSignIff(markets: map<string, MarketConfig>, r: RequestView, a: Accounts, dbError: bool,
                      limiterAllows: bool, quoteBalance: Option<int>)
    requires VerdictFor(markets, r, a, dbError, limiterAllows) == Accepted
    requires Sensible(markets[r.symbol]) && (quoteBalance.Some? ==> quoteBalance.value >= 0)
    ensures FreezeAmount(r, quoteBalance) >= 0 <==> !NegativeStopLimitBuy(r)
  {
    hide VerdictFor;
    hide Decimal.Mul;
    hide Affordable;
    hide TypeOf;
    AcceptedIff(markets, r, a, dbError, limiterAllows);
    Decimal.SignOfProduct(r.price, r.quantity);
  }

  /**
   Every such stop-limit buy that is well formed is accepted from anybody with a row that is not in debt, and its
   freeze adds to the balance what it takes from the frozen balance: the ledger stays non-negative exactly when at
   least that much was frozen already.
   */
  lemma NegativePriceCreatesBalance(markets: map<string, MarketConfig>, r: RequestView, a: Accounts)
    requires r.symbol in markets && WellFormed(r, markets[r.symbol]) && Sensible(markets[r.symbol])
    requires NegativeStopLimitBuy(r) && NonNegative(a) && Key(r.user, markets[r.symbol].quote) in a
    ensures VerdictFor(markets, r, a, false, true) == Accepted
    ensures var k, x := Key(r.user, markets[r.symbol].quote), FreezeAmount(r, None);
      && x < 0 && CanFreeze(a, k, x)
      && Freeze(a, k, x)[k].balance == a[k].balance - x
      && (NonNegative(Freeze(a, k, x)) <==> a[k].frozen >= -x)
  {
    hide VerdictFor;
    hide Decimal.Mul;
    hide NonNegative;
    hide WellFormed;
    AcceptedIff(markets, r, a, false, true);
    Positive(r, markets[r.symbol]);
    Decimal.SignOfProduct(r.price, r.quantity);
    var k := Key(r.user, markets[r.symbol].quote);
    RowNonNegative(a, k);
    ApplyKeepsIff(a, FreezeOp(k, FreezeAmount(r, None)));
  }

  lemma Positive(r: RequestView, m: MarketConfig)
    requires WellFormed(r, m) && Sensible(m)
    ensures r.quantity > 0
  {
    hide Decimal.Mul;
  }

  lemma RowNonNegative(a: Accounts, k: Key)
    requires NonNegative(a) && k in a
    ensures a[k].balance >= 0 && a[k].frozen >= 0
  {
  }

  /** One unit at -100 on the default market. */
  function AtMinusHundred(user: string): RequestView {
    RequestView(user, "ETH-USDT", "buy", "stop_limit", "GTC", Decimal.FromInt(-100), Decimal.SCALE, Decimal.SCALE)
  }

  lemma WellFormedAtMinusHundred(user: string)
    ensures WellFormed(AtMinusHundred(user), DefaultMarket()) && Sensible(DefaultMarket())
    ensures NegativeStopLimitBuy(AtMinusHundred(user))
  {
    var m := DefaultMarket();
    Decimal.MultipleMod(-10_000, m.tick);
    Decimal.MultipleMod(10_000, m.step);
  }

  /** On the default market an account with nothing in it gets a balance of one hundred this way. */
  lemma BalanceFromNothing(user: string)
    ensures var markets, k := map["ETH-USDT" := DefaultMarket()], Key(user, "USDT");
      var a, r := map[k := Row(0, 0, 1)], AtMinusHundred(user);
      && VerdictFor(markets, r, a, false, true) == Accepted
      && Freeze(a, k, FreezeAmount(r, None))[k].balance == Decimal.FromInt(100)
      && !NonNegative(Freeze(a, k, FreezeAmount(r, None)))
  {
    var markets, k := map["ETH-USDT" := DefaultMarket()], Key(user, "USDT");
    var a, r := map[k := Row(0, 0, 1)], AtMinusHundred(user);
    hide VerdictFor;
    hide WellFormed;
    WellFormedAtMinusHundred(user);
    NegativePriceCreatesBalance(markets, r, a);
    Decimal.DivUnique(r.price * r.quantity, Decimal.SCALE, Decimal.FromInt(-100), 0);
  }
}
