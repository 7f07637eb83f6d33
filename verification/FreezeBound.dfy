/** For which buys the amount that is frozen covers whatever the order is charged. */
module FreezeBound {
  import opened Types
  import opened FlatBook
  import opened Engine
  import opened Histories
  import opened Lifetime
  import opened Scenarios
  import opened Grid
  import opened Validator
  import opened MarketRules
  import opened RoundingBoundary
  import opened OrderFunds
  import Decimal

  /** In no history of admitted orders is this one charged more. */
  ghost predicate ChargedAtMost(m: MarketConfig, p: OrderView, amount: int) {
    forall symbol: string, cs: seq<Command> :: Distinct(cs) && AllAdmitted(m, cs) && Submit(p) in cs ==>
      Spent(RunTrades(EmptyBook(symbol), cs), p.id) <= amount
  }

  /** A price on the tick at which even one unit of quantity costs more than the amount. */
  function PriceAbove(m: MarketConfig, amount: int): int {
    (Decimal.Max(amount, 0) + 1) * Decimal.SCALE * m.tick
  }

  lemma PriceIsAbove(m: MarketConfig, amount: int, quantity: int)
    requires m.tick > 0 && quantity > 0
    ensures PriceAbove(m, amount) % m.tick == 0 && PriceAbove(m, amount) > 0
    ensures Decimal.Mul(PriceAbove(m, amount), quantity) > amount
  {
    var k := Decimal.Max(amount, 0) + 1;
    Decimal.MultipleMod(k * Decimal.SCALE, m.tick);
    var units := m.tick * quantity;
    assert units >= 1 && k * units >= k;
    assert k * Decimal.SCALE * m.tick * quantity == (k * units) * Decimal.SCALE;
    assert k * Decimal.SCALE * m.tick >= 1;
    Decimal.MulGalois(k * units, PriceAbove(m, amount), quantity);
  }

  /** Somebody offers all that p wants at such a price. */
  function Offer(m: MarketConfig, p: OrderView, amount: int): OrderView {
    Helper(p, 1, Sell, GTC, PriceAbove(m, amount), p.quantity)
  }

  /** A buy of any type but limit can be charged more than any amount. */
  lemma TakesAnyPrice(m: MarketConfig, symbol: string, p: OrderView, amount: int)
    requires Trading(m) && Admitted(m, p) && p.side == Buy && p.typ != Limit
    ensures var cs := [Submit(Offer(m, p, amount)), Submit(p)];
      && Distinct(cs) && AllAdmitted(m, cs)
      && Spent(RunTrades(EmptyBook(symbol), cs), p.id) > amount
  {
    hide Place;
    hide RunTrades;
    hide RunBook;
    hide Admitted;
    hide Lowest;
    hide PriceAbove;
    hide Decimal.Mul;
    var e, o := EmptyBook(symbol), Offer(m, p, amount);
    AdmittedOnGrain(m, p);
    LowestIsLeast(m, p.quantity);
    PriceIsAbove(m, amount, p.quantity);
    HelperAdmitted(m, p, 1, Sell, GTC, o.price, p.quantity);
    assert |o.id| == |p.id| + 1;
    NoCommands(e);
    OneMoreCommand(e, [], Submit(o));
    RemainderRests(e, o);
    var cs := [Submit(o)];
    assert [] + cs == cs && [Submit(o), Submit(p)] == cs + [Submit(p)];
    OneMoreCommand(e, cs, Submit(p));
    var maker := RunBook(e, cs).asks[0];
    TakerIsServed(RunBook(e, cs), p, maker);
    var t := MakeTrade(symbol, p, maker, p.quantity);
    assert RunTrades(e, cs + [Submit(p)]) == [t];
    assert Spent([t], p.id) == t.quoteQty + Spent([t][1..], p.id);
  }

  lemma NoCommands(e: Book)
    ensures RunBook(e, []) == e && RunTrades(e, []) == []
  {
  }

  /** Alone in the book an order is charged nothing, which is more than a negative amount. */
  lemma AloneIsFree(symbol: string, p: OrderView)
    ensures Spent(RunTrades(EmptyBook(symbol), [Submit(p)]), p.id) == 0
  {
    hide Place;
    NoCommands(EmptyBook(symbol));
    OneMoreCommand(EmptyBook(symbol), [], Submit(p));
    EmptyBookRejectsOrHolds(symbol, p);
    assert [] + [Submit(p)] == [Submit(p)];
  }

  /**
   What is frozen for a buy covers it in every history exactly when it is a limit order with a price that is not
   negative. A stop-limit order, frozen the same way, a market order, for which the whole balance is frozen, and a
   stop-loss order, for which nothing is, can always be charged more.
   */
  lemma FreezeCoversIff(m: MarketConfig, r: RequestView, id: string, quoteBalance: Option<int>)
    requires Trading(m) && WellFormed(r, m) && r.side == "buy"
    ensures ChargedAtMost(m, OrderFor(r.(tif := DefaultTif(r)), id), FreezeAmount(r, quoteBalance)) <==>
      r.typ == "limit" && r.price >= 0
  {
    hide RunTrades;
    hide Decimal.Mul;
    hide Distinct;
    hide DefaultTif;
    hide Admitted;
    hide Lowest;
    var p, amount := OrderFor(r.(tif := DefaultTif(r)), id), FreezeAmount(r, quoteBalance);
    MadeIsAdmitted(m, r, id);
    AdmittedOnGrain(m, p);
    LowestIsLeast(m, p.quantity);
    if r.typ == "limit" && r.price >= 0 {
      forall symbol: string, cs: seq<Command> | Distinct(cs) && AllAdmitted(m, cs) && Submit(p) in cs
        ensures Spent(RunTrades(EmptyBook(symbol), cs), p.id) <= amount
      {
        var k :| 0 <= k < |cs| && cs[k] == Submit(p);
        AdmittedAreFresh(m, cs);
        LimitBuyWithinFreeze(symbol, cs, k);
      }
    } else if r.typ != "limit" {
      TakesAnyPrice(m, "s", p, amount);
      assert Submit(p) in [Submit(Offer(m, p, amount)), Submit(p)];
    } else {
      Decimal.SignOfProduct(p.price, p.quantity);
      AloneIsFree("s", p);
      OneIsDistinct(p);
      assert Submit(p) in [Submit(p)];
    }
  }

  lemma AdmittedAreFresh(m: MarketConfig, cs: seq<Command>)
    requires Trading(m) && AllAdmitted(m, cs)
    ensures Fresh(cs)
  {
    hide Admitted;
    forall i | 0 <= i < |cs| && cs[i].Submit?
      ensures cs[i].order.filled == 0
    {
      AdmittedOnGrain(m, cs[i].order);
    }
  }

  lemma OneIsDistinct(p: OrderView)
    ensures Distinct([Submit(p)])
  {
  }
}
