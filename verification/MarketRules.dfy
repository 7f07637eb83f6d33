/** The orders a market lets through to the book. */
module MarketRules {
  import opened Types
  import opened FlatBook
  import opened Engine
  import opened Histories
  import opened Grid
  import opened Validator
  import opened Ledger
  import Decimal

  /** The order was made from a request that its market finds well formed, with the default time in force filled in. */
  ghost predicate Admitted(m: MarketConfig, o: OrderView) {
    exists r :: WellFormed(r, m) && o == OrderFor(r.(tif := DefaultTif(r)), o.id)
  }

  lemma MadeIsAdmitted(m: MarketConfig, r: RequestView, id: string)
    requires WellFormed(r, m)
    ensures TypeOf(r.typ).Some? && Admitted(m, OrderFor(r.(tif := DefaultTif(r)), id))
  {
    hide DefaultTif;
    hide Decimal.Mul;
    var o := OrderFor(r.(tif := DefaultTif(r)), id);
    assert o == OrderFor(r.(tif := DefaultTif(r)), o.id);
  }

  /** Whoever is accepted is admitted. */
  lemma AcceptedIsAdmitted(markets: map<string, MarketConfig>, r: RequestView, a: Accounts, dbError: bool,
                           limiterAllows: bool, id: string)
    requires VerdictFor(markets, r, a, dbError, limiterAllows) == Accepted
    ensures r.symbol in markets && TypeOf(r.typ).Some?
    ensures Admitted(markets[r.symbol], OrderFor(r.(tif := DefaultTif(r)), id))
  {
    hide VerdictFor;
    hide WellFormed;
    hide Admitted;
    AcceptedIff(markets, r, a, dbError, limiterAllows);
    MadeIsAdmitted(markets[r.symbol], r, id);
  }

  ghost predicate AllAdmitted(m: MarketConfig, cs: seq<Command>) {
    forall i :: 0 <= i < |cs| && cs[i].Submit? ==> Admitted(m, cs[i].order)
  }

  /** A market with a tick, a step and sizes above zero. */
  predicate Trading(m: MarketConfig) {
    m.tick > 0 && m.step > 0 && m.minQty > 0
  }

  // ---------- The quantities it lets through ----------

  /** The least multiple of the step in the range, if there is any. */
  function Lowest(m: MarketConfig): (low: int)
    requires Trading(m)
    ensures low >= m.step && low % m.step == 0
  {
    var steps := (m.minQty + m.step - 1) / m.step;
    Decimal.MultipleMod(steps, m.step);
    AtLeastStep(steps * m.step, m.step);
    steps * m.step
  }

  /** Orders of two quantities at least are let through. */
  predicate Room(m: MarketConfig)
    requires Trading(m)
  {
    Lowest(m) + m.step <= m.maxQty
  }

  /** Every quantity that is ever traded is a multiple of this: without room nothing but whole orders is. */
  function Grain(m: MarketConfig): (grain: int)
    requires Trading(m)
    ensures grain > 0 && grain % m.step == 0
  {
    Decimal.MultipleMod(1, m.step);
    if Room(m) then m.step else Lowest(m)
  }

  lemma LowestIsLeast(m: MarketConfig, q: int)
    requires Trading(m) && q % m.step == 0
    ensures q >= m.minQty <==> q >= Lowest(m)
    ensures Lowest(m) <= q < Lowest(m) + m.step ==> q == Lowest(m)
  {
    var x, s := m.minQty + m.step - 1, m.step;
    var k := x / s;
    var n := Multiple(q, s);
    assert k * s <= x < k * s + s;
    if n < k {
      Decimal.StrictMultiple(n, k, s);
    } else if n > k {
      Decimal.StrictMultiple(k, n, s);
    }
  }

  lemma AdmittedOnGrain(m: MarketConfig, o: OrderView)
    requires Trading(m) && Admitted(m, o)
    ensures OnStep(o, Grain(m)) && o.filled == 0 && o.status == Created
    ensures o.quantity % m.step == 0 && Lowest(m) <= o.quantity <= m.maxQty && m.status == "active"
    ensures Room(m) || o.quantity == Grain(m)
    ensures o.typ == Limit || o.typ == StopLimit ==> o.price % m.tick == 0
  {
    var r :| WellFormed(r, m) && o == OrderFor(r.(tif := DefaultTif(r)), o.id);
    hide DefaultTif;
    hide Decimal.Mul;
    hide Lowest;
    LowestIsLeast(m, o.quantity);
    Decimal.MultipleMod(0, Grain(m));
    Decimal.MultipleMod(1, Grain(m));
  }

  // ---------- Histories without rounding ----------

  /** Prices on the tick are whole. */
  predicate Sound(m: MarketConfig) {
    Trading(m) && Whole(m.tick, m.step)
  }

  lemma WholeForMultiples(price: int, step: int, grain: int)
    requires step > 0 && grain % step == 0 && Whole(price, step)
    ensures Whole(price, grain)
  {
    var y := Multiple(grain, step);
    var z := Multiple(price * step, Decimal.SCALE);
    assert price * (y * step) == y * (price * step);
    assert y * (z * Decimal.SCALE) == (y * z) * Decimal.SCALE;
    Decimal.MultipleMod(y * z, Decimal.SCALE);
  }

  /** In a sound market the price of every order whose type has it checked is whole. */
  lemma PricedIsHarmless(m: MarketConfig, o: OrderView)
    requires Sound(m) && Admitted(m, o) && (o.typ == Limit || o.typ == StopLimit)
    ensures Whole(o.price, Grain(m))
  {
    hide Admitted;
    hide Whole;
    hide Lowest;
    AdmittedOnGrain(m, o);
    TickIsWhole(o.price, m.tick, m.step);
    if !Room(m) {
      WholeForMultiples(o.price, m.step, Grain(m));
    }
  }

  /** Histories of admitted orders that are harmless are charged exactly and rest on the grain. */
  lemma ValidatedHistoryIsExact(symbol: string, cs: seq<Command>, m: MarketConfig)
    requires Sound(m) && AllAdmitted(m, cs)
    requires forall i :: 0 <= i < |cs| && cs[i].Submit? ==>
      var o := cs[i].order;
      o.typ == Limit || o.typ == StopLimit || !CanRest(o, Grain(m)) || Whole(o.price, Grain(m))
    ensures var ts := RunTrades(EmptyBook(symbol), cs); forall i :: 0 <= i < |ts| ==> Exact(ts[i])
    ensures var b := RunBook(EmptyBook(symbol), cs);
      forall o :: o in b.bids || o in b.asks ==> o.Remaining() % Grain(m) == 0
  {
    hide RunTrades;
    hide RunBook;
    hide Admitted;
    hide Whole;
    hide Exact;
    hide CanRest;
    hide Grain;
    hide Sound;
    SoundIsTrading(m);
    var ts := RunTrades(EmptyBook(symbol), cs);
    var makers := set i | 0 <= i < |ts| :: ts[i].makerId;
    forall i | 0 <= i < |cs| && cs[i].Submit?
      ensures Submittable(cs[i].order, Grain(m), makers)
    {
      var o := cs[i].order;
      AdmittedOnGrain(m, o);
      if o.typ == Limit || o.typ == StopLimit {
        PricedIsHarmless(m, o);
      }
    }
    NoRoundingLoss(symbol, cs, Grain(m), makers);
  }

  lemma SoundIsTrading(m: MarketConfig)
    requires Sound(m)
    ensures Trading(m)
  {
  }

  // ---------- The market the gateway starts with ----------

  /** Tick 0.01, step 0.0001, sizes from 0.001 to 100, notional at least 10. */
  function DefaultMarket(): MarketConfig {
    MarketConfig("ETH-USDT", "ETH", "USDT", 10_000_000_000_000_000, 100_000_000_000_000, 1_000_000_000_000_000,
                 100 * Decimal.SCALE, 10 * Decimal.SCALE, "active")
  }

  lemma DefaultMarketIsSound()
    ensures Sound(DefaultMarket()) && Room(DefaultMarket())
  {
    Decimal.MultipleMod(1_000_000_000_000, Decimal.SCALE);
    Decimal.MultipleMod(10, DefaultMarket().step);
    LowestIsLeast(DefaultMarket(), DefaultMarket().minQty);
  }
}
