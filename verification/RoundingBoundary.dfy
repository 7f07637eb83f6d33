/** Which orders a market lets through can be the maker of a rounded trade. */
module RoundingBoundary {
  import opened Types
  import opened FlatBook
  import opened Engine
  import opened Histories
  import opened Scenarios
  import opened Grid
  import opened Validator
  import opened MarketRules
  import Decimal

  /** In no history of admitted orders is a trade rounded that this order makes. */
  ghost predicate NeverRounded(m: MarketConfig, o: OrderView) {
    forall symbol: string, cs: seq<Command> :: Distinct(cs) && AllAdmitted(m, cs) && Submit(o) in cs ==>
      AllExact(RunTrades(EmptyBook(symbol), cs), {o.id})
  }

  /** The boundary holds one way: an order that cannot rest, or has a whole price, is never rounded. */
  lemma HarmlessIsNeverRounded(m: MarketConfig, o: OrderView, symbol: string, cs: seq<Command>)
    requires Trading(m) && Harmless(o, Grain(m))
    requires Distinct(cs) && AllAdmitted(m, cs) && Submit(o) in cs
    ensures AllExact(RunTrades(EmptyBook(symbol), cs), {o.id})
  {
    hide RunTrades;
    hide Admitted;
    hide Harmless;
    hide AllExact;
    hide Grain;
    var k :| 0 <= k < |cs| && cs[k] == Submit(o);
    forall i | 0 <= i < |cs| && cs[i].Submit?
      ensures Submittable(cs[i].order, Grain(m), {o.id})
    {
      AdmittedOnGrain(m, cs[i].order);
      assert cs[i].order.id == o.id ==> i == k;
    }
    NoRoundingLoss(symbol, cs, Grain(m), {o.id});
  }

  // ---------- Helping orders the market admits ----------

  lemma HelperAdmitted(m: MarketConfig, o: OrderView, n: nat, side: Side, tif: TimeInForce, price: int, quantity: int)
    requires Trading(m) && m.status == "active" && price % m.tick == 0 && quantity % m.step == 0
    requires Lowest(m) <= quantity <= m.maxQty && tif != Unset
    ensures Admitted(m, Helper(o, n, side, tif, price, quantity))
  {
    LowestIsLeast(m, quantity);
    hide Decimal.Mul;
    hide Lowest;
    var text := match tif case IOC => "IOC" case FOK => "FOK" case _ => "GTC";
    var name := if side == Buy then "buy" else "sell";
    var r := RequestView("other", m.symbol, name, "stop_limit", text, price, 1, quantity);
    var h := Helper(o, n, side, tif, price, quantity);
    assert WellFormed(r, m);
    assert h == OrderFor(r.(tif := DefaultTif(r)), h.id);
  }

  /** The history submits admitted orders only, the n-th under the n-th name made from the order's identifier. */
  ghost predicate Staged(m: MarketConfig, o: OrderView, cs: seq<Command>) {
    forall i :: 0 <= i < |cs| ==> cs[i].Submit? && cs[i].order.id == Name(o.id, i + 1) && Admitted(m, cs[i].order)
  }

  /** One order on offer to takers of this side, and nobody on their own. */
  predicate Offers(b: Book, symbol: string, side: Side, price: int, r: int) {
    && b.symbol == symbol && b.On(side) == []
    && var ms := b.On(Opposite(side));
       |ms| <= 1 && OnOffer(ms) == r && (ms != [] ==> ms[0].price == price && r > 0)
  }

  /** An order that takes all that is on offer, and wants more, is on offer with what is left of it. */
  lemma LeavesOffer(b: Book, symbol: string, t: OrderView, price: int, r: int)
    requires Offers(b, symbol, t.side, price, r) && Keeps(t) && t.filled == 0 && 0 <= r < t.quantity
    requires Crosses(t, price) && (t.typ == Market ==> r > 0 && price != 0)
    ensures Offers(Place(b, t).book, symbol, Opposite(t.side), t.price, t.quantity - r)
    ensures var ms := Place(b, t).book.On(t.side); ms != [] && ms[0].id == t.id
  {
    hide Place;
    RemainderRests(b, t);
  }

  /** The next helping order of the history. */
  function Next(cs: seq<Command>, o: OrderView, side: Side, price: int, quantity: int): OrderView {
    Helper(o, |cs| + 1, side, GTC, price, quantity)
  }

  lemma StagedNext(m: MarketConfig, o: OrderView, cs: seq<Command>, side: Side, price: int, quantity: int)
    requires Trading(m) && m.status == "active" && price % m.tick == 0 && quantity % m.step == 0
    requires Lowest(m) <= quantity <= m.maxQty && Staged(m, o, cs)
    ensures Staged(m, o, cs + [Submit(Next(cs, o, side, price, quantity))])
  {
    hide Admitted;
    hide Lowest;
    hide Name;
    HelperAdmitted(m, o, |cs| + 1, side, GTC, price, quantity);
  }

  /** A helping order that takes all that is on offer, and rests with what is left of it. */
  lemma HelperRests(m: MarketConfig, symbol: string, o: OrderView, cs: seq<Command>, side: Side, price: int, r: int,
                    quantity: int)
    requires Trading(m) && m.status == "active" && price % m.tick == 0 && quantity % m.step == 0
    requires Lowest(m) <= quantity <= m.maxQty && 0 <= r < quantity
    requires Staged(m, o, cs) && Offers(RunBook(EmptyBook(symbol), cs), symbol, side, price, r)
    ensures var longer := cs + [Submit(Next(cs, o, side, price, quantity))];
      && Staged(m, o, longer)
      && Offers(RunBook(EmptyBook(symbol), longer), symbol, Opposite(side), price, quantity - r)
  {
    hide Admitted;
    hide RunBook;
    hide RunTrades;
    hide Place;
    hide Name;
    hide Lowest;
    hide Offers;
    hide Staged;
    var t, e := Next(cs, o, side, price, quantity), EmptyBook(symbol);
    StagedNext(m, o, cs, side, price, quantity);
    OneMoreCommand(e, cs, Submit(t));
    LeavesOffer(RunBook(e, cs), symbol, t, price, r);
  }

  /**
   Any multiple of the grain can be put on offer: at once if it is large enough, and otherwise by raising a smaller
   offer. An order of the lowest quantity takes that and rests with its remainder; one that is a step larger takes the
   remainder, and offers a step more than was offered before.
   */
  lemma {:induction false} MakeOffer(m: MarketConfig, symbol: string, o: OrderView, price: int, r: int)
    returns (cs: seq<Command>)
    requires Trading(m) && m.status == "active" && price % m.tick == 0
    requires r % m.step == 0 && 0 <= r <= m.maxQty && (r > 0 ==> Room(m))
    ensures Staged(m, o, cs) && Offers(RunBook(EmptyBook(symbol), cs), symbol, o.side, price, r)
    decreases r
  {
    hide Lowest;
    hide RunBook;
    hide Admitted;
    LowestIsLeast(m, r);
    RunNothing(EmptyBook(symbol));
    cs := [];
    if r >= Lowest(m) {
      HelperRests(m, symbol, o, cs, Opposite(o.side), price, 0, r);
      cs := cs + [Submit(Next(cs, o, Opposite(o.side), price, r))];
    } else if r > 0 {
      SumMod(r, m.step, m.step);
      AtLeastStep(r, m.step);
      cs := MakeOffer(m, symbol, o, price, r - m.step);
      var low := Lowest(m);
      HelperRests(m, symbol, o, cs, o.side, price, r - m.step, low);
      cs := cs + [Submit(Next(cs, o, o.side, price, low))];
      SumMod(low, m.step, m.step);
      HelperRests(m, symbol, o, cs, Opposite(o.side), price, low - (r - m.step), low + m.step);
      cs := cs + [Submit(Next(cs, o, Opposite(o.side), price, low + m.step))];
    }
  }

  // ---------- Coming to rest ----------

  /** The price at which o is served: its own, or for an order that takes at any price one tick. */
  function ServingPrice(m: MarketConfig, o: OrderView): int {
    if o.typ == Limit || o.typ == StopLimit then o.price else m.tick
  }

  /** Whatever can come to rest does so, with one grain left of it, when it is offered all it wants but that. */
  lemma BroughtToRest(m: MarketConfig, o: OrderView, symbol: string) returns (before: seq<Command>)
    requires Trading(m) && Admitted(m, o) && CanRest(o, Grain(m))
    ensures Staged(m, o, before)
    ensures var b := RunBook(EmptyBook(symbol), before + [Submit(o)]);
      && Offers(b, symbol, Opposite(o.side), o.price, Grain(m))
      && b.On(o.side) != [] && b.On(o.side)[0].id == o.id
  {
    hide Lowest;
    hide RunBook;
    hide RunTrades;
    hide Admitted;
    hide Place;
    hide Staged;
    hide Offers;
    var e, g, price := EmptyBook(symbol), Grain(m), ServingPrice(m, o);
    AdmittedOnGrain(m, o);
    LowestIsLeast(m, o.quantity);
    SumMod(o.quantity, g, m.step);
    Decimal.MultipleMod(1, m.tick);
    before := MakeOffer(m, symbol, o, price, o.quantity - g);
    OneMoreCommand(e, before, Submit(o));
    LeavesOffer(RunBook(e, before), symbol, o, price, o.quantity - g);
  }

  // ---------- The rounded trade ----------

  lemma NotWholeNotZero(price: int, step: int)
    requires !Whole(price, step)
    ensures price != 0
  {
    if price == 0 {
      Decimal.MultipleMod(0, Decimal.SCALE);
    }
  }

  /** Somebody takes one grain from o, which rests with just that, at a price that is not whole. */
  lemma LastGrainIsRounded(b: Book, symbol: string, o: OrderView, p: OrderView, grain: int)
    requires Offers(b, symbol, p.side, o.price, grain) && grain > 0 && !Whole(o.price, grain)
    requires b.On(Opposite(p.side))[0].id == o.id
    requires p.typ != Limit && p.tif != FOK && p.filled == 0 && p.quantity >= grain
    ensures var ts := Place(b, p).matches; |ts| == 1 && ts[0].makerId == o.id && !Exact(ts[0])
  {
    hide Place;
    hide Exact;
    var maker := b.On(Opposite(p.side))[0];
    NotWholeNotZero(o.price, grain);
    TakerIsServed(b, p, maker);
    ExactIff(MakeTrade(symbol, p, maker, grain));
  }

  lemma StagedWith(m: MarketConfig, o: OrderView, cs: seq<Command>)
    requires Staged(m, o, cs) && Admitted(m, o)
    ensures var all := cs + [Submit(o)]; Distinct(all) && AllAdmitted(m, all) && Submit(o) in all
    ensures forall c :: c in cs + [Submit(o)] ==> c.Submit? && |c.order.id| <= |o.id| + |cs|
  {
    hide Admitted;
    var all := cs + [Submit(o)];
    assert all[|cs|] == Submit(o);
    forall i | 0 <= i < |all|
      ensures all[i].Submit? && Admitted(m, all[i].order)
      ensures |all[i].order.id| == |o.id| + if i < |cs| then i + 1 else 0
    {
    }
  }

  lemma StagedAround(m: MarketConfig, o: OrderView, cs: seq<Command>, p: OrderView)
    requires Staged(m, o, cs) && Admitted(m, o) && Admitted(m, p) && p.id == Name(o.id, |cs| + 1)
    ensures var all := cs + [Submit(o)] + [Submit(p)]; Distinct(all) && AllAdmitted(m, all) && Submit(o) in all
  {
    hide Admitted;
    hide Staged;
    StagedWith(m, o, cs);
    var all := cs + [Submit(o)] + [Submit(p)];
    assert forall i :: 0 <= i < |all| - 1 ==> all[i] == (cs + [Submit(o)])[i] && all[i] in cs + [Submit(o)];
    assert all[|cs|] == Submit(o);
  }

  /**
   An admitted order that is not harmless makes a rounded trade in some history of admitted orders: somebody takes its
   last grain.
   */
  lemma SomeTradeIsRounded(m: MarketConfig, o: OrderView, symbol: string) returns (cs: seq<Command>)
    requires Trading(m) && Admitted(m, o) && !Harmless(o, Grain(m))
    ensures Distinct(cs) && AllAdmitted(m, cs) && Submit(o) in cs
    ensures !AllExact(RunTrades(EmptyBook(symbol), cs), {o.id})
  {
    hide Lowest;
    hide RunBook;
    hide RunTrades;
    hide Admitted;
    hide Whole;
    hide Place;
    hide Exact;
    hide Name;
    hide Staged;
    hide Distinct;
    var e, price, low := EmptyBook(symbol), ServingPrice(m, o), Lowest(m);
    AdmittedOnGrain(m, o);
    Decimal.MultipleMod(1, m.tick);
    var before := BroughtToRest(m, o, symbol);
    var p := Helper(o, |before| + 1, Opposite(o.side), IOC, price, low);
    HelperAdmitted(m, o, |before| + 1, Opposite(o.side), IOC, price, low);
    OneMoreCommand(e, before + [Submit(o)], Submit(p));
    LastGrainIsRounded(RunBook(e, before + [Submit(o)]), symbol, o, p, Grain(m));
    StagedAround(m, o, before, p);
    cs := before + [Submit(o)] + [Submit(p)];
    var ts := RunTrades(e, cs);
    assert ts[|ts| - 1] == StepTrades(RunBook(e, before + [Submit(o)]), Submit(p))[0];
  }

  /**
   The boundary for every market and every order it lets through: the order is never the maker of a rounded trade
   exactly when it cannot come to rest or its price is whole for what the market trades.
   */
  lemma AdmittedBoundary(m: MarketConfig, o: OrderView)
    requires Trading(m) && Admitted(m, o)
    ensures NeverRounded(m, o) <==> Harmless(o, Grain(m))
  {
    hide RunTrades;
    hide AllExact;
    hide Distinct;
    hide AllAdmitted;
    hide Harmless;
    hide Admitted;
    if Harmless(o, Grain(m)) {
      forall symbol: string, cs: seq<Command> | Distinct(cs) && AllAdmitted(m, cs) && Submit(o) in cs
        ensures AllExact(RunTrades(EmptyBook(symbol), cs), {o.id})
      {
        HarmlessIsNeverRounded(m, o, symbol, cs);
      }
    } else {
      var cs := SomeTradeIsRounded(m, o, "s");
    }
  }

  /** In a sound market only orders whose price is not checked can be, of a market order only with room. */
  lemma SoundBoundary(m: MarketConfig, o: OrderView)
    requires Sound(m) && Admitted(m, o)
    ensures NeverRounded(m, o) <==>
      || o.typ == Limit || o.typ == StopLimit
      || o.tif == IOC || o.tif == FOK
      || (o.typ == Market && (!Room(m) || o.quantity == m.step))
      || Whole(o.price, Grain(m))
  {
    hide NeverRounded;
    hide Admitted;
    hide Lowest;
    hide Whole;
    SoundIsTrading(m);
    AdmittedBoundary(m, o);
    AdmittedOnGrain(m, o);
    LowestIsLeast(m, o.quantity);
    AtLeastStep(o.quantity, m.step);
    if o.typ == Limit || o.typ == StopLimit {
      PricedIsHarmless(m, o);
    }
  }

  /** On the default market: a market or stop-loss order that may rest, at a price that is not whole for the step. */
  lemma DefaultBoundary(o: OrderView)
    requires Admitted(DefaultMarket(), o)
    ensures NeverRounded(DefaultMarket(), o) <==>
      || o.typ == Limit || o.typ == StopLimit
      || o.tif == IOC || o.tif == FOK
      || Whole(o.price, DefaultMarket().step)
  {
    hide NeverRounded;
    hide Admitted;
    hide Whole;
    var m := DefaultMarket();
    DefaultMarketIsSound();
    SoundBoundary(m, o);
    AdmittedOnGrain(m, o);
    Decimal.MultipleMod(10, m.step);
    LowestIsLeast(m, m.minQty);
  }
}
