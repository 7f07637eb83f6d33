/** Which market orders are turned away for want of liquidity, and when that happens with orders on offer. */
module MarketOrders {
  import opened Types
  import opened FlatBook
  import opened Engine
  import opened Histories
  import opened Grid
  import opened Validator
  import opened MarketRules
  import opened RoundingBoundary
  import Decimal

  /** Somebody rests at price zero, and nobody at a better one. */
  ghost predicate ZeroIsBest(ms: seq<OrderView>, side: Side) {
    && (exists i :: 0 <= i < |ms| && ms[i].price == 0)
    && (forall i :: 0 <= i < |ms| ==> !Better(side, ms[i].price, 0))
  }

  lemma BestPriceIsZero(ms: seq<OrderView>, side: Side)
    requires SideOk(ms, side)
    ensures BestPrice(ms) == 0 <==> ms == [] || ZeroIsBest(ms, side)
  {
    if ms != [] {
      assert forall i :: 0 < i < |ms| ==> Before(ms[0], ms[i]);
      assert ms[0].price == 0 || Better(side, 0, ms[0].price) || Better(side, ms[0].price, 0);
    }
  }

  lemma {:induction false} AllEligible(t: OrderView, ms: seq<OrderView>)
    requires t.typ != Limit
    ensures EligibleDepth(t, ms) == Depth(ms)
  {
    if ms != [] {
      AllEligible(t, ms[1..]);
    }
  }

  /**
   A market order is turned away exactly when nobody is on offer, or the best offer is at price zero, or it must be
   filled completely and the whole other side does not suffice.
   */
  lemma MarketTurnedAwayIff(b: Book, t: OrderView)
    requires BookOk(b) && t.typ == Market
    ensures var ms := b.On(Opposite(t.side));
      TurnedAway(b, t) <==>
        ms == [] || ZeroIsBest(ms, Opposite(t.side)) || (t.tif == FOK && Depth(ms) < t.quantity)
  {
    var ms := b.On(Opposite(t.side));
    BestPriceIsZero(ms, Opposite(t.side));
    AllEligible(t, ms);
    hide SideOk;
    hide ZeroIsBest;
    hide EligibleDepth;
    hide Depth;
  }

  /**
   Every admitted order at price zero that can come to rest, as a market order without a price can, does so in some
   history of admitted orders; from then on all market orders of the other side are turned away, with it on offer.
   */
  lemma ZeroPriceBlocks(m: MarketConfig, o: OrderView, symbol: string) returns (cs: seq<Command>)
    requires Trading(m) && Admitted(m, o) && o.price == 0 && CanRest(o, Grain(m))
    ensures Distinct(cs) && AllAdmitted(m, cs) && Submit(o) in cs
    ensures var b := RunBook(EmptyBook(symbol), cs);
      && b.On(o.side) != []
      && forall t: OrderView :: t.typ == Market && t.side == Opposite(o.side) ==> TurnedAway(b, t)
  {
    hide RunBook;
    hide Admitted;
    hide Staged;
    hide CanFill;
    hide CanRest;
    hide Grain;
    hide Distinct;
    var before := BroughtToRest(m, o, symbol);
    StagedWith(m, o, before);
    cs := before + [Submit(o)];
  }
}
