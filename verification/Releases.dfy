/** Whether what is frozen for an order comes back when it rests and is cancelled: a condition on the request alone. */
module Releases {
  import opened Types
  import opened FlatBook
  import opened MatchingLaws
  import opened Histories
  import opened Scenarios
  import opened Validator
  import opened OrderFunds
  import Lifetime
  import Decimal

  /** Some book lets the order rest. A market order of one unit is turned away, or filled by the first maker. */
  predicate MayRest(r: RequestView) {
    && r.quantity > 0
    && TifOf(r.tif) != IOC && TifOf(r.tif) != FOK
    && (r.typ == "market" ==> r.quantity >= 2)
  }

  /** The releases add up to the freeze whatever is filled before the order rests. */
  predicate ReleasesItsFreeze(r: RequestView, frozen: int) {
    var one, full := Decimal.Mul(r.price, 1), Decimal.Mul(r.price, r.quantity);
    || r.side == "sell"
    || (IsPriced(r.typ) && (r.price >= 0 || r.quantity == 1 || one == full))
    || (r.typ == "stop_loss" && full == 0)
    || (r.typ == "market" && (frozen == 0 || (frozen == one && frozen == Decimal.Mul(r.price, r.quantity - 1))))
  }

  /** The fills with which an order of this type can come to rest: a market order has traded before. */
  function LeastFill(r: RequestView): int {
    if r.typ == "market" then 1 else 0
  }

  /** Costs lie between those of the smallest and the largest fill. */
  lemma CostsBetween(price: int, a: int, x: int, b: int)
    requires a <= x <= b
    ensures Decimal.Mul(price, a) == Decimal.Mul(price, b) ==> Decimal.Mul(price, x) == Decimal.Mul(price, a)
  {
    if price >= 0 {
      Decimal.MulMonotone(price, a, x);
      Decimal.MulMonotone(price, x, b);
    } else {
      Decimal.MulAntitone(price, a, x);
      Decimal.MulAntitone(price, x, b);
    }
  }

  /** One fill after the other against all of them at once. */
  lemma EveryFill(r: RequestView, frozen: int)
    requires IsSide(r.side) && TypeOf(r.typ).Some? && r.quantity > LeastFill(r)
    ensures (forall filled :: LeastFill(r) <= filled < r.quantity ==> ReleasesMatch(r, frozen, filled)) <==>
      ReleasesItsFreeze(r, frozen)
  {
    hide Decimal.Mul;
    var q := r.quantity;
    if ReleasesItsFreeze(r, frozen) {
      forall filled | LeastFill(r) <= filled < q
        ensures ReleasesMatch(r, frozen, filled)
      {
        if filled > 0 {
          CostsBetween(r.price, 1, filled, q);
          CostsBetween(r.price, 1, filled, q - 1);
        }
      }
    } else {
      assert !ReleasesMatch(r, frozen, LeastFill(r)) || !ReleasesMatch(r, frozen, if q > 1 then 1 else 0)
        || !ReleasesMatch(r, frozen, q - 1);
    }
  }

  /** The sum of both releases, from the engine's answer and from the stored row. */
  function Released(b: Book, r: RequestView, id: string, quoteBalance: Option<int>): int
    requires TypeOf(r.typ).Some?
  {
    var reply := ReplyOf(Place(b, OrderFor(r, id)));
    ReleaseAtPlace(r, FreezeAmount(r, quoteBalance), reply) + ReleaseAtCancel(RowAfter(r, reply))
  }

  predicate ComesToRest(b: Book, r: RequestView, id: string)
    requires TypeOf(r.typ).Some?
  {
    var p := Place(b, OrderFor(r, id)); p.leftover && p.order.status == Open
  }

  /** Whatever the book in which the order comes to rest, its cancellation leaves nothing frozen and takes no more. */
  ghost predicate AlwaysReleased(r: RequestView, quoteBalance: Option<int>)
    requires TypeOf(r.typ).Some?
  {
    forall b: Book, id: string :: BookOk(b) && ComesToRest(b, r, id) ==>
      Released(b, r, id, quoteBalance) == FreezeAmount(r, quoteBalance)
  }

  // ---------- Books that fill as much as is wanted ----------

  function Supply(r: RequestView, filled: int): Book {
    var price := if r.typ == "market" then Decimal.SCALE else r.price;
    var maker := OrderView("maker", "other", Sell, Limit, GTC, price, filled, 0, Open, 1);
    Book("s", [], if filled == 0 then [] else [maker], 1)
  }

  lemma SupplyFills(r: RequestView, filled: int)
    requires r.side == "buy" && TypeOf(r.typ).Some? && MayRest(r) && LeastFill(r) <= filled < r.quantity
    ensures BookOk(Supply(r, filled)) && ComesToRest(Supply(r, filled), r, "o")
    ensures Place(Supply(r, filled), OrderFor(r, "o")).order.filled == filled
  {
    hide Place;
    RemainderRests(Supply(r, filled), OrderFor(r, "o"));
  }

  lemma RestingMayRest(b: Book, r: RequestView, id: string)
    requires BookOk(b) && TypeOf(r.typ).Some? && ComesToRest(b, r, id)
    ensures MayRest(r) && LeastFill(r) <= Place(b, OrderFor(r, id)).order.filled < r.quantity
  {
    hide Match;
    hide MakeTrade;
    hide CanFill;
    RestedFill(b, r, id);
    var o := OrderFor(r, id);
    var ms := b.On(Opposite(o.side));
    Lifetime.MatchKeepsIdentity(b.symbol, o, ms);
    if o.typ == Market {
      MatchStep(b.symbol, o, ms);
      MatchTrades(b.symbol, o, ms);
      MatchConserves(b.symbol, o, ms);
      VolumePositive(Match(b.symbol, o, ms).trades);
    }
  }

  /**
   Freeze and releases of an order that comes to rest and is cancelled agree in every book exactly when the request
   satisfies the condition: sells, priced buys at a price that is not negative, and a few accidents of rounding.
   */
  lemma AlwaysReleasedIff(r: RequestView, quoteBalance: Option<int>)
    requires IsSide(r.side) && TypeOf(r.typ).Some?
    ensures AlwaysReleased(r, quoteBalance) <==> !MayRest(r) || ReleasesItsFreeze(r, FreezeAmount(r, quoteBalance))
  {
    hide Place;
    hide Decimal.Mul;
    hide MayRest;
    hide ReleasesMatch;
    hide ReleasesItsFreeze;
    hide FreezeAmount;
    hide Released;
    hide BookOk;
    hide ComesToRest;
    var frozen := FreezeAmount(r, quoteBalance);
    if !MayRest(r) || ReleasesItsFreeze(r, frozen) {
      forall b: Book, id: string | BookOk(b) && ComesToRest(b, r, id)
        ensures Released(b, r, id, quoteBalance) == frozen
      {
        RestingMayRest(b, r, id);
        EveryFill(r, frozen);
        ReleasedAtFill(b, r, id, quoteBalance);
      }
    } else {
      MayRestLeast(r);
      EveryFill(r, frozen);
      SellsRelease(r, frozen);
      var filled :| LeastFill(r) <= filled < r.quantity && !ReleasesMatch(r, frozen, filled);
      SupplyFills(r, filled);
      ReleasedAtFill(Supply(r, filled), r, "o", quoteBalance);
    }
  }

  lemma ReleasedAtFill(b: Book, r: RequestView, id: string, quoteBalance: Option<int>)
    requires BookOk(b) && IsSide(r.side) && TypeOf(r.typ).Some? && ComesToRest(b, r, id)
    ensures Released(b, r, id, quoteBalance) == FreezeAmount(r, quoteBalance) <==>
      ReleasesMatch(r, FreezeAmount(r, quoteBalance), Place(b, OrderFor(r, id)).order.filled)
  {
    hide Place;
    hide ReleasesMatch;
    FreezeAndReleaseBalance(b, r, id, quoteBalance);
  }

  lemma MayRestLeast(r: RequestView)
    requires MayRest(r)
    ensures r.quantity > LeastFill(r)
  {
  }

  lemma SellsRelease(r: RequestView, frozen: int)
    requires IsSide(r.side) && !ReleasesItsFreeze(r, frozen)
    ensures r.side == "buy"
  {
  }
}
