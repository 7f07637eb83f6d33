/** When no trade of a history is rounded. */
module Grid {
  import opened Types
  import opened FlatBook
  import opened MatchingLaws
  import opened BookLaws
  import opened Engine
  import opened Histories
  import opened Lifetime
  import Decimal

  // ---------- Multiples ----------

  lemma Multiple(a: int, m: int) returns (k: int)
    requires m > 0 && a % m == 0
    ensures a == k * m
  {
    k := a / m;
  }

  lemma SumMod(a: int, b: int, m: int)
    requires m > 0 && a % m == 0 && b % m == 0
    ensures (a + b) % m == 0 && (a - b) % m == 0
  {
    var x := Multiple(a, m);
    var y := Multiple(b, m);
    assert (x + y) * m == a + b && (x - y) * m == a - b;
    Decimal.MultipleMod(x + y, m);
    Decimal.MultipleMod(x - y, m);
  }

  /** A positive multiple of the step is at least the step. */
  lemma AtLeastStep(a: int, step: int)
    requires step > 0 && a > 0 && a % step == 0
    ensures a >= step
    ensures a < 2 * step ==> a == step
  {
    var k := Multiple(a, step);
    if k >= 2 {
      Decimal.StrictMultiple(1, k, step);
    }
  }

  // ---------- Exact products ----------

  /** No quantity on the step is rounded at this price. */
  predicate Whole(price: int, step: int) {
    (price * step) % Decimal.SCALE == 0
  }

  /** The trade's quote quantity is the exact product. */
  predicate Exact(t: Trade) {
    t.quoteQty * Decimal.SCALE == t.price * t.quantity
  }

  /** A floored product is exact exactly when the scale divides the exact one. */
  lemma ExactIff(t: Trade)
    requires t.quoteQty == Decimal.Mul(t.price, t.quantity)
    ensures Exact(t) <==> (t.price * t.quantity) % Decimal.SCALE == 0
  {
    ScaledFloor(t.price * t.quantity);
  }

  lemma ScaledFloor(x: int)
    ensures x / Decimal.SCALE * Decimal.SCALE == x <==> x % Decimal.SCALE == 0
  {
  }

  /** At a whole price every quantity on the step is charged exactly. */
  lemma WholeProduct(price: int, qty: int, step: int)
    requires step > 0 && qty % step == 0 && Whole(price, step)
    ensures Decimal.Mul(price, qty) * Decimal.SCALE == price * qty
  {
    var y := Multiple(qty, step);
    var z := Multiple(price * step, Decimal.SCALE);
    assert price * (y * step) == y * (price * step);
    assert y * (z * Decimal.SCALE) == (y * z) * Decimal.SCALE;
    Decimal.MultipleMod(y * z, Decimal.SCALE);
    ScaledFloor(price * qty);
  }

  /** A price on the tick is whole when the scale divides tick times step. */
  lemma TickIsWhole(price: int, tick: int, step: int)
    requires tick > 0 && price % tick == 0 && Whole(tick, step)
    ensures Whole(price, step)
  {
    var x := Multiple(price, tick);
    var z := Multiple(tick * step, Decimal.SCALE);
    assert (x * tick) * step == x * (tick * step);
    assert x * (z * Decimal.SCALE) == (x * z) * Decimal.SCALE;
    Decimal.MultipleMod(x * z, Decimal.SCALE);
  }

  // ---------- Orders ----------

  /** Quantities on the step. */
  predicate OnStep(o: OrderView, step: int)
    requires step > 0
  {
    o.quantity % step == 0 && o.filled % step == 0
  }

  /** What holds of every resting order: quantities on the step, and for the orders in question a whole price. */
  ghost predicate OnGrid(o: OrderView, step: int, ids: set<string>)
    requires step > 0
  {
    OnStep(o, step) && (o.id in ids ==> Whole(o.price, step))
  }

  ghost predicate AllOnGrid(ms: seq<OrderView>, step: int, ids: set<string>)
    requires step > 0
  {
    forall i :: 0 <= i < |ms| ==> OnGrid(ms[i], step, ids)
  }

  /** The order can come to rest. A market order of one step cannot: it is turned away, or filled by the first maker. */
  predicate CanRest(o: OrderView, step: int) {
    && o.quantity > 0
    && o.tif != IOC && o.tif != FOK
    && (o.typ == Market ==> o.quantity >= 2 * step)
  }

  /** No order that can come to rest has a price at which quantities on the step are rounded. */
  predicate Harmless(o: OrderView, step: int) {
    CanRest(o, step) ==> Whole(o.price, step)
  }

  ghost predicate Submittable(o: OrderView, step: int, ids: set<string>)
    requires step > 0
  {
    OnStep(o, step) && o.filled == 0 && (o.id in ids ==> Harmless(o, step))
  }

  ghost predicate TradesOnGrid(ts: seq<Trade>, step: int, ids: set<string>)
    requires step > 0
  {
    forall i :: 0 <= i < |ts| ==>
      && (ts[i].makerId in ids ==> Whole(ts[i].price, step))
      && ts[i].quantity % step == 0
      && ts[i].quoteQty == Decimal.Mul(ts[i].price, ts[i].quantity)
  }

  // ---------- Matching on the grid ----------

  lemma FillOnStep(o: OrderView, q: int, step: int)
    requires step > 0 && OnStep(o, step) && q % step == 0
    ensures OnStep(Fill(o, q), step)
  {
    SumMod(o.filled, q, step);
  }

  lemma {:induction false} MatchOnGrid(symbol: string, t: OrderView, ms: seq<OrderView>, step: int, ids: set<string>)
    requires step > 0 && OnStep(t, step) && AllOnGrid(ms, step, ids)
    ensures var r := Match(symbol, t, ms);
      TradesOnGrid(r.trades, step, ids) && OnStep(r.taker, step) && AllOnGrid(r.makers, step, ids)
    decreases |ms|, t.Remaining()
  {
    hide Decimal.Mul;
    hide Whole;
    if CanTrade(t, ms) {
      var q := TradeQty(t, ms[0]);
      SumMod(t.quantity, t.filled, step);
      SumMod(ms[0].quantity, ms[0].filled, step);
      FillOnStep(t, q, step);
      FillOnStep(ms[0], q, step);
      MatchOnGrid(symbol, Fill(t, q), AfterFill(ms, q), step, ids);
    }
  }

  lemma {:induction false} InsertOnGrid(ms: seq<OrderView>, o: OrderView, step: int, ids: set<string>)
    requires step > 0 && OnGrid(o, step, ids) && AllOnGrid(ms, step, ids)
    ensures AllOnGrid(Insert(ms, o), step, ids)
  {
    hide OnGrid;
    if !(ms == [] || Better(o.side, o.price, ms[0].price)) {
      InsertOnGrid(ms[1..], o, step, ids);
    }
  }

  /** A market order of one step that meets anybody is filled at once. */
  lemma OneStepIsFilled(symbol: string, t: OrderView, ms: seq<OrderView>, step: int)
    requires step > 0 && t.typ == Market && t.filled == 0 && t.quantity == step
    requires ms != [] && ms[0].Remaining() > 0 && OnStep(ms[0], step)
    ensures Match(symbol, t, ms).taker.Remaining() == 0
  {
    hide MakeTrade;
    SumMod(ms[0].quantity, ms[0].filled, step);
    AtLeastStep(ms[0].Remaining(), step);
    MatchStep(symbol, t, ms);
    MatchStop(symbol, Fill(t, step), AfterFill(ms, step));
  }

  ghost predicate BookOnGrid(b: Book, step: int, ids: set<string>)
    requires step > 0
  {
    AllOnGrid(b.bids, step, ids) && AllOnGrid(b.asks, step, ids)
  }

  /** What comes to rest could. */
  lemma RestedCanRest(b: Book, o: OrderView, step: int, ids: set<string>)
    requires step > 0 && BookOk(b) && BookOnGrid(b, step, ids) && OnStep(o, step) && o.filled == 0
    requires !TurnedAway(b, o) && Rests(FlatBook.MatchOrder(b, o))
    ensures CanRest(o, step)
  {
    hide Match;
    hide CanFill;
    hide Whole;
    var ms := b.On(Opposite(o.side));
    MatchKeepsIdentity(b.symbol, o, ms);
    MatchTrades(b.symbol, o, ms);
    MatchConserves(b.symbol, o, ms);
    TakerQuantity(Match(b.symbol, o, ms).trades, o.side, o.id);
    if o.typ == Market && o.quantity < 2 * step {
      AtLeastStep(o.quantity, step);
      OneStepIsFilled(b.symbol, o, ms, step);
    }
  }

  lemma PlaceOnGrid(b: Book, o: OrderView, step: int, ids: set<string>)
    requires step > 0 && BookOk(b) && BookOnGrid(b, step, ids) && Submittable(o, step, ids)
    ensures BookOnGrid(Place(b, o).book, step, ids) && TradesOnGrid(Place(b, o).matches, step, ids)
  {
    hide TurnedAway;
    hide AllOnGrid;
    hide Match;
    hide Insert;
    hide Decimal.Mul;
    hide CanRest;
    hide Whole;
    if !TurnedAway(b, o) {
      MatchOnGrid(b.symbol, o, b.On(Opposite(o.side)), step, ids);
      MatchKeepsIdentity(b.symbol, o, b.On(Opposite(o.side)));
      var r := FlatBook.MatchOrder(b, o);
      NoneOnGrid(step, ids);
      if Rests(r) {
        RestedCanRest(b, o, step, ids);
        InsertOnGrid(r.book.On(o.side), r.order.(status := Open, arrival := r.book.seqNum + 1), step, ids);
      }
    } else {
      NoneOnGrid(step, ids);
    }
  }

  lemma NoneOnGrid(step: int, ids: set<string>)
    requires step > 0
    ensures AllOnGrid([], step, ids) && TradesOnGrid([], step, ids)
  {
  }

  lemma CancelOnGrid(b: Book, id: string, step: int, ids: set<string>)
    requires step > 0 && BookOnGrid(b, step, ids)
    ensures BookOnGrid(CancelBook(b, id), step, ids)
  {
    hide OnGrid;
  }

  // ---------- Histories on the grid ----------

  ghost predicate SubmitsOnGrid(cs: seq<Command>, step: int, ids: set<string>)
    requires step > 0
  {
    forall i :: 0 <= i < |cs| && cs[i].Submit? ==> Submittable(cs[i].order, step, ids)
  }

  lemma {:induction false} HistoryOnGrid(symbol: string, cs: seq<Command>, step: int, ids: set<string>)
    requires step > 0 && SubmitsOnGrid(cs, step, ids)
    ensures BookOnGrid(RunBook(EmptyBook(symbol), cs), step, ids)
    ensures TradesOnGrid(RunTrades(EmptyBook(symbol), cs), step, ids)
  {
    hide OnGrid;
    hide Whole;
    hide Submittable;
    hide Decimal.Mul;
    hide BookOk;
    hide Place;
    hide CancelBook;
    if cs != [] {
      var n, e := |cs| - 1, EmptyBook(symbol);
      HistoryOnGrid(symbol, cs[..n], step, ids);
      EmptyBookOk(symbol);
      RunKeepsBook(e, cs[..n]);
      match cs[n]
      case Submit(o) => PlaceOnGrid(RunBook(e, cs[..n]), o, step, ids);
      case Cancel(id) => CancelOnGrid(RunBook(e, cs[..n]), id, step, ids);
    }
  }

  /** Every trade made by one of these orders is charged the exact product. */
  ghost predicate AllExact(ts: seq<Trade>, ids: set<string>) {
    forall i :: 0 <= i < |ts| && ts[i].makerId in ids ==> Exact(ts[i])
  }

  /**
   No rounding loss: when every submitted order is on the step, every resting quantity stays a multiple of the step,
   and every trade of the history made by an order in question is charged the exact product when these are harmless.
   */
  lemma NoRoundingLoss(symbol: string, cs: seq<Command>, step: int, ids: set<string>)
    requires step > 0 && SubmitsOnGrid(cs, step, ids)
    ensures var b := RunBook(EmptyBook(symbol), cs);
      forall o :: o in b.bids || o in b.asks ==> o.Remaining() % step == 0
    ensures AllExact(RunTrades(EmptyBook(symbol), cs), ids)
  {
    hide RunBook;
    hide RunTrades;
    hide Decimal.Mul;
    hide Whole;
    HistoryOnGrid(symbol, cs, step, ids);
    var b, ts := RunBook(EmptyBook(symbol), cs), RunTrades(EmptyBook(symbol), cs);
    forall o | o in b.bids || o in b.asks
      ensures o.Remaining() % step == 0
    {
      SumMod(o.quantity, o.filled, step);
    }
    forall i | 0 <= i < |ts| && ts[i].makerId in ids
      ensures Exact(ts[i])
    {
      WholeProduct(ts[i].price, ts[i].quantity, step);
    }
  }
}
