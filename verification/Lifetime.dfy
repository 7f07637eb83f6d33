/** What an order trades over its whole life, as taker and later as maker, against what was frozen for it. */
module Lifetime {
  import opened Types
  import opened FlatBook
  import opened MatchingLaws
  import opened BookLaws
  import opened Engine
  import opened Histories
  import Decimal

  /** The order on the given side of a trade. */
  function Party(t: Trade, side: Side): string {
    if t.takerSide == side then t.takerId else t.makerId
  }

  /** The base quantity an order has traded on a side. */
  function Traded(ts: seq<Trade>, side: Side, id: string): int {
    if ts == [] then 0 else (if Party(ts[0], side) == id then ts[0].quantity else 0) + Traded(ts[1..], side, id)
  }

  function Bought(ts: seq<Trade>, id: string): int {
    Traded(ts, Buy, id)
  }

  /** The quote quantity a buy was charged, before fees. */
  function Spent(ts: seq<Trade>, id: string): int {
    if ts == [] then 0 else (if Party(ts[0], Buy) == id then ts[0].quoteQty else 0) + Spent(ts[1..], id)
  }

  /** The number of its trades. */
  function Fills(ts: seq<Trade>, id: string): int {
    if ts == [] then 0 else (if Party(ts[0], Buy) == id then 1 else 0) + Fills(ts[1..], id)
  }

  lemma {:induction false} SumsConcat(a: seq<Trade>, b: seq<Trade>, side: Side, id: string)
    ensures Traded(a + b, side, id) == Traded(a, side, id) + Traded(b, side, id)
    ensures Spent(a + b, id) == Spent(a, id) + Spent(b, id)
  {
    if a == [] {
      assert a + b == b;
    } else {
      assert (a + b)[1..] == a[1..] + b;
      SumsConcat(a[1..], b, side, id);
    }
  }

  lemma {:induction false} NotInvolved(ts: seq<Trade>, side: Side, id: string)
    requires forall i :: 0 <= i < |ts| ==> Party(ts[i], side) != id
    ensures Traded(ts, side, id) == 0
    ensures side == Buy ==> Spent(ts, id) == 0
  {
    if ts != [] {
      NotInvolved(ts[1..], side, id);
    }
  }

  lemma {:induction false} InvolvedOnce(ts: seq<Trade>, side: Side, id: string, i: nat)
    requires i < |ts| && forall j :: 0 <= j < |ts| ==> (Party(ts[j], side) == id <==> j == i)
    ensures Traded(ts, side, id) == ts[i].quantity
    ensures side == Buy ==> Spent(ts, id) == ts[i].quoteQty
  {
    assert forall j :: 0 <= j < |ts[1..]| ==> ts[1..][j] == ts[j + 1];
    if i == 0 {
      NotInvolved(ts[1..], side, id);
    } else {
      InvolvedOnce(ts[1..], side, id, i - 1);
    }
  }

  // ---------- One pass ----------

  /** An accepted order's trades are all those of the matching pass: none is ever discarded. */
  lemma NoTradeDiscarded(b: Book, o: OrderView)
    requires BookOk(b) && o.filled == 0
    ensures Place(b, o).matches ==
      if TurnedAway(b, o) then [] else Match(b.symbol, o, b.On(Opposite(o.side))).trades
  {
    if o.tif == FOK && !TurnedAway(b, o) {
      if o.quantity > 0 {
        FillOrKillIsAtomic(b, o);
      }
    }
  }

  /** The trades of an order's own pass, all of them its own. */
  lemma {:induction false} TakerQuantity(ts: seq<Trade>, side: Side, id: string)
    requires forall i :: 0 <= i < |ts| ==> Party(ts[i], side) == id && ts[i].quantity > 0
    ensures Traded(ts, side, id) == Volume(ts) >= 0
  {
    if ts != [] {
      TakerQuantity(ts[1..], side, id);
    }
  }

  /** A buyer that takes at acceptable prices is charged at most its limit for what it buys. */
  lemma {:induction false} TakerCost(ts: seq<Trade>, id: string, limit: int)
    requires forall i :: 0 <= i < |ts| ==>
      && Party(ts[i], Buy) == id && ts[i].price <= limit && ts[i].quantity > 0
      && ts[i].quoteQty == Decimal.Mul(ts[i].price, ts[i].quantity)
    ensures Spent(ts, id) * ONE <= limit * Bought(ts, id)
  {
    if ts != [] {
      TakerCost(ts[1..], id, limit);
      FillCost(ts[0].price, limit, ts[0].quantity);
      var cost := Decimal.Mul(ts[0].price, ts[0].quantity);
      CostAdds(cost, Spent(ts[1..], id), limit, ts[0].quantity, Bought(ts[1..], id));
    }
  }

  lemma FillCost(price: int, limit: int, q: int)
    requires price <= limit && q >= 0
    ensures Decimal.Mul(price, q) * ONE <= limit * q
  {
    Decimal.MulIsFloor(price, q);
    assert price * q <= limit * q;
  }

  lemma CostAdds(s1: int, s2: int, limit: int, q1: int, q2: int)
    requires s1 * ONE <= limit * q1 && s2 * ONE <= limit * q2
    ensures (s1 + s2) * ONE <= limit * (q1 + q2)
  {
    assert limit * (q1 + q2) == limit * q1 + limit * q2;
  }

  // ---------- The tracked order ----------

  /** The resting orders that carry p's identifier are p filled by q. */
  ghost predicate RestsAs(ms: seq<OrderView>, p: OrderView, q: int) {
    forall i :: 0 <= i < |ms| && ms[i].id == p.id ==>
      ms[i].filled == q && ms[i].quantity == p.quantity && ms[i].price == p.price
  }

  /** The most an order may trade. */
  function Wanted(p: OrderView): int {
    Decimal.Max(p.quantity, 0)
  }

  /** A limit buy was charged at most its limit for what it bought. */
  predicate CostOk(ts: seq<Trade>, p: OrderView) {
    p.side == Buy && p.typ == Limit ==> Spent(ts, p.id) * ONE <= p.price * Bought(ts, p.id)
  }

  /** Up to here p has traded what its resting remainder says, no more than it wanted, and within its cost. */
  ghost predicate Tracked(b: Book, ts: seq<Trade>, p: OrderView) {
    var q := Traded(ts, p.side, p.id);
    && 0 <= q <= Wanted(p)
    && CostOk(ts, p)
    && RestsAs(b.On(p.side), p, q)
    && !Holds(b.On(Opposite(p.side)), p.id)
  }

  lemma {:induction false} InsertRestsAs(ms: seq<OrderView>, o: OrderView, p: OrderView, q: int)
    requires RestsAs(ms, p, q)
    requires o.id == p.id ==> o.filled == q && o.quantity == p.quantity && o.price == p.price
    ensures RestsAs(Insert(ms, o), p, q)
  {
    if !(ms == [] || Better(o.side, o.price, ms[0].price)) {
      InsertRestsAs(ms[1..], o, p, q);
    }
  }

  lemma DeleteRestsAs(ms: seq<OrderView>, i: nat, p: OrderView, q: int)
    requires RestsAs(ms, p, q) && i < |ms|
    ensures RestsAs(Delete(ms, i), p, q)
  {
    var d := Delete(ms, i);
    assert forall k :: 0 <= k < |d| ==> d[k] == ms[if k < i then k else k + 1];
  }

  /** What one pass adds to the tracked order's account when it may rest among the makers. */
  ghost predicate Adds(ts: seq<Trade>, after: seq<OrderView>, p: OrderView, q: int) {
    var more := Traded(ts, p.side, p.id);
    && 0 <= more && q + more <= Wanted(p)
    && (p.side == Buy ==> Spent(ts, p.id) * ONE <= p.price * more)
    && RestsAs(after, p, q + more)
  }

  /** A pass over p's side: if it meets p, then once, at p's price, within what p still wants. */
  lemma TakerMeets(symbol: string, t: OrderView, ms: seq<OrderView>, p: OrderView, q: int)
    requires SideOk(ms, p.side) && t.side == Opposite(p.side) && t.id != p.id
    requires DistinctIds(ms) && RestsAs(ms, p, q) && 0 <= q <= Wanted(p)
    ensures var r := Match(symbol, t, ms); Adds(r.trades, r.makers, p, q)
  {
    hide Match;
    hide DistinctIds;
    hide RestsAs;
    hide Adds;
    MatchTrades(symbol, t, ms);
    MatchSettles(symbol, t, ms);
    var r := Match(symbol, t, ms);
    TakerMeetsShape(symbol, t, ms, r.trades, r.makers, p, q);
  }

  lemma TakerMeetsShape(symbol: string, t: OrderView, ms: seq<OrderView>, ts: seq<Trade>, after: seq<OrderView>,
                        p: OrderView, q: int)
    requires t.side == Opposite(p.side)
    requires DistinctIds(ms) && RestsAs(ms, p, q) && 0 <= q <= Wanted(p)
    requires TradesWith(symbol, t, ms, ts) && MakersAfter(ms, ts, after)
    ensures Adds(ts, after, p, q)
  {
    assert forall i :: 0 <= i < |ts| ==> Party(ts[i], p.side) == ms[i].id;
    if i :| 0 <= i < |ts| && ms[i].id == p.id {
      InvolvedOnce(ts, p.side, p.id, i);
      FillCost(p.price, p.price, ts[i].quantity);
      AfterMeeting(ms, ts, after, p, q, i);
    } else {
      NotInvolved(ts, p.side, p.id);
      AfterMissing(ms, ts, after, p, q);
    }
  }

  lemma AfterMeeting(ms: seq<OrderView>, ts: seq<Trade>, after: seq<OrderView>, p: OrderView, q: int, i: nat)
    requires DistinctIds(ms) && RestsAs(ms, p, q)
    requires |ts| <= |ms| && MakersAfter(ms, ts, after) && i < |ts| && ms[i].id == p.id
    ensures RestsAs(after, p, q + ts[i].quantity)
  {
    var n := |ts|;
    var d := |ms| - |after|;
    forall k | 0 <= k < |after| && after[k].id == p.id
      ensures k == 0 && d == n - 1 && i == n - 1 && after[k] == Fill(ms[i], ts[i].quantity)
    {
      MakersAfterIds(ms, ts, after);
      assert ms[d + k].id == ms[i].id;
    }
  }

  lemma AfterMissing(ms: seq<OrderView>, ts: seq<Trade>, after: seq<OrderView>, p: OrderView, q: int)
    requires RestsAs(ms, p, q)
    requires |ts| <= |ms| && MakersAfter(ms, ts, after)
    requires forall i :: 0 <= i < |ts| ==> ms[i].id != p.id
    ensures RestsAs(after, p, q)
  {
    var n := |ts|;
    forall k | 0 <= k < |after| && after[k].id == p.id
      ensures after[k].filled == q && after[k].quantity == p.quantity && after[k].price == p.price
    {
      MakersAfterIds(ms, ts, after);
      var d := |ms| - |after|;
      assert ms[d + k].id == p.id;
      assert after[k] == ms[d + k];
    }
  }

  // ---------- One step ----------

  lemma {:induction false} MatchKeepsIdentity(symbol: string, t: OrderView, ms: seq<OrderView>)
    ensures var r := Match(symbol, t, ms).taker; r == t.(filled := r.filled)
    decreases |ms|, t.Remaining()
  {
    if CanTrade(t, ms) {
      var q := TradeQty(t, ms[0]);
      MatchKeepsIdentity(symbol, Fill(t, q), AfterFill(ms, q));
    }
  }

  /** The two sides after an accepted order: the makers left opposite, and its own side with it or without. */
  lemma SidesAfter(b: Book, o: OrderView)
    requires !TurnedAway(b, o)
    ensures var r := Match(b.symbol, o, b.On(Opposite(o.side))); var after := Place(b, o).book;
      && after.On(Opposite(o.side)) == r.makers
      && (after.On(o.side) == b.On(o.side)
          || after.On(o.side) == Insert(b.On(o.side), r.taker.(status := Open, arrival := b.seqNum + 1)))
  {
    hide TurnedAway;
    hide Match;
    hide Insert;
    MatchKeepsIdentity(b.symbol, o, b.On(Opposite(o.side)));
  }

  /** What an accepted order leaves on its own side. */
  lemma OwnSide(b: Book, o: OrderView, p: OrderView, q: int)
    requires RestsAs(b.On(o.side), p, q) && !TurnedAway(b, o)
    requires var t := Match(b.symbol, o, b.On(Opposite(o.side))).taker;
      o.id == p.id ==> t.filled == q && t.quantity == p.quantity && t.price == p.price
    ensures RestsAs(Place(b, o).book.On(o.side), p, q)
  {
    hide TurnedAway;
    hide Match;
    hide Insert;
    hide RestsAs;
    hide Place;
    SidesAfter(b, o);
    MatchKeepsIdentity(b.symbol, o, b.On(Opposite(o.side)));
    var t := Match(b.symbol, o, b.On(Opposite(o.side))).taker;
    InsertRestsAs(b.On(o.side), t.(status := Open, arrival := b.seqNum + 1), p, q);
  }

  lemma NotHeldRestsAs(ms: seq<OrderView>, p: OrderView, q: int)
    requires !Holds(ms, p.id)
    ensures RestsAs(ms, p, q)
  {
  }

  /** The new order's own pass. */
  lemma OwnPass(symbol: string, p: OrderView, ms: seq<OrderView>)
    requires SideOk(ms, Opposite(p.side)) && p.filled == 0
    ensures var r := Match(symbol, p, ms); var q := Traded(r.trades, p.side, p.id);
      0 <= q <= Wanted(p) && CostOk(r.trades, p) && r.taker == Fill(p, q)
  {
    hide Match;
    MatchTrades(symbol, p, ms);
    MatchSettles(symbol, p, ms);
    MatchConserves(symbol, p, ms);
    MatchKeepsIdentity(symbol, p, ms);
    var ts := Match(symbol, p, ms).trades;
    TakerQuantity(ts, p.side, p.id);
    if p.side == Buy && p.typ == Limit {
      TakerCost(ts, p.id, p.price);
    }
  }

  lemma TurnedAwayKeepsBook(b: Book, o: OrderView)
    requires TurnedAway(b, o)
    ensures Place(b, o).book == b
  {
  }

  lemma NothingTraded(p: OrderView)
    ensures Traded([], p.side, p.id) == 0 <= Wanted(p) && CostOk([], p)
  {
  }

  /** The order p itself arrives. */
  lemma PlaceOwn(b: Book, p: OrderView)
    requires BookOk(b) && DistinctIds(b.bids) && DistinctIds(b.asks)
    requires !Holds(b.bids, p.id) && !Holds(b.asks, p.id) && p.filled == 0
    ensures Tracked(Place(b, p).book, Place(b, p).matches, p)
  {
    hide TurnedAway;
    hide Match;
    hide Place;
    hide SideOk;
    hide RestsAs;
    hide Holds;
    hide DistinctIds;
    hide Traded;
    hide Wanted;
    hide CostOk;
    NoTradeDiscarded(b, p);
    if TurnedAway(b, p) {
      TurnedAwayKeepsBook(b, p);
      NotHeldRestsAs(b.On(p.side), p, 0);
      NothingTraded(p);
    } else {
      var ms := b.On(Opposite(p.side));
      var q := Traded(Match(b.symbol, p, ms).trades, p.side, p.id);
      OwnPass(b.symbol, p, ms);
      NotHeldRestsAs(b.On(p.side), p, q);
      OwnSide(b, p, p, q);
      SidesAfter(b, p);
      MatchIds(b, p, ms);
    }
  }

  /** What was traded before and what is traded now add up. */
  lemma TrackedAdds(ts: seq<Trade>, more: seq<Trade>, p: OrderView)
    requires CostOk(ts, p) && (p.side == Buy ==> Spent(more, p.id) * ONE <= p.price * Bought(more, p.id))
    ensures CostOk(ts + more, p)
    ensures Traded(ts + more, p.side, p.id) == Traded(ts, p.side, p.id) + Traded(more, p.side, p.id)
  {
    hide Traded;
    hide Spent;
    SumsConcat(ts, more, p.side, p.id);
    if p.side == Buy && p.typ == Limit {
      CostAdds(Spent(ts, p.id), Spent(more, p.id), p.price, Bought(ts, p.id), Bought(more, p.id));
    }
  }

  /** Another order arrives on p's own side. */
  lemma PlaceBeside(b: Book, ts: seq<Trade>, o: OrderView, p: OrderView)
    requires BookOk(b) && !TurnedAway(b, o) && o.side == p.side && o.id != p.id && o.filled == 0
    requires Tracked(b, ts, p)
    ensures RestsAs(Place(b, o).book.On(p.side), p, Traded(ts + Place(b, o).matches, p.side, p.id))
    ensures Traded(ts + Place(b, o).matches, p.side, p.id) == Traded(ts, p.side, p.id)
    ensures CostOk(ts + Place(b, o).matches, p)
  {
    hide TurnedAway;
    hide Place;
    hide Match;
    hide RestsAs;
    hide CostOk;
    NoTradeDiscarded(b, o);
    var ms := b.On(Opposite(o.side));
    var more := Match(b.symbol, o, ms).trades;
    MatchTrades(b.symbol, o, ms);
    NotInvolved(more, p.side, p.id);
    hide Traded;
    TrackedAdds(ts, more, p);
    OwnSide(b, o, p, Traded(ts, p.side, p.id));
  }

  /** Another order arrives and passes over p's side. */
  lemma PlaceAgainst(b: Book, ts: seq<Trade>, o: OrderView, p: OrderView)
    requires BookOk(b) && DistinctIds(b.On(p.side)) && !TurnedAway(b, o)
    requires o.side == Opposite(p.side) && o.id != p.id && o.filled == 0
    requires Tracked(b, ts, p)
    ensures var all := ts + Place(b, o).matches; var q := Traded(all, p.side, p.id);
      0 <= q <= Wanted(p) && CostOk(all, p) && RestsAs(Place(b, o).book.On(p.side), p, q)
  {
    hide TurnedAway;
    hide Place;
    hide Match;
    hide RestsAs;
    hide CostOk;
    hide Traded;
    hide Spent;
    hide DistinctIds;
    NoTradeDiscarded(b, o);
    TakerMeets(b.symbol, o, b.On(p.side), p, Traded(ts, p.side, p.id));
    TrackedAdds(ts, Match(b.symbol, o, b.On(p.side)).trades, p);
    SidesAfter(b, o);
  }

  /** Another order arrives. */
  lemma PlaceOther(b: Book, ts: seq<Trade>, o: OrderView, p: OrderView)
    requires BookOk(b) && DistinctIds(b.bids) && DistinctIds(b.asks)
    requires !Holds(b.bids, o.id) && !Holds(b.asks, o.id)
    requires Tracked(b, ts, p) && o.id != p.id && o.filled == 0
    ensures Tracked(Place(b, o).book, ts + Place(b, o).matches, p)
  {
    hide TurnedAway;
    hide Place;
    hide RestsAs;
    hide CostOk;
    hide Traded;
    hide DistinctIds;
    hide Holds;
    hide BookOk;
    PlaceIds(b, o);
    if TurnedAway(b, o) {
      NoTradeDiscarded(b, o);
      TurnedAwayKeepsBook(b, o);
      assert ts + [] == ts;
    } else if o.side == p.side {
      PlaceBeside(b, ts, o, p);
    } else {
      PlaceAgainst(b, ts, o, p);
    }
  }

  lemma CancelOther(b: Book, ts: seq<Trade>, id: string, p: OrderView)
    requires DistinctIds(b.bids) && DistinctIds(b.asks) && Tracked(b, ts, p)
    ensures Tracked(CancelBook(b, id), ts, p)
  {
    hide RestsAs;
    hide CostOk;
    hide Traded;
    hide DistinctIds;
    hide Holds;
    CancelIds(b, id);
    var i, j := Find(b.bids, id), Find(b.asks, id);
    if i < |b.bids| {
      if p.side == Buy {
        DeleteRestsAs(b.bids, i, p, Traded(ts, p.side, p.id));
      }
    } else if j < |b.asks| && p.side == Sell {
      DeleteRestsAs(b.asks, j, p, Traded(ts, p.side, p.id));
    }
  }

  // ---------- The whole life ----------

  /** The tracked order's account holds after every later command. */
  lemma {:induction false} TrackedThroughout(symbol: string, cs: seq<Command>, k: nat)
    requires Distinct(cs) && Fresh(cs) && k < |cs| && cs[k].Submit?
    ensures Tracked(RunBook(EmptyBook(symbol), cs), RunTrades(EmptyBook(symbol), cs), cs[k].order)
  {
    hide Tracked;
    hide Distinct;
    hide BookOk;
    hide Place;
    hide CancelBook;
    var p, n, e := cs[k].order, |cs| - 1, EmptyBook(symbol);
    var b, ts := RunBook(e, cs[..n]), RunTrades(e, cs[..n]);
    SubmittedEarlier(cs, n);
    EmptyBookOk(symbol);
    RunKeepsBook(e, cs[..n]);
    TradesAreUnique(symbol, cs[..n]);
    if k == n {
      NotYetInvolved(b, ts, cs[..n], p);
      PlaceOwn(b, p);
      TrackedAppend(Place(b, p).book, ts, Place(b, p).matches, p);
    } else {
      TrackedThroughout(symbol, cs[..n], k);
      match cs[n]
      case Submit(o) =>
        NotYetInvolved(b, ts, cs[..n], o);
        DistinctAt(cs, k, n);
        PlaceOther(b, ts, o, p);
      case Cancel(id) =>
        CancelOther(b, ts, id, p);
        assert ts + [] == ts;
    }
  }

  lemma DistinctAt(cs: seq<Command>, k: nat, n: nat)
    requires Distinct(cs) && k < n < |cs| && cs[k].Submit? && cs[n].Submit?
    ensures cs[k].order.id != cs[n].order.id
  {
  }

  lemma NotYetInvolved(b: Book, ts: seq<Trade>, cs: seq<Command>, p: OrderView)
    requires Identified(b, ts, cs) && !Submitted(cs, p.id)
    ensures DistinctIds(b.bids) && DistinctIds(b.asks) && !Holds(b.bids, p.id) && !Holds(b.asks, p.id)
    ensures Traded(ts, p.side, p.id) == 0 && (p.side == Buy ==> Spent(ts, p.id) == 0)
  {
    NotInvolved(ts, p.side, p.id);
  }

  lemma TrackedAppend(b: Book, ts: seq<Trade>, more: seq<Trade>, p: OrderView)
    requires Tracked(b, more, p) && Traded(ts, p.side, p.id) == 0 && (p.side == Buy ==> Spent(ts, p.id) == 0)
    ensures Tracked(b, ts + more, p)
  {
    hide RestsAs;
    hide Holds;
    SumsConcat(ts, more, p.side, p.id);
  }

  /**
   Over a whole history no order, on either side and of any type, trades more than its quantity, as taker and maker
   together; so a sell never delivers more than the quantity frozen for it. While the order rests, the book holds
   exactly what it has traded.
   */
  lemma TradedWithinQuantity(symbol: string, cs: seq<Command>, k: nat)
    requires Distinct(cs) && Fresh(cs) && k < |cs| && cs[k].Submit?
    ensures var p := cs[k].order; var q := Traded(RunTrades(EmptyBook(symbol), cs), p.side, p.id);
      && 0 <= q <= Decimal.Max(p.quantity, 0)
      && RestsAs(RunBook(EmptyBook(symbol), cs).On(p.side), p, q)
  {
    hide RunTrades;
    hide RunBook;
    hide RestsAs;
    TrackedThroughout(symbol, cs, k);
  }

  /**
   Over a whole history, a limit buy is charged for all its trades together, as taker and as maker, at most the
   product of price and quantity that was frozen when it was placed.
   */
  lemma LimitBuyWithinFreeze(symbol: string, cs: seq<Command>, k: nat)
    requires Distinct(cs) && Fresh(cs) && k < |cs| && cs[k].Submit?
    requires var p := cs[k].order; p.side == Buy && p.typ == Limit && p.quantity >= 0 && p.price >= 0
    ensures var p := cs[k].order; Spent(RunTrades(EmptyBook(symbol), cs), p.id) <= Decimal.Mul(p.price, p.quantity)
  {
    hide RunTrades;
    hide RunBook;
    hide Decimal.Mul;
    hide Distinct;
    TrackedThroughout(symbol, cs, k);
    var p, ts := cs[k].order, RunTrades(EmptyBook(symbol), cs);
    assert p.price * Bought(ts, p.id) <= p.price * p.quantity by {
      OrderedProduct(p.price, Bought(ts, p.id), p.quantity);
    }
    Decimal.MulGalois(Spent(ts, p.id), p.price, p.quantity);
  }

  lemma OrderedProduct(p: int, a: int, b: int)
    requires p >= 0 && a <= b
    ensures p * a <= p * b
  {
  }

  /** When every trade is at the order's own price, rounding keeps less than one unit per trade after the first. */
  lemma {:induction false} OwnPriceGap(ts: seq<Trade>, id: string, price: int)
    requires forall i :: 0 <= i < |ts| && Party(ts[i], Buy) == id ==>
      ts[i].price == price && ts[i].quoteQty == Decimal.Mul(price, ts[i].quantity)
    ensures Fills(ts, id) >= 0
    ensures Fills(ts, id) == 0 ==> Bought(ts, id) == 0 && Spent(ts, id) == 0
    ensures Fills(ts, id) > 0 ==>
      0 <= Decimal.Mul(price, Bought(ts, id)) - Spent(ts, id) <= Fills(ts, id) - 1
  {
    if ts != [] {
      OwnPriceGap(ts[1..], id, price);
      Decimal.MulSplit(price, ts[0].quantity, Bought(ts[1..], id));
    }
  }

  // ---------- Every trade of a history ----------

  /** A trade's quote quantity is the floored product, and its quantity is positive. */
  predicate Floored(ts: seq<Trade>) {
    forall i :: 0 <= i < |ts| ==> ts[i].quantity > 0 && ts[i].quoteQty == Decimal.Mul(ts[i].price, ts[i].quantity)
  }

  lemma {:induction false} HistoryFloored(symbol: string, cs: seq<Command>)
    requires Fresh(cs)
    ensures Floored(RunTrades(EmptyBook(symbol), cs))
  {
    hide Decimal.Mul;
    hide BookOk;
    hide Place;
    if cs != [] {
      var n, e := |cs| - 1, EmptyBook(symbol);
      HistoryFloored(symbol, cs[..n]);
      EmptyBookOk(symbol);
      RunKeepsBook(e, cs[..n]);
      if cs[n].Submit? {
        PlaceFloored(RunBook(e, cs[..n]), cs[n].order);
      }
    }
  }

  lemma PlaceFloored(b: Book, o: OrderView)
    requires BookOk(b) && o.filled == 0
    ensures Floored(Place(b, o).matches)
  {
    hide Place;
    hide TurnedAway;
    hide Match;
    NoTradeDiscarded(b, o);
    MatchTrades(b.symbol, o, b.On(Opposite(o.side)));
  }

  /** In any history, an order all of whose n trades are at its own price loses at most n - 1 units to rounding. */
  lemma OwnPriceGapInHistory(symbol: string, cs: seq<Command>, id: string, price: int)
    requires Fresh(cs)
    requires var ts := RunTrades(EmptyBook(symbol), cs);
      forall i :: 0 <= i < |ts| && Party(ts[i], Buy) == id ==> ts[i].price == price
    ensures var ts := RunTrades(EmptyBook(symbol), cs);
      Fills(ts, id) > 0 ==> 0 <= Decimal.Mul(price, Bought(ts, id)) - Spent(ts, id) <= Fills(ts, id) - 1
  {
    hide RunTrades;
    hide Decimal.Mul;
    HistoryFloored(symbol, cs);
    OwnPriceGap(RunTrades(EmptyBook(symbol), cs), id, price);
  }
}
