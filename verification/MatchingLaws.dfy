/** Laws of one matching pass: shape, conservation, quantity, best execution, exactness of the pre-check. */
module MatchingLaws {
  import opened Types
  import opened FlatBook
  import Decimal

  function Volume(ts: seq<Trade>): int {
    if ts == [] then 0 else ts[0].quantity + Volume(ts[1..])
  }

  /** The exact, unrounded value of some trades, in units of 10^-36. */
  function Notional(ts: seq<Trade>): int {
    if ts == [] then 0 else ts[0].price * ts[0].quantity + Notional(ts[1..])
  }

  // ---------- Shape ----------

  /** The trade names both parties in their roles, the maker's price, and the rounded-down value of the quantity. */
  predicate Records(x: Trade, symbol: string, t: OrderView, m: OrderView) {
    && x.symbol == symbol
    && x.takerId == t.id && x.takerUser == t.user && x.takerSide == t.side
    && x.makerId == m.id && x.makerUser == m.user && x.price == m.price
    && x.quoteQty * Decimal.SCALE <= m.price * x.quantity < x.quoteQty * Decimal.SCALE + Decimal.SCALE
  }

  lemma MadeRecords(symbol: string, t: OrderView, m: OrderView, q: int)
    ensures Records(MakeTrade(symbol, t, m, q), symbol, t, m)
  {
    Decimal.MulIsFloor(m.price, q);
  }

  /** Trade i is between the taker and maker i, at the maker's price. */
  ghost predicate TradesWith(symbol: string, t: OrderView, ms: seq<OrderView>, ts: seq<Trade>)
  {
    && |ts| <= |ms|
    && forall i :: 0 <= i < |ts| ==>
         && ts[i] == MakeTrade(symbol, t, ms[i], ts[i].quantity)
         && Records(ts[i], symbol, t, ms[i])
         && 0 < ts[i].quantity <= ms[i].Remaining()
         && Crosses(t, ms[i].price)
  }

  /** The makers after the trades: those that traded are gone, except that the last may be partly filled. */
  ghost predicate MakersAfter(ms: seq<OrderView>, ts: seq<Trade>, after: seq<OrderView>)
    requires |ts| <= |ms|
  {
    && (forall i :: 0 <= i < |ts| - 1 ==> ts[i].quantity == ms[i].Remaining())
    && var n := |ts|;
       if n == 0 then after == ms
       else if ts[n - 1].quantity == ms[n - 1].Remaining() then after == ms[n..]
       else after == [Fill(ms[n - 1], ts[n - 1].quantity)] + ms[n..]
  }

  lemma SameParty(symbol: string, t: OrderView, q: int)
    ensures forall x, m :: Records(x, symbol, Fill(t, q), m) <==> Records(x, symbol, t, m)
  {
  }

  lemma TradesWithCons(symbol: string, t: OrderView, q: int, ms: seq<OrderView>, ms': seq<OrderView>, ts: seq<Trade>)
    requires ms != [] && Crosses(t, ms[0].price) && 0 < q <= ms[0].Remaining()
    requires TradesWith(symbol, Fill(t, q), ms', ts)
    requires ms' == ms[1..] || ts == []
    ensures TradesWith(symbol, t, ms, [MakeTrade(symbol, t, ms[0], q)] + ts)
  {
    hide Records;
    MadeRecords(symbol, t, ms[0], q);
    var all := [MakeTrade(symbol, t, ms[0], q)] + ts;
    SameParty(symbol, t, q);
    forall i | 0 <= i < |all|
      ensures all[i] == MakeTrade(symbol, t, ms[i], all[i].quantity) && Records(all[i], symbol, t, ms[i])
      ensures 0 < all[i].quantity <= ms[i].Remaining() && Crosses(t, ms[i].price)
    {
      if i > 0 {
        assert all[i] == ts[i - 1] && ms[i] == ms'[i - 1];
      }
    }
  }

  /** Trades happen in list order, with each maker at most once and at the maker's own acceptable price. */
  lemma {:induction false} MatchTrades(symbol: string, t: OrderView, ms: seq<OrderView>)
    requires forall i :: 0 <= i < |ms| ==> ms[i].Remaining() > 0
    ensures TradesWith(symbol, t, ms, Match(symbol, t, ms).trades)
    decreases |ms|, t.Remaining()
  {
    if CanTrade(t, ms) {
      var q := TradeQty(t, ms[0]);
      var t', ms' := Fill(t, q), AfterFill(ms, q);
      MatchTrades(symbol, t', ms');
      TradesWithCons(symbol, t, q, ms, ms', Match(symbol, t', ms').trades);
    }
  }

  /** What is left of the makers, and of the taker. */
  ghost predicate Settled(t: OrderView, ms: seq<OrderView>, r: Outcome)
  {
    && |r.trades| <= |ms|
    && MakersAfter(ms, r.trades, r.makers)
    && !CanTrade(r.taker, r.makers)
    && (r.trades != [] ==> r.taker.Remaining() >= 0)
    && (r.trades != [] && r.trades[|r.trades| - 1].quantity < ms[|r.trades| - 1].Remaining()
        ==> r.taker.Remaining() == 0)
  }

  lemma SettledCons(t: OrderView, tr: Trade, ms: seq<OrderView>, r: Outcome)
    requires ms != [] && tr.quantity == ms[0].Remaining()
    requires Settled(t, ms[1..], r)
    requires r.trades == [] ==> r.taker.Remaining() >= 0
    ensures Settled(t, ms, r.(trades := [tr] + r.trades))
  {
    var k := |r.trades|;
    var all := [tr] + r.trades;
    assert forall i :: 0 < i < |all| ==> all[i] == r.trades[i - 1] && ms[i] == ms[1..][i - 1];
    assert ms[1..][k..] == ms[k + 1..];
    if k > 0 {
      assert all[k] == r.trades[k - 1] && ms[k] == ms[1..][k - 1];
    }
  }

  /**
   Every maker but the last that trades is consumed, and the pass stops only when the taker is filled,
   the list is exhausted or the price is refused.
   */
  lemma {:induction false} MatchSettles(symbol: string, t: OrderView, ms: seq<OrderView>)
    requires forall i :: 0 <= i < |ms| ==> ms[i].Remaining() > 0
    ensures Settled(t, ms, Match(symbol, t, ms))
    decreases |ms|, t.Remaining()
  {
    if CanTrade(t, ms) {
      var q := TradeQty(t, ms[0]);
      var t', ms' := Fill(t, q), AfterFill(ms, q);
      if q == ms[0].Remaining() {
        MatchSettles(symbol, t', ms');
        SettledCons(t', MakeTrade(symbol, t, ms[0], q), ms, Match(symbol, t', ms'));
      } else {
        assert Match(symbol, t', ms') == Outcome([], t', ms');
      }
    }
  }

  /** The pass moves exactly the traded quantity out of the resting depth and into the taker. */
  lemma {:induction false} MatchConserves(symbol: string, t: OrderView, ms: seq<OrderView>)
    ensures var r := Match(symbol, t, ms);
      && Depth(r.makers) + Volume(r.trades) == Depth(ms)
      && r.taker == Fill(t, Volume(r.trades))
    decreases |ms|, t.Remaining()
  {
    if CanTrade(t, ms) {
      var q := TradeQty(t, ms[0]);
      var ms' := AfterFill(ms, q);
      MatchConserves(symbol, Fill(t, q), ms');
      var r := Match(symbol, t, ms);
      assert r.trades[1..] == Match(symbol, Fill(t, q), ms').trades;
      if Fill(ms[0], q).Remaining() > 0 {
        assert ms'[1..] == ms[1..];
      }
    }
  }

  lemma MakersKeepSide(ms: seq<OrderView>, ts: seq<Trade>, after: seq<OrderView>, side: Side, n: nat)
    requires SideOk(ms, side) && ArrivedBy(ms, n)
    requires |ts| <= |ms| && MakersAfter(ms, ts, after)
    requires ts != [] ==> ts[|ts| - 1].quantity <= ms[|ts| - 1].Remaining()
    ensures SideOk(after, side) && ArrivedBy(after, n)
  {
    var k := |ts|;
    if k > 0 && ts[k - 1].quantity < ms[k - 1].Remaining() {
      var tail := [ms[k - 1]] + ms[k..];
      assert forall i :: 0 <= i < |tail| ==> tail[i] == ms[k - 1 + i];
      assert forall i :: 0 < i < |after| ==> after[i] == tail[i];
    }
  }

  /** A pass leaves the remaining makers in priority order, open and with something left. */
  lemma {:induction false} MatchKeepsSide(symbol: string, t: OrderView, ms: seq<OrderView>, side: Side, n: nat)
    requires SideOk(ms, side) && ArrivedBy(ms, n)
    ensures SideOk(Match(symbol, t, ms).makers, side)
    ensures ArrivedBy(Match(symbol, t, ms).makers, n)
  {
    MatchSettles(symbol, t, ms);
    var r := Match(symbol, t, ms);
    MatchTrades(symbol, t, ms);
    MakersKeepSide(ms, r.trades, r.makers, side, n);
  }

  // ---------- Quantity ----------

  /** In a sorted list, once a price is refused every later one is. */
  lemma {:induction false} RefusedTail(t: OrderView, ms: seq<OrderView>)
    requires SideOk(ms, Opposite(t.side))
    requires ms != [] && !Crosses(t, ms[0].price)
    ensures EligibleDepth(t, ms) == 0
  {
    if |ms| > 1 {
      assert Before(ms[0], ms[1]);
      assert SideOk(ms[1..], Opposite(t.side));
      RefusedTail(t, ms[1..]);
    }
  }

  lemma {:induction false} EligibleNonNegative(t: OrderView, ms: seq<OrderView>)
    requires forall i :: 0 <= i < |ms| ==> ms[i].Remaining() > 0
    ensures EligibleDepth(t, ms) >= 0
  {
    if ms != [] {
      EligibleNonNegative(t, ms[1..]);
    }
  }

  lemma {:induction false} DepthNonNegative(ms: seq<OrderView>)
    requires forall i :: 0 <= i < |ms| ==> ms[i].Remaining() > 0
    ensures Depth(ms) >= 0
  {
    if ms != [] {
      DepthNonNegative(ms[1..]);
    }
  }

  lemma {:induction false} EligibleAfterFill(t: OrderView, t': OrderView, ms: seq<OrderView>)
    requires t'.typ == t.typ && t'.side == t.side && t'.price == t.price
    ensures EligibleDepth(t', ms) == EligibleDepth(t, ms)
  {
    if ms != [] {
      EligibleAfterFill(t, t', ms[1..]);
    }
  }

  /** A pass trades the smaller of what the taker wants and what the whole side offers at acceptable prices. */
  lemma {:induction false} MatchedQuantity(symbol: string, t: OrderView, ms: seq<OrderView>)
    requires SideOk(ms, Opposite(t.side))
    requires t.Remaining() >= 0
    ensures Volume(Match(symbol, t, ms).trades) == Decimal.Min(t.Remaining(), EligibleDepth(t, ms))
    decreases |ms|, t.Remaining()
  {
    EligibleNonNegative(t, ms);
    if CanTrade(t, ms) {
      var q := TradeQty(t, ms[0]);
      var t', ms' := Fill(t, q), AfterFill(ms, q);
      if q == ms[0].Remaining() {
        MatchedQuantity(symbol, t', ms');
        EligibleAfterFill(t, t', ms');
      } else {
        assert Match(symbol, t', ms').trades == [];
        EligibleNonNegative(t, ms[1..]);
      }
      assert Match(symbol, t, ms).trades[1..] == Match(symbol, t', ms').trades;
    } else if ms != [] && !Crosses(t, ms[0].price) {
      RefusedTail(t, ms);
    }
  }

  // ---------- Best execution ----------

  /** A way to take a quantity from the makers: how much from each, and nothing at a refused price. */
  ghost predicate Allocation(t: OrderView, ms: seq<OrderView>, a: seq<int>) {
    && |a| == |ms|
    && forall i :: 0 <= i < |ms| ==> 0 <= a[i] <= ms[i].Remaining() && (a[i] > 0 ==> Crosses(t, ms[i].price))
  }

  function Sum(a: seq<int>): int {
    if a == [] then 0 else a[0] + Sum(a[1..])
  }

  /** The exact value of an allocation, each maker at its own price. */
  function Value(ms: seq<OrderView>, a: seq<int>): int
    requires |a| == |ms|
  {
    if a == [] then 0 else ms[0].price * a[0] + Value(ms[1..], a[1..])
  }

  /** Positive when y costs a taker on `side` more than x; that is, when y brings a selling taker less. */
  function Worsening(side: Side, x: int, y: int): int {
    if side == Buy then y - x else x - y
  }

  /** Filling the list from the front, stated without prices or takers: the amounts a greedy pass takes. */
  function Greedy(ms: seq<OrderView>, q: int): seq<int> {
    if ms == [] then []
    else
      var x := Decimal.Min(q, ms[0].Remaining());
      [x] + Greedy(ms[1..], q - x)
  }

  lemma {:induction false} GreedySize(ms: seq<OrderView>, q: int)
    ensures |Greedy(ms, q)| == |ms|
  {
    if ms != [] {
      GreedySize(ms[1..], q - Decimal.Min(q, ms[0].Remaining()));
    }
  }

  /** Taking d more from a list whose prices are all at least as bad as p costs at least p for each extra unit. */
  lemma {:induction false} GreedyExtra(side: Side, ms: seq<OrderView>, q: int, d: int, p: int)
    requires forall i :: 0 <= i < |ms| ==> ms[i].Remaining() > 0 && Worsening(side, p, ms[i].price) >= 0
    requires q >= 0 && d >= 0 && q + d <= Depth(ms)
    ensures |Greedy(ms, q)| == |ms| == |Greedy(ms, q + d)|
    ensures Worsening(side, Value(ms, Greedy(ms, q)) + p * d, Value(ms, Greedy(ms, q + d))) >= 0
  {
    hide Greedy;
    GreedySize(ms, q);
    GreedySize(ms, q + d);
    if ms == [] {
      NothingGreedy(q);
      NothingGreedy(q + d);
    } else {
      var r, m := ms[0].Remaining(), ms[0].price;
      var x, y := Decimal.Min(q, r), Decimal.Min(q + d, r);
      DepthNonNegative(ms[1..]);
      GreedyExtra(side, ms[1..], q - x, d - (y - x), p);
      GreedyCons(ms, q, x);
      GreedyCons(ms, q + d, y);
      var less, more := Greedy(ms[1..], q - x), Greedy(ms[1..], q + d - y);
      ExtraStep(side, p, m, x, y - x, d, Value(ms[1..], less), Value(ms[1..], more));
    }
  }

  lemma NothingGreedy(q: int)
    ensures Greedy([], q) == [] && Value([], []) == 0
  {
  }

  lemma ExtraStep(side: Side, p: int, m: int, x: int, e: int, d: int, less: int, more: int)
    requires Worsening(side, p, m) >= 0 && e >= 0
    requires Worsening(side, less + p * (d - e), more) >= 0
    ensures Worsening(side, m * x + less + p * d, m * (x + e) + more) >= 0
  {
    ExtraUnits(side, p, m, e);
    assert p * d == p * (d - e) + p * e;
    assert m * (x + e) == m * x + m * e;
  }

  lemma ExtraUnits(side: Side, p: int, m: int, e: int)
    requires Worsening(side, p, m) >= 0 && e >= 0
    ensures Worsening(side, p * e, m * e) >= 0
  {
    if side == Buy {
      assert (m - p) * e >= 0;
    } else {
      assert (p - m) * e >= 0;
    }
  }

  lemma {:induction false} SumBounded(t: OrderView, ms: seq<OrderView>, a: seq<int>)
    requires Allocation(t, ms, a)
    ensures 0 <= Sum(a) <= Depth(ms)
  {
    if a != [] {
      SumBounded(t, ms[1..], a[1..]);
    }
  }

  /** Prices never improve for a taker on `side` along the list. */
  ghost predicate PriceSorted(side: Side, ms: seq<OrderView>) {
    forall i, j :: 0 <= i < j < |ms| ==> Worsening(side, ms[i].price, ms[j].price) >= 0
  }

  /** No allocation of a quantity over a sorted list beats the greedy one. */
  lemma {:induction false} GreedyIsBest(t: OrderView, ms: seq<OrderView>, a: seq<int>)
    requires PriceSorted(t.side, ms) && (forall i :: 0 <= i < |ms| ==> ms[i].Remaining() > 0)
    requires Allocation(t, ms, a)
    ensures |Greedy(ms, Sum(a))| == |ms|
    ensures Worsening(t.side, Value(ms, Greedy(ms, Sum(a))), Value(ms, a)) >= 0
  {
    GreedySize(ms, Sum(a));
    if ms != [] {
      var q, m, tail, b := Sum(a), ms[0].price, ms[1..], a[1..];
      var g := Decimal.Min(q, ms[0].Remaining());
      var d := g - a[0];
      assert Allocation(t, tail, b);
      SumBounded(t, tail, b);
      GreedyIsBest(t, tail, b);
      assert q - g + d == Sum(b);
      assert forall i :: 0 <= i < |tail| ==> tail[i] == ms[i + 1];
      GreedyExtra(t.side, tail, q - g, d, m);
      GreedyStep(t.side, m, a[0], d, Value(tail, Greedy(tail, q - g)), Value(tail, Greedy(tail, Sum(b))),
        Value(tail, b));
      assert Greedy(ms, q)[1..] == Greedy(tail, q - g);
    }
  }

  lemma GreedyStep(side: Side, m: int, x: int, d: int, less: int, more: int, other: int)
    requires Worsening(side, less + m * d, more) >= 0 && Worsening(side, more, other) >= 0
    ensures Worsening(side, m * (x + d) + less, m * x + other) >= 0
  {
    assert m * (x + d) == m * x + m * d;
  }

  /** The pass spends exactly what the greedy allocation of the traded quantity costs. */
  lemma {:induction false} MatchIsGreedy(symbol: string, t: OrderView, ms: seq<OrderView>)
    requires SideOk(ms, Opposite(t.side)) && t.Remaining() >= 0
    ensures var ts := Match(symbol, t, ms).trades; var g := Greedy(ms, Volume(ts));
      |g| == |ms| && Notional(ts) == Value(ms, g)
    decreases |ms|, t.Remaining()
  {
    hide SideOk;
    hide Match;
    hide Greedy;
    hide EligibleDepth;
    SideRemaining(ms, Opposite(t.side));
    var ts := Match(symbol, t, ms).trades;
    GreedySize(ms, Volume(ts));
    if CanTrade(t, ms) {
      var q := TradeQty(t, ms[0]);
      var t', ms' := Fill(t, q), AfterFill(ms, q);
      var ts' := Match(symbol, t', ms').trades;
      MatchStep(symbol, t, ms);
      assert ts[1..] == ts';
      if q == ms[0].Remaining() {
        SideRest(ms, Opposite(t.side));
        MatchIsGreedy(symbol, t', ms');
        MatchedQuantity(symbol, t', ms');
        EligibleNonNegative(t', ms');
      } else {
        MatchStop(symbol, t', ms');
        GreedyNothing(ms[1..]);
      }
      GreedyCons(ms, Volume(ts), q);
    } else {
      MatchStop(symbol, t, ms);
      GreedyNothing(ms);
    }
  }

  lemma SideRemaining(ms: seq<OrderView>, side: Side)
    requires SideOk(ms, side)
    ensures forall i :: 0 <= i < |ms| ==> ms[i].Remaining() > 0
  {
  }

  lemma SideRest(ms: seq<OrderView>, side: Side)
    requires SideOk(ms, side) && ms != []
    ensures SideOk(ms[1..], side)
  {
  }

  /** A greedy allocation that starts with q goes on with the rest. */
  lemma GreedyCons(ms: seq<OrderView>, volume: int, q: int)
    requires ms != [] && Decimal.Min(volume, ms[0].Remaining()) == q
    ensures Greedy(ms, volume) == [q] + Greedy(ms[1..], volume - q)
    ensures |Greedy(ms[1..], volume - q)| == |ms[1..]| && |Greedy(ms, volume)| == |ms|
    ensures Value(ms, Greedy(ms, volume)) == ms[0].price * q + Value(ms[1..], Greedy(ms[1..], volume - q))
  {
    GreedySize(ms, volume);
    GreedySize(ms[1..], volume - q);
    assert Greedy(ms, volume)[1..] == Greedy(ms[1..], volume - q);
  }

  lemma {:induction false} GreedyNothing(ms: seq<OrderView>)
    requires forall i :: 0 <= i < |ms| ==> ms[i].Remaining() > 0
    ensures |Greedy(ms, 0)| == |ms| && Value(ms, Greedy(ms, 0)) == 0
  {
    if ms != [] {
      GreedyNothing(ms[1..]);
      assert Greedy(ms, 0)[1..] == Greedy(ms[1..], 0);
    }
  }

  /**
   Best execution: no other way of taking the traded quantity from acceptable resting orders is cheaper
   for a buyer, and none brings a seller more.
   */
  lemma BestExecution(symbol: string, t: OrderView, ms: seq<OrderView>, a: seq<int>)
    requires SideOk(ms, Opposite(t.side)) && t.Remaining() >= 0
    requires Allocation(t, ms, a)
    requires Sum(a) == Volume(Match(symbol, t, ms).trades)
    ensures t.side == Buy ==> Notional(Match(symbol, t, ms).trades) <= Value(ms, a)
    ensures t.side == Sell ==> Notional(Match(symbol, t, ms).trades) >= Value(ms, a)
  {
    MatchIsGreedy(symbol, t, ms);
    forall i, j | 0 <= i < j < |ms|
      ensures Worsening(t.side, ms[i].price, ms[j].price) >= 0
    {
      assert Before(ms[i], ms[j]);
    }
    GreedyIsBest(t, ms, a);
  }

  // ---------- Fill or kill ----------

  /** The pre-check predicts the pass: for a positive quantity it holds exactly when the pass fills the order. */
  lemma CanFillExact(b: Book, o: OrderView)
    requires BookOk(b) && o.filled == 0 && o.quantity > 0
    ensures CanFill(b, o) <==> Match(b.symbol, o, b.On(Opposite(o.side))).taker.Remaining() <= 0
  {
    var ms := b.On(Opposite(o.side));
    MatchConserves(b.symbol, o, ms);
    MatchedQuantity(b.symbol, o, ms);
    if ms != [] && !Crosses(o, ms[0].price) {
      RefusedTail(o, ms);
    }
  }

  /**
   For other quantities the two differ exactly when no resting order is acceptable: nothing is left to fill, yet the
   check says no.
   */
  lemma CanFillNonPositive(b: Book, o: OrderView)
    requires BookOk(b) && o.filled == 0 && o.quantity <= 0
    ensures Match(b.symbol, o, b.On(Opposite(o.side))).taker.Remaining() <= 0
    ensures var ms := b.On(Opposite(o.side));
      CanFill(b, o) <==> ms != [] && Crosses(o, ms[0].price)
  {
    EligibleNonNegative(o, b.On(Opposite(o.side)));
  }

  /**
   A fill-or-kill order either leaves the book as it was, with no trade, or is filled completely:
   the branch of MatchOrder that discards trades is never reached.
   */
  lemma FillOrKillIsAtomic(b: Book, o: OrderView)
    requires BookOk(b) && o.tif == FOK && o.filled == 0 && o.quantity > 0
    ensures var p := Place(b, o);
      || (p.book == b && p.matches == [] && p.order == o.(status := Rejected) && p.leftover)
      || (!p.leftover && p.order == o.(filled := o.quantity, status := Filled) && Volume(p.matches) == o.quantity
          && p.matches == Match(b.symbol, o, b.On(Opposite(o.side))).trades)
    ensures !TurnedAway(b, o) ==> !MatchOrder(b, o).leftover
  {
    if !TurnedAway(b, o) {
      var ms := b.On(Opposite(o.side));
      CanFillExact(b, o);
      MatchConserves(b.symbol, o, ms);
      MatchedQuantity(b.symbol, o, ms);
    }
  }
}
