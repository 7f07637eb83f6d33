/** The order book of one trading pair: two sorted slices of price levels, each with its queue. */
module OrderBooks {
  import opened Types
  import opened FlatBook
  import opened Levels
  import opened OrderQueues
  import Decimal

  datatype PriceLevel = PriceLevel(price: int, orders: OrderQueue)

  function Prices(levels: seq<PriceLevel>): (ps: seq<int>)
    ensures |ps| == |levels| && forall i :: 0 <= i < |ps| ==> ps[i] == levels[i].price
  {
    seq(|levels|, i requires 0 <= i < |levels| => levels[i].price)
  }

  /** R contains the queue with its nodes and orders. */
  ghost predicate Owns(R: set<object>, q: OrderQueue)
    reads q
  {
    q in R && (forall n :: n in q.nodes ==> n in R) && (forall o :: o in q.orders ==> o in R)
  }

  /** Each level's queue is intact, was made for this level, lies within R, and holds the level's view. */
  ghost predicate Backed(levels: seq<PriceLevel>, side: Side, views: seq<seq<OrderView>>, R: set<object>)
    reads R
  {
    && |levels| == |views|
    && forall i :: 0 <= i < |levels| ==>
         && levels[i].orders in R
         && Owns(R, levels[i].orders)
         && levels[i].orders.Valid()
         && levels[i].orders.side == side && levels[i].orders.price == levels[i].price
         && levels[i].orders.contents == views[i]
  }

  /** A side of a book with its footprint, and the level a step works on, if that is on this side. */
  datatype Grip = Grip(levels: seq<PriceLevel>, side: Side, views: seq<seq<OrderView>>, footprint: set<object>,
                       at: Option<nat>)

  /** A step that disturbs no queue but q changes no view but that of q's level. */
  twostate lemma StepKeepsBacked(g: Grip, new after: set<object>, new q: OrderQueue)
    requires old(Backed(g.levels, g.side, g.views, g.footprint)) && g.footprint <= after
    requires LevelsOk(Prices(g.levels), g.side, g.views)
    requires match g.at
      case Some(i) => i < |g.levels| && g.levels[i].orders == q && q.Valid() && Owns(after, q)
      case None => q.side != g.side || !old(allocated(q))
    requires forall r: OrderQueue {:trigger r.Valid()} ::
      old(allocated(r)) && r != q && old(r.Valid()) ==> r.Valid() && unchanged(r)
    ensures Backed(g.levels, g.side, if g.at.Some? then g.views[g.at.value := q.contents] else g.views, after)
  {
    hide LevelsOk;
    hide OrderQueue.Valid;
    forall j | 0 <= j < |g.levels| && g.at != Some(j)
      ensures g.levels[j].orders.Valid() && unchanged(g.levels[j].orders)
    {
      assert old(allocated(g.levels[j].orders));
      if g.at.Some? {
        PricesDiffer(g.levels, g.side, g.views, g.at.value, j);
      }
    }
  }

  lemma PricesDiffer(levels: seq<PriceLevel>, side: Side, views: seq<seq<OrderView>>, i: nat, j: nat)
    requires LevelsOk(Prices(levels), side, views) && i < |levels| && j < |levels| && i != j
    ensures levels[i].price != levels[j].price
  {
    var k, l := if j < i then j else i, if j < i then i else j;
    assert Better(side, Prices(levels)[k], Prices(levels)[l]);
  }

  /** What stands behind one level. */
  lemma BackedAt(levels: seq<PriceLevel>, side: Side, views: seq<seq<OrderView>>, R: set<object>, i: nat)
    requires Backed(levels, side, views, R) && i < |levels|
    ensures |levels| == |views|
    ensures levels[i].orders in R && Owns(R, levels[i].orders) && levels[i].orders.Valid()
    ensures levels[i].orders.side == side && levels[i].orders.price == levels[i].price
    ensures levels[i].orders.contents == views[i]
  {
  }

  lemma DropLevel(levels: seq<PriceLevel>, side: Side, views: seq<seq<OrderView>>, R: set<object>, i: nat)
    requires Backed(levels, side, views, R) && i < |levels|
    ensures Backed(Delete(levels, i), side, Delete(views, i), R)
    ensures Prices(Delete(levels, i)) == Delete(Prices(levels), i)
  {
    var ls, vs := Delete(levels, i), Delete(views, i);
    assert forall j :: 0 <= j < |ls| ==>
      && ls[j] == levels[if j < i then j else j + 1]
      && vs[j] == views[if j < i then j else j + 1];
  }

  /** A backed level caches the summed remaining quantity and the number of its orders. */
  lemma LevelCaches(levels: seq<PriceLevel>, side: Side, views: seq<seq<OrderView>>, R: set<object>)
    requires Backed(levels, side, views, R)
    ensures |levels| == |views|
    ensures forall i :: 0 <= i < |levels| ==>
      levels[i].orders.volume == Depth(views[i]) && levels[i].orders.len == |views[i]|
  {
    forall i | 0 <= i < |levels|
      ensures levels[i].orders.volume == Depth(views[i]) && levels[i].orders.len == |views[i]|
    {
      levels[i].orders.Lengths();
    }
  }

  lemma AddLevel(levels: seq<PriceLevel>, side: Side, views: seq<seq<OrderView>>, R: set<object>, i: nat, l: PriceLevel)
    requires Backed(levels, side, views, R) && i <= |levels|
    requires l.orders in R && Owns(R, l.orders) && l.orders.Valid()
    requires l.orders.side == side && l.orders.price == l.price
    ensures Backed(levels[..i] + [l] + levels[i..], side, views[..i] + [l.orders.contents] + views[i..], R)
    ensures Prices(levels[..i] + [l] + levels[i..]) == Prices(levels)[..i] + [l.price] + Prices(levels)[i..]
  {
    hide OrderQueue.Linked;
    hide OrderQueue.Carries;
    hide OrderQueue.Counted;
  }

  class OrderBook {
    const symbol: string
    const pool: NodePool
    var bids: seq<PriceLevel>
    var asks: seq<PriceLevel>
    var seqNum: nat

    ghost var bidViews: seq<seq<OrderView>>
    ghost var askViews: seq<seq<OrderView>>
    /** The queues, nodes and orders the book has had a hold of. */
    ghost var Repr: set<object>

    ghost predicate Valid()
      reads this, Repr, pool, pool.free
    {
      && Held()
      && LevelsOk(Prices(bids), Buy, bidViews)
      && LevelsOk(Prices(asks), Sell, askViews)
    }

    lemma Separate()
      requires Valid()
      ensures this !in Repr && pool !in Repr && pool.Valid()
    {
    }

    /** Both sides are backed by intact queues, and the pool is in order. */
    ghost predicate Held()
      reads this, Repr, pool, pool.free
    {
      && this !in Repr && pool !in Repr && pool.Valid()
      && Backed(bids, Buy, bidViews, Repr)
      && Backed(asks, Sell, askViews, Repr)
    }

    lemma Shape()
      requires Held()
      ensures this !in Repr && pool !in Repr && pool.Valid()
      ensures |bids| == |bidViews| && |asks| == |askViews|
    {
    }

    /** The book as two flat lists. */
    ghost function Flat(): Book
      reads this
    {
      Book(symbol, Flatten(bidViews), Flatten(askViews), seqNum)
    }

    constructor (symbol: string, pool: NodePool)
      requires pool.Valid()
      ensures Valid() && Flat() == Book(symbol, [], [], 0) && Repr == {}
      ensures this.symbol == symbol && this.pool == pool
    {
      this.symbol, this.pool := symbol, pool;
      bids, asks, seqNum := [], [], 0;
      bidViews, askViews, Repr := [], [], {};
    }

    /** One iteration of matchBuy's loop, after the price check. */
    method TakeBestAsk(order: Order) returns (trade: Trade)
      requires Valid() && order !in Repr && order.queue == null
      requires asks != []
      modifies this`asks, this`askViews, Repr, order`filledQty, pool
      ensures forall q: OrderQueue {:trigger q.Valid()} ::
        old(allocated(q)) && q !in old(Repr) && old(q.Valid()) ==> q.Valid() && unchanged(q)
      ensures Valid()
      ensures var t, ms := old(order.View()), old(Flat()).asks;
        && ms != []
        && trade == MakeTrade(symbol, t, ms[0], TradeQty(t, ms[0]))
        && order.View() == Fill(t, TradeQty(t, ms[0]))
        && Flat().asks == AfterFill(ms, TradeQty(t, ms[0]))
      ensures forall n :: n in pool.free ==> n in old(pool.free) || n in Repr
    {
      hide OrderQueue.Linked;
      hide OrderQueue.Carries;
      hide Decimal.Mul;
      hide AfterFill;
      hide FillLevel;
      hide Flatten;
      hide LevelsOk;
      hide Backed;
      hide OrderQueue.Valid;
      Shape();
      LevelFilled(Prices(asks), Sell, askViews, 0);
      ghost var q := TradeQty(order.View(), askViews[0][0]);
      FlattenFront(askViews);
      FillLevelFlat(askViews, q);
      FillLevelOk(Prices(asks), Sell, askViews, q);
      trade := TradeWithAsk(order);
      Shape();
      DropEmptyAsk(0);
    }

    /** Remove a level that has become empty. */
    method DropEmptyAsk(i: nat)
      requires Held() && i < |asks| == |askViews| && asks[i].orders.len == |askViews[i]|
      modifies this`asks, this`askViews
      ensures Held()
      ensures askViews == DropEmptyAt(old(askViews), i, old(askViews)[i] == [])
      ensures Prices(asks) == DropEmptyAt(Prices(old(asks)), i, old(askViews)[i] == [])
    {
      hide Backed;
      hide Delete;
      if asks[i].orders.len == 0 {
        DropLevel(asks, Sell, askViews, Repr, i);
        RemoveAskLevel(i);
        askViews := Delete(askViews, i);
      }
    }

    method TradeWithAsk(order: Order) returns (trade: Trade)
      requires Valid() && order !in Repr && order.queue == null
      requires asks != []
      modifies this`askViews, Repr, order`filledQty, pool
      ensures forall q: OrderQueue {:trigger q.Valid()} ::
        old(allocated(q)) && q !in old(Repr) && old(q.Valid()) ==> q.Valid() && unchanged(q)
      ensures Held() && asks[0].orders.len == |askViews[0]|
      ensures var t, m := old(order.View()), old(askViews)[0][0]; var q := TradeQty(t, m);
        && trade == MakeTrade(symbol, t, m, q)
        && order.View() == Fill(t, q)
        && askViews == old(askViews)[0 := FillLevel(old(askViews)[0], q)]
      ensures forall n :: n in pool.free ==> n in old(pool.free) || n in Repr
    {
      hide OrderQueue.Valid;
      hide Backed;
      hide LevelsOk;
      hide Decimal.Mul;
      BackedAt(asks, Sell, askViews, Repr, 0);
      LevelFilled(Prices(asks), Sell, askViews, 0);
      var best := asks[0];
      trade := best.orders.TradeHead(order, symbol, pool);
      assert best.orders.len == |best.orders.contents| by { best.orders.Lengths(); }
      StepInAsk(0, Repr, best.orders);
      askViews := askViews[0 := best.orders.contents];
    }

    method RemoveAskLevel(i: nat)
      requires i < |asks|
      modifies this`asks
      ensures asks == Delete(old(asks), i)
    {
      asks := asks[..i] + asks[i + 1..];
    }

    /** The level at index 0 holds the first order of the flat list. */
    lemma BestAskFirst()
      requires Valid()
      ensures asks != [] <==> Flat().asks != []
      ensures asks != [] ==> Flat().asks[0].price == asks[0].price
    {
      if asks != [] {
        FlattenFront(askViews);
        assert askViews[0][0].price == Prices(asks)[0];
      }
    }

    /** Match a buy order against the asks, best price first and oldest order first. */
    method MatchBuy(order: Order) returns (matches: seq<Trade>)
      requires Valid() && order !in Repr && order.queue == null && order.side == Buy
      modifies this`asks, this`askViews, Repr, order`filledQty, pool
      ensures forall q: OrderQueue {:trigger q.Valid()} ::
        old(allocated(q)) && q !in old(Repr) && old(q.Valid()) ==> q.Valid() && unchanged(q)
      ensures Valid()
      ensures var r := Match(symbol, old(order.View()), old(Flat()).asks);
        matches == r.trades && order.View() == r.taker && Flat().asks == r.makers
      ensures forall n :: n in pool.free ==> n in old(pool.free) || n in Repr
    {
      hide Backed;
      hide LevelsOk;
      hide AfterFill;
      hide Flatten;
      hide Match;
      hide Resumed;
      matches := [];
      ghost var r := Match(symbol, order.View(), Flat().asks);
      ResumedStart(symbol, order.View(), Flat().asks);
      BestAskFirst();
      while order.Remaining() > 0 && |asks| > 0
        invariant forall q: OrderQueue {:trigger q.Valid()} ::
          old(allocated(q)) && q !in Repr && old(q.Valid()) ==> q.Valid() && unchanged(q)
        invariant forall n :: n in pool.free ==> n in old(pool.free) || n in Repr
        invariant Valid() && Repr == old(Repr) && order.queue == null
        invariant asks != [] <==> Flat().asks != []
        invariant r == Resumed(matches, symbol, order.View(), Flat().asks)
        decreases |Flat().asks|, order.Remaining()
      {
        var best := asks[0];
        BestAskFirst();
        if order.typ == Limit && order.price < best.price {
          break;
        }
        FillShrinks(order.View(), Flat().asks);
        ResumedStep(matches, symbol, order.View(), Flat().asks);
        var trade := TakeBestAsk(order);
        matches := matches + [trade];
        BestAskFirst();
      }
      ResumedStop(matches, symbol, order.View(), Flat().asks);
    }

    /** One iteration of matchSell's loop, after the price check. */
    method TakeBestBid(order: Order) returns (trade: Trade)
      requires Valid() && order !in Repr && order.queue == null
      requires bids != []
      modifies this`bids, this`bidViews, Repr, order`filledQty, pool
      ensures forall q: OrderQueue {:trigger q.Valid()} ::
        old(allocated(q)) && q !in old(Repr) && old(q.Valid()) ==> q.Valid() && unchanged(q)
      ensures Valid()
      ensures var t, ms := old(order.View()), old(Flat()).bids;
        && ms != []
        && trade == MakeTrade(symbol, t, ms[0], TradeQty(t, ms[0]))
        && order.View() == Fill(t, TradeQty(t, ms[0]))
        && Flat().bids == AfterFill(ms, TradeQty(t, ms[0]))
      ensures forall n :: n in pool.free ==> n in old(pool.free) || n in Repr
    {
      hide OrderQueue.Linked;
      hide OrderQueue.Carries;
      hide Decimal.Mul;
      hide AfterFill;
      hide FillLevel;
      hide Flatten;
      hide LevelsOk;
      hide Backed;
      hide OrderQueue.Valid;
      Shape();
      LevelFilled(Prices(bids), Buy, bidViews, 0);
      ghost var q := TradeQty(order.View(), bidViews[0][0]);
      FlattenFront(bidViews);
      FillLevelFlat(bidViews, q);
      FillLevelOk(Prices(bids), Buy, bidViews, q);
      trade := TradeWithBid(order);
      Shape();
      DropEmptyBid(0);
    }

    /** Remove a level that has become empty. */
    method DropEmptyBid(i: nat)
      requires Held() && i < |bids| == |bidViews| && bids[i].orders.len == |bidViews[i]|
      modifies this`bids, this`bidViews
      ensures Held()
      ensures bidViews == DropEmptyAt(old(bidViews), i, old(bidViews)[i] == [])
      ensures Prices(bids) == DropEmptyAt(Prices(old(bids)), i, old(bidViews)[i] == [])
    {
      hide Backed;
      hide Delete;
      if bids[i].orders.len == 0 {
        DropLevel(bids, Buy, bidViews, Repr, i);
        RemoveBidLevel(i);
        bidViews := Delete(bidViews, i);
      }
    }

    method TradeWithBid(order: Order) returns (trade: Trade)
      requires Valid() && order !in Repr && order.queue == null
      requires bids != []
      modifies this`bidViews, Repr, order`filledQty, pool
      ensures forall q: OrderQueue {:trigger q.Valid()} ::
        old(allocated(q)) && q !in old(Repr) && old(q.Valid()) ==> q.Valid() && unchanged(q)
      ensures Held() && bids[0].orders.len == |bidViews[0]|
      ensures var t, m := old(order.View()), old(bidViews)[0][0]; var q := TradeQty(t, m);
        && trade == MakeTrade(symbol, t, m, q)
        && order.View() == Fill(t, q)
        && bidViews == old(bidViews)[0 := FillLevel(old(bidViews)[0], q)]
      ensures forall n :: n in pool.free ==> n in old(pool.free) || n in Repr
    {
      hide OrderQueue.Valid;
      hide Backed;
      hide LevelsOk;
      hide Decimal.Mul;
      BackedAt(bids, Buy, bidViews, Repr, 0);
      LevelFilled(Prices(bids), Buy, bidViews, 0);
      var best := bids[0];
      trade := best.orders.TradeHead(order, symbol, pool);
      assert best.orders.len == |best.orders.contents| by { best.orders.Lengths(); }
      StepInBid(0, Repr, best.orders);
      bidViews := bidViews[0 := best.orders.contents];
    }

    method RemoveBidLevel(i: nat)
      requires i < |bids|
      modifies this`bids
      ensures bids == Delete(old(bids), i)
    {
      bids := bids[..i] + bids[i + 1..];
    }

    /** The level at index 0 holds the first order of the flat list. */
    lemma BestBidFirst()
      requires Valid()
      ensures bids != [] <==> Flat().bids != []
      ensures bids != [] ==> Flat().bids[0].price == bids[0].price
    {
      if bids != [] {
        FlattenFront(bidViews);
        assert bidViews[0][0].price == Prices(bids)[0];
      }
    }

    /** Match a sell order against the bids, best price first and oldest order first. */
    method MatchSell(order: Order) returns (matches: seq<Trade>)
      requires Valid() && order !in Repr && order.queue == null && order.side == Sell
      modifies this`bids, this`bidViews, Repr, order`filledQty, pool
      ensures forall q: OrderQueue {:trigger q.Valid()} ::
        old(allocated(q)) && q !in old(Repr) && old(q.Valid()) ==> q.Valid() && unchanged(q)
      ensures Valid()
      ensures var r := Match(symbol, old(order.View()), old(Flat()).bids);
        matches == r.trades && order.View() == r.taker && Flat().bids == r.makers
      ensures forall n :: n in pool.free ==> n in old(pool.free) || n in Repr
    {
      hide Backed;
      hide LevelsOk;
      hide AfterFill;
      hide Flatten;
      hide Match;
      hide Resumed;
      matches := [];
      ghost var r := Match(symbol, order.View(), Flat().bids);
      ResumedStart(symbol, order.View(), Flat().bids);
      BestBidFirst();
      while order.Remaining() > 0 && |bids| > 0
        invariant forall q: OrderQueue {:trigger q.Valid()} ::
          old(allocated(q)) && q !in Repr && old(q.Valid()) ==> q.Valid() && unchanged(q)
        invariant forall n :: n in pool.free ==> n in old(pool.free) || n in Repr
        invariant Valid() && Repr == old(Repr) && order.queue == null
        invariant bids != [] <==> Flat().bids != []
        invariant r == Resumed(matches, symbol, order.View(), Flat().bids)
        decreases |Flat().bids|, order.Remaining()
      {
        var best := bids[0];
        BestBidFirst();
        if order.typ == Limit && order.price > best.price {
          break;
        }
        FillShrinks(order.View(), Flat().bids);
        ResumedStep(matches, symbol, order.View(), Flat().bids);
        var trade := TakeBestBid(order);
        matches := matches + [trade];
        BestBidFirst();
      }
      ResumedStop(matches, symbol, order.View(), Flat().bids);
    }

    // ---------- Coming to rest ----------

    /** Binary search for the first bid level that is not better than the price. */
    method SearchBids(price: int) returns (i: nat)
      requires Valid()
      ensures i <= |bids|
      ensures forall j :: 0 <= j < i ==> bids[j].price > price
      ensures forall j :: i <= j < |bids| ==> bids[j].price <= price
    {
      BidsSorted();
      hide Held;
      i := 0;
      var n := |bids|;
      while i < n
        invariant 0 <= i <= n <= |bids|
        invariant forall j :: 0 <= j < i ==> bids[j].price > price
        invariant forall j :: n <= j < |bids| ==> bids[j].price <= price
      {
        var h := (i + n) / 2;
        if bids[h].price <= price {
          n := h;
        } else {
          i := h + 1;
        }
      }
    }

    lemma BidsSorted()
      requires Valid()
      ensures forall j, k :: 0 <= j < k < |bids| ==> bids[j].price > bids[k].price
    {
      hide Held;
      forall j, k | 0 <= j < k < |bids|
        ensures bids[j].price > bids[k].price
      {
        assert Better(Buy, Prices(bids)[j], Prices(bids)[k]);
      }
    }

    /** Where the search stops is where the order belongs. */
    lemma BidPlacement(i: nat, o: OrderView)
      requires Valid() && o.side == Buy && i <= |bids|
      requires forall j :: 0 <= j < i ==> bids[j].price > o.price
      requires forall j :: i <= j < |bids| ==> bids[j].price <= o.price
      ensures var joins := i < |bids| && bids[i].price == o.price; var vs := InsertOrder(bidViews, i, joins, o);
        && Flatten(vs) == Insert(Flatten(bidViews), o)
        && LevelsOk(if joins then Prices(bids) else Prices(bids)[..i] + [o.price] + Prices(bids)[i..], Buy, vs)
    {
      hide Held;
      var joins := i < |bids| && bids[i].price == o.price;
      BidsSorted();
      assert !joins ==> forall j :: i <= j < |bids| ==> bids[j].price < o.price;
      InsertOrderFlat(Prices(bids), bidViews, i, joins, o);
      InsertOrderOk(Prices(bids), bidViews, i, joins, o);
    }

    /** Rest an order on the bid side, in its price's level or in a new one. */
    method AddBid(order: Order)
      requires Valid() && order !in Repr && order.queue == null && order.side == Buy
      modifies this, Repr, order, pool, pool.free
      ensures forall q: OrderQueue {:trigger q.Valid()} ::
        old(allocated(q)) && q !in old(Repr) && old(q.Valid()) ==> q.Valid() && unchanged(q)
      ensures Valid()
      ensures Flat() == Rest(old(Flat()), old(order.View()))
      ensures seqNum == old(seqNum) + 1 && order.View() == old(order.View()).(status := Open, arrival := seqNum)
      ensures Repr > old(Repr) && order in Repr
      ensures forall x :: x in Repr - old(Repr) ==> x == order || fresh(x) || x in old(pool.free)
      ensures pool.free <= old(pool.free)
    {
      hide Backed;
      hide LevelsOk;
      hide Insert;
      hide Flatten;
      seqNum := seqNum + 1;
      order.status := Open;
      order.arrival := seqNum;
      InsertBid(order);
    }

    method InsertBid(order: Order)
      requires Valid() && order !in Repr && order.queue == null && order.side == Buy
      modifies this`bids, this`bidViews, this`Repr, Repr, order`queue, order`node, pool, pool.free
      ensures forall q: OrderQueue {:trigger q.Valid()} ::
        old(allocated(q)) && q !in old(Repr) && old(q.Valid()) ==> q.Valid() && unchanged(q)
      ensures Valid()
      ensures Flatten(bidViews) == Insert(old(Flatten(bidViews)), order.View())
      ensures Repr > old(Repr) && order in Repr
      ensures forall x :: x in Repr - old(Repr) ==> x == order || fresh(x) || x in old(pool.free)
      ensures pool.free <= old(pool.free)
    {
      hide LevelsOk;
      hide Flatten;
      hide Insert;
      hide Held;
      var i := SearchBids(order.price);
      BidPlacement(i, order.View());
      Shape();
      if i < |bids| && bids[i].price == order.price {
        JoinBid(i, order);
      } else {
        NewBid(i, order);
      }
    }

    method JoinBid(i: nat, order: Order)
      requires Held() && LevelsOk(Prices(bids), Buy, bidViews) && LevelsOk(Prices(asks), Sell, askViews)
      requires order !in Repr && order.queue == null && i < |bids|
      modifies this`bidViews, this`Repr, Repr, order`queue, order`node, pool, pool.free
      ensures forall q: OrderQueue {:trigger q.Valid()} ::
        old(allocated(q)) && q !in old(Repr) && old(q.Valid()) ==> q.Valid() && unchanged(q)
      ensures Held()
      ensures bidViews == old(bidViews)[i := old(bidViews)[i] + [order.View()]]
      ensures Repr > old(Repr) && order in Repr
      ensures forall x :: x in Repr - old(Repr) ==> x == order || fresh(x) || x in old(pool.free)
      ensures pool.free <= old(pool.free)
    {
      hide OrderQueue.Valid;
      hide Backed;
      hide LevelsOk;
      BackedAt(bids, Buy, bidViews, Repr, i);
      var q := bids[i].orders;
      ghost var node := q.Push(order, pool);
      ghost var after := Repr + {order, node};
      StepInBid(i, after, q);
      Repr, bidViews := after, bidViews[i := q.contents];
    }

    /** A step that changes the queue of one bid level and no other leaves both sides backed. */
    twostate lemma StepInBid(i: nat, new after: set<object>, new q: OrderQueue)
      requires old(Held()) && i < |bids| == |bidViews| && bids[i].orders == q
      requires q.Valid() && Owns(after, q) && Repr <= after
      requires LevelsOk(Prices(bids), Buy, bidViews) && LevelsOk(Prices(asks), Sell, askViews)
      requires unchanged(this) && q.side == Buy
      requires forall r: OrderQueue {:trigger r.Valid()} ::
        old(allocated(r)) && r != q && old(r.Valid()) ==> r.Valid() && unchanged(r)
      ensures Backed(asks, Sell, askViews, after)
      ensures Backed(bids, Buy, bidViews[i := q.contents], after)
    {
      hide Backed;
      hide LevelsOk;
      StepKeepsBacked(Grip(asks, Sell, askViews, Repr, None), after, q);
      StepKeepsBacked(Grip(bids, Buy, bidViews, Repr, Some(i)), after, q);
    }

    method NewBid(i: nat, order: Order)
      requires Held() && LevelsOk(Prices(bids), Buy, bidViews) && LevelsOk(Prices(asks), Sell, askViews)
      requires order !in Repr && order.queue == null && i <= |bids|
      modifies this`bids, this`bidViews, this`Repr, order`queue, order`node, pool, pool.free
      ensures forall q: OrderQueue {:trigger q.Valid()} ::
        old(allocated(q)) && q !in old(Repr) && old(q.Valid()) ==> q.Valid() && unchanged(q)
      ensures Held()
      ensures bidViews == old(bidViews)[..i] + [[order.View()]] + old(bidViews)[i..]
      ensures Prices(bids) == Prices(old(bids))[..i] + [order.price] + Prices(old(bids))[i..]
      ensures Repr > old(Repr) && order in Repr
      ensures forall x :: x in Repr - old(Repr) ==> x == order || fresh(x) || x in old(pool.free)
      ensures pool.free <= old(pool.free)
    {
      var q := NewBidQueue(order);
      hide Backed;
      hide OrderQueue.Valid;
      AddLevel(bids, Buy, bidViews, Repr, i, PriceLevel(order.price, q));
      bids := bids[..i] + [PriceLevel(order.price, q)] + bids[i..];
      bidViews := bidViews[..i] + [q.contents] + bidViews[i..];
    }

    /** A queue with one order, not yet part of the bids. */
    method NewBidQueue(order: Order) returns (q: OrderQueue)
      requires Held() && LevelsOk(Prices(bids), Buy, bidViews) && LevelsOk(Prices(asks), Sell, askViews)
      requires order !in Repr && order.queue == null
      modifies this`Repr, order`queue, order`node, pool, pool.free
      ensures forall q: OrderQueue {:trigger q.Valid()} ::
        old(allocated(q)) && q !in old(Repr) && old(q.Valid()) ==> q.Valid() && unchanged(q)
      ensures Held()
      ensures fresh(q) && q.Valid() && Owns(Repr, q) && q.side == Buy && q.price == order.price &&
        q.contents == [order.View()]
      ensures Repr > old(Repr) && order in Repr
      ensures forall x :: x in Repr - old(Repr) ==> x == order || fresh(x) || x in old(pool.free)
      ensures pool.free <= old(pool.free)
    {
      hide OrderQueue.Valid;
      hide LevelsOk;
      ghost var node;
      q, node := OrderQueue.WithOrder(Buy, order, pool);
      ghost var after := Repr + {order, node, q};
      StepKeepsBacked(Grip(asks, Sell, askViews, Repr, None), after, q);
      StepKeepsBacked(Grip(bids, Buy, bidViews, Repr, None), after, q);
      Repr := after;
    }

    /** Binary search for the first ask level that is not better than the price. */
    method SearchAsks(price: int) returns (i: nat)
      requires Valid()
      ensures i <= |asks|
      ensures forall j :: 0 <= j < i ==> asks[j].price < price
      ensures forall j :: i <= j < |asks| ==> asks[j].price >= price
    {
      AsksSorted();
      hide Held;
      i := 0;
      var n := |asks|;
      while i < n
        invariant 0 <= i <= n <= |asks|
        invariant forall j :: 0 <= j < i ==> asks[j].price < price
        invariant forall j :: n <= j < |asks| ==> asks[j].price >= price
      {
        var h := (i + n) / 2;
        if asks[h].price >= price {
          n := h;
        } else {
          i := h + 1;
        }
      }
    }

    lemma AsksSorted()
      requires Valid()
      ensures forall j, k :: 0 <= j < k < |asks| ==> asks[j].price < asks[k].price
    {
      hide Held;
      forall j, k | 0 <= j < k < |asks|
        ensures asks[j].price < asks[k].price
      {
        assert Better(Sell, Prices(asks)[j], Prices(asks)[k]);
      }
    }

    /** Where the search stops is where the order belongs. */
    lemma AskPlacement(i: nat, o: OrderView)
      requires Valid() && o.side == Sell && i <= |asks|
      requires forall j :: 0 <= j < i ==> asks[j].price < o.price
      requires forall j :: i <= j < |asks| ==> asks[j].price >= o.price
      ensures var joins := i < |asks| && asks[i].price == o.price; var vs := InsertOrder(askViews, i, joins, o);
        && Flatten(vs) == Insert(Flatten(askViews), o)
        && LevelsOk(if joins then Prices(asks) else Prices(asks)[..i] + [o.price] + Prices(asks)[i..], Sell, vs)
    {
      hide Held;
      var joins := i < |asks| && asks[i].price == o.price;
      AsksSorted();
      assert !joins ==> forall j :: i <= j < |asks| ==> asks[j].price > o.price;
      InsertOrderFlat(Prices(asks), askViews, i, joins, o);
      InsertOrderOk(Prices(asks), askViews, i, joins, o);
    }

    /** Rest an order on the ask side, in its price's level or in a new one. */
    method AddAsk(order: Order)
      requires Valid() && order !in Repr && order.queue == null && order.side == Sell
      modifies this, Repr, order, pool, pool.free
      ensures forall q: OrderQueue {:trigger q.Valid()} ::
        old(allocated(q)) && q !in old(Repr) && old(q.Valid()) ==> q.Valid() && unchanged(q)
      ensures Valid()
      ensures Flat() == Rest(old(Flat()), old(order.View()))
      ensures seqNum == old(seqNum) + 1 && order.View() == old(order.View()).(status := Open, arrival := seqNum)
      ensures Repr > old(Repr) && order in Repr
      ensures forall x :: x in Repr - old(Repr) ==> x == order || fresh(x) || x in old(pool.free)
      ensures pool.free <= old(pool.free)
    {
      hide Backed;
      hide LevelsOk;
      hide Insert;
      hide Flatten;
      seqNum := seqNum + 1;
      order.status := Open;
      order.arrival := seqNum;
      InsertAsk(order);
    }

    method InsertAsk(order: Order)
      requires Valid() && order !in Repr && order.queue == null && order.side == Sell
      modifies this`asks, this`askViews, this`Repr, Repr, order`queue, order`node, pool, pool.free
      ensures forall q: OrderQueue {:trigger q.Valid()} ::
        old(allocated(q)) && q !in old(Repr) && old(q.Valid()) ==> q.Valid() && unchanged(q)
      ensures Valid()
      ensures Flatten(askViews) == Insert(old(Flatten(askViews)), order.View())
      ensures Repr > old(Repr) && order in Repr
      ensures forall x :: x in Repr - old(Repr) ==> x == order || fresh(x) || x in old(pool.free)
      ensures pool.free <= old(pool.free)
    {
      hide LevelsOk;
      hide Flatten;
      hide Insert;
      hide Held;
      var i := SearchAsks(order.price);
      AskPlacement(i, order.View());
      Shape();
      if i < |asks| && asks[i].price == order.price {
        JoinAsk(i, order);
      } else {
        NewAsk(i, order);
      }
    }

    method JoinAsk(i: nat, order: Order)
      requires Held() && LevelsOk(Prices(asks), Sell, askViews) && LevelsOk(Prices(bids), Buy, bidViews)
      requires order !in Repr && order.queue == null && i < |asks|
      modifies this`askViews, this`Repr, Repr, order`queue, order`node, pool, pool.free
      ensures forall q: OrderQueue {:trigger q.Valid()} ::
        old(allocated(q)) && q !in old(Repr) && old(q.Valid()) ==> q.Valid() && unchanged(q)
      ensures Held()
      ensures askViews == old(askViews)[i := old(askViews)[i] + [order.View()]]
      ensures Repr > old(Repr) && order in Repr
      ensures forall x :: x in Repr - old(Repr) ==> x == order || fresh(x) || x in old(pool.free)
      ensures pool.free <= old(pool.free)
    {
      hide OrderQueue.Valid;
      hide Backed;
      hide LevelsOk;
      BackedAt(asks, Sell, askViews, Repr, i);
      var q := asks[i].orders;
      ghost var node := q.Push(order, pool);
      ghost var after := Repr + {order, node};
      StepInAsk(i, after, q);
      Repr, askViews := after, askViews[i := q.contents];
    }

    /** A step that changes the queue of one ask level and no other leaves both sides backed. */
    twostate lemma StepInAsk(i: nat, new after: set<object>, new q: OrderQueue)
      requires old(Held()) && i < |asks| == |askViews| && asks[i].orders == q
      requires q.Valid() && Owns(after, q) && Repr <= after
      requires LevelsOk(Prices(asks), Sell, askViews) && LevelsOk(Prices(bids), Buy, bidViews)
      requires unchanged(this) && q.side == Sell
      requires forall r: OrderQueue {:trigger r.Valid()} ::
        old(allocated(r)) && r != q && old(r.Valid()) ==> r.Valid() && unchanged(r)
      ensures Backed(bids, Buy, bidViews, after)
      ensures Backed(asks, Sell, askViews[i := q.contents], after)
    {
      hide Backed;
      hide LevelsOk;
      StepKeepsBacked(Grip(bids, Buy, bidViews, Repr, None), after, q);
      StepKeepsBacked(Grip(asks, Sell, askViews, Repr, Some(i)), after, q);
    }

    method NewAsk(i: nat, order: Order)
      requires Held() && LevelsOk(Prices(asks), Sell, askViews) && LevelsOk(Prices(bids), Buy, bidViews)
      requires order !in Repr && order.queue == null && i <= |asks|
      modifies this`asks, this`askViews, this`Repr, order`queue, order`node, pool, pool.free
      ensures forall q: OrderQueue {:trigger q.Valid()} ::
        old(allocated(q)) && q !in old(Repr) && old(q.Valid()) ==> q.Valid() && unchanged(q)
      ensures Held()
      ensures askViews == old(askViews)[..i] + [[order.View()]] + old(askViews)[i..]
      ensures Prices(asks) == Prices(old(asks))[..i] + [order.price] + Prices(old(asks))[i..]
      ensures Repr > old(Repr) && order in Repr
      ensures forall x :: x in Repr - old(Repr) ==> x == order || fresh(x) || x in old(pool.free)
      ensures pool.free <= old(pool.free)
    {
      var q := NewAskQueue(order);
      hide Backed;
      hide OrderQueue.Valid;
      AddLevel(asks, Sell, askViews, Repr, i, PriceLevel(order.price, q));
      asks := asks[..i] + [PriceLevel(order.price, q)] + asks[i..];
      askViews := askViews[..i] + [q.contents] + askViews[i..];
    }

    /** A queue with one order, not yet part of the asks. */
    method NewAskQueue(order: Order) returns (q: OrderQueue)
      requires Held() && LevelsOk(Prices(asks), Sell, askViews) && LevelsOk(Prices(bids), Buy, bidViews)
      requires order !in Repr && order.queue == null
      modifies this`Repr, order`queue, order`node, pool, pool.free
      ensures forall q: OrderQueue {:trigger q.Valid()} ::
        old(allocated(q)) && q !in old(Repr) && old(q.Valid()) ==> q.Valid() && unchanged(q)
      ensures Held()
      ensures fresh(q) && q.Valid() && Owns(Repr, q) && q.side == Sell && q.price == order.price &&
        q.contents == [order.View()]
      ensures Repr > old(Repr) && order in Repr
      ensures forall x :: x in Repr - old(Repr) ==> x == order || fresh(x) || x in old(pool.free)
      ensures pool.free <= old(pool.free)
    {
      hide OrderQueue.Valid;
      hide LevelsOk;
      ghost var node;
      q, node := OrderQueue.WithOrder(Sell, order, pool);
      ghost var after := Repr + {order, node, q};
      StepKeepsBacked(Grip(bids, Buy, bidViews, Repr, None), after, q);
      StepKeepsBacked(Grip(asks, Sell, askViews, Repr, None), after, q);
      Repr := after;
    }

    // ---------- Cancelling ----------

    /** Search the bid levels from the best for the order, take it out and mark it cancelled. */
    method CancelBid(id: string) returns (r: Order?)
      requires Valid()
      modifies this`bids, this`bidViews, Repr, pool
      ensures forall q: OrderQueue {:trigger q.Valid()} ::
        old(allocated(q)) && q !in old(Repr) && old(q.Valid()) ==> q.Valid() && unchanged(q)
      ensures Valid()
      ensures var ms := old(Flatten(bidViews)); var n := Find(ms, id);
        if n == |ms| then r == null && Flatten(bidViews) == ms
        else
          && r != null && r in Repr && r.queue == null && r.View() == ms[n].(status := Cancelled)
          && Flatten(bidViews) == Delete(ms, n)
      ensures forall n :: n in pool.free ==> n in old(pool.free) || n in Repr
    {
      hide Held;
      hide LevelsOk;
      hide Flatten;
      hide Find;
      hide Delete;
      Shape();
      FindNothing(bidViews, id);
      var i := 0;
      while i < |bids|
        invariant forall q: OrderQueue {:trigger q.Valid()} ::
          old(allocated(q)) && q !in Repr && old(q.Valid()) ==> q.Valid() && unchanged(q)
        invariant forall n :: n in pool.free ==> n in old(pool.free) || n in Repr
        invariant Valid() && Repr == old(Repr)
        invariant bids == old(bids) && bidViews == old(bidViews) && 0 <= i <= |bids|
        invariant Find(Flatten(bidViews[..i]), id) == |Flatten(bidViews[..i])|
      {
        r := TryBid(i, id);
        if r != null {
          return;
        }
        i := i + 1;
      }
      assert bidViews[..i] == bidViews;
      return null;
    }

    /** Search one level, the better ones having been searched in vain. */
    method TryBid(i: nat, id: string) returns (r: Order?)
      requires Valid() && i < |bids| == |bidViews|
      requires Find(Flatten(bidViews[..i]), id) == |Flatten(bidViews[..i])|
      modifies this`bids, this`bidViews, Repr, pool
      ensures forall q: OrderQueue {:trigger q.Valid()} ::
        old(allocated(q)) && q !in old(Repr) && old(q.Valid()) ==> q.Valid() && unchanged(q)
      ensures Valid()
      ensures r == null ==>
        && bids == old(bids) && bidViews == old(bidViews)
        && Find(Flatten(bidViews[..i + 1]), id) == |Flatten(bidViews[..i + 1])|
      ensures r != null ==> var ms := old(Flatten(bidViews)); var n := Find(ms, id);
        && n < |ms| && Flatten(bidViews) == Delete(ms, n)
        && r in Repr && r.queue == null && r.View() == ms[n].(status := Cancelled)
      ensures forall n :: n in pool.free ==> n in old(pool.free) || n in Repr
    {
      hide LevelsOk;
      hide Flatten;
      hide Find;
      hide Delete;
      hide DropEmptyAt;
      hide OrderQueue.Valid;
      hide Backed;
      SearchedLevel(Prices(bids), Buy, bidViews, i, id);
      r := RemoveFromBid(i, id);
      if r != null {
        DropEmptyBid(i);
      } else {
        assert bidViews == old(bidViews);
      }
    }

    method RemoveFromBid(i: nat, id: string) returns (r: Order?)
      requires Valid() && i < |bids|
      modifies this`bidViews, Repr, pool
      ensures forall q: OrderQueue {:trigger q.Valid()} ::
        old(allocated(q)) && q !in old(Repr) && old(q.Valid()) ==> q.Valid() && unchanged(q)
      ensures |bids| == |bidViews| && i < |old(bidViews)|
      ensures var v := old(bidViews)[i]; var k := Find(v, id);
        && Held() && bids[i].orders.len == |bidViews[i]|
        && bidViews == old(bidViews)[i := bidViews[i]]
        && if k == |v| then r == null && bidViews[i] == v
           else
             && r != null && r in Repr && r.queue == null && r.View() == v[k].(status := Cancelled)
             && bidViews[i] == Delete(v, k)
      ensures forall n :: n in pool.free ==> n in old(pool.free) || n in Repr
    {
      hide OrderQueue.Valid;
      hide Backed;
      hide LevelsOk;
      hide Find;
      hide Delete;
      BackedAt(bids, Buy, bidViews, Repr, i);
      var q := bids[i].orders;
      r := q.Cancel(id, pool);
      StepInBid(i, Repr, q);
      bidViews := bidViews[i := q.contents];
      q.Lengths();
    }

    /** Search the ask levels from the best for the order, take it out and mark it cancelled. */
    method CancelAsk(id: string) returns (r: Order?)
      requires Valid()
      modifies this`asks, this`askViews, Repr, pool
      ensures forall q: OrderQueue {:trigger q.Valid()} ::
        old(allocated(q)) && q !in old(Repr) && old(q.Valid()) ==> q.Valid() && unchanged(q)
      ensures Valid()
      ensures var ms := old(Flatten(askViews)); var n := Find(ms, id);
        if n == |ms| then r == null && Flatten(askViews) == ms
        else
          && r != null && r in Repr && r.queue == null && r.View() == ms[n].(status := Cancelled)
          && Flatten(askViews) == Delete(ms, n)
      ensures forall n :: n in pool.free ==> n in old(pool.free) || n in Repr
    {
      hide Held;
      hide LevelsOk;
      hide Flatten;
      hide Find;
      hide Delete;
      Shape();
      FindNothing(askViews, id);
      var i := 0;
      while i < |asks|
        invariant forall q: OrderQueue {:trigger q.Valid()} ::
          old(allocated(q)) && q !in Repr && old(q.Valid()) ==> q.Valid() && unchanged(q)
        invariant forall n :: n in pool.free ==> n in old(pool.free) || n in Repr
        invariant Valid() && Repr == old(Repr)
        invariant asks == old(asks) && askViews == old(askViews) && 0 <= i <= |asks|
        invariant Find(Flatten(askViews[..i]), id) == |Flatten(askViews[..i])|
      {
        r := TryAsk(i, id);
        if r != null {
          return;
        }
        i := i + 1;
      }
      assert askViews[..i] == askViews;
      return null;
    }

    /** Search one level, the better ones having been searched in vain. */
    method TryAsk(i: nat, id: string) returns (r: Order?)
      requires Valid() && i < |asks| == |askViews|
      requires Find(Flatten(askViews[..i]), id) == |Flatten(askViews[..i])|
      modifies this`asks, this`askViews, Repr, pool
      ensures forall q: OrderQueue {:trigger q.Valid()} ::
        old(allocated(q)) && q !in old(Repr) && old(q.Valid()) ==> q.Valid() && unchanged(q)
      ensures Valid()
      ensures r == null ==>
        && asks == old(asks) && askViews == old(askViews)
        && Find(Flatten(askViews[..i + 1]), id) == |Flatten(askViews[..i + 1])|
      ensures r != null ==> var ms := old(Flatten(askViews)); var n := Find(ms, id);
        && n < |ms| && Flatten(askViews) == Delete(ms, n)
        && r in Repr && r.queue == null && r.View() == ms[n].(status := Cancelled)
      ensures forall n :: n in pool.free ==> n in old(pool.free) || n in Repr
    {
      hide LevelsOk;
      hide Flatten;
      hide Find;
      hide Delete;
      hide DropEmptyAt;
      hide OrderQueue.Valid;
      hide Backed;
      SearchedLevel(Prices(asks), Sell, askViews, i, id);
      r := RemoveFromAsk(i, id);
      if r != null {
        DropEmptyAsk(i);
      } else {
        assert askViews == old(askViews);
      }
    }

    method RemoveFromAsk(i: nat, id: string) returns (r: Order?)
      requires Valid() && i < |asks|
      modifies this`askViews, Repr, pool
      ensures forall q: OrderQueue {:trigger q.Valid()} ::
        old(allocated(q)) && q !in old(Repr) && old(q.Valid()) ==> q.Valid() && unchanged(q)
      ensures |asks| == |askViews| && i < |old(askViews)|
      ensures var v := old(askViews)[i]; var k := Find(v, id);
        && Held() && asks[i].orders.len == |askViews[i]|
        && askViews == old(askViews)[i := askViews[i]]
        && if k == |v| then r == null && askViews[i] == v
           else
             && r != null && r in Repr && r.queue == null && r.View() == v[k].(status := Cancelled)
             && askViews[i] == Delete(v, k)
      ensures forall n :: n in pool.free ==> n in old(pool.free) || n in Repr
    {
      hide OrderQueue.Valid;
      hide Backed;
      hide LevelsOk;
      hide Find;
      hide Delete;
      BackedAt(asks, Sell, askViews, Repr, i);
      var q := asks[i].orders;
      r := q.Cancel(id, pool);
      StepInAsk(i, Repr, q);
      askViews := askViews[i := q.contents];
      q.Lengths();
    }

    // ---------- The fill-or-kill pre-check ----------

    /** CanFillFOK's loop over the asks: add up the cached volumes of acceptable levels until they suffice. */
    method AsksCover(order: Order) returns (covered: bool)
      requires Valid() && order.side == Buy && SideOk(Flat().asks, Sell)
      ensures covered == CanFill(Flat(), order.View())
    {
      hide LevelsOk;
      hide SideOk;
      hide Depth;
      hide Flatten;
      hide EligibleDepth;
      hide OrderQueue.Valid;
      var required, cumVolume, i := order.quantity, 0, 0;
      ghost var t, ps := order.View(), Prices(asks);
      LevelCaches(asks, Sell, askViews, Repr);
      covered := false;
      while i < |asks|
        invariant 0 <= i <= |asks| == |askViews| && !covered
        invariant forall j :: 0 <= j < i ==> Crosses(t, ps[j])
        invariant cumVolume == CoverUpTo(askViews, i) && (i > 0 ==> cumVolume < required)
      {
        if order.typ == Limit && order.price < asks[i].price {
          break;
        }
        cumVolume := cumVolume + asks[i].orders.volume;
        i := i + 1;
        if cumVolume >= required {
          covered := true;
          break;
        }
      }
      CoverDecides(ps, Sell, askViews, t, i, covered);
    }

    /** CanFillFOK's loop over the bids: add up the cached volumes of acceptable levels until they suffice. */
    method BidsCover(order: Order) returns (covered: bool)
      requires Valid() && order.side == Sell && SideOk(Flat().bids, Buy)
      ensures covered == CanFill(Flat(), order.View())
    {
      hide LevelsOk;
      hide SideOk;
      hide Depth;
      hide Flatten;
      hide EligibleDepth;
      hide OrderQueue.Valid;
      var required, cumVolume, i := order.quantity, 0, 0;
      ghost var t, ps := order.View(), Prices(bids);
      LevelCaches(bids, Buy, bidViews, Repr);
      covered := false;
      while i < |bids|
        invariant 0 <= i <= |bids| == |bidViews| && !covered
        invariant forall j :: 0 <= j < i ==> Crosses(t, ps[j])
        invariant cumVolume == CoverUpTo(bidViews, i) && (i > 0 ==> cumVolume < required)
      {
        if order.typ == Limit && order.price > bids[i].price {
          break;
        }
        cumVolume := cumVolume + bids[i].orders.volume;
        i := i + 1;
        if cumVolume >= required {
          covered := true;
          break;
        }
      }
      CoverDecides(ps, Buy, bidViews, t, i, covered);
    }

    method CanFillFOK(order: Order) returns (r: bool)
      requires Valid() && BookOk(Flat())
      ensures r == CanFill(Flat(), order.View())
    {
      if order.side == Buy {
        r := AsksCover(order);
      } else {
        r := BidsCover(order);
      }
    }

    // ---------- The book's own operations ----------

    /** Match a taker against the opposite side and decide what happens to its leftover. */
    method MatchOrder(order: Order) returns (matches: seq<Trade>, remaining: Order?)
      requires Valid() && order !in Repr && order.queue == null
      modifies this`asks, this`askViews, this`bids, this`bidViews, Repr, order`filledQty, order`status, pool
      ensures forall q: OrderQueue {:trigger q.Valid()} ::
        old(allocated(q)) && q !in old(Repr) && old(q.Valid()) ==> q.Valid() && unchanged(q)
      ensures Valid()
      ensures var r := FlatBook.MatchOrder(old(Flat()), old(order.View()));
        && Flat() == r.book && matches == r.matches && order.View() == r.order
        && remaining == if r.leftover then order else null
      ensures forall n :: n in pool.free ==> n in old(pool.free) || n in Repr
    {
      hide Held;
      hide LevelsOk;
      hide Flatten;
      hide Match;
      hide OrderQueue.Valid;
      Shape();
      if order.side == Buy {
        matches := MatchBuy(order);
      } else {
        matches := MatchSell(order);
      }
      matches, remaining := Conclude(order, matches);
    }

    /** The time-in-force rules after matching. */
    method Conclude(order: Order, trades: seq<Trade>) returns (matches: seq<Trade>, remaining: Order?)
      requires Valid() && order !in Repr && order.queue == null
      modifies order`status
      ensures forall q: OrderQueue {:trigger q.Valid()} ::
        old(allocated(q)) && old(q.Valid()) ==> q.Valid() && unchanged(q)
      ensures Valid()
      ensures var o := old(order.View());
        if o.Remaining() <= 0 then order.View() == o.(status := Filled) && matches == trades && remaining == null
        else if o.tif == FOK then order.View() == o.(status := Cancelled) && matches == [] && remaining == order
        else if o.tif == IOC then order.View() == o.(status := Cancelled) && matches == trades && remaining == order
        else order.View() == o && matches == trades && remaining == order
    {
      hide OrderQueue.Linked;
      hide OrderQueue.Carries;
      matches, remaining := trades, order;
      var rest := order.Remaining();
      if rest <= 0 {
        order.status := Filled;
        remaining := null;
      } else if order.tif == FOK {
        order.status := Cancelled;
        matches := [];
      } else if order.tif == IOC {
        order.status := Cancelled;
      }
    }

    /** Remove an order from the book: the bids are searched first. */
    method CancelOrder(id: string) returns (r: Order?)
      requires Valid()
      modifies this`asks, this`askViews, this`bids, this`bidViews, Repr, pool
      ensures forall q: OrderQueue {:trigger q.Valid()} ::
        old(allocated(q)) && q !in old(Repr) && old(q.Valid()) ==> q.Valid() && unchanged(q)
      ensures Valid()
      ensures Flat() == CancelBook(old(Flat()), id)
      ensures match CancelResult(old(Flat()), id)
        case Some(o) => r != null && r in Repr && r.queue == null && r.View() == o
        case None => r == null
      ensures forall n :: n in pool.free ==> n in old(pool.free) || n in Repr
    {
      hide OrderBook.Valid;
      hide Held;
      hide LevelsOk;
      hide Flatten;
      hide Find;
      hide Delete;
      hide OrderQueue.Valid;
      Separate();
      r := CancelBid(id);
      if r == null {
        r := CancelAsk(id);
      }
    }

    /** Find an order without changing anything. */
    method GetOrder(id: string) returns (r: Order?)
      requires Valid()
      ensures match Lookup(Flat(), id)
        case Some(o) => r != null && r in Repr && r.View() == o
        case None => r == null
    {
      r := LookInBids(id);
      if r == null {
        r := LookInAsks(id);
      }
    }

    method LookInBids(id: string) returns (r: Order?)
      requires Valid()
      ensures var ms := Flat().bids; var n := Find(ms, id);
        if n == |ms| then r == null else r != null && r in Repr && r.View() == ms[n]
    {
      hide Held;
      hide LevelsOk;
      hide Flatten;
      hide Find;
      hide OrderQueue.Valid;
      Shape();
      FindNothing(bidViews, id);
      var i := 0;
      while i < |bids|
        invariant 0 <= i <= |bids|
        invariant Find(Flatten(bidViews[..i]), id) == |Flatten(bidViews[..i])|
      {
        r := LookInBid(i, id);
        SearchedLevel(Prices(bids), Buy, bidViews, i, id);
        if r != null {
          return;
        }
        i := i + 1;
      }
      assert bidViews[..i] == bidViews;
      return null;
    }

    method LookInBid(i: nat, id: string) returns (r: Order?)
      requires Valid() && i < |bids| == |bidViews|
      ensures var v := bidViews[i]; var k := Find(v, id);
        if k == |v| then r == null else r != null && r in Repr && r.View() == v[k]
    {
      hide OrderQueue.Valid;
      hide LevelsOk;
      hide Find;
      r := bids[i].orders.FindOrder(id);
    }

    method LookInAsks(id: string) returns (r: Order?)
      requires Valid()
      ensures var ms := Flat().asks; var n := Find(ms, id);
        if n == |ms| then r == null else r != null && r in Repr && r.View() == ms[n]
    {
      hide Held;
      hide LevelsOk;
      hide Flatten;
      hide Find;
      hide OrderQueue.Valid;
      Shape();
      FindNothing(askViews, id);
      var i := 0;
      while i < |asks|
        invariant 0 <= i <= |asks|
        invariant Find(Flatten(askViews[..i]), id) == |Flatten(askViews[..i])|
      {
        r := LookInAsk(i, id);
        SearchedLevel(Prices(asks), Sell, askViews, i, id);
        if r != null {
          return;
        }
        i := i + 1;
      }
      assert askViews[..i] == askViews;
      return null;
    }

    method LookInAsk(i: nat, id: string) returns (r: Order?)
      requires Valid() && i < |asks| == |askViews|
      ensures var v := askViews[i]; var k := Find(v, id);
        if k == |v| then r == null else r != null && r in Repr && r.View() == v[k]
    {
      hide OrderQueue.Valid;
      hide LevelsOk;
      hide Find;
      r := asks[i].orders.FindOrder(id);
    }

    /** The price of the best bid level, or zero. */
    function BestBid(): int
      reads this
    {
      if |bids| == 0 then 0 else bids[0].price
    }

    /** The price of the best ask level, or zero. */
    function BestAsk(): int
      reads this
    {
      if |asks| == 0 then 0 else asks[0].price
    }

    lemma BestPrices()
      requires Valid()
      ensures BestBid() == BestPrice(Flat().bids) && BestAsk() == BestPrice(Flat().asks)
    {
      BestBidFirst();
      BestAskFirst();
    }
  }
}
