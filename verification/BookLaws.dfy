/** What every command keeps: price-time order on both sides, and a book that is never crossed. */
module BookLaws {
  import opened Types
  import opened FlatBook
  import opened MatchingLaws
  import Decimal

  // ---------- Coming to rest ----------

  lemma {:induction false} InsertContents(ms: seq<OrderView>, o: OrderView)
    ensures multiset(Insert(ms, o)) == multiset(ms) + multiset{o}
  {
    if !(ms == [] || Better(o.side, o.price, ms[0].price)) {
      InsertContents(ms[1..], o);
      assert ms == [ms[0]] + ms[1..];
    }
  }

  lemma {:induction false} InsertMembers(ms: seq<OrderView>, o: OrderView, x: OrderView)
    ensures x in Insert(ms, o) <==> x in ms || x == o
  {
    InsertContents(ms, o);
    assert x in Insert(ms, o) <==> x in multiset(Insert(ms, o));
    assert x in ms <==> x in multiset(ms);
  }

  /** The rest of an ordered side is ordered, and at no better a price than the first order. */
  lemma TailOk(ms: seq<OrderView>, side: Side)
    requires SideOk(ms, side) && ms != []
    ensures SideOk(ms[1..], side)
    ensures forall n :: ArrivedBy(ms, n) ==> ArrivedBy(ms[1..], n)
    ensures forall j :: 0 < j < |ms| ==> ms[j].price == ms[0].price || Better(side, ms[0].price, ms[j].price)
  {
    forall j | 0 < j < |ms|
      ensures ms[j].price == ms[0].price || Better(side, ms[0].price, ms[j].price)
    {
      assert Before(ms[0], ms[j]);
    }
  }

  lemma SideCons(m: OrderView, ms: seq<OrderView>, side: Side)
    requires SideOk(ms, side)
    requires m.side == side && m.status == Open && m.Remaining() > 0
    requires forall x :: x in ms ==> Before(m, x)
    ensures SideOk([m] + ms, side)
  {
    var all := [m] + ms;
    forall i, j | 0 <= i < j < |all|
      ensures Before(all[i], all[j])
    {
      assert all[j] == ms[j - 1] && all[j] in ms;
      if i > 0 {
        assert all[i] == ms[i - 1];
      }
    }
  }

  /** An order that arrives last goes behind its own price and in front of every worse one. */
  lemma {:induction false} InsertKeepsSide(ms: seq<OrderView>, o: OrderView, n: nat)
    requires SideOk(ms, o.side) && ArrivedBy(ms, n)
    requires o.arrival == n + 1 && o.status == Open && o.Remaining() > 0
    ensures SideOk(Insert(ms, o), o.side) && ArrivedBy(Insert(ms, o), n + 1)
  {
    if ms == [] || Better(o.side, o.price, ms[0].price) {
      forall x | x in ms
        ensures Before(o, x)
      {
        var i :| 0 <= i < |ms| && ms[i] == x;
        if i > 0 {
          assert Before(ms[0], ms[i]);
        }
      }
      SideCons(o, ms, o.side);
    } else {
      TailOk(ms, o.side);
      InsertKeepsSide(ms[1..], o, n);
      forall x | x in Insert(ms[1..], o)
        ensures Before(ms[0], x)
      {
        InsertMembers(ms[1..], o, x);
        if x != o {
          var i :| 0 <= i < |ms[1..]| && ms[1..][i] == x;
          assert Before(ms[0], ms[i + 1]);
        }
      }
      SideCons(ms[0], Insert(ms[1..], o), o.side);
    }
  }

  /** The head of a sorted list precedes every other member, so it is determined by the members alone. */
  lemma HeadIsFirst(ms: seq<OrderView>, side: Side, x: OrderView)
    requires SideOk(ms, side) && x in ms
    ensures x == ms[0] || Before(ms[0], x)
  {
    var i :| 0 <= i < |ms| && ms[i] == x;
    if i > 0 {
      assert Before(ms[0], ms[i]);
    }
  }

  lemma HeadsAgree(a: seq<OrderView>, b: seq<OrderView>, side: Side)
    requires SideOk(a, side) && SideOk(b, side) && a != [] && b != []
    requires multiset(a) == multiset(b)
    ensures a[0] == b[0]
  {
    assert a[0] in multiset(b) && b[0] in multiset(a);
    HeadIsFirst(a, side, b[0]);
    HeadIsFirst(b, side, a[0]);
  }

  lemma MultisetTail(a: seq<OrderView>)
    requires a != []
    ensures multiset(a[1..]) == multiset(a) - multiset{a[0]}
  {
    assert a == [a[0]] + a[1..];
  }

  /** Price-time priority fixes the list: two lists that hold the same orders and respect it are equal. */
  lemma {:induction false} PriorityIsUnique(a: seq<OrderView>, b: seq<OrderView>, side: Side)
    requires SideOk(a, side) && SideOk(b, side)
    requires multiset(a) == multiset(b)
    ensures a == b
  {
    hide SideOk;
    assert |multiset(a)| == |a| && |multiset(b)| == |b|;
    if a != [] {
      HeadsAgree(a, b, side);
      MultisetTail(a);
      MultisetTail(b);
      TailOk(a, side);
      TailOk(b, side);
      PriorityIsUnique(a[1..], b[1..], side);
      assert a == [a[0]] + a[1..] && b == [b[0]] + b[1..];
    }
  }

  // ---------- Never crossed ----------

  lemma {:induction false} InsertHead(ms: seq<OrderView>, o: OrderView)
    ensures Insert(ms, o) != []
    ensures Insert(ms, o)[0] == o || (ms != [] && Insert(ms, o)[0] == ms[0])
  {
  }

  /** The first remaining maker stood in the list before, at the same price. */
  lemma MatchHeadPrice(symbol: string, t: OrderView, ms: seq<OrderView>)
    requires SideOk(ms, Opposite(t.side))
    ensures var r := Match(symbol, t, ms);
      r.makers != [] ==>
        && ms != []
        && (r.makers[0].price == ms[0].price || Better(Opposite(t.side), ms[0].price, r.makers[0].price))
  {
    MatchSettles(symbol, t, ms);
    MatchTrades(symbol, t, ms);
    var r := Match(symbol, t, ms);
    if r.makers != [] {
      var k := |r.trades|;
      var i := if k == 0 || r.trades[k - 1].quantity == ms[k - 1].Remaining() then k else k - 1;
      assert r.makers[0].price == ms[i].price;
      if i > 0 {
        assert Before(ms[0], ms[i]);
      }
    }
  }

  /** The moment between matching and resting, when readers may look: the book is in order and not crossed. */
  lemma MatchOrderKeepsBook(b: Book, o: OrderView)
    requires BookOk(b)
    ensures BookOk(MatchOrder(b, o).book)
  {
    var side := Opposite(o.side);
    MatchKeepsSide(b.symbol, o, b.On(side), side, b.seqNum);
    MatchHeadPrice(b.symbol, o, b.On(side));
    ReplaceSide(b, side, Match(b.symbol, o, b.On(side)).makers);
  }

  lemma ReplaceSide(b: Book, side: Side, ms: seq<OrderView>)
    requires BookOk(b) && SideOk(ms, side) && ArrivedBy(ms, b.seqNum)
    requires ms != [] ==>
      b.On(side) != [] && (ms[0].price == b.On(side)[0].price || Better(side, b.On(side)[0].price, ms[0].price))
    ensures BookOk(b.With(side, ms))
  {
  }

  /**
   A leftover that comes to rest does not cross: either its limit refuses the best price or the other side is empty.
   */
  lemma RestKeepsUncrossed(b: Book, o: OrderView)
    requires BookOk(b)
    requires !CanTrade(o, b.On(Opposite(o.side))) && o.Remaining() > 0
    ensures Uncrossed(Rest(b, o))
  {
    InsertHead(b.On(o.side), o.(status := Open, arrival := b.seqNum + 1));
  }

  /** What MatchOrder leaves to rest cannot trade any further. */
  lemma LeftoverCannotTrade(b: Book, o: OrderView)
    requires BookOk(b)
    ensures var r := MatchOrder(b, o);
      Rests(r) ==> r.order.side == o.side && r.order.Remaining() > 0 && !CanTrade(r.order, r.book.On(Opposite(o.side)))
  {
    hide SideOk;
    hide Match;
    MatchEnds(b.symbol, o, b.On(Opposite(o.side)));
    MatchConserves(b.symbol, o, b.On(Opposite(o.side)));
  }

  /** A pass ends only when it cannot go on. */
  lemma MatchEnds(symbol: string, t: OrderView, ms: seq<OrderView>)
    requires SideOk(ms, Opposite(t.side))
    ensures var r := Match(symbol, t, ms); !CanTrade(r.taker, r.makers)
  {
    hide Match;
    MatchSettles(symbol, t, ms);
  }

  lemma RestKeepsBook(b: Book, o: OrderView)
    requires BookOk(b)
    requires !CanTrade(o, b.On(Opposite(o.side))) && o.Remaining() > 0
    ensures BookOk(Rest(b, o))
  {
    hide SideOk;
    hide Insert;
    hide Uncrossed;
    RestKeepsUncrossed(b, o);
    InsertKeepsSide(b.On(o.side), o.(status := Open, arrival := b.seqNum + 1), b.seqNum);
  }

  /** Every accepted, rejected, filled or resting order leaves the book in price-time order and not crossed. */
  lemma PlaceKeepsBook(b: Book, o: OrderView)
    requires BookOk(b)
    ensures BookOk(Place(b, o).book)
  {
    hide TurnedAway;
    hide SideOk;
    hide ArrivedBy;
    hide Uncrossed;
    if !TurnedAway(b, o) {
      var r := MatchOrder(b, o);
      MatchOrderKeepsBook(b, o);
      if Rests(r) {
        LeftoverCannotTrade(b, o);
        RestKeepsBook(r.book, r.order);
      }
    }
  }

  lemma DeleteKeepsSide(ms: seq<OrderView>, side: Side, n: nat, i: nat)
    requires SideOk(ms, side) && ArrivedBy(ms, n) && i < |ms|
    ensures SideOk(Delete(ms, i), side) && ArrivedBy(Delete(ms, i), n)
    ensures var d := Delete(ms, i);
      d != [] ==> d[0].price == ms[0].price || Better(side, ms[0].price, d[0].price)
  {
    var d := Delete(ms, i);
    assert forall k :: 0 <= k < |d| ==> d[k] == ms[if k < i then k else k + 1];
    if d != [] && i == 0 {
      assert Before(ms[0], ms[1]);
    }
  }

  lemma CancelKeepsBook(b: Book, id: string)
    requires BookOk(b)
    ensures BookOk(CancelBook(b, id))
  {
    hide SideOk;
    hide ArrivedBy;
    hide Uncrossed;
    hide Delete;
    var i, j := Find(b.bids, id), Find(b.asks, id);
    if i < |b.bids| {
      DeleteKeepsSide(b.bids, Buy, b.seqNum, i);
      ReplaceSide(b, Buy, Delete(b.bids, i));
    } else if j < |b.asks| {
      DeleteKeepsSide(b.asks, Sell, b.seqNum, j);
      ReplaceSide(b, Sell, Delete(b.asks, j));
    }
  }

  /** What rests is the sorted arrangement of the old side plus the newcomer, and nothing else fits that description. */
  lemma RestIsTheSortedSide(b: Book, o: OrderView, side: seq<OrderView>)
    requires BookOk(b) && o.Remaining() > 0
    ensures var o' := o.(status := Open, arrival := b.seqNum + 1);
      SideOk(side, o.side) && multiset(side) == multiset(b.On(o.side)) + multiset{o'}
      <==> side == Rest(b, o).On(o.side)
  {
    hide SideOk;
    hide ArrivedBy;
    hide Insert;
    hide Uncrossed;
    var o' := o.(status := Open, arrival := b.seqNum + 1);
    InsertContents(b.On(o.side), o');
    InsertKeepsSide(b.On(o.side), o', b.seqNum);
    if SideOk(side, o.side) && multiset(side) == multiset(b.On(o.side)) + multiset{o'} {
      PriorityIsUnique(side, Rest(b, o).On(o.side), o.side);
    }
  }
}
