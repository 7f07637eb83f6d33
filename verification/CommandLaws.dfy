/** What a submission and a cancellation do to the book and answer, stated without the steps by which they do it. */
module CommandLaws {
  import opened Types
  import opened FlatBook
  import opened MatchingLaws
  import opened BookLaws
  import opened Histories
  import opened Lifetime
  import Decimal

  // ---------- Submitting ----------

  /** A fill-or-kill order that more is wanted of than is on offer, and a market order nobody offers a price to. */
  predicate Unservable(b: Book, o: OrderView) {
    var ms := b.On(Opposite(o.side));
    || (o.tif == FOK && EligibleDepth(o, ms) < o.quantity)
    || (o.typ == Market && (ms == [] || ms[0].price == 0))
  }

  lemma TurnedAwayIff(b: Book, o: OrderView)
    requires BookOk(b) && o.quantity > 0
    ensures TurnedAway(b, o) <==> Unservable(b, o)
  {
    hide EligibleDepth;
    hide SideOk;
    var ms := b.On(Opposite(o.side));
    NothingEligible(o, ms);
    if ms != [] && !Crosses(o, ms[0].price) {
      RefusedTail(o, ms);
    }
  }

  lemma NothingEligible(o: OrderView, ms: seq<OrderView>)
    ensures ms == [] ==> EligibleDepth(o, ms) == 0
  {
  }

  /**
   The whole answer to a new order, for every type and time in force. It is rejected exactly when it is refused, and
   then nothing happens. Otherwise it trades as far as it wants and the acceptable orders suffice, all trades are
   reported, and its status says whether it was filled, cancelled as immediate-or-cancel, or came to rest.
   */
  lemma PlaceDecides(b: Book, o: OrderView)
    requires BookOk(b) && o.quantity > 0 && o.filled == 0 && o.status == Created
    ensures var p, depth := Place(b, o), EligibleDepth(o, b.On(Opposite(o.side)));
      && (p.order.status == Rejected <==> Unservable(b, o))
      && (if Unservable(b, o) then
            p.book == b && p.matches == [] && p.leftover && p.order == o.(status := Rejected)
          else
            && p.matches == Match(b.symbol, o, b.On(Opposite(o.side))).trades
            && Volume(p.matches) == p.order.filled == Decimal.Min(o.quantity, depth)
            && p.order.status == (if depth >= o.quantity then Filled else if o.tif == IOC then Cancelled else Open)
            && (p.leftover <==> depth < o.quantity)
            && p.order == o.(filled := p.order.filled, status := p.order.status, arrival := p.order.arrival)
            && (p.order.status == Open ==> p.order.arrival == p.book.seqNum == b.seqNum + 1))
  {
    hide TurnedAway;
    hide Match;
    hide EligibleDepth;
    hide Volume;
    hide Insert;
    hide SideOk;
    var ms := b.On(Opposite(o.side));
    TurnedAwayIff(b, o);
    SideRemaining(ms, Opposite(o.side));
    MatchedQuantity(b.symbol, o, ms);
    MatchConserves(b.symbol, o, ms);
    MatchKeepsIdentity(b.symbol, o, ms);
  }

  /** And the book: the makers are what the pass leaves of them, and the own side gains just the resting order. */
  lemma PlaceChanges(b: Book, o: OrderView)
    requires BookOk(b) && o.quantity > 0 && o.filled == 0 && o.status == Created && !Unservable(b, o)
    ensures var p := Place(b, o); var own := if p.order.status == Open then multiset{p.order} else multiset{};
      && p.book.On(Opposite(o.side)) == Match(b.symbol, o, b.On(Opposite(o.side))).makers
      && multiset(p.book.On(o.side)) == multiset(b.On(o.side)) + own
      && p.book.seqNum == b.seqNum + |own| && p.book.symbol == b.symbol
  {
    hide TurnedAway;
    hide Match;
    hide EligibleDepth;
    hide Unservable;
    hide Insert;
    hide BookOk;
    TurnedAwayIff(b, o);
    PlaceDecides(b, o);
    var r := FlatBook.MatchOrder(b, o);
    if Rests(r) {
      InsertContents(r.book.On(o.side), r.order.(status := Open, arrival := r.book.seqNum + 1));
    }
  }

  // ---------- Cancelling ----------

  /** The side on which an identifier is looked for first, and found if anywhere. */
  function SideHolding(b: Book, id: string): Side {
    if Holds(b.bids, id) then Buy else Sell
  }

  lemma FindIff(ms: seq<OrderView>, id: string)
    ensures Find(ms, id) < |ms| <==> Holds(ms, id)
  {
  }

  lemma DeleteContents(ms: seq<OrderView>, i: nat)
    requires i < |ms|
    ensures multiset(Delete(ms, i)) == multiset(ms) - multiset{ms[i]}
    ensures ms[i] in ms
    ensures DistinctIds(ms) ==> !Holds(Delete(ms, i), ms[i].id)
  {
    assert ms == ms[..i] + [ms[i]] + ms[i + 1..];
    var d := Delete(ms, i);
    assert forall k :: 0 <= k < |d| ==> d[k] == ms[if k < i then k else k + 1];
  }

  /** The order looked up is one with the identifier, a bid if there is one; nothing is found only if nobody has it. */
  lemma LookupFinds(b: Book, id: string)
    ensures Lookup(b, id) == None <==> !Holds(b.bids, id) && !Holds(b.asks, id)
    ensures var r := Lookup(b, id); r.Some? ==> r.value.id == id && r.value in b.On(SideHolding(b, id))
  {
    FindIff(b.bids, id);
    FindIff(b.asks, id);
  }

  /**
   Cancelling an identifier nobody has changes nothing and answers nothing. Otherwise one resting order with it, a bid
   if there is one, is answered as cancelled and taken out, and nothing else changes.
   */
  lemma CancelTakesOut(b: Book, id: string)
    ensures var c, r, side := CancelBook(b, id), CancelResult(b, id), SideHolding(b, id);
      if !Holds(b.bids, id) && !Holds(b.asks, id) then c == b && r == None
      else
        && Lookup(b, id).Some?
        && var o := Lookup(b, id).value;
           && o in b.On(side) && o.id == id && r == Some(o.(status := Cancelled))
           && multiset(c.On(side)) == multiset(b.On(side)) - multiset{o}
           && c.On(Opposite(side)) == b.On(Opposite(side))
           && c.symbol == b.symbol && c.seqNum == b.seqNum
           && (DistinctIds(b.On(side)) ==> !Holds(c.On(side), id))
  {
    hide DistinctIds;
    hide Holds;
    hide Delete;
    FindIff(b.bids, id);
    FindIff(b.asks, id);
    var i, j := Find(b.bids, id), Find(b.asks, id);
    if i < |b.bids| {
      DeleteContents(b.bids, i);
    } else if j < |b.asks| {
      DeleteContents(b.asks, j);
    }
  }
}
