/** Where the trades and the resting orders of a history come from: the orders that were submitted. */
module Provenance {
  import opened Types
  import opened FlatBook
  import opened MatchingLaws
  import opened BookLaws
  import opened Engine
  import opened Histories
  import opened Lifetime

  /** The same order, whatever has been filled of it. */
  predicate SameTerms(a: OrderView, b: OrderView) {
    && a.id == b.id && a.user == b.user && a.side == b.side
    && a.typ == b.typ && a.tif == b.tif && a.price == b.price && a.quantity == b.quantity
  }

  /** The n-th command submitted this order. */
  predicate SubmittedAt(cs: seq<Command>, n: int, o: OrderView) {
    0 <= n < |cs| && cs[n].Submit? && SameTerms(cs[n].order, o)
  }

  ghost predicate WasSubmitted(cs: seq<Command>, o: OrderView) {
    exists n :: SubmittedAt(cs, n, o)
  }

  ghost predicate AllSubmitted(cs: seq<Command>, ms: seq<OrderView>) {
    forall i :: 0 <= i < |ms| ==> WasSubmitted(cs, ms[i])
  }

  /** A price the taker named, or better. */
  predicate Acceptable(taker: OrderView, price: int) {
    taker.typ == Limit ==> if taker.side == Buy then price <= taker.price else price >= taker.price
  }

  /** The trade is between the orders of two commands, the maker's the earlier one, on opposite sides. */
  ghost predicate Explains(cs: seq<Command>, symbol: string, t: Trade, i: nat, j: nat)
    requires i < j < |cs|
  {
    && cs[i].Submit? && cs[j].Submit?
    && var maker, taker := cs[i].order, cs[j].order;
       && t.symbol == symbol
       && t.takerId == taker.id && t.takerUser == taker.user && t.takerSide == taker.side
       && t.makerId == maker.id && t.makerUser == maker.user && maker.side == Opposite(taker.side)
       && t.price == maker.price && Acceptable(taker, maker.price)
  }

  ghost predicate Explained(cs: seq<Command>, symbol: string, t: Trade) {
    exists i: nat, j: nat :: i < j < |cs| && Explains(cs, symbol, t, i, j)
  }

  ghost predicate AllExplained(cs: seq<Command>, symbol: string, ts: seq<Trade>) {
    forall k :: 0 <= k < |ts| ==> Explained(cs, symbol, ts[k])
  }

  lemma Earlier(cs: seq<Command>, n: nat, ms: seq<OrderView>)
    requires n <= |cs| && AllSubmitted(cs[..n], ms)
    ensures AllSubmitted(cs, ms)
  {
    forall i | 0 <= i < |ms|
      ensures WasSubmitted(cs, ms[i])
    {
      var k :| SubmittedAt(cs[..n], k, ms[i]);
      assert SubmittedAt(cs, k, ms[i]);
    }
  }

  lemma ExplainedEarlier(cs: seq<Command>, n: nat, symbol: string, t: Trade)
    requires n <= |cs| && Explained(cs[..n], symbol, t)
    ensures Explained(cs, symbol, t)
  {
    var i: nat, j: nat :| i < j < n && Explains(cs[..n], symbol, t, i, j);
    assert Explains(cs, symbol, t, i, j);
  }

  /** What a pass leaves of the makers are the makers. */
  lemma MakersRemain(cs: seq<Command>, ms: seq<OrderView>, ts: seq<Trade>, after: seq<OrderView>)
    requires |ts| <= |ms| && MakersAfter(ms, ts, after) && AllSubmitted(cs, ms)
    ensures AllSubmitted(cs, after)
  {
    hide SubmittedAt;
    var n := |ms| - |after|;
    forall i | 0 <= i < |after|
      ensures WasSubmitted(cs, after[i])
    {
      assert WasSubmitted(cs, ms[n + i]);
      var k :| SubmittedAt(cs, k, ms[n + i]);
      SameSubmission(cs, k, ms[n + i], after[i]);
    }
  }

  lemma SameSubmission(cs: seq<Command>, n: int, a: OrderView, b: OrderView)
    requires SubmittedAt(cs, n, a) && SameTerms(a, b)
    ensures SubmittedAt(cs, n, b)
  {
  }

  lemma InsertRemains(cs: seq<Command>, ms: seq<OrderView>, o: OrderView)
    requires AllSubmitted(cs, ms) && WasSubmitted(cs, o)
    ensures AllSubmitted(cs, Insert(ms, o))
  {
    hide WasSubmitted;
    forall i | 0 <= i < |Insert(ms, o)|
      ensures WasSubmitted(cs, Insert(ms, o)[i])
    {
      InsertMembers(ms, o, Insert(ms, o)[i]);
    }
  }

  lemma PlaceRemains(b: Book, cs: seq<Command>, o: OrderView)
    requires BookOk(b) && AllSubmitted(cs, b.bids) && AllSubmitted(cs, b.asks)
    requires cs != [] && cs[|cs| - 1] == Submit(o)
    ensures AllSubmitted(cs, Place(b, o).book.bids) && AllSubmitted(cs, Place(b, o).book.asks)
  {
    hide TurnedAway;
    hide AllSubmitted;
    hide WasSubmitted;
    hide Match;
    hide Insert;
    var ms := b.On(Opposite(o.side));
    SidePositive(b, o.side);
    MatchSettles(b.symbol, o, ms);
    MatchKeepsIdentity(b.symbol, o, ms);
    MakersRemain(cs, ms, Match(b.symbol, o, ms).trades, Match(b.symbol, o, ms).makers);
    var r := FlatBook.MatchOrder(b, o);
    if !TurnedAway(b, o) && Rests(r) {
      var rested := r.order.(status := Open, arrival := r.book.seqNum + 1);
      NewlySubmitted(cs, o, rested);
      InsertRemains(cs, r.book.On(o.side), rested);
    }
  }

  lemma NewlySubmitted(cs: seq<Command>, o: OrderView, rested: OrderView)
    requires cs != [] && cs[|cs| - 1] == Submit(o) && SameTerms(o, rested)
    ensures WasSubmitted(cs, rested)
  {
    assert SubmittedAt(cs, |cs| - 1, rested);
  }

  lemma SidePositive(b: Book, side: Side)
    requires BookOk(b)
    ensures var ms := b.On(Opposite(side));
      forall i :: 0 <= i < |ms| ==> ms[i].Remaining() > 0 && ms[i].side == Opposite(side)
  {
  }

  lemma CancelRemains(b: Book, cs: seq<Command>, id: string)
    requires AllSubmitted(cs, b.bids) && AllSubmitted(cs, b.asks)
    ensures AllSubmitted(cs, CancelBook(b, id).bids) && AllSubmitted(cs, CancelBook(b, id).asks)
  {
    hide WasSubmitted;
  }

  /** The trades of one submission are between it and orders submitted before. */
  lemma PlaceExplained(b: Book, cs: seq<Command>, o: OrderView, k: nat)
    requires BookOk(b) && cs != [] && cs[|cs| - 1] == Submit(o)
    requires AllSubmitted(cs[..|cs| - 1], b.bids) && AllSubmitted(cs[..|cs| - 1], b.asks)
    requires k < |Place(b, o).matches|
    ensures Explained(cs, b.symbol, Place(b, o).matches[k])
  {
    hide Place;
    hide Match;
    hide SubmittedAt;
    var n, ms := |cs| - 1, b.On(Opposite(o.side));
    SidePositive(b, o.side);
    PlaceReports(b, o);
    MatchTrades(b.symbol, o, ms);
    assert WasSubmitted(cs[..n], ms[k]);
    var i :| SubmittedAt(cs[..n], i, ms[k]);
    MakerExplains(b.symbol, cs, o, ms[k], i, Place(b, o).matches[k]);
  }

  lemma MakerExplains(symbol: string, cs: seq<Command>, o: OrderView, m: OrderView, i: int, t: Trade)
    requires cs != [] && cs[|cs| - 1] == Submit(o) && SubmittedAt(cs[..|cs| - 1], i, m)
    requires Records(t, symbol, o, m) && Crosses(o, m.price) && m.side == Opposite(o.side)
    ensures Explained(cs, symbol, t)
  {
    assert Explains(cs, symbol, t, i, |cs| - 1);
  }

  /**
   Over every history: whatever rests was submitted, with these very terms, and every trade is between two submitted
   orders of opposite sides, under their own identifiers and users, at the price of the one submitted earlier, which
   the later one accepts.
   */
  lemma {:induction false} EveryTradeIsExplained(symbol: string, cs: seq<Command>)
    ensures var b := RunBook(EmptyBook(symbol), cs); AllSubmitted(cs, b.bids) && AllSubmitted(cs, b.asks)
    ensures RunBook(EmptyBook(symbol), cs).symbol == symbol
    ensures AllExplained(cs, symbol, RunTrades(EmptyBook(symbol), cs))
  {
    hide AllSubmitted;
    hide AllExplained;
    hide Explained;
    hide BookOk;
    hide Place;
    hide CancelBook;
    var e := EmptyBook(symbol);
    if cs == [] {
      NothingSubmitted(cs);
    } else {
      var n := |cs| - 1;
      EveryTradeIsExplained(symbol, cs[..n]);
      EmptyBookOk(symbol);
      RunKeepsBook(e, cs[..n]);
      var b := RunBook(e, cs[..n]);
      Earlier(cs, n, b.bids);
      Earlier(cs, n, b.asks);
      var ts, more := RunTrades(e, cs[..n]), StepTrades(b, cs[n]);
      match cs[n] {
        case Submit(o) => PlaceRemains(b, cs, o); PlaceKeepsSymbol(b, o);
        case Cancel(id) => CancelRemains(b, cs, id); CancelKeepsSymbol(b, id);
      }
      assert RunTrades(e, cs) == ts + more;
      forall k | 0 <= k < |more|
        ensures Explained(cs, symbol, more[k])
      {
        PlaceExplained(b, cs, cs[n].order, k);
      }
      ExplainedMore(cs, n, symbol, ts, more);
    }
  }

  lemma ExplainedMore(cs: seq<Command>, n: nat, symbol: string, ts: seq<Trade>, more: seq<Trade>)
    requires n <= |cs| && AllExplained(cs[..n], symbol, ts)
    requires forall k :: 0 <= k < |more| ==> Explained(cs, symbol, more[k])
    ensures AllExplained(cs, symbol, ts + more)
  {
    hide Explained;
    forall k | 0 <= k < |ts|
      ensures Explained(cs, symbol, ts[k])
    {
      ExplainedEarlier(cs, n, symbol, ts[k]);
    }
  }

  lemma NothingSubmitted(cs: seq<Command>)
    ensures AllSubmitted(cs, []) && forall symbol :: AllExplained(cs, symbol, [])
  {
  }

  lemma PlaceKeepsSymbol(b: Book, o: OrderView)
    ensures Place(b, o).book.symbol == b.symbol
  {
  }

  lemma CancelKeepsSymbol(b: Book, id: string)
    ensures CancelBook(b, id).symbol == b.symbol
  {
  }
}
