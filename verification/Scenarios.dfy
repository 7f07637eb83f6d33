/** Short histories with one order on each side at a time, from which counterexamples are built. */
module Scenarios {
  import opened Types
  import opened FlatBook
  import opened MatchingLaws
  import opened Engine
  import opened Histories
  import Decimal

  /** An order that stays in the book when something is left of it. */
  predicate Keeps(o: OrderView) {
    o.tif != IOC && o.tif != FOK && o.status == Created
  }

  /** What the only resting order offers, if there is one. */
  function OnOffer(ms: seq<OrderView>): int {
    if ms == [] then 0 else ms[0].Remaining()
  }

  /** A taker and the only maker, at an acceptable price, trade the smaller of the two remainders. */
  lemma MatchOne(symbol: string, t: OrderView, m: OrderView)
    requires t.Remaining() > 0 && m.Remaining() > 0 && Crosses(t, m.price)
    ensures var q := TradeQty(t, m);
      Match(symbol, t, [m]) == Outcome([MakeTrade(symbol, t, m, q)], Fill(t, q), AfterFill([m], q))
  {
    hide Match;
    hide MakeTrade;
    hide Crosses;
    var q := TradeQty(t, m);
    MatchStep(symbol, t, [m]);
    MatchStop(symbol, Fill(t, q), AfterFill([m], q));
    assert [MakeTrade(symbol, t, m, q)] + [] == [MakeTrade(symbol, t, m, q)];
  }

  /** The other side holds at most one order, at a price the taker accepts and is not turned away for. */
  predicate Faces(b: Book, t: OrderView) {
    var ms := b.On(Opposite(t.side));
    && |ms| <= 1
    && (ms != [] ==> ms[0].Remaining() > 0 && Crosses(t, ms[0].price))
    && (t.typ == Market ==> BestPrice(ms) != 0)
  }

  /** An order that exhausts the only order on the other side rests with what is left of it. */
  lemma RemainderRests(b: Book, t: OrderView)
    requires Faces(b, t) && b.On(t.side) == [] && Keeps(t) && t.filled == 0
    requires OnOffer(b.On(Opposite(t.side))) < t.quantity && t.quantity > 0
    ensures var p := Place(b, t); var taken := OnOffer(b.On(Opposite(t.side)));
      var rested := Fill(t, taken).(status := Open, arrival := b.seqNum + 1);
      && p.book.symbol == b.symbol && p.book.On(Opposite(t.side)) == [] && p.book.On(t.side) == [rested]
      && p.leftover && p.order == rested
      && (b.On(Opposite(t.side)) == [] ==> p.matches == [])
  {
    hide Match;
    hide MakeTrade;
    hide CanFill;
    hide Crosses;
    var ms := b.On(Opposite(t.side));
    if ms == [] {
      MatchStop(b.symbol, t, ms);
    } else {
      MatchOne(b.symbol, t, ms[0]);
      assert ms == [ms[0]];
      assert AfterFill(ms, ms[0].Remaining()) == [];
    }
    var left := Fill(t, OnOffer(ms));
    var rested := left.(status := Open, arrival := b.seqNum + 1);
    assert Match(b.symbol, t, ms).taker == left && Match(b.symbol, t, ms).makers == [];
    assert Insert([], rested) == [rested];
  }

  /** An order that takes at any price trades with the only order on the other side. */
  lemma TakerIsServed(b: Book, t: OrderView, m: OrderView)
    requires b.On(Opposite(t.side)) == [m] && m.Remaining() > 0 && m.price != 0
    requires t.typ != Limit && t.filled == 0 && t.quantity > 0
    requires t.tif == FOK ==> t.quantity <= m.Remaining()
    ensures Place(b, t).matches == [MakeTrade(b.symbol, t, m, TradeQty(t, m))]
  {
    hide Match;
    hide MakeTrade;
    hide Rest;
    assert EligibleDepth(t, [m]) == m.Remaining() + EligibleDepth(t, [m][1..]);
    MatchOne(b.symbol, t, m);
  }

  lemma EmptyBookRejectsOrHolds(symbol: string, o: OrderView)
    ensures Place(EmptyBook(symbol), o).matches == []
  {
    hide TurnedAway;
    hide Rest;
    MatchStop(symbol, o, []);
  }

  /** One more command at the end of a history. */
  lemma OneMoreCommand(e: Book, cs: seq<Command>, c: Command)
    ensures RunBook(e, cs + [c]) == StepBook(RunBook(e, cs), c)
    ensures RunTrades(e, cs + [c]) == RunTrades(e, cs) + StepTrades(RunBook(e, cs), c)
  {
    hide StepBook;
    hide StepTrades;
    assert (cs + [c])[..|cs|] == cs;
  }

  // ---------- Helping orders ----------

  /** The order's identifier with n letters appended: no other order's when n differs. */
  function Name(id: string, n: nat): string {
    id + seq(n, _ => 'x')
  }

  /** A stop-limit order of somebody else; it takes at any price. */
  function Helper(o: OrderView, n: nat, side: Side, tif: TimeInForce, price: int, quantity: int): OrderView {
    OrderView(Name(o.id, n), "other", side, StopLimit, tif, price, quantity, 0, Created, 0)
  }
}
