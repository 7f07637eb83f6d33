/** Reading the published events: they tell exactly which orders rest in the book, and how each command ended. */
module EventLog {
  import opened Types
  import opened FlatBook
  import opened MatchingLaws
  import opened BookLaws
  import opened Engine
  import opened Histories
  import opened Lifetime
  import opened CommandLaws
  import DecimalText
  import DecimalTextLaws

  /** What a reader keeps of a resting order. */
  datatype Line = Line(user: string, side: Side, typ: OrderType, tif: TimeInForce,
                       price: int, quantity: int, filled: int)

  type Lines = map<string, Line>

  function LineOf(o: OrderView): Line {
    Line(o.user, o.side, o.typ, o.tif, o.price, o.quantity, o.filled)
  }

  function Read(text: string): int {
    match DecimalText.Parse(text)
    case Some(v) => v
    case None => 0
  }

  lemma ReadPrinted(v: int)
    ensures Read(DecimalText.Print(v)) == v
  {
    hide DecimalText.Parse;
    hide DecimalText.Print;
    DecimalTextLaws.RoundTrip(v);
  }

  /** A maker's line after a trade; it goes when nothing remains. */
  function Traded(ls: Lines, id: string, quantity: int): Lines {
    if id !in ls then ls
    else
      var l := ls[id].(filled := ls[id].filled + quantity);
      if l.filled >= l.quantity then ls - {id} else ls[id := l]
  }

  /** A reader of the log: it adds the orders that are placed, and takes off what trades and cancellations take. */
  function ReadEvent(ls: Lines, e: Event): Lines {
    match e
    case OrderPlaced(id, user, _, side, typ, price, quantity, filled, tif, _) =>
      ls[id := Line(user, side, typ, tif, Read(price), Read(quantity), Read(filled))]
    case TradeExecuted(p) => Traded(ls, p.makerId, Read(p.quantity))
    case OrderCancelled(id, _, _) => ls - {id}
    case _ => ls
  }

  function ReadLog(ls: Lines, es: seq<Event>): Lines {
    if es == [] then ls else ReadEvent(ReadLog(ls, es[..|es| - 1]), es[|es| - 1])
  }

  lemma {:induction false} ReadLogAppend(ls: Lines, es: seq<Event>, fs: seq<Event>)
    ensures ReadLog(ls, es + fs) == ReadLog(ReadLog(ls, es), fs)
  {
    hide ReadEvent;
    if fs == [] {
      assert es + fs == es;
    } else {
      var n := |fs| - 1;
      assert (es + fs)[..|es + fs| - 1] == es + fs[..n];
      ReadLogAppend(ls, es, fs[..n]);
    }
  }

  lemma ReadOne(ls: Lines, e: Event)
    ensures ReadLog(ls, [e]) == ReadEvent(ls, e) && ReadLog(ls, []) == ls
  {
    assert [e][..0] == [];
    assert ReadLog(ls, [e][..0]) == ls;
  }

  // ---------- One pass ----------

  /** The makers' lines are right. */
  ghost predicate TellsSide(ls: Lines, ms: seq<OrderView>) {
    forall i :: 0 <= i < |ms| ==> ms[i].id in ls && ls[ms[i].id] == LineOf(ms[i])
  }

  lemma {:induction false} TradeEventsFront(x: Trade, ts: seq<Trade>)
    ensures TradeEvents([x] + ts) == [TradeEvent(x)] + TradeEvents(ts)
  {
    hide TradeEvent;
    if ts == [] {
      assert [x] + ts == [x] && [x][..0] == [];
      assert TradeEvents([x]) == TradeEvents([]) + [TradeEvent(x)];
    } else {
      var n := |ts| - 1;
      assert ([x] + ts)[..|ts|] == [x] + ts[..n];
      TradeEventsFront(x, ts[..n]);
    }
  }

  /** Reading the trades of a pass turns the makers' lines into those of what the pass leaves; no other line changes. */
  lemma {:induction false} ReadPass(symbol: string, t: OrderView, ms: seq<OrderView>, ls: Lines)
    requires TellsSide(ls, ms) && DistinctIds(ms) && forall i :: 0 <= i < |ms| ==> ms[i].Remaining() > 0
    ensures var r := Match(symbol, t, ms); var after := ReadLog(ls, TradeEvents(r.trades));
      && TellsSide(after, r.makers)
      && (forall id :: !Holds(ms, id) ==> (id in after <==> id in ls) && (id in ls ==> after[id] == ls[id]))
      && (forall id :: Holds(ms, id) && id in after ==> Holds(r.makers, id))
    decreases |ms|, t.Remaining()
  {
    hide ReadEvent;
    hide TradeEvent;
    hide MakeTrade;
    if !CanTrade(t, ms) {
      assert TradeEvents([]) == [];
    } else {
      var q := TradeQty(t, ms[0]);
      var ms', x := AfterFill(ms, q), MakeTrade(symbol, t, ms[0], q);
      var rest := Match(symbol, Fill(t, q), ms');
      var next := Traded(ls, ms[0].id, q);
      ReadTrade(symbol, t, ms, ls);
      ReadPass(symbol, Fill(t, q), ms', next);
      TradeEventsFront(x, rest.trades);
      ReadLogAppend(ls, [TradeEvent(x)], TradeEvents(rest.trades));
      ReadOne(ls, TradeEvent(x));
      FrontHolds(ms, q);
    }
  }

  lemma ReadTrade(symbol: string, t: OrderView, ms: seq<OrderView>, ls: Lines)
    requires CanTrade(t, ms) && TellsSide(ls, ms) && DistinctIds(ms)
    requires forall i :: 0 <= i < |ms| ==> ms[i].Remaining() > 0
    ensures var q := TradeQty(t, ms[0]); var ms', next := AfterFill(ms, q), Traded(ls, ms[0].id, q);
      && ReadEvent(ls, TradeEvent(MakeTrade(symbol, t, ms[0], q))) == next
      && TellsSide(next, ms') && DistinctIds(ms')
      && (forall i :: 0 <= i < |ms'| ==> ms'[i].Remaining() > 0)
      && (forall id :: id != ms[0].id ==> (id in next <==> id in ls) && (id in ls ==> next[id] == ls[id]))
      && (ms[0].id in next ==> Holds(ms', ms[0].id))
  {
    hide DecimalText.Print;
    hide Read;
    ReadPrinted(TradeQty(t, ms[0]));
    var ms' := AfterFill(ms, TradeQty(t, ms[0]));
    assert ms' != ms[1..] ==> ms'[0].id == ms[0].id;
    assert forall i :: 0 < i < |ms| ==> ms[i].id != ms[0].id;
  }

  /** Who is on the list after a fill: the same, but perhaps for the first. */
  lemma FrontHolds(ms: seq<OrderView>, q: int)
    requires ms != []
    ensures forall id :: Holds(AfterFill(ms, q), id) ==> Holds(ms, id)
    ensures forall id :: Holds(ms, id) && id != ms[0].id ==> Holds(AfterFill(ms, q), id)
  {
    var ms' := AfterFill(ms, q);
    var d := |ms| - |ms'|;
    forall id | Holds(ms', id)
      ensures Holds(ms, id)
    {
      var i :| 0 <= i < |ms'| && ms'[i].id == id;
      assert ms[d + i].id == id;
    }
    forall id | Holds(ms, id) && id != ms[0].id
      ensures Holds(ms', id)
    {
      var i :| 0 <= i < |ms| && ms[i].id == id;
      assert ms'[i - d].id == id;
    }
  }

  // ---------- One command ----------

  /** The lines are those of the orders in the book, and there are no others. */
  ghost predicate Tells(ls: Lines, b: Book) {
    && TellsSide(ls, b.bids) && TellsSide(ls, b.asks)
    && forall id :: id in ls ==> Holds(b.bids, id) || Holds(b.asks, id)
  }

  /** No two resting orders share an identifier. */
  ghost predicate Separate(b: Book) {
    && DistinctIds(b.bids) && DistinctIds(b.asks)
    && forall id :: !(Holds(b.bids, id) && Holds(b.asks, id))
  }

  /** After a pass the lines are those of the book in which the makers have traded and nothing has come to rest yet. */
  lemma PassTold(b: Book, o: OrderView, ls: Lines)
    requires BookOk(b) && Separate(b) && Tells(ls, b)
    ensures var r := Match(b.symbol, o, b.On(Opposite(o.side)));
      var between := b.With(Opposite(o.side), r.makers);
      && Separate(between) && Tells(ReadLog(ls, TradeEvents(r.trades)), between)
      && forall id :: Holds(r.makers, id) ==> Holds(b.On(Opposite(o.side)), id)
  {
    hide SideOk;
    hide DistinctIds;
    hide Holds;
    hide Match;
    hide TradeEvents;
    hide TellsSide;
    var ms, own := b.On(Opposite(o.side)), b.On(o.side);
    SideRemaining(ms, Opposite(o.side));
    MatchIds(b, o, ms);
    ReadPass(b.symbol, o, ms, ls);
    OthersTold(ls, ReadLog(ls, TradeEvents(Match(b.symbol, o, ms).trades)), own, ms);
  }

  /** A new order that comes to rest adds its line. */
  lemma RestTold(b: Book, o: OrderView, ls: Lines)
    requires Separate(b) && Tells(ls, b) && !Holds(b.bids, o.id) && !Holds(b.asks, o.id)
    ensures Separate(Rest(b, o)) && Tells(ls[o.id := LineOf(o)], Rest(b, o))
  {
    hide DistinctIds;
    hide Holds;
    hide Insert;
    hide TellsSide;
    var rested, own := o.(status := Open, arrival := b.seqNum + 1), b.On(o.side);
    InsertIds(own, rested);
    InsertTold(ls, own, rested);
    OtherTold(ls, b.On(Opposite(o.side)), rested);
    InsertHolds(own, rested);
  }

  lemma ReadAccepted(b: Book, o: OrderView, ls: Lines)
    requires BookOk(b) && Separate(b) && Tells(ls, b) && !Holds(b.bids, o.id) && !Holds(b.asks, o.id)
    requires !TurnedAway(b, o) && o.filled == 0
    ensures var p, after := Place(b, o), ReadLog(ls, PlaceEvents(b, o)); Separate(p.book) && Tells(after, p.book)
  {
    hide TurnedAway;
    hide BookOk;
    hide Separate;
    hide Tells;
    hide Holds;
    hide Match;
    hide Rest;
    hide TradeEvents;
    hide Read;
    hide DecimalText.Print;
    var m, r := FlatBook.MatchOrder(b, o), Match(b.symbol, o, b.On(Opposite(o.side)));
    MatchKeepsIdentity(b.symbol, o, b.On(Opposite(o.side)));
    NoTradeDiscarded(b, o);
    PassTold(b, o, ls);
    var es := TradeEvents(r.trades);
    var taker := TakerEvents(b.symbol, o, m.matches, !m.leftover || m.order.status == Filled);
    ReadTaker(ls, es, taker);
    if Rests(m) {
      var e := PlacedEvent(b.symbol, m.order.(status := Open, arrival := m.book.seqNum + 1));
      ReadLogAppend(ls, es + taker, [e]);
      ReadOne(ReadLog(ls, es), e);
      ReadPrinted(o.price);
      ReadPrinted(o.quantity);
      ReadPrinted(m.order.filled);
      RestTold(m.book, m.order, ReadLog(ls, es));
    } else {
      assert es + taker + [] == es + taker;
    }
  }

  /** The taker's own event changes no line. */
  lemma ReadTaker(ls: Lines, es: seq<Event>, taker: seq<Event>)
    requires |taker| <= 1 && (taker != [] ==> taker[0].OrderMatched?)
    ensures ReadLog(ls, es + taker) == ReadLog(ls, es)
  {
    if taker == [] {
      assert es + taker == es;
    } else {
      assert (es + taker)[..|es|] == es;
    }
  }

  /** Lines of orders that share no identifier with the makers are not touched by a pass. */
  lemma OthersTold(ls: Lines, after: Lines, own: seq<OrderView>, ms: seq<OrderView>)
    requires TellsSide(ls, own) && forall id :: !(Holds(own, id) && Holds(ms, id))
    requires forall id :: !Holds(ms, id) ==> (id in after <==> id in ls) && (id in ls ==> after[id] == ls[id])
    ensures TellsSide(after, own)
  {
    forall i | 0 <= i < |own|
      ensures own[i].id in after && after[own[i].id] == LineOf(own[i])
    {
      assert Holds(own, own[i].id);
    }
  }

  lemma InsertTold(ls: Lines, own: seq<OrderView>, o: OrderView)
    requires TellsSide(ls, own) && !Holds(own, o.id)
    ensures TellsSide(ls[o.id := LineOf(o)], Insert(own, o))
  {
    hide Insert;
    var r := Insert(own, o);
    forall i | 0 <= i < |r|
      ensures r[i].id in ls[o.id := LineOf(o)] && ls[o.id := LineOf(o)][r[i].id] == LineOf(r[i])
    {
      InsertMembers(own, o, r[i]);
      if r[i] in own {
        var k :| 0 <= k < |own| && own[k] == r[i];
        assert own[k].id != o.id;
      }
    }
  }

  lemma OtherTold(ls: Lines, ms: seq<OrderView>, o: OrderView)
    requires TellsSide(ls, ms) && !Holds(ms, o.id)
    ensures TellsSide(ls[o.id := LineOf(o)], ms)
  {
  }

  lemma InsertHolds(own: seq<OrderView>, o: OrderView)
    ensures forall id :: Holds(Insert(own, o), id) <==> Holds(own, id) || id == o.id
  {
    var r := Insert(own, o);
    forall id | Holds(own, id) || id == o.id
      ensures Holds(r, id)
    {
      var x := if id == o.id then o else var k :| 0 <= k < |own| && own[k].id == id; own[k];
      InsertMembers(own, o, x);
      var j :| 0 <= j < |r| && r[j] == x;
    }
    forall id | Holds(r, id)
      ensures Holds(own, id) || id == o.id
    {
      var j :| 0 <= j < |r| && r[j].id == id;
      InsertMembers(own, o, r[j]);
    }
  }

  lemma ReadSubmit(b: Book, o: OrderView, ls: Lines)
    requires BookOk(b) && Separate(b) && Tells(ls, b) && !Holds(b.bids, o.id) && !Holds(b.asks, o.id) && o.filled == 0
    ensures var p, after := Place(b, o), ReadLog(ls, PlaceEvents(b, o)); Separate(p.book) && Tells(after, p.book)
  {
    hide BookOk;
    hide Tells;
    hide Separate;
    if TurnedAway(b, o) {
      ReadOne(ls, OrderRejected(o.id, o.user, b.symbol));
    } else {
      ReadAccepted(b, o, ls);
    }
  }

  lemma ReadCancel(b: Book, id: string, ls: Lines)
    requires Separate(b) && Tells(ls, b)
    ensures var c, after := CancelBook(b, id), ReadLog(ls, CancelEvents(b, id)); Separate(c) && Tells(after, c)
  {
    hide Find;
    hide Delete;
    hide Holds;
    hide DistinctIds;
    hide TellsSide;
    FindIff(b.bids, id);
    FindIff(b.asks, id);
    var i, j := Find(b.bids, id), Find(b.asks, id);
    if i < |b.bids| {
      ReadOne(ls, OrderCancelled(id, b.bids[i].user, b.symbol));
      DeleteTold(ls, b.bids, i);
      GoneTold(ls, b.asks, id);
    } else if j < |b.asks| {
      ReadOne(ls, OrderCancelled(id, b.asks[j].user, b.symbol));
      DeleteTold(ls, b.asks, j);
      GoneTold(ls, b.bids, id);
    } else {
      ReadOne(ls, OrderCancelled(id, "", b.symbol));
    }
  }

  lemma DeleteTold(ls: Lines, ms: seq<OrderView>, i: nat)
    requires TellsSide(ls, ms) && DistinctIds(ms) && i < |ms|
    ensures TellsSide(ls - {ms[i].id}, Delete(ms, i)) && DistinctIds(Delete(ms, i))
    ensures forall id :: Holds(Delete(ms, i), id) <==> Holds(ms, id) && id != ms[i].id
  {
    var d := Delete(ms, i);
    assert forall k :: 0 <= k < |d| ==> d[k] == ms[if k < i then k else k + 1];
    forall id | Holds(ms, id) && id != ms[i].id
      ensures Holds(d, id)
    {
      var k :| 0 <= k < |ms| && ms[k].id == id;
      assert d[if k < i then k else k - 1].id == id;
    }
  }

  lemma GoneTold(ls: Lines, ms: seq<OrderView>, id: string)
    requires TellsSide(ls, ms) && !Holds(ms, id)
    ensures TellsSide(ls - {id}, ms)
  {
  }

  // ---------- Every history ----------

  /**
   Over every history of new orders with distinct identifiers, whoever reads the published events alone knows the book:
   which orders rest in it, whose they are, on what terms, and how much of each has been filled.
   */
  lemma {:induction false} LogTellsBook(symbol: string, cs: seq<Command>)
    requires Distinct(cs) && Fresh(cs)
    ensures var b := RunBook(EmptyBook(symbol), cs);
      Separate(b) && Tells(ReadLog(map[], RunEvents(EmptyBook(symbol), cs)), b)
  {
    hide Distinct;
    hide Tells;
    hide Separate;
    hide BookOk;
    hide Holds;
    hide Submitted;
    hide Place;
    hide PlaceEvents;
    hide CancelBook;
    hide CancelEvents;
    var e := EmptyBook(symbol);
    if cs == [] {
      NothingTold(symbol);
    } else {
      var n := |cs| - 1;
      SubmittedEarlier(cs, n);
      LogTellsBook(symbol, cs[..n]);
      EmptyBookOk(symbol);
      RunKeepsBook(e, cs[..n]);
      TradesAreUnique(symbol, cs[..n]);
      var b, es := RunBook(e, cs[..n]), RunEvents(e, cs[..n]);
      ReadLogAppend(map[], es, StepEvents(b, cs[n]));
      match cs[n]
      case Submit(o) => ReadSubmit(b, o, ReadLog(map[], es));
      case Cancel(id) => ReadCancel(b, id, ReadLog(map[], es));
    }
  }

  lemma NothingTold(symbol: string)
    ensures Separate(EmptyBook(symbol)) && Tells(map[], EmptyBook(symbol))
  {
  }

  // ---------- How each command is told ----------

  /** Trade events are as many as the trades, in order, and nothing else is among them. */
  lemma {:induction false} TradesTold(ts: seq<Trade>)
    ensures var es := TradeEvents(ts);
      |es| == |ts| && forall i :: 0 <= i < |es| ==> es[i] == TradeEvent(ts[i])
  {
    hide TradeEvent;
    if ts != [] {
      TradesTold(ts[..|ts| - 1]);
    }
  }

  /** The event tells all there is to know of a resting order, its numbers as text. */
  predicate TellsResting(e: Event, symbol: string, o: OrderView) {
    && e.OrderPlaced? && e.id == o.id && e.user == o.user && e.symbol == symbol
    && e.side == o.side && e.typ == o.typ && e.tif == o.tif && e.status == Open
    && DecimalText.Parse(e.price) == Some(o.price)
    && DecimalText.Parse(e.quantity) == Some(o.quantity)
    && DecimalText.Parse(e.filledQty) == Some(o.filled)
  }

  lemma PlacedTells(symbol: string, o: OrderView)
    requires o.status == Open
    ensures TellsResting(PlacedEvent(symbol, o), symbol, o)
  {
    hide DecimalText.Parse;
    hide DecimalText.Print;
    DecimalTextLaws.RoundTrip(o.price);
    DecimalTextLaws.RoundTrip(o.quantity);
    DecimalTextLaws.RoundTrip(o.filled);
  }

  /**
   The events of a submission: a rejection and nothing else if and only if the order is rejected; otherwise its trades
   in order, then whether it was filled, if it traded, and then its resting, if it rests.
   */
  lemma SubmissionTold(b: Book, o: OrderView)
    requires BookOk(b) && o.quantity > 0 && o.filled == 0 && o.status == Created
    ensures var p, es := Place(b, o), PlaceEvents(b, o); var n := |p.matches|; var m := if n > 0 then 1 else 0;
      if p.order.status == Rejected then es == [OrderRejected(o.id, o.user, b.symbol)]
      else
        && |es| == n + m + (if p.order.status == Open then 1 else 0)
        && (forall i :: 0 <= i < n ==> es[i] == TradeEvent(p.matches[i]))
        && (n > 0 ==> es[n] == OrderMatched(o.id, o.user, b.symbol, o.side, p.order.filled == o.quantity))
        && (p.order.status == Open ==> TellsResting(es[n + m], b.symbol, p.order))
  {
    hide TurnedAway;
    hide Unservable;
    hide Match;
    hide Rest;
    hide EligibleDepth;
    hide Volume;
    hide BookOk;
    hide TradeEvents;
    hide TradeEvent;
    hide PlacedEvent;
    hide TellsResting;
    PlaceDecides(b, o);
    TurnedAwayIff(b, o);
    if Place(b, o).order.status == Open {
      PlacedTells(b.symbol, Place(b, o).order);
    }
    TradesTold(Place(b, o).matches);
  }

  /** A cancellation is told exactly when an order is taken out, under its identifier and user. */
  lemma CancellationTold(b: Book, id: string)
    ensures CancelEvents(b, id) ==
      if !Holds(b.bids, id) && !Holds(b.asks, id) then []
      else [OrderCancelled(id, CancelResult(b, id).value.user, b.symbol)]
  {
    hide Holds;
    CancelTakesOut(b, id);
    LookupFinds(b, id);
  }
}
