/** One shard of the matching engine: the command step, the events it emits, and its event loop. */
module Engine {
  import opened Types
  import opened FlatBook
  import opened BookLaws
  import opened OrderQueues
  import opened OrderBooks
  import DecimalText

  /** The text payload of an executed trade. */
  datatype TradePayload = TradePayload(
    takerId: string, makerId: string, takerUser: string, makerUser: string, symbol: string,
    price: string, quantity: string, quoteQty: string, takerSide: Side)

  datatype Event =
    | TradeExecuted(payload: TradePayload)
    | OrderMatched(id: string, user: string, symbol: string, side: Side, filled: bool)
    | OrderPlaced(id: string, user: string, symbol: string, side: Side, typ: OrderType, price: string,
                  quantity: string, filledQty: string, tif: TimeInForce, status: Status)
    | OrderRejected(id: string, user: string, symbol: string)
    | OrderCancelled(id: string, user: string, symbol: string)

  // ---------- What a command does, on the flat book ----------

  function TradeEvent(t: Trade): Event {
    TradeExecuted(TradePayload(t.takerId, t.makerId, t.takerUser, t.makerUser, t.symbol,
                               DecimalText.Print(t.price), DecimalText.Print(t.quantity), DecimalText.Print(t.quoteQty),
                               t.takerSide))
  }

  function TradeEvents(ts: seq<Trade>): seq<Event> {
    if ts == [] then [] else TradeEvents(ts[..|ts| - 1]) + [TradeEvent(ts[|ts| - 1])]
  }

  lemma OneMoreTrade(ts: seq<Trade>, i: nat)
    ensures TradeEvents(ts[..0]) == []
    ensures i < |ts| ==> TradeEvents(ts[..i + 1]) == TradeEvents(ts[..i]) + [TradeEvent(ts[i])]
  {
    if i < |ts| {
      assert ts[..i + 1][..i] == ts[..i];
    }
  }

  function PlacedEvent(symbol: string, o: OrderView): Event {
    OrderPlaced(o.id, o.user, symbol, o.side, o.typ, DecimalText.Print(o.price), DecimalText.Print(o.quantity),
                DecimalText.Print(o.filled), o.tif, o.status)
  }

  /** The taker's own outcome, when it traded at all. */
  function TakerEvents(symbol: string, o: OrderView, matches: seq<Trade>, filled: bool): seq<Event> {
    if matches == [] then [] else [OrderMatched(o.id, o.user, symbol, o.side, filled)]
  }

  /** Trades first, then the taker's own outcome, then its resting. */
  function PlaceEvents(b: Book, o: OrderView): seq<Event> {
    if TurnedAway(b, o) then [OrderRejected(o.id, o.user, b.symbol)]
    else
      var r := FlatBook.MatchOrder(b, o);
      TradeEvents(r.matches)
      + TakerEvents(b.symbol, o, r.matches, !r.leftover || r.order.status == Filled)
      + (if Rests(r) then [PlacedEvent(b.symbol, Place(b, o).order)] else [])
  }

  /** An order that is not turned away is matched, and then perhaps rests. */
  lemma AcceptedOutcome(b: Book, o: OrderView)
    requires !TurnedAway(b, o)
    ensures var r := FlatBook.MatchOrder(b, o); var rested := r.order.(status := Open, arrival := r.book.seqNum + 1);
      && Place(b, o) == (if Rests(r) then Placed(Rest(r.book, r.order), r.matches, rested, true)
                         else Placed(r.book, r.matches, r.order, r.leftover))
      && PlaceEvents(b, o) ==
           TradeEvents(r.matches)
           + TakerEvents(b.symbol, o, r.matches, !r.leftover || r.order.status == Filled)
           + (if Rests(r) then [PlacedEvent(b.symbol, rested)] else [])
  {
  }

  function CancelEvents(b: Book, id: string): seq<Event> {
    match CancelResult(b, id)
    case Some(o) => [OrderCancelled(o.id, o.user, b.symbol)]
    case None => []
  }

  // ---------- Commands ----------

  datatype Command = Submit(order: OrderView) | Cancel(id: string)

  function StepBook(b: Book, c: Command): Book {
    match c
    case Submit(o) => Place(b, o).book
    case Cancel(id) => CancelBook(b, id)
  }

  function StepEvents(b: Book, c: Command): seq<Event> {
    match c
    case Submit(o) => PlaceEvents(b, o)
    case Cancel(id) => CancelEvents(b, id)
  }

  /** The book after a run of commands. */
  function RunBook(b: Book, cs: seq<Command>): Book {
    if cs == [] then b else StepBook(RunBook(b, cs[..|cs| - 1]), cs[|cs| - 1])
  }

  /** The events of a run of commands. */
  function RunEvents(b: Book, cs: seq<Command>): seq<Event> {
    if cs == [] then []
    else RunEvents(b, cs[..|cs| - 1]) + StepEvents(RunBook(b, cs[..|cs| - 1]), cs[|cs| - 1])
  }

  lemma RunNothing(b: Book)
    ensures RunBook(b, []) == b && RunEvents(b, []) == []
  {
  }

  lemma RunOneMore(b: Book, cs: seq<Command>, i: nat)
    requires i < |cs|
    ensures RunBook(b, cs[..i + 1]) == StepBook(RunBook(b, cs[..i]), cs[i])
    ensures RunEvents(b, cs[..i + 1]) == RunEvents(b, cs[..i]) + StepEvents(RunBook(b, cs[..i]), cs[i])
  {
    assert cs[..i + 1][..i] == cs[..i];
  }

  lemma StepKeepsBook(b: Book, c: Command)
    requires BookOk(b)
    ensures BookOk(StepBook(b, c))
  {
    match c
    case Submit(o) => PlaceKeepsBook(b, o);
    case Cancel(id) => CancelKeepsBook(b, id);
  }

  /** Over every run of commands both sides stay in price-time order and the book is never crossed. */
  lemma {:induction false} RunKeepsBook(b: Book, cs: seq<Command>)
    requires BookOk(b)
    ensures BookOk(RunBook(b, cs))
  {
    if cs != [] {
      RunKeepsBook(b, cs[..|cs| - 1]);
      StepKeepsBook(RunBook(b, cs[..|cs| - 1]), cs[|cs| - 1]);
    }
  }

  // ---------- The shard ----------

  /** What arrives on the shard's channel: a submitted order, or a request to cancel one. */
  datatype ShardOrder = PlaceCmd(order: Order) | CancelCmd(id: string)
  {
    ghost function Command(): Command
      reads if this.PlaceCmd? then {order} else {}
    {
      match this
      case PlaceCmd(o) => Submit(o.View())
      case CancelCmd(id) => Cancel(id)
    }
  }

  class Shard {
    const symbol: string
    const book: OrderBook
    /** The events published so far. */
    var log: seq<Event>

    ghost predicate Valid()
      reads this, book, book.Repr, book.pool, book.pool.free
    {
      && this !in book.Repr && book.symbol == symbol
      && book.Valid() && BookOk(book.Flat())
    }

    constructor (symbol: string, pool: NodePool)
      requires pool.Valid()
      ensures Valid() && fresh(book) && log == [] && book.pool == pool
      ensures book.Flat() == Book(symbol, [], [], 0) && book.Repr == {}
    {
      this.symbol := symbol;
      book := new OrderBook(symbol, pool);
      log := [];
    }

    /** Process one submitted order. */
    method ProcessPlace(order: Order) returns (matches: seq<Trade>, remaining: Order?)
      requires Valid() && order !in book.Repr && order.queue == null
      modifies this`log, book, book.Repr, order, book.pool, book.pool.free
      ensures Valid()
      ensures var p := Place(old(book.Flat()), old(order.View()));
        && book.Flat() == p.book && matches == p.matches && order.View() == p.order
        && remaining == if p.leftover then order else null
      ensures log == old(log) + PlaceEvents(old(book.Flat()), old(order.View()))
      ensures book.Repr >= old(book.Repr)
      ensures forall x :: x in book.Repr - old(book.Repr) ==> x == order || fresh(x) || x in old(book.pool.free)
      ensures forall n :: n in book.pool.free ==> n in old(book.pool.free) || n in book.Repr
    {
      hide OrderBook.Valid;
      hide BookOk;
      hide TurnedAway;
      book.Separate();
      var away := IsTurnedAway(order);
      if away {
        order.status := Rejected;
        log := log + [OrderRejected(order.id, order.user, symbol)];
        return [], order;
      }
      matches, remaining := Accept(order);
    }

    /** Match, publish, and rest what is left. */
    method Accept(order: Order) returns (matches: seq<Trade>, remaining: Order?)
      requires Valid() && order !in book.Repr && order.queue == null
      requires !TurnedAway(book.Flat(), order.View())
      modifies this`log, book, book.Repr, order, book.pool, book.pool.free
      ensures Valid()
      ensures var p := Place(old(book.Flat()), old(order.View()));
        && book.Flat() == p.book && matches == p.matches && order.View() == p.order
        && remaining == if p.leftover then order else null
      ensures log == old(log) + PlaceEvents(old(book.Flat()), old(order.View()))
      ensures book.Repr >= old(book.Repr)
      ensures forall x :: x in book.Repr - old(book.Repr) ==> x == order || fresh(x) || x in old(book.pool.free)
      ensures forall n :: n in book.pool.free ==> n in old(book.pool.free) || n in book.Repr
    {
      hide OrderBook.Valid;
      hide BookOk;
      hide TurnedAway;
      hide FlatBook.MatchOrder;
      hide Rest;
      hide Place;
      hide PlaceEvents;
      hide PlacedEvent;
      hide TradeEvents;
      AcceptedOutcome(book.Flat(), order.View());
      ghost var b, o := book.Flat(), order.View();
      book.Separate();
      PlaceKeepsBook(b, o);
      MatchOrderKeepsBook(b, o);
      matches, remaining := book.MatchOrder(order);
      // Readers may look at the book here: it is intact, in order and not crossed.
      assert book.Valid() && BookOk(book.Flat());
      EmitMatches(order, matches, remaining);
      if remaining != null && remaining.status != Filled && remaining.status != Cancelled &&
        remaining.status != Rejected {
        AddToBook(remaining);
        EmitOrderPlaced(remaining);
      }
      assert BookOk(book.Flat());
    }

    method EmitOrderPlaced(order: Order)
      modifies this`log
      ensures log == old(log) + [PlacedEvent(symbol, order.View())]
    {
      log := log + [OrderPlaced(order.id, order.user, symbol, order.side, order.typ,
                                DecimalText.Print(order.price), DecimalText.Print(order.quantity),
                                DecimalText.Print(order.filledQty), order.tif, order.status)];
    }

    /** Emit the trades and, if there are any, whether they filled the order. */
    method EmitMatches(order: Order, matches: seq<Trade>, remaining: Order?)
      modifies this`log
      ensures log == old(log) + TradeEvents(matches)
        + TakerEvents(symbol, order.View(), matches, remaining == null || remaining.status == Filled)
    {
      hide TradeEvents;
      hide TradeEvent;
      OneMoreTrade(matches, 0);
      var i := 0;
      while i < |matches|
        invariant 0 <= i <= |matches|
        invariant log == old(log) + TradeEvents(matches[..i])
      {
        log := log + [TradeEvent(matches[i])];
        OneMoreTrade(matches, i);
        i := i + 1;
      }
      assert matches[..i] == matches;
      if |matches| > 0 {
        var filled := remaining == null || remaining.status == Filled;
        log := log + [OrderMatched(order.id, order.user, symbol, order.side, filled)];
      }
    }

    method AddToBook(order: Order)
      requires book.Valid() && order !in book.Repr && order.queue == null
      modifies book, book.Repr, order, book.pool, book.pool.free
      ensures book.Valid() && (this !in old(book.Repr) ==> this !in book.Repr)
      ensures book.Flat() == Rest(old(book.Flat()), old(order.View()))
      ensures book.seqNum == old(book.seqNum) + 1 &&
        order.View() == old(order.View()).(status := Open, arrival := book.seqNum)
      ensures book.Repr > old(book.Repr) && order in book.Repr
      ensures forall x :: x in book.Repr - old(book.Repr) ==> x == order || fresh(x) || x in old(book.pool.free)
      ensures forall n :: n in book.pool.free ==> n in old(book.pool.free) || n in book.Repr
    {
      hide OrderBook.Valid;
      assert forall n :: n in book.pool.free ==> n as object != this;
      if order.side == Buy {
        book.AddBid(order);
      } else {
        book.AddAsk(order);
      }
    }

    /** The checks before matching. */
    method IsTurnedAway(order: Order) returns (away: bool)
      requires Valid()
      ensures away == TurnedAway(book.Flat(), order.View())
    {
      hide SideOk;
      hide EligibleDepth;
      book.BestPrices();
      hide OrderBook.Valid;
      if order.tif == FOK {
        var can := book.CanFillFOK(order);
        if !can {
          return true;
        }
      }
      if order.typ == Market {
        if order.side == Buy && book.BestAsk() == 0 {
          return true;
        }
        if order.side == Sell && book.BestBid() == 0 {
          return true;
        }
      }
      return false;
    }

    /** Process one cancellation. */
    method ProcessCancel(id: string) returns (cancelled: Order?)
      requires Valid()
      modifies this`log, book, book.Repr, book.pool
      ensures Valid()
      ensures book.Flat() == CancelBook(old(book.Flat()), id)
      ensures match CancelResult(old(book.Flat()), id)
        case Some(o) => cancelled != null && cancelled.queue == null && cancelled.View() == o
        case None => cancelled == null
      ensures log == old(log) + CancelEvents(old(book.Flat()), id)
      ensures book.Repr == old(book.Repr)
      ensures forall n :: n in book.pool.free ==> n in old(book.pool.free) || n in book.Repr
    {
      hide OrderBook.Valid;
      hide BookOk;
      book.Separate();
      CancelKeepsBook(book.Flat(), id);
      cancelled := book.CancelOrder(id);
      if cancelled != null {
        log := log + [OrderCancelled(cancelled.id, cancelled.user, symbol)];
      }
    }

    /** Process one command from the channel. */
    method ProcessOrder(so: ShardOrder)
      requires Valid()
      requires so.PlaceCmd? ==> so.order !in book.Repr && so.order.queue == null
      modifies this`log, book, book.Repr, book.pool, book.pool.free, if so.PlaceCmd? then {so.order} else {}
      ensures Valid()
      ensures book.Flat() == StepBook(old(book.Flat()), old(so.Command()))
      ensures log == old(log) + StepEvents(old(book.Flat()), old(so.Command()))
      ensures book.Repr >= old(book.Repr)
      ensures forall x :: x in book.Repr - old(book.Repr) ==>
        (so.PlaceCmd? && x == so.order) || fresh(x) || x in old(book.pool.free)
      ensures forall n :: n in book.pool.free ==> n in old(book.pool.free) || n in book.Repr
    {
      hide OrderBook.Valid;
      hide BookOk;
      hide Place;
      hide PlaceEvents;
      hide CancelBook;
      match so {
        case PlaceCmd(order) => var matches, remaining := ProcessPlace(order);
        case CancelCmd(id) => var cancelled := ProcessCancel(id);
      }
    }

    /** Process the command at position i of an inbox. */
    method ProcessNext(input: seq<ShardOrder>, ghost cs: seq<Command>, i: nat)
      requires Valid() && Inbox(input, cs, i) && i < |input|
      modifies this`log, book, book.Repr, book.pool, book.pool.free, if input[i].PlaceCmd? then {input[i].order} else {}
      ensures Valid() && Inbox(input, cs, i + 1)
      ensures book.Flat() == StepBook(old(book.Flat()), cs[i])
      ensures log == old(log) + StepEvents(old(book.Flat()), cs[i])
      ensures book.Repr >= old(book.Repr)
      ensures forall x :: x in book.Repr - old(book.Repr) ==>
        (input[i].PlaceCmd? && x == input[i].order) || fresh(x) || x in old(book.pool.free)
      ensures forall n :: n in book.pool.free ==> n in old(book.pool.free) || n in book.Repr
    {
      hide OrderBook.Valid;
      hide BookOk;
      hide StepBook;
      hide StepEvents;
      ProcessOrder(input[i]);
      forall j | i < j < |input| && input[j].PlaceCmd?
        ensures input[j].order !in book.Repr && unchanged(input[j].order)
      {
        assert old(allocated(input[j].order));
        assert forall n :: n in old(book.pool.free) ==> n as object != input[j].order;
        assert input[i].PlaceCmd? ==> input[j].order != input[i].order;
        assert input[j].order !in book.Repr - old(book.Repr);
      }
    }

    /** The event loop: process commands in the order of their arrival. `owned` is all the loop may touch. */
    method Run(input: seq<ShardOrder>, ghost cs: seq<Command>, ghost owned: set<object>)
      requires Valid() && Inbox(input, cs, 0)
      requires Owned(input, owned)
      modifies this`log, owned
      ensures Valid()
      ensures book.Flat() == RunBook(old(book.Flat()), cs)
      ensures log == old(log) + RunEvents(old(book.Flat()), cs)
    {
      hide Valid;
      hide Inbox;
      hide RunBook;
      hide RunEvents;
      hide StepBook;
      hide StepEvents;
      ghost var b := book.Flat();
      RunNothing(b);
      InboxSize(input, cs);
      var i := 0;
      while i < |input|
        invariant 0 <= i <= |input| == |cs|
        invariant Valid() && Inbox(input, cs, i)
        invariant book.Flat() == RunBook(b, cs[..i])
        invariant log == old(log) + RunEvents(b, cs[..i])
        invariant forall x :: x in book.Repr ==> x in owned || fresh(x)
        invariant forall n: object :: n in book.pool.free ==> n in owned || fresh(n)
      {
        RunOneMore(b, cs, i);
        ProcessNext(input, cs, i);
        i := i + 1;
      }
      assert cs[..i] == cs;
    }

    lemma InboxSize(input: seq<ShardOrder>, cs: seq<Command>)
      requires Inbox(input, cs, 0)
      ensures |input| == |cs|
    {
    }

    /** The book with its footprint, the pool with its nodes, and the submitted orders. */
    ghost predicate Owned(input: seq<ShardOrder>, owned: set<object>)
      reads book, book.pool
    {
      && book in owned && book.pool in owned
      && (forall x :: x in book.Repr ==> x in owned)
      && (forall n :: n in book.pool.free ==> n in owned)
      && (forall j :: 0 <= j < |input| && input[j].PlaceCmd? ==> input[j].order in owned)
    }

    /** From position i on, the commands are as recorded, and their orders are distinct and rest nowhere. */
    ghost predicate Inbox(input: seq<ShardOrder>, cs: seq<Command>, i: nat)
      reads book, set c | c in input && c.PlaceCmd? :: c.order
    {
      && |input| == |cs|
      && (forall j :: i <= j < |input| ==> cs[j] == input[j].Command())
      && (forall j :: i <= j < |input| && input[j].PlaceCmd? ==>
            input[j].order !in book.Repr && input[j].order.queue == null)
      && (forall j, k :: i <= j < k < |input| && input[j].PlaceCmd? && input[k].PlaceCmd? ==>
            input[j].order != input[k].order)
    }
  }
}
