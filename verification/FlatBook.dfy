/**
 The order book as two plain lists in price-time priority, and what each command does to them.
 This is the reference against which the indexed, mutable book is proved.
 */
module FlatBook {
  import opened Types
  import Decimal

  /** `bids` and `asks` list the resting orders, the one to be matched first at index 0. */
  datatype Book = Book(symbol: string, bids: seq<OrderView>, asks: seq<OrderView>, seqNum: nat)
  {
    /** The resting orders on one side. */
    function On(side: Side): seq<OrderView> {
      if side == Buy then bids else asks
    }

    function With(side: Side, ms: seq<OrderView>): Book {
      if side == Buy then this.(bids := ms) else this.(asks := ms)
    }
  }

  /** Whether resting price p on a side is strictly better for the taker than q. */
  predicate Better(side: Side, p: int, q: int) {
    if side == Buy then p > q else p < q
  }

  /** Only a limit order refuses a price. */
  predicate Crosses(t: OrderView, price: int) {
    t.typ != Limit || (if t.side == Buy then t.price >= price else t.price <= price)
  }

  // ---------- Matching ----------

  datatype Outcome = Outcome(trades: seq<Trade>, taker: OrderView, makers: seq<OrderView>)

  function Fill(o: OrderView, q: int): OrderView {
    o.(filled := o.filled + q)
  }

  function MakeTrade(symbol: string, t: OrderView, m: OrderView, q: int): Trade {
    Trade(t.id, m.id, t.user, m.user, symbol, m.price, q, Decimal.Mul(m.price, q), t.side)
  }

  predicate CanTrade(t: OrderView, ms: seq<OrderView>) {
    t.Remaining() > 0 && ms != [] && Crosses(t, ms[0].price)
  }

  function TradeQty(t: OrderView, m: OrderView): int {
    Decimal.Min(t.Remaining(), m.Remaining())
  }

  /** What is left of the makers after the first one is filled by q. */
  function AfterFill(ms: seq<OrderView>, q: int): seq<OrderView>
    requires ms != []
  {
    var m := Fill(ms[0], q);
    if m.Remaining() <= 0 then ms[1..] else [m] + ms[1..]
  }

  /** Consume the makers from the front for as long as the taker wants and accepts them. */
  function Match(symbol: string, t: OrderView, ms: seq<OrderView>): Outcome
    decreases |ms|, t.Remaining()
  {
    if !CanTrade(t, ms) then Outcome([], t, ms)
    else
      var q := TradeQty(t, ms[0]);
      var rest := Match(symbol, Fill(t, q), AfterFill(ms, q));
      rest.(trades := [MakeTrade(symbol, t, ms[0], q)] + rest.trades)
  }

  lemma MatchStep(symbol: string, t: OrderView, ms: seq<OrderView>)
    requires CanTrade(t, ms)
    ensures var q := TradeQty(t, ms[0]); var rest := Match(symbol, Fill(t, q), AfterFill(ms, q));
      Match(symbol, t, ms) == rest.(trades := [MakeTrade(symbol, t, ms[0], q)] + rest.trades)
  {
  }

  lemma MatchStop(symbol: string, t: OrderView, ms: seq<OrderView>)
    requires !CanTrade(t, ms)
    ensures Match(symbol, t, ms) == Outcome([], t, ms)
  {
  }

  /** The outcome of a pass that has made these trades and goes on with this taker and these makers. */
  function Resumed(done: seq<Trade>, symbol: string, t: OrderView, ms: seq<OrderView>): Outcome {
    var rest := Match(symbol, t, ms);
    rest.(trades := done + rest.trades)
  }

  lemma ResumedStart(symbol: string, t: OrderView, ms: seq<OrderView>)
    ensures Resumed([], symbol, t, ms) == Match(symbol, t, ms)
  {
    hide Match;
  }

  lemma ResumedStep(done: seq<Trade>, symbol: string, t: OrderView, ms: seq<OrderView>)
    requires CanTrade(t, ms)
    ensures var q := TradeQty(t, ms[0]);
      Resumed(done, symbol, t, ms) ==
      Resumed(done + [MakeTrade(symbol, t, ms[0], q)], symbol, Fill(t, q), AfterFill(ms, q))
  {
    hide Match;
    hide AfterFill;
    MatchStep(symbol, t, ms);
    var q := TradeQty(t, ms[0]);
    var rest := Match(symbol, Fill(t, q), AfterFill(ms, q));
    var trade := MakeTrade(symbol, t, ms[0], q);
    assert done + ([trade] + rest.trades) == (done + [trade]) + rest.trades;
  }

  lemma ResumedStop(done: seq<Trade>, symbol: string, t: OrderView, ms: seq<OrderView>)
    requires !CanTrade(t, ms)
    ensures Resumed(done, symbol, t, ms) == Outcome(done, t, ms)
  {
  }

  /** A fill either takes the first maker away or finishes the taker. */
  lemma FillShrinks(t: OrderView, ms: seq<OrderView>)
    requires CanTrade(t, ms)
    ensures var q := TradeQty(t, ms[0]); var ms' := AfterFill(ms, q);
      |ms'| < |ms| || (|ms'| == |ms| && Fill(t, q).Remaining() == 0)
  {
  }

  // ---------- Resting and removing ----------

  /** Insert behind every order whose price is at least as good. */
  function Insert(ms: seq<OrderView>, o: OrderView): seq<OrderView> {
    if ms == [] || Better(o.side, o.price, ms[0].price) then [o] + ms
    else [ms[0]] + Insert(ms[1..], o)
  }

  /** The position of the first order with this identifier, or the length of the list. */
  function Find(ms: seq<OrderView>, id: string): (i: nat)
    ensures i <= |ms|
    ensures i < |ms| ==> ms[i].id == id
    ensures forall j :: 0 <= j < i ==> ms[j].id != id
  {
    if ms == [] || ms[0].id == id then 0 else 1 + Find(ms[1..], id)
  }

  function Delete<T>(s: seq<T>, i: nat): seq<T>
    requires i < |s|
  {
    s[..i] + s[i + 1..]
  }

  /** The order with this identifier: the bids are searched first. */
  function Lookup(b: Book, id: string): Option<OrderView> {
    var i := Find(b.bids, id);
    var j := Find(b.asks, id);
    if i < |b.bids| then Some(b.bids[i])
    else if j < |b.asks| then Some(b.asks[j])
    else None
  }

  function CancelBook(b: Book, id: string): Book {
    var i := Find(b.bids, id);
    var j := Find(b.asks, id);
    if i < |b.bids| then b.(bids := Delete(b.bids, i))
    else if j < |b.asks| then b.(asks := Delete(b.asks, j))
    else b
  }

  function CancelResult(b: Book, id: string): Option<OrderView> {
    match Lookup(b, id)
    case Some(o) => Some(o.(status := Cancelled))
    case None => None
  }

  function Rest(b: Book, o: OrderView): Book {
    var n := b.seqNum + 1;
    b.With(o.side, Insert(b.On(o.side), o.(status := Open, arrival := n))).(seqNum := n)
  }

  // ---------- The pre-check of fill-or-kill orders ----------

  /** The summed remaining quantity of every order in the list. */
  function Depth(ms: seq<OrderView>): int {
    if ms == [] then 0 else ms[0].Remaining() + Depth(ms[1..])
  }

  /** The summed remaining quantity of every order the taker would accept, wherever it stands in the list. */
  function EligibleDepth(t: OrderView, ms: seq<OrderView>): int {
    if ms == [] then 0
    else (if Crosses(t, ms[0].price) then ms[0].Remaining() else 0) + EligibleDepth(t, ms[1..])
  }

  /** At least one resting order is acceptable, and together they cover the required quantity. */
  predicate CanFill(b: Book, t: OrderView) {
    var ms := b.On(Opposite(t.side));
    && ms != []
    && Crosses(t, ms[0].price)
    && EligibleDepth(t, ms) >= t.quantity
  }

  // ---------- One order through the book ----------

  /** `order` is the taker afterwards; `leftover` tells whether it is handed back as not completely filled. */
  datatype MatchReport = MatchReport(book: Book, matches: seq<Trade>, order: OrderView, leftover: bool)

  function MatchOrder(b: Book, o: OrderView): MatchReport {
    var side := Opposite(o.side);
    var r := Match(b.symbol, o, b.On(side));
    var b' := b.With(side, r.makers);
    if r.taker.Remaining() <= 0 then MatchReport(b', r.trades, r.taker.(status := Filled), false)
    else if o.tif == FOK then MatchReport(b', [], r.taker.(status := Cancelled), true)
    else if o.tif == IOC then MatchReport(b', r.trades, r.taker.(status := Cancelled), true)
    else MatchReport(b', r.trades, r.taker, true)
  }

  predicate IsFinal(s: Status) {
    s == Filled || s == Cancelled || s == Rejected || s == Expired
  }

  /** The price of the first order, or zero when there is none. */
  function BestPrice(ms: seq<OrderView>): int {
    if ms == [] then 0 else ms[0].price
  }

  /** The checks that turn an order away before it reaches the book. */
  predicate TurnedAway(b: Book, o: OrderView) {
    || (o.tif == FOK && !CanFill(b, o))
    || (o.typ == Market && BestPrice(b.On(Opposite(o.side))) == 0)
  }

  predicate Rests(r: MatchReport) {
    r.leftover && r.order.status != Filled && r.order.status != Cancelled && r.order.status != Rejected
  }

  /** What the submitter of an order is told, with the book after the command. */
  datatype Placed = Placed(book: Book, matches: seq<Trade>, order: OrderView, leftover: bool)

  function Place(b: Book, o: OrderView): Placed {
    if TurnedAway(b, o) then Placed(b, [], o.(status := Rejected), true)
    else
      var r := MatchOrder(b, o);
      if Rests(r) then
        Placed(Rest(r.book, r.order), r.matches, r.order.(status := Open, arrival := r.book.seqNum + 1), true)
      else Placed(r.book, r.matches, r.order, r.leftover)
  }

  // ---------- Invariant ----------

  /** a is matched before b: a better price, or the same price and an earlier arrival. */
  predicate Before(a: OrderView, b: OrderView) {
    Better(a.side, a.price, b.price) || (a.price == b.price && a.arrival < b.arrival)
  }

  ghost predicate SideOk(ms: seq<OrderView>, side: Side) {
    && (forall i :: 0 <= i < |ms| ==> ms[i].side == side && ms[i].status == Open && ms[i].Remaining() > 0)
    && (forall i, j :: 0 <= i < j < |ms| ==> Before(ms[i], ms[j]))
  }

  ghost predicate ArrivedBy(ms: seq<OrderView>, n: nat) {
    forall i :: 0 <= i < |ms| ==> ms[i].arrival <= n
  }

  predicate Uncrossed(b: Book) {
    b.bids != [] && b.asks != [] ==> b.bids[0].price < b.asks[0].price
  }

  ghost predicate BookOk(b: Book) {
    && SideOk(b.bids, Buy) && SideOk(b.asks, Sell)
    && ArrivedBy(b.bids, b.seqNum) && ArrivedBy(b.asks, b.seqNum)
    && Uncrossed(b)
  }
}
