/** What an order freezes, and what is released when it is placed and when it is cancelled. */
module OrderFunds {
  import opened Types
  import opened FlatBook
  import opened MatchingLaws
  import opened Ledger
  import opened Validator
  import Decimal
  import DecimalText
  import Texts = DecimalTextLaws
  import Lifetime

  // ---------- The orders table ----------

  function SignOf(d: int): Texts.Sign {
    if d < 0 then Texts.Minus else Texts.NoSign
  }

  /** The text a NUMERIC(36,18) column hands back: always eighteen fraction digits. */
  function ColumnText(d: int): string {
    var m := DecimalText.Abs(d);
    var whole, frac := m / Decimal.SCALE, m % Decimal.SCALE;
    Texts.Plain(SignOf(d), DecimalText.NatToString(whole), DecimalText.Padded(frac, DecimalText.PRECISION))
  }

  /** The column after the text has been written to it; text that is no number does not get in. */
  function Stored(text: string): string {
    match DecimalText.Parse(text)
    case Some(d) => ColumnText(d)
    case None => text
  }

  /** A number survives being printed, stored and read back. */
  lemma StoredRoundTrip(d: int)
    ensures DecimalText.Parse(Stored(DecimalText.Print(d))) == Some(d)
  {
    hide DecimalText.Parse;
    hide DecimalText.Print;
    hide ColumnText;
    Texts.RoundTrip(d);
    ColumnRoundTrip(d);
  }

  lemma ColumnRoundTrip(d: int)
    ensures DecimalText.Parse(ColumnText(d)) == Some(d)
  {
    hide DecimalText.Parse;
    hide DecimalText.NatToString;
    hide DecimalText.Padded;
    hide Texts.Plain;
    var m := DecimalText.Abs(d);
    var i, f := DecimalText.NatToString(m / Decimal.SCALE),
      DecimalText.Padded(m % Decimal.SCALE, DecimalText.PRECISION);
    Texts.PlainRounding(SignOf(d), i, f);
    ColumnMagnitude(m / Decimal.SCALE, m % Decimal.SCALE);
    assert m == m / Decimal.SCALE * Decimal.SCALE + m % Decimal.SCALE;
  }

  lemma ColumnMagnitude(w: nat, f: nat)
    requires f < Decimal.SCALE
    ensures Texts.PlainMagnitude(DecimalText.NatToString(w), DecimalText.Padded(f, DecimalText.PRECISION)) ==
      w * Decimal.SCALE + f
  {
    hide DecimalText.NatToString;
    hide DecimalText.Padded;
    hide DecimalText.Value;
    var i, t := DecimalText.NatToString(w), DecimalText.Padded(f, DecimalText.PRECISION);
    Texts.Pow10IsScale();
    Texts.ValueOfNat(w);
    Texts.ValueOfPadded(f, DecimalText.PRECISION);
    Texts.ShortMagnitude(i, t);
    assert DecimalText.Pow10(0) == 1;
  }

  /** A row of the orders table. */
  datatype StoredOrder = StoredOrder(
    user: string, symbol: string, side: string, typ: string, price: string, quantity: string, filledQty: string,
      status: Status)

  function NewRow(r: RequestView): StoredOrder {
    StoredOrder(r.user, r.symbol, r.side, r.typ, Stored(DecimalText.Print(r.price)),
      Stored(DecimalText.Print(r.quantity)),
                Stored("0"), Created)
  }

  function WithStatus(row: StoredOrder, status: Status, filled: int): StoredOrder {
    row.(status := status, filledQty := Stored(DecimalText.Print(filled)))
  }

  // ---------- Amounts ----------

  /** What is frozen before the order is matched; a market buy freezes the whole balance, if it can be read. */
  function FreezeAmount(r: RequestView, quoteBalance: Option<int>): int {
    if SideOf(r.side) == Sell then r.quantity
    else if IsPriced(r.typ) then Decimal.Mul(r.price, r.quantity)
    else if r.typ == "market" && quoteBalance.Some? then quoteBalance.value
    else 0
  }

  /** What the engine answers: the trades, the order afterwards, and whether it is handed back. */
  datatype Reply = EngineError | Answer(matches: seq<Trade>, order: OrderView, leftover: bool)

  function ReplyOf(p: Placed): Reply {
    Answer(p.matches, p.order, p.leftover)
  }

  function FilledQty(r: RequestView, a: Reply): int
    requires a.Answer?
  {
    if a.matches == [] then 0 else if !a.leftover then r.quantity else r.quantity - a.order.Remaining()
  }

  function StatusAfter(a: Reply): Status
    requires a.Answer?
  {
    if a.leftover && (a.order.status == Cancelled || a.order.status == Rejected) then a.order.status
    else if a.matches == [] then Open
    else if !a.leftover || IsFinal(a.order.status) then Filled
    else PartiallyFilled
  }

  /**
   Released once the engine has answered: the cost of what was filled, or everything when nothing was and nothing
   rests.
   */
  function ReleaseAfter(r: RequestView, frozen: int, status: Status, filled: int): int {
    if frozen != 0 && filled != 0 then (if SideOf(r.side) == Buy then Decimal.Mul(r.price, filled) else filled)
    else if status == Cancelled || status == Rejected then frozen
    else 0
  }

  function ReleaseAtPlace(r: RequestView, frozen: int, a: Reply): int
    requires a.Answer?
  {
    ReleaseAfter(r, frozen, StatusAfter(a), FilledQty(r, a))
  }

  lemma NothingToRelease(r: RequestView, status: Status, filled: int)
    ensures ReleaseAfter(r, 0, status, filled) == 0
  {
  }

  /** Released on cancellation, computed from the stored numbers. */
  function CancelAmount(buy: bool, market: bool, price: int, qty: int, filled: int): int {
    var frozen := if !buy then qty else if market then 0 else Decimal.Mul(price, qty);
    var used := if buy then Decimal.Mul(price, filled) else filled;
    if frozen == 0 then 0
    else if filled == 0 then frozen
    else if used < frozen then frozen - used
    else 0
  }

  /** Nothing is released for a row that cannot be read. */
  function ReleaseAtCancel(row: StoredOrder): int {
    match (DecimalText.Parse(row.quantity), DecimalText.Parse(row.price), DecimalText.Parse(row.filledQty))
    case (Some(qty), Some(price), Some(filled)) =>
      CancelAmount(row.side == "buy", row.typ == "market", price, qty, filled)
    case _ => 0
  }

  lemma UnreadableReleasesNothing(row: StoredOrder)
    requires None in {DecimalText.Parse(row.quantity), DecimalText.Parse(row.price), DecimalText.Parse(row.filledQty)}
    ensures ReleaseAtCancel(row) == 0
  {
    hide DecimalText.Parse;
  }

  /** The row as placing leaves it. */
  function RowAfter(r: RequestView, a: Reply): StoredOrder
    requires a.Answer?
  {
    WithStatus(NewRow(r), StatusAfter(a), FilledQty(r, a))
  }

  lemma ReleaseFromRow(r: RequestView, a: Reply)
    requires a.Answer?
    ensures ReleaseAtCancel(RowAfter(r, a)) ==
      CancelAmount(r.side == "buy", r.typ == "market", r.price, r.quantity, FilledQty(r, a))
  {
    hide DecimalText.Parse;
    hide DecimalText.Print;
    hide Stored;
    hide CancelAmount;
    hide FilledQty;
    StoredRoundTrip(r.price);
    StoredRoundTrip(r.quantity);
    StoredRoundTrip(FilledQty(r, a));
  }

  // ---------- What the engine's answer says ----------

  lemma {:induction false} VolumePositive(ts: seq<Trade>)
    requires forall i :: 0 <= i < |ts| ==> ts[i].quantity > 0
    ensures Volume(ts) >= |ts|
  {
    if ts != [] {
      VolumePositive(ts[1..]);
    }
  }

  /**
   What the service computes as filled from the engine's answer is what the book did, and all of it unless it hands
   back.
   */
  lemma EngineFill(b: Book, r: RequestView, id: string)
    requires BookOk(b) && TypeOf(r.typ).Some? && r.quantity > 0
    ensures var p := Place(b, OrderFor(r, id));
      && FilledQty(r, ReplyOf(p)) == p.order.filled
      && 0 <= p.order.filled <= r.quantity
      && (p.leftover <==> p.order.filled < r.quantity)
      && (p.leftover ==> p.order.status in {Open, Cancelled, Rejected})
  {
    hide Match;
    hide CanFill;
    hide TypeOf;
    var o := OrderFor(r, id);
    var ms := b.On(Opposite(o.side));
    Lifetime.NoTradeDiscarded(b, o);
    Lifetime.MatchKeepsIdentity(b.symbol, o, ms);
    MatchTrades(b.symbol, o, ms);
    MatchSettles(b.symbol, o, ms);
    MatchConserves(b.symbol, o, ms);
    VolumePositive(Match(b.symbol, o, ms).trades);
    if o.tif == FOK {
      FillOrKillIsAtomic(b, o);
    }
  }

  /** For an order that rests the fill is partial, and the status says whether there is any. */
  lemma RestedFill(b: Book, r: RequestView, id: string)
    requires BookOk(b) && TypeOf(r.typ).Some?
    requires var p := Place(b, OrderFor(r, id)); p.leftover && p.order.status == Open
    ensures var p := Place(b, OrderFor(r, id));
      && FilledQty(r, ReplyOf(p)) == p.order.filled
      && 0 <= p.order.filled < r.quantity
      && StatusAfter(ReplyOf(p)) == if p.order.filled == 0 then Open else PartiallyFilled
  {
    hide Match;
    hide CanFill;
    hide TypeOf;
    var o := OrderFor(r, id);
    Lifetime.NoTradeDiscarded(b, o);
    Lifetime.MatchKeepsIdentity(b.symbol, o, b.On(Opposite(o.side)));
    MatchTrades(b.symbol, o, b.On(Opposite(o.side)));
    MatchConserves(b.symbol, o, b.On(Opposite(o.side)));
    VolumePositive(Match(b.symbol, o, b.On(Opposite(o.side))).trades);
  }

  // ---------- Freeze and release balance out ----------

  /** Released in all for a resting order with the given fill. */
  function ReleasedForResting(r: RequestView, frozen: int, filled: int): int {
    (if frozen != 0 && filled != 0 then (if SideOf(r.side) == Buy then Decimal.Mul(r.price, filled) else filled) else 0)
    + CancelAmount(r.side == "buy", r.typ == "market", r.price, r.quantity, filled)
  }

  /** When the two releases of a resting order add up to its freeze, type by type. */
  predicate ReleasesMatch(r: RequestView, frozen: int, filled: int) {
    var cost, full := Decimal.Mul(r.price, filled), Decimal.Mul(r.price, r.quantity);
    || r.side == "sell"
    || (IsPriced(r.typ) && (r.price >= 0 || filled == 0 || cost == full))
    || (r.typ == "stop_loss" && (full == 0 || (filled != 0 && cost >= full)))
    || (r.typ == "market" && (frozen == 0 || frozen == cost))
  }

  /** A larger fill costs more at a positive price and less at a negative one. */
  lemma Costs(price: int, filled: int, quantity: int)
    requires 0 <= filled < quantity
    ensures price >= 0 ==> 0 <= Decimal.Mul(price, filled) <= Decimal.Mul(price, quantity)
    ensures price < 0 ==> Decimal.Mul(price, quantity) <= Decimal.Mul(price, filled) <= 0
    ensures price < 0 ==> Decimal.Mul(price, quantity) < 0 && (filled > 0 ==> Decimal.Mul(price, filled) < 0)
    ensures filled == 0 ==> Decimal.Mul(price, filled) == 0
  {
    assert Decimal.Mul(price, 0) == 0;
    if price >= 0 {
      Decimal.MulMonotone(price, 0, filled);
      Decimal.MulMonotone(price, filled, quantity);
    } else {
      NegativeProduct(price, filled, quantity);
      Decimal.MulIsFloor(price, filled);
      Decimal.MulIsFloor(price, quantity);
    }
  }

  lemma NegativeProduct(price: int, filled: int, quantity: int)
    requires price < 0 && 0 <= filled < quantity
    ensures price * quantity < price * filled <= 0
  {
  }

  /**
   An order that came to rest, however much of it was filled on the way, and is cancelled: exactly when the two
   releases add up to what was frozen. For a sell, and for a priced buy at a price that is not negative, they do.
   */
  lemma ReleasedExactly(r: RequestView, quoteBalance: Option<int>, filled: int)
    requires IsSide(r.side) && TypeOf(r.typ).Some? && 0 <= filled < r.quantity
    ensures var frozen := FreezeAmount(r, quoteBalance);
      ReleasedForResting(r, frozen, filled) == frozen <==> ReleasesMatch(r, frozen, filled)
  {
    hide Decimal.Mul;
    Costs(r.price, filled, r.quantity);
  }

  /** The same from the engine's own answer, through the printed and stored numbers. */
  lemma FreezeAndReleaseBalance(b: Book, r: RequestView, id: string, quoteBalance: Option<int>)
    requires BookOk(b) && IsSide(r.side) && TypeOf(r.typ).Some?
    requires var p := Place(b, OrderFor(r, id)); p.leftover && p.order.status == Open
    ensures var p, frozen := Place(b, OrderFor(r, id)), FreezeAmount(r, quoteBalance);
      ReleaseAtPlace(r, frozen, ReplyOf(p)) + ReleaseAtCancel(RowAfter(r, ReplyOf(p))) == frozen
      <==> ReleasesMatch(r, frozen, p.order.filled)
  {
    hide Place;
    hide Decimal.Mul;
    hide FreezeAmount;
    hide CancelAmount;
    hide FilledQty;
    hide StatusAfter;
    hide ReleaseAtCancel;
    hide ReleasesMatch;
    var a := ReplyOf(Place(b, OrderFor(r, id)));
    RestedFill(b, r, id);
    ReleasedExactly(r, quoteBalance, FilledQty(r, a));
    ReleaseFromRow(r, a);
  }

  /** Both releases are amounts the frozen balance can cover, one after the other. */
  lemma ReleasesFit(r: RequestView, quoteBalance: Option<int>, filled: int)
    requires IsSide(r.side) && TypeOf(r.typ).Some? && r.price >= 0 && 0 <= filled < r.quantity
    requires r.side == "sell" || IsPriced(r.typ)
    ensures CancelAmount(r.side == "buy", r.typ == "market", r.price, r.quantity, filled) >= 0
    ensures (if SideOf(r.side) == Buy then Decimal.Mul(r.price, filled) else filled) >= 0
  {
    Decimal.MulMonotone(r.price, filled, r.quantity);
    Decimal.MulMonotone(r.price, 0, filled);
    assert Decimal.Mul(r.price, 0) == 0;
    hide Decimal.Mul;
  }

  lemma RestingReleasesFit(b: Book, r: RequestView, id: string, quoteBalance: Option<int>)
    requires BookOk(b) && IsSide(r.side) && TypeOf(r.typ).Some? && r.price >= 0
    requires r.side == "sell" || IsPriced(r.typ)
    requires var p := Place(b, OrderFor(r, id)); p.leftover && p.order.status == Open
    ensures var a := ReplyOf(Place(b, OrderFor(r, id)));
      ReleaseAtPlace(r, FreezeAmount(r, quoteBalance), a) >= 0 && ReleaseAtCancel(RowAfter(r, a)) >= 0
  {
    hide Place;
    hide Decimal.Mul;
    hide FreezeAmount;
    hide CancelAmount;
    hide FilledQty;
    hide StatusAfter;
    hide ReleaseAtCancel;
    var a := ReplyOf(Place(b, OrderFor(r, id)));
    RestedFill(b, r, id);
    ReleasesFit(r, quoteBalance, FilledQty(r, a));
    ReleaseFromRow(r, a);
  }

  /** A release of nothing is not even attempted. */
  function Release(a: Accounts, k: Key, amount: int): Accounts {
    if amount == 0 then a else Unfreeze(a, k, amount)
  }

  function FreezeFor(a: Accounts, k: Key, amount: int): Accounts {
    if amount == 0 then a else Freeze(a, k, amount)
  }

  /** Freezing and releasing in two parts leaves the accounts as they were. */
  lemma TwoReleasesUndoFreeze(a: Accounts, k: Key, x: int, y: int)
    requires x >= 0 && y >= 0 && CanFreeze(a, k, x + y) && a[k].frozen >= 0
    ensures Release(Release(FreezeFor(a, k, x + y), k, x), k, y) == a
  {
    if x + y > 0 {
      var f := Freeze(a, k, x + y);
      var g := Release(f, k, x);
      assert g[k] == a[k].(balance := a[k].balance - y, frozen := a[k].frozen + y);
      assert Release(g, k, y)[k] == a[k];
    }
  }

  /** Unless somebody else moves it, the money of a resting and then cancelled order is back where it was. */
  lemma AccountsRestored(a: Accounts, k: Key, b: Book, r: RequestView, id: string, quoteBalance: Option<int>)
    requires BookOk(b) && IsSide(r.side) && TypeOf(r.typ).Some? && r.price >= 0
    requires r.side == "sell" || IsPriced(r.typ)
    requires var p := Place(b, OrderFor(r, id)); p.leftover && p.order.status == Open
    requires CanFreeze(a, k, FreezeAmount(r, quoteBalance)) && a[k].frozen >= 0
    ensures var e, frozen := ReplyOf(Place(b, OrderFor(r, id))), FreezeAmount(r, quoteBalance);
      Release(Release(FreezeFor(a, k, frozen), k, ReleaseAtPlace(r, frozen, e)), k,
        ReleaseAtCancel(RowAfter(r, e))) == a
  {
    hide Place;
    hide Decimal.Mul;
    hide FreezeAmount;
    hide CancelAmount;
    hide ReleaseAtPlace;
    hide ReleaseAtCancel;
    hide RowAfter;
    hide OrderFor;
    hide BookOk;
    hide IsSide;
    hide IsPriced;
    hide TypeOf;
    hide Release;
    hide FreezeFor;
    hide CanFreeze;
    var e, frozen := ReplyOf(Place(b, OrderFor(r, id))), FreezeAmount(r, quoteBalance);
    FreezeAndReleaseBalance(b, r, id, quoteBalance);
    RestingReleasesFit(b, r, id, quoteBalance);
    TwoReleasesUndoFreeze(a, k, ReleaseAtPlace(r, frozen, e), ReleaseAtCancel(RowAfter(r, e)));
  }

  // ---------- Orders that do not rest ----------

  /** Part of a freeze: of a sell the quantity itself, of a priced buy its cost. */
  function FreezeOf(r: RequestView, quantity: int): int {
    if SideOf(r.side) == Sell then quantity else Decimal.Mul(r.price, quantity)
  }

  /**
   A sell or priced buy that is over on entry, turned away, filled or cancelled, has everything released but, after a
   partial fill, the freeze of what it did not fill: that stays frozen, though the order is final.
   */
  lemma EntryRelease(b: Book, r: RequestView, id: string, quoteBalance: Option<int>)
    requires BookOk(b) && IsSide(r.side) && TypeOf(r.typ).Some? && r.quantity > 0
    requires r.side == "sell" || IsPriced(r.typ)
    requires var p := Place(b, OrderFor(r, id)); p.leftover ==> p.order.status != Open
    ensures var p, frozen := Place(b, OrderFor(r, id)), FreezeAmount(r, quoteBalance);
      frozen - ReleaseAtPlace(r, frozen, ReplyOf(p)) ==
        if 0 < p.order.filled < r.quantity then FreezeOf(r, r.quantity) - FreezeOf(r, p.order.filled) else 0
  {
    hide Place;
    hide Decimal.Mul;
    hide FilledQty;
    EngineFill(b, r, id);
    var filled := Place(b, OrderFor(r, id)).order.filled;
    if filled < r.quantity {
      Costs(r.price, filled, r.quantity);
    }
  }

  /** A stop-loss buy freezes nothing, but its cancellation releases price times quantity: money frozen for others. */
  lemma StopLossReleasesUnfrozen(symbol: string)
    ensures var r := RequestView("u", symbol, "buy", "stop_loss", "", Decimal.SCALE, Decimal.SCALE, Decimal.SCALE);
      FreezeAmount(r, None) == 0 && ReleasedForResting(r, 0, 0) == Decimal.SCALE
  {
    Decimal.DivUnique(Decimal.SCALE * Decimal.SCALE, Decimal.SCALE, Decimal.SCALE, 0);
  }

  /** A market buy that rests at price zero keeps its whole freeze after it is cancelled. */
  lemma MarketBuyStaysFrozen(symbol: string, balance: int, quantity: int, filled: int)
    requires balance > 0 && 0 <= filled < quantity
    ensures var r := RequestView("u", symbol, "buy", "market", "", 0, 0, quantity);
      FreezeAmount(r, Some(balance)) == balance && ReleasedForResting(r, balance, filled) == 0
  {
  }

  // ---------- Validation and freezing ----------

  /** An accepted order that freezes something finds the money there, as long as nobody else has moved it. */
  lemma AcceptedCanFreeze(markets: map<string, MarketConfig>, r: RequestView, a: Accounts, dbError: bool,
                          limiterAllows: bool)
    requires VerdictFor(markets, r, a, dbError, limiterAllows) == Accepted
    ensures r.symbol in markets
    ensures var k := Key(r.user, PayCurrency(r.side, markets[r.symbol]));
      k in a && (FreezeAmount(r, Some(a[k].balance)) == 0 || CanFreeze(a, k, FreezeAmount(r, Some(a[k].balance))))
  {
    hide VerdictFor;
    hide Decimal.Mul;
    hide TypeOf;
    AcceptedIff(markets, r, a, dbError, limiterAllows);
  }

  // ---------- The service ----------

  /** Which database statements fail. */
  datatype Faults = Faults(validate: bool, balance: bool, freeze: bool, persist: bool, release: bool, update: bool)

  datatype PlaceResult = Invalid(reason: Reason) | FreezeFailed | PersistFailed | EngineFailed
    | Submitted(status: Status, filled: int)

  /** A failed release is only logged. */
  function TryRelease(a: Accounts, k: Key, amount: int, dbError: bool): Accounts {
    if dbError then a else Release(a, k, amount)
  }

  /** The accounts after a request has been placed: all is released again when it did not reach the engine. */
  function RowsAfter(a: Accounts, k: Key, r: RequestView, frozen: int, reply: Reply, f: Faults): Accounts {
    var b := FreezeFor(a, k, frozen);
    if frozen != 0 && (f.freeze || !CanFreeze(a, k, frozen)) then a
    else if f.persist || reply.EngineError? then TryRelease(b, k, frozen, f.release)
    else TryRelease(b, k, ReleaseAtPlace(r, frozen, reply), f.release)
  }

  /** The orders table after a request has been placed. */
  function OrdersAfter(orders: map<string, StoredOrder>, a: Accounts, k: Key, r: RequestView, id: string, frozen: int,
                       reply: Reply, f: Faults): map<string, StoredOrder> {
    if (frozen != 0 && (f.freeze || !CanFreeze(a, k, frozen))) || f.persist then orders
    else if f.update then orders[id := NewRow(r)]
    else if reply.EngineError? then orders[id := WithStatus(NewRow(r), Rejected, 0)]
    else orders[id := RowAfter(r, reply)]
  }

  lemma NotFrozen(a: Accounts, k: Key, amount: int)
    ensures !CanFreeze(a, k, amount) ==> Freeze(a, k, amount) == a
  {
  }

  lemma AcceptedGivesDefault(markets: map<string, MarketConfig>, r: RequestView, a: Accounts, dbError: bool,
                             limiterAllows: bool)
    requires VerdictFor(markets, r, a, dbError, limiterAllows) == Accepted
    ensures GivesDefault(markets, r)
  {
    var f := FactsOf(markets[r.symbol], r, a, dbError, limiterAllows);
    AcceptedIffAllPass(f, 0);
    assert CheckAt(f, 0).passes && CheckAt(f, 1).passes && CheckAt(f, 2).passes && CheckAt(f, 3).passes;
  }

  /** The answer to an accepted request: the first thing that fails, or what the engine made of it. */
  function PlaceResultOf(a: Accounts, k: Key, r: RequestView, frozen: int, reply: Reply, f: Faults): PlaceResult {
    if frozen != 0 && (f.freeze || !CanFreeze(a, k, frozen)) then FreezeFailed
    else if f.persist then PersistFailed
    else if reply.EngineError? then EngineFailed
    else Submitted(StatusAfter(reply), FilledQty(r, reply))
  }

  datatype CancelOutcome = OrderNotFound | Unauthorized | AlreadyFinal | EngineRefused | UpdateFailed | CancelDone

  class OrderService {
    const validator: OrderValidator
    var orders: map<string, StoredOrder>

    constructor (validator: OrderValidator)
      ensures this.validator == validator && orders == map[]
    {
      this.validator, orders := validator, map[];
    }

    function Accounts(): Ledger.Accounts
      reads validator.balances
    {
      validator.balances.rows
    }

    /** Validate, freeze, persist, match and release; the engine's reply is whatever it turns out to be. */
    method PlaceOrder(req: PlaceOrderRequest, id: string, reply: Reply, f: Faults, limiterAllows: bool)
      returns (res: PlaceResult)
      modifies req`timeInForce, this`orders, validator.balances
      ensures var v := VerdictFor(validator.markets, old(req.View()), old(Accounts()), f.validate, limiterAllows);
        if v.Refused? then res == Invalid(v.reason) && Accounts() == old(Accounts()) && orders == old(orders)
        else
          && req.symbol in validator.markets
          && Executed(old(req.View()), old(Accounts()), old(orders), req, id, reply, f, res)
    {
      hide VerdictFor;
      hide FreezeAmount;
      hide BalanceOf;
      hide PayCurrency;
      hide RowsAfter;
      hide OrdersAfter;
      hide PlaceResultOf;
      hide FilledQty;
      hide StatusAfter;
      hide GivesDefault;
      hide DefaultTif;
      hide WellFormed;
      hide Affordable;
      var v := validator.Validate(req, f.validate, limiterAllows);
      if v != Accepted {
        return Invalid(v.reason);
      }
      AcceptedIff(validator.markets, old(req.View()), old(Accounts()), f.validate, limiterAllows);
      AcceptedGivesDefault(validator.markets, old(req.View()), old(Accounts()), f.validate, limiterAllows);
      var market := validator.markets[req.symbol];
      var freezeCurrency, freezeAmount := AmountToFreeze(req, market, f.balance);
      res := Execute(req, id, PayCurrency(req.side, market), freezeCurrency, freezeAmount, reply, f);
    }

    /** How an accepted request leaves itself, the accounts and the orders. */
    ghost predicate Executed(before: RequestView, a: Ledger.Accounts, rows: map<string, StoredOrder>,
                             req: PlaceOrderRequest, id: string, reply: Reply, f: Faults, res: PlaceResult)
      requires req.symbol in validator.markets
      reads this, validator, validator.balances, req
    {
      var r, m := req.View(), validator.markets[req.symbol];
      var k := Key(r.user, PayCurrency(r.side, m));
      var frozen := FreezeAmount(r, BalanceOf(a, r.user, m.quote, f.balance));
      && r == before.(tif := DefaultTif(before))
      && Accounts() == RowsAfter(a, k, r, frozen, reply, f)
      && orders == OrdersAfter(rows, a, k, r, id, frozen, reply, f)
      && res == PlaceResultOf(a, k, r, frozen, reply, f)
    }

    /** Of all accounts only the one that pays is touched: a buyer's in the quote currency, a seller's in the base. */
    lemma OnlyThePayerChanges(before: RequestView, a: Ledger.Accounts, rows: map<string, StoredOrder>,
                              req: PlaceOrderRequest, id: string, reply: Reply, f: Faults, res: PlaceResult, k: Key)
      requires req.symbol in validator.markets && IsSide(req.side)
      requires Executed(before, a, rows, req, id, reply, f, res)
      requires var m := validator.markets[req.symbol];
        k != Key(req.user, if req.side == "buy" then m.quote else m.base)
      ensures (k in Accounts() <==> k in a) && (k in a ==> Accounts()[k] == a[k])
    {
      hide FreezeAmount;
      hide ReleaseAtPlace;
      hide OrdersAfter;
      hide PlaceResultOf;
    }

    /** A cancellation touches the very account that paid. */
    lemma CancelTouchesThePayer(a: Ledger.Accounts, row: StoredOrder, dbError: bool, k: Key)
      requires row.symbol in validator.markets && IsSide(row.side)
      requires var m := validator.markets[row.symbol];
        k != Key(row.user, if row.side == "buy" then m.quote else m.base)
      ensures var after := AfterCancel(a, row, dbError); (k in after <==> k in a) && (k in a ==> after[k] == a[k])
    {
      hide ReleaseAtCancel;
    }

    /** Currency and amount; no currency when there is nothing to freeze. */
    method AmountToFreeze(req: PlaceOrderRequest, market: MarketConfig, dbError: bool)
      returns (currency: string, amount: int)
      requires IsSide(req.side)
      ensures amount == FreezeAmount(req.View(), BalanceOf(Accounts(), req.user, market.quote, dbError))
      ensures amount != 0 ==> currency == PayCurrency(req.side, market)
    {
      currency, amount := "", 0;
      if req.side == "buy" {
        if req.typ == "limit" || req.typ == "stop_limit" {
          currency := market.quote;
          amount := Decimal.Mul(req.price, req.quantity);
        } else if req.typ == "market" {
          currency := market.quote;
          var balance := BalanceOf(validator.balances.rows, req.user, currency, dbError);
          if balance.Some? {
            amount := balance.value;
          }
        }
      } else {
        currency := market.base;
        amount := req.quantity;
      }
    }

    /** Freeze, persist, match and release. */
    method Execute(req: PlaceOrderRequest, id: string, ghost pay: string, freezeCurrency: string, freezeAmount: int,
                   reply: Reply, f: Faults)
      returns (res: PlaceResult)
      requires IsSide(req.side) && (freezeAmount != 0 ==> freezeCurrency == pay)
      modifies this`orders, validator.balances
      ensures Accounts() == RowsAfter(old(Accounts()), Key(req.user, pay), req.View(), freezeAmount, reply, f)
      ensures orders ==
        OrdersAfter(old(orders), old(Accounts()), Key(req.user, pay), req.View(), id, freezeAmount, reply, f)
      ensures res == PlaceResultOf(old(Accounts()), Key(req.user, pay), req.View(), freezeAmount, reply, f)
    {
      hide FilledQty;
      hide StatusAfter;
      hide Ledger.Freeze;
      hide Ledger.Unfreeze;
      hide ReleaseAfter;
      hide NewRow;
      hide Stored;
      hide DecimalText.Print;
      if freezeAmount != 0 {
        var err := validator.balances.FreezeBalance(req.user, freezeCurrency, freezeAmount, f.freeze);
        if err != NoError {
          NotFrozen(old(Accounts()), Key(req.user, freezeCurrency), freezeAmount);
          return FreezeFailed;
        }
      }
      if f.persist {
        Unfreeze(req.user, freezeCurrency, freezeAmount, f.release);
        return PersistFailed;
      }
      orders := orders[id := NewRow(req.View())];
      if reply.EngineError? {
        Unfreeze(req.user, freezeCurrency, freezeAmount, f.release);
        UpdateStatus(id, Rejected, 0, f.update);
        return EngineFailed;
      }
      var status, filledQty := ReadReply(req, reply);
      NothingToRelease(req.View(), status, filledQty);
      ReleaseUsed(req, freezeCurrency, freezeAmount, status, filledQty, f.release);
      UpdateStatus(id, status, filledQty, f.update);
      return Submitted(status, filledQty);
    }

    /** Release the cost of what was filled, or everything when nothing was and nothing rests. */
    method ReleaseUsed(req: PlaceOrderRequest, currency: string, frozen: int, status: Status, filledQty: int,
                       dbError: bool)
      requires IsSide(req.side)
      modifies validator.balances
      ensures Accounts() == TryRelease(old(Accounts()), Key(req.user, currency),
        ReleaseAfter(req.View(), frozen, status, filledQty), dbError)
    {
      if frozen != 0 && filledQty != 0 {
        if req.side == "buy" {
          Unfreeze(req.user, currency, Decimal.Mul(req.price, filledQty), dbError);
        } else {
          Unfreeze(req.user, currency, filledQty, dbError);
        }
      } else if status == Cancelled || status == Rejected {
        Unfreeze(req.user, currency, frozen, dbError);
      }
    }

    method ReadReply(req: PlaceOrderRequest, reply: Reply) returns (status: Status, filledQty: int)
      requires reply.Answer?
      ensures status == StatusAfter(reply) && filledQty == FilledQty(req.View(), reply)
    {
      status, filledQty := Open, 0;
      if |reply.matches| > 0 {
        if !reply.leftover {
          filledQty := req.quantity;
          status := Filled;
        } else {
          filledQty := req.quantity - reply.order.Remaining();
          status := if IsFinal(reply.order.status) then Filled else PartiallyFilled;
        }
      }
      if reply.leftover && (reply.order.status == Cancelled || reply.order.status == Rejected) {
        status := reply.order.status;
      }
    }

    /**
     Cancel an order in the engine and release what its row says is still frozen. The transition check of the state
     machine adds nothing: every status that is not final may become cancelled.
     */
    method CancelOrder(user: string, id: string, readError: bool, engineCancels: bool, f: Faults)
      returns (res: CancelOutcome)
      modifies this`orders, validator.balances
      ensures res == if readError || id !in old(orders) then OrderNotFound
        else if old(orders)[id].user != user then Unauthorized
        else if IsFinal(old(orders)[id].status) then AlreadyFinal
        else if !engineCancels then EngineRefused
        else if f.update then UpdateFailed
        else CancelDone
      ensures res == CancelDone ==> orders == old(orders)[id := WithStatus(old(orders)[id], Cancelled, 0)]
      ensures res != CancelDone ==> orders == old(orders)
      ensures Accounts() ==
        if res == CancelDone || res == UpdateFailed then AfterCancel(old(Accounts()), old(orders)[id], f.release)
        else old(Accounts())
    {
      if readError || id !in orders {
        return OrderNotFound;
      }
      var stored := orders[id];
      if stored.user != user {
        return Unauthorized;
      }
      if IsFinal(stored.status) {
        return AlreadyFinal;
      }
      if !engineCancels {
        return EngineRefused;
      }
      UnfreezeCancelOrder(stored, f.release);
      UpdateStatus(id, Cancelled, 0, f.update);
      return if f.update then UpdateFailed else CancelDone;
    }

    /** The accounts after the release of a cancelled order; an unknown market releases nothing. */
    function AfterCancel(a: Ledger.Accounts, row: StoredOrder, dbError: bool): Ledger.Accounts
      reads validator
    {
      if row.symbol !in validator.markets then a
      else
        var k := Key(row.user, PayCurrency(row.side, validator.markets[row.symbol]));
        TryRelease(a, k, ReleaseAtCancel(row), dbError)
    }

    method UnfreezeCancelOrder(stored: StoredOrder, dbError: bool)
      modifies validator.balances
      ensures Accounts() == AfterCancel(old(Accounts()), stored, dbError)
    {
      hide DecimalText.Parse;
      hide Decimal.Mul;
      hide Ledger.Unfreeze;
      if stored.symbol !in validator.markets {
        return;
      }
      var market := validator.markets[stored.symbol];
      var qty := DecimalText.NewFromString(stored.quantity);
      if qty.None? {
        return;
      }
      var price := DecimalText.NewFromString(stored.price);
      if price.None? {
        return;
      }
      var filled := DecimalText.NewFromString(stored.filledQty);
      if filled.None? {
        return;
      }
      var freezeCurrency, freezeAmount := "", 0;
      if stored.side == "buy" {
        if stored.typ != "market" {
          freezeCurrency := market.quote;
          freezeAmount := Decimal.Mul(price.value, qty.value);
        }
      } else {
        freezeCurrency := market.base;
        freezeAmount := qty.value;
      }
      if freezeAmount != 0 {
        if filled.value != 0 && stored.side == "buy" {
          var filledCost := Decimal.Mul(price.value, filled.value);
          if filledCost < freezeAmount {
            Unfreeze(stored.user, freezeCurrency, freezeAmount - filledCost, dbError);
          }
        } else if filled.value != 0 {
          if filled.value < freezeAmount {
            Unfreeze(stored.user, freezeCurrency, freezeAmount - filled.value, dbError);
          }
        } else {
          Unfreeze(stored.user, freezeCurrency, freezeAmount, dbError);
        }
      }
    }

    method Unfreeze(user: string, currency: string, amount: int, dbError: bool)
      modifies validator.balances
      ensures Accounts() == TryRelease(old(Accounts()), Key(user, currency), amount, dbError)
    {
      if amount == 0 {
        return;
      }
      var err := validator.balances.UnfreezeBalance(user, currency, amount, dbError);
    }

    method UpdateStatus(id: string, status: Status, filledQty: int, dbError: bool)
      modifies this`orders
      ensures orders == if dbError || id !in old(orders) then old(orders)
        else old(orders)[id := WithStatus(old(orders)[id], status, filledQty)]
    {
      if dbError || id !in orders {
        return;
      }
      orders := orders[id := WithStatus(orders[id], status, filledQty)];
    }
  }
}
