/** Post-trade settlement: one transaction that moves base, quote and fees between the parties. */
module Settlement {
  import opened Types
  import opened Ledger
  import opened Engine
  import Decimal
  import DecimalText
  import DecimalTextLaws

  const FEE_ACCOUNT := "00000000-0000-0000-0000-000000000000"

  const MINUS_ONE := Decimal.FromInt(-1)

  /** The currency in front of the first dash, or the whole symbol. */
  function Base(symbol: string): string {
    symbol[..FindDash(symbol)]
  }

  /** The currency behind the first dash, or nothing. */
  function Quote(symbol: string): string {
    var i := FindDash(symbol);
    if i < |symbol| then symbol[i + 1..] else ""
  }

  function FindDash(s: string): (i: nat)
    ensures i <= |s|
  {
    if s == "" || s[0] == '-' then 0 else 1 + FindDash(s[1..])
  }

  /** Fee rates of the tier that applies. */
  datatype Rates = Rates(maker: int, taker: int)

  function MakerFee(t: Trade, r: Rates): int {
    Decimal.Mul(t.quoteQty, r.maker)
  }

  function TakerFee(t: Trade, r: Rates): int {
    Decimal.Mul(t.quoteQty, r.taker)
  }

  /** One balance update of a settlement. */
  datatype Posting = Posting(key: Key, delta: int)

  /** The five updates, in order. */
  function Postings(t: Trade, r: Rates): seq<Posting> {
    var mf, tf := MakerFee(t, r), TakerFee(t, r);
    var base, quote := Base(t.symbol), Quote(t.symbol);
    var (takerBase, takerQuote, makerBase, makerQuote) :=
      if t.takerSide == Buy then
        (t.quantity, Decimal.Mul(t.quoteQty + tf, MINUS_ONE), Decimal.Mul(t.quantity, MINUS_ONE), t.quoteQty - mf)
      else
        (Decimal.Mul(t.quantity, MINUS_ONE), t.quoteQty - tf, t.quantity, Decimal.Mul(t.quoteQty + mf, MINUS_ONE));
    [Posting(Key(t.takerUser, base), takerBase), Posting(Key(t.takerUser, quote), takerQuote),
     Posting(Key(t.makerUser, base), makerBase), Posting(Key(t.makerUser, quote), makerQuote),
     Posting(Key(FEE_ACCOUNT, quote), mf + tf)]
  }

  /** Apply updates one after the other; None as soon as one would make a balance negative. */
  function PostAll(a: Accounts, ps: seq<Posting>): Option<Accounts> {
    if ps == [] then Some(a)
    else match PostAll(a, ps[..|ps| - 1])
      case None => None
      case Some(b) => Update(b, ps[|ps| - 1].key, ps[|ps| - 1].delta)
  }

  /** The sum of the updates in one currency. */
  function NetPosted(ps: seq<Posting>, c: string): int {
    if ps == [] then 0
    else NetPosted(ps[..|ps| - 1], c) + if ps[|ps| - 1].key.currency == c then ps[|ps| - 1].delta else 0
  }

  /** The ledger after a settlement that meets no database error. */
  function Settled(a: Accounts, t: Trade, r: Rates): Accounts {
    match PostAll(a, Postings(t, r))
    case Some(b) => b
    case None => a
  }

  /** The trade a settlement worker reads from a payload; text that cannot be read counts as zero. */
  function FromPayload(p: TradePayload): Trade {
    Trade(p.takerId, p.makerId, p.takerUser, p.makerUser, p.symbol,
          ReadOrZero(p.price), ReadOrZero(p.quantity), ReadOrZero(p.quoteQty), p.takerSide)
  }

  function ReadOrZero(s: string): int {
    match DecimalText.Parse(s)
    case Some(v) => v
    case None => 0
  }

  // ---------- The currencies of a symbol ----------

  /** The symbol is base, dash, quote, or a base alone; a base has no dash, a quote may. */
  predicate Names(symbol: string, base: string, quote: string) {
    && (forall i :: 0 <= i < |base| ==> base[i] != '-')
    && (symbol == base + "-" + quote || (symbol == base && quote == ""))
  }

  lemma FindDashAfter(s: string, n: nat)
    requires n <= |s| && (forall i :: 0 <= i < n ==> s[i] != '-') && (n < |s| ==> s[n] == '-')
    ensures FindDash(s) == n
  {
    if n > 0 {
      FindDashAfter(s[1..], n - 1);
    }
  }

  lemma FindDashFinds(s: string)
    ensures var n := FindDash(s); (forall i :: 0 <= i < n ==> s[i] != '-') && (n < |s| ==> s[n] == '-')
  {
    if s != "" && s[0] != '-' {
      FindDashFinds(s[1..]);
      assert forall i :: 0 < i < |s| ==> s[i] == s[1..][i - 1];
    }
  }

  /** Every symbol is read as the one pair of currencies it names. */
  lemma SymbolNames(symbol: string, base: string, quote: string)
    ensures Names(symbol, base, quote) <==> Base(symbol) == base && Quote(symbol) == quote
  {
    hide FindDash;
    if Names(symbol, base, quote) {
      NamedIsRead(symbol, base, quote);
    }
    ReadIsNamed(symbol);
  }

  lemma NamedIsRead(symbol: string, base: string, quote: string)
    requires Names(symbol, base, quote)
    ensures Base(symbol) == base && Quote(symbol) == quote
  {
    hide FindDash;
    var n := |base|;
    assert forall i :: 0 <= i < n ==> symbol[i] == base[i];
    FindDashAfter(symbol, n);
    assert symbol[..n] == base;
    if n < |symbol| {
      assert symbol[n + 1..] == quote;
    }
  }

  lemma ReadIsNamed(symbol: string)
    ensures Names(symbol, Base(symbol), Quote(symbol))
  {
    hide FindDash;
    var n := FindDash(symbol);
    FindDashFinds(symbol);
    if n < |symbol| {
      assert symbol == symbol[..n] + "-" + symbol[n + 1..];
    } else {
      assert symbol == symbol[..n];
    }
  }

  // ---------- Laws ----------

  lemma {:induction false} PostAllTotal(a: Accounts, ps: seq<Posting>, c: string)
    requires PostAll(a, ps).Some?
    ensures Total(PostAll(a, ps).value, c) == Total(a, c) + NetPosted(ps, c)
  {
    if ps != [] {
      var n := |ps| - 1;
      PostAllTotal(a, ps[..n], c);
      UpdateTotal(PostAll(a, ps[..n]).value, ps[n].key, ps[n].delta, c);
    }
  }

  lemma NetOfFive(p: Posting, q: Posting, r: Posting, s: Posting, t: Posting, c: string)
    ensures NetPosted([p, q, r, s, t], c) ==
      (if p.key.currency == c then p.delta else 0) + (if q.key.currency == c then q.delta else 0)
      + (if r.key.currency == c then r.delta else 0) + (if s.key.currency == c then s.delta else 0)
      + (if t.key.currency == c then t.delta else 0)
  {
    assert [p, q, r, s, t][..4] == [p, q, r, s];
    assert [p, q, r, s][..3] == [p, q, r];
    assert [p, q, r][..2] == [p, q];
    assert [p, q][..1] == [p];
    assert [p][..0] == [];
    assert NetPosted([p], c) == NetPosted([], c) + if p.key.currency == c then p.delta else 0;
    assert NetPosted([p, q], c) == NetPosted([p], c) + if q.key.currency == c then q.delta else 0;
    assert NetPosted([p, q, r], c) == NetPosted([p, q], c) + if r.key.currency == c then r.delta else 0;
    assert NetPosted([p, q, r, s], c) == NetPosted([p, q, r], c) + if s.key.currency == c then s.delta else 0;
  }

  /** The five updates cancel out in every currency, fees included, whoever the parties are. */
  lemma PostingsBalance(t: Trade, r: Rates, c: string)
    ensures NetPosted(Postings(t, r), c) == 0
  {
    hide Decimal.Mul;
    hide NetPosted;
    var ps := Postings(t, r);
    NetOfFive(ps[0], ps[1], ps[2], ps[3], ps[4], c);
    Decimal.MulMinusOne(t.quantity);
    Decimal.MulMinusOne(t.quoteQty + TakerFee(t, r));
    Decimal.MulMinusOne(t.quoteQty + MakerFee(t, r));
  }

  // ---------- Who gets what ----------

  function BuyerOf(t: Trade): string {
    if t.takerSide == Buy then t.takerUser else t.makerUser
  }

  function SellerOf(t: Trade): string {
    if t.takerSide == Buy then t.makerUser else t.takerUser
  }

  /** The fee a party pays, by its role. */
  function FeeOf(t: Trade, r: Rates, side: Side): int {
    Decimal.Mul(t.quoteQty, if side == t.takerSide then r.taker else r.maker)
  }

  function BalanceAt(a: Accounts, k: Key): int {
    RowOf(a, k).balance
  }

  /** An amount if the account is the given one. */
  function At(k: Key, user: string, currency: string, amount: int): int {
    if k == Key(user, currency) then amount else 0
  }

  /** The sum of the updates of one account. */
  function PostedTo(ps: seq<Posting>, k: Key): int {
    if ps == [] then 0
    else PostedTo(ps[..|ps| - 1], k) + At(k, ps[|ps| - 1].key.user, ps[|ps| - 1].key.currency, ps[|ps| - 1].delta)
  }

  lemma {:induction false} PostAllBalance(a: Accounts, ps: seq<Posting>, k: Key)
    requires PostAll(a, ps).Some?
    ensures BalanceAt(PostAll(a, ps).value, k) == BalanceAt(a, k) + PostedTo(ps, k)
  {
    if ps != [] {
      PostAllBalance(a, ps[..|ps| - 1], k);
    }
  }

  lemma PostedToNone(k: Key)
    ensures PostedTo([], k) == 0
  {
  }

  lemma PostedToOneMore(ps: seq<Posting>, p: Posting, k: Key)
    ensures PostedTo(ps + [p], k) == PostedTo(ps, k) + At(k, p.key.user, p.key.currency, p.delta)
  {
    assert (ps + [p])[..|ps|] == ps;
  }

  lemma PostedToFive(p: Posting, q: Posting, r: Posting, s: Posting, t: Posting, k: Key)
    ensures PostedTo([p, q, r, s, t], k) ==
      At(k, p.key.user, p.key.currency, p.delta) + At(k, q.key.user, q.key.currency, q.delta)
      + At(k, r.key.user, r.key.currency, r.delta) + At(k, s.key.user, s.key.currency, s.delta)
      + At(k, t.key.user, t.key.currency, t.delta)
  {
    hide PostedTo;
    hide At;
    PostedToNone(k);
    PostedToOneMore([], p, k);
    PostedToOneMore([p], q, k);
    PostedToOneMore([p, q], r, k);
    PostedToOneMore([p, q, r], s, k);
    PostedToOneMore([p, q, r, s], t, k);
    assert [] + [p] == [p] && [p] + [q] == [p, q] && [p, q] + [r] == [p, q, r];
    assert [p, q, r] + [s] == [p, q, r, s] && [p, q, r, s] + [t] == [p, q, r, s, t];
  }

  /**
   A settled trade gives the buyer the base quantity for the quote quantity and its fee, gives the seller the quote
   quantity less its fee for the base quantity, and both fees to the fee account; nothing else moves. This holds on
   either side of the trade and when two or all three of them are the same account.
   */
  lemma SettlementMoves(a: Accounts, t: Trade, r: Rates, k: Key, base: string, quote: string)
    requires PostAll(a, Postings(t, r)).Some? && Names(t.symbol, base, quote)
    ensures BalanceAt(Settled(a, t, r), k) == BalanceAt(a, k)
        + At(k, BuyerOf(t), base, t.quantity) - At(k, BuyerOf(t), quote, t.quoteQty + FeeOf(t, r, Buy))
        - At(k, SellerOf(t), base, t.quantity) + At(k, SellerOf(t), quote, t.quoteQty - FeeOf(t, r, Sell))
        + At(k, FEE_ACCOUNT, quote, FeeOf(t, r, Buy) + FeeOf(t, r, Sell))
  {
    hide Decimal.Mul;
    hide PostAll;
    hide PostedTo;
    hide BalanceAt;
    hide Base;
    hide Quote;
    hide Names;
    SymbolNames(t.symbol, base, quote);
    var ps := Postings(t, r);
    PostAllBalance(a, ps, k);
    PostedToFive(ps[0], ps[1], ps[2], ps[3], ps[4], k);
    Decimal.MulMinusOne(t.quantity);
    Decimal.MulMinusOne(t.quoteQty + TakerFee(t, r));
    Decimal.MulMinusOne(t.quoteQty + MakerFee(t, r));
  }

  /** The account of update i is not overdrawn by it. */
  predicate Covered(a: Accounts, ps: seq<Posting>, i: nat)
    requires i < |ps|
  {
    BalanceAt(a, ps[i].key) + PostedTo(ps[..i + 1], ps[i].key) >= 0
  }

  lemma CoveredEarlier(a: Accounts, ps: seq<Posting>, n: nat)
    requires n <= |ps|
    ensures forall i :: 0 <= i < n ==> Covered(a, ps[..n], i) == Covered(a, ps, i)
  {
    forall i | 0 <= i < n
      ensures Covered(a, ps[..n], i) == Covered(a, ps, i)
    {
      assert ps[..n][..i + 1] == ps[..i + 1];
    }
  }

  lemma PostLast(a: Accounts, ps: seq<Posting>)
    requires ps != [] && PostAll(a, ps[..|ps| - 1]).Some?
    ensures PostAll(a, ps).Some? <==> Covered(a, ps, |ps| - 1)
  {
    var n := |ps| - 1;
    PostAllBalance(a, ps[..n], ps[n].key);
    assert ps[..n + 1] == ps;
  }

  /** The updates go through exactly when none of them overdraws its account. */
  lemma {:induction false} PostAllIff(a: Accounts, ps: seq<Posting>)
    ensures PostAll(a, ps).Some? <==> forall i :: 0 <= i < |ps| ==> Covered(a, ps, i)
  {
    hide Covered;
    if ps != [] {
      var n := |ps| - 1;
      PostAllIff(a, ps[..n]);
      CoveredEarlier(a, ps, n);
      if PostAll(a, ps[..n]).Some? {
        PostLast(a, ps);
      } else {
        PostAllStops(a, ps, n);
      }
    }
  }

  function FrozenAt(a: Accounts, k: Key): int {
    RowOf(a, k).frozen
  }

  /** What is left frozen when a balance has fallen from one amount to another. */
  function FrozenLeft(frozen: int, before: int, after: int): int {
    Decimal.Max(frozen - Decimal.Max(before - after, 0), 0)
  }

  lemma OneUpdate(a: Accounts, p: Posting, k: Key)
    requires Update(a, p.key, p.delta).Some?
    ensures var b := Update(a, p.key, p.delta).value;
      if k != p.key then RowOf(b, k) == RowOf(a, k)
      else FrozenAt(a, k) >= 0 ==>
        FrozenAt(b, k) == FrozenLeft(FrozenAt(a, k), BalanceAt(a, k), BalanceAt(b, k))
  {
  }

  predicate Touches(ps: seq<Posting>, k: Key) {
    exists i :: 0 <= i < |ps| && ps[i].key == k
  }

  /** Where no account is updated twice, a frozen balance falls by what the balance falls, down to zero. */
  lemma {:induction false} FrozenFollowsBalance(a: Accounts, ps: seq<Posting>, k: Key)
    requires PostAll(a, ps).Some? && FrozenAt(a, k) >= 0
    requires forall i, j :: 0 <= i < j < |ps| ==> ps[i].key != ps[j].key
    ensures var b := PostAll(a, ps).value;
      && FrozenAt(b, k) == FrozenLeft(FrozenAt(a, k), BalanceAt(a, k), BalanceAt(b, k))
      && (!Touches(ps, k) ==> RowOf(b, k) == RowOf(a, k))
  {
    hide Update;
    hide RowOf;
    if ps != [] {
      var n := |ps| - 1;
      FrozenFollowsBalance(a, ps[..n], k);
      OneUpdate(PostAll(a, ps[..n]).value, ps[n], k);
      assert Touches(ps[..n], k) ==> Touches(ps, k) && ps[n].key != k;
      assert ps[n].key == k ==> Touches(ps, k);
    }
  }

  /** With two users, neither of them the fee account, and two currencies, five accounts are updated. */
  lemma FiveAccounts(t: Trade, r: Rates)
    requires t.takerUser != t.makerUser && t.takerUser != FEE_ACCOUNT && t.makerUser != FEE_ACCOUNT
    requires Base(t.symbol) != Quote(t.symbol)
    ensures var ps := Postings(t, r); forall i, j :: 0 <= i < j < |ps| ==> ps[i].key != ps[j].key
  {
    hide Decimal.Mul;
    hide Base;
    hide Quote;
  }

  /**
   A settlement between two users takes from what each of them has frozen just what it takes from the balance, as far
   as there is any: of the seller's base quantity, of the buyer's cost and fee. What is received is never frozen.
   */
  lemma SettlementReleases(a: Accounts, t: Trade, r: Rates, k: Key, base: string, quote: string)
    requires PostAll(a, Postings(t, r)).Some? && Names(t.symbol, base, quote) && base != quote && FrozenAt(a, k) >= 0
    requires t.takerUser != t.makerUser && t.takerUser != FEE_ACCOUNT && t.makerUser != FEE_ACCOUNT
    ensures FrozenAt(Settled(a, t, r), k) ==
      FrozenLeft(FrozenAt(a, k), BalanceAt(a, k), BalanceAt(Settled(a, t, r), k))
  {
    hide PostAll;
    hide Postings;
    hide Base;
    hide Quote;
    hide Names;
    hide RowOf;
    SymbolNames(t.symbol, base, quote);
    FiveAccounts(t, r);
    FrozenFollowsBalance(a, Postings(t, r), k);
  }

  /** Settlement changes the total balance of no currency. */
  lemma SettlementConserves(a: Accounts, t: Trade, r: Rates, c: string)
    ensures Total(Settled(a, t, r), c) == Total(a, c)
  {
    hide PostAll;
    hide Postings;
    hide NetPosted;
    hide Total;
    if PostAll(a, Postings(t, r)).Some? {
      PostAllTotal(a, Postings(t, r), c);
      PostingsBalance(t, r, c);
    }
  }

  /** The payload the engine emits is read back as the very trade. */
  lemma PayloadRoundTrip(t: Trade)
    ensures FromPayload(TradeEvent(t).payload) == t
  {
    hide DecimalText.Parse;
    hide DecimalText.Print;
    DecimalTextLaws.RoundTrip(t.price);
    DecimalTextLaws.RoundTrip(t.quantity);
    DecimalTextLaws.RoundTrip(t.quoteQty);
  }

  /** A number that cannot be read counts as zero; everything else is taken over. */
  lemma PayloadReads(p: TradePayload)
    ensures var t := FromPayload(p);
      && t.takerId == p.takerId && t.makerId == p.makerId && t.takerUser == p.takerUser && t.makerUser == p.makerUser
      && t.symbol == p.symbol && t.takerSide == p.takerSide
      && (DecimalText.Parse(p.price) in {None, Some(t.price)} && (DecimalText.Parse(p.price).None? ==> t.price == 0))
      && (DecimalText.Parse(p.quantity) in {None, Some(t.quantity)} &&
            (DecimalText.Parse(p.quantity).None? ==> t.quantity == 0))
      && (DecimalText.Parse(p.quoteQty) in {None, Some(t.quoteQty)} &&
            (DecimalText.Parse(p.quoteQty).None? ==> t.quoteQty == 0))
  {
    hide DecimalText.Parse;
  }

  /** For rates between zero and one, each fee is between zero and the quote quantity. */
  lemma FeesBounded(t: Trade, r: Rates)
    requires t.quoteQty >= 0 && 0 <= r.maker <= Decimal.SCALE && 0 <= r.taker <= Decimal.SCALE
    ensures 0 <= MakerFee(t, r) <= t.quoteQty && 0 <= TakerFee(t, r) <= t.quoteQty
  {
    FeeBounded(t.quoteQty, r.maker);
    FeeBounded(t.quoteQty, r.taker);
  }

  lemma FeeBounded(q: int, rate: int)
    requires q >= 0 && 0 <= rate <= Decimal.SCALE
    ensures 0 <= Decimal.Mul(q, rate) <= q
  {
    assert 0 <= q * rate <= q * Decimal.SCALE;
    Decimal.MulIsFloor(q, rate);
  }

  /**
   End to end: whatever the engine traded, settling the event's payload moves exactly that trade and conserves money.
   */
  lemma EngineTradeSettles(a: Accounts, t: Trade, r: Rates, c: string)
    ensures Settled(a, FromPayload(TradeEvent(t).payload), r) == Settled(a, t, r)
    ensures Total(Settled(a, FromPayload(TradeEvent(t).payload), r), c) == Total(a, c)
  {
    hide *;
    PayloadRoundTrip(t);
    SettlementConserves(a, t, r, c);
  }

  // ---------- The transaction ----------

  /** Which statements of the transaction the database fails. */
  datatype Faults = Faults(begin: bool, updates: set<nat>, insertTrade: bool, commit: bool)

  /** None of the statements a settlement issues fails. */
  predicate NoFault(f: Faults) {
    !f.begin && (forall i :: i in f.updates ==> i >= 5) && !f.insertTrade && !f.commit
  }

  class Service {
    const table: AccountsTable
    const rates: Rates

    constructor (table: AccountsTable, rates: Rates)
      ensures this.table == table && this.rates == rates
    {
      this.table, this.rates := table, rates;
    }

    /** Handle a trade event: read the payload's numbers and settle. */
    method OnTradeExecuted(p: TradePayload, faults: Faults) returns (ok: bool)
      modifies table
      ensures ok ==> !faults.begin && !faults.insertTrade && !faults.commit && faults.updates !! {0, 1, 2, 3, 4}
      ensures ok <==> NoFault(faults) && PostAll(old(table.rows), Postings(FromPayload(p), rates)).Some?
      ensures table.rows == if ok then Settled(old(table.rows), FromPayload(p), rates) else old(table.rows)
    {
      var price := DecimalText.NewFromString(p.price);
      var quantity := DecimalText.NewFromString(p.quantity);
      var quoteQty := DecimalText.NewFromString(p.quoteQty);
      var t := Trade(p.takerId, p.makerId, p.takerUser, p.makerUser, p.symbol,
                     if price.Some? then price.value else 0,
                     if quantity.Some? then quantity.value else 0,
                     if quoteQty.Some? then quoteQty.value else 0, p.takerSide);
      assert t == FromPayload(p);
      ok := SettleTrade(t, faults);
    }

    /** Settle one trade in one transaction: all of its updates take effect, or none. */
    method SettleTrade(t: Trade, faults: Faults) returns (ok: bool)
      modifies table
      ensures ok ==> !faults.begin && !faults.insertTrade && !faults.commit && faults.updates !! {0, 1, 2, 3, 4}
      ensures ok <==> NoFault(faults) && PostAll(old(table.rows), Postings(t, rates)).Some?
      ensures table.rows == if ok then Settled(old(table.rows), t, rates) else old(table.rows)
    {
      if faults.begin {
        return false;
      }
      var makerFee := Decimal.Mul(t.quoteQty, rates.maker);
      var takerFee := Decimal.Mul(t.quoteQty, rates.taker);
      var base, quote := Base(t.symbol), Quote(t.symbol);
      var takerBaseDelta, takerQuoteDelta, makerBaseDelta, makerQuoteDelta;
      if t.takerSide == Buy {
        takerBaseDelta := t.quantity;
        takerQuoteDelta := Decimal.Mul(t.quoteQty + takerFee, MINUS_ONE);
        makerBaseDelta := Decimal.Mul(t.quantity, MINUS_ONE);
        makerQuoteDelta := t.quoteQty - makerFee;
      } else {
        takerBaseDelta := Decimal.Mul(t.quantity, MINUS_ONE);
        takerQuoteDelta := t.quoteQty - takerFee;
        makerBaseDelta := t.quantity;
        makerQuoteDelta := Decimal.Mul(t.quoteQty + makerFee, MINUS_ONE);
      }
      var ps := [Posting(Key(t.takerUser, base), takerBaseDelta), Posting(Key(t.takerUser, quote), takerQuoteDelta),
                 Posting(Key(t.makerUser, base), makerBaseDelta), Posting(Key(t.makerUser, quote), makerQuoteDelta),
                 Posting(Key(FEE_ACCOUNT, quote), makerFee + takerFee)];
      assert ps == Postings(t, rates);
      var tx, posted := PostInOrder(ps, faults.updates);
      if !posted || faults.insertTrade || faults.commit {
        return false;
      }
      table.rows := tx;
      return true;
    }

    /** The updates inside the transaction, each able to fail; the table itself is not touched yet. */
    method PostInOrder(ps: seq<Posting>, failing: set<nat>) returns (tx: Accounts, ok: bool)
      ensures ok <==> (forall i :: i in failing ==> i >= |ps|) && PostAll(table.rows, ps).Some?
      ensures ok ==> tx == PostAll(table.rows, ps).value
    {
      tx := table.rows;
      var i := 0;
      while i < |ps|
        invariant 0 <= i <= |ps|
        invariant forall j :: j in failing ==> j >= i
        invariant PostAll(table.rows, ps[..i]) == Some(tx)
      {
        assert ps[..i + 1][..i] == ps[..i];
        if i in failing {
          return tx, false;
        }
        match Update(tx, ps[i].key, ps[i].delta) {
          case None =>
            PostAllStops(table.rows, ps, i + 1);
            return tx, false;
          case Some(next) => tx := next;
        }
        i := i + 1;
      }
      assert ps[..i] == ps;
      return tx, true;
    }
  }

  /** Once an update is refused, the whole list is. */
  lemma {:induction false} PostAllStops(a: Accounts, ps: seq<Posting>, n: nat)
    requires n <= |ps| && PostAll(a, ps[..n]).None?
    ensures PostAll(a, ps).None?
    decreases |ps|
  {
    if n == |ps| {
      assert ps[..n] == ps;
    } else {
      assert ps[..|ps| - 1][..n] == ps[..n];
      PostAllStops(a, ps[..|ps| - 1], n);
    }
  }
}
