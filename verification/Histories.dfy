/** Whole histories of commands: their trades, and the identity of trades and resting orders. */
module Histories {
  import opened Types
  import opened FlatBook
  import opened MatchingLaws
  import opened BookLaws
  import opened Engine
  import Decimal

  const ONE := Decimal.SCALE

  function EmptyBook(symbol: string): Book {
    Book(symbol, [], [], 0)
  }

  function StepTrades(b: Book, c: Command): seq<Trade> {
    match c
    case Submit(o) => Place(b, o).matches
    case Cancel(_) => []
  }

  /** The trades of a run, in order. */
  function RunTrades(b: Book, cs: seq<Command>): seq<Trade> {
    if cs == [] then []
    else RunTrades(b, cs[..|cs| - 1]) + StepTrades(RunBook(b, cs[..|cs| - 1]), cs[|cs| - 1])
  }

  /** New orders arrive unfilled. */
  predicate Fresh(cs: seq<Command>) {
    forall i :: 0 <= i < |cs| && cs[i].Submit? ==> cs[i].order.filled == 0
  }

  /** No identifier is submitted twice. */
  predicate Distinct(cs: seq<Command>) {
    forall i, j :: 0 <= i < j < |cs| && cs[i].Submit? && cs[j].Submit? ==> cs[i].order.id != cs[j].order.id
  }

  ghost predicate Submitted(cs: seq<Command>, id: string) {
    exists i :: 0 <= i < |cs| && cs[i].Submit? && cs[i].order.id == id
  }

  /** No two resting orders of a side share an identifier. */
  predicate DistinctIds(ms: seq<OrderView>) {
    forall i, j :: 0 <= i < j < |ms| ==> ms[i].id != ms[j].id
  }

  predicate Holds(ms: seq<OrderView>, id: string) {
    exists i :: 0 <= i < |ms| && ms[i].id == id
  }

  // ---------- What a step does to identifiers ----------

  lemma MakersAfterIds(ms: seq<OrderView>, ts: seq<Trade>, after: seq<OrderView>)
    requires |ts| <= |ms| && MakersAfter(ms, ts, after)
    ensures var d := |ms| - |after|;
      0 <= d && forall i :: 0 <= i < |after| ==> after[i].id == ms[d + i].id
  {
  }

  lemma MatchIds(b: Book, t: OrderView, ms: seq<OrderView>)
    requires SideOk(ms, Opposite(t.side))
    ensures var r := Match(b.symbol, t, ms);
      && (DistinctIds(ms) ==> DistinctIds(r.makers))
      && (forall id :: Holds(r.makers, id) ==> Holds(ms, id))
      && r.taker.id == t.id && r.taker.side == t.side
  {
    hide Match;
    hide SideOk;
    hide MakersAfter;
    SideRemaining(ms, Opposite(t.side));
    MatchSettles(b.symbol, t, ms);
    MatchConserves(b.symbol, t, ms);
    var r := Match(b.symbol, t, ms);
    MakersAfterIds(ms, r.trades, r.makers);
    var d := |ms| - |r.makers|;
    forall id | Holds(r.makers, id)
      ensures Holds(ms, id)
    {
      var i :| 0 <= i < |r.makers| && r.makers[i].id == id;
      assert ms[d + i].id == id;
    }
  }

  lemma {:induction false} InsertIds(ms: seq<OrderView>, o: OrderView)
    requires DistinctIds(ms) && !Holds(ms, o.id)
    ensures DistinctIds(Insert(ms, o))
    ensures forall id :: Holds(Insert(ms, o), id) ==> Holds(ms, id) || id == o.id
  {
    var r := Insert(ms, o);
    if ms == [] || Better(o.side, o.price, ms[0].price) {
      assert forall i :: 0 < i < |r| ==> r[i] == ms[i - 1];
    } else {
      forall i | 0 <= i < |ms[1..]| ensures ms[1..][i].id != o.id { assert ms[i + 1].id != o.id; }
      InsertIds(ms[1..], o);
      var r' := Insert(ms[1..], o);
      assert forall i :: 0 < i < |r| ==> r[i] == r'[i - 1];
      forall i | 0 <= i < |r'|
        ensures r'[i].id != ms[0].id && (Holds(ms, r'[i].id) || r'[i].id == o.id)
      {
        assert Holds(r', r'[i].id);
        if r'[i].id != o.id {
          var k :| 0 <= k < |ms[1..]| && ms[1..][k].id == r'[i].id;
          assert ms[k + 1].id == r'[i].id;
        }
      }
    }
  }

  lemma DeleteIds(ms: seq<OrderView>, i: nat)
    requires DistinctIds(ms) && i < |ms|
    ensures DistinctIds(Delete(ms, i))
    ensures forall id :: Holds(Delete(ms, i), id) ==> Holds(ms, id)
  {
    var d := Delete(ms, i);
    assert forall k :: 0 <= k < |d| ==> d[k] == ms[if k < i then k else k + 1];
  }

  /** Every trade of a step is between the submitted order and a resting one, and no resting one trades twice. */
  ghost predicate StepPairs(ts: seq<Trade>, o: OrderView, ms: seq<OrderView>) {
    && (forall i :: 0 <= i < |ts| ==> ts[i].takerId == o.id && Holds(ms, ts[i].makerId))
    && (forall i, j :: 0 <= i < j < |ts| ==> ts[i].makerId != ts[j].makerId)
  }

  lemma PlaceReports(b: Book, o: OrderView)
    ensures Place(b, o).matches in {[], Match(b.symbol, o, b.On(Opposite(o.side))).trades}
  {
    hide TurnedAway;
    hide Rest;
    hide Match;
  }

  lemma PlacePairs(b: Book, o: OrderView)
    requires BookOk(b) && DistinctIds(b.On(Opposite(o.side)))
    ensures StepPairs(Place(b, o).matches, o, b.On(Opposite(o.side)))
  {
    hide Place;
    hide Match;
    var ms := b.On(Opposite(o.side));
    PlaceReports(b, o);
    MatchTrades(b.symbol, o, ms);
    var ts := Match(b.symbol, o, ms).trades;
    assert forall i :: 0 <= i < |ts| ==> ts[i].makerId == ms[i].id;
  }

  lemma PlaceIds(b: Book, o: OrderView)
    requires BookOk(b) && DistinctIds(b.bids) && DistinctIds(b.asks)
    requires !Holds(b.bids, o.id) && !Holds(b.asks, o.id)
    ensures var b' := Place(b, o).book;
      && DistinctIds(b'.bids) && DistinctIds(b'.asks)
      && (forall id :: Holds(b'.bids, id) ==> Holds(b.bids, id) || id == o.id)
      && (forall id :: Holds(b'.asks, id) ==> Holds(b.asks, id) || id == o.id)
  {
    hide TurnedAway;
    hide DistinctIds;
    hide Holds;
    hide Match;
    hide Insert;
    if !TurnedAway(b, o) {
      MatchIds(b, o, b.On(Opposite(o.side)));
      var r := FlatBook.MatchOrder(b, o);
      if Rests(r) {
        InsertIds(r.book.On(o.side), r.order.(status := Open, arrival := r.book.seqNum + 1));
      }
    }
  }

  lemma CancelIds(b: Book, id: string)
    requires DistinctIds(b.bids) && DistinctIds(b.asks)
    ensures var b' := CancelBook(b, id);
      && DistinctIds(b'.bids) && DistinctIds(b'.asks)
      && (forall x :: Holds(b'.bids, x) ==> Holds(b.bids, x))
      && (forall x :: Holds(b'.asks, x) ==> Holds(b.asks, x))
  {
    var i, j := Find(b.bids, id), Find(b.asks, id);
    if i < |b.bids| {
      DeleteIds(b.bids, i);
    } else if j < |b.asks| {
      DeleteIds(b.asks, j);
    }
  }

  // ---------- Trade identity ----------

  /** No two trades are between the same maker and taker. */
  predicate UniquePairs(ts: seq<Trade>) {
    forall i, j :: 0 <= i < j < |ts| ==> ts[i].makerId != ts[j].makerId || ts[i].takerId != ts[j].takerId
  }

  /** Whoever rests or has traded was submitted. */
  ghost predicate Identified(b: Book, ts: seq<Trade>, cs: seq<Command>) {
    && DistinctIds(b.bids) && DistinctIds(b.asks)
    && (forall id :: Holds(b.bids, id) ==> Submitted(cs, id))
    && (forall id :: Holds(b.asks, id) ==> Submitted(cs, id))
    && (forall i :: 0 <= i < |ts| ==> Submitted(cs, ts[i].takerId) && Submitted(cs, ts[i].makerId))
  }

  lemma SubmittedEarlier(cs: seq<Command>, n: nat)
    requires n <= |cs|
    ensures forall id :: Submitted(cs[..n], id) ==> Submitted(cs, id)
    ensures Distinct(cs) ==> Distinct(cs[..n])
    ensures Fresh(cs) ==> Fresh(cs[..n])
    ensures Distinct(cs) && n < |cs| && cs[n].Submit? ==> !Submitted(cs[..n], cs[n].order.id)
    ensures n < |cs| && cs[n].Submit? ==> Submitted(cs, cs[n].order.id)
  {
    forall id | Submitted(cs[..n], id)
      ensures Submitted(cs, id)
    {
      var i :| 0 <= i < n && cs[..n][i].Submit? && cs[..n][i].order.id == id;
      assert cs[i].Submit?;
    }
  }

  lemma PairsAppend(ts: seq<Trade>, new_: seq<Trade>, o: OrderView, ms: seq<OrderView>, cs: seq<Command>)
    requires UniquePairs(ts) && StepPairs(new_, o, ms)
    requires forall i :: 0 <= i < |ts| ==> Submitted(cs, ts[i].takerId)
    requires !Submitted(cs, o.id)
    ensures UniquePairs(ts + new_)
  {
    hide Submitted;
    hide Holds;
    var all := ts + new_;
    forall i, j | 0 <= i < j < |all|
      ensures all[i].makerId != all[j].makerId || all[i].takerId != all[j].takerId
    {
      if i < |ts| <= j {
        assert all[j] == new_[j - |ts|];
      } else if |ts| <= i {
        assert all[i] == new_[i - |ts|] && all[j] == new_[j - |ts|];
      }
    }
  }

  /** One more command keeps trades unique and everyone identified. */
  lemma StepIdentified(b: Book, ts: seq<Trade>, cs: seq<Command>)
    requires cs != [] && Distinct(cs) && BookOk(b)
    requires Identified(b, ts, cs[..|cs| - 1]) && UniquePairs(ts)
    ensures var c := cs[|cs| - 1];
      Identified(StepBook(b, c), ts + StepTrades(b, c), cs) && UniquePairs(ts + StepTrades(b, c))
  {
    hide BookOk;
    hide Place;
    hide CancelBook;
    hide DistinctIds;
    hide Holds;
    hide Submitted;
    hide Distinct;
    hide UniquePairs;
    var n := |cs| - 1;
    SubmittedEarlier(cs, n);
    match cs[n]
    case Submit(o) =>
      PlacePairs(b, o);
      PlaceIds(b, o);
      PairsAppend(ts, Place(b, o).matches, o, b.On(Opposite(o.side)), cs[..n]);
    case Cancel(id) =>
      CancelIds(b, id);
      assert ts + [] == ts;
  }

  /** In any history in which no identifier is submitted twice, no maker and taker meet in two trades. */
  lemma {:induction false} TradesAreUnique(symbol: string, cs: seq<Command>)
    requires Distinct(cs)
    ensures UniquePairs(RunTrades(EmptyBook(symbol), cs))
    ensures Identified(RunBook(EmptyBook(symbol), cs), RunTrades(EmptyBook(symbol), cs), cs)
  {
    hide Distinct;
    hide Identified;
    hide UniquePairs;
    hide BookOk;
    hide StepBook;
    hide StepTrades;
    var b := EmptyBook(symbol);
    if cs == [] {
      NothingIdentified(symbol);
    } else {
      var n := |cs| - 1;
      SubmittedEarlier(cs, n);
      TradesAreUnique(symbol, cs[..n]);
      EmptyBookOk(symbol);
      RunKeepsBook(b, cs[..n]);
      StepIdentified(RunBook(b, cs[..n]), RunTrades(b, cs[..n]), cs);
    }
  }

  lemma EmptyBookOk(symbol: string)
    ensures BookOk(EmptyBook(symbol))
  {
  }

  lemma NothingIdentified(symbol: string)
    ensures UniquePairs([]) && Identified(EmptyBook(symbol), [], [])
  {
  }

  /** The settlement key of a trade. */
  function TradeId(makerId: string, takerId: string): string {
    "trd_" + makerId + "_" + takerId
  }

  /** Identifiers of one length make different keys for different pairs. */
  lemma TradeIdInjective(m1: string, t1: string, m2: string, t2: string)
    requires |m1| == |m2|
    ensures TradeId(m1, t1) == TradeId(m2, t2) <==> m1 == m2 && t1 == t2
  {
    if TradeId(m1, t1) == TradeId(m2, t2) {
      assert m1 == TradeId(m1, t1)[4..4 + |m1|] && m2 == TradeId(m2, t2)[4..4 + |m2|];
      assert t1 == TradeId(m1, t1)[5 + |m1|..] && t2 == TradeId(m2, t2)[5 + |m2|..];
    }
  }

  /** Identifiers of different lengths can share a key, since they may contain the separator. */
  lemma TradeIdAmbiguous()
    ensures TradeId("a_b", "c") == TradeId("a", "b_c")
  {
    assert TradeId("a_b", "c") == "trd_a_b_c";
    assert TradeId("a", "b_c") == "trd_a_b_c";
  }

  // ---------- All shards together ----------

  /** A command for the shard of a symbol. */
  datatype Routed = Routed(symbol: string, command: Command)

  /** The commands that reach one shard, in order. */
  function For(rs: seq<Routed>, symbol: string): seq<Command> {
    if rs == [] then []
    else For(rs[..|rs| - 1], symbol) + if rs[|rs| - 1].symbol == symbol then [rs[|rs| - 1].command] else []
  }

  /** The trades of one shard. */
  function TradesOf(rs: seq<Routed>, symbol: string): seq<Trade> {
    RunTrades(EmptyBook(symbol), For(rs, symbol))
  }

  /** No identifier is submitted twice, to whatever shard. */
  predicate DistinctEverywhere(rs: seq<Routed>) {
    forall i, j :: 0 <= i < j < |rs| && rs[i].command.Submit? && rs[j].command.Submit? ==>
      rs[i].command.order.id != rs[j].command.order.id
  }

  /** Identifiers have one length, as those of common.NewOrderID do. */
  predicate OneLength(rs: seq<Routed>, length: nat) {
    forall i :: 0 <= i < |rs| && rs[i].command.Submit? ==> |rs[i].command.order.id| == length
  }

  /** Where a shard's command came from. */
  lemma {:induction false} Origin(rs: seq<Routed>, symbol: string, k: nat) returns (i: nat)
    requires k < |For(rs, symbol)|
    ensures i < |rs| && rs[i] == Routed(symbol, For(rs, symbol)[k])
  {
    var n := |rs| - 1;
    if k < |For(rs[..n], symbol)| {
      i := Origin(rs[..n], symbol, k);
    } else {
      i := n;
    }
  }

  lemma {:induction false} ShardIsDistinct(rs: seq<Routed>, symbol: string)
    requires DistinctEverywhere(rs)
    ensures Distinct(For(rs, symbol))
  {
    if rs != [] {
      var n := |rs| - 1;
      ShardIsDistinct(rs[..n], symbol);
      var cs := For(rs[..n], symbol);
      forall k | 0 <= k < |cs| && cs[k].Submit? && rs[n].command.Submit?
        ensures cs[k].order.id != rs[n].command.order.id
      {
        var i := Origin(rs[..n], symbol, k);
        assert rs[i].command == cs[k];
      }
    }
  }

  lemma SubmittedSomewhere(rs: seq<Routed>, symbol: string, id: string) returns (i: nat)
    requires Submitted(For(rs, symbol), id)
    ensures i < |rs| && rs[i].symbol == symbol && rs[i].command.Submit? && rs[i].command.order.id == id
  {
    var cs := For(rs, symbol);
    var k :| 0 <= k < |cs| && cs[k].Submit? && cs[k].order.id == id;
    i := Origin(rs, symbol, k);
  }

  /** A shard's trades are between orders submitted to it. */
  lemma TradersWereSubmitted(rs: seq<Routed>, symbol: string, i: nat)
    requires DistinctEverywhere(rs) && i < |TradesOf(rs, symbol)|
    ensures UniquePairs(TradesOf(rs, symbol))
    ensures var t := TradesOf(rs, symbol)[i]; var cs := For(rs, symbol);
      Submitted(cs, t.takerId) && Submitted(cs, t.makerId)
  {
    hide Submitted;
    hide Distinct;
    ShardIsDistinct(rs, symbol);
    TradesAreUnique(symbol, For(rs, symbol));
  }

  /** With identifiers of one length, no two trades of any shards share a settlement key. */
  lemma TradeIdsAreUnique(rs: seq<Routed>, length: nat, symbol: string, i: nat, other: string, j: nat)
    requires DistinctEverywhere(rs) && OneLength(rs, length)
    requires i < |TradesOf(rs, symbol)| && j < |TradesOf(rs, other)| && (symbol != other || i != j)
    ensures var t, u := TradesOf(rs, symbol)[i], TradesOf(rs, other)[j];
      TradeId(t.makerId, t.takerId) != TradeId(u.makerId, u.takerId)
  {
    hide TradesOf;
    hide TradeId;
    hide Submitted;
    TradersWereSubmitted(rs, symbol, i);
    TradersWereSubmitted(rs, other, j);
    var t, u := TradesOf(rs, symbol)[i], TradesOf(rs, other)[j];
    var a := SubmittedSomewhere(rs, symbol, t.makerId);
    var b := SubmittedSomewhere(rs, other, u.makerId);
    TradeIdInjective(t.makerId, t.takerId, u.makerId, u.takerId);
  }
}
