/** The price ladder shown to readers, from the cached totals of the levels, against the orders that rest. */
module Snapshots {
  import opened Types
  import opened FlatBook
  import opened MatchingLaws
  import opened BookLaws
  import opened Levels
  import opened OrderBooks
  import DecimalText
  import DecimalTextLaws

  /** One price with the total remaining quantity and the number of the orders at it. */
  datatype Rung = Rung(price: int, volume: int, orders: nat)

  /** An order in front of a ladder joins its first rung or makes one of its own. */
  function Prepend(m: OrderView, rest: seq<Rung>): seq<Rung> {
    if rest != [] && rest[0].price == m.price then
      [Rung(m.price, m.Remaining() + rest[0].volume, rest[0].orders + 1)] + rest[1..]
    else [Rung(m.price, m.Remaining(), 1)] + rest
  }

  /** The ladder of a plain list: neighbouring orders with the same price share a rung. */
  function Ladder(ms: seq<OrderView>): (r: seq<Rung>)
    ensures ms == [] <==> r == []
    ensures ms != [] ==> r[0].price == ms[0].price
  {
    if ms == [] then [] else Prepend(ms[0], Ladder(ms[1..]))
  }

  // ---------- What a ladder says about the orders ----------

  /** The total remaining quantity of the orders at a price. */
  function VolumeAt(ms: seq<OrderView>, price: int): int {
    if ms == [] then 0 else (if ms[0].price == price then ms[0].Remaining() else 0) + VolumeAt(ms[1..], price)
  }

  function CountAt(ms: seq<OrderView>, price: int): nat {
    if ms == [] then 0 else (if ms[0].price == price then 1 else 0) + CountAt(ms[1..], price)
  }

  lemma {:induction false} NoneAt(ms: seq<OrderView>, price: int)
    requires forall i :: 0 <= i < |ms| ==> ms[i].price != price
    ensures VolumeAt(ms, price) == 0 && CountAt(ms, price) == 0
  {
    if ms != [] {
      NoneAt(ms[1..], price);
    }
  }

  /** From best to worst price. */
  predicate Graded(side: Side, r: seq<Rung>) {
    forall i, j :: 0 <= i < j < |r| ==> Better(side, r[i].price, r[j].price)
  }

  predicate HasOrderAt(ms: seq<OrderView>, price: int) {
    exists j :: 0 <= j < |ms| && ms[j].price == price
  }

  /** Every rung's price is that of an order. */
  lemma {:induction false} RungsHaveOrders(ms: seq<OrderView>)
    ensures forall i :: 0 <= i < |Ladder(ms)| ==> HasOrderAt(ms, Ladder(ms)[i].price)
  {
    if ms != [] {
      RungsHaveOrders(ms[1..]);
      FirstRung(ms);
      var r, rest := Ladder(ms), Ladder(ms[1..]);
      hide Ladder;
      forall i | 0 <= i < |r|
        ensures HasOrderAt(ms, r[i].price)
      {
        if i == 0 {
          assert ms[0].price == r[0].price;
        } else {
          var k := i - (|r| - |rest|);
          assert r[i] == rest[k] && HasOrderAt(ms[1..], rest[k].price);
          var j :| 0 <= j < |ms[1..]| && ms[1..][j].price == rest[k].price;
          assert ms[j + 1].price == r[i].price;
        }
      }
    }
  }

  /** On an ordered side the rungs are strictly graded, and each holds exactly the orders at its price. */
  lemma {:induction false} LadderTotals(ms: seq<OrderView>, side: Side)
    requires SideOk(ms, side)
    ensures Graded(side, Ladder(ms))
    ensures forall i :: 0 <= i < |Ladder(ms)| ==>
      Ladder(ms)[i].volume == VolumeAt(ms, Ladder(ms)[i].price) &&
        Ladder(ms)[i].orders == CountAt(ms, Ladder(ms)[i].price)
  {
    if ms != [] {
      TailOk(ms, side);
      hide SideOk;
      hide Ladder;
      var tail, p := ms[1..], ms[0].price;
      LadderTotals(tail, side);
      if tail != [] {
        TailOk(tail, side);
      }
      RungsAreWorse(tail, side, p);
      FirstRung(ms);
      if Ladder(tail) == [] || Ladder(tail)[0].price != p {
        Absent(tail, side, p);
      }
    }
  }

  lemma FirstRung(ms: seq<OrderView>)
    requires ms != []
    ensures Ladder(ms) == Prepend(ms[0], Ladder(ms[1..]))
    ensures ms[1..] == [] <==> Ladder(ms[1..]) == []
    ensures ms[1..] != [] ==> Ladder(ms[1..])[0].price == ms[1].price
  {
    hide Prepend;
  }

  /** The rungs of orders at no better a price than p are at no better a price either. */
  lemma RungsAreWorse(ms: seq<OrderView>, side: Side, p: int)
    requires forall j :: 0 <= j < |ms| ==> ms[j].price == p || Better(side, p, ms[j].price)
    ensures forall k :: 0 <= k < |Ladder(ms)| ==> Ladder(ms)[k].price == p || Better(side, p, Ladder(ms)[k].price)
  {
    RungsHaveOrders(ms);
    hide Ladder;
    forall k | 0 <= k < |Ladder(ms)|
      ensures Ladder(ms)[k].price == p || Better(side, p, Ladder(ms)[k].price)
    {
      assert HasOrderAt(ms, Ladder(ms)[k].price);
      var j :| 0 <= j < |ms| && ms[j].price == Ladder(ms)[k].price;
    }
  }

  /** When even the best price is worse than p, no order is at p. */
  lemma Absent(ms: seq<OrderView>, side: Side, p: int)
    requires ms != [] ==> Better(side, p, ms[0].price)
    requires forall j :: 0 < j < |ms| ==> ms[j].price == ms[0].price || Better(side, ms[0].price, ms[j].price)
    ensures VolumeAt(ms, p) == 0 && CountAt(ms, p) == 0
  {
    NoneAt(ms, p);
  }

  /** Every resting order is counted on some rung. */
  lemma {:induction false} EveryOrderIsShown(ms: seq<OrderView>, j: nat)
    requires j < |ms|
    ensures exists i :: 0 <= i < |Ladder(ms)| && Ladder(ms)[i].price == ms[j].price
  {
    var r, rest := Ladder(ms), Ladder(ms[1..]);
    if j == 0 {
      assert r[0].price == ms[0].price;
    } else {
      EveryOrderIsShown(ms[1..], j - 1);
      var k :| 0 <= k < |rest| && rest[k].price == ms[1..][j - 1].price;
      assert r[k + (|r| - |rest|)].price == ms[j].price;
    }
  }

  // ---------- The levels hold the ladder ----------

  function RungOf(price: int, view: seq<OrderView>): Rung {
    Rung(price, Depth(view), |view|)
  }

  /** A level in front of worse ones is one rung. */
  lemma {:induction false} LevelInFront(v: seq<OrderView>, rest: seq<OrderView>, p: int)
    requires v != [] && (forall k :: 0 <= k < |v| ==> v[k].price == p)
    requires rest != [] ==> rest[0].price != p
    ensures Ladder(v + rest) == [RungOf(p, v)] + Ladder(rest)
  {
    hide Ladder;
    hide Depth;
    LadderFront(v, rest);
    DepthFront(v);
    if |v| == 1 {
      assert v[1..] + rest == rest;
      LadderStarts(rest);
    } else {
      LevelInFront(v[1..], rest, p);
      assert [RungOf(p, v[1..])] + Ladder(rest) == Ladder(v[1..] + rest);
      assert ([RungOf(p, v[1..])] + Ladder(rest))[1..] == Ladder(rest);
    }
  }

  lemma LadderFront(v: seq<OrderView>, rest: seq<OrderView>)
    requires v != []
    ensures Ladder(v + rest) == Prepend(v[0], Ladder(v[1..] + rest))
  {
    assert (v + rest)[1..] == v[1..] + rest;
  }

  lemma LadderStarts(ms: seq<OrderView>)
    ensures ms == [] <==> Ladder(ms) == []
    ensures ms != [] ==> Ladder(ms)[0].price == ms[0].price
  {
  }

  lemma DepthFront(v: seq<OrderView>)
    requires v != []
    ensures Depth(v) == v[0].Remaining() + Depth(v[1..])
    ensures |v| == 1 ==> Depth(v[1..]) == 0
  {
  }

  lemma {:induction false} LadderOfLevels(prices: seq<int>, side: Side, views: seq<seq<OrderView>>)
    requires LevelsOk(prices, side, views)
    ensures |Ladder(Flatten(views))| == |views|
    ensures forall i :: 0 <= i < |views| ==> Ladder(Flatten(views))[i] == RungOf(prices[i], views[i])
  {
    if views != [] {
      LadderOfLevels(prices[1..], side, views[1..]);
      if |views| > 1 {
        FlattenFront(views[1..]);
        assert Better(side, prices[0], prices[1]);
        assert views[1][0].price == prices[1];
      }
      LevelInFront(views[0], Flatten(views[1..]), prices[0]);
    }
  }

  // ---------- The snapshot ----------

  datatype LevelText = LevelText(price: string, volume: string, orders: nat)

  datatype BookSnapshot = BookSnapshot(symbol: string, seqNum: nat, bids: seq<LevelText>, asks: seq<LevelText>)

  function TextOf(r: Rung): LevelText {
    LevelText(DecimalText.Print(r.price), DecimalText.Print(r.volume), r.orders)
  }

  /** How many levels a requested depth shows. */
  function Shown(depth: int, levels: nat): (n: nat)
    ensures n <= levels
  {
    if 0 < depth < levels then depth else levels
  }

  /** The snapshot shows the best rungs of the plain book's two ladders. */
  ghost predicate Shows(snap: BookSnapshot, b: Book, depth: int) {
    && snap.symbol == b.symbol && snap.seqNum == b.seqNum
    && ShowsSide(snap.bids, Ladder(b.bids), depth)
    && ShowsSide(snap.asks, Ladder(b.asks), depth)
  }

  ghost predicate ShowsSide(texts: seq<LevelText>, r: seq<Rung>, depth: int) {
    && |texts| == Shown(depth, |r|)
    && forall i :: 0 <= i < |texts| ==> texts[i] == TextOf(r[i])
  }

  /**
   What a snapshot says when its numbers are read: the best rungs, all of them or as many as were asked for, each with
   the quantity and the number of the orders at its price.
   */
  lemma SnapshotReads(texts: seq<LevelText>, ms: seq<OrderView>, side: Side, depth: int)
    requires SideOk(ms, side) && ShowsSide(texts, Ladder(ms), depth)
    ensures |texts| == if depth <= 0 || depth > |Ladder(ms)| then |Ladder(ms)| else depth
    ensures forall i :: 0 <= i < |texts| ==>
      var price := Ladder(ms)[i].price;
      && DecimalText.Parse(texts[i].price) == Some(price)
      && DecimalText.Parse(texts[i].volume) == Some(VolumeAt(ms, price))
      && texts[i].orders == CountAt(ms, price)
  {
    hide Ladder;
    hide VolumeAt;
    hide CountAt;
    hide SideOk;
    hide DecimalText.Parse;
    hide DecimalText.Print;
    LadderTotals(ms, side);
    forall i | 0 <= i < |texts|
      ensures var price := Ladder(ms)[i].price;
        && DecimalText.Parse(texts[i].price) == Some(price)
        && DecimalText.Parse(texts[i].volume) == Some(VolumeAt(ms, price))
        && texts[i].orders == CountAt(ms, price)
    {
      DecimalTextLaws.RoundTrip(Ladder(ms)[i].price);
      DecimalTextLaws.RoundTrip(Ladder(ms)[i].volume);
    }
  }

  method Snapshot(book: OrderBook, depth: int) returns (snap: BookSnapshot)
    requires book.Valid()
    ensures Shows(snap, book.Flat(), depth)
  {
    LadderOfLevels(Prices(book.bids), Buy, book.bidViews);
    LadderOfLevels(Prices(book.asks), Sell, book.askViews);
    hide Ladder;
    hide Flatten;
    hide LevelsOk;
    var bids := SideSnapshot(book.bids, Buy, book.bidViews, book.Repr, depth);
    var asks := SideSnapshot(book.asks, Sell, book.askViews, book.Repr, depth);
    return BookSnapshot(book.symbol, book.seqNum, bids, asks);
  }

  /** The loop over one side's levels, reading only what each level caches. */
  method SideSnapshot(levels: seq<PriceLevel>, ghost side: Side, ghost views: seq<seq<OrderView>>,
                      ghost R: set<object>, depth: int)
    returns (texts: seq<LevelText>)
    requires Backed(levels, side, views, R)
    ensures |levels| == |views| && |texts| == Shown(depth, |views|)
    ensures forall i :: 0 <= i < |texts| ==> texts[i] == TextOf(RungOf(levels[i].price, views[i]))
  {
    hide DecimalText.Print;
    hide Depth;
    LevelCaches(levels, side, views, R);
    var n := |levels|;
    if depth > 0 && depth < n {
      n := depth;
    }
    texts := [];
    for i := 0 to n
      invariant |texts| == i
      invariant forall j :: 0 <= j < i ==> texts[j] == TextOf(RungOf(levels[j].price, views[j]))
    {
      texts := texts + [LevelText(DecimalText.Print(levels[i].price), DecimalText.Print(levels[i].orders.volume),
        levels[i].orders.len)];
    }
  }
}
