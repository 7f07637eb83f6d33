/** Leveraged positions: where they are liquidated, and the scan that does it. */
module Margin {
  import opened Types
  import opened Decimal

  /** A position as opened; funding is not part of this model, so nothing changes it later. */
  datatype Position = Position(
    id: string, user: string, symbol: string, side: Side, quantity: int, entryPrice: int, leverage: int,
      liquidationPrice: int)

  // ---------- The liquidation price ----------

  function RequiredMargin(entry: int, qty: int, leverage: int): int {
    Div(Mul(entry, qty), FromInt(leverage))
  }

  /** How far from the entry price a position with this margin is liquidated. */
  function LiquidationDistance(entry: int, margin: int, mmr: int): int {
    Div(Mul(entry, Mul(margin, mmr)), margin)
  }

  function LiquidationPrice(side: Side, entry: int, qty: int, leverage: int, mmr: int): int {
    var x := LiquidationDistance(entry, RequiredMargin(entry, qty, leverage), mmr);
    if side == Buy then entry - x else entry + x
  }

  lemma ScaleInequality(a: int, b: int, c: int)
    requires c > 0 && a * c <= b * c
    ensures a <= b
  {
    if a > b {
      StrictMultiple(b, a, c);
    }
  }

  lemma ScaleStrict(a: int, b: int, c: int)
    requires c > 0 && a * c < b * c
    ensures a < b
  {
    if a >= b {
      Times(b, a, c);
    }
  }

  lemma Times(a: int, b: int, c: int)
    requires a <= b && c >= 0
    ensures a * c <= b * c
  {
    assert (b - a) * c >= 0;
  }

  lemma TimesStrict(a: int, b: int, c: int)
    requires a < b && c > 0
    ensures a * c < b * c
  {
    assert (b - a) * c > 0;
  }

  lemma Swap(a: int, b: int, c: int)
    ensures a * b * c == a * c * b && a * b * c == a * (b * c)
  {
  }

  /** The distance is never more than the entry price times the maintenance ratio, rounded down. */
  lemma DistanceAtMost(entry: int, margin: int, mmr: int)
    requires entry >= 0 && margin > 0 && mmr >= 0
    ensures 0 <= LiquidationDistance(entry, margin, mmr) <= Mul(entry, mmr)
  {
    var t := Mul(margin, mmr);
    var p := Mul(entry, t);
    var x := Div(p, margin);
    MulIsFloor(margin, mmr);
    MulIsFloor(entry, t);
    DivIsFloor(p, margin);
    DistanceSign(entry, margin, mmr);
    hide Mul;
    hide Div;
    // x * margin <= p * SCALE <= entry * t, and t * SCALE <= margin * mmr
    Times(x * margin, entry * t, SCALE);
    Times(t * SCALE, margin * mmr, entry);
    Chain(x, margin, entry, t, mmr, SCALE);
    ScaleInequality(x * SCALE, entry * mmr, margin);
    MulGalois(x, entry, mmr);
  }

  /** With a negative margin the roundings go the other way: the distance is never less. */
  lemma DistanceAtLeast(entry: int, margin: int, mmr: int)
    requires entry >= 0 && margin < 0 && mmr >= 0
    ensures LiquidationDistance(entry, margin, mmr) >= Mul(entry, mmr)
  {
    var t := Mul(margin, mmr);
    var p := Mul(entry, t);
    var x := Div(p, margin);
    MulIsFloor(margin, mmr);
    MulIsFloor(entry, t);
    DivRemainder(p, margin);
    MulIsFloor(entry, mmr);
    hide Mul;
    hide Div;
    Times(x * margin, entry * t, SCALE);
    Times(t * SCALE, margin * mmr, entry);
    Chain(x, margin, entry, t, mmr, SCALE);
    ScaleNegative(x * SCALE, entry * mmr, margin);
    ScaleInequality(Mul(entry, mmr), x, SCALE);
  }

  lemma ScaleNegative(a: int, b: int, c: int)
    requires c < 0 && a * c <= b * c
    ensures a >= b
  {
    if a < b {
      TimesStrict(a, b, -c);
    }
  }

  /** The distance has the sign of the entry price, whatever the margin. */
  lemma DistanceSign(entry: int, margin: int, mmr: int)
    requires mmr >= 0
    ensures entry >= 0 ==> LiquidationDistance(entry, margin, mmr) >= 0
    ensures entry <= 0 ==> LiquidationDistance(entry, margin, mmr) <= 0
  {
    var t := Mul(margin, mmr);
    var p := Mul(entry, t);
    MulSign(margin, mmr);
    MulSign(entry, t);
    if margin != 0 {
      DivSign(p, margin);
    }
    hide Mul;
    hide Div;
  }

  lemma MulSign(a: int, b: int)
    ensures (a >= 0 && b >= 0) || (a <= 0 && b <= 0) ==> Mul(a, b) >= 0
    ensures (a >= 0 && b <= 0) || (a <= 0 && b >= 0) ==> Mul(a, b) <= 0
  {
    var neg := -a;
    if a >= 0 && b >= 0 {
      assert a * b >= 0;
    } else if a < 0 && b <= 0 {
      assert neg * -b >= 0;
    } else if a >= 0 {
      assert a * -b >= 0;
    } else {
      assert neg * b >= 0;
    }
  }

  lemma DivSign(a: int, b: int)
    requires b != 0
    ensures (a >= 0 && b > 0) || (a <= 0 && b < 0) ==> Div(a, b) >= 0
    ensures (a >= 0 && b < 0) || (a <= 0 && b > 0) ==> Div(a, b) <= 0
  {
    var q := Div(a, b);
    DivRemainder(a, b);
    hide Div;
    if q < 0 {
      if b > 0 { Times(q, -1, b); } else { Times(1, -q, -b); }
    }
    if q > 0 {
      if b > 0 { Times(1, q, b); } else { Times(1, q, -b); }
    }
  }

  lemma Chain(x: int, r: int, e: int, t: int, m: int, s: int)
    requires x * r * s <= e * t * s && t * s * e <= r * m * e
    ensures x * s * r <= e * m * r
  {
    Swap(x, r, s);
    Regroup3(e, t, s);
    Regroup3(e, m, r);
  }

  lemma Regroup3(a: int, b: int, c: int)
    ensures a * b * c == b * c * a && a * b * c == c * b * a
  {
  }

  /** What the nested rounding takes away, times the margin, is bounded by entry price plus margin plus one. */
  lemma Shortfall(entry: int, margin: int, mmr: int)
    requires entry > 0 && margin > 0 && mmr >= 0
    ensures (Mul(entry, mmr) - LiquidationDistance(entry, margin, mmr) - 1) * margin < entry + SCALE
  {
    var t, full := Mul(margin, mmr), Mul(entry, mmr);
    var p := Mul(entry, t);
    var x := Div(p, margin);
    MulIsFloor(margin, mmr);
    MulIsFloor(entry, t);
    MulIsFloor(entry, mmr);
    DivIsFloor(p, margin);
    hide Mul;
    hide Div;
    // full * SCALE <= entry * mmr, and margin * mmr < (t + 1) * SCALE
    Times(full * SCALE, entry * mmr, margin);
    TimesStrict(margin * mmr, t * SCALE + SCALE, entry);
    Upper(full, margin, entry, mmr, t, SCALE);
    ScaleStrict(full * margin, entry * t + entry, SCALE);
    Expand(full, x, margin);
  }

  lemma Upper(f: int, r: int, e: int, m: int, t: int, s: int)
    requires f * s * r <= e * m * r && r * m * e < (t * s + s) * e
    ensures f * r * s < (e * t + e) * s
  {
    Swap(f, r, s);
    Regroup3(e, m, r);
    Factor(e, t, s);
  }

  lemma Factor(e: int, t: int, s: int)
    ensures (t * s + s) * e == (e * t + e) * s
  {
    assert (t * s + s) * e == t * s * e + s * e;
    assert (e * t + e) * s == e * t * s + e * s;
    Regroup3(e, t, s);
  }

  lemma Expand(f: int, x: int, r: int)
    ensures (f - x - 1) * r == f * r - x * r - r
  {
  }

  /** The margin times the leverage is the position's value, rounded down. */
  lemma MarginIsShare(entry: int, qty: int, leverage: int)
    requires leverage >= 1
    ensures var margin := RequiredMargin(entry, qty, leverage);
      margin * leverage <= Mul(entry, qty) < margin * leverage + leverage
  {
    var value, margin := Mul(entry, qty), RequiredMargin(entry, qty, leverage);
    hide Mul;
    DivIsFloor(value, FromInt(leverage));
    assert margin * FromInt(leverage) == margin * leverage * SCALE;
  }

  lemma MarginSign(entry: int, qty: int, leverage: int)
    requires entry >= 0 && leverage >= 1
    ensures qty >= 0 ==> RequiredMargin(entry, qty, leverage) >= 0
    ensures qty < 0 && entry > 0 ==> RequiredMargin(entry, qty, leverage) < 0
  {
    MulSign(entry, qty);
    if qty < 0 && entry > 0 {
      TimesStrict(qty, 0, entry);
      MulIsFloor(entry, qty);
    }
    hide Mul;
    var total := Mul(entry, qty);
    DivRemainder(total, FromInt(leverage));
    DivSign(total, FromInt(leverage));
  }

  /** With a margin of at least the entry price plus one, rounding moves the price by at most one unit. */
  lemma LargeMarginIsSharp(entry: int, margin: int, mmr: int)
    requires entry > 0 && mmr >= 0 && margin >= entry + SCALE
    ensures Mul(entry, mmr) - 1 <= LiquidationDistance(entry, margin, mmr) <= Mul(entry, mmr)
  {
    DistanceAtMost(entry, margin, mmr);
    Shortfall(entry, margin, mmr);
    var s := Mul(entry, mmr) - LiquidationDistance(entry, margin, mmr);
    hide Mul;
    hide LiquidationDistance;
    if s > 1 {
      Times(1, s - 1, margin);
    }
  }

  // ---------- Negative entry prices ----------

  lemma TimesNegative(entry: int, margin: int, mmr: int, t: int)
    requires entry < 0 && t * SCALE <= margin * mmr < t * SCALE + SCALE
    ensures entry * mmr * margin <= SCALE * (entry * t) < entry * mmr * margin - SCALE * entry
  {
    var n, u := -entry, margin * mmr - t * SCALE;
    assert 0 <= u * n;
    TimesStrict(u, SCALE, n);
    assert u * n == -(entry * mmr * margin) + SCALE * (entry * t) by {
      assert u * n == margin * mmr * n - t * SCALE * n;
      assert margin * mmr * n == -(entry * mmr * margin);
      assert t * SCALE * n == -(SCALE * (entry * t));
    }
  }

  lemma TimesMargin(exact: int, full: int, margin: int)
    requires full * SCALE <= exact < full * SCALE + SCALE
    ensures margin > 0 ==> SCALE * (full * margin) <= exact * margin < SCALE * (full * margin) + SCALE * margin
    ensures margin < 0 ==> SCALE * (full * margin) >= exact * margin > SCALE * (full * margin) + SCALE * margin
  {
    var u := exact - full * SCALE;
    assert u * margin == exact * margin - SCALE * (full * margin) by {
      assert full * SCALE * margin == SCALE * (full * margin);
    }
    if margin > 0 {
      assert u * margin >= 0;
      TimesStrict(u, SCALE, margin);
    } else if margin < 0 {
      assert u * -margin >= 0;
      TimesStrict(u, SCALE, -margin);
    }
  }

  /** x differs from entry price times ratio by a unit or two, and what the roundings add counts per unit of margin. */
  predicate NearMaintenance(entry: int, margin: int, mmr: int, x: int) {
    var full := Mul(entry, mmr);
    && (margin > 0 ==> (full - x - 1) * margin < SCALE && (x - full - 1) * margin < -entry)
    && (margin < 0 ==> (x - full - 2) * -margin < SCALE && (full - x) * -margin < -entry)
    && (margin == 0 ==> x == 0)
  }

  /**
   At a negative entry price, where the distance is not positive either, it stays near the entry price times the
   maintenance ratio.
   */
  lemma NegativeEntryDistance(entry: int, margin: int, mmr: int)
    requires entry < 0 && margin != 0 && mmr >= 0
    ensures NearMaintenance(entry, margin, mmr, LiquidationDistance(entry, margin, mmr))
  {
    var t, full := Mul(margin, mmr), Mul(entry, mmr);
    var p := Mul(entry, t);
    var x := Div(p, margin);
    MulIsFloor(margin, mmr);
    MulIsFloor(entry, t);
    MulIsFloor(entry, mmr);
    DivRemainder(p, margin);
    hide Mul;
    hide Div;
    TimesNegative(entry, margin, mmr, t);
    TimesMargin(entry * mmr, full, margin);
    Expand(full, x, margin);
    Expand(x, full, margin);
    ExpandNegative(full, x, margin);
  }

  lemma ExpandNegative(f: int, x: int, r: int)
    ensures (x - f - 2) * -r == f * r - x * r + 2 * r
    ensures (f - x) * -r == x * r - f * r
  {
  }

  /** Something of the maintenance part survives the rounding. */
  predicate HasDistance(entry: int, margin: int, mmr: int) {
    if margin >= 0 then margin * mmr >= SCALE else Mul(entry, Mul(margin, mmr)) * SCALE >= -margin
  }

  lemma NegativeEntryVanishes(entry: int, margin: int, mmr: int)
    requires entry < 0 && mmr >= 0
    ensures LiquidationDistance(entry, margin, mmr) < 0 <==> HasDistance(entry, margin, mmr)
  {
    var t := Mul(margin, mmr);
    var p := Mul(entry, t);
    MulIsFloor(margin, mmr);
    MulIsFloor(entry, t);
    DistanceSign(entry, margin, mmr);
    if margin != 0 {
      DivRemainder(p, margin);
      var x := Div(p, margin);
      hide Mul;
      hide Div;
      if margin > 0 {
        assert margin * mmr >= SCALE <==> t >= 1;
      }
    }
  }

  // ---------- Every entry price ----------

  /**
   At a non-negative entry price a long is liquidated at or below it and a short at or above it: never further off
   than the maintenance ratio, or, for a negative quantity, never closer. At a negative one the sides change over, and
   the distance stays near the maintenance ratio, unless the margin is zero and it vanishes.
   */
  lemma LiquidationPriceBounds(side: Side, entry: int, qty: int, leverage: int, mmr: int)
    requires leverage >= 1 && mmr >= 0
    ensures var liq := LiquidationPrice(side, entry, qty, leverage, mmr);
      var away := if side == Buy then entry - liq else liq - entry;
      && (entry >= 0 && qty >= 0 ==> 0 <= away <= Mul(entry, mmr))
      && (entry >= 0 && qty < 0 ==> 0 <= Mul(entry, mmr) <= away)
      && (entry < 0 ==> away <= 0 && NearMaintenance(entry, RequiredMargin(entry, qty, leverage), mmr, away))
  {
    var r := RequiredMargin(entry, qty, leverage);
    DistanceSign(entry, r, mmr);
    if entry >= 0 {
      MarginSign(entry, qty, leverage);
      MulSign(entry, mmr);
      if r > 0 {
        DistanceAtMost(entry, r, mmr);
      } else if r < 0 {
        DistanceAtLeast(entry, r, mmr);
      } else {
        assert LiquidationDistance(entry, r, mmr) == 0;
        assert entry == 0 ==> Mul(entry, mmr) == 0;
      }
    } else if r != 0 {
      NegativeEntryDistance(entry, r, mmr);
    } else {
      assert LiquidationDistance(entry, r, mmr) == 0;
    }
    hide Mul;
    hide RequiredMargin;
    hide LiquidationDistance;
  }

  // ---------- Which positions go ----------

  predicate ShouldLiquidate(p: Position, mark: int) {
    if p.side == Buy then mark <= p.liquidationPrice else mark >= p.liquidationPrice
  }

  predicate Goes(p: Position, symbol: string, mark: int) {
    p.symbol == symbol && ShouldLiquidate(p, mark)
  }

  /** The price was set from the position's own terms. */
  predicate Priced(p: Position, mmr: int) {
    p.liquidationPrice == LiquidationPrice(p.side, p.entryPrice, p.quantity, p.leverage, mmr)
  }

  /**
   Whether a position goes, against the loss its mark price means. Opened at a non-negative entry price it goes only
   at a loss: by the time the loss reaches the maintenance ratio for a non-negative quantity, and not before for a
   negative one. Opened at a negative entry price it goes at every loss.
   */
  lemma LiquidatedOnlyAtALoss(p: Position, mmr: int, mark: int)
    requires Priced(p, mmr) && p.leverage >= 1 && mmr >= 0
    ensures var loss := if p.side == Buy then p.entryPrice - mark else mark - p.entryPrice;
      var most := Mul(p.entryPrice, mmr);
      && (p.entryPrice >= 0 && ShouldLiquidate(p, mark) ==> loss >= 0)
      && (p.entryPrice >= 0 && p.quantity >= 0 && loss >= most ==> ShouldLiquidate(p, mark))
      && (p.entryPrice >= 0 && p.quantity < 0 && ShouldLiquidate(p, mark) ==> loss >= most)
      && (p.entryPrice < 0 && loss >= 0 ==> ShouldLiquidate(p, mark))
  {
    LiquidationPriceBounds(p.side, p.entryPrice, p.quantity, p.leverage, mmr);
    hide LiquidationPrice;
    hide Mul;
  }

  /** At some mark price the position goes although it has gained. */
  ghost predicate GoesAtAProfit(p: Position) {
    exists mark :: ShouldLiquidate(p, mark) && if p.side == Buy then mark > p.entryPrice else mark < p.entryPrice
  }

  /** That is so exactly at a negative entry price, when the maintenance part is not rounded away. */
  lemma GoesAtAProfitIff(p: Position, mmr: int)
    requires Priced(p, mmr) && p.leverage >= 1 && mmr >= 0
    ensures GoesAtAProfit(p) <==>
      p.entryPrice < 0 && HasDistance(p.entryPrice, RequiredMargin(p.entryPrice, p.quantity, p.leverage), mmr)
  {
    hide HasDistance;
    hide RequiredMargin;
    hide LiquidationDistance;
    var margin := RequiredMargin(p.entryPrice, p.quantity, p.leverage);
    DistanceSign(p.entryPrice, margin, mmr);
    if p.entryPrice < 0 {
      NegativeEntryVanishes(p.entryPrice, margin, mmr);
    }
    assert ShouldLiquidate(p, p.liquidationPrice);
  }

  function Liquidated(ps: seq<Position>, symbol: string, mark: int): seq<Position> {
    if ps == [] then []
    else Liquidated(ps[..|ps| - 1], symbol, mark) + if Goes(ps[|ps| - 1], symbol, mark) then [ps[|ps| - 1]] else []
  }

  function Kept(ps: seq<Position>, symbol: string, mark: int): seq<Position> {
    if ps == [] then []
    else Kept(ps[..|ps| - 1], symbol, mark) + if Goes(ps[|ps| - 1], symbol, mark) then [] else [ps[|ps| - 1]]
  }

  /** Two lists merged by telling, position by position, from which one the next element comes. */
  function Merge(fromFirst: seq<bool>, a: seq<Position>, b: seq<Position>): Option<seq<Position>> {
    var n := |fromFirst|;
    if n == 0 then (if a == [] && b == [] then Some([]) else None)
    else if fromFirst[n - 1] then
      if a == [] then None
      else match Merge(fromFirst[..n - 1], a[..|a| - 1], b)
           case Some(m) => Some(m + [a[|a| - 1]])
           case None => None
    else
      if b == [] then None
      else match Merge(fromFirst[..n - 1], a, b[..|b| - 1])
           case Some(m) => Some(m + [b[|b| - 1]])
           case None => None
  }

  function Choices(ps: seq<Position>, symbol: string, mark: int): seq<bool> {
    seq(|ps|, i requires 0 <= i < |ps| => Goes(ps[i], symbol, mark))
  }

  /** The liquidated and the kept, merged again, are the positions there were: none lost, doubled or moved. */
  lemma {:induction false} SplitMerges(ps: seq<Position>, symbol: string, mark: int)
    ensures Merge(Choices(ps, symbol, mark), Liquidated(ps, symbol, mark), Kept(ps, symbol, mark)) == Some(ps)
  {
    hide Merge;
    hide Goes;
    if ps == [] {
      MergeNothing(ps, symbol, mark);
    }
    if ps != [] {
      var n := |ps| - 1;
      SplitMerges(ps[..n], symbol, mark);
      var cs, a, b := Choices(ps[..n], symbol, mark), Liquidated(ps[..n], symbol, mark), Kept(ps[..n], symbol, mark);
      assert Choices(ps, symbol, mark) == cs + [Goes(ps[n], symbol, mark)];
      assert ps[..n] + [ps[n]] == ps;
      MergeOneMore(cs, a, b, ps[n]);
      assert a + [] == a && b + [] == b;
    }
  }

  lemma MergeNothing(ps: seq<Position>, symbol: string, mark: int)
    requires ps == []
    ensures Merge(Choices(ps, symbol, mark), [], []) == Some([])
  {
  }

  lemma MergeOneMore(cs: seq<bool>, a: seq<Position>, b: seq<Position>, p: Position)
    requires Merge(cs, a, b).Some?
    ensures Merge(cs + [true], a + [p], b) == Some(Merge(cs, a, b).value + [p])
    ensures Merge(cs + [false], a, b + [p]) == Some(Merge(cs, a, b).value + [p])
  {
    assert (cs + [true])[..|cs|] == cs && (cs + [false])[..|cs|] == cs;
    assert (a + [p])[..|a|] == a && (b + [p])[..|b|] == b;
  }

  /** A position of the symbol whose mark price has reached its liquidation price. */
  predicate Hit(p: Position, symbol: string, mark: int) {
    && p.symbol == symbol
    && (p.side == Buy ==> mark <= p.liquidationPrice)
    && (p.side == Sell ==> mark >= p.liquidationPrice)
  }

  /** Exactly the positions that are hit are liquidated, and exactly the others are kept. */
  lemma {:induction false} SplitByHit(ps: seq<Position>, symbol: string, mark: int)
    ensures forall p :: p in Liquidated(ps, symbol, mark) <==> p in ps && Hit(p, symbol, mark)
    ensures forall p :: p in Kept(ps, symbol, mark) <==> p in ps && !Hit(p, symbol, mark)
  {
    if ps != [] {
      var n := |ps| - 1;
      SplitByHit(ps[..n], symbol, mark);
      assert ps == ps[..n] + [ps[n]];
      assert Goes(ps[n], symbol, mark) <==> Hit(ps[n], symbol, mark);
    }
  }

  lemma {:induction false} KeptStays(ps: seq<Position>, symbol: string, mark: int)
    ensures forall i :: 0 <= i < |Kept(ps, symbol, mark)| ==> !Goes(Kept(ps, symbol, mark)[i], symbol, mark)
  {
    if ps != [] {
      KeptStays(ps[..|ps| - 1], symbol, mark);
    }
  }

  lemma {:induction false} NoneGoes(ps: seq<Position>, symbol: string, mark: int)
    requires forall i :: 0 <= i < |ps| ==> !Goes(ps[i], symbol, mark)
    ensures Liquidated(ps, symbol, mark) == [] && Kept(ps, symbol, mark) == ps
  {
    if ps != [] {
      NoneGoes(ps[..|ps| - 1], symbol, mark);
      assert ps[..|ps| - 1] + [ps[|ps| - 1]] == ps;
    }
  }

  /** At the same mark price a second scan finds nothing to liquidate and changes nothing. */
  lemma SecondScanIsIdle(ps: seq<Position>, symbol: string, mark: int)
    ensures var kept := Kept(ps, symbol, mark); Liquidated(kept, symbol, mark) == [] && Kept(kept, symbol, mark) == kept
  {
    KeptStays(ps, symbol, mark);
    NoneGoes(Kept(ps, symbol, mark), symbol, mark);
  }

  // ---------- All users ----------

  type Positions = map<string, seq<Position>>

  /** The liquidated positions of these users, one after another. */
  function Gather(users: seq<string>, book: Positions, symbol: string, mark: int): seq<Position>
    requires forall i :: 0 <= i < |users| ==> users[i] in book
  {
    if users == [] then []
    else Gather(users[..|users| - 1], book, symbol, mark) + Liquidated(book[users[|users| - 1]], symbol, mark)
  }

  function AfterScan(book: Positions, symbol: string, mark: int): Positions {
    map u | u in book :: Kept(book[u], symbol, mark)
  }

  /** In whatever order the users are visited, a second scan liquidates nobody and leaves all positions. */
  lemma {:induction false} SecondScanOfAll(users: seq<string>, book: Positions, symbol: string, mark: int)
    requires forall i :: 0 <= i < |users| ==> users[i] in book
    ensures AfterScan(AfterScan(book, symbol, mark), symbol, mark) == AfterScan(book, symbol, mark)
    ensures Gather(users, AfterScan(book, symbol, mark), symbol, mark) == []
  {
    forall u | u in book
      ensures Kept(Kept(book[u], symbol, mark), symbol, mark) == Kept(book[u], symbol, mark)
    {
      SecondScanIsIdle(book[u], symbol, mark);
    }
    if users != [] {
      SecondScanOfAll(users[..|users| - 1], book, symbol, mark);
      SecondScanIsIdle(book[users[|users| - 1]], symbol, mark);
    }
  }

  /** The users visited so far, each once, are exactly those not left to visit. */
  ghost predicate Visited(book: Positions, left: set<string>, visited: seq<string>) {
    && left <= book.Keys
    && (forall u :: u in book ==> (u in left <==> u !in visited))
    && (forall i :: 0 <= i < |visited| ==> visited[i] in book)
    && (forall i, j :: 0 <= i < j < |visited| ==> visited[i] != visited[j])
  }

  /** The scan has dealt with everybody who is not left to visit. */
  ghost predicate ScannedBut(left: set<string>, before: Positions, now: Positions, symbol: string, mark: int) {
    && now.Keys == before.Keys
    && forall u :: u in before ==> now[u] == if u in left then before[u] else Kept(before[u], symbol, mark)
  }

  lemma NothingScanned(before: Positions, symbol: string, mark: int)
    ensures ScannedBut(before.Keys, before, before, symbol, mark)
  {
  }

  lemma VisitOne(before: Positions, left: set<string>, visited: seq<string>, now: Positions, u: string,
                 symbol: string, mark: int)
    requires Visited(before, left, visited) && u in left && ScannedBut(left, before, now, symbol, mark)
    ensures u in now && now[u] == before[u]
    ensures Visited(before, left - {u}, visited + [u])
    ensures ScannedBut(left - {u}, before, now[u := Kept(before[u], symbol, mark)], symbol, mark)
    ensures Gather(visited + [u], before, symbol, mark) == Gather(visited, before, symbol, mark) +
      Liquidated(before[u], symbol, mark)
  {
    assert (visited + [u])[..|visited|] == visited;
  }

  lemma ScannedAll(before: Positions, now: Positions, symbol: string, mark: int)
    requires ScannedBut({}, before, now, symbol, mark)
    ensures now == AfterScan(before, symbol, mark)
  {
  }

  ghost predicate AllPriced(book: Positions, mmr: int) {
    forall u :: u in book ==> forall i :: 0 <= i < |book[u]| ==> Priced(book[u][i], mmr)
  }

  lemma {:induction false} KeptIsPriced(ps: seq<Position>, symbol: string, mark: int, mmr: int)
    requires forall i :: 0 <= i < |ps| ==> Priced(ps[i], mmr)
    ensures forall i :: 0 <= i < |Kept(ps, symbol, mark)| ==> Priced(Kept(ps, symbol, mark)[i], mmr)
  {
    hide Priced;
    if ps != [] {
      KeptIsPriced(ps[..|ps| - 1], symbol, mark, mmr);
    }
  }

  lemma ScanKeepsPriced(book: Positions, symbol: string, mark: int, mmr: int)
    requires AllPriced(book, mmr)
    ensures AllPriced(AfterScan(book, symbol, mark), mmr)
  {
    hide Priced;
    forall u | u in book
      ensures forall i :: 0 <= i < |Kept(book[u], symbol, mark)| ==> Priced(Kept(book[u], symbol, mark)[i], mmr)
    {
      KeptIsPriced(book[u], symbol, mark, mmr);
    }
  }

  // ---------- The engine ----------

  class MarginEngine {
    var positions: Positions
    var markPrices: map<string, int>
    const mmr: int

    constructor (mmr: int)
      ensures this.mmr == mmr && positions == map[] && markPrices == map[] && Valid()
    {
      this.mmr, positions, markPrices := mmr, map[], map[];
    }

    /** Every position carries the liquidation price of its own terms. */
    ghost predicate Valid()
      reads this
    {
      AllPriced(positions, mmr)
    }

    /** Append a position to its user's list; a leverage outside 1 to 125 is refused. */
    method OpenPosition(id: string, user: string, symbol: string, side: Side, quantity: int, entryPrice: int,
                        leverage: int)
      returns (p: Option<Position>)
      requires Valid()
      modifies this`positions
      ensures Valid()
      ensures p.Some? <==> 1 <= leverage <= 125
      ensures p.None? ==> positions == old(positions)
      ensures p.Some? ==>
        && p.value == Position(id, user, symbol, side, quantity, entryPrice, leverage,
                               LiquidationPrice(side, entryPrice, quantity, leverage, mmr))
        && positions == old(positions)[user := (if user in old(positions) then old(positions)[user] else []) +
          [p.value]]
    {
      hide LiquidationPrice;
      if leverage < 1 || leverage > 125 {
        return None;
      }
      var pos := Position(id, user, symbol, side, quantity, entryPrice, leverage, 0);
      pos := pos.(liquidationPrice := CalcLiquidationPrice(pos));
      var mine := if user in positions then positions[user] else [];
      positions := positions[user := mine + [pos]];
      return Some(pos);
    }

    function CalcLiquidationPrice(pos: Position): (liq: int)
      ensures liq == LiquidationPrice(pos.side, pos.entryPrice, pos.quantity, pos.leverage, mmr)
    {
      var requiredMargin := Div(Mul(pos.entryPrice, pos.quantity), FromInt(pos.leverage));
      var threshold := Mul(requiredMargin, mmr);
      if pos.side == Buy then pos.entryPrice - Div(Mul(pos.entryPrice, threshold), requiredMargin)
      else pos.entryPrice + Div(Mul(pos.entryPrice, threshold), requiredMargin)
    }

    method UpdateMarkPrice(symbol: string, price: int)
      modifies this`markPrices
      ensures markPrices == old(markPrices)[symbol := price]
    {
      markPrices := markPrices[symbol := price];
    }

    /** Split one user's positions, adding the liquidated ones to those found so far. */
    method ScanUser(mine: seq<Position>, symbol: string, mark: int, found: seq<Position>)
      returns (liquidated: seq<Position>, remaining: seq<Position>)
      ensures liquidated == found + Liquidated(mine, symbol, mark)
      ensures remaining == Kept(mine, symbol, mark)
    {
      liquidated, remaining := found, [];
      var i := 0;
      while i < |mine|
        invariant i <= |mine|
        invariant remaining == Kept(mine[..i], symbol, mark)
        invariant liquidated == found + Liquidated(mine[..i], symbol, mark)
      {
        assert mine[..i + 1][..i] == mine[..i];
        if mine[i].symbol != symbol {
          remaining := remaining + [mine[i]];
        } else if ShouldLiquidate(mine[i], mark) {
          liquidated := liquidated + [mine[i]];
        } else {
          remaining := remaining + [mine[i]];
        }
        i := i + 1;
      }
      assert mine[..i] == mine;
    }

    /** Scan every user's positions, in some order of the users; without a mark price nothing happens. */
    method CheckLiquidations(symbol: string) returns (liquidated: seq<Position>, ghost visited: seq<string>)
      requires Valid()
      modifies this`positions
      ensures Valid()
      ensures symbol !in markPrices ==> liquidated == [] && positions == old(positions)
      ensures symbol in markPrices ==>
        && (forall u :: u in old(positions) <==> u in visited)
        && (forall i, j :: 0 <= i < j < |visited| ==> visited[i] != visited[j])
        && positions == AfterScan(old(positions), symbol, markPrices[symbol])
        && liquidated == Gather(visited, old(positions), symbol, markPrices[symbol])
    {
      hide AllPriced;
      hide AfterScan;
      hide ScannedBut;
      hide Kept;
      hide Liquidated;
      liquidated, visited := [], [];
      if symbol !in markPrices {
        return;
      }
      var mark := markPrices[symbol];
      var users := positions.Keys;
      ghost var before := positions;
      NothingScanned(before, symbol, mark);
      while users != {}
        invariant Visited(before, users, visited)
        invariant ScannedBut(users, before, positions, symbol, mark)
        invariant liquidated == Gather(visited, before, symbol, mark)
        decreases |users|
      {
        var user :| user in users;
        VisitOne(before, users, visited, positions, user, symbol, mark);
        users := users - {user};
        var remaining;
        liquidated, remaining := ScanUser(positions[user], symbol, mark, liquidated);
        positions := positions[user := remaining];
        visited := visited + [user];
      }
      ScannedAll(before, positions, symbol, mark);
      ScanKeepsPriced(before, symbol, mark, mmr);
    }
  }
}
