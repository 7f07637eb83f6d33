/** A side of the book grouped by price, as values: how grouped lists relate to the flat list they stand for. */
module Levels {
  import opened Types
  import opened FlatBook
  import opened MatchingLaws

  /** The levels' orders, best level first. */
  function Flatten(views: seq<seq<OrderView>>): seq<OrderView> {
    if views == [] then [] else views[0] + Flatten(views[1..])
  }

  lemma {:induction false} FlattenConcat(a: seq<seq<OrderView>>, b: seq<seq<OrderView>>)
    ensures Flatten(a + b) == Flatten(a) + Flatten(b)
  {
    if a == [] {
      assert a + b == b;
    } else {
      assert (a + b)[1..] == a[1..] + b;
      FlattenConcat(a[1..], b);
    }
  }

  /** The flat list around level i. */
  lemma FlattenAround(views: seq<seq<OrderView>>, i: nat)
    requires i < |views|
    ensures Flatten(views) == Flatten(views[..i]) + views[i] + Flatten(views[i + 1..])
  {
    assert views == views[..i] + views[i..];
    FlattenConcat(views[..i], views[i..]);
    assert views[i..][1..] == views[i + 1..];
  }

  lemma FlattenUpdate(views: seq<seq<OrderView>>, i: nat, v: seq<OrderView>)
    requires i < |views|
    ensures Flatten(views[i := v]) == Flatten(views[..i]) + v + Flatten(views[i + 1..])
  {
    FlattenAround(views[i := v], i);
    assert views[i := v][..i] == views[..i] && views[i := v][i + 1..] == views[i + 1..];
  }

  lemma FlattenDelete(views: seq<seq<OrderView>>, i: nat)
    requires i < |views|
    ensures Flatten(Delete(views, i)) == Flatten(views[..i]) + Flatten(views[i + 1..])
  {
    FlattenConcat(views[..i], views[i + 1..]);
  }

  /** Every level is non-empty and of one side and price, and the prices get strictly worse. */
  ghost predicate LevelsOk(prices: seq<int>, side: Side, views: seq<seq<OrderView>>) {
    && |prices| == |views|
    && (forall i :: 0 <= i < |views| ==> views[i] != [])
    && (forall i, k :: 0 <= i < |views| && 0 <= k < |views[i]| ==>
          views[i][k].price == prices[i] && views[i][k].side == side)
    && (forall i, j :: 0 <= i < j < |prices| ==> Better(side, prices[i], prices[j]))
  }

  lemma LevelFilled(prices: seq<int>, side: Side, views: seq<seq<OrderView>>, i: nat)
    requires LevelsOk(prices, side, views) && i < |views|
    ensures views[i] != []
  {
  }

  // ---------- Filling the front order ----------

  lemma FlattenFront(views: seq<seq<OrderView>>)
    requires views != [] && views[0] != []
    ensures Flatten(views) != [] && Flatten(views)[0] == views[0][0]
  {
  }

  /** What is left of a level after its first order is filled by q. */
  function FillLevel(v: seq<OrderView>, q: int): seq<OrderView>
    requires v != []
  {
    var m := Fill(v[0], q);
    if m.Remaining() > 0 then v[0 := m] else Delete(v, 0)
  }

  /** Drop level i when it is empty. */
  function DropEmptyAt<T>(s: seq<T>, i: nat, empty: bool): seq<T>
    requires i < |s|
  {
    if empty then Delete(s, i) else s
  }

  lemma SetFirst(v: seq<OrderView>, m: OrderView)
    requires v != []
    ensures v[0 := m] == [m] + v[1..]
  {
  }

  lemma DeleteFirst(v: seq<OrderView>)
    requires v != []
    ensures Delete(v, 0) == v[1..]
  {
  }

  lemma AfterFillLevel(v: seq<OrderView>, rest: seq<OrderView>, q: int)
    requires v != []
    ensures AfterFill(v + rest, q) == FillLevel(v, q) + rest
  {
    hide Fill;
    var m := Fill(v[0], q);
    assert (v + rest)[0] == v[0] && (v + rest)[1..] == v[1..] + rest;
    if m.Remaining() > 0 {
      SetFirst(v, m);
    } else {
      DeleteFirst(v);
    }
  }

  lemma FillLevelFlat(views: seq<seq<OrderView>>, q: int)
    requires views != [] && views[0] != []
    ensures var vs := views[0 := FillLevel(views[0], q)];
      Flatten(DropEmptyAt(vs, 0, vs[0] == [])) == AfterFill(Flatten(views), q)
  {
    AfterFillLevel(views[0], Flatten(views[1..]), q);
    hide AfterFill;
    hide FillLevel;
    DropFlat(views, 0, FillLevel(views[0], q));
    assert Flatten(views[..0]) == [];
  }

  lemma FillLevelOk(prices: seq<int>, side: Side, views: seq<seq<OrderView>>, q: int)
    requires LevelsOk(prices, side, views) && views != []
    ensures var vs := views[0 := FillLevel(views[0], q)];
      LevelsOk(DropEmptyAt(prices, 0, vs[0] == []), side, DropEmptyAt(vs, 0, vs[0] == []))
  {
    var vs := views[0 := FillLevel(views[0], q)];
    if vs[0] == [] {
      assert Delete(vs, 0) == Delete(views, 0);
      DeleteLevelOk(prices, side, views, 0);
    }
  }

  lemma DeleteLevelOk(prices: seq<int>, side: Side, views: seq<seq<OrderView>>, i: nat)
    requires LevelsOk(prices, side, views) && i < |views|
    ensures LevelsOk(Delete(prices, i), side, Delete(views, i))
  {
    var ps, vs := Delete(prices, i), Delete(views, i);
    assert forall j :: 0 <= j < |ps| ==>
      && ps[j] == prices[if j < i then j else j + 1]
      && vs[j] == views[if j < i then j else j + 1];
  }

  // ---------- Cancelling ----------

  lemma {:induction false} FindConcat(a: seq<OrderView>, b: seq<OrderView>, id: string)
    ensures Find(a + b, id) == if Find(a, id) < |a| then Find(a, id) else |a| + Find(b, id)
  {
    if a == [] {
      assert a + b == b;
    } else {
      assert (a + b)[1..] == a[1..] + b;
      FindConcat(a[1..], b, id);
    }
  }

  lemma DeleteMiddle(a: seq<OrderView>, v: seq<OrderView>, c: seq<OrderView>, k: nat)
    requires k < |v|
    ensures Delete(a + v + c, |a| + k) == a + Delete(v, k) + c
  {
  }

  /** The levels after the first order with this identifier is taken out of level i. */
  function Without(views: seq<seq<OrderView>>, i: nat, id: string): seq<seq<OrderView>>
    requires i < |views| && Find(views[i], id) < |views[i]|
  {
    views[i := Delete(views[i], Find(views[i], id))]
  }

  /** When no earlier level has the order, its place in the flat list follows from its place in its level. */
  lemma FindInLevel(views: seq<seq<OrderView>>, i: nat, id: string)
    requires i < |views| && Find(views[i], id) < |views[i]|
    requires Find(Flatten(views[..i]), id) == |Flatten(views[..i])|
    ensures Find(Flatten(views), id) == |Flatten(views[..i])| + Find(views[i], id)
  {
    FlattenAround(views, i);
    FindConcat(Flatten(views[..i]) + views[i], Flatten(views[i + 1..]), id);
    FindConcat(Flatten(views[..i]), views[i], id);
  }

  lemma DropFlat(views: seq<seq<OrderView>>, i: nat, v: seq<OrderView>)
    requires i < |views|
    ensures Flatten(DropEmptyAt(views[i := v], i, v == [])) == Flatten(views[..i]) + v + Flatten(views[i + 1..])
  {
    FlattenUpdate(views, i, v);
    if v == [] {
      assert Delete(views[i := v], i) == Delete(views, i);
      FlattenDelete(views, i);
    }
  }

  /** Taking the order out of its level deletes its first occurrence from the flat list. */
  lemma WithoutFlat(views: seq<seq<OrderView>>, i: nat, id: string)
    requires i < |views| && Find(views[i], id) < |views[i]|
    requires Find(Flatten(views[..i]), id) == |Flatten(views[..i])|
    ensures var vs, n := Without(views, i, id), Find(Flatten(views), id);
      && n < |Flatten(views)| && Flatten(views)[n] == views[i][Find(views[i], id)]
      && Flatten(DropEmptyAt(vs, i, vs[i] == [])) == Delete(Flatten(views), n)
  {
    hide Flatten;
    hide Find;
    hide Delete;
    hide DropEmptyAt;
    var k := Find(views[i], id);
    FindInLevel(views, i, id);
    FlattenAround(views, i);
    DeleteMiddle(Flatten(views[..i]), views[i], Flatten(views[i + 1..]), k);
    DropFlat(views, i, Delete(views[i], k));
  }

  lemma WithoutOk(prices: seq<int>, side: Side, views: seq<seq<OrderView>>, i: nat, id: string)
    requires LevelsOk(prices, side, views)
    requires i < |views| && Find(views[i], id) < |views[i]|
    ensures var vs := Without(views, i, id);
      LevelsOk(DropEmptyAt(prices, i, vs[i] == []), side, DropEmptyAt(vs, i, vs[i] == []))
  {
    var vs := Without(views, i, id);
    if vs[i] == [] {
      assert Delete(vs, i) == Delete(views, i);
      DeleteLevelOk(prices, side, views, i);
    }
  }

  lemma FindNothing(views: seq<seq<OrderView>>, id: string)
    ensures Find(Flatten(views[..0]), id) == |Flatten(views[..0])|
  {
  }

  lemma FindNextLevel(views: seq<seq<OrderView>>, i: nat, id: string)
    requires i < |views| && Find(views[i], id) == |views[i]|
    requires Find(Flatten(views[..i]), id) == |Flatten(views[..i])|
    ensures Find(Flatten(views[..i + 1]), id) == |Flatten(views[..i + 1])|
  {
    assert views[..i + 1] == views[..i] + [views[i]];
    FlattenConcat(views[..i], [views[i]]);
    assert Flatten([views[i]]) == views[i];
    FindConcat(Flatten(views[..i]), views[i], id);
  }

  /** What searching level i for an order means for the whole side, the better levels having been searched in vain. */
  lemma SearchedLevel(prices: seq<int>, side: Side, views: seq<seq<OrderView>>, i: nat, id: string)
    requires LevelsOk(prices, side, views) && i < |views|
    requires Find(Flatten(views[..i]), id) == |Flatten(views[..i])|
    ensures var v, ms := views[i], Flatten(views); var k, n := Find(v, id), Find(ms, id);
      if k == |v| then Find(Flatten(views[..i + 1]), id) == |Flatten(views[..i + 1])|
      else
        var vs := views[i := Delete(v, k)];
        && n < |ms| && ms[n] == v[k]
        && Flatten(DropEmptyAt(vs, i, vs[i] == [])) == Delete(ms, n)
        && LevelsOk(DropEmptyAt(prices, i, vs[i] == []), side, DropEmptyAt(vs, i, vs[i] == []))
  {
    if Find(views[i], id) == |views[i]| {
      FindNextLevel(views, i, id);
    } else {
      WithoutFlat(views, i, id);
      WithoutOk(prices, side, views, i, id);
    }
  }

  // ---------- Coming to rest ----------

  /** The levels after an order joins level i, or a new level in front of it. */
  function InsertOrder(views: seq<seq<OrderView>>, i: nat, joins: bool, o: OrderView): seq<seq<OrderView>>
    requires i <= |views| && (joins ==> i < |views|)
  {
    if joins then views[i := views[i] + [o]] else views[..i] + [[o]] + views[i..]
  }

  /** Orders at least as good as o are passed over. */
  lemma {:induction false} InsertAfter(a: seq<OrderView>, b: seq<OrderView>, o: OrderView)
    requires forall k :: 0 <= k < |a| ==> !Better(o.side, o.price, a[k].price)
    ensures Insert(a + b, o) == a + Insert(b, o)
  {
    if a == [] {
      assert a + b == b;
    } else {
      assert (a + b)[1..] == a[1..] + b;
      InsertAfter(a[1..], b, o);
    }
  }

  lemma {:induction false} FlattenPassed(prices: seq<int>, side: Side, views: seq<seq<OrderView>>, p: int)
    requires LevelsOk(prices, side, views)
    requires forall j :: 0 <= j < |prices| ==> !Better(side, p, prices[j])
    ensures forall k :: 0 <= k < |Flatten(views)| ==> !Better(side, p, Flatten(views)[k].price)
  {
    if views != [] {
      assert LevelsOk(prices[1..], side, views[1..]);
      FlattenPassed(prices[1..], side, views[1..], p);
    }
  }

  lemma LevelsSlice(prices: seq<int>, side: Side, views: seq<seq<OrderView>>, i: nat)
    requires LevelsOk(prices, side, views) && i <= |views|
    ensures LevelsOk(prices[..i], side, views[..i])
  {
  }

  /** The flat list's scan stops where the levels up to n end. */
  lemma InsertBetween(prices: seq<int>, views: seq<seq<OrderView>>, n: nat, o: OrderView)
    requires LevelsOk(prices, o.side, views) && n <= |views|
    requires forall j :: 0 <= j < n ==> !Better(o.side, o.price, prices[j])
    requires n < |views| ==> Better(o.side, o.price, prices[n])
    ensures Insert(Flatten(views), o) == Flatten(views[..n]) + ([o] + Flatten(views[n..]))
  {
    LevelsSlice(prices, o.side, views, n);
    FlattenPassed(prices[..n], o.side, views[..n], o.price);
    assert views == views[..n] + views[n..];
    FlattenConcat(views[..n], views[n..]);
    InsertAfter(Flatten(views[..n]), Flatten(views[n..]), o);
    if n < |views| {
      FlattenFront(views[n..]);
    }
  }

  lemma FlattenJoin(views: seq<seq<OrderView>>, i: nat, o: OrderView)
    requires i < |views|
    ensures Flatten(views[i := views[i] + [o]]) == Flatten(views[..i + 1]) + ([o] + Flatten(views[i + 1..]))
  {
    FlattenUpdate(views, i, views[i] + [o]);
    FlattenAround(views[..i + 1], i);
    assert views[..i + 1][..i] == views[..i];
  }

  lemma FlattenNew(views: seq<seq<OrderView>>, i: nat, o: OrderView)
    requires i <= |views|
    ensures Flatten(views[..i] + [[o]] + views[i..]) == Flatten(views[..i]) + ([o] + Flatten(views[i..]))
  {
    assert views[..i] + [[o]] + views[i..] == views[..i] + ([[o]] + views[i..]);
    FlattenConcat(views[..i], [[o]] + views[i..]);
    assert ([[o]] + views[i..])[1..] == views[i..];
  }

  /** Where the levels' search puts an order is where the flat list's scan puts it. */
  lemma InsertOrderFlat(prices: seq<int>, views: seq<seq<OrderView>>, i: nat, joins: bool, o: OrderView)
    requires LevelsOk(prices, o.side, views) && i <= |views|
    requires forall j :: 0 <= j < i ==> Better(o.side, prices[j], o.price)
    requires joins ==> i < |views| && prices[i] == o.price
    requires !joins && i < |views| ==> Better(o.side, o.price, prices[i])
    ensures Flatten(InsertOrder(views, i, joins, o)) == Insert(Flatten(views), o)
  {
    if joins {
      InsertBetween(prices, views, i + 1, o);
      FlattenJoin(views, i, o);
    } else {
      InsertBetween(prices, views, i, o);
      FlattenNew(views, i, o);
    }
  }

  lemma InsertOrderOk(prices: seq<int>, views: seq<seq<OrderView>>, i: nat, joins: bool, o: OrderView)
    requires LevelsOk(prices, o.side, views) && i <= |views|
    requires forall j :: 0 <= j < i ==> Better(o.side, prices[j], o.price)
    requires joins ==> i < |views| && prices[i] == o.price
    requires !joins ==> forall j :: i <= j < |views| ==> Better(o.side, o.price, prices[j])
    ensures LevelsOk(if joins then prices else prices[..i] + [o.price] + prices[i..], o.side,
      InsertOrder(views, i, joins, o))
  {
  }

  // ---------- The fill-or-kill pre-check ----------

  /** The depth of the first n levels. */
  function CoverUpTo(views: seq<seq<OrderView>>, n: nat): int
    requires n <= |views|
  {
    if n == 0 then 0 else CoverUpTo(views, n - 1) + Depth(views[n - 1])
  }

  lemma {:induction false} EligibleConcat(t: OrderView, a: seq<OrderView>, b: seq<OrderView>)
    ensures EligibleDepth(t, a + b) == EligibleDepth(t, a) + EligibleDepth(t, b)
  {
    if a == [] {
      assert a + b == b;
    } else {
      assert (a + b)[1..] == a[1..] + b;
      EligibleConcat(t, a[1..], b);
    }
  }

  lemma {:induction false} EligibleLevel(t: OrderView, v: seq<OrderView>, p: int)
    requires forall k :: 0 <= k < |v| ==> v[k].price == p
    ensures EligibleDepth(t, v) == if Crosses(t, p) then Depth(v) else 0
  {
    if v != [] {
      EligibleLevel(t, v[1..], p);
    }
  }

  lemma {:induction false} EligibleUpTo(prices: seq<int>, side: Side, views: seq<seq<OrderView>>, t: OrderView, n: nat)
    requires LevelsOk(prices, side, views) && n <= |views|
    requires forall j :: 0 <= j < n ==> Crosses(t, prices[j])
    ensures EligibleDepth(t, Flatten(views[..n])) == CoverUpTo(views, n)
  {
    if n > 0 {
      EligibleUpTo(prices, side, views, t, n - 1);
      assert views[..n] == views[..n - 1] + [views[n - 1]];
      FlattenConcat(views[..n - 1], [views[n - 1]]);
      assert Flatten([views[n - 1]]) == views[n - 1];
      EligibleConcat(t, Flatten(views[..n - 1]), views[n - 1]);
      EligibleLevel(t, views[n - 1], prices[n - 1]);
    }
  }

  /** The levels' running total, stopped at the first refusal or once it suffices, decides as the flat list does. */
  lemma CoverDecides(prices: seq<int>, side: Side, views: seq<seq<OrderView>>, t: OrderView, n: nat, covered: bool)
    requires LevelsOk(prices, side, views) && n <= |views| && side == Opposite(t.side)
    requires SideOk(Flatten(views), side)
    requires forall j :: 0 <= j < n ==> Crosses(t, prices[j])
    requires if covered then n > 0 && CoverUpTo(views, n) >= t.quantity
      else (n > 0 ==> CoverUpTo(views, n) < t.quantity) && (n < |views| ==> !Crosses(t, prices[n]))
    ensures var ms := Flatten(views);
      covered <==> ms != [] && Crosses(t, ms[0].price) && EligibleDepth(t, ms) >= t.quantity
  {
    var a, b := Flatten(views[..n]), Flatten(views[n..]);
    assert views == views[..n] + views[n..];
    FlattenConcat(views[..n], views[n..]);
    EligibleConcat(t, a, b);
    EligibleUpTo(prices, side, views, t, n);
    SuffixOk(a, b, side);
    if n < |views| {
      FlattenFront(views[n..]);
    }
    if views != [] {
      FlattenFront(views);
    }
    hide SideOk;
    hide Flatten;
    hide EligibleDepth;
    if n < |views| && !covered {
      RefusedTail(t, b);
    }
  }

  lemma SuffixOk(a: seq<OrderView>, b: seq<OrderView>, side: Side)
    requires SideOk(a + b, side)
    ensures SideOk(b, side)
    ensures forall t :: EligibleDepth(t, b) >= 0
  {
    assert forall i :: 0 <= i < |b| ==> b[i] == (a + b)[|a| + i];
    forall t
      ensures EligibleDepth(t, b) >= 0
    {
      EligibleNonNegative(t, b);
    }
  }
}
