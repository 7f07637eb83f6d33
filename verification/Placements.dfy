/** What the order service makes of the engine's answer, and of every failure on the way. */
module Placements {
  import opened Types
  import opened FlatBook
  import opened MatchingLaws
  import opened Histories
  import opened CommandLaws
  import opened Ledger
  import opened Validator
  import opened OrderFunds
  import DecimalText
  import Texts = DecimalTextLaws

  // ---------- What the engine's answer is told as ----------

  /** The order came to rest in the book. */
  predicate CameToRest(p: Placed) {
    p.leftover && p.order.status == Open
  }

  /**
   The status a user is told: rejected by the engine, filled, cancelled on entry, or open, partly filled or not. It is
   a final one exactly when the order is not resting in the book, so exactly the resting orders can be cancelled.
   */
  lemma StatusTold(b: Book, r: RequestView, id: string)
    requires BookOk(b) && TypeOf(r.typ).Some? && r.quantity > 0
    ensures var p := Place(b, OrderFor(r, id)); var s := StatusAfter(ReplyOf(p));
      && s == (if Unservable(b, OrderFor(r, id)) then Rejected
               else if p.order.filled == r.quantity then Filled
               else if r.tif == "IOC" then Cancelled
               else if p.order.filled == 0 then Open else PartiallyFilled)
      && (IsFinal(s) <==> !CameToRest(p))
  {
    hide Place;
    hide Unservable;
    hide Match;
    hide EligibleDepth;
    hide Volume;
    hide BookOk;
    hide FilledQty;
    hide TypeOf;
    var o := OrderFor(r, id);
    PlaceDecides(b, o);
    VolumeSign(b, r, id);
  }

  lemma VolumeSign(b: Book, r: RequestView, id: string)
    requires BookOk(b) && TypeOf(r.typ).Some? && r.quantity > 0
    ensures var p := Place(b, OrderFor(r, id)); p.matches == [] <==> p.order.filled == 0
  {
    hide Place;
    hide Match;
    hide Volume;
    hide TypeOf;
    var o := OrderFor(r, id);
    var ms := b.On(Opposite(o.side));
    PlaceDecides(b, o);
    SideRemaining(ms, Opposite(o.side));
    MatchTrades(b.symbol, o, ms);
    VolumePositive(Match(b.symbol, o, ms).trades);
    NoVolume();
  }

  lemma NoVolume()
    ensures Volume([]) == 0
  {
  }

  // ---------- Failures ----------

  /** The account has less than is to be frozen, or the database fails. */
  predicate CannotFreeze(a: Accounts, k: Key, frozen: int, f: Faults) {
    frozen != 0 && (f.freeze || k !in a || a[k].balance < frozen)
  }

  /** The answer names the first thing that fails, and if nothing does, what the engine made of the order. */
  lemma AnswerTold(a: Accounts, k: Key, r: RequestView, frozen: int, reply: Reply, f: Faults)
    ensures var res := PlaceResultOf(a, k, r, frozen, reply, f);
      && (res == FreezeFailed <==> CannotFreeze(a, k, frozen, f))
      && (res == PersistFailed <==> !CannotFreeze(a, k, frozen, f) && f.persist)
      && (res == EngineFailed <==> !CannotFreeze(a, k, frozen, f) && !f.persist && reply.EngineError?)
      && (res.Submitted? <==> !CannotFreeze(a, k, frozen, f) && !f.persist && reply.Answer?)
      && (res.Submitted? ==>
            && (reply.matches == [] ==> res.filled == 0)
            && (reply.matches != [] ==>
                  res.filled == r.quantity - if reply.leftover then reply.order.Remaining() else 0)
            && (reply.leftover && reply.order.status in {Cancelled, Rejected} ==> res.status == reply.order.status)
            && (!reply.leftover || reply.order.status !in {Cancelled, Rejected} ==>
                  res.status ==
                    if reply.matches == [] then Open
                    else if reply.leftover && reply.order.status in {Created, Open, PartiallyFilled} then
                      PartiallyFilled
                    else Filled))
  {
  }

  /** When an accepted request does not reach the engine, and its release does not fail, no account has changed. */
  lemma FailureRestores(a: Accounts, k: Key, r: RequestView, frozen: int, reply: Reply, f: Faults)
    requires frozen >= 0 && (k in a ==> a[k].frozen >= 0)
    requires !PlaceResultOf(a, k, r, frozen, reply, f).Submitted? && !f.release
    ensures RowsAfter(a, k, r, frozen, reply, f) == a
  {
    hide Release;
    hide FreezeFor;
    hide Freeze;
    if frozen == 0 {
      NothingMoved(a, k);
    } else if CanFreeze(a, k, frozen) {
      TwoReleasesUndoFreeze(a, k, frozen, 0);
      NothingMoved(Release(FreezeFor(a, k, frozen), k, frozen), k);
    }
  }

  lemma NothingMoved(a: Accounts, k: Key)
    ensures FreezeFor(a, k, 0) == a && Release(a, k, 0) == a
  {
  }

  /** A request that reached the engine has its freeze, less what its fill or its end released, if that did not fail. */
  lemma SuccessFreezes(a: Accounts, k: Key, r: RequestView, frozen: int, reply: Reply, f: Faults)
    requires PlaceResultOf(a, k, r, frozen, reply, f).Submitted? && frozen > 0
    ensures k in a && a[k].balance >= frozen
    ensures var x := ReleaseAtPlace(r, frozen, reply);
      var kept := if f.release || x > a[k].frozen + frozen then frozen else frozen - x;
      RowsAfter(a, k, r, frozen, reply, f) ==
        a[k := a[k].(balance := a[k].balance - kept, frozen := a[k].frozen + kept)]
  {
    hide ReleaseAfter;
    hide FilledQty;
    hide StatusAfter;
  }

  /** Exactly a request whose order was stored has a row, and no other row changes. */
  lemma RowTold(orders: map<string, StoredOrder>, a: Accounts, k: Key, r: RequestView, id: string, frozen: int,
                reply: Reply, f: Faults)
    ensures var after, res := OrdersAfter(orders, a, k, r, id, frozen, reply, f),
                              PlaceResultOf(a, k, r, frozen, reply, f);
      && (forall x :: x != id ==> (x in after <==> x in orders) && (x in orders ==> after[x] == orders[x]))
      && (res == FreezeFailed || res == PersistFailed ==> after == orders)
      && (res == EngineFailed || res.Submitted? ==>
            && id in after && after[id].user == r.user && after[id].symbol == r.symbol
            && after[id].side == r.side && after[id].typ == r.typ
            && DecimalText.Parse(after[id].price) == Some(r.price)
            && DecimalText.Parse(after[id].quantity) == Some(r.quantity)
            && after[id].status ==
                 (if f.update then Created else if res == EngineFailed then Rejected else res.status)
            && (f.update ==> !IsFinal(after[id].status))
            && DecimalText.Parse(after[id].filledQty) ==
                 Some(if f.update || res == EngineFailed then 0 else res.filled))
  {
    hide DecimalText.Parse;
    hide DecimalText.Print;
    hide Stored;
    hide StatusAfter;
    hide FilledQty;
    StoredRoundTrip(r.price);
    StoredRoundTrip(r.quantity);
    StoredZero();
    StoredRoundTrip(0);
    if reply.Answer? {
      StoredRoundTrip(FilledQty(r, reply));
    }
  }

  lemma StoredZero()
    ensures DecimalText.Parse(Stored("0")) == Some(0)
  {
    hide ColumnText;
    Texts.TrimNothing("0");
    Texts.ReadWhole("0");
    assert "0"[..0] == "";
    assert DecimalText.Parse("0") == Some(0);
    ColumnRoundTrip(0);
  }
}
