/** Withdrawal limits with a daily tracker that is reset, for everybody, more than a day after its last reset. */
module WithdrawalLimits {
  import opened Types
  import Decimal

  /** Twenty-four hours in nanoseconds. */
  const DAY: int := 86_400_000_000_000

  datatype Limits = Limits(minAmount: map<string, int>, maxSingle: map<string, int>, maxDaily: map<string, int>)

  datatype Request = Request(user: string, currency: string, amount: int, now: int)

  datatype State = State(tracker: map<string, int>, lastReset: int)

  function KeyOf(user: string, currency: string): string {
    user + ":" + currency
  }

  function Used(s: State, key: string): int {
    if key in s.tracker then s.tracker[key] else 0
  }

  predicate DueForReset(s: State, now: int) {
    now - s.lastReset > DAY
  }

  function Refreshed(s: State, now: int): State {
    if DueForReset(s, now) then State(map[], now) else s
  }

  /** Within the limits that exist for the currency, given the day's tracker. */
  predicate Within(l: Limits, s: State, q: Request) {
    && (q.currency in l.minAmount ==> q.amount >= l.minAmount[q.currency])
    && (q.currency in l.maxSingle ==> q.amount <= l.maxSingle[q.currency])
    && (q.currency in l.maxDaily ==> Used(s, KeyOf(q.user, q.currency)) + q.amount <= l.maxDaily[q.currency])
  }

  predicate Accepts(l: Limits, s: State, q: Request) {
    Within(l, Refreshed(s, q.now), q)
  }

  function Step(l: Limits, s: State, q: Request): State {
    var t, k := Refreshed(s, q.now), KeyOf(q.user, q.currency);
    if Within(l, t, q) then t.(tracker := t.tracker[k := Used(t, k) + q.amount]) else t
  }

  // ---------- Histories ----------

  function Run(l: Limits, s: State, qs: seq<Request>): State {
    if qs == [] then s else Step(l, Run(l, s, qs[..|qs| - 1]), qs[|qs| - 1])
  }

  predicate Accepted(l: Limits, s: State, qs: seq<Request>, k: nat)
    requires k < |qs|
  {
    Accepts(l, Run(l, s, qs[..k]), qs[k])
  }

  /** What the user got accepted in the currency by requests i to j - 1. */
  function AcceptedSum(l: Limits, s: State, qs: seq<Request>, i: nat, j: nat, user: string, currency: string): int
    requires i <= j <= |qs|
    decreases j
  {
    if i == j then 0
    else AcceptedSum(l, s, qs, i, j - 1, user, currency) +
         if qs[j - 1].user == user && qs[j - 1].currency == currency && Accepted(l, s, qs, j - 1) then
           qs[j - 1].amount
         else 0
  }

  /** The last request, among the first j, that found the tracker due for a reset; or 0. */
  function LastResetAt(l: Limits, s: State, qs: seq<Request>, j: nat): (i: nat)
    requires j <= |qs|
    ensures i <= j
  {
    if j == 0 then 0
    else if DueForReset(Run(l, s, qs[..j - 1]), qs[j - 1].now) then j - 1
    else LastResetAt(l, s, qs, j - 1)
  }

  predicate Plain(name: string) {
    forall i :: 0 <= i < |name| ==> name[i] != ':'
  }

  ghost predicate PlainUsers(qs: seq<Request>) {
    forall i :: 0 <= i < |qs| ==> Plain(qs[i].user)
  }

  ghost predicate Ordered(qs: seq<Request>) {
    forall i, j :: 0 <= i <= j < |qs| ==> qs[i].now <= qs[j].now
  }

  /** Users without a colon never share a tracker entry. */
  lemma KeysDiffer(u: string, c: string, v: string, d: string)
    requires Plain(u) && Plain(v) && KeyOf(u, c) == KeyOf(v, d)
    ensures u == v && c == d
  {
    var k := KeyOf(u, c);
    assert k[|u|] == ':' && k[|v|] == ':';
    assert forall i :: 0 <= i < |u| ==> k[i] == u[i];
    assert forall i :: 0 <= i < |v| ==> k[i] == v[i];
    assert |u| == |v|;
    assert u == k[..|u|] == v;
    assert c == k[|u| + 1..] == d;
  }

  lemma RunOneMore(l: Limits, s: State, qs: seq<Request>, j: nat)
    requires j < |qs|
    ensures Run(l, s, qs[..j + 1]) == Step(l, Run(l, s, qs[..j]), qs[j])
  {
    assert qs[..j + 1][..j] == qs[..j];
  }

  /** One request moves the tracker entry of its own user and currency only. */
  lemma StepUsed(l: Limits, s: State, q: Request, user: string, currency: string)
    requires Plain(q.user) && Plain(user)
    ensures Used(Step(l, s, q), KeyOf(user, currency)) ==
      Used(Refreshed(s, q.now), KeyOf(user, currency))
      + if q.user == user && q.currency == currency && Accepts(l, s, q) then q.amount else 0
  {
    hide KeyOf;
    hide Within;
    hide Plain;
    if KeyOf(q.user, q.currency) == KeyOf(user, currency) {
      KeysDiffer(q.user, q.currency, user, currency);
    }
  }

  // ---------- The tracker is the sum since the last reset ----------

  lemma {:induction false} TrackerIsSum(l: Limits, t0: int, qs: seq<Request>, j: nat, user: string, currency: string)
    requires j <= |qs| && PlainUsers(qs) && Plain(user)
    ensures var s := State(map[], t0);
      Used(Run(l, s, qs[..j]), KeyOf(user, currency)) ==
        AcceptedSum(l, s, qs, LastResetAt(l, s, qs, j), j, user, currency)
  {
    var s := State(map[], t0);
    hide Plain;
    hide Step;
    hide KeyOf;
    hide Accepts;
    if j == 0 {
      assert qs[..0] == [];
    } else {
      TrackerIsSum(l, t0, qs, j - 1, user, currency);
      RunOneMore(l, s, qs, j - 1);
      StepUsed(l, Run(l, s, qs[..j - 1]), qs[j - 1], user, currency);
    }
  }

  /**
   A request is accepted exactly when its amount keeps to the smallest and largest single amount, and with it what its
   user got accepted in its currency since the last reset keeps to the daily limit, as far as there are such limits.
   */
  lemma AcceptedIff(l: Limits, t0: int, qs: seq<Request>, k: nat)
    requires k < |qs| && PlainUsers(qs)
    ensures var q, s := qs[k], State(map[], t0);
      Accepted(l, s, qs, k) <==>
        && (q.currency in l.minAmount ==> l.minAmount[q.currency] <= q.amount)
        && (q.currency in l.maxSingle ==> q.amount <= l.maxSingle[q.currency])
        && (q.currency in l.maxDaily ==>
              AcceptedSum(l, s, qs, LastResetAt(l, s, qs, k + 1), k, q.user, q.currency) + q.amount
              <= l.maxDaily[q.currency])
  {
    hide KeyOf;
    hide Run;
    hide Plain;
    TrackerIsSum(l, t0, qs, k, qs[k].user, qs[k].currency);
  }

  // ---------- The rolling bound ----------

  /** The currency has a daily limit, and its smallest amount is not negative. */
  predicate Limited(l: Limits, currency: string) {
    currency in l.maxDaily && l.maxDaily[currency] >= 0 && currency in l.minAmount && l.minAmount[currency] >= 0
  }

  lemma StepWithin(l: Limits, s: State, q: Request, user: string, currency: string)
    requires Plain(q.user) && Plain(user) && Limited(l, currency)
    requires 0 <= Used(s, KeyOf(user, currency)) <= l.maxDaily[currency]
    ensures 0 <= Used(Step(l, s, q), KeyOf(user, currency)) <= l.maxDaily[currency]
  {
    hide KeyOf;
    hide Plain;
    StepUsed(l, s, q, user, currency);
  }

  lemma {:induction false} NeverOverDaily(l: Limits, t0: int, qs: seq<Request>, j: nat, user: string, currency: string)
    requires j <= |qs| && PlainUsers(qs) && Plain(user) && Limited(l, currency)
    ensures 0 <= Used(Run(l, State(map[], t0), qs[..j]), KeyOf(user, currency)) <= l.maxDaily[currency]
  {
    hide Step;
    hide KeyOf;
    hide Plain;
    if j > 0 {
      NeverOverDaily(l, t0, qs, j - 1, user, currency);
      RunOneMore(l, State(map[], t0), qs, j - 1);
      StepWithin(l, Run(l, State(map[], t0), qs[..j - 1]), qs[j - 1], user, currency);
    } else {
      assert qs[..0] == [];
    }
  }

  lemma StepReset(l: Limits, s: State, q: Request)
    ensures Step(l, s, q).lastReset == if DueForReset(s, q.now) then q.now else s.lastReset
  {
  }

  /**
   The window's sum is covered by the tracker, plus one daily limit once the tracker has been reset within the
   window.
   */
  lemma {:induction false} WindowCovered(l: Limits, t0: int, qs: seq<Request>, i: nat, j: nat, user: string,
                                         currency: string)
    requires i < j <= |qs| && PlainUsers(qs) && Plain(user) && Limited(l, currency) && Ordered(qs)
    requires qs[j - 1].now - qs[i].now <= DAY
    ensures var s := State(map[], t0);
      var a, b := Run(l, s, qs[..i]), Run(l, s, qs[..j]);
      var spent, used := AcceptedSum(l, s, qs, i, j, user, currency), Used(b, KeyOf(user, currency));
      if b.lastReset == a.lastReset then spent <= used
      else b.lastReset >= qs[i].now && spent <= used + l.maxDaily[currency]
    decreases j
  {
    var s := State(map[], t0);
    hide Step;
    hide KeyOf;
    hide Plain;
    hide Run;
    hide Accepts;
    var c, q := Run(l, s, qs[..j - 1]), qs[j - 1];
    RunOneMore(l, s, qs, j - 1);
    StepUsed(l, c, q, user, currency);
    StepReset(l, c, q);
    NeverOverDaily(l, t0, qs, j - 1, user, currency);
    if i + 1 < j {
      WindowCovered(l, t0, qs, i, j - 1, user, currency);
    }
  }

  /** In any twenty-four hours, wherever they start, a user gets at most twice the daily limit accepted. */
  lemma RollingBound(l: Limits, t0: int, qs: seq<Request>, i: nat, j: nat, user: string, currency: string)
    requires i < j <= |qs| && PlainUsers(qs) && Plain(user) && Limited(l, currency) && Ordered(qs)
    requires qs[j - 1].now - qs[i].now <= DAY
    ensures AcceptedSum(l, State(map[], t0), qs, i, j, user, currency) <= 2 * l.maxDaily[currency]
  {
    hide *;
    DailyOf(l, currency);
    WindowCovered(l, t0, qs, i, j, user, currency);
    NeverOverDaily(l, t0, qs, j, user, currency);
  }

  lemma DailyOf(l: Limits, currency: string)
    requires Limited(l, currency)
    ensures currency in l.maxDaily && l.maxDaily[currency] >= 0
  {
  }

  /** The only limits the service is ever given: 0.01, 50 and 200 ETH; 10, 500000 and 2000000 USDT. */
  function BuiltIn(): Limits {
    Limits(map["ETH" := Decimal.SCALE / 100, "USDT" := 10 * Decimal.SCALE],
           map["ETH" := 50 * Decimal.SCALE, "USDT" := 500_000 * Decimal.SCALE],
           map["ETH" := 200 * Decimal.SCALE, "USDT" := 2_000_000 * Decimal.SCALE])
  }

  /** Four withdrawals of the largest single amount are just the daily limit. */
  predicate FourADay(l: Limits, currency: string) {
    && Limited(l, currency) && currency in l.maxSingle
    && l.minAmount[currency] <= l.maxSingle[currency] && 4 * l.maxSingle[currency] == l.maxDaily[currency]
  }

  lemma BuiltInFourADay(currency: string)
    requires currency in {"ETH", "USDT"}
    ensures FourADay(BuiltIn(), currency)
  {
  }

  /** Four withdrawals at the moment the day ends, and four a nanosecond later. */
  function EightRequests(user: string, currency: string, amount: int, t0: int): seq<Request> {
    seq(8, i => Request(user, currency, amount, if i < 4 then t0 + DAY else t0 + DAY + 1))
  }

  /** A largest withdrawal on top of fewer than four others is accepted. */
  lemma Fits(l: Limits, s: State, q: Request, already: int)
    requires FourADay(l, q.currency) && q.amount == l.maxSingle[q.currency]
    requires Used(Refreshed(s, q.now), KeyOf(q.user, q.currency)) == already <= 3 * q.amount
    ensures Accepts(l, s, q)
    ensures Used(Step(l, s, q), KeyOf(q.user, q.currency)) == already + q.amount
  {
    hide KeyOf;
  }

  /** All of the first n are accepted, and the tracker holds those since the reset. */
  lemma {:induction false} AllAccepted(l: Limits, t0: int, user: string, currency: string, n: nat)
    requires FourADay(l, currency) && n <= 8
    ensures var m := l.maxSingle[currency]; var s := State(map[], t0);
      var qs := EightRequests(user, currency, m, t0); var b := Run(l, s, qs[..n]);
      && b.lastReset == (if n <= 4 then t0 else t0 + DAY + 1)
      && Used(b, KeyOf(user, currency)) == Times(if n <= 4 then n else n - 4, m)
      && AcceptedSum(l, s, qs, 0, n, user, currency) == Times(n, m)
  {
    var m, s := l.maxSingle[currency], State(map[], t0);
    var qs := EightRequests(user, currency, m, t0);
    hide KeyOf;
    hide Step;
    hide Accepts;
    hide Times;
    OnceMore(0, m);
    if n == 0 {
      assert qs[..0] == [];
    } else {
      AllAccepted(l, t0, user, currency, n - 1);
      var b, q := Run(l, s, qs[..n - 1]), qs[n - 1];
      var k := if n == 5 then 0 else if n < 5 then n - 1 else n - 5;
      RunOneMore(l, s, qs, n - 1);
      StepReset(l, b, q);
      OnceMore(n - 1, m);
      OnceMore(k, m);
      Fits(l, b, q, Times(k, m));
    }
  }

  function Times(k: nat, m: int): int {
    k * m
  }

  lemma OnceMore(k: nat, m: int)
    ensures Times(0, m) == 0 && Times(k + 1, m) == Times(k, m) + m
    ensures k <= 3 && m >= 0 ==> Times(k, m) <= 3 * m
  {
  }

  /** With the built-in limits twice the daily limit is reached, by eight withdrawals within a nanosecond. */
  lemma BoundIsReached(user: string, currency: string, t0: int)
    requires currency in {"ETH", "USDT"}
    ensures var l := BuiltIn();
      var qs := EightRequests(user, currency, l.maxSingle[currency], t0);
      && qs[7].now - qs[0].now <= DAY
      && AcceptedSum(l, State(map[], t0), qs, 0, 8, user, currency) == 2 * l.maxDaily[currency]
      && 2 * l.maxDaily[currency] == Decimal.FromInt(if currency == "ETH" then 400 else 4_000_000)
  {
    BuiltInFourADay(currency);
    AllAccepted(BuiltIn(), t0, user, currency, 8);
  }

  // ---------- The enforcer ----------

  class WithdrawalLimiter {
    const limits: Limits
    var dailyTracker: map<string, int>
    var lastReset: int

    constructor (now: int)
      ensures View() == State(map[], now) && limits == BuiltIn()
      ensures Limited(limits, "ETH") && Limited(limits, "USDT")
    {
      limits := Limits(map["ETH" := Decimal.SCALE / 100, "USDT" := 10 * Decimal.SCALE],
                       map["ETH" := 50 * Decimal.SCALE, "USDT" := 500_000 * Decimal.SCALE],
                       map["ETH" := 200 * Decimal.SCALE, "USDT" := 2_000_000 * Decimal.SCALE]);
      dailyTracker, lastReset := map[], now;
    }

    ghost function View(): State
      reads this
    {
      State(dailyTracker, lastReset)
    }

    method Validate(user: string, currency: string, amount: int, now: int) returns (ok: bool)
      modifies this
      ensures ok == Accepts(limits, old(View()), Request(user, currency, amount, now))
      ensures View() == Step(limits, old(View()), Request(user, currency, amount, now))
    {
      if now - lastReset > DAY {
        dailyTracker := map[];
        lastReset := now;
      }
      if currency in limits.minAmount {
        if amount < limits.minAmount[currency] {
          return false;
        }
      }
      if currency in limits.maxSingle {
        if amount > limits.maxSingle[currency] {
          return false;
        }
      }
      var key := KeyOf(user, currency);
      var dailyTotal := if key in dailyTracker then dailyTracker[key] else 0;
      var newDailyTotal := dailyTotal + amount;
      if currency in limits.maxDaily {
        if newDailyTotal > limits.maxDaily[currency] {
          return false;
        }
      }
      dailyTracker := dailyTracker[key := newDailyTotal];
      return true;
    }
  }
}
