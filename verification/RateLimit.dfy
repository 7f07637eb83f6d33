/**
 Token-bucket rate limiting with eviction of idle buckets, at the granularity of the limiter's locks: a request first
 looks its bucket up and later draws from it, and a cleanup can fall in between. Reals stand for the floating-point
 tokens and seconds.
 */
module RateLimit {
  import opened Types

  /** `key` is the key the bucket was created for. */
  datatype Bucket = Bucket(key: string, rate: real, capacity: real, tokens: real, last: real)

  datatype Caller = IP(address: string) | User(id: string)

  datatype Limits = Limits(ipRate: real, userRate: real)

  function KeyOf(c: Caller): string {
    match c
    case IP(a) => "ip:" + a
    case User(u) => "user:" + u
  }

  /** Distinct callers have distinct keys. */
  lemma KeysDiffer(c: Caller, d: Caller)
    requires KeyOf(c) == KeyOf(d)
    ensures c == d
  {
    var k, n := KeyOf(c), |KeyOf(c)|;
    assert c.IP? <==> k[0] == 'i';
    assert d.IP? <==> k[0] == 'i';
    if c.IP? {
      assert c.address == k[3..n] == d.address;
    } else {
      assert c.id == k[5..n] == d.id;
    }
  }

  /** The rate that goes with a caller's key. */
  function RateOf(l: Limits, key: string): real {
    if key != "" && key[0] == 'i' then l.ipRate else l.userRate
  }

  function CapacityOf(l: Limits, key: string): real {
    RateOf(l, key) * 2.0
  }

  /** Addresses are limited at the one rate and users at the other, with twice the rate in store. */
  lemma CallersLimits(l: Limits, c: Caller)
    ensures RateOf(l, KeyOf(c)) == match c case IP(_) => l.ipRate case User(_) => l.userRate
    ensures CapacityOf(l, KeyOf(c)) == 2.0 * RateOf(l, KeyOf(c))
  {
  }

  // ---------- Buckets ----------

  function Capped(x: real, capacity: real): real {
    if x > capacity then capacity else x
  }

  function Earned(span: real, rate: real): real {
    span * rate
  }

  /** The tokens of a bucket once it has been refilled up to now. */
  function Refilled(b: Bucket, now: real): real {
    Capped(b.tokens + Earned(now - b.last, b.rate), b.capacity)
  }

  function Take(b: Bucket, now: real): (Bucket, bool) {
    var tokens := Refilled(b, now);
    if tokens >= 1.0 then (b.(tokens := tokens - 1.0, last := now), true)
    else (b.(tokens := tokens, last := now), false)
  }

  function NewBucket(key: string, rate: real, capacity: real, now: real): Bucket {
    Bucket(key, rate, capacity, capacity, now)
  }

  lemma EarnedAdds(x: real, y: real, rate: real)
    ensures Earned(x + y, rate) == Earned(x, rate) + Earned(y, rate)
  {
  }

  lemma EarnedNonNegative(span: real, rate: real)
    requires span >= 0.0 && rate >= 0.0
    ensures Earned(span, rate) >= 0.0
  {
  }

  lemma NothingEarned(rate: real)
    ensures Earned(0.0, rate) == 0.0
  {
  }

  lemma RefillTwice(b: Bucket, t: real, u: real)
    requires b.rate >= 0.0 && t <= u
    ensures Refilled(b, u) == Capped(Refilled(b, t) + Earned(u - t, b.rate), b.capacity)
  {
    hide Earned;
    EarnedAdds(t - b.last, u - t, b.rate);
    assert t - b.last + (u - t) == u - b.last;
    EarnedNonNegative(u - t, b.rate);
  }

  // ---------- Steps ----------

  /** A request that has looked its bucket up; `pending` until it has drawn from it. */
  datatype Call = Call(key: string, bucket: nat, pending: bool)

  /** Every bucket ever created, the limiter's map into them, and the requests so far. */
  datatype State = State(heap: seq<Bucket>, table: map<string, nat>, calls: seq<Call>)

  /** A sweep is a cleanup's look at one bucket; its cutoff was fixed when the cleanup started. */
  datatype Event = Lookup(key: string, now: real) | Draw(call: nat, now: real)
    | Sweep(key: string, started: real, now: real)

  function LookupStep(l: Limits, s: State, key: string, now: real): State {
    if key in s.table then s.(calls := s.calls + [Call(key, s.table[key], true)])
    else State(s.heap + [NewBucket(key, RateOf(l, key), CapacityOf(l, key), now)], s.table[key := |s.heap|],
               s.calls + [Call(key, |s.heap|, true)])
  }

  predicate CanDraw(s: State, i: nat) {
    i < |s.calls| && s.calls[i].pending && s.calls[i].bucket < |s.heap|
  }

  function DrawStep(s: State, i: nat, now: real): (State, bool) {
    if CanDraw(s, i) then
      var (b, ok) := Take(s.heap[s.calls[i].bucket], now);
      (s.(heap := s.heap[s.calls[i].bucket := b], calls := s.calls[i := s.calls[i].(pending := false)]), ok)
    else (s, false)
  }

  predicate Idle(s: State, key: string, cutoff: real) {
    key in s.table && s.table[key] < |s.heap| && s.heap[s.table[key]].last < cutoff
  }

  /** One event; a limiter without a time to live never evicts. */
  function Step(l: Limits, ttl: Option<real>, s: State, e: Event): (State, bool) {
    match e
    case Lookup(key, now) => (LookupStep(l, s, key, now), false)
    case Draw(i, now) => DrawStep(s, i, now)
    case Sweep(key, started, now) =>
      (if ttl.Some? && Idle(s, key, started - ttl.value) then s.(table := s.table - {key}) else s, false)
  }

  const NOTHING := State([], map[], [])

  function Run(l: Limits, ttl: Option<real>, es: seq<Event>): State {
    if es == [] then NOTHING else Step(l, ttl, Run(l, ttl, es[..|es| - 1]), es[|es| - 1]).0
  }

  /** The answer to the k-th event of a run, if that is a draw. */
  predicate Answer(l: Limits, ttl: Option<real>, es: seq<Event>, k: nat)
    requires k < |es|
  {
    Step(l, ttl, Run(l, ttl, es[..k]), es[k]).1
  }

  /** The pending request's bucket has been evicted since it was looked up. */
  predicate Stale(s: State, i: nat) {
    CanDraw(s, i) && !(s.calls[i].key in s.table && s.table[s.calls[i].key] == s.calls[i].bucket)
  }

  predicate StaleAt(l: Limits, ttl: Option<real>, es: seq<Event>, k: nat)
    requires k < |es|
  {
    es[k].Draw? && Stale(Run(l, ttl, es[..k]), es[k].call)
  }

  /** No draw from the n-th event on is stale. */
  predicate NoStaleFrom(l: Limits, ttl: Option<real>, es: seq<Event>, n: nat) {
    forall k :: n <= k < |es| ==> !StaleAt(l, ttl, es, k)
  }

  /** Time does not go back, and no cleanup runs before it starts. */
  ghost predicate Timed(es: seq<Event>) {
    && (forall i, j :: 0 <= i <= j < |es| ==> es[i].now <= es[j].now)
    && (forall i :: 0 <= i < |es| && es[i].Sweep? ==> es[i].started <= es[i].now)
  }

  ghost predicate Until(es: seq<Event>, now: real) {
    Timed(es) && (es != [] ==> es[|es| - 1].now <= now)
  }

  predicate RatesOk(l: Limits) {
    l.ipRate >= 0.0 && l.userRate >= 0.0
  }

  /** An idle bucket is full again by the time it may be evicted. */
  predicate Generous(l: Limits, ttl: Option<real>) {
    && RatesOk(l)
    && (ttl.Some? ==>
          Earned(ttl.value, l.ipRate) >= l.ipRate * 2.0 && Earned(ttl.value, l.userRate) >= l.userRate * 2.0)
  }

  lemma GenerousFromTwo(l: Limits, ttl: real)
    requires RatesOk(l) && ttl >= 2.0
    ensures Generous(l, Some(ttl))
  {
    EarnedAdds(2.0, ttl - 2.0, l.ipRate);
    EarnedAdds(2.0, ttl - 2.0, l.userRate);
    EarnedNonNegative(ttl - 2.0, l.ipRate);
    EarnedNonNegative(ttl - 2.0, l.userRate);
    assert 2.0 + (ttl - 2.0) == ttl;
  }

  /** The deployed limiter: five minutes. */
  lemma DeployedIsGenerous(l: Limits)
    requires RatesOk(l)
    ensures Generous(l, Some(300.0))
  {
    GenerousFromTwo(l, 300.0);
  }

  // ---------- Invariant ----------

  predicate BucketOk(l: Limits, b: Bucket, now: real) {
    && b.rate == RateOf(l, b.key) && b.capacity == CapacityOf(l, b.key)
    && 0.0 <= b.tokens <= b.capacity && b.last <= now
  }

  predicate Live(s: State, h: nat)
    requires h < |s.heap|
  {
    s.heap[h].key in s.table && s.table[s.heap[h].key] == h
  }

  ghost predicate Ok(l: Limits, s: State, now: real) {
    && (forall h :: 0 <= h < |s.heap| ==> BucketOk(l, s.heap[h], now))
    && (forall k :: k in s.table ==> s.table[k] < |s.heap| && s.heap[s.table[k]].key == k)
    && (forall i :: 0 <= i < |s.calls| ==>
          s.calls[i].bucket < |s.heap| && s.heap[s.calls[i].bucket].key == s.calls[i].key)
  }

  /** All that a prompt request's answer depends on: the tokens of its key, full when there is no bucket. */
  function Level(l: Limits, s: State, key: string, now: real): real {
    if key in s.table && s.table[key] < |s.heap| then Refilled(s.heap[s.table[key]], now) else CapacityOf(l, key)
  }

  lemma BucketBounds(l: Limits, b: Bucket, now: real)
    requires RatesOk(l) && BucketOk(l, b, now)
    ensures 0.0 <= b.tokens <= Refilled(b, now) <= CapacityOf(l, b.key)
    ensures b.last == now ==> Refilled(b, now) == b.tokens
  {
    hide Earned;
    EarnedNonNegative(now - b.last, b.rate);
    NothingEarned(b.rate);
  }

  lemma LevelBounds(l: Limits, s: State, key: string, now: real)
    requires RatesOk(l) && Ok(l, s, now)
    ensures 0.0 <= Level(l, s, key, now) <= CapacityOf(l, key)
  {
    hide Refilled;
    if key in s.table {
      BucketBounds(l, s.heap[s.table[key]], now);
    }
  }

  /** A level grows with time at its key's rate, up to the capacity. */
  lemma LevelGrows(l: Limits, s: State, key: string, t: real, u: real)
    requires RatesOk(l) && Ok(l, s, t) && t <= u
    ensures Level(l, s, key, u) == Capped(Level(l, s, key, t) + Earned(u - t, RateOf(l, key)), CapacityOf(l, key))
  {
    hide Earned;
    hide Refilled;
    EarnedNonNegative(u - t, RateOf(l, key));
    if key in s.table {
      RefillTwice(s.heap[s.table[key]], t, u);
    }
  }

  lemma OkLater(l: Limits, s: State, t: real, u: real)
    requires Ok(l, s, t) && t <= u
    ensures Ok(l, s, u)
  {
  }

  /** The bucket after a draw, refilled up to now, has what it had less the token that was taken. */
  lemma TakeRefilled(l: Limits, b: Bucket, now: real)
    requires RatesOk(l) && BucketOk(l, b, now)
    ensures var (c, ok) := Take(b, now);
      && BucketOk(l, c, now) && c.key == b.key
      && ok == (Refilled(b, now) >= 1.0)
      && Refilled(c, now) == Refilled(b, now) - if ok then 1.0 else 0.0
  {
    BucketBounds(l, b, now);
    BucketBounds(l, Take(b, now).0, now);
    hide Refilled;
  }

  lemma LookupKeeps(l: Limits, s: State, key: string, now: real, other: string)
    requires RatesOk(l) && Ok(l, s, now)
    ensures var t := LookupStep(l, s, key, now);
      && Ok(l, t, now) && Level(l, t, other, now) == Level(l, s, other, now)
      && |t.calls| == |s.calls| + 1 && CanDraw(t, |s.calls|) && !Stale(t, |s.calls|) && t.calls[|s.calls|].key == key
  {
    BucketBounds(l, NewBucket(key, RateOf(l, key), CapacityOf(l, key), now), now);
    hide Refilled;
  }

  /**
   A draw that is not stale is allowed exactly when its level is at least one, and costs one token of that key only.
   */
  lemma DrawFresh(l: Limits, s: State, i: nat, now: real, other: string)
    requires RatesOk(l) && Ok(l, s, now) && CanDraw(s, i) && !Stale(s, i)
    ensures var (t, ok) := DrawStep(s, i, now);
      && Ok(l, t, now)
      && ok == (Level(l, s, s.calls[i].key, now) >= 1.0)
      && Level(l, t, other, now) == Level(l, s, other, now) - if other == s.calls[i].key && ok then 1.0 else 0.0
  {
    hide Take;
    hide Refilled;
    TakeRefilled(l, s.heap[s.calls[i].bucket], now);
  }

  /** A stale draw leaves all levels alone. */
  lemma DrawStale(l: Limits, s: State, i: nat, now: real, other: string)
    requires RatesOk(l) && Ok(l, s, now) && Stale(s, i)
    ensures var (t, ok) := DrawStep(s, i, now);
      && Ok(l, t, now)
      && ok == (Refilled(s.heap[s.calls[i].bucket], now) >= 1.0)
      && Level(l, t, other, now) == Level(l, s, other, now)
  {
    hide Take;
    hide Refilled;
    TakeRefilled(l, s.heap[s.calls[i].bucket], now);
  }

  /** A bucket idle for longer than a generous time to live is full. */
  lemma IdleIsFull(l: Limits, ttl: real, b: Bucket, started: real, now: real)
    requires Generous(l, Some(ttl)) && BucketOk(l, b, now) && b.last < started - ttl && started <= now
    ensures Refilled(b, now) == CapacityOf(l, b.key)
  {
    hide Earned;
    EarnedNonNegative(now - b.last - ttl, b.rate);
    EarnedAdds(now - b.last - ttl, ttl, b.rate);
    assert now - b.last - ttl + ttl == now - b.last;
  }

  /** So its eviction changes no level. */
  lemma SweepKeeps(l: Limits, ttl: Option<real>, s: State, e: Event, other: string)
    requires RatesOk(l) && e.Sweep? && Ok(l, s, e.now) && e.started <= e.now
    ensures Ok(l, Step(l, ttl, s, e).0, e.now)
    ensures Generous(l, ttl) ==> Level(l, Step(l, ttl, s, e).0, other, e.now) == Level(l, s, other, e.now)
  {
    hide Refilled;
    if ttl.Some? && Generous(l, ttl) && Idle(s, e.key, e.started - ttl.value) {
      IdleIsFull(l, ttl.value, s.heap[s.table[e.key]], e.started, e.now);
    }
  }

  lemma StepKeepsOk(l: Limits, ttl: Option<real>, s: State, e: Event)
    requires RatesOk(l) && Ok(l, s, e.now) && (e.Sweep? ==> e.started <= e.now)
    ensures Ok(l, Step(l, ttl, s, e).0, e.now)
  {
    hide Ok;
    hide Level;
    match e
    case Lookup(key, now) => LookupKeeps(l, s, key, now, "");
    case Draw(i, now) =>
      if Stale(s, i) {
        DrawStale(l, s, i, now, "");
      } else if CanDraw(s, i) {
        DrawFresh(l, s, i, now, "");
      }
    case Sweep(_, _, _) => SweepKeeps(l, ttl, s, e, "");
  }

  /** Whose token a draw that is allowed takes. */
  predicate Draws(s: State, e: Event, key: string) {
    e.Draw? && CanDraw(s, e.call) && s.calls[e.call].key == key
  }

  /** One event of a generous limiter, seen through a level. */
  lemma StepLevel(l: Limits, ttl: Option<real>, s: State, e: Event, key: string)
    requires Generous(l, ttl) && Ok(l, s, e.now) && (e.Sweep? ==> e.started <= e.now)
    ensures var (t, ok) := Step(l, ttl, s, e);
      if Draws(s, e, key) && !Stale(s, e.call) then
        && ok == (Level(l, s, key, e.now) >= 1.0)
        && Level(l, t, key, e.now) == Level(l, s, key, e.now) - if ok then 1.0 else 0.0
      else Level(l, t, key, e.now) == Level(l, s, key, e.now)
  {
    hide Ok;
    hide Level;
    hide Stale;
    match e
    case Lookup(k, now) => LookupKeeps(l, s, k, now, key);
    case Draw(i, now) =>
      if Stale(s, i) {
        DrawStale(l, s, i, now, key);
      } else if CanDraw(s, i) {
        DrawFresh(l, s, i, now, key);
      }
    case Sweep(_, _, _) => SweepKeeps(l, ttl, s, e, key);
  }

  // ---------- Runs ----------

  lemma Cut(es: seq<Event>, k: nat, now: real)
    requires Until(es, now) && k < |es|
    ensures Until(es[..k], es[k].now) && (es[k].Sweep? ==> es[k].started <= es[k].now)
    ensures es[k].now <= now
  {
  }

  lemma {:induction false} RunOk(l: Limits, ttl: Option<real>, es: seq<Event>, now: real)
    requires RatesOk(l) && Until(es, now)
    ensures Ok(l, Run(l, ttl, es), now)
  {
    if es == [] {
      assert Run(l, ttl, es) == NOTHING;
    } else {
      var n := |es| - 1;
      Cut(es, n, now);
      RunOk(l, ttl, es[..n], es[n].now);
      hide Ok;
      hide Step;
      StepKeepsOk(l, ttl, Run(l, ttl, es[..n]), es[n]);
      OkLater(l, Run(l, ttl, es), es[n].now, now);
    }
  }

  /** Whom a request belongs to, and whether it is pending, does not depend on evictions. */
  ghost predicate SameCalls(a: State, b: State) {
    && |a.calls| == |b.calls|
    && forall i :: 0 <= i < |a.calls| ==> a.calls[i].key == b.calls[i].key && a.calls[i].pending == b.calls[i].pending
  }

  lemma StepSameCalls(l: Limits, ttl: Option<real>, a: State, b: State, e: Event)
    requires Ok(l, a, e.now) && Ok(l, b, e.now) && SameCalls(a, b)
    ensures SameCalls(Step(l, ttl, a, e).0, Step(l, None, b, e).0)
  {
    hide Take;
    hide Refilled;
    hide BucketOk;
    hide Idle;
  }

  lemma {:induction false} CallsAgree(l: Limits, ttl: Option<real>, es: seq<Event>, now: real)
    requires RatesOk(l) && Until(es, now)
    ensures SameCalls(Run(l, ttl, es), Run(l, None, es))
  {
    hide Ok;
    hide Step;
    if es != [] {
      var n := |es| - 1;
      Cut(es, n, now);
      CallsAgree(l, ttl, es[..n], es[n].now);
      RunOk(l, ttl, es[..n], es[n].now);
      RunOk(l, None, es[..n], es[n].now);
      StepSameCalls(l, ttl, Run(l, ttl, es[..n]), Run(l, None, es[..n]), es[n]);
    }
  }

  ghost predicate AllLive(s: State) {
    forall h :: 0 <= h < |s.heap| ==> Live(s, h)
  }

  lemma StepKeepsLive(l: Limits, s: State, e: Event)
    requires Ok(l, s, e.now) && AllLive(s)
    ensures AllLive(Step(l, None, s, e).0)
  {
    hide Refilled;
    var t := Step(l, None, s, e).0;
    forall h | 0 <= h < |t.heap|
      ensures Live(t, h)
    {
      if h < |s.heap| {
        assert Live(s, h);
      }
    }
  }

  lemma LiveIsNotStale(l: Limits, s: State, now: real, i: nat)
    requires Ok(l, s, now) && AllLive(s)
    ensures !Stale(s, i)
  {
    if CanDraw(s, i) {
      assert Live(s, s.calls[i].bucket);
    }
  }

  /** Without a time to live every bucket stays in the map, so no draw is stale. */
  lemma {:induction false} NeverStale(l: Limits, es: seq<Event>, now: real)
    requires RatesOk(l) && Until(es, now)
    ensures AllLive(Run(l, None, es))
    ensures forall i :: !Stale(Run(l, None, es), i)
  {
    RunOk(l, None, es, now);
    if es == [] {
      assert Run(l, None, es) == NOTHING;
    } else {
      var n := |es| - 1;
      Cut(es, n, now);
      RunOk(l, None, es[..n], es[n].now);
      NeverStale(l, es[..n], es[n].now);
      StepKeepsLive(l, Run(l, None, es[..n]), es[n]);
    }
    hide AllLive;
    hide Ok;
    hide Step;
    hide Stale;
    var s := Run(l, None, es);
    forall i: nat
      ensures !Stale(s, i)
    {
      LiveIsNotStale(l, s, now, i);
    }
  }

  // ---------- Eviction is unobservable unless it hits a pending request ----------

  lemma NoStalePrefix(l: Limits, ttl: Option<real>, es: seq<Event>, k: nat, n: nat)
    requires k <= |es| && NoStaleFrom(l, ttl, es, n)
    ensures NoStaleFrom(l, ttl, es[..k], n)
  {
    hide Stale;
    forall j | n <= j < k
      ensures !StaleAt(l, ttl, es[..k], j)
    {
      assert es[..k][..j] == es[..j];
      assert !StaleAt(l, ttl, es, j);
    }
  }

  /** With and without eviction, every key has the same level at every moment. */
  lemma {:induction false} LevelsAgree(l: Limits, ttl: Option<real>, es: seq<Event>, now: real, key: string)
    requires Generous(l, ttl) && Until(es, now) && NoStaleFrom(l, ttl, es, 0)
    ensures Level(l, Run(l, ttl, es), key, now) == Level(l, Run(l, None, es), key, now)
  {
    hide Ok;
    hide Level;
    hide Step;
    hide Stale;
    hide Earned;
    if es != [] {
      var n := |es| - 1;
      var e, a, b := es[n], Run(l, ttl, es[..n]), Run(l, None, es[..n]);
      Cut(es, n, now);
      NoStalePrefix(l, ttl, es, n, 0);
      assert !StaleAt(l, ttl, es, n);
      RunOk(l, ttl, es[..n], e.now);
      RunOk(l, None, es[..n], e.now);
      CallsAgree(l, ttl, es[..n], e.now);
      NeverStale(l, es[..n], e.now);
      LevelsAgree(l, ttl, es[..n], e.now, key);
      DrawsAgree(l, a, b, e, key);
      StepLevel(l, ttl, a, e, key);
      StepLevel(l, None, b, e, key);
      RunOk(l, ttl, es, e.now);
      RunOk(l, None, es, e.now);
      LevelGrows(l, Run(l, ttl, es), key, e.now, now);
      LevelGrows(l, Run(l, None, es), key, e.now, now);
    }
  }

  lemma DrawsAgree(l: Limits, a: State, b: State, e: Event, key: string)
    requires SameCalls(a, b) && Ok(l, a, e.now) && Ok(l, b, e.now)
    ensures Draws(a, e, key) <==> Draws(b, e, key)
    ensures e.Draw? ==> (CanDraw(a, e.call) <==> CanDraw(b, e.call))
    ensures e.Draw? && CanDraw(a, e.call) ==> a.calls[e.call].key == b.calls[e.call].key
  {
  }

  /**
   Whatever cleanups happen, as long as none falls between a request's two steps all answers are those of a limiter
   that never forgets.
   */
  lemma EvictionIsUnobservable(l: Limits, ttl: real, es: seq<Event>, k: nat)
    requires Generous(l, Some(ttl)) && Timed(es) && k < |es|
    requires NoStaleFrom(l, Some(ttl), es, 0)
    ensures Answer(l, Some(ttl), es, k) == Answer(l, None, es, k)
  {
    hide Ok;
    hide Level;
    hide Run;
    hide Stale;
    var e, now := es[k], es[|es| - 1].now;
    Cut(es, k, now);
    NoStalePrefix(l, Some(ttl), es, k, 0);
    assert !StaleAt(l, Some(ttl), es, k);
    RunOk(l, Some(ttl), es[..k], e.now);
    RunOk(l, None, es[..k], e.now);
    CallsAgree(l, Some(ttl), es[..k], e.now);
    NeverStale(l, es[..k], e.now);
    var a, b := Run(l, Some(ttl), es[..k]), Run(l, None, es[..k]);
    DrawsAgree(l, a, b, e, "");
    if e.Draw? && CanDraw(a, e.call) {
      var key := a.calls[e.call].key;
      LevelsAgree(l, Some(ttl), es[..k], e.now, key);
      StepLevel(l, Some(ttl), a, e, key);
      StepLevel(l, None, b, e, key);
    }
  }

  // ---------- Where the two differ ----------

  /** A request whose two steps follow each other at once. */
  function Prompt(es: seq<Event>, l: Limits, key: string, now: real): seq<Event> {
    es + [Lookup(key, now), Draw(|Run(l, None, es).calls|, now)]
  }

  lemma Extend(es: seq<Event>, e: Event, now: real)
    requires Until(es, now) && e.now == now && (e.Sweep? ==> e.started <= now)
    ensures Until(es + [e], now)
  {
  }

  lemma RunExtended(l: Limits, ttl: Option<real>, es: seq<Event>, e: Event)
    ensures Run(l, ttl, es + [e]) == Step(l, ttl, Run(l, ttl, es), e).0
    ensures Answer(l, ttl, es + [e], |es|) == Step(l, ttl, Run(l, ttl, es), e).1
    ensures StaleAt(l, ttl, es + [e], |es|) <==> e.Draw? && Stale(Run(l, ttl, es), e.call)
  {
    assert (es + [e])[..|es|] == es;
  }

  /** A prompt request is never stale, is allowed exactly when the level is at least one, and costs one token. */
  lemma PromptRequest(l: Limits, ttl: Option<real>, es: seq<Event>, key: string, now: real)
    requires RatesOk(l) && Until(es, now)
    ensures var fs := Prompt(es, l, key, now);
      && Until(fs, now) && es <= fs && |fs| == |es| + 2 && fs[|es| + 1].Draw? && fs[|es| + 1].now == now
      && !StaleAt(l, ttl, fs, |es|) && !StaleAt(l, ttl, fs, |es| + 1)
      && Draws(Run(l, ttl, fs[..|es| + 1]), fs[|es| + 1], key)
      && !Answer(l, ttl, fs, |es|)
      && (Answer(l, ttl, fs, |es| + 1) <==> Level(l, Run(l, ttl, es), key, now) >= 1.0)
      && Level(l, Run(l, ttl, fs), key, now) ==
           Level(l, Run(l, ttl, es), key, now) - if Answer(l, ttl, fs, |es| + 1) then 1.0 else 0.0
  {
    hide Ok;
    hide Level;
    hide Stale;
    hide DrawStep;
    hide LookupStep;
    var s := Run(l, ttl, es);
    var e := Lookup(key, now);
    var es1 := es + [e];
    var f := Draw(|Run(l, None, es).calls|, now);
    var fs := Prompt(es, l, key, now);
    assert fs == es1 + [f] && fs[..|es|] == es && fs[..|es| + 1] == es1 && es1[..|es|] == es;
    RunOk(l, ttl, es, now);
    CallsAgree(l, ttl, es, now);
    LookupKeeps(l, s, key, now, key);
    Extend(es, e, now);
    Extend(es1, f, now);
    RunExtended(l, ttl, es, e);
    RunExtended(l, ttl, es1, f);
    DrawFresh(l, Run(l, ttl, es1), |s.calls|, now, key);
  }

  /** The run goes on, without stale draws, until some answer differs between evicting and not. */
  ghost predicate Diverges(l: Limits, ttl: real, es: seq<Event>, longer: seq<Event>) {
    && es <= longer && Timed(longer) && |longer| > |es|
    && NoStaleFrom(l, Some(ttl), longer, |es|)
    && Answer(l, Some(ttl), longer, |longer| - 1) != Answer(l, None, longer, |longer| - 1)
  }

  lemma NoStaleLonger(l: Limits, ttl: Option<real>, es: seq<Event>, mid: seq<Event>, longer: seq<Event>)
    requires es <= mid <= longer && NoStaleFrom(l, ttl, mid, |es|) && NoStaleFrom(l, ttl, longer, |mid|)
    ensures NoStaleFrom(l, ttl, longer, |es|)
  {
    hide Stale;
    forall k | |es| <= k < |longer|
      ensures !StaleAt(l, ttl, longer, k)
    {
      if k < |mid| {
        assert longer[..k] == mid[..k];
        assert !StaleAt(l, ttl, mid, k);
      }
    }
  }

  lemma DivergesEarlier(l: Limits, ttl: real, es: seq<Event>, mid: seq<Event>, longer: seq<Event>)
    requires es <= mid && NoStaleFrom(l, Some(ttl), mid, |es|) && Diverges(l, ttl, mid, longer)
    ensures Diverges(l, ttl, es, longer)
  {
    hide StaleAt;
    NoStaleLonger(l, Some(ttl), es, mid, longer);
  }

  lemma PromptNoStale(l: Limits, ttl: Option<real>, es: seq<Event>, key: string, now: real)
    requires RatesOk(l) && Until(es, now)
    ensures NoStaleFrom(l, ttl, Prompt(es, l, key, now), |es|)
  {
    hide StaleAt;
    PromptRequest(l, ttl, es, key, now);
  }

  lemma WaitForOne(x: real, rate: real) returns (span: real)
    requires rate > 0.0 && x < 1.0
    ensures span > 0.0 && Earned(span, rate) == 1.0 - x
  {
    span := (1.0 - x) / rate;
  }

  /**
   A key that has less than one token, but more than the limiter without eviction thinks, is allowed once too often.
   */
  lemma SmallGap(l: Limits, ttl: real, es: seq<Event>, now: real, key: string) returns (longer: seq<Event>)
    requires RatesOk(l) && Until(es, now) && CapacityOf(l, key) >= 1.0
    requires Level(l, Run(l, None, es), key, now) < Level(l, Run(l, Some(ttl), es), key, now) < 1.0
    ensures Diverges(l, ttl, es, longer)
  {
    hide Level;
    hide Ok;
    hide Run;
    hide StaleAt;
    hide Earned;
    var a, b := Run(l, Some(ttl), es), Run(l, None, es);
    var span := WaitForOne(Level(l, a, key, now), RateOf(l, key));
    var later := now + span;
    RunOk(l, Some(ttl), es, now);
    RunOk(l, None, es, now);
    LevelGrows(l, a, key, now, later);
    LevelGrows(l, b, key, now, later);
    longer := Prompt(es, l, key, later);
    PromptRequest(l, Some(ttl), es, key, later);
    PromptRequest(l, None, es, key, later);
    PromptNoStale(l, Some(ttl), es, key, later);
  }

  /** Any gap between the two levels can be made to show: draw until less than one token is left, then wait for it. */
  lemma {:induction false} GapIsSeen(l: Limits, ttl: real, es: seq<Event>, now: real, key: string, n: nat)
    returns (longer: seq<Event>)
    requires RatesOk(l) && Until(es, now) && CapacityOf(l, key) >= 1.0
    requires Level(l, Run(l, None, es), key, now) < Level(l, Run(l, Some(ttl), es), key, now) < n as real
    ensures Diverges(l, ttl, es, longer)
    decreases n
  {
    hide Level;
    hide Ok;
    hide Run;
    hide StaleAt;
    RunOk(l, None, es, now);
    LevelBounds(l, Run(l, None, es), key, now);
    if Level(l, Run(l, Some(ttl), es), key, now) < 1.0 {
      longer := SmallGap(l, ttl, es, now, key);
    } else {
      var mid := Prompt(es, l, key, now);
      PromptRequest(l, Some(ttl), es, key, now);
      PromptRequest(l, None, es, key, now);
      PromptNoStale(l, Some(ttl), es, key, now);
      if Level(l, Run(l, None, es), key, now) < 1.0 {
        longer := mid;
      } else {
        longer := GapIsSeen(l, ttl, mid, now, key, n - 1);
        DivergesEarlier(l, ttl, es, mid, longer);
      }
    }
  }

  // ---------- An eviction between the two steps is always seen ----------

  /** Up to the first stale draw, a bucket that is no longer in the map has never been drawn from since and is full. */
  ghost predicate DeadAreFull(l: Limits, s: State, now: real) {
    forall h :: 0 <= h < |s.heap| && !Live(s, h) ==> Refilled(s.heap[h], now) == CapacityOf(l, s.heap[h].key)
  }

  lemma StepKeepsDead(l: Limits, ttl: Option<real>, s: State, e: Event)
    requires Generous(l, ttl) && Ok(l, s, e.now) && (e.Sweep? ==> e.started <= e.now)
    requires DeadAreFull(l, s, e.now) && !(e.Draw? && Stale(s, e.call))
    ensures DeadAreFull(l, Step(l, ttl, s, e).0, e.now)
  {
    hide Refilled;
    hide Take;
    var t := Step(l, ttl, s, e).0;
    if e.Draw? && CanDraw(s, e.call) {
      TakeRefilled(l, s.heap[s.calls[e.call].bucket], e.now);
    }
    forall h | 0 <= h < |t.heap| && !Live(t, h)
      ensures Refilled(t.heap[h], e.now) == CapacityOf(l, t.heap[h].key)
    {
      if h < |s.heap| && Live(s, h) {
        IdleIsFull(l, ttl.value, s.heap[h], e.started, e.now);
      }
    }
  }

  lemma DeadLater(l: Limits, s: State, t: real, u: real)
    requires RatesOk(l) && Ok(l, s, t) && DeadAreFull(l, s, t) && t <= u
    ensures DeadAreFull(l, s, u)
  {
    hide Earned;
    hide Refilled;
    forall h | 0 <= h < |s.heap| && !Live(s, h)
      ensures Refilled(s.heap[h], u) == CapacityOf(l, s.heap[h].key)
    {
      RefillTwice(s.heap[h], t, u);
      EarnedNonNegative(u - t, s.heap[h].rate);
    }
  }

  lemma {:induction false} RunDead(l: Limits, ttl: Option<real>, es: seq<Event>, now: real)
    requires Generous(l, ttl) && Until(es, now) && NoStaleFrom(l, ttl, es, 0)
    ensures DeadAreFull(l, Run(l, ttl, es), now)
  {
    if es == [] {
      assert Run(l, ttl, es) == NOTHING;
    } else {
      var n := |es| - 1;
      Cut(es, n, now);
      NoStalePrefix(l, ttl, es, n, 0);
      assert !StaleAt(l, ttl, es, n);
      RunDead(l, ttl, es[..n], es[n].now);
      RunOk(l, ttl, es[..n], es[n].now);
      RunOk(l, ttl, es, es[n].now);
      hide Ok;
      hide DeadAreFull;
      hide Step;
      hide Stale;
      StepKeepsDead(l, ttl, Run(l, ttl, es[..n]), es[n]);
      DeadLater(l, Run(l, ttl, es), es[n].now, now);
    }
  }

  /**
   The first draw whose bucket was evicted after it was looked up, by a key that can be allowed anything at all, makes
   the limiter answer differently from one that never forgets: at once, or in some continuation of prompt requests.
   */
  lemma StaleDrawIsSeen(l: Limits, ttl: real, es: seq<Event>) returns (longer: seq<Event>)
    requires Generous(l, Some(ttl)) && es != [] && Timed(es)
    requires NoStaleFrom(l, Some(ttl), es[..|es| - 1], 0) && StaleAt(l, Some(ttl), es, |es| - 1)
    requires CapacityOf(l, Run(l, Some(ttl), es[..|es| - 1]).calls[es[|es| - 1].call].key) >= 1.0
    ensures es <= longer && Timed(longer) && NoStaleFrom(l, Some(ttl), longer, |es|)
    ensures Answer(l, Some(ttl), longer, |longer| - 1) != Answer(l, None, longer, |longer| - 1)
  {
    hide Level;
    hide Refilled;
    hide Step;
    hide Earned;
    var n, e := |es| - 1, es[|es| - 1];
    var ds, now := es[..n], e.now;
    var a, b := Run(l, Some(ttl), ds), Run(l, None, ds);
    Cut(es, n, now);
    var key := StaleStart(l, ttl, ds, e);
    assert es == ds + [e];
    RunExtended(l, Some(ttl), ds, e);
    RunExtended(l, None, ds, e);
    if Level(l, b, key, now) < 1.0 {
      longer := es;
    } else {
      RunOk(l, Some(ttl), es, now);
      LevelBounds(l, Run(l, Some(ttl), es), key, now);
      longer := GapIsSeen(l, ttl, es, now, key, CapacityOf(l, key).Floor + 1);
    }
  }

  /** The stale draw is allowed, while the limiter without eviction asks the level both share. */
  lemma StaleStart(l: Limits, ttl: real, ds: seq<Event>, e: Event) returns (key: string)
    requires Generous(l, Some(ttl)) && Until(ds, e.now) && NoStaleFrom(l, Some(ttl), ds, 0)
    requires e.Draw? && Stale(Run(l, Some(ttl), ds), e.call)
    requires CapacityOf(l, Run(l, Some(ttl), ds).calls[e.call].key) >= 1.0
    ensures key == Run(l, Some(ttl), ds).calls[e.call].key
    ensures var a, b := Run(l, Some(ttl), ds), Run(l, None, ds);
      var (a', x) := Step(l, Some(ttl), a, e); var (b', y) := Step(l, None, b, e);
      && Level(l, a, key, e.now) == Level(l, b, key, e.now)
      && x && y == (Level(l, b, key, e.now) >= 1.0)
      && Level(l, a', key, e.now) == Level(l, a, key, e.now)
      && Level(l, b', key, e.now) == Level(l, b, key, e.now) - if y then 1.0 else 0.0
  {
    hide Level;
    hide Refilled;
    hide Run;
    hide DrawStep;
    hide Earned;
    var a, b := Run(l, Some(ttl), ds), Run(l, None, ds);
    key := a.calls[e.call].key;
    RunOk(l, Some(ttl), ds, e.now);
    RunOk(l, None, ds, e.now);
    CallsAgree(l, Some(ttl), ds, e.now);
    NeverStale(l, ds, e.now);
    LevelsAgree(l, Some(ttl), ds, e.now, key);
    RunDead(l, Some(ttl), ds, e.now);
    assert !Live(a, a.calls[e.call].bucket);
    DrawStale(l, a, e.call, e.now, key);
    DrawFresh(l, b, e.call, e.now, key);
  }

  /** All continuations without further stale draws are answered as without eviction. */
  ghost predicate SameForever(l: Limits, ttl: real, es: seq<Event>) {
    forall longer: seq<Event>, k: nat ::
      es <= longer && Timed(longer) && NoStaleFrom(l, Some(ttl), longer, |es|) && k < |longer| ==>
        Answer(l, Some(ttl), longer, k) == Answer(l, None, longer, k)
  }

  /** So a request is harmless exactly when no eviction fell between its steps. */
  lemma StaleIff(l: Limits, ttl: real, es: seq<Event>)
    requires Generous(l, Some(ttl)) && es != [] && Timed(es)
    requires NoStaleFrom(l, Some(ttl), es[..|es| - 1], 0)
    requires StaleAt(l, Some(ttl), es, |es| - 1) ==>
      CapacityOf(l, Run(l, Some(ttl), es[..|es| - 1]).calls[es[|es| - 1].call].key) >= 1.0
    ensures SameForever(l, ttl, es) <==> !StaleAt(l, Some(ttl), es, |es| - 1)
  {
    hide Answer;
    hide Run;
    if StaleAt(l, Some(ttl), es, |es| - 1) {
      var longer := StaleDrawIsSeen(l, ttl, es);
      assert |longer| - 1 >= 0;
    } else {
      hide StaleAt;
      forall longer: seq<Event>, k: nat |
        es <= longer && Timed(longer) && NoStaleFrom(l, Some(ttl), longer, |es|) && k < |longer|
        ensures Answer(l, Some(ttl), longer, k) == Answer(l, None, longer, k)
      {
        NoStaleAtEnd(l, Some(ttl), es);
        NoStaleLonger(l, Some(ttl), [], es, longer);
        EvictionIsUnobservable(l, ttl, longer, k);
      }
    }
  }

  lemma NoStaleAtEnd(l: Limits, ttl: Option<real>, es: seq<Event>)
    requires es != [] && NoStaleFrom(l, ttl, es[..|es| - 1], 0) && !StaleAt(l, ttl, es, |es| - 1)
    ensures NoStaleFrom(l, ttl, es, 0)
  {
    hide Stale;
    forall k | 0 <= k < |es|
      ensures !StaleAt(l, ttl, es, k)
    {
      if k < |es| - 1 {
        assert es[..|es| - 1][..k] == es[..k];
        assert !StaleAt(l, ttl, es[..|es| - 1], k);
      }
    }
  }

  /** A key whose capacity is below one token is never allowed anything, stale or not, evicting or not. */
  lemma NothingBelowOne(l: Limits, ttl: Option<real>, es: seq<Event>, k: nat, key: string)
    requires RatesOk(l) && Timed(es) && k < |es| && CapacityOf(l, key) < 1.0
    requires Draws(Run(l, ttl, es[..k]), es[k], key)
    ensures !Answer(l, ttl, es, k)
  {
    hide Refilled;
    hide Run;
    Cut(es, k, es[|es| - 1].now);
    RunOk(l, ttl, es[..k], es[k].now);
    var s := Run(l, ttl, es[..k]);
    BucketBounds(l, s.heap[s.calls[es[k].call].bucket], es[k].now);
  }

  // ---------- The time to live ----------

  /** Prompt requests of one key, until it has less than one token; nothing is evicted. */
  lemma {:induction false} DrainBelowOne(l: Limits, ttl: Option<real>, es: seq<Event>, key: string, now: real, n: nat)
    returns (fs: seq<Event>)
    requires RatesOk(l) && Until(es, now) && NoStaleFrom(l, ttl, es, 0)
    requires forall i :: 0 <= i < |es| ==> !es[i].Sweep?
    requires Level(l, Run(l, ttl, es), key, now) < n as real
    ensures Until(fs, now) && NoStaleFrom(l, ttl, fs, 0) && forall i :: 0 <= i < |fs| ==> !fs[i].Sweep?
    ensures Level(l, Run(l, ttl, fs), key, now) < 1.0
    decreases n
  {
    hide Level;
    hide Run;
    hide StaleAt;
    if Level(l, Run(l, ttl, es), key, now) < 1.0 {
      fs := es;
    } else {
      var mid := Prompt(es, l, key, now);
      PromptRequest(l, ttl, es, key, now);
      PromptNoStale(l, ttl, es, key, now);
      NoStaleLonger(l, ttl, [], es, mid);
      fs := DrainBelowOne(l, ttl, mid, key, now, n - 1);
    }
  }

  /** Without cleanups the time to live does not matter. */
  lemma {:induction false} NoSweeps(l: Limits, ttl: Option<real>, es: seq<Event>)
    requires forall i :: 0 <= i < |es| ==> !es[i].Sweep?
    ensures Run(l, ttl, es) == Run(l, None, es)
  {
    if es != [] {
      NoSweeps(l, ttl, es[..|es| - 1]);
    }
  }

  /** A run after which a key has no token at all, drawn just now from a bucket in the map. */
  lemma Drain(l: Limits, ttl: Option<real>, key: string) returns (fs: seq<Event>, now: real)
    requires RatesOk(l) && CapacityOf(l, key) >= 1.0
    ensures Until(fs, now) && NoStaleFrom(l, ttl, fs, 0) && Run(l, ttl, fs) == Run(l, None, fs)
    ensures var s := Run(l, ttl, fs);
      key in s.table && s.table[key] < |s.heap| && s.heap[s.table[key]].last == now && Level(l, s, key, now) == 0.0
  {
    hide Level;
    hide Run;
    hide StaleAt;
    hide Earned;
    RunOk(l, ttl, [], 0.0);
    LevelBounds(l, Run(l, ttl, []), key, 0.0);
    var es := DrainBelowOne(l, ttl, [], key, 0.0, CapacityOf(l, key).Floor + 1);
    RunOk(l, ttl, es, 0.0);
    LevelBounds(l, Run(l, ttl, es), key, 0.0);
    var span := WaitForOne(Level(l, Run(l, ttl, es), key, 0.0), RateOf(l, key));
    now := 0.0 + span;
    LevelGrows(l, Run(l, ttl, es), key, 0.0, now);
    fs := Prompt(es, l, key, now);
    PromptRequest(l, ttl, es, key, now);
    PromptNoStale(l, ttl, es, key, now);
    NoStaleLonger(l, ttl, [], es, fs);
    NoSweeps(l, ttl, fs);
    DrawnNow(l, ttl, es, key, now);
  }

  /** After a prompt request the key's bucket is in the map and was last used just now. */
  lemma DrawnNow(l: Limits, ttl: Option<real>, es: seq<Event>, key: string, now: real)
    requires RatesOk(l) && Until(es, now)
    ensures var s := Run(l, ttl, Prompt(es, l, key, now));
      key in s.table && s.table[key] < |s.heap| && s.heap[s.table[key]].last == now
  {
    hide Refilled;
    hide Run;
    hide Ok;
    hide SameCalls;
    var e, f := Lookup(key, now), Draw(|Run(l, None, es).calls|, now);
    RunOk(l, ttl, es, now);
    CallsAgree(l, ttl, es, now);
    SameCount(Run(l, ttl, es), Run(l, None, es));
    assert Prompt(es, l, key, now) == es + [e] + [f];
    RunExtended(l, ttl, es, e);
    RunExtended(l, ttl, es + [e], f);
    LookupThenDraw(l, Run(l, ttl, es), key, now);
  }

  lemma SameCount(a: State, b: State)
    requires SameCalls(a, b)
    ensures |a.calls| == |b.calls|
  {
  }

  lemma LookupThenDraw(l: Limits, s: State, key: string, now: real)
    requires Ok(l, s, now)
    ensures var t := DrawStep(LookupStep(l, s, key, now), |s.calls|, now).0;
      key in t.table && t.table[key] < |t.heap| && t.heap[t.table[key]].last == now
  {
    hide Refilled;
  }

  /** With a time to live below two seconds, a key that can be allowed anything is in some run answered differently. */
  lemma EarlyEvictionIsSeen(l: Limits, ttl: real, key: string) returns (longer: seq<Event>)
    requires RatesOk(l) && CapacityOf(l, key) >= 1.0 && ttl < 2.0
    ensures Timed(longer) && longer != [] && NoStaleFrom(l, Some(ttl), longer, 0)
    ensures Answer(l, Some(ttl), longer, |longer| - 1) != Answer(l, None, longer, |longer| - 1)
  {
    hide Level;
    hide StaleAt;
    hide Ok;
    hide Earned;
    hide Run;
    hide Answer;
    var fs, t := Drain(l, Some(ttl), key);
    var span := ((if ttl > 0.0 then ttl else 0.0) + 2.0) / 2.0;
    var now := t + span;
    var e := Sweep(key, now, now);
    var s := Run(l, None, fs);
    Extend(fs, e, now);
    RunExtended(l, Some(ttl), fs, e);
    RunExtended(l, None, fs, e);
    var gs := fs + [e];
    NoStaleSweep(l, Some(ttl), fs, e);
    RunOk(l, None, fs, t);
    LevelGrows(l, s, key, t, now);
    EvictedIsFull(l, Some(ttl), s, e);
    ShortSpan(span, RateOf(l, key));
    longer := GapIsSeen(l, ttl, gs, now, key, CapacityOf(l, key).Floor + 1);
    NoStaleLonger(l, Some(ttl), [], gs, longer);
  }

  lemma NoStaleSweep(l: Limits, ttl: Option<real>, es: seq<Event>, e: Event)
    requires e.Sweep? && NoStaleFrom(l, ttl, es, 0)
    ensures NoStaleFrom(l, ttl, es + [e], 0)
  {
    assert (es + [e])[..|es|] == es;
    RunExtended(l, ttl, es, e);
    NoStaleAtEnd(l, ttl, es + [e]);
  }

  lemma EvictedIsFull(l: Limits, ttl: Option<real>, s: State, e: Event)
    requires e.Sweep? && ttl.Some? && Idle(s, e.key, e.started - ttl.value)
    ensures Level(l, Step(l, ttl, s, e).0, e.key, e.now) == CapacityOf(l, e.key)
    ensures Step(l, None, s, e).0 == s
  {
  }

  lemma ShortSpan(span: real, rate: real)
    requires span < 2.0 && rate > 0.0
    ensures Earned(span, rate) < rate * 2.0
  {
    assert (2.0 - span) * rate > 0.0;
  }

  /** In no run in which requests are not hit between their steps does eviction show. */
  ghost predicate NeverSeen(l: Limits, ttl: real) {
    forall es: seq<Event>, k: nat :: Timed(es) && NoStaleFrom(l, Some(ttl), es, 0) && k < |es| ==>
      Answer(l, Some(ttl), es, k) == Answer(l, None, es, k)
  }

  /** The time to live that keeps eviction unobservable is two seconds, whatever the rates. */
  lemma TtlIff(l: Limits, ttl: real, key: string)
    requires RatesOk(l) && CapacityOf(l, key) >= 1.0
    ensures NeverSeen(l, ttl) <==> ttl >= 2.0
  {
    hide Answer;
    hide StaleAt;
    if ttl >= 2.0 {
      GenerousFromTwo(l, ttl);
      forall es: seq<Event>, k: nat | Timed(es) && NoStaleFrom(l, Some(ttl), es, 0) && k < |es|
        ensures Answer(l, Some(ttl), es, k) == Answer(l, None, es, k)
      {
        EvictionIsUnobservable(l, ttl, es, k);
      }
    } else {
      var longer := EarlyEvictionIsSeen(l, ttl, key);
      assert |longer| - 1 >= 0;
    }
  }

  // ---------- The rate bound ----------

  /** How many draws of the key among es[i..j] are allowed. */
  function Admitted(l: Limits, ttl: Option<real>, es: seq<Event>, i: nat, j: nat, key: string): nat
    requires i <= j <= |es|
    decreases j
  {
    if i == j then 0
    else Admitted(l, ttl, es, i, j - 1, key) +
         if Draws(Run(l, ttl, es[..j - 1]), es[j - 1], key) && Answer(l, ttl, es, j - 1) then 1 else 0
  }

  /** How many of them are stale. */
  function StaleDraws(l: Limits, ttl: Option<real>, es: seq<Event>, i: nat, j: nat, key: string): nat
    requires i <= j <= |es|
    decreases j
  {
    if i == j then 0
    else StaleDraws(l, ttl, es, i, j - 1, key) +
         if Draws(Run(l, ttl, es[..j - 1]), es[j - 1], key) && StaleAt(l, ttl, es, j - 1) then 1 else 0
  }

  /** One event: what is allowed is paid for by the level, or by a stale draw. */
  lemma Accounted(l: Limits, ttl: Option<real>, s: State, e: Event, key: string)
    requires Generous(l, ttl) && Ok(l, s, e.now) && (e.Sweep? ==> e.started <= e.now)
    ensures var (t, ok) := Step(l, ttl, s, e);
      && Ok(l, t, e.now)
      && (if Draws(s, e, key) && ok then 1.0 else 0.0) + Level(l, t, key, e.now)
           <= Level(l, s, key, e.now) + if Draws(s, e, key) && Stale(s, e.call) then 1.0 else 0.0
  {
    hide Ok;
    hide Level;
    hide Step;
    hide Stale;
    StepLevel(l, ttl, s, e, key);
    StepKeepsOk(l, ttl, s, e);
  }

  lemma GrowsAtMost(l: Limits, s: State, key: string, t: real, u: real)
    requires RatesOk(l) && Ok(l, s, t) && t <= u
    ensures Level(l, s, key, u) <= Level(l, s, key, t) + Earned(u - t, RateOf(l, key))
  {
    hide Level;
    hide Ok;
    hide Earned;
    LevelGrows(l, s, key, t, u);
  }

  lemma CountsStep(l: Limits, ttl: Option<real>, es: seq<Event>, i: nat, j: nat, key: string)
    requires i < j <= |es|
    ensures var s, e := Run(l, ttl, es[..j - 1]), es[j - 1];
      && Admitted(l, ttl, es, i, j, key) == Admitted(l, ttl, es, i, j - 1, key)
           + (if Draws(s, e, key) && Step(l, ttl, s, e).1 then 1 else 0)
      && StaleDraws(l, ttl, es, i, j, key) == StaleDraws(l, ttl, es, i, j - 1, key)
           + (if Draws(s, e, key) && Stale(s, e.call) then 1 else 0)
      && Run(l, ttl, es[..j]) == Step(l, ttl, s, e).0
  {
    hide Step;
    hide Stale;
    assert es[..j][..j - 1] == es[..j - 1];
  }

  /** What has been allowed in the window so far, the tokens left, and what paid for both. */
  lemma {:induction false} Budget(l: Limits, ttl: Option<real>, es: seq<Event>, i: nat, j: nat, key: string)
    requires Generous(l, ttl) && Timed(es) && i < j <= |es|
    ensures Admitted(l, ttl, es, i, j, key) as real + Level(l, Run(l, ttl, es[..j]), key, es[j - 1].now)
      <= CapacityOf(l, key) + Earned(es[j - 1].now - es[i].now, RateOf(l, key))
         + StaleDraws(l, ttl, es, i, j, key) as real
    decreases j
  {
    hide Ok;
    hide Level;
    hide Step;
    hide Run;
    hide CapacityOf;
    hide RateOf;
    hide Generous;
    hide Earned;
    hide Stale;
    hide Draws;
    hide Admitted;
    hide StaleDraws;
    GenerousRates(l, ttl);
    var e, m := es[j - 1], Run(l, ttl, es[..j - 1]);
    Cut(es, j - 1, es[|es| - 1].now);
    RunOk(l, ttl, es[..j - 1], e.now);
    Accounted(l, ttl, m, e, key);
    CountsStep(l, ttl, es, i, j, key);
    if i + 1 == j {
      LevelBounds(l, m, key, e.now);
      NothingEarned(RateOf(l, key));
      NoCounts(l, ttl, es, i, key);
    } else {
      Budget(l, ttl, es, i, j - 1, key);
      Cut(es, j - 2, es[|es| - 1].now);
      RunOk(l, ttl, es[..j - 1], es[j - 2].now);
      GrowsAtMost(l, m, key, es[j - 2].now, e.now);
      EarnedAdds(es[j - 2].now - es[i].now, e.now - es[j - 2].now, RateOf(l, key));
      assert es[j - 2].now - es[i].now + (e.now - es[j - 2].now) == e.now - es[i].now;
    }
  }

  lemma NoCounts(l: Limits, ttl: Option<real>, es: seq<Event>, i: nat, key: string)
    requires i <= |es|
    ensures Admitted(l, ttl, es, i, i, key) == 0 && StaleDraws(l, ttl, es, i, i, key) == 0
  {
  }

  lemma GenerousRates(l: Limits, ttl: Option<real>)
    requires Generous(l, ttl)
    ensures RatesOk(l)
  {
  }

  lemma WindowOk(l: Limits, ttl: Option<real>, es: seq<Event>, j: nat)
    requires RatesOk(l) && Timed(es) && 0 < j <= |es|
    ensures Ok(l, Run(l, ttl, es[..j]), es[j - 1].now)
  {
    RunOk(l, ttl, es[..j], es[j - 1].now);
  }

  /**
   In any window of the given length a key is allowed at most capacity + rate * length requests, and one more for each
   request whose bucket was evicted between its steps.
   */
  lemma {:induction false} WindowBound(l: Limits, ttl: Option<real>, es: seq<Event>, i: nat, j: nat, key: string,
                                       length: real)
    requires Generous(l, ttl) && Timed(es) && i < j <= |es|
    requires es[j - 1].now - es[i].now <= length
    ensures Admitted(l, ttl, es, i, j, key) as real
      <= CapacityOf(l, key) + Earned(length, RateOf(l, key)) + StaleDraws(l, ttl, es, i, j, key) as real
  {
    hide Level;
    hide Ok;
    hide Earned;
    hide Run;
    hide Admitted;
    hide StaleDraws;
    var span := es[j - 1].now - es[i].now;
    Budget(l, ttl, es, i, j, key);
    Cut(es, j - 1, es[|es| - 1].now);
    WindowOk(l, ttl, es, j);
    LevelBounds(l, Run(l, ttl, es[..j]), key, es[j - 1].now);
    EarnedAdds(span, length - span, RateOf(l, key));
    assert span + (length - span) == length;
    EarnedNonNegative(length - span, RateOf(l, key));
  }

  lemma {:induction false} CountsSplit(l: Limits, ttl: Option<real>, es: seq<Event>, i: nat, m: nat, j: nat,
                                       key: string)
    requires i <= m <= j <= |es|
    ensures Admitted(l, ttl, es, i, j, key) == Admitted(l, ttl, es, i, m, key) + Admitted(l, ttl, es, m, j, key)
    ensures StaleDraws(l, ttl, es, i, j, key) == StaleDraws(l, ttl, es, i, m, key) + StaleDraws(l, ttl, es, m, j, key)
    decreases j
  {
    hide Run;
    hide Answer;
    hide StaleAt;
    hide Draws;
    if m < j {
      CountsSplit(l, ttl, es, i, m, j - 1, key);
    }
  }

  lemma {:induction false} CountsPrefix(l: Limits, ttl: Option<real>, es: seq<Event>, fs: seq<Event>, i: nat, j: nat,
                                        key: string)
    requires es <= fs && i <= j <= |es|
    ensures Admitted(l, ttl, fs, i, j, key) == Admitted(l, ttl, es, i, j, key)
    ensures StaleDraws(l, ttl, fs, i, j, key) == StaleDraws(l, ttl, es, i, j, key)
    decreases j
  {
    hide Run;
    hide Step;
    hide Stale;
    hide Draws;
    if i < j {
      assert fs[..j - 1] == es[..j - 1];
      CountsPrefix(l, ttl, es, fs, i, j - 1, key);
    }
  }

  /** A prompt request that finds a token counts as one allowed draw, none of them stale. */
  lemma PromptCounts(l: Limits, ttl: Option<real>, es: seq<Event>, key: string, now: real)
    requires RatesOk(l) && Until(es, now) && Level(l, Run(l, ttl, es), key, now) >= 1.0
    ensures var fs := Prompt(es, l, key, now);
      && |fs| == |es| + 2
      && Admitted(l, ttl, fs, |es|, |es| + 2, key) == 1 && StaleDraws(l, ttl, fs, |es|, |es| + 2, key) == 0
  {
    hide Run;
    hide Answer;
    hide StaleAt;
    hide Draws;
    hide Level;
    var fs := Prompt(es, l, key, now);
    PromptRequest(l, ttl, es, key, now);
    LookupDrawsNothing(l, ttl, fs, |es|, key);
    assert Admitted(l, ttl, fs, |es|, |es| + 1, key) == 0;
    assert StaleDraws(l, ttl, fs, |es|, |es| + 1, key) == 0;
  }

  lemma LookupDrawsNothing(l: Limits, ttl: Option<real>, es: seq<Event>, i: nat, key: string)
    requires i < |es| && !es[i].Draw?
    ensures !Draws(Run(l, ttl, es[..i]), es[i], key)
  {
  }

  /** As many prompt requests in a row as there are tokens are all allowed. */
  lemma {:induction false} Burst(l: Limits, ttl: Option<real>, es: seq<Event>, key: string, now: real, n: nat)
    returns (fs: seq<Event>)
    requires RatesOk(l) && Until(es, now) && Level(l, Run(l, ttl, es), key, now) >= n as real
    ensures es <= fs && Until(fs, now) && (n > 0 ==> |fs| > |es| && fs[|fs| - 1].now == now)
    ensures Admitted(l, ttl, fs, |es|, |fs|, key) == n && StaleDraws(l, ttl, fs, |es|, |fs|, key) == 0
    decreases n
  {
    hide Run;
    hide Answer;
    hide StaleAt;
    hide Draws;
    hide Level;
    if n == 0 {
      fs := es;
    } else {
      var mid := Prompt(es, l, key, now);
      PromptRequest(l, ttl, es, key, now);
      PromptCounts(l, ttl, es, key, now);
      fs := Burst(l, ttl, mid, key, now, n - 1);
      CountsSplit(l, ttl, fs, |es|, |mid|, |fs|, key);
      CountsPrefix(l, ttl, mid, fs, |es|, |mid|, key);
    }
  }

  /** A request that looked its bucket up, a cleanup that evicted it much later, and then the draw. */
  function LateDraw(key: string, now: real): seq<Event> {
    [Lookup(key, 0.0), Sweep(key, now, now), Draw(0, now)]
  }

  lemma FullIsAllowed(l: Limits, s: State, now: real)
    requires RatesOk(l) && now >= 0.0 && CanDraw(s, 0)
    requires var b := s.heap[s.calls[0].bucket];
      b == NewBucket(b.key, RateOf(l, b.key), CapacityOf(l, b.key), 0.0) && b.capacity >= 1.0
    ensures DrawStep(s, 0, now).1 && DrawStep(s, 0, now).0.table == s.table
  {
    hide Earned;
    var b := s.heap[s.calls[0].bucket];
    assert now - b.last == now;
    EarnedNonNegative(now, b.rate);
  }

  lemma LateDrawIsStale(l: Limits, ttl: real, key: string, now: real)
    requires RatesOk(l) && CapacityOf(l, key) >= 1.0 && ttl < now && now >= 0.0
    ensures var es := LateDraw(key, now); var s := Run(l, Some(ttl), es);
      && Until(es, now) && key !in s.table
      && Admitted(l, Some(ttl), es, 2, 3, key) == 1 && StaleDraws(l, Some(ttl), es, 2, 3, key) == 1
  {
    hide Refilled;
    hide DrawStep;
    var es, b := LateDraw(key, now), NewBucket(key, RateOf(l, key), CapacityOf(l, key), 0.0);
    assert es[..3] == es && es[..3][..2] == es[..2] && es[..2][..1] == es[..1] && es[..1][..0] == [];
    assert Run(l, Some(ttl), []) == NOTHING;
    assert Run(l, Some(ttl), es[..1]) == LookupStep(l, NOTHING, key, 0.0) ==
      State([b], map[key := 0], [Call(key, 0, true)]);
    var swept := State([b], map[], [Call(key, 0, true)]);
    assert map[key := 0] - {key} == map[];
    assert Run(l, Some(ttl), es[..2]) == swept;
    assert Stale(swept, 0) && Draws(swept, es[2], key);
    FullIsAllowed(l, swept, now);
    assert Admitted(l, Some(ttl), es, 2, 2, key) == 0;
  }

  /**
   The bound is reached: with a whole capacity n, one stale draw and n prompt requests are all allowed at one moment.
   */
  lemma BoundIsReached(l: Limits, ttl: real, key: string, n: nat) returns (es: seq<Event>)
    requires Generous(l, Some(ttl)) && n >= 1 && CapacityOf(l, key) == n as real
    ensures Timed(es) && |es| > 2 && es[|es| - 1].now == es[2].now
    ensures Admitted(l, Some(ttl), es, 2, |es|, key) == n + 1 && StaleDraws(l, Some(ttl), es, 2, |es|, key) == 1
  {
    hide Run;
    hide Answer;
    hide StaleAt;
    hide Draws;
    hide Earned;
    var now := if ttl > 0.0 then ttl + 1.0 else 1.0;
    var late := LateDraw(key, now);
    LateDrawIsStale(l, ttl, key, now);
    es := Burst(l, Some(ttl), late, key, now, n);
    CountsSplit(l, Some(ttl), es, 2, 3, |es|, key);
    CountsPrefix(l, Some(ttl), late, es, 2, 3, key);
  }

  // ---------- The limiter ----------

  /** The map without its idle buckets. */
  function Swept(s: State, keys: set<string>, cutoff: real): State {
    s.(table := map k | k in s.table && !(k in keys && Idle(s, k, cutoff)) :: s.table[k])
  }

  /** What a cleanup leaves: the keys not looked at, and those used at the cutoff or later, with their buckets. */
  lemma SweptIff(l: Limits, s: State, keys: set<string>, cutoff: real, now: real)
    requires Ok(l, s, now)
    ensures var t := Swept(s, keys, cutoff);
      && t.heap == s.heap && t.calls == s.calls
      && (forall k :: k in t.table <==> k in s.table && (k in keys ==> s.heap[s.table[k]].last >= cutoff))
      && (forall k :: k in t.table ==> t.table[k] == s.table[k])
  {
  }

  function Sweeps(keys: seq<string>, started: real, now: real): seq<Event> {
    seq(|keys|, i requires 0 <= i < |keys| => Sweep(keys[i], started, now))
  }

  /** A cleanup is one sweep for every key of the map, in any order. */
  lemma {:induction false} CleanupIsSweeps(l: Limits, ttl: real, es: seq<Event>, keys: seq<string>, started: real,
                                           now: real)
    requires forall i, j :: 0 <= i < j < |keys| ==> keys[i] != keys[j]
    ensures Run(l, Some(ttl), es + Sweeps(keys, started, now)) ==
      Swept(Run(l, Some(ttl), es), (set k | k in keys), started - ttl)
  {
    hide Swept;
    hide Idle;
    hide Run;
    var s := Run(l, Some(ttl), es);
    if keys == [] {
      assert es + Sweeps(keys, started, now) == es;
      assert (set k | k in keys) == {};
      NothingSwept(s, started - ttl);
    } else {
      var n := |keys| - 1;
      var before, e := es + Sweeps(keys[..n], started, now), Sweep(keys[n], started, now);
      var done := set k | k in keys[..n];
      CleanupIsSweeps(l, ttl, es, keys[..n], started, now);
      assert es + Sweeps(keys, started, now) == before + [e];
      RunExtended(l, Some(ttl), before, e);
      SweptOne(s, done, keys[n], started - ttl);
      assert (set k | k in keys) == done + {keys[n]};
    }
  }

  class TokenBucket {
    const rate: real
    const capacity: real
    var tokens: real
    var lastTime: real
    /** The key the bucket was created for, and how many were created before it. */
    ghost const key: string
    ghost const index: nat

    constructor (key: string, ghost index: nat, rate: real, capacity: real, now: real)
      ensures this.index == index && View() == NewBucket(key, rate, capacity, now)
    {
      this.key, this.index, this.rate, this.capacity, tokens, lastTime := key, index, rate, capacity, capacity, now;
    }

    ghost function View(): Bucket
      reads this
    {
      Bucket(key, rate, capacity, tokens, lastTime)
    }

    method Allow(now: real) returns (ok: bool)
      modifies this
      ensures (View(), ok) == Take(old(View()), now)
    {
      hide Earned;
      var elapsed := now - lastTime;
      tokens := tokens + Earned(elapsed, rate);
      if tokens > capacity {
        tokens := capacity;
      }
      lastTime := now;
      if tokens >= 1.0 {
        tokens := tokens - 1.0;
        return true;
      }
      return false;
    }
  }

  class RateLimiter {
    var buckets: map<string, TokenBucket>
    const ipRate: real
    const userRate: real

    /** All buckets ever created, and the requests so far. */
    ghost var created: seq<TokenBucket>
    ghost var calls: seq<Call>

    constructor (ipRate: real, userRate: real)
      ensures this.ipRate == ipRate && this.userRate == userRate
      ensures Valid() && View() == NOTHING
    {
      this.ipRate, this.userRate, buckets := ipRate, userRate, map[];
      created, calls := [], [];
    }

    ghost predicate Valid()
      reads this
    {
      && (forall i :: 0 <= i < |created| ==> created[i].index == i)
      && (forall k :: k in buckets ==> buckets[k].index < |created| && created[buckets[k].index] == buckets[k])
    }

    ghost function View(): State
      reads this, created
    {
      State(seq(|created|, i requires 0 <= i < |created| reads this, created => created[i].View()),
            map k | k in buckets :: buckets[k].index, calls)
    }

    ghost function LimitsOf(): Limits {
      Limits(ipRate, userRate)
    }

    /** The part of allow under the limiter's lock: find the bucket or create it. */
    method Find(key: string, rate: real, capacity: real, now: real) returns (bucket: TokenBucket)
      requires Valid() && rate == RateOf(LimitsOf(), key) && capacity == CapacityOf(LimitsOf(), key)
      modifies this`buckets, this`created, this`calls
      ensures Valid() && |calls| == |old(calls)| + 1 && calls[|old(calls)|].bucket < |created|
      ensures bucket == created[calls[|old(calls)|].bucket]
      ensures View() == LookupStep(LimitsOf(), old(View()), key, now)
      ensures forall x :: x in created ==> x in old(created) || fresh(x)
    {
      hide Idle;
      ghost var before := View();
      if key !in buckets {
        Create(key, rate, capacity, now);
      }
      bucket := buckets[key];
      assert View().table[key] == bucket.index;
      calls := calls + [Call(key, bucket.index, true)];
      assert View().calls == before.calls + [Call(key, bucket.index, true)];
      assert View().heap == LookupStep(LimitsOf(), before, key, now).heap;
      assert View().table == LookupStep(LimitsOf(), before, key, now).table;
    }

    /** A new bucket for a key that has none. */
    method Create(key: string, rate: real, capacity: real, now: real)
      requires Valid() && key !in buckets
      modifies this`buckets, this`created
      ensures Valid() && key in buckets && forall x :: x in created ==> x in old(created) || fresh(x)
      ensures var s := old(View());
        View() == State(s.heap + [NewBucket(key, rate, capacity, now)], s.table[key := |s.heap|], s.calls)
    {
      ghost var before := View();
      var bucket := new TokenBucket(key, |created|, rate, capacity, now);
      buckets := buckets[key := bucket];
      created := created + [bucket];
      assert View().heap == before.heap + [bucket.View()];
      assert View().table == before.table[key := |before.heap|];
    }

    /** The part of allow after the limiter's lock is released; request i drew its bucket some time before. */
    method DrawFrom(bucket: TokenBucket, ghost i: nat, now: real) returns (ok: bool)
      requires Valid() && CanDraw(View(), i) && created[calls[i].bucket] == bucket
      modifies this`calls, bucket
      ensures Valid() && (View(), ok) == DrawStep(old(View()), i, now)
    {
      hide Take;
      ghost var before := View();
      ok := bucket.Allow(now);
      calls := calls[i := calls[i].(pending := false)];
      assert View().heap == before.heap[bucket.index := bucket.View()];
      assert View().table == before.table;
    }

    /** Both parts, when nothing comes in between. */
    method Allow(key: string, rate: real, capacity: real, now: real) returns (ok: bool)
      requires Valid() && rate == RateOf(LimitsOf(), key) && capacity == CapacityOf(LimitsOf(), key)
      modifies this`buckets, this`created, this`calls, created
      ensures Valid() && forall x :: x in created ==> x in old(created) || fresh(x)
      ensures (View(), ok) == DrawStep(LookupStep(LimitsOf(), old(View()), key, now), |old(calls)|, now)
    {
      hide DrawStep;
      hide LookupStep;
      var bucket := Find(key, rate, capacity, now);
      assert bucket in created;
      LookupIsPending(LimitsOf(), old(View()), key, now);
      ok := DrawFrom(bucket, |old(calls)|, now);
    }

    method AllowIP(ip: string, now: real) returns (ok: bool)
      requires Valid()
      modifies this`buckets, this`created, this`calls, created
      ensures Valid() && forall x :: x in created ==> x in old(created) || fresh(x)
      ensures (View(), ok) == DrawStep(LookupStep(LimitsOf(), old(View()), KeyOf(IP(ip)), now), |old(calls)|, now)
    {
      hide DrawStep;
      hide LookupStep;
      ok := Allow("ip:" + ip, ipRate, ipRate * 2.0, now);
    }

    method AllowUser(userID: string, now: real) returns (ok: bool)
      requires Valid()
      modifies this`buckets, this`created, this`calls, created
      ensures Valid() && forall x :: x in created ==> x in old(created) || fresh(x)
      ensures (View(), ok) == DrawStep(LookupStep(LimitsOf(), old(View()), KeyOf(User(userID)), now), |old(calls)|, now)
    {
      hide DrawStep;
      hide LookupStep;
      ok := Allow("user:" + userID, userRate, userRate * 2.0, now);
    }

    /** Under the limiter's lock, look at every bucket and drop the idle ones. */
    method Cleanup(ttl: real, now: real)
      requires Valid()
      modifies this`buckets
      ensures Valid()
      ensures View() == Swept(old(View()), old(buckets).Keys, now - ttl)
    {
      hide Swept;
      hide Idle;
      hide RateLimiter.View;
      hide RateLimiter.Valid;
      var cutoff := now - ttl;
      var keys := buckets.Keys;
      ghost var before, all, done := View(), buckets.Keys, {};
      NothingSwept(before, cutoff);
      while keys != {}
        invariant Valid() && keys <= buckets.Keys
        invariant done !! keys && done + keys == all
        invariant View() == Swept(before, done, cutoff)
        decreases |keys|
      {
        var key :| key in keys;
        SweptOne(before, done, key, cutoff);
        SweepBucket(key, cutoff);
        MoveOver(done, keys, key, all);
        keys, done := keys - {key}, done + {key};
      }
    }

    /** One iteration of the cleanup's loop. */
    method SweepBucket(key: string, cutoff: real)
      requires Valid() && key in buckets
      modifies this`buckets
      ensures Valid() && buckets.Keys >= old(buckets).Keys - {key}
      ensures var s := old(View());
        View() == if Idle(s, key, cutoff) then s.(table := s.table - {key}) else s
    {
      hide Idle;
      IdleBucket(key, cutoff);
      ghost var before := View();
      if buckets[key].lastTime < cutoff {
        buckets := buckets - {key};
        assert View().table == before.table - {key};
        assert View().heap == before.heap;
      }
    }

    /** Whether a bucket is idle can be read off it. */
    lemma IdleBucket(key: string, cutoff: real)
      requires Valid() && key in buckets
      ensures Idle(View(), key, cutoff) <==> buckets[key].lastTime < cutoff
    {
    }
  }

  lemma MoveOver(done: set<string>, keys: set<string>, key: string, all: set<string>)
    requires done !! keys && done + keys == all && key in keys
    ensures key !in done && (done + {key}) !! (keys - {key}) && done + {key} + (keys - {key}) == all
  {
  }

  lemma NothingSwept(s: State, cutoff: real)
    ensures Swept(s, {}, cutoff) == s
  {
    assert Swept(s, {}, cutoff).table == s.table;
  }

  /** Looking at one more key drops it if it is idle. */
  lemma SweptOne(s: State, done: set<string>, key: string, cutoff: real)
    requires key !in done
    ensures var t := Swept(s, done, cutoff);
      && (Idle(t, key, cutoff) <==> Idle(s, key, cutoff))
      && Swept(s, done + {key}, cutoff) == if Idle(s, key, cutoff) then t.(table := t.table - {key}) else t
  {
    var t, u := Swept(s, done, cutoff), Swept(s, done + {key}, cutoff);
    if Idle(s, key, cutoff) {
      assert u.table == t.table - {key};
    } else {
      assert u.table == t.table;
    }
  }

  lemma LookupIsPending(l: Limits, s: State, key: string, now: real)
    requires forall k :: k in s.table ==> s.table[k] < |s.heap|
    ensures CanDraw(LookupStep(l, s, key, now), |s.calls|)
  {
  }
}
