/**
 The per-address token bucket, its idle sweeper and the Retry-After it emits.

 Tokens are real numbers, as in the code but without rounding. `Credit` counts the same thing
 in whole nanoseconds; the code's bucket is proved to follow it exactly, and the bounds are
 proved on it. Times are nanoseconds.
 */
module RateLimiter {
  import opened Core

  /** How long an address has to be quiet before the sweeper drops its bucket. */
  const IDLE_WINDOW := 300_000_000_000
  const SECOND := 1_000_000_000

  datatype Params = Params(refill: int, burst: int)

  /** NewRateLimiter panics below one millisecond; the burst is not checked. */
  predicate ValidParams(p: Params) {
    p.refill >= 1_000_000
  }

  datatype Bucket = Bucket(tokens: real, lastCheck: int)

  datatype Verdict = Verdict(allowed: bool, wait: int)

  // ------------------------------------------------------- the code's bucket

  function Refilled(p: Params, b: Bucket, now: int): real
    requires ValidParams(p)
  {
    var tokens := b.tokens + (now - b.lastCheck) as real / p.refill as real;
    if tokens > p.burst as real then p.burst as real else tokens
  }

  function Allow(p: Params, b: Option<Bucket>, now: int): (Bucket, Verdict)
    requires ValidParams(p)
  {
    if b.None? then (Bucket(p.burst as real - 1.0, now), Verdict(true, 0))
    else
      var tokens := Refilled(p, b.value, now);
      if tokens < 1.0 then (Bucket(tokens, now), Verdict(false, ((1.0 - tokens) * p.refill as real).Floor))
      else (Bucket(tokens - 1.0, now), Verdict(true, 0))
  }

  /** The whole seconds setRetryAfter writes: rounded up, never less than one. */
  function RetryAfter(wait: int): int {
    Max((wait + SECOND - 1) / SECOND, 1)
  }

  /** The least whole number of seconds, at least one, that covers the wait. */
  lemma RetryAfterIsTheLeast(wait: int)
    ensures RetryAfter(wait) >= 1 && RetryAfter(wait) * SECOND >= wait
    ensures forall k :: k >= 1 && k * SECOND >= wait ==> RetryAfter(wait) <= k
  {
    var q := (wait + SECOND - 1) / SECOND;
    assert wait <= q * SECOND < wait + SECOND;
  }

  // ------------------------------------------------------- the same in nanoseconds

  datatype Credit = Credit(ns: int, lastCheck: int)

  function Full(p: Params): int {
    p.burst * p.refill
  }

  /** Credit at `now`: one nanosecond is earned per nanosecond, up to a full bucket. */
  function At(p: Params, c: Option<Credit>, now: int): int {
    if c.None? then Full(p)
    else if c.value.ns + (now - c.value.lastCheck) > Full(p) then Full(p)
    else c.value.ns + (now - c.value.lastCheck)
  }

  function Spend(p: Params, c: Option<Credit>, now: int): (Credit, Verdict) {
    if c.None? || At(p, c, now) >= p.refill then (Credit(At(p, c, now) - p.refill, now), Verdict(true, 0))
    else (Credit(At(p, c, now), now), Verdict(false, p.refill - At(p, c, now)))
  }

  ghost predicate Follows(p: Params, b: Option<Bucket>, c: Option<Credit>)
    requires ValidParams(p)
  {
    && (b.Some? <==> c.Some?)
    && (b.Some? ==> b.value.tokens == c.value.ns as real / p.refill as real && b.value.lastCheck == c.value.lastCheck)
  }

  lemma ScaleSum(a: int, b: int, r: int)
    requires r > 0
    ensures a as real / r as real + b as real / r as real == (a + b) as real / r as real
  {
    var x := a as real / r as real;
    var y := b as real / r as real;
    assert (x + y) * r as real == (a + b) as real;
  }

  lemma ScaleOrder(a: int, k: int, r: int)
    requires r > 0
    ensures a as real / r as real > k as real <==> a > k * r
    ensures a as real / r as real < k as real <==> a < k * r
    ensures (k * r) as real / r as real == k as real
  {
    var x := a as real / r as real;
    assert x * r as real == a as real;
    assert (k * r) as real == k as real * r as real;
    if x > k as real { assert x * r as real > k as real * r as real; }
    if x < k as real { assert x * r as real < k as real * r as real; }
  }

  lemma ScaleWait(a: int, r: int)
    requires r > 0
    ensures ((1.0 - a as real / r as real) * r as real).Floor == r - a
  {
    var x := a as real / r as real;
    assert (1.0 - x) * r as real == (r - a) as real;
  }

  /** Real tokens and whole nanoseconds give the same verdicts and the same waits, for ever. */
  lemma TokensFollowCredit(p: Params, b: Option<Bucket>, c: Option<Credit>, now: int)
    requires ValidParams(p) && Follows(p, b, c)
    ensures Allow(p, b, now).1 == Spend(p, c, now).1
    ensures Follows(p, Some(Allow(p, b, now).0), Some(Spend(p, c, now).0))
  {
    var r, a := p.refill, At(p, c, now);
    ScaleSum(a - r, r, r);
    ScaleOrder(r, 1, r);
    if b.None? {
      ScaleOrder(Full(p), p.burst, r);
    } else {
      RefilledIsAt(p, b.value, c.value, now);
      ScaleOrder(a, 1, r);
      ScaleWait(a, r);
    }
  }

  lemma RefilledIsAt(p: Params, b: Bucket, c: Credit, now: int)
    requires ValidParams(p) && Follows(p, Some(b), Some(c))
    ensures Refilled(p, b, now) == At(p, Some(c), now) as real / p.refill as real
  {
    ScaleSum(c.ns, now - c.lastCheck, p.refill);
    ScaleOrder(c.ns + (now - c.lastCheck), p.burst, p.refill);
  }

  // ------------------------------------------------------- runs over all addresses

  datatype Event = Request(ip: string, now: int) | Sweep(now: int)

  type Limiter = map<string, Credit>

  function Lookup<T>(m: map<string, T>, ip: string): Option<T> {
    if ip in m then Some(m[ip]) else None
  }

  function Swept(m: Limiter, now: int): Limiter {
    map ip | ip in m && now - m[ip].lastCheck <= IDLE_WINDOW :: m[ip]
  }

  function Step(p: Params, m: Limiter, e: Event): Limiter {
    match e
    case Request(ip, now) => m[ip := Spend(p, Lookup(m, ip), now).0]
    case Sweep(now) => Swept(m, now)
  }

  function Run(p: Params, m: Limiter, es: seq<Event>): Limiter {
    if es == [] then m else Step(p, Run(p, m, es[..|es| - 1]), es[|es| - 1])
  }

  /** The clock never steps back. */
  ghost predicate Ordered(es: seq<Event>) {
    forall i, j :: 0 <= i < j < |es| ==> es[i].now <= es[j].now
  }

  function Granted(p: Params, m: Limiter, ip: string, e: Event): nat {
    if e.Request? && e.ip == ip && Spend(p, Lookup(m, ip), e.now).1.allowed then 1 else 0
  }

  /** Requests of `ip` let through while `es` runs from `m`. */
  function Grants(p: Params, m: Limiter, ip: string, es: seq<Event>): nat {
    if es == [] then 0
    else Grants(p, m, ip, es[..|es| - 1]) + Granted(p, Run(p, m, es[..|es| - 1]), ip, es[|es| - 1])
  }

  /** The credit those requests cost. */
  function Spent(p: Params, m: Limiter, ip: string, es: seq<Event>): int {
    if es == [] then 0
    else
      var b := Run(p, m, es[..|es| - 1]);
      Spent(p, m, ip, es[..|es| - 1]) + if Granted(p, b, ip, es[|es| - 1]) == 1 then p.refill else 0
  }

  lemma {:induction false} SpentIsGrants(p: Params, m: Limiter, ip: string, es: seq<Event>)
    ensures Spent(p, m, ip, es) == Grants(p, m, ip, es) * p.refill
  {
    if es != [] {
      var front := es[..|es| - 1];
      SpentIsGrants(p, m, ip, front);
      var before, one := Grants(p, m, ip, front), Granted(p, Run(p, m, front), ip, es[|es| - 1]);
      assert Grants(p, m, ip, es) == before + one;
      assert Spent(p, m, ip, es) == before * p.refill + if one == 1 then p.refill else 0;
      Distribute(before, one, p.refill);
    }
  }

  /** Buckets hold no debt and were last touched no later than `t`. */
  ghost predicate Sound(m: Limiter, t: int) {
    forall ip :: ip in m ==> m[ip].ns >= 0 && m[ip].lastCheck <= t
  }

  /** A dropped bucket would have been full anyway. */
  predicate Roomy(p: Params) {
    Full(p) <= IDLE_WINDOW + 1
  }

  predicate NoSweeps(es: seq<Event>) {
    forall i :: 0 <= i < |es| ==> es[i].Request?
  }

  lemma StepSound(p: Params, m: Limiter, e: Event, t: int)
    requires ValidParams(p) && p.burst >= 1 && Sound(m, t) && t <= e.now
    ensures Sound(Step(p, m, e), e.now)
  {
    assert Full(p) >= p.refill;
  }

  /** One event: what is granted is paid for out of the credit, and a sweep of a roomy limiter gives nothing away. */
  lemma StepPays(p: Params, m: Limiter, ip: string, e: Event, t: int)
    requires ValidParams(p) && p.burst >= 1 && Sound(m, t) && t <= e.now
    requires e.Request? || Roomy(p)
    ensures (if Granted(p, m, ip, e) == 1 then p.refill else 0) + At(p, Lookup(Step(p, m, e), ip), e.now)
            <= At(p, Lookup(m, ip), t) + (e.now - t)
  {
    assert Full(p) >= p.refill;
  }

  /** Over a whole run the grants never exceed the credit at its start plus the time that passed. */
  lemma {:induction false} GrantsArePaidFor(p: Params, m: Limiter, ip: string, es: seq<Event>, t: int, u: int)
    requires ValidParams(p) && p.burst >= 1 && Sound(m, t) && Ordered(es)
    requires forall i :: 0 <= i < |es| ==> t <= es[i].now <= u
    requires t <= u && (Roomy(p) || NoSweeps(es))
    ensures Sound(Run(p, m, es), u)
    ensures Spent(p, m, ip, es) + At(p, Lookup(Run(p, m, es), ip), u) <= At(p, Lookup(m, ip), t) + (u - t)
  {
    if es == [] {
      AtGrows(p, Lookup(m, ip), t, u);
    } else {
      var front, last := es[..|es| - 1], es[|es| - 1];
      GrantsArePaidFor(p, m, ip, front, t, last.now);
      var b := Run(p, m, front);
      StepSound(p, b, last, last.now);
      StepPays(p, b, ip, last, last.now);
      AtGrows(p, Lookup(Step(p, b, last), ip), last.now, u);
    }
  }

  lemma Distribute(g: int, k: int, r: int)
    ensures (g + k) * r == g * r + k * r
  {
  }

  lemma AtGrows(p: Params, c: Option<Credit>, t: int, u: int)
    requires t <= u
    ensures At(p, c, u) <= At(p, c, t) + (u - t)
  {
  }

  /**
   In any stretch of a run that lasts `T`, whatever came before it and with sweeps anywhere, one
   address gets at most burst + T / refill requests through.
   */
  lemma AtMostBurstPlusRefills(p: Params, before: seq<Event>, es: seq<Event>, ip: string, t: int, T: nat)
    requires ValidParams(p) && p.burst >= 1 && (Roomy(p) || NoSweeps(before + es))
    requires Ordered(before + es)
    requires forall i :: 0 <= i < |before| ==> before[i].now <= t
    requires forall i :: 0 <= i < |es| ==> t <= es[i].now <= t + T
    ensures Grants(p, Run(p, map[], before), ip, es) * p.refill <= Full(p) + T
  {
    assert forall i :: 0 <= i < |before| ==> (before + es)[i] == before[i];
    assert forall i :: 0 <= i < |es| ==> (before + es)[|before| + i] == es[i];
    var t0 := if before == [] then t else before[0].now;
    assert NoSweeps(before + es) ==> NoSweeps(before) && NoSweeps(es);
    GrantsArePaidFor(p, map[], ip, before, t0, t);
    GrantsArePaidFor(p, Run(p, map[], before), ip, es, t, t + T);
    AtIsNotNegative(p, Run(p, Run(p, map[], before), es), ip, t + T);
    SpentIsGrants(p, Run(p, map[], before), ip, es);
  }

  lemma AtIsNotNegative(p: Params, m: Limiter, ip: string, t: int)
    requires ValidParams(p) && p.burst >= 1 && Sound(m, t)
    ensures 0 <= At(p, Lookup(m, ip), t) <= Full(p)
  {
  }

  // ------------------------------------------------------- the sweeper is invisible

  /** The verdicts a run hands out, in order. */
  function Verdicts(p: Params, m: Limiter, es: seq<Event>): seq<Verdict> {
    if es == [] then []
    else
      var front, last := es[..|es| - 1], es[|es| - 1];
      if last.Sweep? then Verdicts(p, m, front)
      else Verdicts(p, m, front) + [Spend(p, Lookup(Run(p, m, front), last.ip), last.now).1]
  }

  function WithoutSweeps(es: seq<Event>): seq<Event> {
    if es == [] then []
    else if es[|es| - 1].Sweep? then WithoutSweeps(es[..|es| - 1])
    else WithoutSweeps(es[..|es| - 1]) + [es[|es| - 1]]
  }

  /** `swept` is `kept` without some buckets that are full at `t`. */
  ghost predicate OnlyFullDropped(p: Params, swept: Limiter, kept: Limiter, t: int) {
    forall ip ::
      && (ip in swept ==> ip in kept && swept[ip] == kept[ip])
      && (ip !in swept && ip in kept ==> At(p, Some(kept[ip]), t) == Full(p))
  }

  lemma {:induction false} SweptRunMatches(p: Params, es: seq<Event>, u: int)
    requires ValidParams(p) && p.burst >= 1 && Roomy(p) && Ordered(es)
    requires forall i :: 0 <= i < |es| ==> es[i].now <= u
    ensures Sound(Run(p, map[], es), u) && Sound(Run(p, map[], WithoutSweeps(es)), u)
    ensures OnlyFullDropped(p, Run(p, map[], es), Run(p, map[], WithoutSweeps(es)), u)
    ensures Verdicts(p, map[], es) == Verdicts(p, map[], WithoutSweeps(es))
  {
    if es != [] {
      var front, last := es[..|es| - 1], es[|es| - 1];
      SweptRunMatches(p, front, last.now);
      var a, b := Run(p, map[], front), Run(p, map[], WithoutSweeps(front));
      StepSound(p, a, last, last.now);
      if last.Request? {
        var kept := WithoutSweeps(es);
        assert kept[..|kept| - 1] == WithoutSweeps(front);
        StepSound(p, b, last, last.now);
        SameRequest(p, a, b, last);
        FullStaysFull(p, Step(p, a, last), Step(p, b, last), last.now, u);
      } else {
        SweepDropsFull(p, a, b, last.now);
        FullStaysFull(p, Swept(a, last.now), b, last.now, u);
      }
    }
  }

  lemma SameRequest(p: Params, a: Limiter, b: Limiter, e: Event)
    requires ValidParams(p) && p.burst >= 1 && e.Request? && OnlyFullDropped(p, a, b, e.now)
    ensures Spend(p, Lookup(a, e.ip), e.now) == Spend(p, Lookup(b, e.ip), e.now)
    ensures OnlyFullDropped(p, Step(p, a, e), Step(p, b, e), e.now)
  {
    assert Full(p) >= p.refill;
  }

  lemma SweepDropsFull(p: Params, a: Limiter, b: Limiter, now: int)
    requires ValidParams(p) && Roomy(p) && Sound(a, now) && OnlyFullDropped(p, a, b, now)
    ensures OnlyFullDropped(p, Swept(a, now), b, now)
  {
  }

  lemma FullStaysFull(p: Params, a: Limiter, b: Limiter, t: int, u: int)
    requires t <= u && OnlyFullDropped(p, a, b, t)
    ensures OnlyFullDropped(p, a, b, u)
  {
  }

  // ------------------------------------------------------- and exactly when

  /** A run followed by `n` requests of one address at one instant. */
  function Volley(before: seq<Event>, ip: string, now: int, n: nat): seq<Event> {
    if n == 0 then before else Volley(before, ip, now, n - 1) + [Request(ip, now)]
  }

  /** What is left of a full bucket after `n` requests. */
  function Left(p: Params, n: nat): int {
    if n == 0 then Full(p) else Left(p, n - 1) - p.refill
  }

  lemma {:induction false} LeftIs(p: Params, n: nat)
    requires ValidParams(p) && n <= p.burst
    ensures Left(p, n) == (p.burst - n) * p.refill >= 0
  {
    if n > 0 {
      LeftIs(p, n - 1);
      Distribute(p.burst - n, 1, p.refill);
    }
  }

  lemma OneOfVolley(p: Params, c: Option<Credit>, now: int, n: nat)
    requires ValidParams(p) && 1 <= n <= p.burst
    requires c == if n == 1 then None else Some(Credit(Left(p, n - 1), now))
    ensures Spend(p, c, now) == (Credit(Left(p, n), now), Verdict(true, 0))
  {
    LeftIs(p, n);
    LeftIs(p, n - 1);
    LeftFalls(p, n - 1);
  }

  lemma {:induction false} LeftFalls(p: Params, n: nat)
    requires ValidParams(p)
    ensures Left(p, n) <= Full(p)
  {
    if n > 0 {
      LeftFalls(p, n - 1);
    }
  }

  /** What one address has been granted so far, and what is left in its bucket. */
  predicate Stands(p: Params, es: seq<Event>, ip: string, grants: nat, c: Option<Credit>) {
    Grants(p, map[], ip, es) == grants && Lookup(Run(p, map[], es), ip) == c
  }

  lemma VolleyStep(p: Params, es: seq<Event>, ip: string, now: int, grants: nat, c: Option<Credit>)
    requires Stands(p, es, ip, grants, c) && Spend(p, c, now).1.allowed
    ensures Stands(p, es + [Request(ip, now)], ip, grants + 1, Some(Spend(p, c, now).0))
  {
    var more := es + [Request(ip, now)];
    assert more[..|more| - 1] == es;
  }

  function LeftOf(p: Params, now: int, n: nat): Option<Credit> {
    if n == 0 then None else Some(Credit(Left(p, n), now))
  }

  /** A volley against a full bucket gets the whole burst through. */
  lemma {:induction false} VolleyGetsBurst(p: Params, before: seq<Event>, ip: string, now: int, grants: nat, n: nat)
    requires ValidParams(p) && n <= p.burst && Stands(p, before, ip, grants, None)
    ensures Stands(p, Volley(before, ip, now, n), ip, grants + n, LeftOf(p, now, n))
  {
    if n > 0 {
      VolleyGetsBurst(p, before, ip, now, grants, n - 1);
      OneOfVolley(p, LeftOf(p, now, n - 1), now, n);
      VolleyStep(p, Volley(before, ip, now, n - 1), ip, now, grants + n - 1, LeftOf(p, now, n - 1));
    }
  }

  lemma {:induction false} VolleyShape(before: seq<Event>, ip: string, now: int, n: nat)
    ensures var es := Volley(before, ip, now, n);
            && |es| == |before| + n && before <= es
            && forall i :: |before| <= i < |es| ==> es[i] == Request(ip, now)
  {
    if n > 0 {
      VolleyShape(before, ip, now, n - 1);
    }
  }

  /** A volley and a sweep after the idle window. */
  function BurstAndSweep(ip: string, n: nat): seq<Event> {
    Volley([], ip, 0, n) + [Sweep(IDLE_WINDOW + 1)]
  }

  /** Two volleys with a sweep between them. */
  function DoubleBurst(ip: string, n: nat): seq<Event> {
    Volley(BurstAndSweep(ip, n), ip, IDLE_WINDOW + 1, n)
  }

  /**
   A limiter that is not roomy lets two whole bursts through within the idle window, which is more
   than burst + T / refill: the sweeper is then visible and the bound fails.
   */
  lemma SweeperLeaksWhenNotRoomy(p: Params, ip: string)
    requires ValidParams(p) && p.burst >= 1 && !Roomy(p)
    ensures
      var es := DoubleBurst(ip, p.burst);
      && Ordered(es)
      && (forall i :: 0 <= i < |es| ==> 0 <= es[i].now <= IDLE_WINDOW + 1)
      && Grants(p, map[], ip, es) == 2 * p.burst
      && Grants(p, map[], ip, es) * p.refill > Full(p) + (IDLE_WINDOW + 1)
  {
    DoubleBurstShape(ip, p.burst);
    SecondVolley(p, ip);
    Distribute(p.burst, p.burst, p.refill);
  }

  lemma DoubleBurstShape(ip: string, n: nat)
    ensures
      var es := DoubleBurst(ip, n);
      Ordered(es) && forall i :: 0 <= i < |es| ==> 0 <= es[i].now <= IDLE_WINDOW + 1
  {
    VolleyShape([], ip, 0, n);
    VolleyShape(BurstAndSweep(ip, n), ip, IDLE_WINDOW + 1, n);
  }

  lemma SecondVolley(p: Params, ip: string)
    requires ValidParams(p) && p.burst >= 1
    ensures Grants(p, map[], ip, DoubleBurst(ip, p.burst)) == 2 * p.burst
  {
    var n, late := p.burst, IDLE_WINDOW + 1;
    var v, mid := Volley([], ip, 0, n), BurstAndSweep(ip, n);
    VolleyGetsBurst(p, [], ip, 0, 0, n);
    SweptAway(p, v, ip, n, LeftOf(p, 0, n).value);
    VolleyGetsBurst(p, mid, ip, late, n, n);
  }

  lemma SweptAway(p: Params, es: seq<Event>, ip: string, grants: nat, c: Credit)
    requires Stands(p, es, ip, grants, Some(c)) && c.lastCheck <= 0
    ensures Stands(p, es + [Sweep(IDLE_WINDOW + 1)], ip, grants, None)
  {
    var more := es + [Sweep(IDLE_WINDOW + 1)];
    assert more[..|more| - 1] == es;
  }

  /** With a burst below one, the very first request is let through all the same. */
  lemma EmptyBurstStillGrants(p: Params, ip: string, now: int)
    requires ValidParams(p) && p.burst <= 0
    ensures Grants(p, map[], ip, [Request(ip, now)]) * p.refill > Full(p)
  {
    assert [Request(ip, now)][..0] == [];
    assert Full(p) <= 0;
  }

  function AllowedIn(vs: seq<Verdict>): nat {
    if vs == [] then 0 else AllowedIn(vs[..|vs| - 1]) + if vs[|vs| - 1].allowed then 1 else 0
  }

  /** With a single address about, its grants are the allowed verdicts. */
  lemma {:induction false} GrantsAreVerdicts(p: Params, ip: string, es: seq<Event>)
    requires forall i :: 0 <= i < |es| && es[i].Request? ==> es[i].ip == ip
    ensures Grants(p, map[], ip, es) == AllowedIn(Verdicts(p, map[], es))
  {
    if es != [] {
      GrantsAreVerdicts(p, ip, es[..|es| - 1]);
      var vs := Verdicts(p, map[], es);
      assert es[|es| - 1].Request? ==> vs[..|vs| - 1] == Verdicts(p, map[], es[..|es| - 1]);
    }
  }

  lemma {:induction false} WithoutSweepsKeepsOrder(es: seq<Event>)
    requires Ordered(es)
    ensures Ordered(WithoutSweeps(es)) && NoSweeps(WithoutSweeps(es))
    ensures forall e :: e in WithoutSweeps(es) ==> e in es
  {
    if es != [] {
      var front := es[..|es| - 1];
      WithoutSweepsKeepsOrder(front);
      forall e | e in WithoutSweeps(front) ensures e.now <= es[|es| - 1].now {
        assert e in front;
      }
    }
  }

  lemma VisibleDifference(p: Params, ip: string, es: seq<Event>, T: nat)
    requires ValidParams(p) && p.burst >= 1 && Ordered(es)
    requires forall i :: 0 <= i < |es| ==> 0 <= es[i].now <= T && (es[i].Request? ==> es[i].ip == ip)
    requires Grants(p, map[], ip, es) * p.refill > Full(p) + T
    ensures Verdicts(p, map[], es) != Verdicts(p, map[], WithoutSweeps(es))
  {
    var kept := WithoutSweeps(es);
    WithoutSweepsKeepsOrder(es);
    forall i | 0 <= i < |kept| ensures 0 <= kept[i].now <= T && kept[i].Request? && kept[i].ip == ip {
      assert kept[i] in es;
    }
    assert [] + kept == kept;
    AtMostBurstPlusRefills(p, [], kept, ip, 0, T);
    GrantsAreVerdicts(p, ip, es);
    GrantsAreVerdicts(p, ip, kept);
  }

  ghost predicate SweepsUnseen(p: Params, es: seq<Event>) {
    Verdicts(p, map[], es) == Verdicts(p, map[], WithoutSweeps(es))
  }

  lemma DoubleBurstIsSeen(p: Params)
    requires ValidParams(p) && p.burst >= 1 && !Roomy(p)
    ensures Ordered(DoubleBurst("", p.burst)) && !SweepsUnseen(p, DoubleBurst("", p.burst))
  {
    SweeperLeaksWhenNotRoomy(p, "");
    VolleyShape([], "", 0, p.burst);
    VolleyShape(BurstAndSweep("", p.burst), "", IDLE_WINDOW + 1, p.burst);
    VisibleDifference(p, "", DoubleBurst("", p.burst), IDLE_WINDOW + 1);
  }

  /** A request, a sweep after the idle window, and the request again. */
  function AgainAfterSweep(ip: string): seq<Event> {
    [Request(ip, 0)] + [Sweep(IDLE_WINDOW + 1)] + [Request(ip, IDLE_WINDOW + 1)]
  }

  /** With a burst below one only a first request is let through, so a sweep makes a second one a first one. */
  lemma EmptyBurstIsSeen(p: Params, ip: string)
    requires ValidParams(p) && p.burst <= 0
    ensures Ordered(AgainAfterSweep(ip)) && !SweepsUnseen(p, AgainAfterSweep(ip))
  {
    var first, sweep, again := Request(ip, 0), Sweep(IDLE_WINDOW + 1), Request(ip, IDLE_WINDOW + 1);
    var credit, mid := Credit(Full(p) - p.refill, 0), [first] + [sweep];
    OneMore(p, [], first);
    OneMore(p, [first], sweep);
    OneMore(p, mid, again);
    OneMore(p, [first], again);
    assert [] + [first] == [first];
    assert Lookup(Run(p, map[], [first]), ip) == Some(credit);
    assert Lookup(Run(p, map[], mid), ip) == None;
    KnownIsRefused(p, credit, again.now);
    assert Verdicts(p, map[], AgainAfterSweep(ip))[1] != Verdicts(p, map[], [first] + [again])[1];
  }

  /** What one more event adds to the state, to the verdicts and to the events without sweeps. */
  lemma OneMore(p: Params, front: seq<Event>, e: Event)
    ensures Run(p, map[], front + [e]) == Step(p, Run(p, map[], front), e)
    ensures Verdicts(p, map[], front + [e]) ==
            Verdicts(p, map[], front) + if e.Sweep? then [] else [Spend(p, Lookup(Run(p, map[], front), e.ip), e.now).1]
    ensures WithoutSweeps(front + [e]) == WithoutSweeps(front) + if e.Sweep? then [] else [e]
  {
    assert (front + [e])[..|front|] == front;
  }

  /** With a burst below one, whoever has a bucket is refused at all times. */
  lemma KnownIsRefused(p: Params, c: Credit, now: int)
    requires ValidParams(p) && p.burst <= 0
    ensures !Spend(p, Some(c), now).1.allowed && Spend(p, Some(c), now).1.wait > 0
  {
    assert Full(p) <= 0;
  }

  /**
   Sweeping changes no verdict in any run exactly when the burst is at least one and a full bucket
   takes no longer than the idle window to fill.
   */
  lemma SweeperIsInvisibleExactlyWhen(p: Params)
    requires ValidParams(p)
    ensures p.burst >= 1 && Roomy(p) <==> forall es :: Ordered(es) ==> SweepsUnseen(p, es)
  {
    if p.burst <= 0 {
      EmptyBurstIsSeen(p, "");
    } else if Roomy(p) {
      forall es: seq<Event> | Ordered(es) ensures SweepsUnseen(p, es) {
        SweptRunMatches(p, es, if es == [] then 0 else es[|es| - 1].now);
      }
    } else {
      DoubleBurstIsSeen(p);
    }
  }

  /** `es` is a stretch of a run, after `before`, that lasts `T` from `t` on. */
  ghost predicate Stretch(before: seq<Event>, es: seq<Event>, t: int, T: nat) {
    && Ordered(before + es)
    && (forall i :: 0 <= i < |before| ==> before[i].now <= t)
    && (forall i :: 0 <= i < |es| ==> t <= es[i].now <= t + T)
  }

  predicate Bounded(p: Params, before: seq<Event>, es: seq<Event>, ip: string, T: nat) {
    Grants(p, Run(p, map[], before), ip, es) * p.refill <= Full(p) + T
  }

  /** The bound of burst + T / refill holds of every stretch of every run under that same condition and no other. */
  lemma BoundHoldsExactlyWhen(p: Params)
    requires ValidParams(p)
    ensures p.burst >= 1 && Roomy(p) <==>
            forall before, es, ip, t, T :: Stretch(before, es, t, T) ==> Bounded(p, before, es, ip, T)
  {
    if p.burst <= 0 {
      EmptyBurstStillGrants(p, "", 0);
      assert Stretch([], [Request("", 0)], 0, 0) && !Bounded(p, [], [Request("", 0)], "", 0);
    } else if Roomy(p) {
      forall before, es, ip, t, T | Stretch(before, es, t, T) ensures Bounded(p, before, es, ip, T) {
        AtMostBurstPlusRefills(p, before, es, ip, t, T);
      }
    } else {
      var es := DoubleBurst("", p.burst);
      SweeperLeaksWhenNotRoomy(p, "");
      assert [] + es == es;
      assert Stretch([], es, 0, IDLE_WINDOW + 1) && !Bounded(p, [], es, "", IDLE_WINDOW + 1);
    }
  }

  // ------------------------------------------------------- the code's limiter

  type Clients = map<string, Bucket>

  function Dropped(m: Clients, now: int): Clients {
    map ip | ip in m && now - m[ip].lastCheck <= IDLE_WINDOW :: m[ip]
  }

  function ClientsStep(p: Params, m: Clients, e: Event): Clients
    requires ValidParams(p)
  {
    match e
    case Request(ip, now) => m[ip := Allow(p, Lookup(m, ip), now).0]
    case Sweep(now) => Dropped(m, now)
  }

  function ClientsRun(p: Params, m: Clients, es: seq<Event>): Clients
    requires ValidParams(p)
  {
    if es == [] then m else ClientsStep(p, ClientsRun(p, m, es[..|es| - 1]), es[|es| - 1])
  }

  /** Every address's token bucket stands for its nanosecond credit. */
  ghost predicate AllFollow(p: Params, m: Clients, c: Limiter)
    requires ValidParams(p)
  {
    forall ip :: Follows(p, Lookup(m, ip), Lookup(c, ip))
  }

  lemma StepFollows(p: Params, m: Clients, c: Limiter, e: Event)
    requires ValidParams(p) && AllFollow(p, m, c)
    ensures AllFollow(p, ClientsStep(p, m, e), Step(p, c, e))
  {
    forall ip ensures Follows(p, Lookup(ClientsStep(p, m, e), ip), Lookup(Step(p, c, e), ip)) {
      assert Follows(p, Lookup(m, ip), Lookup(c, ip));
      if e.Request? && e.ip == ip {
        TokensFollowCredit(p, Lookup(m, ip), Lookup(c, ip), e.now);
      }
    }
  }

  /** In every run every address's token bucket stands for the nanosecond credit of the same run. */
  lemma {:induction false} ClientsFollowLimiter(p: Params, m: Clients, c: Limiter, es: seq<Event>)
    requires ValidParams(p) && AllFollow(p, m, c)
    ensures AllFollow(p, ClientsRun(p, m, es), Run(p, c, es))
  {
    if es != [] {
      ClientsFollowLimiter(p, m, c, es[..|es| - 1]);
      StepFollows(p, ClientsRun(p, m, es[..|es| - 1]), Run(p, c, es[..|es| - 1]), es[|es| - 1]);
    }
  }

  lemma EmptyFollows(p: Params)
    requires ValidParams(p)
    ensures AllFollow(p, map[], map[])
  {
  }

  // ------------------------------------------------------- the bounds, for the code's limiter

  /** Requests of `ip` the code lets through while `es` runs from `m`. */
  function ClientGrants(p: Params, m: Clients, ip: string, es: seq<Event>): nat
    requires ValidParams(p)
  {
    if es == [] then 0
    else
      var front, e := es[..|es| - 1], es[|es| - 1];
      ClientGrants(p, m, ip, front) +
      if e.Request? && e.ip == ip && Allow(p, Lookup(ClientsRun(p, m, front), ip), e.now).1.allowed then 1 else 0
  }

  /** The verdicts the code hands out, in order. */
  function ClientVerdicts(p: Params, m: Clients, es: seq<Event>): seq<Verdict>
    requires ValidParams(p)
  {
    if es == [] then []
    else
      var front, e := es[..|es| - 1], es[|es| - 1];
      if e.Sweep? then ClientVerdicts(p, m, front)
      else ClientVerdicts(p, m, front) + [Allow(p, Lookup(ClientsRun(p, m, front), e.ip), e.now).1]
  }

  lemma SameVerdict(p: Params, m: Clients, c: Limiter, ip: string, now: int)
    requires ValidParams(p) && AllFollow(p, m, c)
    ensures Allow(p, Lookup(m, ip), now).1 == Spend(p, Lookup(c, ip), now).1
  {
    assert Follows(p, Lookup(m, ip), Lookup(c, ip));
    TokensFollowCredit(p, Lookup(m, ip), Lookup(c, ip), now);
  }

  lemma {:induction false} ClientGrantsAreGrants(p: Params, m: Clients, c: Limiter, ip: string, es: seq<Event>)
    requires ValidParams(p) && AllFollow(p, m, c)
    ensures ClientGrants(p, m, ip, es) == Grants(p, c, ip, es)
  {
    if es != [] {
      var front, e := es[..|es| - 1], es[|es| - 1];
      ClientGrantsAreGrants(p, m, c, ip, front);
      ClientsFollowLimiter(p, m, c, front);
      SameVerdict(p, ClientsRun(p, m, front), Run(p, c, front), ip, e.now);
    }
  }

  lemma {:induction false} ClientVerdictsAreVerdicts(p: Params, m: Clients, c: Limiter, es: seq<Event>)
    requires ValidParams(p) && AllFollow(p, m, c)
    ensures ClientVerdicts(p, m, es) == Verdicts(p, c, es)
  {
    if es != [] {
      var front, e := es[..|es| - 1], es[|es| - 1];
      ClientVerdictsAreVerdicts(p, m, c, front);
      ClientsFollowLimiter(p, m, c, front);
      if e.Request? {
        SameVerdict(p, ClientsRun(p, m, front), Run(p, c, front), e.ip, e.now);
      }
    }
  }

  /** The code lets at most burst + T / refill requests of one address through in any stretch of length `T`. */
  lemma CodeGrantsAtMostBurstPlusRefills(p: Params, before: seq<Event>, es: seq<Event>, ip: string, t: int, T: nat)
    requires ValidParams(p) && p.burst >= 1 && (Roomy(p) || NoSweeps(before + es))
    requires Ordered(before + es)
    requires forall i :: 0 <= i < |before| ==> before[i].now <= t
    requires forall i :: 0 <= i < |es| ==> t <= es[i].now <= t + T
    ensures ClientGrants(p, ClientsRun(p, map[], before), ip, es) * p.refill <= Full(p) + T
  {
    EmptyFollows(p);
    ClientsFollowLimiter(p, map[], map[], before);
    ClientGrantsAreGrants(p, ClientsRun(p, map[], before), Run(p, map[], before), ip, es);
    AtMostBurstPlusRefills(p, before, es, ip, t, T);
  }

  ghost predicate CodeSweepsUnseen(p: Params, es: seq<Event>)
    requires ValidParams(p)
  {
    ClientVerdicts(p, map[], es) == ClientVerdicts(p, map[], WithoutSweeps(es))
  }

  /** The sweeper's condition, for the verdicts of the code. */
  lemma CodeSweeperIsInvisibleExactlyWhen(p: Params)
    requires ValidParams(p)
    ensures p.burst >= 1 && Roomy(p) <==> forall es :: Ordered(es) ==> CodeSweepsUnseen(p, es)
  {
    EmptyFollows(p);
    SweeperIsInvisibleExactlyWhen(p);
    forall es ensures CodeSweepsUnseen(p, es) <==> SweepsUnseen(p, es) {
      ClientVerdictsAreVerdicts(p, map[], map[], es);
      ClientVerdictsAreVerdicts(p, map[], map[], WithoutSweeps(es));
    }
  }

  /**
   The credit of a bucket is always a whole number of nanoseconds, so the emitted wait is exact: after any
   run, a client that is refused at `now` and comes back no sooner than the Retry-After it was given,
   with no request in between, is let through exactly when the burst is at least one.
   */
  lemma RetryAfterIsEnoughExactlyWhen(p: Params, es: seq<Event>, ip: string, now: int, later: int)
    requires ValidParams(p)
    requires !Allow(p, Lookup(ClientsRun(p, map[], es), ip), now).1.allowed
    requires
      var wait := Allow(p, Lookup(ClientsRun(p, map[], es), ip), now).1.wait;
      later >= now + RetryAfter(wait) * SECOND
    ensures
      var refused := Allow(p, Lookup(ClientsRun(p, map[], es), ip), now);
      && refused.1.wait > 0
      && (Allow(p, Some(refused.0), later).1.allowed <==> p.burst >= 1)
  {
    EmptyFollows(p);
    ClientsFollowLimiter(p, map[], map[], es);
    WaitIsEnough(p, Lookup(ClientsRun(p, map[], es), ip), Lookup(Run(p, map[], es), ip), now, later);
  }

  lemma WaitIsEnough(p: Params, b: Option<Bucket>, c: Option<Credit>, now: int, later: int)
    requires ValidParams(p) && Follows(p, b, c) && !Allow(p, b, now).1.allowed
    requires later >= now + RetryAfter(Allow(p, b, now).1.wait) * SECOND
    ensures Allow(p, b, now).1.wait > 0
    ensures Allow(p, Some(Allow(p, b, now).0), later).1.allowed <==> p.burst >= 1
  {
    TokensFollowCredit(p, b, c, now);
    TokensFollowCredit(p, Some(Allow(p, b, now).0), Some(Spend(p, c, now).0), later);
    if p.burst >= 1 {
      CreditAfterWait(p, c, now, later);
    } else {
      KnownIsRefused(p, c.value, now);
      KnownIsRefused(p, Spend(p, c, now).0, later);
    }
  }

  lemma CreditAfterWait(p: Params, c: Option<Credit>, now: int, later: int)
    requires ValidParams(p) && p.burst >= 1 && !Spend(p, c, now).1.allowed
    requires later >= now + RetryAfter(Spend(p, c, now).1.wait) * SECOND
    ensures Spend(p, c, now).1.wait > 0 && Spend(p, Some(Spend(p, c, now).0), later).1.allowed
  {
    assert Full(p) >= p.refill;
  }

  class Limits {
    const params: Params
    var clients: Clients

    constructor (params: Params)
      requires ValidParams(params)
      ensures this.params == params && clients == map[]
    {
      this.params := params;
      clients := map[];
    }

    method Admit(ip: string, now: int) returns (allowed: bool, wait: int)
      requires ValidParams(params)
      modifies this`clients
      ensures Verdict(allowed, wait) == Allow(params, Lookup(old(clients), ip), now).1
      ensures clients == ClientsStep(params, old(clients), Request(ip, now))
    {
      if ip !in clients {
        clients := clients[ip := Bucket(params.burst as real - 1.0, now)];
        return true, 0;
      }
      var b := clients[ip];
      var tokens := b.tokens + (now - b.lastCheck) as real / params.refill as real;
      if tokens > params.burst as real {
        tokens := params.burst as real;
      }
      if tokens < 1.0 {
        clients := clients[ip := Bucket(tokens, now)];
        return false, ((1.0 - tokens) * params.refill as real).Floor;
      }
      clients := clients[ip := Bucket(tokens - 1.0, now)];
      return true, 0;
    }

    /** One pass of the sweeper, address by address. */
    method Cleanup(now: int)
      modifies this`clients
      ensures clients == Dropped(old(clients), now)
    {
      var todo := clients.Keys;
      ghost var was := clients;
      while todo != {}
        invariant todo <= was.Keys && clients.Keys <= was.Keys
        invariant forall ip :: ip in clients ==> clients[ip] == was[ip]
        invariant forall ip :: ip in was && ip in todo ==> ip in clients
        invariant forall ip :: ip in was && ip !in todo ==> (ip in clients <==> now - was[ip].lastCheck <= IDLE_WINDOW)
        decreases todo
      {
        var ip :| ip in todo;
        if now - clients[ip].lastCheck > IDLE_WINDOW {
          clients := clients - {ip};
        }
        todo := todo - {ip};
      }
    }
  }
}
