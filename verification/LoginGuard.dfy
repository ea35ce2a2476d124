/**
 The growing lockout after failed logins, per address, and its sweeper.

 The reference is written from the history of the run alone: how many failures in a row an
 address has, and when the last one was. It knows nothing of records, of lockedUntil or of the
 sweeper. Times are nanoseconds.
 */
module LoginGuard {
  import opened Core
  import opened Arith

  const FAILURE_THRESHOLD := 5
  const LOCKOUT_BASE := 60_000_000_000
  const LOCKOUT_MAX := 900_000_000_000
  const IDLE_RESET := 3_600_000_000_000

  // ------------------------------------------------------- the 64-bit shift

  /** Two's complement reading of the low 64 bits. */
  function Wrap64(x: int): int {
    (x + 0x8000_0000_0000_0000) % 0x1_0000_0000_0000_0000 - 0x8000_0000_0000_0000
  }

  /** Shifting a 64-bit value left: high bits are lost, and 64 places or more leave zero. */
  function Shl64(x: nat, k: nat): int {
    if k >= 64 then 0 else Wrap64(x * Pow2(k))
  }

  function Lockout(failures: int): int
    requires failures >= FAILURE_THRESHOLD
  {
    var lockout := Shl64(LOCKOUT_BASE, failures - FAILURE_THRESHOLD);
    if lockout > LOCKOUT_MAX || lockout <= 0 then LOCKOUT_MAX else lockout
  }

  /** What the shift is meant to compute. */
  function Doubled(failures: int): int
    requires failures >= FAILURE_THRESHOLD
  {
    var exact := LOCKOUT_BASE * Pow2(failures - FAILURE_THRESHOLD);
    if exact > LOCKOUT_MAX then LOCKOUT_MAX else exact
  }

  lemma {:induction false} Pow2Grows(a: nat, b: nat)
    requires a <= b
    ensures Pow2(a) <= Pow2(b)
  {
    if a < b {
      Pow2Grows(a, b - 1);
    }
  }

  lemma RemainderIsMultiple(n: nat, b: nat, d: nat)
    requires d > 0 && b > 0 && b * d > 0 && n % d == 0
    ensures (n % (b * d)) % d == 0
  {
    var a, q, r := n / d, n / (b * d), n % (b * d);
    assert n == a * d;
    assert n == q * (b * d) + r;
    Regroup(q, b, d);
    DifferenceOfMultiples(a, q * b, d, r);
  }

  lemma Regroup(q: int, b: int, d: int)
    ensures q * (b * d) == (q * b) * d
  {
  }

  lemma DifferenceOfMultiples(a: nat, c: nat, d: nat, r: nat)
    requires d > 0 && a * d == c * d + r
    ensures r % d == 0
  {
    Scaled(a, c, d);
    assert (a - c) * d == a * d - c * d;
    MulMod(a - c, d);
  }

  lemma SmallShift(k: nat)
    requires k <= 27
    ensures Wrap64(LOCKOUT_BASE * Pow2(k)) == LOCKOUT_BASE * Pow2(k)
    ensures k >= 4 ==> LOCKOUT_BASE * Pow2(k) > LOCKOUT_MAX
    ensures k <= 3 ==> 0 < LOCKOUT_BASE * Pow2(k) <= LOCKOUT_MAX
  {
    Powers();
    Pow2Sum(26, 1);
    Pow2Grows(k, 27);
    if k >= 4 { Pow2Grows(4, k); } else { assert Pow2(3) == 8; Pow2Grows(k, 3); }
  }

  /** Past 28 places the value is a multiple of 2^40, and 2^40 nanoseconds exceed the maximum. */
  lemma LargeShift(k: nat)
    requires 29 <= k < 64
    ensures Wrap64(LOCKOUT_BASE * Pow2(k)) <= 0 || Wrap64(LOCKOUT_BASE * Pow2(k)) >= 0x100_0000_0000
  {
    Powers();
    Pow2Sum(26, 3);
    assert Pow2(29) == 0x2000_0000;
    Pow2Sum(29, k - 29);
    var rest := Pow2(k - 29);
    assert LOCKOUT_BASE * 0x2000_0000 == 29_296_875 * 0x100_0000_0000;
    assert LOCKOUT_BASE * (0x2000_0000 * rest) == (29_296_875 * rest) * 0x100_0000_0000;
    WrapOfMultiple(29_296_875 * rest);
  }

  lemma WrapOfMultiple(c: nat)
    ensures Wrap64(c * 0x100_0000_0000) <= 0 || Wrap64(c * 0x100_0000_0000) >= 0x100_0000_0000
  {
    var d, half := 0x100_0000_0000, 0x8000_0000_0000_0000;
    var n := c * d + half;
    assert n == (c + 0x80_0000) * d;
    MulMod(c + 0x80_0000, d);
    RemainderIsMultiple(n, 0x100_0000, d);
    var y := n % 0x1_0000_0000_0000_0000;
    assert half % d == 0;
    if y > half {
      MultiplesApart(half, y, d);
    }
  }

  /** For every count the wrapping shift with its guard is the doubling capped at the maximum. */
  lemma ShiftWithGuardIsDoubling(failures: int)
    requires failures >= FAILURE_THRESHOLD
    ensures Lockout(failures) == Doubled(failures)
    ensures 0 < Lockout(failures) <= LOCKOUT_MAX
  {
    var k := failures - FAILURE_THRESHOLD;
    if k <= 27 {
      SmallShift(k);
    } else {
      assert Pow2(4) == 16;
      Pow2Grows(4, k);
      if k == 28 {
        Powers();
        Pow2Sum(26, 2);
      } else if k < 64 {
        LargeShift(k);
      }
    }
  }

  /** A longer run of failures never earns a shorter lockout. */
  lemma LockoutsNeverShrink(n: int, m: int)
    requires FAILURE_THRESHOLD <= n <= m
    ensures Lockout(n) <= Lockout(m)
  {
    ShiftWithGuardIsDoubling(n);
    ShiftWithGuardIsDoubling(m);
    Pow2Grows(n - FAILURE_THRESHOLD, m - FAILURE_THRESHOLD);
  }

  // ------------------------------------------------------- records

  datatype Record = Record(failures: int, lockedUntil: Option<int>, lastSeen: int)

  type Clients = map<string, Record>

  datatype Event =
    | Failure(ip: string, now: int)
    | Query(ip: string, now: int)
    | Success(ip: string, now: int)
    | Sweep(now: int)

  predicate Forgotten(r: Record, now: int) {
    now - r.lastSeen > IDLE_RESET
  }

  function AfterFailure(m: Clients, ip: string, now: int): Record {
    var n := if ip in m && !Forgotten(m[ip], now) then m[ip].failures + 1 else 1;
    var until := if ip in m && !Forgotten(m[ip], now) then m[ip].lockedUntil else None;
    Record(n, if n < FAILURE_THRESHOLD then until else Some(now + Lockout(n)), now)
  }

  function Remaining(r: Record, now: int): int {
    if r.lockedUntil.Some? && r.lockedUntil.value > now then r.lockedUntil.value - now else 0
  }

  function Swept(m: Clients, now: int): Clients {
    map ip | ip in m && !(Forgotten(m[ip], now) && (m[ip].lockedUntil.Some? ==> now > m[ip].lockedUntil.value)) :: m[ip]
  }

  function Step(m: Clients, e: Event): Clients {
    match e
    case Failure(ip, now) => m[ip := AfterFailure(m, ip, now)]
    case Query(ip, now) => if ip in m && Forgotten(m[ip], now) then m - {ip} else m
    case Success(ip, _) => m - {ip}
    case Sweep(now) => Swept(m, now)
  }

  /** What the caller of the operation is told. */
  function Answer(m: Clients, e: Event): int {
    match e
    case Failure(ip, now) =>
      var n := AfterFailure(m, ip, now).failures;
      if n < FAILURE_THRESHOLD then 0 else Lockout(n)
    case Query(ip, now) => if ip !in m || Forgotten(m[ip], now) then 0 else Remaining(m[ip], now)
    case _ => 0
  }

  function Run(es: seq<Event>): Clients {
    if es == [] then map[] else Step(Run(es[..|es| - 1]), es[|es| - 1])
  }

  ghost predicate Ordered(es: seq<Event>) {
    forall i, j :: 0 <= i < j < |es| ==> es[i].now <= es[j].now
  }

  // ------------------------------------------------------- the reference

  /** How many failures in a row, and when the last one was. A success or an hour of quiet ends the row. */
  datatype Streak = Streak(count: nat, last: int)

  function History(es: seq<Event>, ip: string): Streak {
    if es == [] then Streak(0, 0)
    else
      var before := History(es[..|es| - 1], ip);
      match es[|es| - 1]
      case Failure(x, now) =>
        if x != ip then before
        else if before.count == 0 || now - before.last > IDLE_RESET then Streak(1, now)
        else Streak(before.count + 1, now)
      case Success(x, _) => if x == ip then Streak(0, 0) else before
      case _ => before
  }

  /** The lockout a row of failures has earned. */
  function Earned(s: Streak): int {
    if s.count < FAILURE_THRESHOLD then 0 else Doubled(s.count)
  }

  function Expected(es: seq<Event>, e: Event): int {
    match e
    case Failure(ip, _) => Earned(History(es + [e], ip))
    case Query(ip, now) =>
      var s := History(es, ip);
      if s.count == 0 || now - s.last > IDLE_RESET then 0 else Max(s.last + Earned(s) - now, 0)
    case _ => 0
  }

  ghost predicate Matches(m: Clients, ip: string, s: Streak, t: int) {
    && (ip in m ==>
          && s.count >= 1 && m[ip].failures == s.count && m[ip].lastSeen == s.last
          && m[ip].lockedUntil == if s.count < FAILURE_THRESHOLD then None else Some(s.last + Doubled(s.count)))
    && (ip !in m ==> s.count == 0 || t - s.last > IDLE_RESET)
  }

  lemma {:induction false} RecordsMatchHistory(es: seq<Event>, ip: string, t: int)
    requires Ordered(es) && forall i :: 0 <= i < |es| ==> es[i].now <= t
    ensures Matches(Run(es), ip, History(es, ip), t)
  {
    if es != [] {
      var front, last := es[..|es| - 1], es[|es| - 1];
      RecordsMatchHistory(front, ip, last.now);
      if last.Failure? && last.ip == ip {
        var n := AfterFailure(Run(front), ip, last.now).failures;
        if n >= FAILURE_THRESHOLD { ShiftWithGuardIsDoubling(n); }
      }
    }
  }

  /**
   After any run, with the sweeper running whenever it likes, every lockout handed out and every
   remaining wait reported is the one the history of failures alone determines.
   */
  lemma AnswersDependOnHistoryAlone(es: seq<Event>, e: Event)
    requires Ordered(es + [e])
    ensures Answer(Run(es), e) == Expected(es, e)
  {
    assert (es + [e])[..|es|] == es && (es + [e])[|es|] == e;
    assert forall i :: 0 <= i < |es| ==> (es + [e])[i] == es[i];
    assert Ordered(es);
    if e.Failure? {
      RecordsMatchHistory(es, e.ip, e.now);
      var n := AfterFailure(Run(es), e.ip, e.now).failures;
      if n >= FAILURE_THRESHOLD { ShiftWithGuardIsDoubling(n); }
    } else if e.Query? {
      RecordsMatchHistory(es, e.ip, e.now);
    }
  }

  function WithoutSweeps(es: seq<Event>): seq<Event> {
    if es == [] then []
    else if es[|es| - 1].Sweep? then WithoutSweeps(es[..|es| - 1])
    else WithoutSweeps(es[..|es| - 1]) + [es[|es| - 1]]
  }

  lemma {:induction false} HistoryIgnoresSweeps(es: seq<Event>, ip: string)
    ensures History(WithoutSweeps(es), ip) == History(es, ip)
  {
    if es != [] {
      HistoryIgnoresSweeps(es[..|es| - 1], ip);
      if !es[|es| - 1].Sweep? {
        var kept := WithoutSweeps(es);
        assert kept[..|kept| - 1] == WithoutSweeps(es[..|es| - 1]);
      }
    }
  }

  lemma {:induction false} WithoutSweepsKeepsOrder(es: seq<Event>)
    requires Ordered(es)
    ensures Ordered(WithoutSweeps(es))
    ensures forall e :: e in WithoutSweeps(es) ==> e in es
  {
    if es != [] {
      var front := es[..|es| - 1];
      WithoutSweepsKeepsOrder(front);
      forall e | e in WithoutSweeps(front) ensures e.now <= es[|es| - 1].now {
        assert e in front;
      }
    }
  }

  lemma KeptIsOrdered(es: seq<Event>, e: Event)
    requires Ordered(es + [e])
    ensures Ordered(WithoutSweeps(es) + [e])
  {
    var kept, all := WithoutSweeps(es), es + [e];
    assert forall i :: 0 <= i < |es| ==> all[i] == es[i];
    assert all[|es|] == e && Ordered(es);
    WithoutSweepsKeepsOrder(es);
    forall i | 0 <= i < |kept| ensures kept[i].now <= e.now {
      assert kept[i] in es;
    }
  }

  /** Taking every sweep out of a run changes no later answer. */
  lemma SweeperIsInvisible(es: seq<Event>, e: Event)
    requires Ordered(es + [e]) && !e.Sweep? && !e.Success?
    ensures Answer(Run(es), e) == Answer(Run(WithoutSweeps(es)), e)
  {
    KeptIsOrdered(es, e);
    AnswersDependOnHistoryAlone(es, e);
    AnswersDependOnHistoryAlone(WithoutSweeps(es), e);
    HistoryIgnoresSweeps(es, e.ip);
  }

  // ------------------------------------------------------- the guard object

  class Guard {
    var clients: Clients

    constructor ()
      ensures clients == map[]
    {
      clients := map[];
    }

    method LockedFor(ip: string, now: int) returns (wait: int)
      modifies this
      ensures wait == Answer(old(clients), Query(ip, now))
      ensures clients == Step(old(clients), Query(ip, now))
      ensures clients == if ip in old(clients) && now - old(clients)[ip].lastSeen > IDLE_RESET then old(clients) - {ip}
                         else old(clients)
    {
      if ip !in clients {
        return 0;
      }
      if now - clients[ip].lastSeen > IDLE_RESET {
        clients := clients - {ip};
        return 0;
      }
      var until := clients[ip].lockedUntil;
      if until.Some? && until.value - now > 0 {
        return until.value - now;
      }
      return 0;
    }

    method RecordFailure(ip: string, now: int) returns (lockout: int)
      modifies this
      ensures lockout == Answer(old(clients), Failure(ip, now))
      ensures clients == Step(old(clients), Failure(ip, now))
    {
      var rec := Record(0, None, now);
      if ip in clients && now - clients[ip].lastSeen <= IDLE_RESET {
        rec := clients[ip];
      }
      rec := rec.(failures := rec.failures + 1, lastSeen := now);
      if rec.failures < FAILURE_THRESHOLD {
        clients := clients[ip := rec];
        return 0;
      }
      lockout := Shl64(LOCKOUT_BASE, rec.failures - FAILURE_THRESHOLD);
      if lockout > LOCKOUT_MAX || lockout <= 0 {
        lockout := LOCKOUT_MAX;
      }
      clients := clients[ip := rec.(lockedUntil := Some(now + lockout))];
    }

    method RecordSuccess(ip: string, now: int)
      modifies this
      ensures clients == Step(old(clients), Success(ip, now))
    {
      clients := clients - {ip};
    }

    method Cleanup(now: int)
      modifies this
      ensures clients == Step(old(clients), Sweep(now))
      ensures forall ip :: ip in old(clients) ==>
                var rec := old(clients)[ip];
                (ip in clients <==>
                 now - rec.lastSeen <= IDLE_RESET || (rec.lockedUntil.Some? && now <= rec.lockedUntil.value))
    {
      var todo := clients.Keys;
      ghost var was := clients;
      while todo != {}
        invariant todo <= was.Keys && clients.Keys <= was.Keys
        invariant forall ip :: ip in clients ==> clients[ip] == was[ip]
        invariant forall ip :: ip in was && ip in todo ==> ip in clients
        invariant forall ip :: ip in was && ip !in todo ==> (ip in clients <==> ip in Swept(was, now))
        decreases todo
      {
        var ip :| ip in todo;
        var rec := clients[ip];
        if now - rec.lastSeen > IDLE_RESET && (rec.lockedUntil.Some? ==> now > rec.lockedUntil.value) {
          clients := clients - {ip};
        }
        todo := todo - {ip};
      }
    }
  }
}
