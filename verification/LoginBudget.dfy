/**
 The budget on failed logins across all addresses: past thirty failures in the last hour, password
 checks start thirty seconds apart. Times are nanoseconds.
 */
module LoginBudget {
  import opened Core

  const FAILURES := 30
  const WINDOW := 3_600_000_000_000
  const SPACING := 30_000_000_000
  const MAX_WAIT := 30_000_000_000

  /** `next` and `warned` are unset until first used. */
  datatype Budget = Budget(failures: seq<int>, next: Option<int>, warned: Option<int>)

  const START := Budget([], None, None)

  datatype Grant = Grant(wait: int, ok: bool)

  /** Drops failures from the front while they are older than the window. */
  function Prune(failures: seq<int>, now: int): seq<int> {
    if failures != [] && now - failures[0] > WINDOW then Prune(failures[1..], now) else failures
  }

  function Saturated(b: Budget, now: int): bool {
    |Prune(b.failures, now)| >= FAILURES
  }

  /** When a saturated check may start. */
  function SlotStart(b: Budget, now: int): int {
    if b.next.Some? && b.next.value > now then b.next.value else now
  }

  function Reserve(b: Budget, now: int): (Budget, Grant) {
    var pruned := b.(failures := Prune(b.failures, now));
    if !Saturated(b, now) then (pruned, Grant(0, true))
    else
      var start := SlotStart(b, now);
      if start - now > MAX_WAIT then (pruned, Grant(start - now, false))
      else (pruned.(next := Some(start + SPACING)), Grant(start - now, true))
  }

  function RecordFailure(b: Budget, now: int): Budget {
    var failures := Prune(b.failures, now) + [now];
    var warns := |failures| >= FAILURES && (b.warned.Some? ==> now - b.warned.value > WINDOW);
    Budget(failures, b.next, if warns then Some(now) else b.warned)
  }

  // ------------------------------------------------------- runs

  datatype Event = Ask(now: int) | Fail(now: int)

  function Step(b: Budget, e: Event): Budget {
    match e
    case Ask(now) => Reserve(b, now).0
    case Fail(now) => RecordFailure(b, now)
  }

  function Run(es: seq<Event>): Budget {
    if es == [] then START else Step(Run(es[..|es| - 1]), es[|es| - 1])
  }

  /** The starting times of the checks that were granted while the budget was spent. */
  function Slots(es: seq<Event>): seq<int> {
    if es == [] then []
    else
      var b, last := Run(es[..|es| - 1]), es[|es| - 1];
      if last.Ask? && Saturated(b, last.now) && Reserve(b, last.now).1.ok
      then Slots(es[..|es| - 1]) + [last.now + Reserve(b, last.now).1.wait]
      else Slots(es[..|es| - 1])
  }

  // ------------------------------------------------------- spacing

  ghost predicate Spaced(slots: seq<int>) {
    forall i, j :: 0 <= i < j < |slots| ==> slots[i] + SPACING <= slots[j]
  }

  /** The next slot follows the last one granted. */
  predicate Follows(b: Budget, slots: seq<int>) {
    b.next == if slots == [] then None else Some(slots[|slots| - 1] + SPACING)
  }

  lemma ReserveSpaces(b: Budget, slots: seq<int>, now: int)
    requires Spaced(slots) && Follows(b, slots) && Saturated(b, now) && Reserve(b, now).1.ok
    ensures
      var more := slots + [now + Reserve(b, now).1.wait];
      Spaced(more) && Follows(Reserve(b, now).0, more)
  {
  }

  /**
   Whatever the clock does and however saturated and unsaturated stretches alternate, granted slots
   are at least the spacing apart, and a granted check waits neither in the past nor too long.
   */
  lemma {:induction false} SlotsAreSpaced(es: seq<Event>)
    ensures Spaced(Slots(es)) && Follows(Run(es), Slots(es))
    ensures es != [] && es[|es| - 1].Ask? && Reserve(Run(es[..|es| - 1]), es[|es| - 1].now).1.ok ==>
              0 <= Reserve(Run(es[..|es| - 1]), es[|es| - 1].now).1.wait <= MAX_WAIT
  {
    if es != [] {
      var front, last := es[..|es| - 1], es[|es| - 1];
      SlotsAreSpaced(front);
      if last.Ask? && Saturated(Run(front), last.now) && Reserve(Run(front), last.now).1.ok {
        ReserveSpaces(Run(front), Slots(front), last.now);
      }
    }
  }

  /** How long until the next slot: thirty seconds after the last one granted, or no time at all. */
  function NextWait(slots: seq<int>, now: int): int {
    if slots == [] || slots[|slots| - 1] + 30_000_000_000 <= now then 0
    else slots[|slots| - 1] + 30_000_000_000 - now
  }

  /**
   After every run a check is let through at once while the budget lasts; once it is spent the check is
   granted exactly when the next slot is at most thirty seconds away, and starts at that slot.
   */
  lemma GrantedExactlyWhen(es: seq<Event>, now: int)
    ensures var wait := NextWait(Slots(es), now);
            Reserve(Run(es), now).1 ==
            if Saturated(Run(es), now) then Grant(wait, wait <= 30_000_000_000) else Grant(0, true)
  {
    SlotsAreSpaced(es);
  }

  /** When warnings about a spent budget were logged. */
  function Warnings(es: seq<Event>): seq<int> {
    if es == [] then []
    else
      var b, last := Run(es[..|es| - 1]), es[|es| - 1];
      Warnings(es[..|es| - 1]) + if Step(b, last).warned != b.warned then [last.now] else []
  }

  /**
   Warnings are more than an hour apart, and whenever a failure is recorded that leaves thirty in the
   last hour, one has been logged within the hour.
   */
  lemma {:induction false} WarnedOnceAnHour(es: seq<Event>)
    ensures var ws := Warnings(es);
            && (forall i :: 0 < i < |ws| ==> ws[i] - ws[i - 1] > 3_600_000_000_000)
            && Run(es).warned == (if ws == [] then None else Some(ws[|ws| - 1]))
            && (es != [] && es[|es| - 1].Fail? && |Run(es).failures| >= 30 ==>
                  ws != [] && es[|es| - 1].now - ws[|ws| - 1] <= 3_600_000_000_000)
  {
    if es != [] {
      WarnedOnceAnHour(es[..|es| - 1]);
      WarnStep(Run(es[..|es| - 1]), es[|es| - 1]);
    }
  }

  lemma WarnStep(b: Budget, e: Event)
    ensures var w := Step(b, e).warned;
            && (w != b.warned ==> w == Some(e.now) && (b.warned.Some? ==> e.now - b.warned.value > WINDOW))
            && (e.Fail? && |Step(b, e).failures| >= FAILURES ==> w.Some? && e.now - w.value <= WINDOW)
  {
  }

  function CountIn(slots: seq<int>, lo: int, hi: int): nat {
    if slots == [] then 0
    else CountIn(slots[..|slots| - 1], lo, hi) + if lo <= slots[|slots| - 1] <= hi then 1 else 0
  }

  lemma {:induction false} CountIsCardinality(slots: seq<int>, lo: int, hi: int)
    ensures CountIn(slots, lo, hi) == |set i | 0 <= i < |slots| && lo <= slots[i] <= hi|
  {
    if slots != [] {
      var n := |slots| - 1;
      var front := slots[..n];
      CountIsCardinality(front, lo, hi);
      var all, some := set i | 0 <= i < |slots| && lo <= slots[i] <= hi, set i | 0 <= i < |front| && lo <= front[i] <= hi;
      assert all == some + if lo <= slots[n] <= hi then {n} else {};
    }
  }

  lemma {:induction false} CountNarrows(slots: seq<int>, lo: int, hi: int, top: int)
    requires top <= hi && forall i :: 0 <= i < |slots| ==> slots[i] <= top
    ensures CountIn(slots, lo, hi) == CountIn(slots, lo, top)
    ensures top < lo ==> CountIn(slots, lo, hi) == 0
  {
    if slots != [] {
      CountNarrows(slots[..|slots| - 1], lo, hi, top);
    }
  }

  lemma {:induction false} SpacedCount(slots: seq<int>, lo: int, hi: int)
    requires Spaced(slots) && lo <= hi
    ensures CountIn(slots, lo, hi) <= (hi - lo) / SPACING + 1
  {
    if slots != [] {
      var front, x := slots[..|slots| - 1], slots[|slots| - 1];
      SpacedCount(front, lo, hi);
      if lo <= x <= hi {
        CountNarrows(front, lo, hi, x - SPACING);
        if lo <= x - SPACING {
          SpacedCount(front, lo, x - SPACING);
        }
      }
    }
  }

  /** In any interval of length `T` at most T / 30s + 1 checks start while the budget is spent, over the whole run. */
  lemma AtMostOnePerSpacing(es: seq<Event>, lo: int, T: nat)
    ensures |set i | 0 <= i < |Slots(es)| && lo <= Slots(es)[i] <= lo + T| <= T / SPACING + 1
  {
    SlotsAreSpaced(es);
    SpacedCount(Slots(es), lo, lo + T);
    CountIsCardinality(Slots(es), lo, lo + T);
  }

  // ------------------------------------------------------- exactly the last hour

  /** Every failure of the run, oldest first. */
  function Recorded(es: seq<Event>): seq<int> {
    if es == [] then []
    else if es[|es| - 1].Fail? then Recorded(es[..|es| - 1]) + [es[|es| - 1].now]
    else Recorded(es[..|es| - 1])
  }

  function Recent(times: seq<int>, now: int): seq<int> {
    if times == [] then []
    else Recent(times[..|times| - 1], now) + if now - times[|times| - 1] <= WINDOW then [times[|times| - 1]] else []
  }

  ghost predicate Sorted(times: seq<int>) {
    forall i, j :: 0 <= i < j < |times| ==> times[i] <= times[j]
  }

  ghost predicate Ordered(es: seq<Event>) {
    forall i, j :: 0 <= i < j < |es| ==> es[i].now <= es[j].now
  }

  lemma {:induction false} RecentOfRecent(times: seq<int>, now: int)
    requires forall i :: 0 <= i < |times| ==> now - times[i] <= WINDOW
    ensures Recent(times, now) == times
  {
    if times != [] {
      RecentOfRecent(times[..|times| - 1], now);
    }
  }

  lemma {:induction false} RecentDropsFront(times: seq<int>, now: int)
    requires times != [] && now - times[0] > WINDOW
    ensures Recent(times, now) == Recent(times[1..], now)
  {
    if |times| == 1 {
      assert times[..0] == [];
    } else {
      RecentDropsFront(times[..|times| - 1], now);
      assert times[1..][..|times| - 2] == times[..|times| - 1][1..];
    }
  }

  /** On failures in clock order, cutting the front keeps exactly those of the window. */
  lemma {:induction false} PruneKeepsExactlyTheWindow(times: seq<int>, now: int)
    requires Sorted(times)
    ensures Prune(times, now) == Recent(times, now)
    ensures Sorted(Prune(times, now))
    ensures forall t :: t in Prune(times, now) ==> t in times
  {
    if times != [] && now - times[0] > WINDOW {
      RecentDropsFront(times, now);
      PruneKeepsExactlyTheWindow(times[1..], now);
    } else {
      RecentOfRecent(times, now);
    }
  }

  lemma {:induction false} RecentTwice(times: seq<int>, t: int, now: int)
    requires t <= now
    ensures Recent(Recent(times, t), now) == Recent(times, now)
  {
    if times != [] {
      var front := times[..|times| - 1];
      RecentTwice(front, t, now);
      var r := Recent(times, t);
      if t - times[|times| - 1] <= WINDOW {
        assert r[..|r| - 1] == Recent(front, t);
      } else {
        assert r == Recent(front, t);
      }
    }
  }

  lemma AppendSorted(times: seq<int>, t: int)
    requires Sorted(times) && forall x :: x in times ==> x <= t
    ensures Sorted(times + [t])
  {
    assert forall i :: 0 <= i < |times| ==> times[i] in times;
  }

  lemma {:induction false} RecentIsSorted(times: seq<int>, now: int)
    requires Sorted(times)
    ensures Sorted(Recent(times, now)) && forall t :: t in Recent(times, now) ==> t in times
  {
    if times != [] {
      var front := times[..|times| - 1];
      RecentIsSorted(front, now);
      AppendSorted(Recent(front, now), times[|times| - 1]);
    }
  }

  lemma {:induction false} RecordedIsSorted(es: seq<Event>)
    requires Ordered(es)
    ensures Sorted(Recorded(es)) && forall t :: t in Recorded(es) ==> es != [] && t <= es[|es| - 1].now
  {
    if es != [] {
      RecordedIsSorted(es[..|es| - 1]);
      AppendSorted(Recorded(es[..|es| - 1]), es[|es| - 1].now);
    }
  }

  /** Pruning what an earlier prune left is pruning the whole history. */
  lemma PruneAgain(times: seq<int>, t: int, now: int)
    requires Sorted(times) && t <= now
    ensures Prune(Recent(times, t), now) == Recent(times, now)
  {
    RecentIsSorted(times, t);
    PruneKeepsExactlyTheWindow(Recent(times, t), now);
    RecentTwice(times, t, now);
  }

  /** In a run whose clock does not step back, what is kept is what the history says happened in the last hour. */
  lemma {:induction false} KeptFailuresAreTheRecentOnes(es: seq<Event>)
    requires Ordered(es) && es != []
    ensures Run(es).failures == Recent(Recorded(es), es[|es| - 1].now)
  {
    var front, last := es[..|es| - 1], es[|es| - 1];
    assert Prune(Run(front).failures, last.now) == Recent(Recorded(front), last.now) by {
      if front == [] {
        assert Prune([], last.now) == [];
      } else {
        KeptFailuresAreTheRecentOnes(front);
        RecordedIsSorted(front);
        PruneAgain(Recorded(front), front[|front| - 1].now, last.now);
      }
    }
    if last.Fail? {
      assert Recorded(es)[..|Recorded(es)| - 1] == Recorded(front);
    }
  }

  /** So a check waits for a slot exactly when thirty failures were recorded in the last hour. */
  lemma SpentExactlyAfterThirtyFailures(es: seq<Event>, now: int)
    requires Ordered(es + [Ask(now)])
    ensures Saturated(Run(es), now) <==> |Recent(Recorded(es), now)| >= FAILURES
    ensures !Saturated(Run(es), now) ==> Reserve(Run(es), now).1 == Grant(0, true)
  {
    assert forall i :: 0 <= i < |es| ==> (es + [Ask(now)])[i] == es[i];
    assert (es + [Ask(now)])[|es|].now == now;
    if es != [] {
      KeptFailuresAreTheRecentOnes(es);
      RecordedIsSorted(es);
      PruneAgain(Recorded(es), es[|es| - 1].now, now);
    }
  }

  // ------------------------------------------------------- the budget object

  class Ledger {
    var failures: seq<int>
    var next: Option<int>
    var warned: Option<int>

    constructor ()
      ensures Abs() == START
    {
      failures, next, warned := [], None, None;
    }

    ghost function Abs(): Budget
      reads this
    {
      Budget(failures, next, warned)
    }

    method PruneFailures(now: int)
      modifies this`failures
      ensures failures == Prune(old(failures), now)
    {
      var cut := 0;
      while cut < |failures| && now - failures[cut] > WINDOW
        invariant 0 <= cut <= |failures|
        invariant Prune(failures, now) == Prune(failures[cut..], now)
      {
        assert failures[cut..][1..] == failures[cut + 1..];
        cut := cut + 1;
      }
      failures := failures[cut..];
    }

    method ReserveSlot(now: int) returns (wait: int, ok: bool)
      modifies this
      ensures (Abs(), Grant(wait, ok)) == Reserve(old(Abs()), now)
    {
      PruneFailures(now);
      if |failures| < FAILURES {
        return 0, true;
      }
      var start := now;
      if next.Some? && next.value > now {
        start := next.value;
      }
      wait := start - now;
      if wait > MAX_WAIT {
        return wait, false;
      }
      next := Some(start + SPACING);
      ok := true;
    }

    method CountFailure(now: int)
      modifies this
      ensures Abs() == RecordFailure(old(Abs()), now)
    {
      PruneFailures(now);
      failures := failures + [now];
      if |failures| >= FAILURES && (warned.Some? ==> now - warned.value > WINDOW) {
        warned := Some(now);
      }
    }
  }
}
