/**
 What the two tick loops do not miss: when a tick fires and what it plans next, that a planned minute is
 served by the first tick that reaches it, and, while the schedule stays as it is, exactly which of the
 minutes it matches are served.
 */
module TickCoverage {
  import opened Core
  import opened CronSchedule
  import opened Ticks

  // ------------------------------------------------------- one tick

  /** `at` is the first minute after `after` that matches, or nothing when none within the horizon does. */
  ghost predicate FirstAfter(s: Schedule, cal: Calendar, after: int, at: Option<int>) {
    && (at.Some? ==> IsNext(s, cal, after, at.value))
    && (at.None? <==> forall m :: after < m * MINUTE < after + HORIZON ==> !Fires(s, cal, m))
  }

  /** The plan was made for this expression and place, and no backup has started since the planned minute. */
  predicate BackupInForce(snap: Snapshot, plan: Plan) {
    && plan.at.Some? && plan.source == snap.schedule + "|" + snap.location
    && snap.lastRun <= plan.at.value * MINUTE
  }

  /** A backup tick fires exactly when a plan in force is due, and for that minute; otherwise it keeps or makes a plan. */
  lemma BackupFiresExactlyWhen(env: Env, snap: Snapshot, now: int, plan: Plan)
    requires snap.enabled && snap.schedule != "" && env.read(snap.schedule).Good?
    ensures var (p, due) := BackupTick(env, snap, now, plan);
            var s, cal := env.read(snap.schedule).schedule, env.calendar(snap.location);
            && (due.Some? <==> BackupInForce(snap, plan) && plan.at.value * MINUTE <= now)
            && (due.Some? ==> due == plan.at && FirstAfter(s, cal, now + MINUTE, p.at))
            && (BackupInForce(snap, plan) && now < plan.at.value * MINUTE ==> p == plan)
            && (!BackupInForce(snap, plan) ==> FirstAfter(s, cal, now, p.at))
            && p.source == snap.schedule + "|" + snap.location
  {
    var s, cal := env.read(snap.schedule).schedule, env.calendar(snap.location);
    NextIsTheLeast(s, cal, now);
    NextIsTheLeast(s, cal, now + MINUTE);
  }

  /** Switched off, a loop forgets its plan; an expression that is refused leaves the backup's plan and drops the other's. */
  lemma NothingFiresWithoutASchedule(env: Env, snap: Snapshot, now: int, plan: Plan)
    ensures !snap.enabled || snap.schedule == "" ==> BackupTick(env, snap, now, plan) == (Plan(None, ""), None)
    ensures snap.enabled && snap.schedule != "" && env.read(snap.schedule).Refused? ==>
              BackupTick(env, snap, now, plan) == (plan, None)
    ensures snap.schedule == "" ==> BlocklistTick(env, snap, now, plan) == (Plan(None, ""), None)
    ensures snap.schedule != "" && env.read(snap.schedule).Refused? ==>
              BlocklistTick(env, snap, now, plan) == (Plan(None, snap.schedule), None)
  {
  }

  predicate RefreshInForce(snap: Snapshot, plan: Plan) {
    plan.at.Some? && plan.source == snap.schedule
  }

  /** The same for the blocklist: every fire and every change of expression plans from now. */
  lemma RefreshFiresExactlyWhen(env: Env, snap: Snapshot, now: int, plan: Plan)
    requires snap.schedule != "" && env.read(snap.schedule).Good?
    ensures var (p, due) := BlocklistTick(env, snap, now, plan);
            var s, cal := env.read(snap.schedule).schedule, env.calendar("Local");
            && (due.Some? <==> RefreshInForce(snap, plan) && plan.at.value * MINUTE <= now)
            && (due.Some? ==> due == plan.at)
            && (RefreshInForce(snap, plan) && now < plan.at.value * MINUTE ==> p == plan)
            && (!RefreshInForce(snap, plan) || due.Some? ==> FirstAfter(s, cal, now, p.at))
            && p.source == snap.schedule
  {
    NextIsTheLeast(env.read(snap.schedule).schedule, env.calendar(LOCAL), now);
  }

  // ------------------------------------------------------- a planned minute is served

  predicate Accepted(loop: Loop, env: Env, snap: Snapshot) {
    && (loop.Backup? ==> snap.enabled)
    && snap.schedule != "" && env.read(snap.schedule).Good?
  }

  predicate InForce(loop: Loop, snap: Snapshot, plan: Plan) {
    if loop.Backup? then BackupInForce(snap, plan) else RefreshInForce(snap, plan)
  }

  lemma TickFires(loop: Loop, env: Env, snap: Snapshot, now: int, plan: Plan)
    requires Accepted(loop, env, snap) && InForce(loop, snap, plan)
    ensures var (p, due) := TickStep(loop, env, snap, now, plan);
            && (now < plan.at.value * MINUTE ==> p == plan && due.None?)
            && (plan.at.value * MINUTE <= now ==> due == plan.at)
  {
    if loop.Backup? {
      BackupFiresExactlyWhen(env, snap, now, plan);
    } else {
      RefreshFiresExactlyWhen(env, snap, now, plan);
    }
  }

  /** Ticks with the plan in force, all before its minute. */
  predicate Waits(loop: Loop, env: Env, fs: seq<Event>, plan: Plan) {
    forall i :: 0 <= i < |fs| ==>
      && fs[i].Tick? && Accepted(loop, env, fs[i].snap) && InForce(loop, fs[i].snap, plan)
      && fs[i].now < plan.at.value * MINUTE
  }

  lemma {:induction false} WaitingChangesNothing(loop: Loop, env: Env, es: seq<Event>, fs: seq<Event>)
    requires Waits(loop, env, fs, Run(loop, env, es).plan)
    ensures Run(loop, env, es + fs) == Run(loop, env, es)
  {
    if fs == [] {
      assert es + fs == es;
    } else {
      var front, last := fs[..|fs| - 1], fs[|fs| - 1];
      WaitingChangesNothing(loop, env, es, front);
      assert (es + fs)[..|es + fs| - 1] == es + front;
      TickFires(loop, env, last.snap, last.now, Run(loop, env, es).plan);
    }
  }

  /**
   After any run with a minute planned, and while the plan stays in force, the first tick that reaches
   the minute fires for it, and no tick before does.
   */
  lemma PlannedMinuteIsServed(loop: Loop, env: Env, es: seq<Event>, fs: seq<Event>, tick: Event)
    requires Waits(loop, env, fs, Run(loop, env, es).plan)
    requires tick.Tick? && Accepted(loop, env, tick.snap) && InForce(loop, tick.snap, Run(loop, env, es).plan)
    requires Run(loop, env, es).plan.at.value * MINUTE <= tick.now
    ensures var st := Run(loop, env, es);
            && Run(loop, env, es + fs).shots == st.shots
            && Run(loop, env, es + fs + [tick]).shots == st.shots + [Shot(st.plan.at.value, tick.now, tick.snap)]
  {
    WaitingChangesNothing(loop, env, es, fs);
    assert (es + fs + [tick])[..|es + fs|] == es + fs;
    TickFires(loop, env, tick.snap, tick.now, Run(loop, env, es).plan);
  }

  // ------------------------------------------------------- while the schedule stays

  /** Ticks at most a minute apart, under one accepted configuration. */
  predicate Steady(loop: Loop, env: Env, es: seq<Event>) {
    && es != [] && es[0].Tick? && Accepted(loop, env, es[0].snap)
    && (forall i :: 0 <= i < |es| ==> es[i].Tick? && SameChoice(es[i].snap, es[0].snap))
    && (forall i :: 0 < i < |es| ==> es[i - 1].now <= es[i].now <= es[i - 1].now + MINUTE)
  }

  predicate SameChoice(a: Snapshot, b: Snapshot) {
    a.enabled == b.enabled && a.schedule == b.schedule && a.location == b.location
  }

  predicate Fired(shots: seq<Shot>, m: int) {
    exists i :: 0 <= i < |shots| && shots[i].minute == m
  }

  lemma OneMoreShot(shots: seq<Shot>, shot: Shot, m: int)
    ensures Fired(shots + [shot], m) <==> Fired(shots, m) || m == shot.minute
  {
    var more := shots + [shot];
    assert more[|shots|] == shot;
    if Fired(shots, m) {
      var i :| 0 <= i < |shots| && shots[i].minute == m;
      assert more[i].minute == m;
    }
  }

  lemma SteadyFront(loop: Loop, env: Env, es: seq<Event>)
    requires Steady(loop, env, es) && |es| > 1
    ensures Steady(loop, env, es[..|es| - 1])
  {
    var front := es[..|es| - 1];
    assert forall i :: 0 <= i < |front| ==> front[i] == es[i];
  }

  /** The plan is for the first matching minute to come; without one nothing matches in the next minute. */
  ghost predicate PlansFirst(s: Schedule, cal: Calendar, now: int, at: Option<int>) {
    && (at.Some? ==>
          && now < at.value * MINUTE && Fires(s, cal, at.value)
          && forall k :: now < k * MINUTE && k < at.value ==> !Fires(s, cal, k))
    && (at.None? ==> forall k :: now < k * MINUTE <= now + MINUTE ==> !Fires(s, cal, k))
  }

  lemma FirstIsPlanned(s: Schedule, cal: Calendar, now: int, at: Option<int>)
    requires FirstAfter(s, cal, now, at)
    ensures PlansFirst(s, cal, now, at)
  {
    if at.Some? {
      forall k | now < k * MINUTE && k < at.value ensures !Fires(s, cal, k) {
        LaterMinute(now, k);
      }
    }
  }

  /** The minutes served by `now`, since the first tick at `from`, are all that match. */
  ghost predicate AllServed(s: Schedule, cal: Calendar, from: int, now: int, shots: seq<Shot>) {
    forall m :: Fired(shots, m) <==> from < m * MINUTE <= now && Fires(s, cal, m)
  }

  lemma RefreshStep(s: Schedule, cal: Calendar, from: int, was: int, now: int, shots: seq<Shot>, at: Option<int>, shot: Shot)
    requires AllServed(s, cal, from, was, shots) && PlansFirst(s, cal, was, at)
    requires from <= was <= now <= was + MINUTE && (at.Some? ==> shot.minute == at.value)
    ensures var fires := at.Some? && at.value * MINUTE <= now;
            AllServed(s, cal, from, now, if fires then shots + [shot] else shots)
  {
    var fires := at.Some? && at.value * MINUTE <= now;
    forall m ensures Fired(if fires then shots + [shot] else shots, m) <==> from < m * MINUTE <= now && Fires(s, cal, m) {
      OneMoreShot(shots, shot, m);
      OneTick(s, cal, was, now, at, m);
    }
  }

  lemma StillFirst(s: Schedule, cal: Calendar, was: int, now: int, at: Option<int>)
    requires PlansFirst(s, cal, was, at) && at.Some? && was <= now < at.value * MINUTE
    ensures PlansFirst(s, cal, now, at)
  {
  }

  /** Between two ticks nothing matches but the planned minute. */
  lemma OneTick(s: Schedule, cal: Calendar, was: int, now: int, at: Option<int>, m: int)
    requires PlansFirst(s, cal, was, at) && was <= now <= was + MINUTE
    ensures was < m * MINUTE <= now && Fires(s, cal, m) <==> at == Some(m) && m * MINUTE <= now
  {
  }

  /**
   While the expression stays as it is and ticks come at most a minute apart, the blocklist is refreshed
   for every minute after the first tick that matches, and for no other.
   */
  lemma {:induction false} RefreshServesEveryMinute(env: Env, es: seq<Event>)
    requires Steady(Blocklist, env, es)
    ensures var st, now := Run(Blocklist, env, es), es[|es| - 1].now;
            var s, cal := env.read(es[0].snap.schedule).schedule, env.calendar("Local");
            && AllServed(s, cal, es[0].now, now, st.shots)
            && PlansFirst(s, cal, now, st.plan.at) && st.plan.source == es[0].snap.schedule
            && es[0].now <= now
  {
    var front, last := es[..|es| - 1], es[|es| - 1];
    var s, cal := env.read(es[0].snap.schedule).schedule, env.calendar("Local");
    var st := Run(Blocklist, env, front);
    RefreshFiresExactlyWhen(env, last.snap, last.now, st.plan);
    var (p, due) := BlocklistTick(env, last.snap, last.now, st.plan);
    if front == [] {
      FirstIsPlanned(s, cal, last.now, p.at);
    } else {
      SteadyFront(Blocklist, env, es);
      RefreshServesEveryMinute(env, front);
      var was := front[|front| - 1].now;
      assert es[|es| - 2] == front[|front| - 1] && front[0] == es[0];
      var minute := if st.plan.at.Some? then st.plan.at.value else 0;
      RefreshStep(s, cal, es[0].now, was, last.now, st.shots, st.plan.at, Shot(minute, last.now, last.snap));
      if st.plan.at.None? || due.Some? {
        FirstIsPlanned(s, cal, last.now, p.at);
      } else {
        StillFirst(s, cal, was, last.now, st.plan.at);
      }
    }
  }

  // ------------------------------------------------------- what the backup loop serves

  /** From minute `first` on, a matching minute is served unless the one before it was. */
  predicate Served(s: Schedule, cal: Calendar, first: int, m: int)
    decreases m - first
  {
    m >= first && Fires(s, cal, m) && !Served(s, cal, first, m - 1)
  }

  predicate PassedBy(s: Schedule, cal: Calendar, first: int, m: int) {
    !Served(s, cal, first, m)
  }

  /** The loop always finds a minute to plan. */
  ghost predicate Recurs(s: Schedule, cal: Calendar, from: int, to: int) {
    forall t :: from <= t <= to ==> NextMinute(s, cal, t).Some?
  }

  /** The latest time at which a backup can have started: none since the first tick but the loop's own. */
  function BeganBy(from: int, shots: seq<Shot>): int {
    if shots == [] then from else shots[|shots| - 1].now + MINUTE
  }

  /** Backups are started by the loop alone, each within a minute of its tick. */
  predicate NoOtherRuns(env: Env, es: seq<Event>) {
    forall i :: 0 < i < |es| && es[i].Tick? ==>
      es[i].snap.lastRun <= BeganBy(es[0].now, Run(Backup, env, es[..i]).shots)
  }

  ghost predicate PlansServed(s: Schedule, cal: Calendar, first: int, now: int, at: Option<int>) {
    && at.Some? && now < at.value * MINUTE && Served(s, cal, first, at.value)
    && forall k :: now < k * MINUTE && k < at.value ==> PassedBy(s, cal, first, k)
  }

  ghost predicate ServedSoFar(s: Schedule, cal: Calendar, first: int, now: int, shots: seq<Shot>) {
    forall m {:trigger Fired(shots, m)} :: Fired(shots, m) <==> m * MINUTE <= now && Served(s, cal, first, m)
  }

  lemma FirstPlan(s: Schedule, cal: Calendar, now: int, at: Option<int>)
    requires FirstAfter(s, cal, now, at) && at.Some?
    ensures PlansServed(s, cal, now / MINUTE + 1, now, at)
  {
    var first := now / MINUTE + 1;
    LaterMinute(now, at.value);
    forall k | k < at.value ensures PassedBy(s, cal, first, k) {
      assert k >= first ==> now / MINUTE < k && !Fires(s, cal, k);
    }
    assert PassedBy(s, cal, first, at.value - 1);
  }

  /** After `m` is served nothing is until `at`, the first minute to match once the next one is over. */
  lemma QuietUntil(s: Schedule, cal: Calendar, first: int, m: int, at: int)
    requires Served(s, cal, first, m) && m + 1 < at && Fires(s, cal, at)
    requires forall x :: m + 1 < x < at ==> !Fires(s, cal, x)
    ensures Served(s, cal, first, at) && forall k :: m < k < at ==> PassedBy(s, cal, first, k)
  {
    forall k | m < k < at ensures PassedBy(s, cal, first, k) {
      assert k == m + 1 ==> !Served(s, cal, first, m + 1);
    }
    assert PassedBy(s, cal, first, at - 1);
  }

  /** What planning from a minute after `now`, inside minute `m`, finds. */
  lemma NextFromLater(s: Schedule, cal: Calendar, m: int, now: int, at: int)
    requires m * MINUTE <= now < (m + 1) * MINUTE && IsNext(s, cal, now + MINUTE, at)
    ensures m + 1 < at && now + MINUTE < at * MINUTE && Fires(s, cal, at)
    ensures forall x :: m + 1 < x < at ==> !Fires(s, cal, x)
  {
    assert (now + MINUTE) / MINUTE == m + 1;
  }

  /** The plan after a fire passes over the minute that follows, which is not to be served. */
  lemma PlanAfterFire(s: Schedule, cal: Calendar, first: int, m: int, now: int, at: int)
    requires Served(s, cal, first, m) && m * MINUTE <= now < (m + 1) * MINUTE
    requires NextMinute(s, cal, now + MINUTE) == Some(at)
    ensures PlansServed(s, cal, first, now, Some(at)) && now + MINUTE <= at * MINUTE
  {
    NextIsTheLeast(s, cal, now + MINUTE);
    NextFromLater(s, cal, m, now, at);
    QuietUntil(s, cal, first, m, at);
    forall k | now < k * MINUTE && k < at ensures PassedBy(s, cal, first, k) {
      assert m < k;
    }
  }

  /** Between two ticks nothing is served but the planned minute, once it is reached. */
  lemma BackupStep(s: Schedule, cal: Calendar, first: int, was: int, now: int, at: int, m: int)
    requires PlansServed(s, cal, first, was, Some(at)) && was <= now <= was + MINUTE
    ensures m * MINUTE <= now && Served(s, cal, first, m) <==>
            (m * MINUTE <= was && Served(s, cal, first, m)) || (m == at && at * MINUTE <= now)
  {
    if was < m * MINUTE && m < at {
      assert PassedBy(s, cal, first, m);
    }
  }

  lemma WaitServes(s: Schedule, cal: Calendar, first: int, was: int, now: int, shots: seq<Shot>, at: int)
    requires ServedSoFar(s, cal, first, was, shots) && PlansServed(s, cal, first, was, Some(at))
    requires was <= now <= was + MINUTE && now < at * MINUTE
    ensures ServedSoFar(s, cal, first, now, shots) && PlansServed(s, cal, first, now, Some(at))
  {
    forall m ensures Fired(shots, m) <==> m * MINUTE <= now && Served(s, cal, first, m) {
      BackupStep(s, cal, first, was, now, at, m);
    }
  }

  lemma FireServes(s: Schedule, cal: Calendar, first: int, was: int, now: int, shots: seq<Shot>, shot: Shot)
    requires ServedSoFar(s, cal, first, was, shots) && PlansServed(s, cal, first, was, Some(shot.minute))
    requires was <= now <= was + MINUTE && shot.minute * MINUTE <= now
    ensures ServedSoFar(s, cal, first, now, shots + [shot])
    ensures Served(s, cal, first, shot.minute) && now < (shot.minute + 1) * MINUTE
  {
    forall m ensures Fired(shots + [shot], m) <==> m * MINUTE <= now && Served(s, cal, first, m) {
      OneMoreShot(shots, shot, m);
      BackupStep(s, cal, first, was, now, shot.minute, m);
    }
  }

  /** The state of the loop at `now`, when its first tick was at `from`. */
  ghost predicate BackupDone(env: Env, snap: Snapshot, from: int, now: int, st: State)
    requires Accepted(Backup, env, snap)
  {
    var s, cal := env.read(snap.schedule).schedule, env.calendar(snap.location);
    && ServedSoFar(s, cal, from / MINUTE + 1, now, st.shots)
    && PlansServed(s, cal, from / MINUTE + 1, now, st.plan.at)
    && st.plan.source == snap.schedule + "|" + snap.location
    && BeganBy(from, st.shots) <= st.plan.at.value * MINUTE
  }

  lemma NoneServedYet(s: Schedule, cal: Calendar, now: int, m: int)
    requires m * MINUTE <= now
    ensures !Served(s, cal, now / MINUTE + 1, m)
  {
  }

  lemma FirstTickPlans(env: Env, snap: Snapshot, now: int)
    requires Accepted(Backup, env, snap)
    ensures var s, cal := env.read(snap.schedule).schedule, env.calendar(snap.location);
            BackupTick(env, snap, now, IDLE) == (Plan(NextMinute(s, cal, now), snap.schedule + "|" + snap.location), None)
  {
    NextIsTheLeast(env.read(snap.schedule).schedule, env.calendar(snap.location), now);
  }

  lemma FirstBackupTick(env: Env, snap: Snapshot, now: int)
    requires Accepted(Backup, env, snap)
    requires NextMinute(env.read(snap.schedule).schedule, env.calendar(snap.location), now).Some?
    ensures var r := BackupTick(env, snap, now, IDLE); r.1.None? && BackupDone(env, snap, now, now, State(r.0, []))
  {
    FirstTickPlans(env, snap, now);
    StartOfService(env.read(snap.schedule).schedule, env.calendar(snap.location), now);
  }

  lemma StartOfService(s: Schedule, cal: Calendar, now: int)
    requires NextMinute(s, cal, now).Some?
    ensures ServedSoFar(s, cal, now / MINUTE + 1, now, [])
    ensures PlansServed(s, cal, now / MINUTE + 1, now, NextMinute(s, cal, now))
  {
    NextIsTheLeast(s, cal, now);
    FirstPlan(s, cal, now, NextMinute(s, cal, now));
    forall m ensures !(m * MINUTE <= now && Served(s, cal, now / MINUTE + 1, m)) {
      if m * MINUTE <= now {
        NoneServedYet(s, cal, now, m);
      }
    }
  }

  lemma LaterTickPlans(env: Env, snap: Snapshot, now: int, plan: Plan)
    requires Accepted(Backup, env, snap) && BackupInForce(snap, plan)
    ensures BackupTick(env, snap, now, plan) ==
            if now < plan.at.value * MINUTE then (plan, None)
            else (Plan(NextMinute(env.read(snap.schedule).schedule, env.calendar(snap.location), now + MINUTE),
                       plan.source), plan.at)
  {
  }

  /** One more tick of a steady run. */
  lemma BackupTickServes(env: Env, snap: Snapshot, from: int, was: int, now: int, st: State)
    requires Accepted(Backup, env, snap) && BackupDone(env, snap, from, was, st)
    requires was <= now <= was + MINUTE && snap.lastRun <= BeganBy(from, st.shots)
    requires NextMinute(env.read(snap.schedule).schedule, env.calendar(snap.location), now + MINUTE).Some?
    ensures var r := BackupTick(env, snap, now, st.plan);
            BackupDone(env, snap, from, now, State(r.0, Recorded(st.shots, r.1, now, snap)))
  {
    var s, cal, first := env.read(snap.schedule).schedule, env.calendar(snap.location), from / MINUTE + 1;
    LaterTickPlans(env, snap, now, st.plan);
    var at := st.plan.at.value;
    if now < at * MINUTE {
      WaitServes(s, cal, first, was, now, st.shots, at);
    } else {
      FireServes(s, cal, first, was, now, st.shots, Shot(at, now, snap));
      PlanAfterFire(s, cal, first, at, now, NextMinute(s, cal, now + MINUTE).value);
    }
  }

  /** The choice decides, not when the last backup was. */
  lemma SameDone(env: Env, a: Snapshot, b: Snapshot, from: int, now: int, st: State)
    requires SameChoice(a, b) && Accepted(Backup, env, a) && BackupDone(env, a, from, now, st)
    ensures Accepted(Backup, env, b) && BackupDone(env, b, from, now, st)
  {
  }

  /**
   While the schedule stays as it is, ticks come at most a minute apart and nobody else starts a
   backup, the minutes served are exactly the matching ones whose predecessor was not served.
   */
  lemma {:induction false} BackupServesExactly(env: Env, es: seq<Event>)
    requires Steady(Backup, env, es) && NoOtherRuns(env, es)
    requires Recurs(env.read(es[0].snap.schedule).schedule, env.calendar(es[0].snap.location),
                    es[0].now, es[|es| - 1].now + MINUTE)
    ensures BackupDone(env, es[0].snap, es[0].now, es[|es| - 1].now, Run(Backup, env, es))
    ensures es[0].now <= es[|es| - 1].now
  {
    var front, last := es[..|es| - 1], es[|es| - 1];
    if front == [] {
      FirstBackupTick(env, last.snap, last.now);
    } else {
      SteadyFront(Backup, env, es);
      assert es[|es| - 2] == front[|front| - 1] && front[0] == es[0];
      NoOtherRunsBefore(env, es);
      BackupServesExactly(env, front);
      SameDone(env, es[0].snap, last.snap, es[0].now, front[|front| - 1].now, Run(Backup, env, front));
      BackupTickServes(env, last.snap, es[0].now, front[|front| - 1].now, last.now, Run(Backup, env, front));
      SameDone(env, last.snap, es[0].snap, es[0].now, last.now, Run(Backup, env, es));
    }
  }

  lemma NoOtherRunsBefore(env: Env, es: seq<Event>)
    requires NoOtherRuns(env, es) && |es| > 1
    ensures NoOtherRuns(env, es[..|es| - 1])
  {
    var front := es[..|es| - 1];
    forall i | 0 < i < |front| ensures front[..i] == es[..i] && front[i] == es[i] {
    }
  }

  /** An expression that never matches two minutes in a row is served in full. */
  lemma SpacedMinutesAreAllServed(s: Schedule, cal: Calendar, first: int, m: int)
    requires forall k :: Fires(s, cal, k) ==> !Fires(s, cal, k + 1)
    ensures Served(s, cal, first, m) <==> m >= first && Fires(s, cal, m)
  {
    assert Fires(s, cal, m - 1) ==> !Fires(s, cal, m - 1 + 1);
  }
}
