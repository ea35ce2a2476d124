/**
 The two tick loops driven by cron expressions: the backup scheduler and the blocklist refresh. A run
 is any sequence of ticks and restarts under a clock that does not go backwards, with the
 configuration free to change before every tick.
 */
module Ticks {
  import opened Core
  import opened Text
  import opened CronSchedule

  datatype Loop = Backup | Blocklist

  /** What a tick reads from the configuration; lastRun is a time. */
  datatype Snapshot = Snapshot(enabled: bool, schedule: string, location: string, lastRun: int)

  /** scheduledFire: the planned minute, and the text it was computed from. */
  datatype Plan = Plan(at: Option<int>, source: string)

  const IDLE := Plan(None, "")

  /**
   How an expression is read, and the calendar of each location, by the name the source text carries;
   nil is the empty name.
   */
  datatype Env = Env(read: string -> Reading, calendar: string -> Calendar)

  ghost predicate Genuine(env: Env) {
    forall spec :: env.read(spec) == ReadSchedule(spec)
  }

  const LOCAL := "Local"

  function LocationOf(loop: Loop, snap: Snapshot): string {
    if loop.Backup? then snap.location else LOCAL
  }

  /** scheduleSource for the backup loop; the expression alone for the blocklist loop. */
  function SourceOf(loop: Loop, snap: Snapshot): string {
    if loop.Backup? then snap.schedule + [BAR] + snap.location else snap.schedule
  }

  /** No accepted expression contains the separator. */
  ghost predicate Separable(env: Env) {
    forall spec :: env.read(spec).Good? ==> BAR !in spec
  }

  lemma GenuineIsSeparable(env: Env)
    requires Genuine(env)
    ensures Separable(env)
  {
    forall spec | env.read(spec).Good? ensures BAR !in spec {
      AcceptedHasNoBar(spec);
    }
  }

  /** Two accepted snapshots with one source agree on the expression and on the location. */
  lemma SourceNamesItsInputs(loop: Loop, env: Env, a: Snapshot, b: Snapshot)
    requires Separable(env)
    requires env.read(a.schedule).Good? && env.read(b.schedule).Good?
    requires SourceOf(loop, a) == SourceOf(loop, b)
    ensures a.schedule == b.schedule && LocationOf(loop, a) == LocationOf(loop, b)
  {
    if loop.Backup? {
      CutAtBar(a.schedule, a.location);
      CutAtBar(b.schedule, b.location);
    }
  }

  lemma CutAtBar(left: string, right: string)
    requires BAR !in left
    ensures IndexOf(left + [BAR] + right, BAR) == |left|
    ensures (left + [BAR] + right)[..|left|] == left && (left + [BAR] + right)[|left| + 1..] == right
  {
    var s := left + [BAR] + right;
    assert forall k :: 0 <= k < |left| ==> s[k] == left[k] && left[k] in left;
    IndexIs(s, BAR, |left|);
  }

  // ------------------------------------------------------- one tick

  /** schedulerTick: the plan kept for the next tick, and the minute fired for, if any. */
  function BackupTick(env: Env, snap: Snapshot, now: int, plan: Plan): (Plan, Option<int>) {
    if !snap.enabled || snap.schedule == "" then (IDLE, None)
    else
      match env.read(snap.schedule)
      case Refused => (plan, None)
      case Crashes => (IDLE, None)
      case Good(s) =>
        var source, cal := SourceOf(Backup, snap), env.calendar(snap.location);
        var stale := plan.at.None? || plan.at.value * MINUTE < snap.lastRun || plan.source != source;
        var p := if stale then Plan(NextMinute(s, cal, now), source) else plan;
        if p.at.None? || now < p.at.value * MINUTE then (p, None)
        else (Plan(NextMinute(s, cal, now + MINUTE), source), p.at)
  }

  /** blocklistTick: a change of schedule is planned on one tick and due on a later one. */
  function BlocklistTick(env: Env, snap: Snapshot, now: int, plan: Plan): (Plan, Option<int>) {
    if snap.schedule == "" then (IDLE, None)
    else
      match env.read(snap.schedule)
      case Refused => (Plan(None, snap.schedule), None)
      case Crashes => (IDLE, None)
      case Good(s) =>
        if plan.at.None? || snap.schedule != plan.source then
          (Plan(NextMinute(s, env.calendar(LOCAL), now), snap.schedule), None)
        else if now < plan.at.value * MINUTE then (Plan(plan.at, snap.schedule), None)
        else (Plan(NextMinute(s, env.calendar(LOCAL), now), snap.schedule), plan.at)
  }

  function TickStep(loop: Loop, env: Env, snap: Snapshot, now: int, plan: Plan): (Plan, Option<int>) {
    if loop.Backup? then BackupTick(env, snap, now, plan) else BlocklistTick(env, snap, now, plan)
  }

  // ------------------------------------------------------- runs

  datatype Event = Tick(now: int, snap: Snapshot) | Restart(now: int)

  /** A backup or a refresh: the minute it was due, when it started, and the configuration in force. */
  datatype Shot = Shot(minute: int, now: int, snap: Snapshot)

  datatype State = State(plan: Plan, shots: seq<Shot>)

  function Recorded(shots: seq<Shot>, due: Option<int>, now: int, snap: Snapshot): seq<Shot> {
    if due.None? then shots else shots + [Shot(due.value, now, snap)]
  }

  function Step(loop: Loop, env: Env, st: State, e: Event): State {
    match e
    case Restart(_) => State(IDLE, st.shots)
    case Tick(now, snap) =>
      var r := TickStep(loop, env, snap, now, st.plan);
      State(r.0, Recorded(st.shots, r.1, now, snap))
  }

  function Run(loop: Loop, env: Env, es: seq<Event>): State {
    if es == [] then State(IDLE, [])
    else Step(loop, env, Run(loop, env, es[..|es| - 1]), es[|es| - 1])
  }

  predicate Forward(es: seq<Event>) {
    forall i, j :: 0 <= i < j < |es| ==> es[i].now <= es[j].now
  }

  /** The expression in force is accepted and matches the minute in its location. */
  predicate Allows(loop: Loop, env: Env, snap: Snapshot, m: int) {
    && (loop.Backup? ==> snap.enabled)
    && env.read(snap.schedule).Good?
    && Fires(env.read(snap.schedule).schedule, env.calendar(LocationOf(loop, snap)), m)
  }

  /** A plan was computed from some accepted snapshot with its source. */
  predicate PlannedFrom(loop: Loop, env: Env, plan: Plan, snap: Snapshot)
    requires plan.at.Some?
  {
    && SourceOf(loop, snap) == plan.source
    && Allows(loop, env, snap, plan.at.value)
  }

  ghost predicate Planned(loop: Loop, env: Env, plan: Plan) {
    plan.at.Some? ==> exists snap :: PlannedFrom(loop, env, plan, snap)
  }

  predicate Permitted(loop: Loop, env: Env, shot: Shot) {
    Allows(loop, env, shot.snap, shot.minute) && shot.minute * MINUTE <= shot.now
  }

  predicate Increasing(shots: seq<Shot>) {
    forall i, j :: 0 <= i < j < |shots| ==> shots[i].minute < shots[j].minute
  }

  /** Every shot so far is behind the plan. */
  predicate Ahead(st: State) {
    forall i :: 0 <= i < |st.shots| ==>
      st.shots[i].minute * MINUTE <= st.shots[i].now <= LastShot(st).now
      && (st.plan.at.Some? ==> st.shots[i].minute < st.plan.at.value && LastShot(st).now < st.plan.at.value * MINUTE)
  }

  ghost predicate Sound(loop: Loop, env: Env, st: State) {
    && Planned(loop, env, st.plan)
    && (forall i :: 0 <= i < |st.shots| ==> Permitted(loop, env, st.shots[i]))
    && Increasing(st.shots)
    && Ahead(st)
  }

  function LastShot(st: State): Shot
    requires st.shots != []
  {
    st.shots[|st.shots| - 1]
  }

  lemma NextIsPlanned(loop: Loop, env: Env, snap: Snapshot, after: int)
    requires (loop.Backup? ==> snap.enabled) && env.read(snap.schedule).Good?
    ensures var at := NextMinute(env.read(snap.schedule).schedule, env.calendar(LocationOf(loop, snap)), after);
            && Planned(loop, env, Plan(at, SourceOf(loop, snap)))
            && (at.Some? ==> after < at.value * MINUTE)
  {
    var at := NextMinute(env.read(snap.schedule).schedule, env.calendar(LocationOf(loop, snap)), after);
    NextIsTheLeast(env.read(snap.schedule).schedule, env.calendar(LocationOf(loop, snap)), after);
    if at.Some? {
      assert PlannedFrom(loop, env, Plan(at, SourceOf(loop, snap)), snap);
    }
  }

  /** A plan whose source is the current one is for a minute the current expression matches. */
  lemma PlanIsInForce(loop: Loop, env: Env, plan: Plan, snap: Snapshot)
    requires Separable(env) && Planned(loop, env, plan) && plan.at.Some? && plan.source == SourceOf(loop, snap)
    requires (loop.Backup? ==> snap.enabled) && env.read(snap.schedule).Good?
    ensures Allows(loop, env, snap, plan.at.value)
  {
    var was :| PlannedFrom(loop, env, plan, was);
    SourceNamesItsInputs(loop, env, was, snap);
  }

  /** What a tick fires is allowed and due, and what it plans is allowed and still to come. */
  ghost predicate TickSound(loop: Loop, env: Env, snap: Snapshot, now: int, plan: Plan, p: Plan, due: Option<int>) {
    && Planned(loop, env, p)
    && (due.Some? ==> Allows(loop, env, snap, due.value) && due.value * MINUTE <= now && due == plan.at)
    && (p.at.Some? && (due.Some? || p.at != plan.at) ==> now < p.at.value * MINUTE)
  }

  lemma BackupTickIsSound(env: Env, snap: Snapshot, now: int, plan: Plan)
    requires Separable(env) && Planned(Backup, env, plan)
    ensures var r := BackupTick(env, snap, now, plan); TickSound(Backup, env, snap, now, plan, r.0, r.1)
  {
    if snap.enabled && env.read(snap.schedule).Good? {
      NextIsPlanned(Backup, env, snap, now);
      NextIsPlanned(Backup, env, snap, now + MINUTE);
      if plan.at.Some? && plan.source == SourceOf(Backup, snap) {
        PlanIsInForce(Backup, env, plan, snap);
      }
    }
  }

  lemma RefreshTickIsSound(env: Env, snap: Snapshot, now: int, plan: Plan)
    requires Separable(env) && Planned(Blocklist, env, plan)
    ensures var r := BlocklistTick(env, snap, now, plan); TickSound(Blocklist, env, snap, now, plan, r.0, r.1)
  {
    if env.read(snap.schedule).Good? {
      NextIsPlanned(Blocklist, env, snap, now);
      if plan.at.Some? && plan.source == SourceOf(Blocklist, snap) {
        PlanIsInForce(Blocklist, env, plan, snap);
      }
    }
  }

  lemma TickIsSound(loop: Loop, env: Env, snap: Snapshot, now: int, plan: Plan)
    requires Separable(env) && Planned(loop, env, plan)
    ensures var r := TickStep(loop, env, snap, now, plan); TickSound(loop, env, snap, now, plan, r.0, r.1)
  {
    if loop.Backup? {
      BackupTickIsSound(env, snap, now, plan);
    } else {
      RefreshTickIsSound(env, snap, now, plan);
    }
  }

  lemma ReplanKeepsOrder(st: State, now: int, p: Plan)
    requires Increasing(st.shots) && Ahead(st) && (st.shots != [] ==> LastShot(st).now <= now)
    requires p.at.Some? && p.at != st.plan.at ==> now < p.at.value * MINUTE
    ensures Ahead(State(p, st.shots))
  {
  }

  lemma FireKeepsOrder(st: State, shot: Shot, p: Plan)
    requires Increasing(st.shots) && Ahead(st) && (st.shots != [] ==> LastShot(st).now <= shot.now)
    requires st.plan.at == Some(shot.minute) && shot.minute * MINUTE <= shot.now
    requires p.at.Some? ==> shot.now < p.at.value * MINUTE
    ensures Increasing(st.shots + [shot]) && Ahead(State(p, st.shots + [shot]))
  {
  }

  lemma RecordKeeps(loop: Loop, env: Env, st: State, snap: Snapshot, now: int, p: Plan, due: Option<int>)
    requires Sound(loop, env, st) && (st.shots != [] ==> LastShot(st).now <= now)
    requires TickSound(loop, env, snap, now, st.plan, p, due)
    ensures var s := State(p, Recorded(st.shots, due, now, snap));
            Sound(loop, env, s) && (s.shots != [] ==> LastShot(s).now <= now)
  {
    if due.None? {
      ReplanKeepsOrder(st, now, p);
    } else {
      FireKeepsOrder(st, Shot(due.value, now, snap), p);
    }
    var s := State(p, Recorded(st.shots, due, now, snap));
    forall i | 0 <= i < |s.shots| ensures Permitted(loop, env, s.shots[i]) {
      if i < |st.shots| {
        assert s.shots[i] == st.shots[i];
      } else {
        assert s.shots[i] == Shot(due.value, now, snap);
      }
    }
  }

  lemma StepKeeps(loop: Loop, env: Env, st: State, e: Event)
    requires Separable(env) && Sound(loop, env, st) && (st.shots != [] ==> LastShot(st).now <= e.now)
    ensures Sound(loop, env, Step(loop, env, st, e))
    ensures Step(loop, env, st, e).shots != [] ==> LastShot(Step(loop, env, st, e)).now <= e.now
  {
    if e.Tick? {
      TickIsSound(loop, env, e.snap, e.now, st.plan);
      var r := TickStep(loop, env, e.snap, e.now, st.plan);
      RecordKeeps(loop, env, st, e.snap, e.now, r.0, r.1);
    }
  }

  lemma {:induction false} RunKeeps(loop: Loop, env: Env, es: seq<Event>)
    requires Separable(env) && Forward(es)
    ensures Sound(loop, env, Run(loop, env, es))
    ensures Run(loop, env, es).shots != [] ==>
              es != [] && LastShot(Run(loop, env, es)).now <= es[|es| - 1].now
  {
    if es != [] {
      RunKeeps(loop, env, es[..|es| - 1]);
      StepKeeps(loop, env, Run(loop, env, es[..|es| - 1]), es[|es| - 1]);
    }
  }

  /**
   Over every run, each fire is for a past or present minute that the expression then in force
   matches, and no minute is fired for twice.
   */
  lemma FiresAreDueAndIncrease(loop: Loop, env: Env, es: seq<Event>)
    requires Genuine(env) && Forward(es)
    ensures var shots := Run(loop, env, es).shots;
            Increasing(shots) && forall i :: 0 <= i < |shots| ==> Permitted(loop, env, shots[i])
  {
    GenuineIsSeparable(env);
    RunKeeps(loop, env, es);
  }

  // ------------------------------------------------------- what a fire skips

  /** A minute after the fire that matches and that the next plan has passed over. */
  predicate PassedOver(s: Schedule, cal: Calendar, now: int, at: Option<int>, k: int) {
    now < k * MINUTE < now + HORIZON && Fires(s, cal, k) && (at.Some? ==> k < at.value)
  }

  /** The blocklist loop plans again from now, and passes nothing over. */
  lemma RefreshPassesNothingOver(env: Env, snap: Snapshot, now: int, plan: Plan, k: int)
    requires BlocklistTick(env, snap, now, plan).1.Some?
    ensures !PassedOver(env.read(snap.schedule).schedule, env.calendar(LOCAL), now,
                        BlocklistTick(env, snap, now, plan).0.at, k)
  {
    NextIsTheLeast(env.read(snap.schedule).schedule, env.calendar(LOCAL), now);
  }

  /** Planning from a minute later loses the very next minute when that one matches, and no other. */
  lemma LaterPlanPassesOverExactlyWhen(s: Schedule, cal: Calendar, now: int)
    ensures var at := NextMinute(s, cal, now + MINUTE);
            (exists k :: PassedOver(s, cal, now, at, k)) <==> Fires(s, cal, now / MINUTE + 1)
  {
    var at := NextMinute(s, cal, now + MINUTE);
    NextIsTheLeast(s, cal, now + MINUTE);
    var lost := now / MINUTE + 1;
    assert now < lost * MINUTE <= now + MINUTE;
    if Fires(s, cal, lost) {
      assert PassedOver(s, cal, now, at, lost);
    } else {
      forall k ensures !PassedOver(s, cal, now, at, k) {
        if now < k * MINUTE {
          LaterMinute(now, k);
        }
      }
    }
  }

  /** The backup loop plans again from a minute after the fire. */
  lemma BackupPassesOverExactlyWhen(env: Env, snap: Snapshot, now: int, plan: Plan)
    requires BackupTick(env, snap, now, plan).1.Some?
    ensures var s, cal := env.read(snap.schedule).schedule, env.calendar(snap.location);
            var at := BackupTick(env, snap, now, plan).0.at;
            (exists k :: PassedOver(s, cal, now, at, k)) <==> Fires(s, cal, now / MINUTE + 1)
  {
    LaterPlanPassesOverExactlyWhen(env.read(snap.schedule).schedule, env.calendar(snap.location), now);
  }

  /** So an expression that matches every minute is served only every other one. */
  lemma EveryMinuteIsServedEveryOther(env: Env, snap: Snapshot, now: int, plan: Plan)
    requires BackupTick(env, snap, now, plan).1.Some?
    requires forall m :: Fires(env.read(snap.schedule).schedule, env.calendar(snap.location), m)
    ensures BackupTick(env, snap, now, plan).0.at == Some(now / MINUTE + 2)
  {
    var s, cal := env.read(snap.schedule).schedule, env.calendar(snap.location);
    StartIsStrictlyAfter(now + MINUTE);
    assert Fires(s, cal, StartMinute(now + MINUTE));
  }

  // ------------------------------------------------------- the loops

  /** schedulerLoop and StartBlocklistSchedule: the loop variables, and what has been started. */
  class Ticker {
    const loop: Loop
    const env: Env
    var next: Plan
    var shots: seq<Shot>

    ghost function Abs(): State
      reads this
    {
      State(next, shots)
    }

    constructor (loop: Loop, env: Env)
      ensures this.loop == loop && this.env == env
      ensures Abs() == Run(loop, env, [])
    {
      this.loop := loop;
      this.env := env;
      next := IDLE;
      shots := [];
    }

    method Start(minute: int, now: int, snap: Snapshot)
      modifies `shots
      ensures shots == old(shots) + [Shot(minute, now, snap)]
    {
      shots := shots + [Shot(minute, now, snap)];
    }

    method SchedulerTick(snap: Snapshot, now: int)
      requires Genuine(env) && loop == Backup
      modifies this
      ensures Abs() == Step(loop, env, old(Abs()), Tick(now, snap))
    {
      if !snap.enabled || snap.schedule == "" {
        next := IDLE;
        return;
      }
      var read := ParseSchedule(snap.schedule);
      if read.Crashes? {
        next := IDLE;
        return;
      }
      if read.Refused? {
        return;
      }
      var source := snap.schedule + [BAR] + snap.location;
      if next.at.None? || next.at.value * MINUTE < snap.lastRun || next.source != source {
        var at := Next(read.schedule, env.calendar(snap.location), now);
        next := Plan(at, source);
      }
      if next.at.None? || now < next.at.value * MINUTE {
        return;
      }
      Start(next.at.value, now, snap);
      var at := Next(read.schedule, env.calendar(snap.location), now + MINUTE);
      next := Plan(at, source);
    }

    method RefreshTick(snap: Snapshot, now: int)
      requires Genuine(env) && loop == Blocklist
      modifies this
      ensures Abs() == Step(loop, env, old(Abs()), Tick(now, snap))
    {
      var spec := snap.schedule;
      if spec == "" {
        next := IDLE;
        return;
      }
      var read := ParseSchedule(spec);
      if read.Crashes? {
        next := IDLE;
        return;
      }
      if read.Refused? {
        next := Plan(None, spec);
        return;
      }
      if next.at.Some? && spec == next.source {
        if now < next.at.value * MINUTE {
          return;
        }
        Start(next.at.value, now, snap);
      }
      var at := Next(read.schedule, env.calendar(LOCAL), now);
      next := Plan(at, spec);
    }
  }
}
