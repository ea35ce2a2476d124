/**
 Apply, confirm and roll back a firewall ruleset under a watchdog, across restarts
 of the web process.

 `State` holds everything the protocol touches. The first five fields are the
 kernel and the disk; the last four live in process memory and die with it.
 `FirewallService` is the imperative service; each method is proved against the
 step function of the same name, and the theorems are about runs of those steps.
 */
module Firewall {
  import opened Core

  type Ruleset = seq<string>
  type Config = string

  /** How long an applied ruleset waits for the operator, in nanoseconds. */
  const CONFIRM_WINDOW := 30_000_000_000

  const FLUSH := "flush ruleset\n"
  const EMPTY_RULESET_SNAPSHOT := "# empty ruleset\n"

  /** What the model takes from outside: `nft list ruleset`, `nft -f` and the template. */
  datatype Nft = Nft(list: Ruleset -> string, load: string -> Ruleset, render: Config -> string)

  /** A listing stands for "no rules" when it is blank, and is then stored as a comment. */
  function SnapshotText(listing: string): string {
    if Blank(listing) then EMPTY_RULESET_SNAPSHOT else listing
  }

  function RollbackFile(snapshot: string): string {
    FLUSH + snapshot
  }

  /**
   Loading a listing behind a flush puts the listed ruleset back, and a flush with a comment behind it
   leaves the ruleset whose listing is blank.
   */
  ghost predicate Faithful(nft: Nft) {
    && (forall r :: !Blank(nft.list(r)) ==> nft.load("flush ruleset\n" + nft.list(r)) == r)
    && (forall r :: Blank(nft.list(r)) ==> nft.load("flush ruleset\n" + "# empty ruleset\n") == r)
    && (forall c :: nft.render(c) != "")
  }

  /** So the file a rollback loads puts back the ruleset its snapshot was taken of. */
  lemma SnapshotLoadsBack(nft: Nft, r: Ruleset)
    requires Faithful(nft)
    ensures SnapshotText(nft.list(r)) != "" && nft.load(RollbackFile(SnapshotText(nft.list(r)))) == r
  {
  }

  datatype Pending = Pending(snapshot: string, appliedAt: int)

  datatype Change = Change(id: nat, snapshot: string)

  datatype State = State(
    kernel: Ruleset,
    boot: string,
    pending: Option<Pending>,
    rolledBack: bool,
    config: Config,
    change: Option<Change>,
    applied: string,
    timers: map<nat, int>,
    nextId: nat
  )

  /** A machine on which no change was ever applied. */
  function Fresh(kernel: Ruleset, boot: string, config: Config): State {
    State(kernel, boot, None, false, config, None, "", map[], 0)
  }

  // ---------------------------------------------------------------- steps

  datatype Event =
    | Apply(now: int, loads: bool)
    | Confirm
    | Rollback
    | Watchdog(now: int, id: nat)
    | Restart(now: int)
    | Edit(config: Config)
    | ApplyAndConfirm(now: int, loads: bool)

  /** `loads` is false when rendering, the snapshot, the check or the load failed. */
  function DoApply(nft: Nft, s: State, now: int, loads: bool): State {
    if s.change.Some? || !loads then s
    else
      var rendered := nft.render(s.config);
      var snapshot := SnapshotText(nft.list(s.kernel));
      s.(kernel := nft.load(rendered),
         change := Some(Change(s.nextId, snapshot)),
         applied := rendered,
         pending := if snapshot == "" then s.pending else Some(Pending(snapshot, now)),
         timers := s.timers[s.nextId := now + CONFIRM_WINDOW],
         nextId := s.nextId + 1)
  }

  function DoConfirm(nft: Nft, s: State): State {
    if s.change.None? then s.(pending := None)
    else
      s.(change := None,
         boot := if s.applied == "" then nft.render(s.config) else s.applied,
         applied := "",
         rolledBack := false,
         pending := None)
  }

  /** AtomicChange.Rollback: an empty snapshot is refused and leaves the kernel alone. */
  function Reverted(nft: Nft, kernel: Ruleset, snapshot: string): Ruleset {
    if snapshot == "" then kernel else nft.load(RollbackFile(snapshot))
  }

  function DoRollback(nft: Nft, s: State): State {
    if s.change.None? then s
    else s.(kernel := Reverted(nft, s.kernel, s.change.value.snapshot), change := None, pending := None)
  }

  /**
   The timer callback of change `id`. Stopping a fired timer does not unschedule its
   callback, so any timer this process armed may call back once it is due, settled or not.
   */
  function DoWatchdog(nft: Nft, s: State, now: int, id: nat): State {
    if id !in s.timers || now < s.timers[id] then s
    else if s.change.None? || s.change.value.id != id then s
    else
      s.(kernel := Reverted(nft, s.kernel, s.change.value.snapshot),
         change := None, pending := None, rolledBack := true)
  }

  /** A new process: memory is gone, and a pending record re-arms the watchdog. */
  function DoRestart(s: State, now: int): State {
    var booted := s.(change := None, applied := "", timers := map[]);
    if s.pending.None? then booted
    else if s.pending.value.snapshot == "" then booted.(pending := None)
    else
      var remaining := Max(CONFIRM_WINDOW - (now - s.pending.value.appliedAt), 0);
      booted.(change := Some(Change(s.nextId, s.pending.value.snapshot)),
              timers := map[s.nextId := now + remaining],
              nextId := s.nextId + 1)
  }

  /** A confirm leaves nothing pending; with no change to confirm it touches the record and nothing else. */
  lemma ConfirmClearsTheRecord(nft: Nft, s: State)
    ensures DoConfirm(nft, s).pending.None? && DoConfirm(nft, s).change.None?
    ensures DoConfirm(nft, s).kernel == s.kernel && DoConfirm(nft, s).timers == s.timers
    ensures s.change.None? ==> DoConfirm(nft, s).boot == s.boot && DoConfirm(nft, s).rolledBack == s.rolledBack
  {
  }

  /** A record with nothing to roll back to is dropped at the start, and nothing is pending. */
  lemma EmptyRecordIsDropped(s: State, now: int)
    requires s.pending.Some? && s.pending.value.snapshot == ""
    ensures var after := DoRestart(s, now);
            && after.pending.None? && after.change.None? && after.timers == map[]
            && after.kernel == s.kernel && after.boot == s.boot && after.rolledBack == s.rolledBack
  {
  }

  /** The marker check, the apply and the confirm as one step. */
  function DoApplyAndConfirm(nft: Nft, s: State, now: int, loads: bool): State {
    if s.rolledBack || s.change.Some? || !loads then s
    else DoConfirm(nft, DoApply(nft, s, now, loads))
  }

  function Step(nft: Nft, s: State, e: Event): State {
    match e
    case Apply(now, loads) => DoApply(nft, s, now, loads)
    case Confirm => DoConfirm(nft, s)
    case Rollback => DoRollback(nft, s)
    case Watchdog(now, id) => DoWatchdog(nft, s, now, id)
    case Restart(now) => DoRestart(s, now)
    case Edit(config) => s.(config := config)
    case ApplyAndConfirm(now, loads) => DoApplyAndConfirm(nft, s, now, loads)
  }

  function Run(nft: Nft, s: State, es: seq<Event>): State {
    if es == [] then s else Step(nft, Run(nft, s, es[..|es| - 1]), es[|es| - 1])
  }

  // ------------------------------------------------- what an operator sees

  /** One unconfirmed ruleset: what was loaded, from which text, and when it reverts. */
  datatype Trial = Trial(ruleset: Ruleset, text: string, appliedAt: int, due: int, sameProcess: bool)

  /**
   The promise, with no snapshots, records, timers or processes in it: a settled
   ruleset, at most one trial on top of it, and whether background applies are blocked.
   */
  datatype View = View(settled: Ruleset, trial: Option<Trial>, boot: string, blocked: bool, config: Config)

  function ViewApply(nft: Nft, v: View, now: int, loads: bool): View {
    if v.trial.Some? || !loads then v
    else
      var text := nft.render(v.config);
      v.(trial := Some(Trial(nft.load(text), text, now, now + CONFIRM_WINDOW, true)))
  }

  function ViewConfirm(nft: Nft, v: View): View {
    if v.trial.None? then v
    else
      v.(settled := v.trial.value.ruleset,
         boot := if v.trial.value.sameProcess then v.trial.value.text else nft.render(v.config),
         trial := None,
         blocked := false)
  }

  /** `current` says whether the callback belongs to the trial in force. */
  function ViewStep(nft: Nft, v: View, e: Event, current: bool): View {
    match e
    case Apply(now, loads) => ViewApply(nft, v, now, loads)
    case Confirm => ViewConfirm(nft, v)
    case Rollback => v.(trial := None)
    case Watchdog(now, _) =>
      if v.trial.Some? && current && v.trial.value.due <= now then v.(trial := None, blocked := true) else v
    case Restart(now) =>
      if v.trial.None? then v
      else
        var t := v.trial.value;
        v.(trial := Some(t.(sameProcess := false, due := Max(t.appliedAt + CONFIRM_WINDOW, now))))
    case Edit(config) => v.(config := config)
    case ApplyAndConfirm(now, loads) =>
      if v.blocked || v.trial.Some? then v else ViewConfirm(nft, ViewApply(nft, v, now, loads))
  }

  predicate IsCurrent(s: State, e: Event) {
    e.Watchdog? && s.change.Some? && s.change.value.id == e.id
  }

  function ViewRun(nft: Nft, s: State, v: View, es: seq<Event>): View {
    if es == [] then v
    else
      var front := es[..|es| - 1];
      var last := es[|es| - 1];
      ViewStep(nft, ViewRun(nft, s, v, front), last, IsCurrent(Run(nft, s, front), last))
  }

  /** The concrete state carries out the view. */
  ghost predicate Realises(nft: Nft, s: State, v: View) {
    && s.boot == v.boot && s.rolledBack == v.blocked && s.config == v.config
    && (forall id :: id in s.timers ==> id < s.nextId)
    && (v.trial.None? ==> s.change.None? && s.pending.None? && s.kernel == v.settled)
    && (v.trial.Some? ==>
          var t := v.trial.value;
          && s.kernel == t.ruleset
          && s.change.Some? && s.pending.Some?
          && s.change.value.snapshot != ""
          && s.pending.value == Pending(s.change.value.snapshot, t.appliedAt)
          && nft.load(RollbackFile(s.change.value.snapshot)) == v.settled
          && s.change.value.id in s.timers
          && s.timers[s.change.value.id] == t.due
          && t.ruleset == nft.load(t.text)
          && t.text != ""
          && s.applied == (if t.sameProcess then t.text else ""))
  }

  lemma StepRealises(nft: Nft, s: State, v: View, e: Event)
    requires Faithful(nft) && Realises(nft, s, v)
    ensures Realises(nft, Step(nft, s, e), ViewStep(nft, v, e, IsCurrent(s, e)))
  {
    match e
    case Apply(now, loads) => ApplyRealises(nft, s, v, now, loads);
    case ApplyAndConfirm(now, loads) =>
      if !s.rolledBack && s.change.None? && loads {
        ApplyRealises(nft, s, v, now, loads);
      }
    case _ =>
  }

  lemma ApplyRealises(nft: Nft, s: State, v: View, now: int, loads: bool)
    requires Faithful(nft) && Realises(nft, s, v)
    ensures Realises(nft, DoApply(nft, s, now, loads), ViewApply(nft, v, now, loads))
  {
    if s.change.None? && loads {
      var listing := nft.list(s.kernel);
      assert nft.load(RollbackFile(SnapshotText(listing))) == s.kernel;
      assert SnapshotText(listing) != "" by {
        if !Blank(listing) { assert listing != ""; }
      }
      assert nft.render(s.config) != "";
    }
  }

  // --------------------------------------------------------- whole runs

  lemma {:induction false} RunRealises(nft: Nft, s0: State, v0: View, es: seq<Event>)
    requires Faithful(nft) && Realises(nft, s0, v0)
    ensures Realises(nft, Run(nft, s0, es), ViewRun(nft, s0, v0, es))
  {
    if es != [] {
      var front := es[..|es| - 1];
      RunRealises(nft, s0, v0, front);
      StepRealises(nft, Run(nft, s0, front), ViewRun(nft, s0, v0, front), es[|es| - 1]);
    }
  }

  /**
   In every run from a fresh machine the kernel holds the settled ruleset or the one
   trial. While a trial runs, its snapshot is on disk and loads back to exactly the settled
   ruleset, and its watchdog is armed for the trial's due time; otherwise nothing is pending.
   */
  lemma KernelIsSettledOrOneTrial(nft: Nft, kernel: Ruleset, boot: string, config: Config, es: seq<Event>)
    requires Faithful(nft)
    ensures
      var s0 := Fresh(kernel, boot, config);
      var s := Run(nft, s0, es);
      var v := ViewRun(nft, s0, View(kernel, None, boot, false, config), es);
      && s.boot == v.boot && s.rolledBack == v.blocked
      && (s.change.Some? <==> v.trial.Some?)
      && (s.pending.Some? <==> v.trial.Some?)
      && s.kernel == (if v.trial.Some? then v.trial.value.ruleset else v.settled)
      && (v.trial.Some? ==>
            && s.pending.value == Pending(s.change.value.snapshot, v.trial.value.appliedAt)
            && Reverted(nft, s.kernel, s.change.value.snapshot) == v.settled
            && s.change.value.id in s.timers
            && s.timers[s.change.value.id] == v.trial.value.due)
  {
    RunRealises(nft, Fresh(kernel, boot, config), View(kernel, None, boot, false, config), es);
  }

  /** The start of the last process, or `none` when the run has no restart. */
  function LastStart(es: seq<Event>): Option<int> {
    if es == [] then None
    else if es[|es| - 1].Restart? then Some(es[|es| - 1].now)
    else LastStart(es[..|es| - 1])
  }

  ghost predicate NoRestartAfter(es: seq<Event>, i: nat) {
    forall m :: i < m < |es| ==> !es[m].Restart?
  }

  /** The ruleset loaded at event `i` has been in the kernel at every moment since. */
  ghost predicate InKernelSince(nft: Nft, s0: State, es: seq<Event>, i: nat, r: Ruleset) {
    forall m :: i < m <= |es| ==> Run(nft, s0, es[..m]).kernel == r
  }

  /** Trial `t`, in force after `es`, began at event `i`. */
  ghost predicate BeganAt(nft: Nft, s0: State, es: seq<Event>, t: Trial, i: nat) {
    && i < |es| && es[i].Apply? && es[i].loads
    && Run(nft, s0, es[..i]).change.None?
    && t.appliedAt == es[i].now
    && t.text == nft.render(Run(nft, s0, es[..i]).config)
    && (t.sameProcess <==> NoRestartAfter(es, i))
    && t.due == (if t.sameProcess || LastStart(es).None? then es[i].now + CONFIRM_WINDOW
                 else Max(es[i].now + CONFIRM_WINDOW, LastStart(es).value))
    && InKernelSince(nft, s0, es, i, nft.load(t.text))
  }

  lemma InKernelLonger(nft: Nft, s0: State, front: seq<Event>, e: Event, i: nat, r: Ruleset)
    requires i <= |front| && InKernelSince(nft, s0, front, i, r)
    requires Run(nft, s0, front + [e]).kernel == r
    ensures InKernelSince(nft, s0, front + [e], i, r)
  {
    var es := front + [e];
    forall m | i < m <= |es| ensures Run(nft, s0, es[..m]).kernel == r {
      if m <= |front| {
        assert es[..m] == front[..m];
      } else {
        assert es[..m] == es;
      }
    }
  }

  /** A trial carried through one more event keeps its origin. */
  lemma BeganAtStep(nft: Nft, s0: State, front: seq<Event>, e: Event, v: View, i: nat)
    requires Realises(nft, Run(nft, s0, front), v)
    requires v.trial.Some? && BeganAt(nft, s0, front, v.trial.value, i)
    requires ViewStep(nft, v, e, IsCurrent(Run(nft, s0, front), e)).trial.Some?
    requires Run(nft, s0, front + [e]).kernel == Run(nft, s0, front).kernel
    ensures BeganAt(nft, s0, front + [e], ViewStep(nft, v, e, IsCurrent(Run(nft, s0, front), e)).trial.value, i)
  {
    var es := front + [e];
    assert es[..i] == front[..i];
    assert forall m :: 0 <= m < |front| ==> es[m] == front[m];
    assert front[..|front|] == front;
    InKernelLonger(nft, s0, front, e, i, nft.load(v.trial.value.text));
    assert !e.Restart? && NoRestartAfter(front, i) ==> NoRestartAfter(es, i);
    assert e.Restart? ==> es[|front|].Restart?;
    if !NoRestartAfter(front, i) {
      RestartSeen(front, i);
    }
  }

  /** A trial that the last event started began there. */
  lemma BeginsNow(nft: Nft, s0: State, front: seq<Event>, e: Event, v: View)
    requires Faithful(nft) && Realises(nft, Run(nft, s0, front), v) && v.trial.None?
    requires ViewStep(nft, v, e, IsCurrent(Run(nft, s0, front), e)).trial.Some?
    ensures BeganAt(nft, s0, front + [e], ViewStep(nft, v, e, IsCurrent(Run(nft, s0, front), e)).trial.value, |front|)
  {
    var es := front + [e];
    assert es[..|front|] == front && es[..|es|] == es;
  }

  lemma RestartSeen(es: seq<Event>, i: nat)
    requires !NoRestartAfter(es, i)
    ensures LastStart(es).Some?
  {
    var m :| i < m < |es| && es[m].Restart?;
    if m < |es| - 1 {
      assert es[..|es| - 1][m].Restart?;
      RestartSeen(es[..|es| - 1], i);
    }
  }

  /**
   Every trial has an origin: an apply at an event `i` with nothing pending, rendered from the
   config of that moment, in the kernel ever since whatever was edited. It falls due at its
   apply time plus the window, or at the last start after it if that is later.
   */
  lemma {:induction false} TrialOrigin(nft: Nft, s0: State, v0: View, es: seq<Event>) returns (i: nat)
    requires Faithful(nft) && Realises(nft, s0, v0) && v0.trial.None?
    requires ViewRun(nft, s0, v0, es).trial.Some?
    ensures BeganAt(nft, s0, es, ViewRun(nft, s0, v0, es).trial.value, i)
  {
    var front := es[..|es| - 1];
    var last := es[|es| - 1];
    assert es == front + [last];
    RunRealises(nft, s0, v0, front);
    var v := ViewRun(nft, s0, v0, front);
    if v.trial.Some? {
      i := TrialOrigin(nft, s0, v0, front);
      RunRealises(nft, s0, v0, es);
      BeganAtStep(nft, s0, front, last, v, i);
    } else {
      i := |es| - 1;
      BeginsNow(nft, s0, front, last, v);
    }
  }

  /** A trial left alone is gone once its own watchdog calls back, and background applies are then blocked. */
  lemma WatchdogReverts(nft: Nft, s0: State, v0: View, es: seq<Event>, now: int)
    requires Faithful(nft) && Realises(nft, s0, v0)
    requires
      var v := ViewRun(nft, s0, v0, es);
      v.trial.Some? && v.trial.value.due <= now
    ensures
      var s := Run(nft, s0, es);
      && s.change.Some?
      && var s' := Step(nft, s, Watchdog(now, s.change.value.id));
         && s'.kernel == ViewRun(nft, s0, v0, es).settled
         && s'.boot == s.boot
         && s'.change.None? && s'.pending.None? && s'.rolledBack
  {
    RunRealises(nft, s0, v0, es);
  }

  // ------------------------------------------------------- the boot file

  /**
   Whenever event `e` overwrites the boot file, a ruleset loaded at some event `i` has been
   in the kernel without interruption since, and is now the settled one. Without a restart
   after `i` the text written is the very text loaded at `i`, whatever the config says by now.
   The boot file describes the kernel exactly when there was no such restart or the config
   still renders to the loaded ruleset.
   */
  lemma BootFileIsWhatWasConfirmed(nft: Nft, s0: State, v0: View, es: seq<Event>, e: Event) returns (i: nat)
    requires Faithful(nft) && Realises(nft, s0, v0) && v0.trial.None?
    requires Run(nft, s0, es + [e]).boot != Run(nft, s0, es).boot
    ensures i <= |es|
    ensures
      var tr := es + [e];
      var text := nft.render(Run(nft, s0, tr[..i]).config);
      && (tr[i].Apply? || tr[i].ApplyAndConfirm?) && tr[i].loads
      && InKernelSince(nft, s0, tr, i, nft.load(text))
      && ViewRun(nft, s0, v0, tr).trial.None?
      && ViewRun(nft, s0, v0, tr).settled == nft.load(text)
      && (NoRestartAfter(tr, i) ==> Run(nft, s0, tr).boot == text)
      && (nft.load(Run(nft, s0, tr).boot) == Run(nft, s0, tr).kernel
          <==> NoRestartAfter(tr, i) || nft.load(nft.render(Run(nft, s0, es).config)) == nft.load(text))
  {
    var tr := es + [e];
    assert tr[..|es|] == es;
    RunRealises(nft, s0, v0, es);
    if e.Confirm? {
      i := TrialOrigin(nft, s0, v0, es);
      ConfirmWritesTrial(nft, s0, v0, es, i);
    } else {
      i := |es|;
      assert tr[..|tr|] == tr;
    }
  }

  lemma ConfirmWritesTrial(nft: Nft, s0: State, v0: View, es: seq<Event>, i: nat)
    requires Realises(nft, Run(nft, s0, es), ViewRun(nft, s0, v0, es))
    requires ViewRun(nft, s0, v0, es).trial.Some?
    requires BeganAt(nft, s0, es, ViewRun(nft, s0, v0, es).trial.value, i)
    ensures
      var tr := es + [Confirm];
      var text := nft.render(Run(nft, s0, es[..i]).config);
      && tr[..i] == es[..i] && tr[i] == es[i]
      && InKernelSince(nft, s0, tr, i, nft.load(text))
      && ViewRun(nft, s0, v0, tr).trial.None?
      && ViewRun(nft, s0, v0, tr).settled == nft.load(text) == Run(nft, s0, tr).kernel
      && Run(nft, s0, tr).boot == (if NoRestartAfter(tr, i) then text else nft.render(Run(nft, s0, es).config))
  {
    var tr := es + [Confirm];
    assert tr[..|es|] == es && es[..|es|] == es;
    assert tr[..i] == es[..i];
    assert forall m :: 0 <= m < |es| ==> tr[m] == es[m];
    assert NoRestartAfter(tr, i) <==> NoRestartAfter(es, i);
    InKernelLonger(nft, s0, es, Confirm, i, Run(nft, s0, es).kernel);
  }

  /** Editing the config between a restart and the confirm makes the boot file drift from the kernel. */
  lemma BootFileDriftsAfterRestartAndEdit(nft: Nft, s: State, c: Config, t0: int, t1: int)
    requires Faithful(nft) && s.change.None? && s.pending.None?
    requires nft.load(nft.render(c)) != nft.load(nft.render(s.config))
    ensures
      var s' := Run(nft, s, [Apply(t0, true), Restart(t1), Edit(c), Confirm]);
      nft.load(s'.boot) != s'.kernel
  {
    var es := [Apply(t0, true), Restart(t1), Edit(c), Confirm];
    assert SnapshotText(nft.list(s.kernel)) != "";
    assert es[..3] == [Apply(t0, true), Restart(t1), Edit(c)];
    assert es[..3][..2] == [Apply(t0, true), Restart(t1)];
    assert es[..3][..2][..1] == [Apply(t0, true)];
    assert es[..3][..2][..1][..0] == [];
    var s1 := DoApply(nft, s, t0, true);
    assert Run(nft, s, [Apply(t0, true)]) == s1;
    var s2 := DoRestart(s1, t1);
    assert Run(nft, s, [Apply(t0, true), Restart(t1)]) == s2;
    assert Run(nft, s, [Apply(t0, true), Restart(t1), Edit(c)]) == s2.(config := c);
  }

  // ------------------------------------------------ after a rollback

  /**
   From a watchdog rollback until the confirm of a pending change, the marker survives every
   restart, and each background apply in the run leaves the whole state as it was.
   */
  lemma {:induction false} BackgroundStaysBlocked(nft: Nft, s: State, es: seq<Event>, k: nat)
    requires s.rolledBack && k <= |es|
    requires forall i :: 0 <= i < |es| && es[i].Confirm? ==> Run(nft, s, es[..i]).change.None?
    ensures Run(nft, s, es[..k]).rolledBack
    ensures k < |es| && es[k].ApplyAndConfirm? ==> Run(nft, s, es[..k + 1]) == Run(nft, s, es[..k])
  {
    if k > 0 {
      BackgroundStaysBlocked(nft, s, es, k - 1);
      assert es[..k][..k - 1] == es[..k - 1];
    }
    if k < |es| {
      assert es[..k + 1][..k] == es[..k];
    }
  }

  // ------------------------------------------------------- the service

  /** The kernel and the disk: what outlives the web process. */
  class Router {
    const nft: Nft
    var kernel: Ruleset
    var boot: string
    var pending: Option<Pending>
    var rolledBack: bool
    var config: Config
    /** Numbers the changes, so that a value can stand for an object's identity. */
    var nextId: nat

    constructor (nft: Nft, kernel: Ruleset, boot: string, config: Config)
      ensures this.nft == nft && this.kernel == kernel && this.boot == boot && this.config == config
      ensures pending.None? && !rolledBack && nextId == 0
    {
      this.nft, this.kernel, this.boot, this.config := nft, kernel, boot, config;
      pending, rolledBack, nextId := None, false, 0;
    }
  }

  class AtomicChange {
    const id: nat
    var snapshot: string
    var applied: bool
    var timer: bool

    constructor (id: nat)
      ensures this.id == id && snapshot == "" && !applied && !timer
    {
      this.id, snapshot, applied, timer := id, "", false, false;
    }

    constructor WithSnapshot(id: nat, snapshot: string)
      ensures this.id == id && this.snapshot == snapshot && applied && !timer
    {
      this.id, this.snapshot, applied, timer := id, snapshot, true, false;
    }

    method Snapshot(router: Router)
      modifies this`snapshot
      ensures snapshot == SnapshotText(router.nft.list(router.kernel))
      ensures snapshot != ""
      ensures Blank(router.nft.list(router.kernel)) ==> snapshot == "# empty ruleset\n"
      ensures !Blank(router.nft.list(router.kernel)) ==> snapshot == router.nft.list(router.kernel)
    {
      var listing := router.nft.list(router.kernel);
      if Blank(listing) {
        listing := EMPTY_RULESET_SNAPSHOT;
      }
      snapshot := listing;
    }

    method Apply(router: Router, text: string)
      modifies this`applied, router`kernel
      ensures router.kernel == router.nft.load(text) && applied
    {
      router.kernel := router.nft.load(text);
      applied := true;
    }

    method Confirm()
      modifies this`timer
      ensures !timer
    {
      timer := false;
    }

    /** Refuses, touching no ruleset, when nothing was captured. */
    method Rollback(router: Router) returns (ok: bool)
      modifies this`timer, this`applied, router`kernel
      ensures !timer && ok == (snapshot != "")
      ensures router.kernel == Reverted(router.nft, old(router.kernel), snapshot)
      ensures snapshot == "" ==> router.kernel == old(router.kernel)
      ensures snapshot != "" ==> router.kernel == router.nft.load("flush ruleset\n" + snapshot)
      ensures applied == (old(applied) && !ok)
    {
      timer := false;
      if snapshot == "" {
        return false;
      }
      router.kernel := router.nft.load(RollbackFile(snapshot));
      applied := false;
      ok := true;
    }
  }

  class FirewallService {
    const router: Router
    var change: AtomicChange?
    var appliedRuleset: string
    var timers: map<nat, int>
    /** Every change whose callback may still run in this process. */
    ghost var armed: set<AtomicChange>

    ghost predicate Valid()
      reads this, router
    {
      && (change != null ==> change in armed)
      && (forall a, b :: a in armed && b in armed && a.id == b.id ==> a == b)
      && (forall a :: a in armed ==> a.id in timers)
      && (forall id :: id in timers ==> id < router.nextId)
    }

    ghost function Abs(): State
      reads this, router, change
    {
      State(router.kernel, router.boot, router.pending, router.rolledBack, router.config,
            if change == null then None else Some(Change(change.id, change.snapshot)),
            appliedRuleset, timers, router.nextId)
    }

    /** Starts a process on `router`: restorePendingChange. `before` is the state the old process left. */
    constructor (router: Router, now: int, ghost before: State)
      requires before.kernel == router.kernel && before.boot == router.boot && before.pending == router.pending
      requires before.rolledBack == router.rolledBack && before.config == router.config
      requires before.nextId == router.nextId
      modifies router
      ensures Valid() && this.router == router && fresh(armed)
      ensures Abs() == DoRestart(before, now)
      ensures change != null ==> change.applied && change.timer
    {
      this.router := router;
      change, appliedRuleset, timers, armed := null, "", map[], {};
      new;
      if router.pending.Some? {
        if router.pending.value.snapshot == "" {
          router.pending := None;
        } else {
          var remaining := Max(CONFIRM_WINDOW - (now - router.pending.value.appliedAt), 0);
          var ac := new AtomicChange.WithSnapshot(router.nextId, router.pending.value.snapshot);
          router.nextId := router.nextId + 1;
          change := ac;
          ArmWatchdog(ac, now + remaining);
        }
      }
    }

    method ArmWatchdog(ac: AtomicChange, due: int)
      requires ac.id !in timers
      modifies this`timers, this`armed, ac`timer
      ensures timers == old(timers)[ac.id := due] && armed == old(armed) + {ac} && ac.timer
    {
      timers := timers[ac.id := due];
      armed := armed + {ac};
      ac.timer := true;
    }

    method PersistPendingState(snapshot: string, now: int)
      modifies router`pending
      ensures router.pending == if snapshot == "" then old(router.pending) else Some(Pending(snapshot, now))
    {
      if snapshot != "" {
        router.pending := Some(Pending(snapshot, now));
      }
    }

    method PersistConfirmedRuleset()
      modifies this`appliedRuleset, router`boot
      ensures appliedRuleset == ""
      ensures router.boot == if old(appliedRuleset) == "" then router.nft.render(router.config) else old(appliedRuleset)
    {
      var ruleset := appliedRuleset;
      appliedRuleset := "";
      if ruleset == "" {
        ruleset := router.nft.render(router.config);
      }
      router.boot := ruleset;
    }

    /** `loads` is the outcome of the render, snapshot, check and load commands. */
    method Apply(now: int, loads: bool) returns (ok: bool)
      requires Valid()
      modifies this, router
      ensures Valid() && fresh(armed - old(armed))
      ensures ok == (old(change) == null && loads)
      ensures Abs() == DoApply(router.nft, old(Abs()), now, loads)
    {
      if change != null {
        return false;
      }
      if !loads {
        return false;
      }
      var rendered := router.nft.render(router.config);
      var ac := new AtomicChange(router.nextId);
      router.nextId := router.nextId + 1;
      ac.Snapshot(router);
      ac.Apply(router, rendered);
      change := ac;
      appliedRuleset := rendered;
      PersistPendingState(ac.snapshot, now);
      ArmWatchdog(ac, now + CONFIRM_WINDOW);
      ok := true;
    }

    method Confirm()
      requires Valid()
      modifies this, router, change
      ensures Valid() && armed == old(armed)
      ensures Abs() == DoConfirm(router.nft, old(Abs()))
    {
      if change != null {
        change.Confirm();
        change := null;
        PersistConfirmedRuleset();
        router.rolledBack := false;
      }
      router.pending := None;
    }

    method Rollback()
      requires Valid()
      modifies this, router, change
      ensures Valid() && armed == old(armed)
      ensures Abs() == DoRollback(router.nft, old(Abs()))
    {
      if change != null {
        var _ := change.Rollback(router);
        change := null;
        router.pending := None;
      }
    }

    /** The timer callback. The object, not its number, says whether the change is still the pending one. */
    method Watchdog(ac: AtomicChange, now: int)
      requires Valid() && ac in armed && timers[ac.id] <= now
      modifies this, router, ac
      ensures Valid() && armed == old(armed)
      ensures Abs() == DoWatchdog(router.nft, old(Abs()), now, ac.id)
      ensures old(change) != ac ==> Abs() == old(Abs())
    {
      if change != ac {
        return;
      }
      change := null;
      var _ := ac.Rollback(router);
      router.pending := None;
      router.rolledBack := true;
    }

    method ApplyAndConfirm(now: int, loads: bool) returns (ok: bool)
      requires Valid()
      modifies this, router
      ensures Valid()
      ensures ok == (!old(router.rolledBack) && old(change) == null && loads)
      ensures Abs() == DoApplyAndConfirm(router.nft, old(Abs()), now, loads)
    {
      if router.rolledBack {
        return false;
      }
      ok := Apply(now, loads);
      if !ok {
        return false;
      }
      Confirm();
    }

    /** mutate: an edit of the saved config. */
    method Edit(config: Config)
      requires Valid()
      modifies router`config
      ensures Valid() && Abs() == old(Abs()).(config := config)
    {
      router.config := config;
    }
  }
}
