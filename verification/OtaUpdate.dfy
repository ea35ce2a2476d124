/**
 Over-the-air updates: the installed binary, its backup, the state file, the rollback guard
 that runs in a process of its own, and the web process that may die between any two commands.

 Every command is one step and may fail; a failed copy may leave its target torn. The guard's
 steps interleave freely with the service's.
 */
module OtaUpdate {
  import opened Core

  datatype Image = Image(version: string) | Torn

  /** A garbage state file exists but does not decode. */
  datatype StateFile = Absent | Valid | Garbage

  /** The next command of the web process. */
  datatype Service =
    | Idle
    // ApplyUpdate and installBinary
    | BackUp(new_: Image) | Install(new_: Image) | Check | Save | Arm | Restarting
    // its failure paths
    | Undo | UndoArmed | ClearArmed
    // ConfirmUpdate
    | StopToConfirm | DropBackup | ClearConfirmed
    // Rollback
    | StopToRollback | CopyBack | DropUsedBackup | ClearRolledBack

  /** The next command of the guard process. */
  datatype Guard = Asleep | Stat | Copy | Rename(image: Image) | RemoveBackup | RemoveState

  /** `base` records history: the binary that was installed when the last update began. */
  datatype Machine = Machine(
    binary: Image,
    bak: Option<Image>,
    state: StateFile,
    timer: bool,
    pending: bool,
    service: Service,
    guard: Guard,
    base: Image
  )

  function Installed(binary: Image): Machine {
    Machine(binary, None, Absent, false, false, Idle, Asleep, binary)
  }

  datatype Event =
    | BeginApply(new_: Image)
    | BeginConfirm
    | BeginRollback
    | ServiceStep(ok: bool, torn: bool)
    | ServiceRestart
    | TimerFires
    | GuardStep(ok: bool)

  // ------------------------------------------------------- the service

  /** Nothing of an earlier update is left: no record, no armed timer, no running guard. */
  predicate NoUpdate(m: Machine) {
    m.service == Idle && m.state == Absent && !m.pending && !m.timer && m.guard == Asleep
  }

  /** A copy over the installed binary: complete, torn, or not begun. */
  function Over(binary: Image, from: Option<Image>, ok: bool, torn: bool): Image {
    if from.None? then binary
    else if ok then from.value
    else if torn then Torn
    else binary
  }

  /** A new web process: restorePendingUpdate reads the state file. */
  function Restarted(m: Machine): Machine {
    m.(service := Idle, pending := m.state == Valid)
  }

  function DoService(m: Machine, ok: bool, torn: bool): Machine {
    match m.service
    case Idle => m
    case BackUp(new_) =>
      if ok then m.(bak := Some(m.binary), service := Install(new_))
      else m.(bak := if torn then Some(Torn) else m.bak, service := Idle)
    case Install(new_) => m.(binary := Over(m.binary, Some(new_), ok, torn), service := if ok then Check else Undo)
    case Check => m.(service := if ok then Save else Undo)
    case Undo => m.(binary := Over(m.binary, m.bak, ok, torn), service := Idle)
    case Save =>
      if ok then m.(state := Valid, pending := true, service := Arm)
      else m.(state := if torn then Garbage else m.state, service := Undo)
    case Arm => if ok then m.(timer := true, service := Restarting) else m.(service := UndoArmed)
    case UndoArmed => m.(binary := Over(m.binary, m.bak, ok, torn), service := ClearArmed)
    case ClearArmed => m.(state := if ok then Absent else m.state, pending := false, service := Idle)
    case Restarting => Restarted(m)
    case StopToConfirm => m.(timer := m.timer && !ok, service := DropBackup)
    case DropBackup => m.(bak := if ok && m.pending then None else m.bak, service := ClearConfirmed)
    case ClearConfirmed => m.(state := if ok then Absent else m.state, pending := false, service := Idle)
    case StopToRollback => m.(timer := m.timer && !ok, service := CopyBack)
    case CopyBack =>
      m.(binary := Over(m.binary, m.bak, ok, torn), service := if ok && m.bak.Some? then DropUsedBackup else Idle)
    case DropUsedBackup => m.(bak := if ok then None else m.bak, service := ClearRolledBack)
    case ClearRolledBack => Restarted(m.(state := if ok then Absent else m.state))
  }

  // ------------------------------------------------------- the guard

  /** rollbackUnconfirmedUpdate and replaceFile, one command at a time; it ends by restarting the service. */
  function DoGuard(m: Machine, ok: bool): Machine {
    match m.guard
    case Asleep => m
    case Stat => m.(guard := if ok && m.state != Absent then Copy else Asleep)
    case Copy => m.(guard := if ok && m.bak.Some? then Rename(m.bak.value) else Asleep)
    case Rename(image) => if ok then m.(binary := image, guard := RemoveBackup) else m.(guard := Asleep)
    case RemoveBackup => m.(bak := if ok then None else m.bak, guard := RemoveState)
    case RemoveState => Restarted(m.(state := if ok then Absent else m.state, guard := Asleep))
  }

  /** The guard's five commands, each with its outcome; once it sleeps the rest do nothing. */
  function Guarded(m: Machine, stat: bool, copies: bool, renames: bool, drops: bool, clears: bool): Machine {
    DoGuard(DoGuard(DoGuard(DoGuard(DoGuard(m, stat), copies), renames), drops), clears)
  }

  /**
   Whatever fails, a woken guard ends asleep. It has put the backup in place exactly when there is a record
   and a backup and its first three commands succeed; only then are the backup and the record removed and
   the service restarted. Otherwise nothing has changed.
   */
  lemma GuardEndsExactly(m: Machine, stat: bool, copies: bool, renames: bool, drops: bool, clears: bool)
    requires m.guard == Stat
    ensures var g := Guarded(m, stat, copies, renames, drops, clears);
            if stat && m.state != Absent && copies && m.bak.Some? && renames then
              && g.binary == m.bak.value
              && g.bak == (if drops then None else m.bak)
              && g.state == (if clears then Absent else m.state)
              && g.guard == Asleep && g.service == Idle && g.pending == (g.state == Valid)
              && g.timer == m.timer && g.base == m.base
            else g == m.(guard := Asleep)
  {
  }

  function Step(m: Machine, e: Event): Machine {
    match e
    case BeginApply(new_) => if NoUpdate(m) then m.(service := BackUp(new_), base := m.binary) else m
    case BeginConfirm => if m.service == Idle then m.(service := StopToConfirm) else m
    case BeginRollback => if m.service == Idle && m.pending then m.(service := StopToRollback) else m
    case ServiceStep(ok, torn) => DoService(m, ok, torn)
    case ServiceRestart => Restarted(m)
    case TimerFires => if m.timer && m.guard == Asleep then m.(timer := false, guard := Stat) else m
    case GuardStep(ok) => DoGuard(m, ok)
  }

  /** The service's lock: an operation begins only when none is under way, and a rollback only of a pending update. */
  lemma OneOperationAtATime(m: Machine, new_: Image)
    ensures m.service != Idle ==> Step(m, BeginApply(new_)) == Step(m, BeginConfirm) == Step(m, BeginRollback) == m
    ensures !m.pending ==> Step(m, BeginRollback) == m
    ensures m.service == Idle ==> Step(m, BeginConfirm) != m
  {
  }

  function Run(m: Machine, es: seq<Event>): Machine {
    if es == [] then m else Step(Run(m, es[..|es| - 1]), es[|es| - 1])
  }

  // ------------------------------------------------------- the invariant

  predicate BeforeArming(m: Machine) {
    m.service.Install? || m.service.Check? || m.service.Save? || m.service.Arm? || m.service.Undo?
    || m.service.UndoArmed? || m.service.ClearArmed?
  }

  /** Whenever something could restore the backup, the backup is the pre-update binary. */
  predicate Inv(m: Machine) {
    && (m.service.BackUp? ==> m.state == Absent && !m.pending && !m.timer && m.guard == Asleep && m.binary == m.base)
    && (BeforeArming(m) ==> m.bak == Some(m.base) && !m.timer && m.guard == Asleep)
    && (m.service.Install? || m.service.Check? || m.service.Save? ==> m.state == Absent && !m.pending)
    && (m.service.Install? ==> m.binary == m.base)
    && (m.bak.Some? && (m.state != Absent || m.pending || m.timer || m.guard != Asleep) ==> m.bak.value == m.base)
    && (m.guard.Rename? ==> m.guard.image == m.base)
    && (m.timer ==> m.guard == Asleep)
  }

  lemma ServiceKeeps(m: Machine, ok: bool, torn: bool)
    requires Inv(m)
    ensures Inv(DoService(m, ok, torn))
  {
  }

  lemma GuardKeeps(m: Machine, ok: bool)
    requires Inv(m)
    ensures Inv(DoGuard(m, ok))
  {
  }

  lemma StepKeeps(m: Machine, e: Event)
    requires Inv(m)
    ensures Inv(Step(m, e))
  {
    if e.ServiceStep? {
      ServiceKeeps(m, e.ok, e.torn);
    } else if e.GuardStep? {
      GuardKeeps(m, e.ok);
    }
  }

  lemma {:induction false} RunKeeps(m: Machine, es: seq<Event>)
    requires Inv(m)
    ensures Inv(Run(m, es))
  {
    if es != [] {
      RunKeeps(m, es[..|es| - 1]);
      StepKeeps(Run(m, es[..|es| - 1]), es[|es| - 1]);
    }
  }

  predicate NoNewUpdate(es: seq<Event>) {
    forall i :: 0 <= i < |es| ==> !es[i].BeginApply?
  }

  // ------------------------------------------------------- what the guard does

  /** The guard from its timer to its end, every command succeeding. */
  function GuardRun(m: Machine): Machine {
    DoGuard(DoGuard(DoGuard(DoGuard(DoGuard(m.(guard := Stat), true), true), true), true), true)
  }

  /**
   From every state an apply, a confirm or a rollback can be caught in, a whole guard run restores
   exactly the pre-update binary when the state file and the backup are both there, and otherwise
   leaves the installed binary and both files alone. No single guard command, failing or not,
   installs anything but the pre-update binary.
   */
  lemma GuardRestoresOrLeaves(b: Image, es: seq<Event>, ok: bool)
    ensures
      var m := Run(Installed(b), es);
      && DoGuard(m, ok).binary in {m.binary, m.base}
      && (m.guard == Asleep ==>
            var g := GuardRun(m);
            && g.guard == Asleep
            && (if m.state != Absent && m.bak.Some?
                then g.binary == m.base && g.bak.None? && g.state == Absent
                else g.binary == m.binary && g.bak == m.bak && g.state == m.state))
  {
    RunKeeps(Installed(b), es);
  }

  /** The guard is armed or running, and everything it needs is in place. */
  predicate WillRevert(m: Machine) {
    || (m.state != Absent && m.bak == Some(m.base) && m.timer && m.guard == Asleep)
    || (m.state != Absent && m.bak == Some(m.base) && !m.timer && m.guard == Stat)
    || (m.bak == Some(m.base) && !m.timer && m.guard == Copy)
    || (!m.timer && m.guard == Rename(m.base))
  }

  predicate HasReverted(m: Machine) {
    m.binary == m.base && !m.timer && (m.guard.RemoveBackup? || m.guard.RemoveState? || m.guard.Asleep?)
  }

  /** Nobody confirms, rolls back or updates, and the guard's own commands succeed. */
  predicate LeftAlone(e: Event) {
    !e.BeginConfirm? && !e.BeginRollback? && !e.BeginApply? && (e.GuardStep? ==> e.ok)
  }

  predicate Reverting(m: Machine) {
    m.service in {Idle, Restarting} && (WillRevert(m) || HasReverted(m))
  }

  lemma RevertingStep(m: Machine, e: Event)
    requires Reverting(m) && LeftAlone(e)
    ensures Reverting(Step(m, e)) && Step(m, e).base == m.base
  {
  }

  /** The timer goes off while it is armed, or the guard does something while it is awake. */
  predicate IsMove(m: Machine, e: Event) {
    (e.TimerFires? && m.timer && m.guard == Asleep) || (e.GuardStep? && m.guard != Asleep)
  }

  function Moves(m: Machine, es: seq<Event>): nat {
    if es == [] then 0
    else Moves(m, es[..|es| - 1]) + if IsMove(Run(m, es[..|es| - 1]), es[|es| - 1]) then 1 else 0
  }

  /** The moves until the pre-update binary is back. */
  function MovesLeft(m: Machine): nat {
    if !WillRevert(m) then 0
    else if m.guard == Asleep then 4
    else if m.guard == Stat then 3
    else if m.guard == Copy then 2
    else 1
  }

  lemma MoveCounts(m: Machine, e: Event)
    requires Reverting(m) && LeftAlone(e)
    ensures MovesLeft(Step(m, e)) == if WillRevert(m) && IsMove(m, e) then MovesLeft(m) - 1 else MovesLeft(m)
    ensures !WillRevert(m) ==> !WillRevert(Step(m, e))
  {
  }

  /**
   Left alone, an armed update ends at the pre-update binary: through restarts of the service and
   however the guard is scheduled, the guard is either still going to restore it or has done so, and
   it has done so once the timer and the guard have made four moves.
   */
  lemma {:induction false} UnconfirmedUpdateReverts(m: Machine, es: seq<Event>)
    requires m.service in {Idle, Restarting} && WillRevert(m)
    requires forall i :: 0 <= i < |es| ==> LeftAlone(es[i])
    ensures Reverting(Run(m, es)) && Run(m, es).base == m.base
    ensures Run(m, es).guard == Asleep && WillRevert(Run(m, es)) ==> GuardRun(Run(m, es)).binary == m.base
    ensures WillRevert(Run(m, es)) ==> MovesLeft(Run(m, es)) == MovesLeft(m) - Moves(m, es)
    ensures Moves(m, es) >= 4 ==> Run(m, es).binary == m.base && HasReverted(Run(m, es))
  {
    if es != [] {
      UnconfirmedUpdateReverts(m, es[..|es| - 1]);
      RevertingStep(Run(m, es[..|es| - 1]), es[|es| - 1]);
      MoveCounts(Run(m, es[..|es| - 1]), es[|es| - 1]);
    }
  }

  // ------------------------------------------------------- confirmed for good

  predicate Applying(m: Machine) {
    m.service.BackUp? || BeforeArming(m)
  }

  /** Nothing that is left on disk or running can change the installed binary. */
  predicate Final(m: Machine) {
    && !Applying(m)
    && !m.guard.Rename?
    && (m.bak.None? || NothingUses(m))
  }

  /** A backup is there, but no rollback, no restart and no guard will read it. */
  predicate NothingUses(m: Machine) {
    && !m.pending && m.state != Valid
    && m.guard != Copy
    && (m.state != Absent ==> !m.timer && m.guard != Stat)
    && !m.service.StopToRollback? && !m.service.CopyBack?
  }

  lemma FinalStep(m: Machine, e: Event)
    requires Final(m) && !e.BeginApply?
    ensures Final(Step(m, e)) && Step(m, e).binary == m.binary
  {
  }

  lemma {:induction false} FinalStays(m: Machine, es: seq<Event>)
    requires Final(m) && NoNewUpdate(es)
    ensures Final(Run(m, es)) && Run(m, es).binary == m.binary
  {
    if es != [] {
      FinalStays(m, es[..|es| - 1]);
      FinalStep(Run(m, es[..|es| - 1]), es[|es| - 1]);
    }
  }

  /** `es`, which holds no new update, brings the pre-update binary back. */
  predicate BringsBack(m: Machine, es: seq<Event>) {
    NoNewUpdate(es) && Run(m, es).binary == m.base
  }

  lemma {:induction false} RunThrough(m: Machine, es: seq<Event>, fs: seq<Event>)
    ensures Run(m, es + fs) == Run(Run(m, es), fs)
  {
    if fs == [] {
      assert es + fs == es;
    } else {
      RunThrough(m, es, fs[..|fs| - 1]);
      assert (es + fs)[..|es + fs| - 1] == es + fs[..|fs| - 1];
    }
  }

  lemma RunOne(m: Machine, e: Event)
    ensures Run(m, [e]) == Step(m, e)
  {
    assert [e][..0] == [];
  }

  /** A continuation that starts with `e`. */
  lemma Prepend(m: Machine, e: Event, es: seq<Event>)
    requires !e.BeginApply? && BringsBack(Step(m, e), es) && Step(m, e).base == m.base
    ensures BringsBack(m, [e] + es)
  {
    RunThrough(m, [e], es);
    RunOne(m, e);
  }

  lemma GuardBringsBack(m: Machine) returns (es: seq<Event>)
    requires Inv(m) && (m.guard.Rename? || (m.bak.Some? && (m.guard == Copy || (m.guard == Stat && m.state != Absent))))
    ensures BringsBack(m, es)
    decreases if m.guard.Rename? then 0 else if m.guard == Copy then 1 else 2
  {
    StepKeeps(m, GuardStep(true));
    if m.guard.Rename? {
      RunOne(m, GuardStep(true));
      es := [GuardStep(true)];
    } else {
      es := GuardBringsBack(Step(m, GuardStep(true)));
      Prepend(m, GuardStep(true), es);
      es := [GuardStep(true)] + es;
    }
  }

  lemma RollbackBringsBack(m: Machine) returns (es: seq<Event>)
    requires Inv(m) && m.service == Idle && m.pending && m.bak.Some?
    ensures BringsBack(m, es)
  {
    var go := ServiceStep(true, false);
    var m1 := Step(m, BeginRollback);
    var m2 := Step(m1, go);
    RunOne(m2, go);
    Prepend(m1, go, [go]);
    Prepend(m, BeginRollback, [go] + [go]);
    es := [BeginRollback] + ([go] + [go]);
  }

  /** When the state is not final, some continuation without a new update reverts the binary. */
  lemma NotFinalCanRevert(m: Machine) returns (es: seq<Event>)
    requires Inv(m) && m.service == Idle && !Final(m)
    ensures BringsBack(m, es)
  {
    if m.guard.Rename? || m.guard == Copy || (m.guard == Stat && m.state != Absent) {
      es := GuardBringsBack(m);
    } else if m.pending {
      es := RollbackBringsBack(m);
    } else if m.state == Valid {
      StepKeeps(m, ServiceRestart);
      es := RollbackBringsBack(Step(m, ServiceRestart));
      Prepend(m, ServiceRestart, es);
      es := [ServiceRestart] + es;
    } else {
      es := TimerBringsBack(m);
    }
  }

  lemma TimerBringsBack(m: Machine) returns (es: seq<Event>)
    requires Inv(m) && m.service == Idle && m.timer && m.bak.Some? && m.state != Absent
    ensures BringsBack(m, es)
  {
    StepKeeps(m, TimerFires);
    es := GuardBringsBack(Step(m, TimerFires));
    Prepend(m, TimerFires, es);
    es := [TimerFires] + es;
  }

  /**
   In every reachable state with the service at rest: the installed binary stays, whatever happens
   short of a new update, exactly when the state is final.
   */
  lemma BinaryIsSettledExactlyWhenFinal(b: Image, es: seq<Event>)
    requires Run(Installed(b), es).service == Idle && Run(Installed(b), es).binary != Run(Installed(b), es).base
    ensures
      var m := Run(Installed(b), es);
      Final(m) <==> forall fs :: NoNewUpdate(fs) ==> Run(m, fs).binary == m.binary
  {
    var m := Run(Installed(b), es);
    RunKeeps(Installed(b), es);
    if Final(m) {
      forall fs | NoNewUpdate(fs) ensures Run(m, fs).binary == m.binary {
        FinalStays(m, fs);
      }
    } else {
      var fs := NotFinalCanRevert(m);
      assert NoNewUpdate(fs) && Run(m, fs).binary != m.binary;
    }
  }

  // ------------------------------------------------------- a confirm among the guard's steps

  /** What the guard process and its timer can do between two commands of the service. */
  predicate GuardOnly(es: seq<Event>) {
    forall i :: 0 <= i < |es| ==> es[i].TimerFires? || es[i].GuardStep?
  }

  /** A confirm or a rollback of a recorded update stands before one of its commands. */
  predicate Calling(m: Machine, service: Service) {
    m.service == service && m.pending && m.state == Valid && (m.timer ==> m.guard == Asleep)
  }

  /** A guard that ran to its end has restarted the service and cut the call short. */
  predicate CutShort(m: Machine) {
    && m.service == Idle && m.guard == Asleep && !m.timer
    && m.state != Garbage && (m.pending <==> m.state == Valid)
  }

  /** The guard is past its rename. */
  predicate CleansUp(guard: Guard) {
    guard.RemoveBackup? || guard.RemoveState?
  }

  /** The guard has put the pre-update binary over the installed one. */
  predicate Renamed(m: Machine) {
    CleansUp(m.guard) || CutShort(m)
  }

  lemma GuardEvent(m: Machine, e: Event, service: Service)
    requires e.TimerFires? || e.GuardStep?
    requires service in {StopToConfirm, DropBackup, ClearConfirmed, StopToRollback, CopyBack}
    requires Calling(m, service) || CutShort(m)
    ensures Calling(Step(m, e), service) || CutShort(Step(m, e))
    ensures CutShort(m) ==> Step(m, e) == m
    ensures Renamed(m) ==> Renamed(Step(m, e)) && Step(m, e).binary == m.binary
    ensures !Renamed(m) ==>
              if Renamed(Step(m, e)) then m.guard.Rename? && Step(m, e).binary == m.guard.image
              else Step(m, e).binary == m.binary && Step(m, e).bak == m.bak
    ensures m.guard == Asleep && !m.timer ==> Step(m, e) == m
  {
  }

  /** Between two commands the call goes on or is cut short, and the binary changes only by the guard's rename. */
  lemma {:induction false} GuardSlot(m: Machine, es: seq<Event>, service: Service)
    requires GuardOnly(es) && Inv(m) && (Calling(m, service) || CutShort(m))
    requires service in {StopToConfirm, DropBackup, ClearConfirmed, StopToRollback, CopyBack}
    ensures var n := Run(m, es);
            && Inv(n) && n.base == m.base
            && (Calling(n, service) || CutShort(n))
            && (CutShort(m) ==> n == m)
            && (Renamed(m) ==> Renamed(n) && n.binary == m.binary)
            && (!Renamed(m) ==> if Renamed(n) then n.binary == m.base else n.binary == m.binary && n.bak == m.bak)
            && (m.guard == Asleep && !m.timer ==> n == m)
  {
    if es != [] {
      var front, last := es[..|es| - 1], es[|es| - 1];
      GuardSlot(m, front, service);
      StepKeeps(Run(m, front), last);
      GuardEvent(Run(m, front), last, service);
    }
  }

  /** A confirm: its three commands, and what the guard did before each. */
  datatype Confirmation = Confirmation(
    x: seq<Event>, stop: Io, y: seq<Event>, drop: Io, z: seq<Event>, clear: Io)

  predicate Interleaves(k: Confirmation) {
    GuardOnly(k.x) && GuardOnly(k.y) && GuardOnly(k.z)
  }

  function Events(k: Confirmation): seq<Event> {
    [BeginConfirm] + k.x + [Outcome(k.stop)] + k.y + [Outcome(k.drop)] + k.z + [Outcome(k.clear)]
  }

  function AtStop(m: Machine, k: Confirmation): Machine {
    Run(Step(m, BeginConfirm), k.x)
  }

  function AtDrop(m: Machine, k: Confirmation): Machine {
    Run(Step(AtStop(m, k), Outcome(k.stop)), k.y)
  }

  function AtClear(m: Machine, k: Confirmation): Machine {
    Run(Step(AtDrop(m, k), Outcome(k.drop)), k.z)
  }

  function Confirmed(m: Machine, k: Confirmation): Machine {
    Step(AtClear(m, k), Outcome(k.clear))
  }

  lemma ConfirmedIsARun(m: Machine, k: Confirmation)
    ensures Confirmed(m, k) == Run(m, Events(k))
  {
    var a := [BeginConfirm] + k.x;
    var b := a + [Outcome(k.stop)] + k.y;
    var c := b + [Outcome(k.drop)] + k.z;
    RunOne(m, BeginConfirm);
    RunThrough(m, [BeginConfirm], k.x);
    RunMore(m, a, AtStop(m, k), Outcome(k.stop));
    RunThrough(m, a + [Outcome(k.stop)], k.y);
    RunMore(m, b, AtDrop(m, k), Outcome(k.drop));
    RunThrough(m, b + [Outcome(k.drop)], k.z);
    RunMore(m, c, AtClear(m, k), Outcome(k.clear));
  }

  /** How many commands of the service are in a run. */
  function Services(es: seq<Event>): nat {
    if es == [] then 0 else (if es[0].ServiceStep? then 1 else 0) + Services(es[1..])
  }

  predicate InCall(es: seq<Event>) {
    forall i :: 0 <= i < |es| ==> es[i].ServiceStep? || es[i].TimerFires? || es[i].GuardStep?
  }

  /** The guard's events before the first command of the service, that command, and the rest. */
  lemma {:induction false} FirstCommand(es: seq<Event>) returns (x: seq<Event>, io: Io, rest: seq<Event>)
    requires InCall(es) && Services(es) >= 1
    ensures es == x + [Outcome(io)] + rest && GuardOnly(x) && InCall(rest) && Services(rest) == Services(es) - 1
  {
    if es[0].ServiceStep? {
      x, io, rest := [], Io(es[0].ok, es[0].torn), es[1..];
      assert es == [es[0]] + es[1..];
    } else {
      x, io, rest := FirstCommand(es[1..]);
      assert es == [es[0]] + es[1..];
      x := [es[0]] + x;
    }
  }

  /** Every run of a confirm's three commands among the guard's events, up to the last command, is one of these. */
  lemma EveryInterleavingIsOne(es: seq<Event>) returns (k: Confirmation)
    requires InCall(es) && Services(es) == 3 && es[|es| - 1].ServiceStep?
    ensures Interleaves(k) && Events(k) == [BeginConfirm] + es
  {
    var x, stop, r1 := FirstCommand(es);
    var y, drop, r2 := FirstCommand(r1);
    var z, clear, r3 := FirstCommand(r2);
    LastCommand(r3, es);
    k := Confirmation(x, stop, y, drop, z, clear);
    assert es == x + [Outcome(stop)] + y + [Outcome(drop)] + z + [Outcome(clear)];
  }

  lemma LastCommand(rest: seq<Event>, es: seq<Event>)
    requires Services(rest) == 0 && es != [] && es[|es| - 1].ServiceStep?
    requires |rest| <= |es| && es[|es| - |rest|..] == rest
    ensures rest == []
  {
    if rest != [] {
      assert rest[|rest| - 1] == es[|es| - 1];
      NoCommand(rest, |rest| - 1);
    }
  }

  lemma {:induction false} NoCommand(es: seq<Event>, i: nat)
    requires Services(es) == 0 && i < |es|
    ensures !es[i].ServiceStep?
  {
    if i > 0 {
      NoCommand(es[1..], i - 1);
    }
  }

  /** A confirm up to its last command. */
  lemma ConfirmReachesClear(m: Machine, k: Confirmation)
    requires Inv(m) && m.service == Idle && m.pending && m.state == Valid && Interleaves(k)
    ensures var a, c := AtStop(m, k), AtClear(m, k);
            && Inv(c) && c.base == m.base && (Calling(c, ClearConfirmed) || CutShort(c))
            && (Renamed(a) ==> Renamed(c))
            && (!Renamed(c) ==>
                  c.binary == m.binary && (c.bak.None? <==> m.bak.None? || k.drop.ok) && Calling(c, ClearConfirmed))
            && (!Renamed(a) && Renamed(c) ==> c.binary == m.base)
            && (!CleansUp(m.guard) && Renamed(a) ==> c.binary == m.base)
            && (a.guard == Asleep && Calling(a, StopToConfirm) && k.stop.ok ==>
                  c.guard == Asleep && !c.timer && !Renamed(c))
  {
    var b := Step(m, BeginConfirm);
    StepKeeps(m, BeginConfirm);
    GuardSlot(b, k.x, StopToConfirm);
    var a := AtStop(m, k);
    StepKeeps(a, Outcome(k.stop));
    GuardSlot(Step(a, Outcome(k.stop)), k.y, DropBackup);
    var d := AtDrop(m, k);
    StepKeeps(d, Outcome(k.drop));
    GuardSlot(Step(d, Outcome(k.drop)), k.z, ClearConfirmed);
  }

  /**
   A confirm, however its commands turn out and however the guard's steps fall among them, is final
   exactly when by its last command no guard holds a copy it is about to install, and the backup is
   gone, or the record goes and no guard is about to copy.
   */
  lemma ConfirmIsFinalExactlyWhen(m: Machine, k: Confirmation)
    requires Inv(m) && m.service == Idle && m.pending && m.state == Valid && Interleaves(k)
    ensures var c, end := AtClear(m, k), Confirmed(m, k);
            && end == Run(m, Events(k)) && end.service == Idle
            && (Final(end) <==>
                  && !c.guard.Rename?
                  && (c.bak.None?
                      || (c.guard != Copy && (c.state == Absent || (k.clear.ok && c.service == ClearConfirmed)))))
  {
    ConfirmReachesClear(m, k);
    ConfirmedIsARun(m, k);
  }

  /**
   So an update that the guard has not reverted when the confirm begins is settled for good exactly when the
   guard has by the last command neither installed its copy nor is about to, and the backup was
   dropped, or the record was cleared with no guard about to copy.
   */
  lemma ConfirmSettlesExactlyWhen(m: Machine, k: Confirmation)
    requires Inv(m) && m.service == Idle && m.pending && m.state == Valid && Interleaves(k)
    requires !CleansUp(m.guard) && m.binary != m.base
    ensures var c, end := AtClear(m, k), Confirmed(m, k);
            end.binary == m.binary && Final(end) <==>
            && !Renamed(c) && !c.guard.Rename?
            && (k.drop.ok || m.bak.None? || (k.clear.ok && c.guard != Copy))
  {
    ConfirmReachesClear(m, k);
    ConfirmIsFinalExactlyWhen(m, k);
  }

  /**
   What a caller can rely on: with the guard asleep when the timer is stopped, nothing the guard's
   events can do matters any more, and the update is settled exactly when the backup or the record went.
   */
  lemma ConfirmIsSafeOnceStopped(m: Machine, k: Confirmation)
    requires Inv(m) && m.service == Idle && m.pending && m.state == Valid && Interleaves(k)
    requires Calling(AtStop(m, k), StopToConfirm) && AtStop(m, k).guard == Asleep && k.stop.ok
    ensures var end := Confirmed(m, k);
            && end.binary == m.binary && end.guard == Asleep && !end.timer && !end.pending
            && (Final(end) <==> k.drop.ok || k.clear.ok || m.bak.None?)
  {
    ConfirmReachesClear(m, k);
    ConfirmIsFinalExactlyWhen(m, k);
  }

  // ------------------------------------------------------- the race, from a fresh machine

  const GO := ServiceStep(true, false)

  function Applied(n: Image): seq<Event> {
    [BeginApply(n)] + [GO] + [GO] + [GO] + [GO] + [GO] + [GO]
  }

  /** An update applied with every command succeeding: installed, backed up, recorded, armed and restarted. */
  function Waiting(b: Image, n: Image): Machine {
    Machine(n, Some(b), Valid, true, true, Idle, Asleep, b)
  }

  lemma AppliedWaits(b: Image, n: Image)
    ensures Run(Installed(b), Applied(n)) == Waiting(b, n)
  {
    var m := Installed(b);
    var a := [BeginApply(n)];
    var k := m.(bak := Some(b), binary := n);
    var w := Waiting(b, n);
    RunOne(m, BeginApply(n));
    RunMore(m, a, m.(service := BackUp(n)), GO);
    RunMore(m, a + [GO], m.(bak := Some(b), service := Install(n)), GO);
    RunMore(m, a + [GO] + [GO], k.(service := Check), GO);
    RunMore(m, a + [GO] + [GO] + [GO], k.(service := Save), GO);
    RunMore(m, a + [GO] + [GO] + [GO] + [GO], w.(timer := false, service := Arm), GO);
    RunMore(m, a + [GO] + [GO] + [GO] + [GO] + [GO], w.(service := Restarting), GO);
  }

  /** The timer fires, and the guard finds the record and copies the backup. */
  function Copied(): seq<Event> {
    [TimerFires] + [GuardStep(true)] + [GuardStep(true)]
  }

  lemma CopiedHolds(m: Machine)
    requires m.timer && m.guard == Asleep && m.state != Absent && m.bak.Some?
    ensures Run(m, Copied()) == m.(timer := false, guard := Rename(m.bak.value))
  {
    RunOne(m, TimerFires);
    RunMore(m, [TimerFires], m.(timer := false, guard := Stat), GuardStep(true));
    RunMore(m, [TimerFires] + [GuardStep(true)], m.(timer := false, guard := Copy), GuardStep(true));
  }

  /** A confirm whose commands all succeed, with the guard copying before its first command. */
  function RacedConfirm(): Confirmation {
    Confirmation(Copied(), Io(true, false), [], Io(true, false), [], Io(true, false))
  }

  /**
   From a fresh machine: an update is applied and confirmed with every command succeeding, the guard
   copies the backup just before the confirm's first command, and its next step installs the
   pre-update binary over the confirmed one, with backup, record and pending all gone.
   */
  lemma RacingGuardRevertsAConfirmedUpdate(b: Image, n: Image)
    ensures var m := Run(Installed(b), Applied(n) + Events(RacedConfirm()));
            && m.binary == n && m.bak.None? && m.state == Absent && !m.pending && m.service == Idle
            && Step(m, GuardStep(true)).binary == b
            && (n != b ==> !Final(m))
  {
    var w, k := Waiting(b, n), RacedConfirm();
    AppliedWaits(b, n);
    RunThrough(Installed(b), Applied(n), Events(k));
    ConfirmedIsARun(w, k);
    CopiedHolds(Step(w, BeginConfirm));
    var c := w.(timer := false, guard := Rename(b));
    assert AtStop(w, k) == c.(service := StopToConfirm);
    assert AtDrop(w, k) == c.(service := DropBackup);
    assert AtClear(w, k) == c.(bak := None, service := ClearConfirmed);
  }

  // ------------------------------------------------------- a rollback among the guard's steps

  /** Where a rollback stands before it copies, with the guard's events in between. */
  function AtCopy(m: Machine, x: seq<Event>, stop: Io, y: seq<Event>): Machine {
    Run(Step(Run(Step(m, BeginRollback), x), Outcome(stop)), y)
  }

  /** Nothing will ever change the binary unless somebody asks for it. */
  predicate Stranded(m: Machine) {
    && m.service == Idle && !m.guard.Rename?
    && (m.bak.None? || (!m.timer && m.guard != Stat && m.guard != Copy))
  }

  lemma {:induction false} StrandedStays(m: Machine, es: seq<Event>)
    requires Stranded(m) && forall i :: 0 <= i < |es| ==> LeftAlone(es[i])
    ensures Stranded(Run(m, es)) && Run(m, es).binary == m.binary
  {
    if es != [] {
      StrandedStays(m, es[..|es| - 1]);
    }
  }

  lemma RollbackReachesCopy(m: Machine, x: seq<Event>, stop: Io, y: seq<Event>)
    requires Inv(m) && m.service == Idle && m.pending && m.state == Valid && GuardOnly(x) && GuardOnly(y)
    ensures var p := AtCopy(m, x, stop, y);
            && Inv(p) && p.base == m.base && (Calling(p, CopyBack) || CutShort(p))
            && (!Renamed(p) ==> p.binary == m.binary && p.bak == m.bak)
  {
    StepKeeps(m, BeginRollback);
    GuardSlot(Step(m, BeginRollback), x, StopToRollback);
    var a := Run(Step(m, BeginRollback), x);
    StepKeeps(a, Outcome(stop));
    GuardSlot(Step(a, Outcome(stop)), y, CopyBack);
  }

  /**
   A rollback disarms the guard before it copies. Whatever the guard did in the meantime, the copy leaves
   a machine on which the pre-update binary is installed or still going to be exactly when it succeeds,
   or the guard is still armed or under way, or the guard had installed it and the copy did not tear it.
   Otherwise the update is stranded: left alone, no run changes the binary again.
   */
  lemma RollbackIsSafeExactlyWhen(m: Machine, x: seq<Event>, stop: Io, y: seq<Event>, copy: Io)
    requires Inv(m) && m.service == Idle && m.pending && m.state == Valid && m.base != Torn
    requires GuardOnly(x) && GuardOnly(y)
    ensures var p := AtCopy(m, x, stop, y);
            var r := Step(p, Outcome(copy));
            var safe := r.binary == m.base || WillRevert(r);
            && (safe <==>
                  || WillRevert(p)
                  || (p.service == CopyBack && p.bak.Some? && copy.ok)
                  || (p.binary == m.base && (p.service == Idle || p.bak.None? || !copy.torn)))
            && (!safe ==> Stranded(r) && r.binary != m.base)
            && (!safe ==> forall es :: (forall i :: 0 <= i < |es| ==> LeftAlone(es[i])) ==> Run(r, es).binary == r.binary)
  {
    RollbackReachesCopy(m, x, stop, y);
    var r := Step(AtCopy(m, x, stop, y), Outcome(copy));
    if !(r.binary == m.base || WillRevert(r)) {
      forall es | forall i :: 0 <= i < |es| ==> LeftAlone(es[i]) ensures Run(r, es).binary == r.binary {
        StrandedStays(r, es);
      }
    }
  }

  /**
   With the guard armed and asleep throughout, a rollback brings the pre-update binary back, or leaves the
   guard to do it, exactly when its copy succeeds or its stop fails; otherwise the update is stranded.
   */
  lemma RollbackRevertsExactlyWhen(m: Machine, stop: Io, copy: Io, drop: Io, clear: Io)
    requires Inv(m) && m.service == Idle && m.guard == Asleep && m.pending && WillRevert(m)
    requires m.binary != m.base && m.base != Torn
    ensures var r := RollingBack(m, stop, copy, drop, clear);
            var safe := r.binary == m.base || WillRevert(r);
            && (safe <==> copy.ok || !stop.ok)
            && (!safe ==> forall es :: (forall i :: 0 <= i < |es| ==> LeftAlone(es[i])) ==> Run(r, es).binary == r.binary)
  {
    var r := RollingBack(m, stop, copy, drop, clear);
    if !(r.binary == m.base || WillRevert(r)) {
      forall es | forall i :: 0 <= i < |es| ==> LeftAlone(es[i]) ensures Run(r, es).binary == r.binary {
        StrandedStays(r, es);
      }
    }
  }

  /** From a fresh machine: the rollback of an applied update whose copy fails strands it. */
  lemma FailedRollbackStrandsTheUpdate(b: Image, n: Image, es: seq<Event>)
    requires forall i :: 0 <= i < |es| ==> LeftAlone(es[i])
    ensures var failed := Applied(n) + ([BeginRollback] + [GO] + [ServiceStep(false, false)]);
            Run(Installed(b), failed + es).binary == n
  {
    var w, tail := Waiting(b, n), [BeginRollback] + [GO] + [ServiceStep(false, false)];
    AppliedWaits(b, n);
    CopyFails(w);
    RunThrough(Installed(b), Applied(n), tail);
    RunThrough(Installed(b), Applied(n) + tail, es);
    StrandedStays(w.(timer := false), es);
  }

  lemma CopyFails(w: Machine)
    requires w.service == Idle && w.pending
    ensures Run(w, [BeginRollback] + [GO] + [ServiceStep(false, false)]) == w.(timer := false)
  {
    RunOne(w, BeginRollback);
    RunMore(w, [BeginRollback], w.(service := StopToRollback), GO);
    RunMore(w, [BeginRollback] + [GO], w.(timer := false, service := CopyBack), ServiceStep(false, false));
  }

  // ------------------------------------------------------- rolled back once

  /** A rollback whose commands succeed installs the pre-update binary and leaves nothing to repeat. */
  lemma RollbackRestores(m: Machine)
    requires Inv(m) && m.service == Idle && m.pending && m.bak.Some?
    ensures
      var go := ServiceStep(true, false);
      var m' := Step(Step(Step(Step(Step(m, BeginRollback), go), go), go), go);
      && m'.binary == m.base && m'.bak.None? && m'.state == Absent && !m'.pending && m'.service == Idle && !m'.timer
  {
  }

  /** With no record and nothing pending, a rollback request is refused, now and after any restarts, until a new update. */
  lemma {:induction false} ReplayedRollbackIsRefused(m: Machine, es: seq<Event>)
    requires m.service == Idle && m.state == Absent && !m.pending && NoNewUpdate(es)
    ensures
      var m' := Run(m, es);
      && m'.state == Absent && !m'.pending && !Applying(m')
      && Step(m', BeginRollback) == m'
  {
    if es != [] {
      ReplayedRollbackIsRefused(m, es[..|es| - 1]);
    }
  }

  // ------------------------------------------------------- the code

  /** The outcome of one command. */
  datatype Io = Io(ok: bool, torn: bool)

  function Outcome(io: Io): Event {
    ServiceStep(io.ok, io.torn)
  }

  function CopiedBack(m: Machine, io: Io): Image {
    Over(m.binary, m.bak, io.ok, io.torn)
  }

  /** What installBinary leaves, begun at the backup. */
  function Installing(m: Machine, new_: Image, backup: Io, install: Io, check: Io, restore: Io): Machine {
    if !backup.ok then m.(bak := if backup.torn then Some(Torn) else m.bak, service := Idle)
    else
      var k := m.(bak := Some(m.binary), binary := Over(m.binary, Some(new_), install.ok, install.torn));
      if install.ok && check.ok then k.(service := Save)
      else k.(binary := CopiedBack(k, restore), service := Idle)
  }

  /** What the second half of ApplyUpdate leaves: the record and the guard, or the way back. */
  function Recording(m: Machine, save: Io, arm: Io, restore: Io, clear: Io): Machine {
    if !save.ok then
      m.(state := if save.torn then Garbage else m.state, binary := CopiedBack(m, restore), service := Idle)
    else if arm.ok then m.(state := Valid, pending := true, timer := true, service := Restarting)
    else
      m.(binary := CopiedBack(m, restore), state := if clear.ok then Absent else Valid, pending := false, service := Idle)
  }

  function Confirming(m: Machine, stop: Io, drop: Io, clear: Io): Machine {
    m.(timer := m.timer && !stop.ok,
       bak := if drop.ok && m.pending then None else m.bak,
       state := if clear.ok then Absent else m.state,
       pending := false)
  }

  function RollingBack(m: Machine, stop: Io, copy: Io, drop: Io, clear: Io): Machine {
    if !m.pending then m
    else
      var c := CopyingBack(m, stop, copy);
      if c.service == Idle then c
      else Restarted(c.(bak := if drop.ok then None else c.bak, state := if clear.ok then Absent else c.state))
  }

  lemma RunMore(m: Machine, es: seq<Event>, n: Machine, e: Event)
    requires Run(m, es) == n
    ensures Run(m, es + [e]) == Step(n, e)
  {
    assert (es + [e])[..|es|] == es;
  }

  lemma ConfirmingIsARun(m: Machine, stop: Io, drop: Io, clear: Io) returns (es: seq<Event>)
    requires m.service == Idle
    ensures Run(m, es) == Confirming(m, stop, drop, clear)
  {
    var a := m.(service := StopToConfirm);
    var b := m.(timer := m.timer && !stop.ok, service := DropBackup);
    var c := b.(bak := if drop.ok && m.pending then None else m.bak, service := ClearConfirmed);
    RunOne(m, BeginConfirm);
    RunMore(m, [BeginConfirm], a, Outcome(stop));
    RunMore(m, [BeginConfirm] + [Outcome(stop)], b, Outcome(drop));
    RunMore(m, [BeginConfirm] + [Outcome(stop)] + [Outcome(drop)], c, Outcome(clear));
    es := [BeginConfirm] + [Outcome(stop)] + [Outcome(drop)] + [Outcome(clear)];
  }

  /** A rollback up to its copy. */
  function CopyingBack(m: Machine, stop: Io, copy: Io): Machine {
    m.(timer := m.timer && !stop.ok, binary := CopiedBack(m, copy),
       service := if copy.ok && m.bak.Some? then DropUsedBackup else Idle)
  }

  lemma CopyingBackIsARun(m: Machine, stop: Io, copy: Io) returns (es: seq<Event>)
    requires m.service == Idle && m.pending
    ensures Run(m, es) == CopyingBack(m, stop, copy)
  {
    var b := m.(timer := m.timer && !stop.ok, service := CopyBack);
    RunOne(m, BeginRollback);
    RunMore(m, [BeginRollback], m.(service := StopToRollback), Outcome(stop));
    RunMore(m, [BeginRollback] + [Outcome(stop)], b, Outcome(copy));
    es := [BeginRollback] + [Outcome(stop)] + [Outcome(copy)];
  }

  lemma ClearingIsARun(c: Machine, drop: Io, clear: Io) returns (es: seq<Event>)
    requires c.service == DropUsedBackup
    ensures Run(c, es) == Restarted(c.(bak := if drop.ok then None else c.bak, state := if clear.ok then Absent else c.state))
  {
    RunOne(c, Outcome(drop));
    RunMore(c, [Outcome(drop)], c.(bak := if drop.ok then None else c.bak, service := ClearRolledBack), Outcome(clear));
    es := [Outcome(drop)] + [Outcome(clear)];
  }

  lemma RollingBackIsARun(m: Machine, stop: Io, copy: Io, drop: Io, clear: Io) returns (es: seq<Event>)
    requires m.service == Idle
    ensures Run(m, es) == RollingBack(m, stop, copy, drop, clear)
  {
    if !m.pending {
      es := [];
    } else {
      var c := CopyingBack(m, stop, copy);
      es := CopyingBackIsARun(m, stop, copy);
      if c.service != Idle {
        var more := ClearingIsARun(c, drop, clear);
        RunThrough(m, es, more);
        es := es + more;
      }
    }
  }

  lemma InstallingIsARun(m: Machine, new_: Image, backup: Io, install: Io, check: Io, restore: Io) returns (es: seq<Event>)
    requires m.service == BackUp(new_)
    ensures Run(m, es) == Installing(m, new_, backup, install, check, restore)
  {
    es := [Outcome(backup)];
    RunOne(m, Outcome(backup));
    if backup.ok {
      var a := m.(bak := Some(m.binary), service := Install(new_));
      var b := a.(binary := Over(m.binary, Some(new_), install.ok, install.torn),
                  service := if install.ok then Check else Undo);
      RunMore(m, es, a, Outcome(install));
      es := es + [Outcome(install)];
      if install.ok {
        RunMore(m, es, b, Outcome(check));
        es := es + [Outcome(check)];
      }
      if !install.ok || !check.ok {
        RunMore(m, es, b.(service := Undo), Outcome(restore));
        es := es + [Outcome(restore)];
      }
    }
  }

  lemma RecordingIsARun(m: Machine, save: Io, arm: Io, restore: Io, clear: Io) returns (es: seq<Event>)
    requires m.service == Save
    ensures Run(m, es) == Recording(m, save, arm, restore, clear)
  {
    es := [Outcome(save)];
    RunOne(m, Outcome(save));
    if !save.ok {
      RunMore(m, es, m.(state := if save.torn then Garbage else m.state, service := Undo), Outcome(restore));
      es := es + [Outcome(restore)];
    } else {
      var a := m.(state := Valid, pending := true, service := Arm);
      RunMore(m, es, a, Outcome(arm));
      es := es + [Outcome(arm)];
      if !arm.ok {
        RunMore(m, es, a.(service := UndoArmed), Outcome(restore));
        RunMore(m, es + [Outcome(restore)], a.(binary := CopiedBack(m, restore), service := ClearArmed), Outcome(clear));
        es := es + [Outcome(restore)] + [Outcome(clear)];
      }
    }
  }

  /** What both processes share. */
  class Disk {
    var binary: Image
    var bak: Option<Image>
    var state: StateFile
    var timer: bool

    constructor (binary: Image)
      ensures this.binary == binary && bak.None? && state == Absent && !timer
    {
      this.binary, bak, state, timer := binary, None, Absent, false;
    }

    ghost function View(pending: bool, service: Service, guard: Guard, base: Image): Machine
      reads this
    {
      Machine(binary, bak, state, timer, pending, service, guard, base)
    }

    /** cp -f over the installed binary. */
    method Install(from: Option<Image>, io: Io) returns (ok: bool)
      modifies this`binary
      ensures ok == (io.ok && from.Some?)
      ensures binary == Over(old(binary), from, io.ok, io.torn)
    {
      if from.None? {
        return false;
      }
      if io.ok {
        binary := from.value;
      } else if io.torn {
        binary := Torn;
      }
      ok := io.ok;
    }

    /** rollbackUnconfirmedUpdate; the restart it ends with belongs to the caller. */
    method RollbackUnconfirmedUpdate(stat: bool, copies: bool, renames: bool, drops: bool, clears: bool)
      returns (restored: bool)
      modifies this`binary, this`bak, this`state
      ensures restored == (stat && old(state) != Absent && copies && old(bak).Some? && renames)
      ensures binary == if restored then old(bak).value else old(binary)
      ensures bak == if restored && drops then None else old(bak)
      ensures state == if restored && clears then Absent else old(state)
      ensures stat && copies && renames && drops && clears ==>
                forall p, b ::
                  var g := GuardRun(old(View(p, Idle, Asleep, b)));
                  g.binary == binary && g.bak == bak && g.state == state
    {
      if !stat || state == Absent {
        return false;
      }
      restored := ReplaceFile(copies, renames);
      if !restored {
        return false;
      }
      if drops {
        bak := None;
      }
      if clears {
        state := Absent;
      }
    }

    /** replaceFile: the copy goes to a temporary file, so the binary is replaced whole or not at all. */
    method ReplaceFile(copies: bool, renames: bool) returns (ok: bool)
      modifies this`binary
      ensures ok == (bak.Some? && copies && renames)
      ensures binary == if ok then bak.value else old(binary)
    {
      if bak.None? {
        return false;
      }
      var tmp := bak.value;
      if !copies || !renames {
        return false;
      }
      binary := tmp;
      ok := true;
    }
  }

  class UpdateService {
    const disk: Disk
    var pending: bool

    /** A web process starting on `disk`: restorePendingUpdate. */
    constructor (disk: Disk)
      ensures this.disk == disk && pending == (disk.state == Valid)
    {
      this.disk := disk;
      pending := disk.state == Valid;
    }

    /** This process and the disk are in the state of the machine. */
    ghost predicate At(m: Machine)
      reads this, disk
    {
      && disk.binary == m.binary && disk.bak == m.bak && disk.state == m.state
      && disk.timer == m.timer && pending == m.pending
    }

    /** Every failure after the backup copies the backup back; failing that too, the backup is still there. */
    method InstallBinary(new_: Image, backup: Io, install: Io, check: Io, restore: Io, ghost m: Machine)
      returns (ok: bool)
      requires At(m)
      modifies disk`binary, disk`bak
      ensures ok == (backup.ok && install.ok && check.ok)
      ensures ok ==> disk.binary == new_
      ensures backup.ok ==> disk.bak == Some(old(disk.binary))
      ensures !ok && (!backup.ok || restore.ok) ==> disk.binary == old(disk.binary)
      ensures At(Installing(m, new_, backup, install, check, restore))
      ensures ok <==> Installing(m, new_, backup, install, check, restore).service == Save
    {
      if !backup.ok {
        if backup.torn {
          disk.bak := Some(Torn);
        }
        return false;
      }
      disk.bak := Some(disk.binary);
      ok := disk.Install(Some(new_), install);
      if !ok || !check.ok {
        var _ := disk.Install(disk.bak, restore);
        return false;
      }
    }

    /**
     On success the update is installed, backed up, recorded and armed; on failure, with the restore
     succeeding, nothing is installed and no guard is armed.
     */
    method ApplyUpdate(new_: Image, backup: Io, install: Io, check: Io, save: Io, arm: Io, restore: Io, clear: Io,
                       ghost m: Machine)
      returns (ok: bool)
      requires At(m) && NoUpdate(m)
      modifies this`pending, disk
      ensures ok == (backup.ok && install.ok && check.ok && save.ok && arm.ok)
      ensures ok ==> disk.binary == new_ && disk.bak == Some(old(disk.binary))
      ensures ok ==> disk.state == Valid && disk.timer && pending
      ensures !ok ==> !disk.timer && !pending
      ensures !ok && (!backup.ok || restore.ok) ==> disk.binary == old(disk.binary)
      ensures !ok && (save.ok ==> clear.ok) && !save.torn ==> disk.state == Absent
      ensures !ok && disk.state != Absent ==> disk.bak == Some(old(disk.binary))
      ensures var n := Installing(Step(m, BeginApply(new_)), new_, backup, install, check, restore);
              At(if n.service == Save then Recording(n, save, arm, restore, clear) else n)
    {
      ghost var n := Installing(Step(m, BeginApply(new_)), new_, backup, install, check, restore);
      ok := InstallBinary(new_, backup, install, check, restore, Step(m, BeginApply(new_)));
      if ok {
        ok := Record(save, arm, restore, clear, n);
      }
    }

    method Record(save: Io, arm: Io, restore: Io, clear: Io, ghost m: Machine) returns (ok: bool)
      requires At(m) && disk.state == Absent && !pending && !disk.timer && disk.bak.Some?
      modifies this`pending, disk
      ensures ok == (save.ok && arm.ok) && disk.bak == old(disk.bak)
      ensures ok ==> disk.binary == old(disk.binary) && disk.state == Valid && disk.timer && pending
      ensures !ok ==> !disk.timer && !pending && (restore.ok ==> disk.binary == disk.bak.value)
      ensures !ok && (save.ok ==> clear.ok) && !save.torn ==> disk.state == Absent
      ensures At(Recording(m, save, arm, restore, clear))
    {
      if !save.ok {
        if save.torn {
          disk.state := Garbage;
        }
        var _ := disk.Install(disk.bak, restore);
        return false;
      }
      disk.state := Valid;
      pending := true;
      if !arm.ok {
        var _ := disk.Install(disk.bak, restore);
        if clear.ok {
          disk.state := Absent;
        }
        pending := false;
        return false;
      }
      disk.timer := true;
      ok := true;
    }

    /** Removes the backup and then the record; each failure is only logged. A running guard is not touched. */
    method ConfirmUpdate(stop: Io, drop: Io, clear: Io, ghost m: Machine)
      requires At(m)
      modifies this`pending, disk`timer, disk`bak, disk`state
      ensures !pending
      ensures disk.timer == (old(disk.timer) && !stop.ok)
      ensures disk.bak == if old(pending) && drop.ok then None else old(disk.bak)
      ensures disk.state == if clear.ok then Absent else old(disk.state)
      ensures At(Confirming(m, stop, drop, clear))
    {
      if stop.ok {
        disk.timer := false;
      }
      if pending && drop.ok {
        disk.bak := None;
      }
      if clear.ok {
        disk.state := Absent;
      }
      pending := false;
    }

    /** Refused without a pending update; a failed copy leaves the update pending. */
    method Rollback(stop: Io, copy: Io, drop: Io, clear: Io, ghost m: Machine) returns (ok: bool)
      requires At(m)
      modifies this`pending, disk
      ensures !old(pending) ==> !ok && !pending && unchanged(disk)
      ensures old(pending) ==> ok == (copy.ok && old(disk.bak).Some?)
      ensures ok ==> disk.binary == old(disk.bak).value
      ensures old(pending) && !ok ==> pending && disk.bak == old(disk.bak) && disk.state == old(disk.state)
      ensures disk.timer == (old(disk.timer) && !(old(pending) && stop.ok))
      ensures At(RollingBack(m, stop, copy, drop, clear))
    {
      if !pending {
        return false;
      }
      if stop.ok {
        disk.timer := false;
      }
      ok := disk.Install(disk.bak, copy);
      if !ok {
        return false;
      }
      if drop.ok {
        disk.bak := None;
      }
      if clear.ok {
        disk.state := Absent;
      }
      pending := disk.state == Valid;
    }
  }
}
