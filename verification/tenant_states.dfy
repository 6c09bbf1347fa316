/**
 The writers of one tenant's state: provisioning and deprovisioning runs under the tenant lock, and
 the operator's state changes, restores, the idle scaler and the activator, which take no lock. Each
 statement is a step; the steps of different writers interleave freely, and any of them may fail.
 */
module TenantStates {
  import opened Outcomes

  datatype TState = Provisioning | Ready | Sleeping | Maintenance | Upgrading | Restoring | Failed | Deprovisioned

  // The tenants row, and seen_by_activator of its tenant_activity row. subdomain says whether one is
  // persisted.
  datatype Row = Row(current: TState, desired: TState, subdomain: bool, version: string, stored: bool, seen: bool)

  type Id = nat

  // ------------------------------------------------------------------------------------------
  // A provisioning run.

  datatype ProvisionPc =
    | Waiting                                 // for the lock of phase 1
    | Reading                                 // the guards
    | Versioning
    | Refreshing(rollout: bool)               // reads again, decides how to mark the run
    | Desiring(mark: Option<TState>)
    | Marking(mark: Option<TState>)
    | Reserving                               // the subdomain
    | Applying                                // database, identity client, cluster resources
    | Unlocking                               // the unlock that ends phase 1
    | Recovering                              // the catch block of phase 1: read ...
    | RecoverWrite                            // ... and write failed
    | Rolling                                 // phase 2, without the lock
    | ReadyLock | ReadyRead | ReadyWrite      // phase 3
    | FailLock | FailRead | FailWrite         // the catch block of phase 2
    | Rejected                                // by a guard
    | Over

  predicate Busy(row: Row) {
    row.current.Upgrading? || (row.current.Provisioning? && row.subdomain)
  }

  predicate Differs(version: Option<string>, row: Row) {
    version.Some? && version.value != row.version
  }

  predicate Refused(version: Option<string>, row: Row) {
    || Busy(row)
    || (Differs(version, row) && !(row.current.Ready? || row.current.Deprovisioned? || row.current.Failed?))
    || (version == Some(row.version) && (row.current.Ready? || row.current.Maintenance? || row.current.Restoring?))
  }

  function MarkFor(rollout: bool, row: Row): Option<TState> {
    if rollout && row.subdomain && row.current.Ready? then Some(Upgrading)
    else if !row.subdomain || row.current.Deprovisioned? || row.current.Failed? then Some(Provisioning)
    else None
  }

  datatype Turn<Pc> = Turn(row: Row, pc: Pc)

  // The next statement of a run. ok is false when it fails, or when the lock is not obtained in time;
  // applied says whether a statement that failed had its effect all the same. A failed unlock ends the
  // run; the lock is gone either way, with the session.
  function ProvisionTurn(version: Option<string>, pc: ProvisionPc, row: Row, ok: bool, applied: bool)
    : Turn<ProvisionPc>
  {
    match pc
    case Waiting => Turn(row, if ok then Reading else Over)
    case Reading =>
      Turn(row, if !ok then Over
                else if Refused(version, row) then Rejected
                else if Differs(version, row) then Versioning
                else Refreshing(false))
    case Versioning =>
      Turn(if (ok || applied) && version.Some? then row.(version := version.value) else row,
           if ok then Refreshing(true) else Over)
    case Refreshing(rollout) => Turn(row, if ok then Desiring(MarkFor(rollout, row)) else Over)
    case Desiring(mark) =>
      Turn(if ok || applied then row.(desired := Ready) else row, if ok then Marking(mark) else Recovering)
    case Marking(mark) =>
      if mark.None? then Turn(row, Reserving)
      else Turn(if ok || applied then row.(current := mark.value) else row, if ok then Reserving else Recovering)
    case Reserving => Turn(if ok || applied then row.(subdomain := true) else row, if ok then Applying else Recovering)
    case Applying => Turn(if ok || applied then row.(stored := true) else row, if ok then Unlocking else Recovering)
    case Unlocking => Turn(row, if ok then Rolling else Over)
    case Recovering => Turn(row, if ok && !row.current.Failed? then RecoverWrite else Over)
    case RecoverWrite => Turn(if ok || applied then row.(current := Failed) else row, Over)
    case Rolling => Turn(row, if ok then ReadyLock else FailLock)
    case ReadyLock => Turn(row, if ok then ReadyRead else Over)
    case ReadyRead => Turn(row, if ok && !row.current.Ready? then ReadyWrite else Over)
    case ReadyWrite => Turn(if ok || applied then row.(current := Ready) else row, Over)
    case FailLock => Turn(row, if ok then FailRead else Over)
    case FailRead => Turn(row, if ok && !row.current.Failed? then FailWrite else Over)
    case FailWrite => Turn(if ok || applied then row.(current := Failed) else row, Over)
    case Rejected => Turn(row, pc)
    case Over => Turn(row, pc)
  }

  // ------------------------------------------------------------------------------------------
  // The other writers.

  datatype DeprovisionPc = DepWaiting | DepRead | DepDelete | DepDesire | DepWrite | DepOver

  function DeprovisionTurn(pc: DeprovisionPc, row: Row, ok: bool, applied: bool): Turn<DeprovisionPc> {
    match pc
    case DepWaiting => Turn(row, if ok then DepRead else DepOver)
    case DepRead => Turn(row, if ok && !row.current.Deprovisioned? then DepDelete else DepOver)
    case DepDelete => Turn(if ok || applied then row.(stored := false) else row, if ok then DepDesire else DepOver)
    case DepDesire =>
      Turn(if ok || applied then row.(desired := Deprovisioned) else row, if ok then DepWrite else DepOver)
    case DepWrite => Turn(if ok || applied then row.(current := Deprovisioned) else row, DepOver)
    case DepOver => Turn(row, pc)
  }

  // The operator's PATCH: a gate that reads, then a write.
  datatype PatchPc = PatchGate | PatchWrite | PatchOver

  function PatchTurn(target: TState, pc: PatchPc, row: Row, ok: bool, applied: bool): Turn<PatchPc> {
    match pc
    case PatchGate => Turn(row, if ok && (target.Sleeping? ==> row.seen) then PatchWrite else PatchOver)
    case PatchWrite => Turn(if ok || applied then row.(current := target) else row, PatchOver)
    case PatchOver => Turn(row, pc)
  }

  datatype RestorePc = RestoreRead | RestoreMark(previous: TState) | RestoreRun(previous: TState)
                     | RestoreBack(previous: TState) | RestoreLog(previous: TState) | RestoreUndo(previous: TState)
                     | RestoreOver

  // The state is put back after success, and by the catch block after any failure: also after that
  // of the log entry, when it was put back already.
  function RestoreTurn(pc: RestorePc, row: Row, ok: bool, applied: bool): Turn<RestorePc> {
    match pc
    case RestoreRead =>
      Turn(row, if ok && row.stored && (row.current.Ready? || row.current.Maintenance?)
                then RestoreMark(row.current) else RestoreOver)
    case RestoreMark(previous) =>
      Turn(if ok || applied then row.(current := Restoring) else row,
           if ok then RestoreRun(previous) else RestoreUndo(previous))
    case RestoreRun(previous) => Turn(row, if ok then RestoreBack(previous) else RestoreUndo(previous))
    case RestoreBack(previous) =>
      Turn(if ok || applied then row.(current := previous) else row,
           if ok then RestoreLog(previous) else RestoreUndo(previous))
    case RestoreLog(previous) => Turn(row, if ok then RestoreOver else RestoreUndo(previous))
    case RestoreUndo(previous) => Turn(if ok || applied then row.(current := previous) else row, RestoreOver)
    case RestoreOver => Turn(row, pc)
  }

  // One tenant's turn in the idle scaler: a query, then a guarded update, in either direction.
  datatype IdlePc = IdleQuery | IdleUpdate | WakeQuery | WakeUpdate | IdleOver

  predicate TearingDown(row: Row) {
    row.desired.Deprovisioned? || row.desired.Failed?
  }

  function IdleTurn(pc: IdlePc, row: Row, ok: bool, applied: bool): Turn<IdlePc> {
    match pc
    case IdleQuery =>
      Turn(row, if ok && row.current.Ready? && !TearingDown(row) && row.seen then IdleUpdate else IdleOver)
    case IdleUpdate => Turn(if (ok || applied) && row.current.Ready? then row.(current := Sleeping) else row, IdleOver)
    case WakeQuery => Turn(row, if ok && row.current.Sleeping? && !TearingDown(row) then WakeUpdate else IdleOver)
    case WakeUpdate => Turn(if (ok || applied) && row.current.Sleeping? then row.(current := Ready) else row, IdleOver)
    case IdleOver => Turn(row, pc)
  }

  function RecordActivity(row: Row): Row {
    row.(seen := true)
  }

  function MarkReady(row: Row): Row {
    if row.current.Sleeping? && !TearingDown(row) then row.(current := Ready) else row
  }

  // ------------------------------------------------------------------------------------------
  // All of them together.

  datatype Writer =
    | Provision(version: Option<string>, pc: ProvisionPc)
    | Deprovision(dpc: DeprovisionPc)
    | Patch(target: TState, ppc: PatchPc)
    | Restore(rpc: RestorePc)
    | Idle(ipc: IdlePc)

  datatype State = State(row: Row, lock: Option<Id>, writers: map<Id, Writer>)

  datatype Event =
    | Begin(id: Id, writer: Writer)
    | Go(id: Id, ok: bool, applied: bool)
    | Activity
    | Woken
    | Desire(target: TState)                  // the operator's PATCH of the desired state

  predicate Fresh(w: Writer) {
    match w
    case Provision(_, pc) => pc.Waiting?
    case Deprovision(pc) => pc.DepWaiting?
    case Patch(_, pc) => pc.PatchGate?
    case Restore(pc) => pc.RestoreRead?
    case Idle(pc) => pc.IdleQuery? || pc.WakeQuery?
  }

  predicate Taking(w: Writer) {
    || (w.Provision? && (w.pc.Waiting? || w.pc.ReadyLock? || w.pc.FailLock?))
    || (w.Deprovision? && w.dpc.DepWaiting?)
  }

  // Inside withTenantLock.
  predicate HoldsLock(w: Writer) {
    match w
    case Provision(_, pc) =>
      !(pc.Waiting? || pc.Rolling? || pc.ReadyLock? || pc.FailLock? || pc.Rejected? || pc.Over?)
    case Deprovision(pc) => !(pc.DepWaiting? || pc.DepOver?)
    case _ => false
  }

  function Moved(w: Writer, row: Row, ok: bool, applied: bool): (Row, Writer) {
    match w
    case Provision(version, pc) => var t := ProvisionTurn(version, pc, row, ok, applied); (t.row, w.(pc := t.pc))
    case Deprovision(pc) => var t := DeprovisionTurn(pc, row, ok, applied); (t.row, w.(dpc := t.pc))
    case Patch(target, pc) => var t := PatchTurn(target, pc, row, ok, applied); (t.row, w.(ppc := t.pc))
    case Restore(pc) => var t := RestoreTurn(pc, row, ok, applied); (t.row, w.(rpc := t.pc))
    case Idle(pc) => var t := IdleTurn(pc, row, ok, applied); (t.row, w.(ipc := t.pc))
  }

  predicate Enabled(s: State, e: Event) {
    match e
    case Begin(id, w) => id !in s.writers && Fresh(w)
    case Go(id, ok, _) => id in s.writers && (Taking(s.writers[id]) && ok ==> s.lock.None?)
    case _ => true
  }

  function Step(s: State, e: Event): State
    requires Enabled(s, e)
  {
    match e
    case Begin(id, w) => s.(writers := s.writers[id := w])
    case Go(id, ok, applied) =>
      var was := s.writers[id];
      var (row, now) := Moved(was, s.row, ok, applied);
      State(row, if HoldsLock(now) then Some(id) else if HoldsLock(was) then None else s.lock, s.writers[id := now])
    case Activity => s.(row := RecordActivity(s.row))
    case Woken => s.(row := MarkReady(s.row))
    case Desire(target) => s.(row := s.row.(desired := target))
  }

  // createTenant
  function Created(version: string): State {
    State(Row(Provisioning, Provisioning, false, version, false, false), None, map[])
  }

  ghost predicate Path(trace: seq<State>, events: seq<Event>) {
    && |trace| == |events| + 1
    && forall i | 0 <= i < |events| :: Enabled(trace[i], events[i]) && trace[i + 1] == Step(trace[i], events[i])
  }

  ghost predicate Runs(trace: seq<State>, events: seq<Event>) {
    Path(trace, events) && trace[0] == Created(trace[0].row.version)
  }

  // ------------------------------------------------------------------------------------------
  // The lock belongs to the writer that is inside withTenantLock.

  ghost predicate LockKept(s: State) {
    && (s.lock.Some? ==> s.lock.value in s.writers)
    && forall id | id in s.writers :: HoldsLock(s.writers[id]) <==> s.lock == Some(id)
  }

  lemma MovedLock(w: Writer, row: Row, ok: bool, applied: bool)
    ensures HoldsLock(Moved(w, row, ok, applied).1) ==> HoldsLock(w) || (Taking(w) && ok)
  {
    hide Refused, Differs, Busy, TearingDown;
  }

  lemma StepKeepsLock(s: State, e: Event)
    requires LockKept(s) && Enabled(s, e)
    ensures LockKept(Step(s, e))
  {
    if e.Go? {
      MovedLock(s.writers[e.id], s.row, e.ok, e.applied);
    }
    hide Moved, HoldsLock, Taking;
    if e.Begin? {
      assert !HoldsLock(e.writer) by { FreshHoldsNothing(e.writer); }
    }
  }

  lemma FreshHoldsNothing(w: Writer)
    requires Fresh(w)
    ensures !HoldsLock(w)
  {
  }

  lemma {:induction false} LockAlwaysKept(trace: seq<State>, events: seq<Event>, i: nat)
    requires Runs(trace, events) && i < |trace|
    ensures LockKept(trace[i])
  {
    hide Step, Enabled, HoldsLock;
    if i > 0 {
      LockAlwaysKept(trace, events, i - 1);
      StepKeepsLock(trace[i - 1], events[i - 1]);
    }
  }

  // ------------------------------------------------------------------------------------------
  // Sleeping tenants can be woken.

  // A writer about to write sleeping, or that could put it back, only does so for a tenant the
  // activator has seen.
  predicate Careful(w: Writer, row: Row) {
    match w
    case Provision(_, pc) => true
    case Deprovision(_) => true
    case Patch(target, pc) => pc.PatchWrite? && target.Sleeping? ==> row.seen
    case Restore(pc) => !pc.RestoreRead? && !pc.RestoreOver? ==> !pc.previous.Sleeping?
    case Idle(pc) => pc.IdleUpdate? ==> row.seen
  }

  // A run marks only upgrading or provisioning.
  predicate MarksWell(w: Writer) {
    w.Provision? && (w.pc.Desiring? || w.pc.Marking?) ==>
      w.pc.mark.None? || w.pc.mark.value.Upgrading? || w.pc.mark.value.Provisioning?
  }

  ghost predicate SleepersSeen(s: State) {
    && (s.row.current.Sleeping? ==> s.row.seen)
    && forall id | id in s.writers :: Careful(s.writers[id], s.row) && MarksWell(s.writers[id])
  }

  lemma ProvisionCareful(version: Option<string>, pc: ProvisionPc, row: Row, ok: bool, applied: bool)
    requires MarksWell(Provision(version, pc))
    ensures var t := ProvisionTurn(version, pc, row, ok, applied);
      MarksWell(Provision(version, t.pc)) && t.row.seen == row.seen
        && (t.row.current.Sleeping? ==> row.current.Sleeping?)
  {
    hide Refused, Differs, Busy;
  }

  lemma MovedCareful(w: Writer, row: Row, ok: bool, applied: bool)
    requires Careful(w, row) && MarksWell(w) && (row.current.Sleeping? ==> row.seen)
    ensures var (after, now) := Moved(w, row, ok, applied);
      && Careful(now, after) && MarksWell(now)
      && (after.current.Sleeping? ==> after.seen) && after.seen == row.seen
  {
    hide ProvisionTurn, TearingDown;
    if w.Provision? {
      ProvisionCareful(w.version, w.pc, row, ok, applied);
      hide MarksWell;
    }
  }

  lemma StepSeen(s: State, e: Event)
    requires SleepersSeen(s) && Enabled(s, e)
    ensures SleepersSeen(Step(s, e)) && (s.row.seen ==> Step(s, e).row.seen)
  {
    match e {
      case Begin(_, _) =>
      case Go(id, ok, applied) =>
        MovedCareful(s.writers[id], s.row, ok, applied);
        var (row, now) := Moved(s.writers[id], s.row, ok, applied);
        hide Moved, HoldsLock, MarksWell, Taking;
        forall other | other in s.writers && other != id ensures Careful(s.writers[other], row) {
          assert Careful(s.writers[other], s.row);
        }
      case Activity =>
      case Woken =>
      case Desire(_) =>
    }
  }

  // In every state any interleaving reaches, a sleeping tenant is one the activator has seen.
  lemma {:induction false} SleepingIsSeen(trace: seq<State>, events: seq<Event>, i: nat)
    requires Runs(trace, events) && i < |trace|
    ensures SleepersSeen(trace[i])
  {
    hide Step, Enabled;
    if i > 0 {
      SleepingIsSeen(trace, events, i - 1);
      StepSeen(trace[i - 1], events[i - 1]);
    }
  }

  // The activator and the idle scaler move ready tenants to sleeping and sleeping ones to ready, and
  // no others; in particular never a deprovisioned one.
  lemma ScalersMoveOnlySleepers(s: State, e: Event)
    requires Enabled(s, e) && (e.Activity? || e.Woken? || (e.Go? && s.writers[e.id].Idle?))
    ensures var before, after := s.row.current, Step(s, e).row.current;
      before == after || (before.Ready? && after.Sleeping?) || (before.Sleeping? && after.Ready?)
    ensures e.Woken? && Step(s, e).row.current != s.row.current ==> !TearingDown(s.row)
  {
  }

  // ------------------------------------------------------------------------------------------
  // Provisioning runs exclude each other through the state they mark, although the lock is free
  // while they wait for the workload.

  // From marking the state to the final write.
  predicate InFlight(w: Writer) {
    w.Provision?
    && (w.pc.Reserving? || w.pc.Applying? || w.pc.Unlocking? || w.pc.Recovering? || w.pc.RecoverWrite?
        || w.pc.Rolling? || w.pc.ReadyLock? || w.pc.ReadyRead? || w.pc.ReadyWrite?
        || w.pc.FailLock? || w.pc.FailRead? || w.pc.FailWrite?)
  }

  // Past its guard, with the lock, and not yet marked; a teardown marks nothing before its end.
  predicate Admitted(w: Writer) {
    || (w.Provision? && (w.pc.Versioning? || w.pc.Refreshing? || w.pc.Desiring? || w.pc.Marking?))
    || (w.Deprovision? && (w.dpc.DepDelete? || w.dpc.DepDesire? || w.dpc.DepWrite?))
  }

  predicate AtGuard(w: Writer) {
    (w.Provision? && w.pc.Reading?) || (w.Deprovision? && w.dpc.DepRead?)
  }

  // What a run in flight knows of the row.
  predicate Marked(w: Writer, row: Row) {
    w.Provision? ==>
      && (w.pc.Reserving? || w.pc.Applying? ==> row.current.Upgrading? || row.current.Provisioning?)
      && (w.pc.Applying? ==> row.subdomain)
      && (InFlight(w) && !(w.pc.Reserving? || w.pc.Applying? || w.pc.Recovering? || w.pc.RecoverWrite?) ==> Busy(row))
      && (w.pc.Desiring? || w.pc.Marking? ==> w.pc.mark == Some(Upgrading) || w.pc.mark == Some(Provisioning))
  }

  ghost predicate NoOperators(s: State) {
    forall id | id in s.writers :: s.writers[id].Provision? || s.writers[id].Deprovision? || s.writers[id].Idle?
  }

  ghost predicate OneInFlight(s: State) {
    && (forall a, b | a in s.writers && b in s.writers && InFlight(s.writers[a]) && InFlight(s.writers[b]) :: a == b)
    && (forall a, b | a in s.writers && b in s.writers && Admitted(s.writers[a]) :: !InFlight(s.writers[b]))
  }

  ghost predicate AllMarked(s: State) {
    forall id | id in s.writers :: Marked(s.writers[id], s.row)
  }

  ghost predicate Excluding(s: State) {
    NoOperators(s) && LockKept(s) && OneInFlight(s) && AllMarked(s)
  }

  // A step of a run that marks the state, of a deprovision that does not find a run in flight, of the
  // activator or of the idle scaler.
  predicate Marks(s: State, e: Event) {
    match e
    case Begin(_, w) => w.Provision? || w.Deprovision? || w.Idle?
    case Go(id, ok, _) =>
      id in s.writers
      && match s.writers[id] {
           case Provision(_, pc) => pc.Refreshing? ==> MarkFor(pc.rollout, s.row).Some?
           case Deprovision(pc) => pc.DepRead? && ok && !s.row.current.Deprovisioned? ==> !Busy(s.row)
           case Idle(_) => true
           case _ => false
         }
    case _ => true
  }

  // What one statement of a run or a teardown changes, and when.
  predicate Local(w: Writer, row: Row, now: Writer, after: Row) {
    && !now.Idle? && !now.Patch? && !now.Restore? && Marked(now, after)
    && (after != row ==> HoldsLock(w) && (InFlight(w) || Admitted(w)))
    && (Admitted(now) ==> Admitted(w) || (AtGuard(w) && !Busy(row)))
    && (InFlight(now) ==> InFlight(w) || Admitted(w))
  }

  lemma ProvisionLocal(version: Option<string>, pc: ProvisionPc, row: Row, ok: bool, applied: bool)
    requires Marked(Provision(version, pc), row) && (pc.Refreshing? ==> MarkFor(pc.rollout, row).Some?)
    ensures var t := ProvisionTurn(version, pc, row, ok, applied);
      Local(Provision(version, pc), row, Provision(version, t.pc), t.row)
  {
    RefusesBusy(version, row);
    hide Refused;
  }

  lemma TurnLocal(s: State, e: Event)
    requires e.Go? && Enabled(s, e) && Marks(s, e) && !s.writers[e.id].Idle? && Marked(s.writers[e.id], s.row)
    ensures var w := s.writers[e.id];
      var (after, now) := Moved(w, s.row, e.ok, e.applied);
      Local(w, s.row, now, after)
  {
    hide ProvisionTurn, Refused, Taking, PatchTurn, RestoreTurn, IdleTurn;
    var w := s.writers[e.id];
    if w.Provision? {
      ProvisionLocal(w.version, w.pc, s.row, e.ok, e.applied);
      hide Local;
    }
  }

  lemma RefusesBusy(version: Option<string>, row: Row)
    ensures Busy(row) ==> Refused(version, row)
  {
  }

  lemma GoEffect(s: State, e: Event)
    requires Excluding(s) && Enabled(s, e) && Marks(s, e) && e.Go? && !s.writers[e.id].Idle?
    ensures var w, t := s.writers[e.id], Step(s, e);
      && e.id in t.writers && t.writers == s.writers[e.id := t.writers[e.id]]
      && (t.writers[e.id].Provision? || t.writers[e.id].Deprovision?) && Marked(t.writers[e.id], t.row)
      && (t.row != s.row ==> HoldsLock(w) && (InFlight(w) || Admitted(w)))
      && (Admitted(t.writers[e.id]) ==> Admitted(w) || (AtGuard(w) && !Busy(s.row)))
      && (InFlight(t.writers[e.id]) ==> InFlight(w) || Admitted(w))
  {
    TurnLocal(s, e);
    hide Moved, HoldsLock, InFlight, Admitted, AtGuard, Marked, Busy;
  }

  lemma GoKeepsMarks(s: State, e: Event)
    requires Excluding(s) && Enabled(s, e) && Marks(s, e) && e.Go? && !s.writers[e.id].Idle?
    ensures AllMarked(Step(s, e))
  {
    GoEffect(s, e);
    var t := Step(s, e);
    hide Step, Marked, Enabled, Marks, OneInFlight, Busy;
    forall id | id in t.writers ensures Marked(t.writers[id], t.row) {
      if id != e.id && t.row != s.row {
        Unaffected(s, e.id, id);
      }
    }
  }

  // Who comes into flight was admitted, and who is admitted finds nobody in flight.
  lemma GoAdmits(s: State, e: Event)
    requires Excluding(s) && Enabled(s, e) && Marks(s, e) && e.Go? && !s.writers[e.id].Idle?
    ensures var now := Step(s, e).writers[e.id];
      && (InFlight(now) ==> forall id | id in s.writers && id != e.id ::
        !InFlight(s.writers[id]) && !Admitted(s.writers[id]))
      && (Admitted(now) ==> !InFlight(now) && forall id | id in s.writers && id != e.id :: !InFlight(s.writers[id]))
  {
    GoEffect(s, e);
    WaitingIsBusy(s);
    AdmittedHolds(s);
    AdmittedOrInFlight(Step(s, e).writers[e.id]);
    hide Step, Marked, Enabled, Marks, Busy, HoldsLock, InFlight, Admitted, AtGuard, AllMarked, NoOperators;
  }

  lemma AdmittedOrInFlight(w: Writer)
    ensures Admitted(w) ==> !InFlight(w)
  {
  }

  lemma GoKeepsFlights(s: State, e: Event)
    requires Excluding(s) && Enabled(s, e) && Marks(s, e) && e.Go? && !s.writers[e.id].Idle?
    ensures OneInFlight(Step(s, e)) && NoOperators(Step(s, e))
  {
    GoEffect(s, e);
    GoAdmits(s, e);
    hide Step, Marked, Enabled, Marks, Busy, HoldsLock, InFlight, Admitted, AtGuard, AllMarked, LockKept;
  }

  lemma AdmittedHolds(s: State)
    ensures forall id | id in s.writers && (Admitted(s.writers[id]) || AtGuard(s.writers[id])) ::
              HoldsLock(s.writers[id]) && !InFlight(s.writers[id])
  {
  }

  lemma WaitingIsBusy(s: State)
    requires AllMarked(s)
    ensures forall id | id in s.writers && InFlight(s.writers[id]) && !HoldsLock(s.writers[id]) :: Busy(s.row)
  {
  }

  // Whoever changes the row is in flight or admitted, so nobody else is.
  lemma Unaffected(s: State, id: Id, other: Id)
    requires Excluding(s) && id in s.writers && other in s.writers && id != other
    requires HoldsLock(s.writers[id]) && (InFlight(s.writers[id]) || Admitted(s.writers[id]))
    ensures !InFlight(s.writers[other]) && !Admitted(s.writers[other])
    ensures forall row :: Marked(s.writers[other], row)
  {
  }

  lemma {:induction false} ProvisionsExclude(trace: seq<State>, events: seq<Event>, i: nat)
    requires Runs(trace, events) && i < |trace|
    requires forall k | 0 <= k < |events| :: Marks(trace[k], events[k])
    ensures Excluding(trace[i])
  {
    hide Step, Enabled, Marks, Excluding;
    if i > 0 {
      ProvisionsExclude(trace, events, i - 1);
      ExclusionStep(trace[i - 1], events[i - 1]);
    } else {
      CreatedExcludes(trace[0].row.version);
    }
  }

  lemma CreatedExcludes(version: string)
    ensures Excluding(Created(version))
  {
  }

  lemma BeginKeepsExclusion(s: State, id: Id, w: Writer)
    requires Excluding(s) && id !in s.writers && Fresh(w) && (w.Provision? || w.Deprovision? || w.Idle?)
    ensures Excluding(s.(writers := s.writers[id := w]))
  {
    assert !InFlight(w) && !Admitted(w) && !HoldsLock(w) && Marked(w, s.row);
    hide InFlight, Admitted, HoldsLock, Marked, Fresh;
  }

  // Whatever moves a tenant only between ready and sleeping leaves every run's knowledge standing.
  lemma ScalersKeepMarks(s: State, row: Row)
    requires AllMarked(s) && row.subdomain == s.row.subdomain
    requires row.current == s.row.current || (s.row.current.Ready? && row.current.Sleeping?)
             || (s.row.current.Sleeping? && row.current.Ready?)
    ensures AllMarked(s.(row := row))
  {
    forall id | id in s.writers ensures Marked(s.writers[id], row) {
      assert Marked(s.writers[id], s.row);
    }
  }

  lemma ScalerKeepsExclusion(s: State, e: Event)
    requires Excluding(s) && Enabled(s, e) && e.Go? && s.writers[e.id].Idle?
    ensures Excluding(Step(s, e))
  {
    var w := s.writers[e.id];
    var (row, now) := Moved(w, s.row, e.ok, e.applied);
    ScalersKeepMarks(s, row);
    assert now.Idle? && !HoldsLock(now) && !InFlight(now) && !Admitted(now) && Marked(now, row);
    assert Step(s, e) == s.(row := row, writers := s.writers[e.id := now]);
    hide Step, Moved, InFlight, Admitted, HoldsLock, Marked, Enabled;
  }

  lemma RowStepKeepsExclusion(s: State, e: Event)
    requires Excluding(s) && (e.Activity? || e.Woken? || e.Desire?)
    ensures Excluding(Step(s, e))
  {
    ScalersKeepMarks(s, Step(s, e).row);
    hide AllMarked;
  }

  lemma ExclusionStep(s: State, e: Event)
    requires Excluding(s) && Enabled(s, e) && Marks(s, e)
    ensures Excluding(Step(s, e))
  {
    hide OneInFlight, AllMarked, LockKept, NoOperators;
    match e {
      case Begin(id, w) => BeginKeepsExclusion(s, id, w);
      case Go(id, _, _) =>
        if s.writers[id].Idle? {
          ScalerKeepsExclusion(s, e);
        } else {
          StepKeepsLock(s, e);
          GoKeepsMarks(s, e);
          GoKeepsFlights(s, e);
        }
      case _ => RowStepKeepsExclusion(s, e);
    }
  }

  // While a run is in flight every other call that reaches the guards is rejected, and the run's last
  // statement, if it succeeds, leaves the tenant ready or failed.
  lemma OthersAreRejected(s: State, a: Id, b: Id)
    requires Excluding(s) && a in s.writers && b in s.writers && InFlight(s.writers[a])
    requires s.writers[b].Provision? && s.writers[b].pc.Reading?
    ensures Step(s, Go(b, true, false)).writers[b].pc.Rejected? && Step(s, Go(b, true, false)).row == s.row
  {
    assert s.lock == Some(b) && a != b;
  }

  lemma FlightEnds(s: State, a: Id)
    requires Excluding(s) && a in s.writers && InFlight(s.writers[a]) && Enabled(s, Go(a, true, false))
    ensures var t := Step(s, Go(a, true, false));
      InFlight(t.writers[a]) || (t.writers[a].pc.Over? && (t.row.current.Ready? || t.row.current.Failed?))
  {
  }

  predicate Verdict(row: Row) {
    row.current.Ready? || row.current.Failed?
  }

  // The ends of a run that write no verdict.
  predicate EndsSilently(pc: ProvisionPc, ok: bool, applied: bool) {
    !ok && !(applied && (pc.RecoverWrite? || pc.ReadyWrite? || pc.FailWrite?))
  }

  // One step out of flight: a verdict is there if and only if the step wrote one, or the run was giving up
  // before its mark and one stood already. Without one the row is as the run left it.
  lemma LandingExactly(s: State, e: Event)
    requires Excluding(s) && Enabled(s, e) && e.Go? && InFlight(s.writers[e.id]) && !InFlight(Step(s, e).writers[e.id])
    ensures var w, t := s.writers[e.id], Step(s, e);
      && t.writers[e.id].Provision? && t.writers[e.id].pc.Over?
      && (Verdict(t.row) <==>
            !EndsSilently(w.pc, e.ok, e.applied) || ((w.pc.Recovering? || w.pc.RecoverWrite?) && Verdict(s.row)))
      && (!Verdict(t.row) ==> t.row == s.row)
      && (!Verdict(t.row) && !w.pc.Recovering? && !w.pc.RecoverWrite? ==> Busy(t.row))
  {
    assert Marked(s.writers[e.id], s.row);
    hide OneInFlight, LockKept, NoOperators, MarkFor, Refused;
  }

  // A mark that its run left behind, with nobody in flight or admitted.
  ghost predicate Stranded(s: State) {
    Busy(s.row) && forall id | id in s.writers :: !InFlight(s.writers[id]) && !Admitted(s.writers[id])
  }

  lemma StaysStranded(s: State, e: Event)
    requires Excluding(s) && Stranded(s) && Enabled(s, e) && Marks(s, e)
    ensures Stranded(Step(s, e))
    ensures e.Go? && AtGuard(s.writers[e.id]) ==> Step(s, e).row == s.row
    ensures e.Go? && e.ok && s.writers[e.id].Provision? && s.writers[e.id].pc.Reading? ==>
      Step(s, e).writers[e.id] == Provision(s.writers[e.id].version, Rejected)
  {
    match e {
      case Begin(id, w) =>
        assert !InFlight(w) && !Admitted(w);
        hide InFlight, Admitted, Excluding;
      case Go(id, _, _) =>
        if s.writers[id].Idle? {
          IdleLeavesBusy(s, e);
        } else {
          GoEffect(s, e);
          if s.writers[id].Provision? && s.writers[id].pc.Reading? && e.ok {
            RejectsBusy(s, e);
          }
        }
        hide Step, InFlight, Admitted, Busy, Excluding, Marks;
      case _ =>
        hide Excluding, InFlight, Admitted;
    }
  }

  lemma IdleLeavesBusy(s: State, e: Event)
    requires Enabled(s, e) && e.Go? && s.writers[e.id].Idle? && Busy(s.row)
    ensures var t := Step(s, e);
      && t.row == s.row && e.id in t.writers && t.writers == s.writers[e.id := t.writers[e.id]]
      && !InFlight(t.writers[e.id]) && !Admitted(t.writers[e.id]) && !t.writers[e.id].Provision?
  {
  }

  lemma RejectsBusy(s: State, e: Event)
    requires Enabled(s, e) && e.Go? && Busy(s.row) && s.writers[e.id].Provision? && s.writers[e.id].pc.Reading? && e.ok
    ensures Step(s, e).writers[e.id] == Provision(s.writers[e.id].version, Rejected)
  {
    RefusesBusy(s.writers[e.id].version, s.row);
    hide Refused;
  }

  // Over whole runs: a run that was in flight at i and is not at j landed at some step k between them, as
  // above. If it left a mark without a verdict, be it by the unlock after a phase 1 that succeeded, the
  // tenant keeps that mark and every later run is rejected, until an operator or a restore writes.
  lemma {:induction false} Landing(trace: seq<State>, events: seq<Event>, i: nat, j: nat, a: Id) returns (k: nat)
    requires Runs(trace, events) && forall m | 0 <= m < |events| :: Marks(trace[m], events[m])
    requires i < j < |trace| && a in trace[i].writers && InFlight(trace[i].writers[a])
    requires a in trace[j].writers && !InFlight(trace[j].writers[a])
    ensures i <= k < j && events[k].Go? && events[k].id == a && a in trace[k].writers && InFlight(trace[k].writers[a])
    ensures a in trace[k + 1].writers && trace[k + 1].writers[a].Provision? && trace[k + 1].writers[a].pc.Over?
    ensures var w, e := trace[k].writers[a], events[k];
      Verdict(trace[k + 1].row) <==>
      !EndsSilently(w.pc, e.ok, e.applied) || ((w.pc.Recovering? || w.pc.RecoverWrite?) && Verdict(trace[k].row))
    ensures !Verdict(trace[k + 1].row) && Busy(trace[k + 1].row) ==> forall m | k < m < |trace| :: Stranded(trace[m])
  {
    hide Enabled, Marks, Verdict, EndsSilently, Busy, Stranded, Excluding, InFlight;
    StillThere(trace, events, j - 1, a, i);
    if InFlight(trace[j - 1].writers[a]) {
      k := j - 1;
      ProvisionsExclude(trace, events, k);
      OnlyOwnStep(trace[k], events[k], a);
      LandingExactly(trace[k], events[k]);
      if Busy(trace[k + 1].row) {
        LandedStranded(trace, events, k);
        forall m | k < m < |trace| ensures Stranded(trace[m]) {
          StrandedFrom(trace, events, k + 1, m);
        }
      }
    } else {
      k := Landing(trace, events, i, j - 1, a);
    }
  }

  lemma {:induction false} StillThere(trace: seq<State>, events: seq<Event>, m: nat, a: Id, i: nat)
    requires Runs(trace, events) && i <= m < |trace| && a in trace[i].writers
    ensures a in trace[m].writers
  {
    if i < m {
      StillThere(trace, events, m - 1, a, i);
    }
  }

  lemma OnlyOwnStep(s: State, e: Event, a: Id)
    requires Enabled(s, e) && a in s.writers && a in Step(s, e).writers && Step(s, e).writers[a] != s.writers[a]
    ensures e.Go? && e.id == a
  {
  }

  lemma LandedStranded(trace: seq<State>, events: seq<Event>, k: nat)
    requires Path(trace, events) && k < |events| && Excluding(trace[k]) && events[k].Go?
    requires events[k].id in trace[k].writers && InFlight(trace[k].writers[events[k].id])
    requires !InFlight(trace[k + 1].writers[events[k].id]) && Busy(trace[k + 1].row)
    ensures Stranded(trace[k + 1])
  {
    var s, e := trace[k], events[k];
    NotAdmittedNext(s, e);
    assert forall id | id in s.writers && id != e.id :: !InFlight(s.writers[id]) && !Admitted(s.writers[id]);
    hide Excluding, InFlight, Admitted, Busy, Moved, HoldsLock;
  }

  lemma NotAdmittedNext(s: State, e: Event)
    requires Enabled(s, e) && e.Go? && InFlight(s.writers[e.id])
    ensures !Admitted(Step(s, e).writers[e.id])
  {
  }

  lemma {:induction false} StrandedFrom(trace: seq<State>, events: seq<Event>, k: nat, m: nat)
    requires Runs(trace, events) && forall n | 0 <= n < |events| :: Marks(trace[n], events[n])
    requires k <= m < |trace| && Stranded(trace[k])
    ensures Stranded(trace[m])
  {
    hide Enabled, Marks, Stranded, Excluding, Step;
    if k < m {
      StrandedFrom(trace, events, k, m - 1);
      ProvisionsExclude(trace, events, m - 1);
      StaysStranded(trace[m - 1], events[m - 1]);
    }
  }

  // ------------------------------------------------------------------------------------------
  // When a completed deprovision stands.

  // A writer that can still move a deprovisioned tenant without passing the lock or a gate again.
  predicate Threatens(w: Writer) {
    match w
    case Provision(_, pc) => !(pc.Waiting? || pc.Rejected? || pc.Over?)
    case Deprovision(_) => false
    case Patch(target, pc) => pc.PatchWrite? && !target.Deprovisioned?
    case Restore(pc) => pc.RestoreMark? || (!pc.RestoreRead? && !pc.RestoreOver? && !pc.previous.Deprovisioned?)
    case Idle(_) => false
  }

  ghost predicate Unthreatened(s: State) {
    s.row.current.Deprovisioned? && forall id | id in s.writers :: !Threatens(s.writers[id])
  }

  // A waiting run gets the lock, or an operator's change passes its gate.
  predicate Admits(s: State, e: Event) {
    && e.Go? && e.ok && e.id in s.writers
    && match s.writers[e.id] {
         case Provision(_, pc) => pc.Waiting?
         case Patch(_, pc) => pc.PatchGate?
         case _ => false
       }
  }

  ghost predicate Quiet(trace: seq<State>, events: seq<Event>) {
    Path(trace, events) && forall k | 0 <= k < |events| :: !Admits(trace[k], events[k])
  }

  lemma HarmlessTurn(s: State, e: Event)
    requires e.Go? && Enabled(s, e) && !Admits(s, e) && s.row.current.Deprovisioned? && !Threatens(s.writers[e.id])
    ensures var (row, now) := Moved(s.writers[e.id], s.row, e.ok, e.applied);
      row.current.Deprovisioned? && !Threatens(now)
  {
    hide Refused, TearingDown;
  }

  lemma StaysUnthreatened(s: State, e: Event)
    requires Unthreatened(s) && Enabled(s, e) && !Admits(s, e)
    ensures Unthreatened(Step(s, e))
  {
    if e.Go? {
      HarmlessTurn(s, e);
      hide Moved, Threatens, Admits, HoldsLock;
    }
  }

  lemma {:induction false} QuietStands(trace: seq<State>, events: seq<Event>, i: nat)
    requires Quiet(trace, events) && i < |trace| && Unthreatened(trace[0])
    ensures Unthreatened(trace[i])
  {
    hide Step, Enabled, Admits, Unthreatened;
    if i > 0 {
      QuietStands(trace, events, i - 1);
      StaysUnthreatened(trace[i - 1], events[i - 1]);
    }
  }

  // The statements left until a threatening writer has moved the tenant.
  function Distance(w: Writer): nat {
    match w
    case Provision(_, pc) =>
      (match pc
       case Reading => 9
       case Versioning => 8
       case Refreshing(_) => 7
       case Desiring(_) => 6
       case Marking(_) => 6
       case Reserving => 5
       case Applying => 5
       case Unlocking => 5
       case Rolling => 4
       case ReadyLock => 3
       case FailLock => 3
       case Recovering => 2
       case ReadyRead => 2
       case FailRead => 2
       case _ => 1)
    case Restore(pc) => (match pc case RestoreRun(_) => 2 case RestoreLog(_) => 2 case _ => 1)
    case _ => 1
  }

  // The lock is no obstacle to a writer.
  predicate Unobstructed(s: State, id: Id) {
    s.lock.None? || s.lock == Some(id)
  }

  function Threat(s: State, id: Id): Event
    requires id in s.writers
  {
    var w := s.writers[id];
    var fails := (w.Provision? && (w.pc.Desiring? || w.pc.Marking? || w.pc.Reserving? || w.pc.Applying?))
                 || (w.Restore? && w.rpc.RestoreLog?);
    Go(id, !fails, false)
  }

  lemma ThreatStep(s: State, id: Id)
    requires LockKept(s) && s.row.current.Deprovisioned? && id in s.writers && Threatens(s.writers[id])
    requires Unobstructed(s, id)
    ensures var e := Threat(s, id);
      && Enabled(s, e) && !Admits(s, e)
      && var t := Step(s, e);
         && LockKept(t)
         && (t.row.current.Deprovisioned? ==>
               id in t.writers && Threatens(t.writers[id]) && Unobstructed(t, id)
               && Distance(t.writers[id]) < Distance(s.writers[id]))
  {
    var e := Threat(s, id);
    assert Enabled(s, e) && !Admits(s, e);
    StepKeepsLock(s, e);
    ThreatTurn(s.writers[id], s.row);
    hide Moved, Threatens, Distance, LockKept, Threat;
  }

  lemma ThreatTurn(w: Writer, row: Row)
    requires row.current.Deprovisioned? && Threatens(w)
    ensures var fails := (w.Provision? && (w.pc.Desiring? || w.pc.Marking? || w.pc.Reserving? || w.pc.Applying?))
                         || (w.Restore? && w.rpc.RestoreLog?);
      var (after, now) := Moved(w, row, !fails, false);
      after.current.Deprovisioned? ==> Threatens(now) && Distance(now) < Distance(w)
  {
  }

  lemma PathCons(s: State, e: Event, trace: seq<State>, events: seq<Event>)
    requires Enabled(s, e) && !Admits(s, e) && Quiet(trace, events) && trace[0] == Step(s, e)
    ensures Quiet([s] + trace, [e] + events)
  {
    hide Step, Enabled, Admits;
    var all, es := [s] + trace, [e] + events;
    forall k | 0 <= k < |es|
      ensures Enabled(all[k], es[k]) && all[k + 1] == Step(all[k], es[k]) && !Admits(all[k], es[k])
    {
      if k > 0 {
        assert all[k] == trace[k - 1] && es[k] == events[k - 1] && all[k + 1] == trace[k];
      }
    }
  }

  lemma {:induction false} FreeThreatMoves(s: State, id: Id) returns (trace: seq<State>, events: seq<Event>)
    requires LockKept(s) && s.row.current.Deprovisioned? && id in s.writers && Threatens(s.writers[id])
    requires Unobstructed(s, id)
    ensures Quiet(trace, events) && trace[0] == s && !trace[|events|].row.current.Deprovisioned?
    decreases Distance(s.writers[id])
  {
    hide LockKept, Threatens;
    ThreatStep(s, id);
    var e := Threat(s, id);
    var t := Step(s, e);
    hide Threat, Step, Distance;
    trace, events := [t], [];
    if t.row.current.Deprovisioned? {
      trace, events := FreeThreatMoves(t, id);
    }
    PathCons(s, e, trace, events);
    trace, events := [s] + trace, [e] + events;
  }

  // Whoever is inside withTenantLock either threatens the tenant itself or is a teardown that may fail.
  lemma ThreatMoves(s: State, id: Id) returns (trace: seq<State>, events: seq<Event>)
    requires LockKept(s) && s.row.current.Deprovisioned? && id in s.writers && Threatens(s.writers[id])
    ensures Quiet(trace, events) && trace[0] == s && !trace[|events|].row.current.Deprovisioned?
  {
    if Unobstructed(s, id) {
      trace, events := FreeThreatMoves(s, id);
    } else if s.writers[s.lock.value].Provision? {
      trace, events := FreeThreatMoves(s, s.lock.value);
    } else {
      var e := Go(s.lock.value, false, false);
      StepKeepsLock(s, e);
      var t := Step(s, e);
      trace, events := FreeThreatMoves(t, id);
      PathCons(s, e, trace, events);
      trace, events := [s] + trace, [e] + events;
    }
  }

  // In every reachable state a deprovisioned tenant stays so, until a waiting run gets the lock or an
  // operator's change passes its gate, if and only if no writer threatens it: no run from its guards on,
  // no operator's change past its gate, no restore past its read.
  lemma DeprovisionStandsExactly(trace: seq<State>, events: seq<Event>, i: nat)
    requires Runs(trace, events) && i < |trace| && trace[i].row.current.Deprovisioned?
    ensures (forall later: seq<State>, es: seq<Event> | Quiet(later, es) && later[0] == trace[i] ::
      later[|es|].row.current.Deprovisioned?)
       <==> forall id | id in trace[i].writers :: !Threatens(trace[i].writers[id])
  {
    hide Step, Enabled, Threatens, LockKept, Admits;
    LockAlwaysKept(trace, events, i);
    if Unthreatened(trace[i]) {
      forall later: seq<State>, es: seq<Event> | Quiet(later, es) && later[0] == trace[i]
        ensures later[|es|].row.current.Deprovisioned?
      {
        QuietStands(later, es, |es|);
      }
    } else {
      var id :| id in trace[i].writers && Threatens(trace[i].writers[id]);
      var later, es := ThreatMoves(trace[i], id);
      assert Quiet(later, es) && later[0] == trace[i] && !later[|es|].row.current.Deprovisioned?;
    }
  }

  // A teardown that is about to write, among marking runs and such teardowns as do not find a run in
  // flight, is alone: every run begun before it is over, rejected, or waiting for the lock.
  lemma TeardownIsAlone(s: State, d: Id)
    requires Excluding(s) && d in s.writers && s.writers[d] == Deprovision(DepWrite)
    ensures forall id | id in s.writers :: !Threatens(s.writers[id])
  {
    assert s.lock == Some(d) && Admitted(s.writers[d]);
  }

  // Among marking runs, the activator, the idle scaler and deprovisions that do not find the tenant
  // upgrading or provisioning, a completed deprovision is overwritten by no run begun before it: the
  // tenant stays deprovisioned until a waiting run gets the lock.
  lemma {:induction false} DeprovisionUndisturbed(trace: seq<State>, events: seq<Event>, j: nat, k: nat)
    requires Runs(trace, events) && forall m | 0 <= m < |events| :: Marks(trace[m], events[m])
    requires j < k < |trace| && events[j].Go? && (events[j].ok || events[j].applied)
    requires events[j].id in trace[j].writers && trace[j].writers[events[j].id] == Deprovision(DepWrite)
    requires forall m | j < m < k :: !Admits(trace[m], events[m])
    ensures Unthreatened(trace[k])
  {
    if k > j + 1 {
      hide Step, Enabled, Admits, Unthreatened, Marks;
      DeprovisionUndisturbed(trace, events, j, k - 1);
      StaysUnthreatened(trace[k - 1], events[k - 1]);
    } else {
      ProvisionsExclude(trace, events, j);
      TeardownIsAlone(trace[j], events[j].id);
      hide Excluding, Threatens, Marks;
      assert !Threatens(Deprovision(DepOver)) by { OverIsHarmless(); }
    }
  }

  lemma OverIsHarmless()
    ensures !Threatens(Deprovision(DepOver))
  {
  }

  // ------------------------------------------------------------------------------------------
  // What the marks do not cover.

  // The given writer's next n statements, all successful; a statement it cannot make is not made.
  function Advance(s: State, id: Id, n: nat): State {
    if n == 0 then s
    else
      var t := Advance(s, id, n - 1);
      if Enabled(t, Go(id, true, false)) then Step(t, Go(id, true, false)) else t
  }

  function At(s: State, row: Row, lock: Option<Id>, id: Id, w: Writer): State {
    State(row, lock, s.writers[id := w])
  }

  lemma AdvanceOne(s: State, id: Id, n: nat, row: Row, lock: Option<Id>, w: Writer)
    requires n > 0 && Advance(s, id, n - 1) == At(s, row, lock, id, w) && (Taking(w) ==> lock.None?)
    ensures var (after, now) := Moved(w, row, true, false);
      var next := if HoldsLock(now) then Some(id) else if HoldsLock(w) then None else lock;
      Advance(s, id, n) == At(s, after, next, id, now)
  {
    hide Moved, HoldsLock;
    var t := Advance(s, id, n - 1);
    assert t.writers[id] == w;
    var (after, now) := Moved(w, row, true, false);
    assert t.writers[id := now] == s.writers[id := now];
  }

  // Outside the lock, or inside it.
  predicate Locked(pc: ProvisionPc) {
    HoldsLock(Provision(None, pc))
  }

  lemma RunOne(s: State, id: Id, n: nat, row: Row, version: Option<string>, pc: ProvisionPc)
    requires n > 0 && Advance(s, id, n - 1) ==
      At(s, row, if Locked(pc) then Some(id) else None, id, Provision(version, pc))
    ensures var t := ProvisionTurn(version, pc, row, true, false);
      Advance(s, id, n) == At(s, t.row, if Locked(t.pc) then Some(id) else None, id, Provision(version, t.pc))
  {
    hide ProvisionTurn, Advance, At;
    AdvanceOne(s, id, n, row, if Locked(pc) then Some(id) else None, Provision(version, pc));
  }

  lemma AdvanceNone(s: State, id: Id)
    requires id in s.writers
    ensures Advance(s, id, 0) == At(s, s.row, s.lock, id, s.writers[id])
  {
    assert s.writers[id := s.writers[id]] == s.writers;
  }

  // How many statements a run takes to phase 2, and what it leaves in the row.
  function PhaseOne(version: Option<string>, row: Row): nat {
    if Differs(version, row) then 9 else 8
  }

  function AfterPhaseOne(version: Option<string>, row: Row): Row {
    var mark := MarkFor(Differs(version, row), row);
    row.(version := if Differs(version, row) then version.value else row.version,
         current := if mark.Some? then mark.value else row.current,
         desired := Ready, subdomain := true, stored := true)
  }

  lemma DesiringToRolling(s: State, id: Id, n: nat, row: Row, version: Option<string>, mark: Option<TState>)
    requires Advance(s, id, n) == At(s, row, Some(id), id, Provision(version, Desiring(mark)))
    ensures var current := if mark.Some? then mark.value else row.current;
      var rolling := row.(desired := Ready, current := current, subdomain := true, stored := true);
      Advance(s, id, n + 5) == At(s, rolling, None, id, Provision(version, Rolling))
  {
    hide Advance, At;
    var ready := row.(desired := Ready);
    var marked := ready.(current := if mark.Some? then mark.value else row.current);
    RunOne(s, id, n + 1, row, version, Desiring(mark));
    RunOne(s, id, n + 2, ready, version, Marking(mark));
    ReservingToRolling(s, id, n + 2, marked, version);
  }

  lemma ReservingToRolling(s: State, id: Id, n: nat, row: Row, version: Option<string>)
    requires Advance(s, id, n) == At(s, row, Some(id), id, Provision(version, Reserving))
    ensures Advance(s, id, n + 3) ==
      At(s, row.(subdomain := true, stored := true), None, id, Provision(version, Rolling))
  {
    hide Advance, At;
    RunOne(s, id, n + 1, row, version, Reserving);
    RunOne(s, id, n + 2, row.(subdomain := true), version, Applying);
    RunOne(s, id, n + 3, row.(subdomain := true, stored := true), version, Unlocking);
  }

  lemma ToRolling(s: State, id: Id, version: Option<string>)
    requires id in s.writers && s.writers[id] == Provision(version, Waiting) && s.lock.None? && !Refused(version, s.row)
    ensures Advance(s, id, PhaseOne(version, s.row))
         == At(s, AfterPhaseOne(version, s.row), None, id, Provision(version, Rolling))
  {
    hide Advance, At, Refused;
    AdvanceNone(s, id);
    RunOne(s, id, 1, s.row, version, Waiting);
    RunOne(s, id, 2, s.row, version, Reading);
    if Differs(version, s.row) {
      var newer := s.row.(version := version.value);
      RunOne(s, id, 3, s.row, version, Versioning);
      RunOne(s, id, 4, newer, version, Refreshing(true));
      DesiringToRolling(s, id, 4, newer, version, MarkFor(true, newer));
    } else {
      RunOne(s, id, 3, s.row, version, Refreshing(false));
      DesiringToRolling(s, id, 3, s.row, version, MarkFor(false, s.row));
    }
  }

  lemma RollingToReady(s: State, id: Id, version: Option<string>)
    requires id in s.writers && s.writers[id] == Provision(version, Rolling) && s.lock.None?
    ensures Advance(s, id, 4) == At(s, s.row.(current := Ready), None, id, Provision(version, Over))
    ensures s.row.current == Ready ==> Advance(s, id, 3) == Advance(s, id, 4)
  {
    hide Advance, At;
    AdvanceNone(s, id);
    RunOne(s, id, 1, s.row, version, Rolling);
    RunOne(s, id, 2, s.row, version, ReadyLock);
    RunOne(s, id, 3, s.row, version, ReadyRead);
    RunOne(s, id, 4, s.row, version, if s.row.current.Ready? then Over else ReadyWrite);
  }

  lemma FailingToFailed(s: State, id: Id, version: Option<string>)
    requires id in s.writers && s.writers[id] == Provision(version, FailLock) && s.lock.None?
    ensures Advance(s, id, if s.row.current == Failed then 2 else 3)
         == At(s, s.row.(current := Failed), None, id, Provision(version, Over))
  {
    hide Advance, At;
    AdvanceNone(s, id);
    RunOne(s, id, 1, s.row, version, FailLock);
    RunOne(s, id, 2, s.row, version, FailRead);
    if !s.row.current.Failed? {
      RunOne(s, id, 3, s.row, version, FailWrite);
    }
  }

  // When the guards turn a run away, by the state, the subdomain and the versions alone.
  lemma RejectedExactly(version: Option<string>, row: Row)
    ensures var t := ProvisionTurn(version, Reading, row, true, false);
      && t.row == row
      && (t.pc == Rejected <==>
            || row.current == Upgrading
            || (row.current == Provisioning && row.subdomain)
            || (version.Some? && version.value != row.version
                && row.current != Ready && row.current != Deprovisioned && row.current != Failed)
            || (version.Some? && version.value == row.version
                && (row.current == Ready || row.current == Maintenance || row.current == Restoring)))
  {
  }

  // What a run that is admitted and meets no failure makes of the row up to phase 2: the version asked for,
  // and upgrading exactly for a ready tenant with a subdomain that gets another version; else provisioning
  // for one without a subdomain, or deprovisioned or failed; else the state it found.
  lemma PhaseOneExactly(s: State, id: Id, version: Option<string>)
    requires id in s.writers && s.writers[id] == Provision(version, Waiting) && s.lock.None?
    requires ProvisionTurn(version, Reading, s.row, true, false).pc != Rejected
    ensures var another := version.Some? && version.value != s.row.version;
      var after := Advance(s, id, if another then 9 else 8);
      && after.lock.None? && after.writers == s.writers[id := Provision(version, Rolling)]
      && after.row.version == (if version.Some? then version.value else s.row.version)
      && after.row.desired == Ready && after.row.subdomain && after.row.stored && after.row.seen == s.row.seen
      && after.row.current ==
           (if another && s.row.current == Ready && s.row.subdomain then Upgrading
            else if !s.row.subdomain || s.row.current == Deprovisioned || s.row.current == Failed then Provisioning
            else s.row.current)
  {
    hide Advance;
    ToRolling(s, id, version);
  }

  lemma {:induction false} ToRejected(s: State, id: Id, version: Option<string>, n: nat)
    requires id in s.writers && s.writers[id] == Provision(version, Waiting) && s.lock.None? && Refused(version, s.row)
    requires n >= 2
    ensures Advance(s, id, n) == At(s, s.row, None, id, Provision(version, Rejected))
  {
    hide Advance, At, Refused;
    if n == 2 {
      AdvanceNone(s, id);
      RunOne(s, id, 1, s.row, version, Waiting);
      RunOne(s, id, 2, s.row, version, Reading);
    } else {
      ToRejected(s, id, version, n - 1);
      RunOne(s, id, n, s.row, version, Rejected);
    }
  }

  // A run that the guards admit keeps every later one out until it ends if and only if it marks the
  // state, which the row and the request decide beforehand. Beside a run that marks nothing, every run
  // that the guards would have admitted before it is admitted still.
  lemma ExclusionExactly(s: State, a: Id, b: Id, first: Option<string>, second: Option<string>)
    requires a in s.writers && b in s.writers && a != b && s.lock.None?
    requires s.writers[a] == Provision(first, Waiting) && s.writers[b] == Provision(second, Waiting)
    requires !Refused(first, s.row)
    ensures var one := Advance(s, a, PhaseOne(first, s.row));
      var two := Advance(one, b, PhaseOne(second, one.row));
      && a in two.writers && two.writers[a] == Provision(first, Rolling) && b in two.writers
      && (InFlight(two.writers[b]) <==> MarkFor(Differs(first, s.row), s.row).None? && !Refused(second, s.row))
      && (!InFlight(two.writers[b]) ==> two.writers[b] == Provision(second, Rejected))
  {
    hide Advance;
    ToRolling(s, a, first);
    var one := Advance(s, a, PhaseOne(first, s.row));
    MarkedRefuses(first, second, s.row);
    if Refused(second, one.row) {
      ToRejected(one, b, second, PhaseOne(second, one.row));
    } else {
      ToRolling(one, b, second);
    }
  }

  lemma MarkedRefuses(first: Option<string>, second: Option<string>, row: Row)
    requires !Refused(first, row)
    ensures Refused(second, AfterPhaseOne(first, row))
       <==> MarkFor(Differs(first, row), row).Some? || Refused(second, row)
  {
  }

  // What may happen at any moment: each kind of writer may begin, any writer may fail, and one that waits for
  // the lock gets it only while nobody has it.
  lemma EnabledExactly(s: State, id: Id, applied: bool)
    ensures id in s.writers ==> Enabled(s, Go(id, false, applied))
    ensures id in s.writers ==>
      (Enabled(s, Go(id, true, applied)) <==>
         s.lock.None?
         || !((exists version, pc :: s.writers[id] == Provision(version, pc) && pc in {Waiting, ReadyLock, FailLock})
              || s.writers[id] == Deprovision(DepWaiting)))
    ensures id !in s.writers ==> forall w :: Enabled(s, Begin(id, w)) <==>
      || (exists version :: w == Provision(version, Waiting)) || w == Deprovision(DepWaiting)
      || (exists target :: w == Patch(target, PatchGate)) || w == Restore(RestoreRead)
      || w == Idle(IdleQuery) || w == Idle(WakeQuery)
  {
    if id in s.writers && s.writers[id].Provision? {
      assert s.writers[id] == Provision(s.writers[id].version, s.writers[id].pc);
    }
    forall w: Writer
      ensures Fresh(w) <==>
        || (exists version :: w == Provision(version, Waiting)) || w == Deprovision(DepWaiting)
        || (exists target :: w == Patch(target, PatchGate)) || w == Restore(RestoreRead)
        || w == Idle(IdleQuery) || w == Idle(WakeQuery)
    {
      if w.Provision? {
        assert w == Provision(w.version, w.pc);
      }
      if w.Patch? {
        assert w == Patch(w.target, w.ppc);
      }
    }
  }

  // A request through the activator marks the tenant as seen, the operator's other change sets the desired
  // state, a new writer only begins, and a tenant is created provisioning, with nothing else.
  lemma EventsExactly(s: State, id: Id, w: Writer, target: TState, version: string)
    requires Enabled(s, Begin(id, w))
    ensures Step(s, Begin(id, w)) == State(s.row, s.lock, s.writers[id := w])
    ensures var r := s.row;
      && Step(s, Activity) == State(Row(r.current, r.desired, r.subdomain, r.version, r.stored, true), s.lock,
        s.writers)
      && Step(s, Desire(target))
           == State(Row(r.current, target, r.subdomain, r.version, r.stored, r.seen), s.lock, s.writers)
    ensures var t := Created(version);
      && t.row.current == Provisioning && t.row.desired == Provisioning && t.row.version == version
      && !t.row.subdomain && !t.row.stored && !t.row.seen && t.lock.None? && t.writers == map[]
  {
  }

  // What a failed statement of a run leads to: between the write of the desired state and the unlock the run
  // recovers, a workload that does not come up is reported, and anywhere else the run just ends. A statement
  // that fails leaves the row alone, or as its success would.
  lemma FailedStatement(version: Option<string>, pc: ProvisionPc, row: Row, applied: bool)
    ensures var t := ProvisionTurn(version, pc, row, false, applied);
      && (t.pc == Recovering <==> (exists mark :: pc == Desiring(mark) || (pc == Marking(mark) && mark != None))
                                  || pc == Reserving || pc == Applying)
      && (t.pc == FailLock <==> pc == Rolling)
      && (t.pc == Reserving <==> pc == Marking(None))
      && (t.pc == Rejected <==> pc == Rejected)
      && (t.pc in {Recovering, FailLock, Reserving, Rejected, Over})
      && (!applied ==> t.row == row)
      && (applied && t.pc != Rejected && pc != Over ==> t.row == ProvisionTurn(version, pc, row, true, false).row)
  {
  }

  // The catch block of phase 1, undisturbed, leaves failed.
  lemma RecoveringToFailed(s: State, id: Id, version: Option<string>)
    requires id in s.writers && s.writers[id] == Provision(version, Recovering) && s.lock == Some(id)
    ensures Advance(s, id, if s.row.current == Failed then 1 else 2)
         == At(s, s.row.(current := Failed), None, id, Provision(version, Over))
  {
    hide Advance, At;
    AdvanceNone(s, id);
    RunOne(s, id, 1, s.row, version, Recovering);
    if !s.row.current.Failed? {
      RunOne(s, id, 2, s.row, version, RecoverWrite);
    }
  }

  // With a run that marked nothing in flight, each of two runs overwrites the verdict of the other: the
  // second one's ready becomes failed, and its mark becomes ready while it still waits.
  lemma UnmarkedRunOverwrites(s: State, a: Id, b: Id, first: Option<string>, second: Option<string>)
    requires a in s.writers && b in s.writers && a != b && s.lock.None?
    requires s.writers[a] == Provision(first, Waiting) && s.writers[b] == Provision(second, Waiting)
    requires !Refused(first, s.row) && MarkFor(Differs(first, s.row), s.row).None? && !Refused(second, s.row)
    ensures var one := Advance(s, a, PhaseOne(first, s.row));
      var two := Advance(one, b, PhaseOne(second, one.row));
      var waiting, reported := Advance(two, a, 4), Advance(two, b, 4);
      && b in waiting.writers && waiting.writers[b] == Provision(second, Rolling) && waiting.row.current.Ready?
      && b in reported.writers && reported.writers[b] == Provision(second, Over) && reported.row.current.Ready?
      && Enabled(reported, Go(a, false, false))
      && Advance(Step(reported, Go(a, false, false)), a, 3).row.current.Failed?
  {
    hide Advance;
    ToRolling(s, a, first);
    var one := Advance(s, a, PhaseOne(first, s.row));
    MarkedRefuses(first, second, s.row);
    ToRolling(one, b, second);
    var two := Advance(one, b, PhaseOne(second, one.row));
    RollingToReady(two, a, first);
    RollingToReady(two, b, second);
    FailingToFailed(Step(Advance(two, b, 4), Go(a, false, false)), a, first);
  }

  lemma DeprovisionCompletes(s: State, id: Id)
    requires id in s.writers && s.writers[id] == Deprovision(DepWaiting) && s.lock.None?
      && !s.row.current.Deprovisioned?
    ensures Advance(s, id, 5)
         == At(s, s.row.(stored := false, desired := Deprovisioned, current := Deprovisioned), None, id,
               Deprovision(DepOver))
  {
    var bare := s.row.(stored := false);
    hide Advance, At;
    AdvanceNone(s, id);
    AdvanceOne(s, id, 1, s.row, None, Deprovision(DepWaiting));
    AdvanceOne(s, id, 2, s.row, Some(id), Deprovision(DepRead));
    AdvanceOne(s, id, 3, s.row, Some(id), Deprovision(DepDelete));
    AdvanceOne(s, id, 4, bare, Some(id), Deprovision(DepDesire));
    AdvanceOne(s, id, 5, bare.(desired := Deprovisioned), Some(id), Deprovision(DepWrite));
  }

  // A deprovision that completes while a run waits for the workload is overwritten by that run:
  // with failed when the wait then fails, and with ready when it does not.
  lemma DeprovisionOverwritten(s: State, run: Id, teardown: Id)
    requires run in s.writers && teardown in s.writers && run != teardown && s.lock.None?
    requires s.writers[run].Provision? && s.writers[run].pc.Rolling? && s.writers[teardown] == Deprovision(DepWaiting)
    requires !s.row.current.Deprovisioned?
    ensures var gone := Advance(s, teardown, 5);
      && gone.row.current.Deprovisioned? && gone.row.desired.Deprovisioned? && !gone.row.stored
      && run in gone.writers && Enabled(gone, Go(run, false, false))
      && Advance(gone, run, 4).row == gone.row.(current := Ready)
      && Advance(Step(gone, Go(run, false, false)), run, 3).row == gone.row.(current := Failed)
  {
    hide Advance;
    DeprovisionCompletes(s, teardown);
    var gone := Advance(s, teardown, 5);
    RollingToReady(gone, run, s.writers[run].version);
    FailingToFailed(Step(gone, Go(run, false, false)), run, s.writers[run].version);
  }

  // A teardown that fails anywhere ends there, with what its statements did so far.
  lemma FailedTeardown(pc: DeprovisionPc, row: Row, applied: bool)
    ensures var t := DeprovisionTurn(pc, row, false, applied);
      t.pc == DepOver && t.row == if applied then DeprovisionTurn(pc, row, true, false).row else row
  {
  }

  // A teardown that finds the tenant deprovisioned does nothing.
  lemma NothingToTearDown(s: State, id: Id)
    requires id in s.writers && s.writers[id] == Deprovision(DepWaiting) && s.lock.None? && s.row.current.Deprovisioned?
    ensures Advance(s, id, 2) == At(s, s.row, None, id, Deprovision(DepOver))
  {
    hide Advance, At;
    AdvanceNone(s, id);
    AdvanceOne(s, id, 1, s.row, None, Deprovision(DepWaiting));
    AdvanceOne(s, id, 2, s.row, Some(id), Deprovision(DepRead));
  }

  // The operator's change goes through unless it would put to sleep a tenant that the activator has not seen.
  lemma PatchExactly(s: State, id: Id, target: TState)
    requires id in s.writers && s.writers[id] == Patch(target, PatchGate)
    ensures var allowed := target != Sleeping || s.row.seen;
      Advance(s, id, 2)
        == At(s, if allowed then s.row.(current := target) else s.row, s.lock, id, Patch(target, PatchOver))
  {
    hide Advance, At;
    AdvanceNone(s, id);
    AdvanceOne(s, id, 1, s.row, s.lock, Patch(target, PatchGate));
    AdvanceOne(s, id, 2, s.row, s.lock,
      Patch(target, if target != Sleeping || s.row.seen then PatchWrite else PatchOver));
  }

  // A change that fails changes nothing, or what its success would.
  lemma FailedPatch(target: TState, pc: PatchPc, row: Row, applied: bool)
    ensures var t := PatchTurn(target, pc, row, false, applied);
      t.pc == PatchOver && t.row == if pc == PatchWrite && applied then row.(current := target) else row
  {
  }

  // Of the idle tenants the scaler puts exactly the ready ones to sleep that the activator has seen and nobody is
  // tearing down, and it wakes exactly the sleeping ones that nobody is tearing down; so does the activator.
  lemma ScalersExactly(s: State, id: Id)
    requires id in s.writers
    ensures var kept := s.row.desired != Deprovisioned && s.row.desired != Failed;
      && (s.writers[id] == Idle(IdleQuery) ==>
            Advance(s, id, 2).row == if s.row.current == Ready && s.row.seen && kept then s.row.(current := Sleeping)
                                     else s.row)
      && (s.writers[id] == Idle(WakeQuery) ==>
            Advance(s, id, 2).row == if s.row.current == Sleeping && kept then s.row.(current := Ready) else s.row)
      && Step(s, Woken).row == if s.row.current == Sleeping && kept then s.row.(current := Ready) else s.row
  {
    hide Advance;
    AdvanceNone(s, id);
    if s.writers[id] == Idle(IdleQuery) {
      AdvanceOne(s, id, 1, s.row, s.lock, Idle(IdleQuery));
      AdvanceOne(s, id, 2, s.row, s.lock, Moved(Idle(IdleQuery), s.row, true, false).1);
    }
    if s.writers[id] == Idle(WakeQuery) {
      AdvanceOne(s, id, 1, s.row, s.lock, Idle(WakeQuery));
      AdvanceOne(s, id, 2, s.row, s.lock, Moved(Idle(WakeQuery), s.row, true, false).1);
    }
  }

  // Each query selects exactly those, and its update checks the state again: what has changed since stays as it
  // is, and an update that fails without effect changes nothing.
  lemma GuardedUpdates(row: Row, ok: bool, applied: bool)
    ensures IdleTurn(IdleUpdate, row, ok, applied).row
         == if (ok || applied) && row.current == Ready then row.(current := Sleeping) else row
    ensures IdleTurn(WakeUpdate, row, ok, applied).row
         == if (ok || applied) && row.current == Sleeping then row.(current := Ready) else row
    ensures var kept := row.desired != Deprovisioned && row.desired != Failed;
      && (IdleTurn(IdleQuery, row, ok, applied).pc == IdleUpdate <==> ok && row.current == Ready && row.seen && kept)
      && (IdleTurn(WakeQuery, row, ok, applied).pc == WakeUpdate <==> ok && row.current == Sleeping && kept)
  {
  }

  // What an undisturbed restore has made of the row it began with.
  ghost predicate RestoredSoFar(was: Row, pc: RestorePc, row: Row) {
    match pc
    case RestoreRead => row == was
    case RestoreMark(previous) => row == was && Restorable(was) && previous == was.current
    case RestoreRun(previous) => row == was.(current := Restoring) && Restorable(was) && previous == was.current
    case RestoreBack(previous) => row == was.(current := Restoring) && Restorable(was) && previous == was.current
    case RestoreLog(previous) => row == was && Restorable(was) && previous == was.current
    case RestoreUndo(previous) =>
      (row == was || row == was.(current := Restoring)) && Restorable(was) && previous == was.current
    case RestoreOver => row == was || (row == was.(current := Restoring) && Restorable(was))
  }

  predicate Restorable(row: Row) {
    row.stored && (row.current == Ready || row.current == Maintenance)
  }

  // An undisturbed restore runs exactly when the tenant is ready or in maintenance and has storage, and puts
  // back the row it found wherever it fails, unless putting it back fails too: then restoring stays. It ends
  // with every statement that fails but those that put back.
  lemma RestoreExactly(was: Row, pc: RestorePc, row: Row, ok: bool, applied: bool)
    requires RestoredSoFar(was, pc, row)
    ensures var t := RestoreTurn(pc, row, ok, applied);
      && RestoredSoFar(was, t.pc, t.row)
      && (pc == RestoreRead ==> (t.pc.RestoreMark? <==> ok && Restorable(was)))
      && (pc.RestoreUndo? && (ok || applied) ==> t.pc == RestoreOver && t.row == was)
      && (pc.RestoreUndo? && !ok && !applied ==> t.pc == RestoreOver && t.row == row)
      && (!ok && (pc.RestoreMark? || pc.RestoreRun? || pc.RestoreBack? || pc.RestoreLog?) ==>
            t.pc == RestoreUndo(was.current))
      && (!ok && pc.RestoreMark? ==> t.row == if applied then was.(current := Restoring) else was)
      && (!ok && pc.RestoreBack? ==> t.row == if applied then was else row)
      && (ok && (pc.RestoreMark? || pc.RestoreRun? || pc.RestoreBack?) ==> !t.pc.RestoreUndo? && t.pc != RestoreOver)
      && (ok && pc.RestoreLog? ==> t.pc == RestoreOver && t.row == was)
  {
  }

  // A restore takes no lock either: once it runs it puts the state it read back over any other.
  lemma RestorePutsBack(s: State, id: Id, previous: TState)
    requires id in s.writers && s.writers[id] == Restore(RestoreRun(previous))
    ensures Advance(s, id, 3) == At(s, s.row.(current := previous), s.lock, id, Restore(RestoreOver))
  {
    hide Advance, At;
    var back := s.row.(current := previous);
    AdvanceNone(s, id);
    AdvanceOne(s, id, 1, s.row, s.lock, Restore(RestoreRun(previous)));
    AdvanceOne(s, id, 2, s.row, s.lock, Restore(RestoreBack(previous)));
    AdvanceOne(s, id, 3, back, s.lock, Restore(RestoreLog(previous)));
  }
}
