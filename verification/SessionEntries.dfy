/**
 The state of one managed session and the critical sections that run under its state lock.

 Every `...Section` function is one critical section of the session manager: it maps the
 entry found when the lock is taken to the entry left when the lock is dropped, together with
 what the calling thread must do next.  Class `SessionEntry` is the mutable object the source
 keeps behind the lock; its methods follow the source branch by branch and are proved to
 compute those functions, to be `Lawful`, and to decide what later sections will find.
 */
module SessionEntries {
  import opened Common

  /** Who must run `cleanup_entry` once a termination has been elected. */
  datatype Owner = Initializer | ActionWorker | UpdateWorker | Requester

  /** The part of the stop response that depends on how the session ended. */
  datatype Response = Response(artifacts: bool)

  datatype State =
    | Initializing(started: bool)
    | Ready(lastActivity: nat)
    | Action(actionId: nat, cancelled: bool)
    | Updating(updateId: nat, cancelled: bool)
    | Terminating(explicit: bool, owner: Owner)
    | Terminated(response: Response)
  {
    predicate Live() {
      !Terminating? && !Terminated?
    }
  }

  /** The cached result of the most recent successful source update. */
  datatype Success = Success(requestId: nat, digest: nat, base: nat)

  datatype Entry = Entry(
    state: State,
    deadline: nat,
    initCancelled: bool,
    revision: nat,
    last: Option<Success>)

  /** The thread that already works for a live session and so inherits its cleanup. */
  function OwnerFor(state: State): Owner
    requires state.Live()
  {
    match state
    case Initializing(started) => if started then Initializer else Requester
    case Ready(_) => Requester
    case Action(_, _) => ActionWorker
    case Updating(_, _) => UpdateWorker
  }

  /** Elect a termination; whoever is not an action or update worker is told through the flag. */
  function Elected(e: Entry, explicit: bool, owner: Owner): Entry {
    e.(state := Terminating(explicit, owner))
  }

  function WithInitCancelled(e: Entry): Entry {
    e.(initCancelled := true)
  }

  /** Stop and lifetime expiry preempt every live state in the same way. */
  function Preempted(e: Entry, explicit: bool): Entry
    requires e.state.Live()
  {
    var elected := Elected(e, explicit, OwnerFor(e.state));
    if e.state.Initializing? || e.state.Ready? then WithInitCancelled(elected) else elected
  }

  datatype BeginVerdict = Started | BeginCleanup | BeginNothing

  function BeginSection(e: Entry, now: nat): (Entry, BeginVerdict) {
    if e.state != Initializing(false) then (e, BeginNothing)
    else if !e.initCancelled && now < e.deadline then (e.(state := Initializing(true)), Started)
    else (WithInitCancelled(Elected(e, false, Requester)), BeginCleanup)
  }

  /** The flag says whether the caller must clean up. */
  function CancelUploadSection(e: Entry): (Entry, bool) {
    if e.state == Initializing(false) then (WithInitCancelled(Elected(e, false, Requester)), true)
    else (e, false)
  }

  predicate CanCommit(e: Entry, now: nat) {
    e.state.Initializing? && !e.initCancelled && now < e.deadline
  }

  /** Give up initialization: elect the initializer unless somebody was faster. */
  function AbandonSection(e: Entry): Entry {
    if e.state.Initializing? then Elected(e, false, Initializer) else e
  }

  /** The check before the durable commit; the flag says whether to go on. */
  function CommitCheckSection(e: Entry, now: nat): (Entry, bool) {
    if CanCommit(e, now) then (e, true) else (AbandonSection(e), false)
  }

  /** The `Initializing` to `Ready` election after the durable commit. */
  function CommitElectionSection(e: Entry, now: nat): (Entry, bool) {
    if CanCommit(e, now) then (e.(state := Ready(now)), true) else (AbandonSection(e), false)
  }

  /** The result carries the explicit flag that the cleanup must use, if one must run. */
  function InitializerCleanupSection(e: Entry, defaultExplicit: bool): (Entry, Option<bool>) {
    if e.state.Initializing? then (Elected(e, defaultExplicit, Initializer), Some(defaultExplicit))
    else if e.state.Terminating? && e.state.owner == Initializer then (e, Some(e.state.explicit))
    else (e, None)
  }

  function ServiceFailedSection(e: Entry): (Entry, bool) {
    if !e.state.Live() then (e, false)
    else if e.state.Initializing? then (WithInitCancelled(Elected(e, false, Initializer)), false)
    else (Elected(e, false, OwnerFor(e.state)), e.state.Ready?)
  }

  function DisconnectSection(e: Entry): (Entry, bool) {
    if e.state.Initializing? then (Preempted(e, false), !e.state.started) else (e, false)
  }

  datatype Admission =
    | Admitted
    | Retried(success: Success)
    | UpdateNotFound
    | OperationConflict
    | RevisionConflict(current: nat)
    | RequestConflict

  function StartUpdateSection(e: Entry, updateId: nat, requestId: nat, digest: nat, base: nat, now: nat)
    : (Entry, Admission)
  {
    if e.state.Ready? && now < e.deadline then
      if e.last.Some? && e.last.value.requestId == requestId then
        (e, if e.last.value.digest == digest then Retried(e.last.value) else RequestConflict)
      else if e.revision != base then (e, RevisionConflict(e.revision))
      else (e.(state := Updating(updateId, false)), Admitted)
    else if e.state.Ready? || !e.state.Live() then (e, UpdateNotFound)
    else (e, OperationConflict)
  }

  datatype CloseVerdict = Committed | CloseCleanup(explicit: bool) | LostOwnership

  /** Close an update whose transaction succeeded. */
  function CloseUpdateSection(e: Entry, updateId: nat, success: Success, now: nat): (Entry, CloseVerdict) {
    match e.state
    case Updating(active, cancelled) =>
      if active == updateId && !cancelled && now < e.deadline then
        (e.(state := Ready(now), revision := success.base + 1, last := Some(success)), Committed)
      else (Elected(e, false, UpdateWorker), CloseCleanup(false))
    case Terminating(explicit, owner) =>
      (e, if owner == UpdateWorker then CloseCleanup(explicit) else LostOwnership)
    case _ => (e, LostOwnership)
  }

  /** Close an update whose transaction failed. */
  function FailUpdateSection(e: Entry, updateId: nat, rollbackProven: bool, now: nat): (Entry, Option<bool>) {
    match e.state
    case Terminating(explicit, owner) => (e, if owner == UpdateWorker then Some(explicit) else None)
    case Updating(active, _) =>
      if active != updateId then (e, None)
      else if rollbackProven then (e.(state := Ready(now)), None)
      else (Elected(e, false, UpdateWorker), Some(false))
    case _ => (e, None)
  }

  function UpdatePanickedSection(e: Entry): (Entry, Option<bool>) {
    match e.state
    case Updating(_, _) => (Elected(e, false, Requester), Some(false))
    case Terminating(explicit, owner) => (e, if owner == UpdateWorker then Some(explicit) else None)
    case _ => (e, None)
  }

  datatype ActionAdmission = ActionAdmitted | ActionNotFound | ActionConflict

  function StartActionSection(e: Entry, actionId: nat, now: nat): (Entry, ActionAdmission) {
    if e.state.Ready? && now < e.deadline then (e.(state := Action(actionId, false)), ActionAdmitted)
    else if e.state.Ready? || !e.state.Live() then (e, ActionNotFound)
    else (e, ActionConflict)
  }

  predicate CanPublish(e: Entry, actionId: nat, now: nat) {
    e.state == Action(actionId, false) && now < e.deadline
  }

  /** Note that the terminating arm looks at the owner only, not at the action. */
  function FinishActionSection(e: Entry, actionId: nat, reusable: bool, now: nat): (Entry, Option<bool>) {
    match e.state
    case Action(active, _) =>
      if active != actionId then (e, None)
      else if reusable then (e.(state := Ready(now)), None)
      else (Elected(e, false, ActionWorker), Some(false))
    case Terminating(explicit, owner) => (e, if owner == ActionWorker then Some(explicit) else None)
    case _ => (e, None)
  }

  /** The delivery acknowledgement sent by the response stream. */
  function AcknowledgeSection(e: Entry, actionId: nat, now: nat): (Entry, bool) {
    if CanPublish(e, actionId, now) then (e.(state := Ready(now)), true)
    else if e.state.Action? && e.state.actionId == actionId then (Elected(e, false, ActionWorker), false)
    else (e, false)
  }

  function DisconnectActionSection(e: Entry, actionId: nat): Entry {
    if e.state.Action? && e.state.actionId == actionId then Elected(e, false, ActionWorker) else e
  }

  datatype StopVerdict = StopWaits | StopCleans | StopConflict

  function StopSection(e: Entry): (Entry, StopVerdict) {
    if !e.state.Live() then (e, StopConflict)
    else (Preempted(e, true), if OwnerFor(e.state) == Requester then StopCleans else StopWaits)
  }

  function ExpireLifetimeSection(e: Entry): (Entry, bool) {
    if !e.state.Live() then (e, false)
    else (Preempted(e, false), OwnerFor(e.state) == Requester)
  }

  function ExpireIdleSection(e: Entry, idle: nat, now: nat): (Entry, bool) {
    if e.state.Ready? && now - e.state.lastActivity >= idle then (Elected(e, false, Requester), true)
    else (e, false)
  }

  // -------------------------------------------------------------------- laws

  /** Who is to clean up: whoever works for a live session, then whoever was elected. */
  function Duty(state: State): Option<Owner> {
    if state.Live() then Some(OwnerFor(state))
    else if state.Terminating? then Some(state.owner)
    else None
  }

  /**
   What every section called by `caller` must observe.  An election is final; it leaves the
   cleanup with whoever had the duty; and the caller is told to clean up, with the elected flag,
   exactly when the session is terminating and the duty is its own.  A requester has it only
   where it made the election itself.
   */
  predicate Lawful(e: Entry, e': Entry, caller: Owner, cleanup: Option<bool>) {
    && e'.deadline == e.deadline && (e.initCancelled ==> e'.initCancelled)
    && (!e.state.Live() ==> e'.state == e.state)
    && (!e'.state.Live() ==> Duty(e'.state) == Duty(e.state))
    && (cleanup.Some? <==>
          e'.state.Terminating? && Duty(e.state) == Some(caller) && (caller == Requester ==> e.state.Live()))
    && (cleanup.Some? ==> cleanup.value == e'.state.explicit)
  }

  predicate SameRevision(e: Entry, e': Entry) {
    e'.revision == e.revision && e'.last == e.last
  }

  /** Whether an initializer thread has been started, if this state still knows about one. */
  predicate PastUpload(e: Entry) {
    e.state != Initializing(false)
  }

  function Demand(cleanup: bool, explicit: bool): Option<bool> {
    if cleanup then Some(explicit) else None
  }

  /** The upload has been dealt with: it cannot start an initializer any more. */
  ghost predicate UploadClosed(e: Entry) {
    forall now :: BeginSection(e, now) == (e, BeginNothing)
  }

  /** The initializer cannot make this session Ready any more. */
  ghost predicate CommitClosed(e: Entry) {
    forall now :: !CommitElectionSection(e, now).1
  }

  /** No other operation is admitted. */
  ghost predicate Busy(e: Entry) {
    && (forall id, now :: StartActionSection(e, id, now) == (e, ActionConflict))
    && (forall id, requestId, digest, base, now ::
          StartUpdateSection(e, id, requestId, digest, base, now) == (e, OperationConflict))
  }

  /** Nothing is admitted, whoever asks. */
  ghost predicate Closed(e: Entry) {
    && (forall id, now :: StartActionSection(e, id, now) == (e, ActionNotFound))
    && (forall id, requestId, digest, base, now ::
          StartUpdateSection(e, id, requestId, digest, base, now) == (e, UpdateNotFound))
  }

  /** The lock-protected object itself. */
  class SessionEntry {
    var state: State
    const deadline: nat
    var initCancelled: bool
    var revision: nat
    var last: Option<Success>

    constructor (deadline: nat)
      ensures Snapshot() == Entry(Initializing(false), deadline, false, 0, None)
    {
      this.deadline := deadline;
      state, initCancelled, revision, last := Initializing(false), false, 0, None;
    }

    ghost function Snapshot(): Entry
      reads this
    {
      Entry(state, deadline, initCancelled, revision, last)
    }

    method BeginInitialization(now: nat) returns (verdict: BeginVerdict)
      modifies this
      ensures (Snapshot(), verdict) == BeginSection(old(Snapshot()), now)
      ensures Lawful(old(Snapshot()), Snapshot(), Requester, Demand(verdict.BeginCleanup?, false))
      ensures UploadClosed(Snapshot())
      ensures verdict.Started? ==> CanCommit(Snapshot(), now) && Duty(state) == Some(Initializer)
    {
      match state
      case Initializing(started) =>
        if !started && !initCancelled && now < deadline {
          state := Initializing(true);
          return Started;
        }
        if !started {
          initCancelled := true;
          state := Terminating(false, Requester);
          return BeginCleanup;
        }
        verdict := BeginNothing;
      case _ =>
        verdict := BeginNothing;
    }

    method CancelUpload() returns (cleanup: bool)
      modifies this
      ensures (Snapshot(), cleanup) == CancelUploadSection(old(Snapshot()))
      ensures Lawful(old(Snapshot()), Snapshot(), Requester, Demand(cleanup, false))
      ensures UploadClosed(Snapshot())
    {
      cleanup := state == Initializing(false);
      if cleanup {
        initCancelled := true;
        state := Terminating(false, Requester);
      }
    }

    method CheckCommit(now: nat) returns (proceed: bool)
      modifies this
      ensures (Snapshot(), proceed) == CommitCheckSection(old(Snapshot()), now)
      ensures proceed ==> Snapshot() == old(Snapshot()) && CommitElectionSection(Snapshot(), now).1
      ensures !proceed ==> CommitClosed(Snapshot())
      ensures !proceed && old(state.Initializing?) ==>
                InitializerCleanupSection(Snapshot(), true) == (Snapshot(), Some(false))
      ensures !proceed && !old(state.Live()) ==> state == old(state)
    {
      proceed := true;
      if !state.Initializing? || initCancelled || now >= deadline {
        if state.Initializing? {
          state := Terminating(false, Initializer);
        }
        proceed := false;
      }
    }

    method CommitFailed()
      modifies this
      ensures Snapshot() == AbandonSection(old(Snapshot()))
      ensures CommitClosed(Snapshot())
      ensures old(state.Initializing?) ==> InitializerCleanupSection(Snapshot(), true) == (Snapshot(), Some(false))
      ensures !old(state.Initializing?) ==> Snapshot() == old(Snapshot())
    {
      if state.Initializing? {
        state := Terminating(false, Initializer);
      }
    }

    method ElectCommit(now: nat) returns (ready: bool)
      modifies this
      ensures (Snapshot(), ready) == CommitElectionSection(old(Snapshot()), now)
      ensures ready ==> state.Ready? && forall id :: StartActionSection(Snapshot(), id, now).1 == ActionAdmitted
      ensures ready && last.None? ==> forall id, requestId, digest ::
                StartUpdateSection(Snapshot(), id, requestId, digest, revision, now).1 == Admitted
      ensures CommitClosed(Snapshot())
      ensures !ready && old(state.Initializing?) ==>
                InitializerCleanupSection(Snapshot(), true) == (Snapshot(), Some(false))
      ensures !ready && !old(state.Live()) ==> state == old(state)
    {
      if state.Initializing? && !initCancelled && now < deadline {
        state := Ready(now);
        return true;
      }
      if state.Initializing? {
        state := Terminating(false, Initializer);
      }
      ready := false;
    }

    method InitializerCleanup(defaultExplicit: bool) returns (cleanup: Option<bool>)
      modifies this
      ensures (Snapshot(), cleanup) == InitializerCleanupSection(old(Snapshot()), defaultExplicit)
      ensures PastUpload(old(Snapshot())) ==> Lawful(old(Snapshot()), Snapshot(), Initializer, cleanup)
      ensures CommitClosed(Snapshot())
    {
      match state
      case Initializing(_) =>
        state := Terminating(defaultExplicit, Initializer);
        cleanup := Some(defaultExplicit);
      case Terminating(explicit, owner) =>
        cleanup := if owner == Initializer then Some(explicit) else None;
      case _ =>
        cleanup := None;
    }

    method ServiceFailed() returns (cleanup: bool)
      modifies this
      ensures (Snapshot(), cleanup) == ServiceFailedSection(old(Snapshot()))
      ensures PastUpload(old(Snapshot())) ==> Lawful(old(Snapshot()), Snapshot(), Requester, Demand(cleanup, false))
      ensures Closed(Snapshot()) && CommitClosed(Snapshot())
    {
      cleanup := false;
      match state
      case Initializing(_) =>
        initCancelled := true;
        state := Terminating(false, Initializer);
      case Ready(_) =>
        state := Terminating(false, Requester);
        cleanup := true;
      case Action(_, _) =>
        state := Terminating(false, ActionWorker);
      case Updating(_, _) =>
        state := Terminating(false, UpdateWorker);
      case Terminating(_, _) =>
      case Terminated(_) =>
    }

    method Disconnect() returns (cleanup: bool)
      modifies this
      ensures (Snapshot(), cleanup) == DisconnectSection(old(Snapshot()))
      ensures Lawful(old(Snapshot()), Snapshot(), Requester, Demand(cleanup, false))
      ensures UploadClosed(Snapshot()) && CommitClosed(Snapshot())
      ensures !old(state.Initializing?) ==> Snapshot() == old(Snapshot())
    {
      cleanup := false;
      match state
      case Initializing(started) =>
        initCancelled := true;
        if started {
          state := Terminating(false, Initializer);
        } else {
          state := Terminating(false, Requester);
          cleanup := true;
        }
      case _ =>
    }

    method StartUpdate(updateId: nat, requestId: nat, digest: nat, base: nat, now: nat)
      returns (admission: Admission)
      modifies this
      ensures (Snapshot(), admission)
           == StartUpdateSection(old(Snapshot()), updateId, requestId, digest, base, now)
      ensures Lawful(old(Snapshot()), Snapshot(), Requester, None) && SameRevision(old(Snapshot()), Snapshot())
      ensures admission.Admitted? ==> Busy(Snapshot())
      ensures admission.Admitted? ==> forall success, later: nat ::
                later < deadline ==> CloseUpdateSection(Snapshot(), updateId, success, later).1 == Committed
      ensures !admission.Admitted? ==> Snapshot() == old(Snapshot())
      ensures admission.RevisionConflict? ==>
                StartUpdateSection(Snapshot(), updateId, requestId, digest, admission.current, now).1 == Admitted
      ensures admission.UpdateNotFound? ==> forall later: nat ::
                now <= later ==> StartActionSection(Snapshot(), updateId, later).1 == ActionNotFound
    {
      match state
      case Ready(_) =>
        if now >= deadline {
          return UpdateNotFound;
        }
        if last.Some? && last.value.requestId == requestId {
          if last.value.digest == digest {
            return Retried(last.value);
          }
          return RequestConflict;
        }
        if revision != base {
          return RevisionConflict(revision);
        }
        state := Updating(updateId, false);
        admission := Admitted;
      case Terminating(_, _) =>
        admission := UpdateNotFound;
      case Terminated(_) =>
        admission := UpdateNotFound;
      case _ =>
        admission := OperationConflict;
    }

    method CloseUpdate(updateId: nat, success: Success, now: nat) returns (verdict: CloseVerdict)
      modifies this
      ensures (Snapshot(), verdict) == CloseUpdateSection(old(Snapshot()), updateId, success, now)
      ensures Lawful(old(Snapshot()), Snapshot(), UpdateWorker,
                      if verdict.CloseCleanup? then Some(verdict.explicit) else None)
      ensures verdict == Committed ==> forall id, digest, base, later: nat | later < deadline ::
                StartUpdateSection(Snapshot(), id, success.requestId, digest, base, later)
                == (Snapshot(), if digest == success.digest then Retried(success) else RequestConflict)
      ensures verdict == Committed ==> forall id, requestId, digest, base, later: nat |
                later < deadline && requestId != success.requestId ::
                StartUpdateSection(Snapshot(), id, requestId, digest, base, later).1 ==
                if base == success.base + 1 then Admitted else RevisionConflict(success.base + 1)
      ensures verdict != Committed ==> SameRevision(old(Snapshot()), Snapshot()) && !state.Updating?
    {
      match state
      case Updating(active, cancelled) =>
        if active == updateId && !cancelled && now < deadline {
          revision := success.base + 1;
          last := Some(success);
          state := Ready(now);
          verdict := Committed;
        } else {
          state := Terminating(false, UpdateWorker);
          verdict := CloseCleanup(false);
        }
      case Terminating(explicit, owner) =>
        verdict := if owner == UpdateWorker then CloseCleanup(explicit) else LostOwnership;
      case _ =>
        verdict := LostOwnership;
    }

    method FailUpdate(updateId: nat, rollbackProven: bool, now: nat) returns (cleanup: Option<bool>)
      modifies this
      ensures (Snapshot(), cleanup) == FailUpdateSection(old(Snapshot()), updateId, rollbackProven, now)
      ensures Lawful(old(Snapshot()), Snapshot(), UpdateWorker, cleanup) && SameRevision(old(Snapshot()), Snapshot())
      ensures state.Ready? && !old(state.Ready?) ==> rollbackProven && old(state.Updating?)
      ensures rollbackProven && old(state.Updating?) && old(state).updateId == updateId ==> state == Ready(now)
      ensures state.Ready? && !old(state.Ready?) ==> forall id, requestId, digest, later: nat |
                later < deadline && (last.Some? ==> last.value.requestId != requestId) ::
                StartUpdateSection(Snapshot(), id, requestId, digest, revision, later).1 == Admitted
    {
      cleanup := None;
      match state
      case Terminating(explicit, owner) =>
        if owner == UpdateWorker {
          cleanup := Some(explicit);
        }
      case Updating(active, _) =>
        if active == updateId && !rollbackProven {
          state := Terminating(false, UpdateWorker);
          cleanup := Some(false);
        } else if active == updateId {
          state := Ready(now);
        }
      case _ =>
    }

    method UpdatePanicked() returns (cleanup: Option<bool>)
      modifies this
      ensures (Snapshot(), cleanup) == UpdatePanickedSection(old(Snapshot()))
      ensures cleanup.Some? <==> Duty(old(state)) == Some(UpdateWorker)
      ensures cleanup.Some? ==> state.Terminating? && cleanup.value == state.explicit
      ensures !old(state.Updating?) ==> Snapshot() == old(Snapshot())
      ensures old(state.Updating?) ==> forall id, success, later: nat ::
                CloseUpdateSection(Snapshot(), id, success, later) == (Snapshot(), LostOwnership)
    {
      cleanup := None;
      match state
      case Updating(_, _) =>
        state := Terminating(false, Requester);
        cleanup := Some(false);
      case Terminating(explicit, owner) =>
        if owner == UpdateWorker {
          cleanup := Some(explicit);
        }
      case _ =>
    }

    method StartAction(actionId: nat, now: nat) returns (admission: ActionAdmission)
      modifies this
      ensures (Snapshot(), admission) == StartActionSection(old(Snapshot()), actionId, now)
      ensures Lawful(old(Snapshot()), Snapshot(), Requester, None) && SameRevision(old(Snapshot()), Snapshot())
      ensures admission.ActionAdmitted? ==> Busy(Snapshot())
      ensures admission.ActionAdmitted? ==> forall later: nat ::
                AcknowledgeSection(Snapshot(), actionId, later).1 <==> later < deadline
      ensures !admission.ActionAdmitted? ==> Snapshot() == old(Snapshot())
    {
      match state
      case Ready(_) =>
        if now < deadline {
          state := Action(actionId, false);
          admission := ActionAdmitted;
        } else {
          admission := ActionNotFound;
        }
      case Terminating(_, _) =>
        admission := ActionNotFound;
      case Terminated(_) =>
        admission := ActionNotFound;
      case _ =>
        admission := ActionConflict;
    }

    method FinishAction(actionId: nat, reusable: bool, now: nat) returns (cleanup: Option<bool>)
      modifies this
      ensures (Snapshot(), cleanup) == FinishActionSection(old(Snapshot()), actionId, reusable, now)
      ensures Lawful(old(Snapshot()), Snapshot(), ActionWorker, cleanup) && SameRevision(old(Snapshot()), Snapshot())
      ensures old(state.Action?) && old(state).actionId != actionId ==> Snapshot() == old(Snapshot())
      ensures old(state.Action?) && old(state).actionId == actionId ==> (state.Ready? <==> reusable)
    {
      cleanup := None;
      match state
      case Action(active, _) =>
        if active == actionId && reusable {
          state := Ready(now);
        } else if active == actionId {
          state := Terminating(false, ActionWorker);
          cleanup := Some(false);
        }
      case Terminating(explicit, owner) =>
        if owner == ActionWorker {
          cleanup := Some(explicit);
        }
      case _ =>
    }

    method AcknowledgeDelivery(actionId: nat, now: nat) returns (accepted: bool)
      modifies this
      ensures (Snapshot(), accepted) == AcknowledgeSection(old(Snapshot()), actionId, now)
      ensures Lawful(old(Snapshot()), Snapshot(), Requester, None) && SameRevision(old(Snapshot()), Snapshot())
      ensures accepted ==> forall id :: StartActionSection(Snapshot(), id, now).1 == ActionAdmitted
      ensures forall later: nat :: AcknowledgeSection(Snapshot(), actionId, later) == (Snapshot(), false)
      ensures !accepted && old(state.Action?) && old(state).actionId == actionId ==> forall reusable, later: nat ::
                FinishActionSection(Snapshot(), actionId, reusable, later) == (Snapshot(), Some(false))
    {
      accepted := false;
      match state
      case Action(active, cancelled) =>
        if active == actionId && !cancelled && now < deadline {
          state := Ready(now);
          accepted := true;
        } else if active == actionId {
          state := Terminating(false, ActionWorker);
        }
      case _ =>
    }

    method DisconnectAction(actionId: nat)
      modifies this
      ensures Snapshot() == DisconnectActionSection(old(Snapshot()), actionId)
      ensures Lawful(old(Snapshot()), Snapshot(), Requester, None) && SameRevision(old(Snapshot()), Snapshot())
      ensures forall later: nat :: AcknowledgeSection(Snapshot(), actionId, later) == (Snapshot(), false)
      ensures old(state.Action?) && old(state).actionId == actionId ==> forall reusable, later: nat ::
                FinishActionSection(Snapshot(), actionId, reusable, later) == (Snapshot(), Some(false))
    {
      match state
      case Action(active, _) =>
        if active == actionId {
          state := Terminating(false, ActionWorker);
        }
      case _ =>
    }

    method Stop() returns (verdict: StopVerdict)
      modifies this
      ensures (Snapshot(), verdict) == StopSection(old(Snapshot()))
      ensures Lawful(old(Snapshot()), Snapshot(), Requester, Demand(verdict.StopCleans?, true))
      ensures verdict.StopConflict? <==> !old(state.Live())
      ensures StopSection(Snapshot()) == (Snapshot(), StopConflict) && Closed(Snapshot()) && CommitClosed(Snapshot())
    {
      match state
      case Initializing(started) =>
        initCancelled := true;
        if started {
          state := Terminating(true, Initializer);
          verdict := StopWaits;
        } else {
          state := Terminating(true, Requester);
          verdict := StopCleans;
        }
      case Action(_, _) =>
        state := Terminating(true, ActionWorker);
        verdict := StopWaits;
      case Updating(_, _) =>
        state := Terminating(true, UpdateWorker);
        verdict := StopWaits;
      case Ready(_) =>
        initCancelled := true;
        state := Terminating(true, Requester);
        verdict := StopCleans;
      case Terminating(_, _) =>
        verdict := StopConflict;
      case Terminated(_) =>
        verdict := StopConflict;
    }

    method ExpireLifetime() returns (cleanup: bool)
      modifies this
      ensures (Snapshot(), cleanup) == ExpireLifetimeSection(old(Snapshot()))
      ensures Lawful(old(Snapshot()), Snapshot(), Requester, Demand(cleanup, false))
      ensures Closed(Snapshot()) && CommitClosed(Snapshot())
    {
      cleanup := false;
      match state
      case Initializing(started) =>
        initCancelled := true;
        if started {
          state := Terminating(false, Initializer);
        } else {
          state := Terminating(false, Requester);
          cleanup := true;
        }
      case Action(_, _) =>
        state := Terminating(false, ActionWorker);
      case Updating(_, _) =>
        state := Terminating(false, UpdateWorker);
      case Ready(_) =>
        initCancelled := true;
        state := Terminating(false, Requester);
        cleanup := true;
      case Terminating(_, _) =>
      case Terminated(_) =>
    }

    method ExpireIdle(idle: nat, now: nat) returns (cleanup: bool)
      modifies this
      ensures (Snapshot(), cleanup) == ExpireIdleSection(old(Snapshot()), idle, now)
      ensures Lawful(old(Snapshot()), Snapshot(), Requester, Demand(cleanup, false))
      ensures cleanup ==> old(state.Ready?) && Closed(Snapshot())
      ensures !cleanup ==> Snapshot() == old(Snapshot())
    {
      cleanup := false;
      match state
      case Ready(lastActivity) =>
        if now - lastActivity >= idle {
          state := Terminating(false, Requester);
          cleanup := true;
        }
      case _ =>
    }

    method Finish(response: Response)
      modifies this
      ensures Snapshot() == old(Snapshot()).(state := Terminated(response))
      ensures forall e, caller, cleanup :: Lawful(Snapshot(), e, caller, cleanup) ==>
                cleanup.None? && e.state == Terminated(response)
      ensures Closed(Snapshot()) && CommitClosed(Snapshot()) && StopSection(Snapshot()) == (Snapshot(), StopConflict)
    {
      state := Terminated(response);
    }
  }
}
