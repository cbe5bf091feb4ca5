module SessionInvariants {
  import opened Common
  import opened SessionEntries
  import opened SessionProtocol
  import SourceUpdates

  function Rank(pc: CleanupPc): nat {
    match pc
    case Begin => 0
    case Stopping => 1
    case TearingDown => 2
    case Collecting => 3
    case RemovingWorkspace => 4
    case RemovingRecord => 5
    case Deregistering => 6
    case Releasing => 7
    case Publishing => 8
    case Finished => 9
  }

  predicate CleanupCore(store: Store, winner: Option<nat>, c: Cleanup) {
    && c.explicit == winner.Some?
    && (c.archived ==> c.explicit)
    && (c.call.Some? ==> c.call == winner)
    && (Rank(c.pc) >= 7 ==> !store.registered)
    && (Rank(c.pc) >= 8 ==> !store.permit)
  }

  predicate CleanupsCore(store: Store, winner: Option<nat>, cleanups: seq<Cleanup>) {
    forall c <- cleanups :: CleanupCore(store, winner, c)
  }

  predicate StateCore(state: State, store: Store, winner: Option<nat>, cleanups: seq<Cleanup>) {
    match state
    case Terminating(explicit, _) => explicit == winner.Some?
    case Terminated(response) => !store.permit && !store.registered && (response.artifacts ==> winner.Some?)
    case _ => winner == None && cleanups == []
  }

  predicate PermitCore(store: Store, cleanups: seq<Cleanup>, released: nat) {
    && (cleanups == [] ==> store.registered)
    && (store.registered ==> store.permit)
    && released == (if store.permit then 0 else 1)
  }

  predicate StopsCore(stops: map<nat, StopCall>, winner: Option<nat>, state: State) {
    forall call <- stops :: stops[call] != Refused ==>
      winner == Some(call) && (stops[call].Returned? ==> state.Terminated?)
  }

  predicate Core(s: Session) {
    && StateCore(s.entry.state, s.store, s.log.winner, s.threads.cleanups)
    && PermitCore(s.store, s.threads.cleanups, s.log.released)
    && StopsCore(s.threads.stops, s.log.winner, s.entry.state)
    && CleanupsCore(s.store, s.log.winner, s.threads.cleanups)
  }

  lemma {:induction false} UploadKeepsCore(s: Session, ev: UploadEvent)
    requires Core(s)
    ensures Core(UploadStep(s, ev))
  {
  }

  /** The state changes that sections other than a stop can make, with the cleanup they demand. */
  predicate Allowed(from: State, to: State, cleanup: Option<bool>) {
    if from.Live() then
      || (to.Live() && cleanup.None?)
      || (to.Terminating? && !to.explicit && (cleanup.None? || cleanup == Some(false)))
    else
      to == from && (cleanup.None? || (from.Terminating? && cleanup == Some(from.explicit)))
  }

  lemma {:induction false} MoveKeepsCore(s: Session, e: Entry, threads: Threads, cleanup: Option<bool>)
    requires Core(s) && Allowed(s.entry.state, e.state, cleanup)
    requires threads.cleanups == s.threads.cleanups && threads.stops == s.threads.stops
    ensures Core(Move(s, e, threads, cleanup))
  {
  }

  lemma {:induction false} CommitKeepsCore(s: Session, ev: CommitEvent)
    requires Core(s)
    ensures Core(CommitStep(s, ev))
  {
    var t := s.threads;
    match ev
    case InitCheck(now) =>
      var (e, proceed) := CommitCheckSection(s.entry, now);
      MoveKeepsCore(s, e, t.(init := if proceed then Checked else Failing), None);
    case InitWrite(ok, landed) =>
      var written := s.(store := WriteRecord(s.store, Record(0, true, s.store.services), ok || landed));
      MoveKeepsCore(written, s.entry, t.(init := Written), None);
      MoveKeepsCore(written, AbandonSection(s.entry), t.(init := Failing), None);
    case InitElect(now) =>
      var (e, ready) := CommitElectionSection(s.entry, now);
      MoveKeepsCore(s.(log := s.log.(retained := Some(s.store.services))), e, t.(init := InitDone), None);
      MoveKeepsCore(s, e, t.(init := Lost), None);
    case InitCleanup =>
      var (e, cleanup) := InitializerCleanupSection(s.entry, false);
      MoveKeepsCore(s, e, t.(init := InitDone), cleanup);
  }

  lemma {:induction false} WorkKeepsCore(s: Session, ev: WorkEvent)
    requires Core(s)
    ensures Core(WorkStep(s, ev))
  {
  }

  lemma {:induction false} TriggerKeepsCore(s: Session, ev: TriggerEvent)
    requires Core(s)
    ensures Core(TriggerStep(s, ev))
  {
  }

  lemma {:induction false} StopKeepsCore(s: Session, ev: StopEvent)
    requires Core(s)
    ensures Core(StopStep(s, ev))
  {
  }

  lemma {:induction false} CloseKeepsCore(s: Session, id: nat, job: Job, now: nat)
    requires Core(s) && job.pc.Closing?
    ensures Core(CloseJob(s, id, job, now))
  {
  }

  lemma {:induction false} OpenUpdateKeepsCore(s: Session, ev: UpdateEvent)
    requires Core(s) && !ev.UpdateCloses?
    ensures Core(UpdateStep(s, ev))
  {
  }

  lemma {:induction false} UpdateKeepsCore(s: Session, ev: UpdateEvent)
    requires Core(s)
    ensures Core(UpdateStep(s, ev))
  {
    if ev.UpdateCloses? {
      if ev.updateId in s.threads.jobs && s.threads.jobs[ev.updateId].pc.Closing? {
        CloseKeepsCore(s, ev.updateId, s.threads.jobs[ev.updateId], ev.now);
      }
    } else {
      OpenUpdateKeepsCore(s, ev);
    }
  }

  lemma {:induction false} ActionKeepsCore(s: Session, ev: ActionEvent)
    requires Core(s)
    ensures Core(ActionStep(s, ev))
  {
  }

  /** The other activations only rely on what the store has already given up. */
  lemma {:induction false} OthersKeepCore(before: Store, after: Store, winner: Option<nat>, cleanups: seq<Cleanup>,
                                          k: nat, c: Cleanup)
    requires k < |cleanups| && CleanupsCore(before, winner, cleanups) && CleanupCore(after, winner, c)
    requires (after.registered ==> before.registered) && (after.permit ==> before.permit)
    ensures CleanupsCore(after, winner, cleanups[k := c])
  {
    forall x <- cleanups[k := c] ensures CleanupCore(after, winner, x) {
      assert x == c || x in cleanups;
    }
  }

  lemma {:induction false} AdvanceKeepsCore(c: Cleanup, store: Store, log: Log, ok: bool)
    requires CleanupCore(store, log.winner, c)
    requires (store.registered ==> store.permit) && log.released == (if store.permit then 0 else 1)
    ensures
      var after := StoreAfter(c, store, ok);
      && CleanupCore(after, log.winner, Advanced(c, store, ok))
      && (after.registered ==> store.registered) && (after.permit ==> store.permit)
      && (after.registered ==> after.permit)
      && LogAfter(c, store, log, ok).winner == log.winner
      && LogAfter(c, store, log, ok).released == (if after.permit then 0 else 1)
  {
  }

  lemma {:induction false} CleanupKeepsCore(s: Session, k: nat, ok: bool)
    requires Core(s)
    ensures Core(CleanupAfter(s, k, ok))
  {
    if k < |s.threads.cleanups| {
      var c := s.threads.cleanups[k];
      assert CleanupCore(s.store, s.log.winner, c);
      AdvanceKeepsCore(c, s.store, s.log, ok);
      OthersKeepCore(s.store, StoreAfter(c, s.store, ok), s.log.winner, s.threads.cleanups, k, Advanced(c, s.store, ok));
      assert !s.entry.state.Live();
    }
  }

  // ------------------------------------------------------- who works when

  predicate InitRunning(init: InitPc) {
    !init.NotStarted? && !init.InitDone?
  }

  /** The party that inherits the cleanup is still at work. */
  predicate OwnerAtWork(owner: Owner, t: Threads) {
    match owner
    case Initializer => InitRunning(t.init) && t.actions == map[] && t.jobs == map[]
    case ActionWorker => t.init.InitDone? && |t.actions| == 1 && t.jobs == map[]
    case UpdateWorker => t.init.InitDone? && t.actions == map[] && |t.jobs| == 1
    case Requester => false
  }

  predicate NobodyAtWork(t: Threads) {
    !InitRunning(t.init) && t.actions == map[] && t.jobs == map[]
  }

  predicate Shape(state: State, t: Threads) {
    match state
    case Initializing(started) =>
      && t.cleanups == [] && t.actions == map[] && t.jobs == map[]
      && (if started then InitRunning(t.init) && !t.init.Lost? else t.init.NotStarted?)
    case Ready(_) => t.cleanups == [] && t.init.InitDone? && t.actions == map[] && t.jobs == map[]
    case Action(id, _) => t.cleanups == [] && t.init.InitDone? && t.actions.Keys == {id} && t.jobs == map[]
    case Updating(id, _) => t.cleanups == [] && t.init.InitDone? && t.actions == map[] && t.jobs.Keys == {id}
    case Terminating(_, owner) =>
      || (t.cleanups == [] && OwnerAtWork(owner, t))
      || (|t.cleanups| == 1 && t.cleanups[0].pc != Finished && NobodyAtWork(t))
    case Terminated(_) => |t.cleanups| == 1 && t.cleanups[0].pc == Finished && NobodyAtWork(t)
  }

  predicate Names(t: Threads) {
    && (forall id <- t.actions :: id < t.nextId && id !in t.delivered)
    && (forall id <- t.delivered :: id < t.nextId)
    && (forall id <- t.jobs :: id < t.nextId)
    && (t.spawned ==> !t.init.NotStarted?)
  }

  predicate Workers(s: Session) {
    Shape(s.entry.state, s.threads) && Names(s.threads)
  }

  /** The give-up of a worker whose delivery was acknowledged, met by a later action's termination. */
  predicate StaleFinish(s: Session, ev: Event) {
    && ev.OnAction? && ev.action.FinishAction? && ev.action.actionId in s.threads.delivered
    && s.entry.state.Terminating? && s.entry.state.owner == ActionWorker
  }

  lemma RemoveOnly<K, V>(m: map<K, V>, k: K)
    requires |m| == 1 && k in m
    ensures m - {k} == map[] && m.Keys == {k}
  {
    assert m.Keys - {k} == (m - {k}).Keys;
    assert |m.Keys - {k}| == 0;
    assert m.Keys == {k} + (m.Keys - {k});
  }

  lemma SizeOfOnly<K, V>(m: map<K, V>, k: K)
    requires m.Keys == {k}
    ensures |m| == 1 && m - {k} == map[]
  {
    assert |m| == |m.Keys|;
    assert (m - {k}).Keys == {};
  }

  lemma {:induction false} UploadKeepsWorkers(s: Session, ev: UploadEvent)
    requires Workers(s)
    ensures Workers(UploadStep(s, ev))
  {
  }

  lemma {:induction false} WorkKeepsWorkers(s: Session, ev: WorkEvent)
    requires Workers(s)
    ensures Workers(WorkStep(s, ev))
  {
  }

  lemma {:induction false} CommitKeepsWorkers(s: Session, ev: CommitEvent)
    requires Workers(s)
    ensures Workers(CommitStep(s, ev))
  {
  }

  /** A preempted session: whoever worked still does, or the requester has begun to clean up. */
  lemma {:induction false} PreemptedShape(state: State, t: Threads, explicit: bool, t': Threads)
    requires state.Live() && Shape(state, t)
    requires t'.init == t.init && t'.actions == t.actions && t'.jobs == t.jobs
    requires if OwnerFor(state) == Requester then |t'.cleanups| == 1 && t'.cleanups[0].pc.Begin?
             else t'.cleanups == t.cleanups
    ensures Shape(Terminating(explicit, OwnerFor(state)), t')
  {
    match state
    case Action(id, _) => SizeOfOnly(t.actions, id);
    case Updating(id, _) => SizeOfOnly(t.jobs, id);
    case _ =>
  }

  lemma {:induction false} TriggerKeepsWorkers(s: Session, ev: TriggerEvent)
    requires Workers(s)
    ensures Workers(TriggerStep(s, ev))
  {
    if s.entry.state.Live() {
      PreemptedShape(s.entry.state, s.threads, false,
                     if OwnerFor(s.entry.state) == Requester
                     then s.threads.(cleanups := s.threads.cleanups + [NewCleanup(false, None)]) else s.threads);
    }
  }

  lemma {:induction false} StopCallKeepsWorkers(s: Session, call: nat)
    requires Workers(s)
    ensures Workers(StopStep(s, StopCalled(call)))
  {
    if s.entry.state.Live() && s.store.registered && call !in s.threads.stops {
      PreemptedShape(s.entry.state, s.threads, true, StopStep(s, StopCalled(call)).threads);
    }
  }

  lemma {:induction false} StopKeepsWorkers(s: Session, ev: StopEvent)
    requires Workers(s)
    ensures Workers(StopStep(s, ev))
  {
    if ev.StopCalled? {
      StopCallKeepsWorkers(s, ev.call);
    }
  }

  /** While a job is outstanding it is the only one, and nobody else is at work. */
  lemma {:induction false} OnlyJob(s: Session, id: nat)
    requires Workers(s) && id in s.threads.jobs
    ensures s.threads.jobs.Keys == {id} && |s.threads.jobs| == 1 && s.threads.jobs - {id} == map[]
    ensures s.threads.cleanups == [] && s.threads.actions == map[] && s.threads.init.InitDone?
    ensures s.entry.state.Updating? ==> s.entry.state.updateId == id
    ensures s.entry.state.Updating? || (s.entry.state.Terminating? && s.entry.state.owner == UpdateWorker)
  {
    match s.entry.state
    case Updating(active, _) => SizeOfOnly(s.threads.jobs, active);
    case _ => RemoveOnly(s.threads.jobs, id);
  }

  lemma {:induction false} StartUpdateKeepsWorkers(s: Session, ev: UpdateEvent)
    requires Workers(s) && ev.StartUpdate?
    ensures Workers(UpdateStep(s, ev))
  {
    var job := Job(Success(ev.requestId, ev.digest, ev.base), s.store.files, Applying);
    assert s.threads.jobs == map[] ==> s.threads.jobs[s.threads.nextId := job].Keys == {s.threads.nextId};
  }

  lemma {:induction false} SuccessKeepsWorkers(s: Session, id: nat, job: Job, now: nat)
    requires Workers(s) && id in s.threads.jobs && job.pc.Closing? && job.pc.outcome.ok
    ensures Workers(CloseJob(s, id, job, now))
  {
    OnlyJob(s, id);
  }

  lemma {:induction false} FailureKeepsWorkers(s: Session, id: nat, job: Job, now: nat)
    requires Workers(s) && id in s.threads.jobs && job.pc.Closing? && !job.pc.outcome.ok
    ensures Workers(CloseJob(s, id, job, now))
  {
    OnlyJob(s, id);
  }

  lemma {:induction false} CloseKeepsWorkers(s: Session, id: nat, job: Job, now: nat)
    requires Workers(s) && id in s.threads.jobs && job.pc.Closing?
    ensures Workers(CloseJob(s, id, job, now))
  {
    if job.pc.outcome.ok {
      SuccessKeepsWorkers(s, id, job, now);
    } else {
      FailureKeepsWorkers(s, id, job, now);
    }
  }

  lemma {:induction false} EndUpdateKeepsWorkers(s: Session, ev: UpdateEvent)
    requires ev.UpdateAborts? || ev.UpdateApplies? || ev.UpdatePanics?
    requires Workers(s) && (s.threads.cleanups == [] ==> s.store.registered)
    ensures Workers(UpdateStep(s, ev))
  {
    if ev.updateId in s.threads.jobs {
      OnlyJob(s, ev.updateId);
      if ev.UpdateApplies? {
        var job := s.threads.jobs[ev.updateId].(pc := Closing(ev.outcome));
        SizeOfOnly(s.threads.jobs[ev.updateId := job], ev.updateId);
      }
    }
  }

  lemma {:induction false} UpdateKeepsWorkers(s: Session, ev: UpdateEvent)
    requires Workers(s) && (s.threads.cleanups == [] ==> s.store.registered)
    ensures Workers(UpdateStep(s, ev))
  {
    match ev
    case StartUpdate(_, _, _, _) => StartUpdateKeepsWorkers(s, ev);
    case UpdateCloses(id, now) =>
      if id in s.threads.jobs && s.threads.jobs[id].pc.Closing? {
        CloseKeepsWorkers(s, id, s.threads.jobs[id], now);
      }
    case _ => EndUpdateKeepsWorkers(s, ev);
  }

  /** While an undelivered action worker is outstanding it is the only one, and nobody else is at work. */
  lemma {:induction false} OnlyAction(s: Session, id: nat)
    requires Workers(s) && id in s.threads.actions
    ensures s.threads.actions.Keys == {id} && |s.threads.actions| == 1 && s.threads.actions - {id} == map[]
    ensures s.threads.cleanups == [] && s.threads.jobs == map[] && s.threads.init.InitDone?
    ensures s.entry.state.Action? ==> s.entry.state.actionId == id
    ensures s.entry.state.Action? || (s.entry.state.Terminating? && s.entry.state.owner == ActionWorker)
  {
    match s.entry.state
    case Action(active, _) => SizeOfOnly(s.threads.actions, active);
    case _ => RemoveOnly(s.threads.actions, id);
  }

  lemma {:induction false} ActiveStepKeepsWorkers(s: Session, ev: ActionEvent)
    requires Workers(s) && !ev.StartAction? && !ev.Retire?
    requires ev.actionId in s.threads.actions
    ensures Workers(ActionStep(s, ev))
  {
    OnlyAction(s, ev.actionId);
    SizeOfOnly(s.threads.actions[ev.actionId := true], ev.actionId);
  }

  /** Acknowledged workers and late stream events find nothing of theirs to change. */
  lemma {:induction false} StrayStepChangesNothing(s: Session, ev: ActionEvent)
    requires Workers(s) && !StaleFinish(s, OnAction(ev))
    requires !ev.StartAction? && ev.actionId !in s.threads.actions
    ensures ActionStep(s, ev) == s.(threads := s.threads.(delivered := ActionStep(s, ev).threads.delivered))
    ensures ActionStep(s, ev).threads.delivered <= s.threads.delivered
  {
    assert s.threads.actions - {ev.actionId} == s.threads.actions;
    if s.entry.state.Action? {
      assert s.entry.state.actionId in s.threads.actions;
    }
  }

  lemma {:induction false} ActionKeepsWorkers(s: Session, ev: ActionEvent)
    requires Workers(s) && !StaleFinish(s, OnAction(ev))
    ensures Workers(ActionStep(s, ev))
  {
    if ev.StartAction? {
      assert s.threads.actions == map[] ==>
        s.threads.actions[s.threads.nextId := false].Keys == {s.threads.nextId};
    } else if ev.actionId in s.threads.actions && !ev.Retire? {
      ActiveStepKeepsWorkers(s, ev);
    } else if !ev.Retire? {
      StrayStepChangesNothing(s, ev);
    }
  }

  lemma {:induction false} CleanupKeepsWorkers(s: Session, k: nat, ok: bool)
    requires Workers(s)
    ensures Workers(CleanupAfter(s, k, ok))
  {
  }

  // ------------------------------------------- durable record and revisions

  /** The durable record seen by a job that has not closed yet. */
  predicate JobDurable(revision: nat, store: Store, retained: seq<Service>, job: Job) {
    && job.success.base == revision
    && store.record.Some? && store.record.value.services == retained
    && match job.pc
       case Applying => store.record.value == Record(revision, true, retained) && store.files == job.before
       case Closing(o) =>
         && SourceUpdates.Admissible(job.before, o) && store.files == o.files
         && (o.ok ==> store.record.value == Record(revision + 1, true, retained))
         && (!o.ok && o.rollbackProven ==> store.record.value == Record(revision, true, retained))
  }

  predicate AllGone(services: seq<Service>, gone: set<Service>) {
    forall g <- services :: g in gone
  }

  predicate GoneOrPending(services: seq<Service>, pending: seq<Service>, gone: set<Service>) {
    forall g <- services :: g in pending || g in gone
  }

  predicate CleanupDurable(store: Store, retained: seq<Service>, gone: set<Service>, c: Cleanup) {
    && (Rank(c.pc) <= 5 ==> store.record.Some?)
    && (c.pc.Begin? ==> store.services == retained && !c.unproven)
    && (!c.pc.Begin? && !c.unproven ==> GoneOrPending(retained, c.pending, gone))
    && (Rank(c.pc) >= 2 ==> c.pending == [])
    && (store.record.None? ==> AllGone(retained, gone))
  }

  predicate Durable(e: Entry, store: Store, t: Threads, retained: Option<seq<Service>>, gone: set<Service>) {
    match retained
    case None =>
      && !e.state.Ready? && !e.state.Action? && !e.state.Updating? && t.jobs == map[] && e.revision == 0
      && (t.init.InitDone? ==> !e.state.Live())
      && (t.init.Written? ==> store.record == Some(Record(0, true, store.services)))
    case Some(services) =>
      && t.init.InitDone?
      && (t.cleanups == [] ==> store.services == services && store.record.Some?)
      && (store.record.Some? ==> store.record.value.services == services)
      && (e.state.Ready? || e.state.Action? ==> store.record == Some(Record(e.revision, true, services)))
      && (forall id <- t.jobs :: JobDurable(e.revision, store, services, t.jobs[id]))
      && (forall c <- t.cleanups :: CleanupDurable(store, services, gone, c))
  }

  predicate Recorded(s: Session) {
    Durable(s.entry, s.store, s.threads, s.log.retained, s.log.gone)
  }

  /** Successful updates form the chain of revisions, and the cache holds the latest one. */
  predicate Chain(e: Entry, successes: seq<Success>) {
    && e.revision == |successes|
    && (forall i :: 0 <= i < |successes| ==> successes[i].base == i)
    && e.last == (if successes == [] then None else Some(successes[|successes| - 1]))
  }

  lemma {:induction false} UploadKeepsRecorded(s: Session, ev: UploadEvent)
    requires Workers(s) && Recorded(s)
    ensures Recorded(UploadStep(s, ev))
  {
  }

  lemma {:induction false} WorkKeepsRecorded(s: Session, ev: WorkEvent)
    requires Workers(s) && Recorded(s)
    ensures Recorded(WorkStep(s, ev))
  {
  }

  lemma {:induction false} CommitKeepsRecorded(s: Session, ev: CommitEvent)
    requires Workers(s) && Recorded(s)
    ensures Recorded(CommitStep(s, ev))
  {
  }

  lemma {:induction false} TriggerKeepsRecorded(s: Session, ev: TriggerEvent)
    requires Workers(s) && Recorded(s)
    ensures Recorded(TriggerStep(s, ev))
  {
  }

  lemma {:induction false} StopKeepsRecorded(s: Session, ev: StopEvent)
    requires Workers(s) && Recorded(s)
    ensures Recorded(StopStep(s, ev))
  {
  }

  lemma {:induction false} StartUpdateKeepsRecorded(s: Session, ev: UpdateEvent)
    requires Workers(s) && Recorded(s) && ev.StartUpdate?
    ensures Recorded(UpdateStep(s, ev))
  {
  }

  lemma {:induction false} FailureKeepsRecorded(s: Session, id: nat, now: nat)
    requires Workers(s) && Recorded(s) && id in s.threads.jobs
    requires s.threads.jobs[id].pc.Closing? && !s.threads.jobs[id].pc.outcome.ok
    ensures Recorded(CloseJob(s, id, s.threads.jobs[id], now))
  {
    OnlyJob(s, id);
    assert s.log.retained.Some? && JobDurable(s.entry.revision, s.store, s.log.retained.value, s.threads.jobs[id]);
  }

  lemma {:induction false} CloseKeepsRecorded(s: Session, id: nat, now: nat)
    requires Workers(s) && Recorded(s) && id in s.threads.jobs && s.threads.jobs[id].pc.Closing?
    ensures Recorded(CloseJob(s, id, s.threads.jobs[id], now))
  {
    if s.threads.jobs[id].pc.outcome.ok {
      OnlyJob(s, id);
      assert s.log.retained.Some? && JobDurable(s.entry.revision, s.store, s.log.retained.value, s.threads.jobs[id]);
    } else {
      FailureKeepsRecorded(s, id, now);
    }
  }

  lemma {:induction false} EndUpdateKeepsRecorded(s: Session, ev: UpdateEvent)
    requires ev.UpdateAborts? || ev.UpdateApplies? || ev.UpdatePanics?
    requires Workers(s) && Recorded(s)
    ensures Recorded(UpdateStep(s, ev))
  {
    if ev.updateId in s.threads.jobs {
      OnlyJob(s, ev.updateId);
      assert s.log.retained.Some?
          && JobDurable(s.entry.revision, s.store, s.log.retained.value, s.threads.jobs[ev.updateId]);
    }
  }

  lemma {:induction false} UpdateKeepsRecorded(s: Session, ev: UpdateEvent)
    requires Workers(s) && Recorded(s)
    ensures Recorded(UpdateStep(s, ev))
  {
    match ev
    case StartUpdate(_, _, _, _) => StartUpdateKeepsRecorded(s, ev);
    case UpdateCloses(id, now) =>
      if id in s.threads.jobs && s.threads.jobs[id].pc.Closing? {
        CloseKeepsRecorded(s, id, now);
      }
    case _ => EndUpdateKeepsRecorded(s, ev);
  }

  lemma {:induction false} ActionKeepsRecorded(s: Session, ev: ActionEvent)
    requires Workers(s) && Recorded(s) && !StaleFinish(s, OnAction(ev))
    ensures Recorded(ActionStep(s, ev))
  {
  }

  lemma {:induction false} PoppedOrGone(services: seq<Service>, pending: seq<Service>, gone: set<Service>)
    requires pending != [] && GoneOrPending(services, pending, gone)
    ensures GoneOrPending(services, pending[..|pending| - 1], gone + {pending[|pending| - 1]})
  {
    var last := |pending| - 1;
    assert pending == pending[..last] + [pending[last]];
  }

  lemma {:induction false} AdvanceKeepsDurable(c: Cleanup, store: Store, retained: seq<Service>, log: Log, ok: bool)
    requires CleanupDurable(store, retained, log.gone, c)
    requires store.record.Some? ==> store.record.value.services == retained
    ensures CleanupDurable(StoreAfter(c, store, ok), retained, LogAfter(c, store, log, ok).gone, Advanced(c, store, ok))
    ensures StoreAfter(c, store, ok).record.Some? ==> StoreAfter(c, store, ok).record.value.services == retained
  {
    if c.pc.Stopping? && c.pending != [] && ok && !c.unproven {
      PoppedOrGone(retained, c.pending, log.gone);
    }
  }

  lemma {:induction false} CleanupKeepsRecorded(s: Session, k: nat, ok: bool)
    requires Workers(s) && Recorded(s)
    ensures Recorded(CleanupAfter(s, k, ok))
  {
    if k < |s.threads.cleanups| && s.log.retained.Some? {
      var c := s.threads.cleanups[k];
      assert s.threads.cleanups == [c];
      AdvanceKeepsDurable(c, s.store, s.log.retained.value, s.log, ok);
    }
  }
}
