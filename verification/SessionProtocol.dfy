/**
 The concurrent session protocol around `SessionEntries`: the threads that work for one
 session, the durable record, the workspace, and one event for every atomic step any of them
 can take.  A run is any sequence of events; an event that is not enabled changes nothing.

 The response stream's acknowledgement (`Ack`) and the moment the action worker learns about
 it (`Retire`) are separate events, and a worker whose delivery was acknowledged may still
 give up first (`FinishAction`), exactly as the source's threads may interleave.
 */
module SessionProtocol {
  import opened Common
  import opened SessionEntries
  import SourceUpdates
  import WorkspaceFiles

  type Service = nat

  /** The regular files of the workspace. */
  type Files = WorkspaceFiles.Files

  datatype Record = Record(revision: nat, ready: bool, services: seq<Service>)

  /** Where the initializer thread stands inside `initialize`. */
  datatype InitPc =
    | NotStarted  // the upload is not finished
    | Working     // setup, run and service startup
    | Checked     // passed the check, about to write the Ready record
    | Written     // Ready record written, about to elect
    | Lost        // lost the election, about to remove the record
    | Failing     // about to call initializer_cleanup
    | InitDone

  /** What the source-update transaction reports and leaves behind. */
  type Outcome = SourceUpdates.Outcome

  datatype JobPc = Applying | Closing(outcome: Outcome)

  datatype Job = Job(success: Success, before: Files, pc: JobPc)

  datatype CleanupPc =
    | Begin | Stopping | TearingDown | Collecting | RemovingWorkspace
    | RemovingRecord | Deregistering | Releasing | Publishing | Finished

  /** One activation of `cleanup_entry`. */
  datatype Cleanup = Cleanup(
    explicit: bool,
    pc: CleanupPc,
    pending: seq<Service>,
    unproven: bool,
    archived: bool,
    call: Option<nat>)

  datatype StopCall = Waiting | Cleaning | Returned(response: Response) | Refused

  /** Fields of the entry with locks of their own, its registry slot and its durable state. */
  datatype Store = Store(
    services: seq<Service>,
    permit: bool,
    registered: bool,
    record: Option<Record>,
    workspace: bool,
    files: Files)

  /** The threads that work for the session. */
  datatype Threads = Threads(
    uploading: bool,
    init: InitPc,
    actions: map<nat, bool>,   // undelivered action workers; true once the final frame is offered
    delivered: set<nat>,       // acknowledged action workers that have not learned it yet
    jobs: map<nat, Job>,
    cleanups: seq<Cleanup>,
    stops: map<nat, StopCall>,
    nextId: nat,
    spawned: bool)             // some service was spawned, so its exit callback may fire

  /** What happened so far; no step reads it. */
  datatype Log = Log(
    retained: Option<seq<Service>>,   // services handed over when the session became Ready
    gone: set<Service>,               // service groups observed gone by a cleanup
    successes: seq<Success>,
    winner: Option<nat>,              // the stop call that made the election
    teardowns: nat,
    released: nat)

  datatype Session = Session(entry: Entry, store: Store, threads: Threads, log: Log)

  /** The HTTP handler that receives the source upload. */
  datatype UploadEvent = BeginInit(now: nat) | UploadFails | UploadDropped

  /** The initializer outside the state lock. */
  datatype WorkEvent =
    | CancelInit
    | RecordStarting(ok: bool, landed: bool)
    | SpawnService(service: Service)
    | InitFails
    | RemoveLostRecord(removed: bool)

  /** The initializer on its way to the Ready commit or to cleanup. */
  datatype CommitEvent =
    | InitCheck(now: nat)
    | InitWrite(ok: bool, landed: bool)
    | InitElect(now: nat)
    | InitCleanup

  datatype TriggerEvent =
    | TaskWrites(files: Files)
    | ServiceFails
    | Disconnects
    | LifetimeExpires
    | IdleExpires(idle: nat, now: nat)

  datatype StopEvent = StopCalled(call: nat) | StopReturns(call: nat)

  datatype UpdateEvent =
    | StartUpdate(requestId: nat, digest: nat, base: nat, now: nat)
    | UpdateAborts(updateId: nat, now: nat)
    | UpdateApplies(updateId: nat, outcome: Outcome)
    | UpdateCloses(updateId: nat, now: nat)
    | UpdatePanics(updateId: nat)

  datatype ActionEvent =
    | StartAction(now: nat)
    | CancelAction(actionId: nat)
    | OfferFinal(actionId: nat, now: nat)
    | Ack(actionId: nat, now: nat)
    | Retire(actionId: nat)
    | FinishAction(actionId: nat, now: nat)
    | DisconnectsAction(actionId: nat)

  datatype Event =
    | OnUpload(upload: UploadEvent)
    | OnWork(work: WorkEvent)
    | OnCommit(commit: CommitEvent)
    | OnTrigger(trigger: TriggerEvent)
    | OnStop(stop: StopEvent)
    | OnUpdate(update: UpdateEvent)
    | OnAction(action: ActionEvent)
    | CleanupStep(k: nat, ok: bool)

  function Reserved(deadline: nat, files: Files): Session {
    Session(Entry(Initializing(false), deadline, false, 0, None),
            Store([], true, true, None, true, files),
            Threads(true, NotStarted, map[], {}, map[], [], map[], 0, false),
            Log(None, {}, [], None, 0, 0))
  }

  // ---------------------------------------------------------------- helpers

  function NewCleanup(explicit: bool, call: Option<nat>): Cleanup {
    Cleanup(explicit, Begin, [], false, false, call)
  }

  /** Move the entry; when the section says so, the calling thread goes on to clean up. */
  function Move(s: Session, e: Entry, threads: Threads, cleanup: Option<bool>): Session {
    s.(entry := e,
       threads := if cleanup.None? then threads
                  else threads.(cleanups := threads.cleanups + [NewCleanup(cleanup.value, None)]))
  }

  function Automatic(cleanup: bool): Option<bool> {
    if cleanup then Some(false) else None
  }

  function WriteRecord(store: Store, record: Record, landed: bool): Store {
    if landed then store.(record := Some(record)) else store
  }

  /** No trace of source updates is changed: jobs, revision, cached result, successes. */
  predicate LeavesUpdatesAlone(s: Session, s': Session) {
    && s'.threads.jobs == s.threads.jobs
    && s'.entry.revision == s.entry.revision && s'.entry.last == s.entry.last
    && s'.log.successes == s.log.successes
  }

  // ------------------------------------------------------ steps by component

  function UploadStep(s: Session, ev: UploadEvent): (s': Session)
    ensures LeavesUpdatesAlone(s, s')
  {
    var idle := s.threads.(uploading := false);
    if !s.threads.uploading then s
    else
      match ev
      case BeginInit(now) =>
        var (e, verdict) := BeginSection(s.entry, now);
        Move(s, e, if verdict.Started? then idle.(init := Working) else idle, Automatic(verdict.BeginCleanup?))
      case UploadFails =>
        var (e, cleanup) := CancelUploadSection(s.entry);
        Move(s, e, idle, Automatic(cleanup))
      case UploadDropped => s.(threads := idle)
  }

  /** Steps of the initializer that neither take the state lock nor end it. */
  function WorkStep(s: Session, ev: WorkEvent): (s': Session)
    ensures LeavesUpdatesAlone(s, s')
  {
    match ev
    case CancelInit =>
      if s.threads.init == Working then s.(entry := WithInitCancelled(s.entry)) else s
    case RecordStarting(ok, landed) =>
      if s.threads.init != Working then s
      else s.(store := WriteRecord(s.store, Record(0, false, s.store.services), ok || landed),
              threads := s.threads.(init := if ok then Working else Failing))
    case SpawnService(service) =>
      if s.threads.init != Working || service in s.store.services then s
      else s.(store := s.store.(services := s.store.services + [service]),
              threads := s.threads.(spawned := true))
    case InitFails =>
      if s.threads.init == Working then s.(threads := s.threads.(init := Failing)) else s
    case RemoveLostRecord(removed) =>
      if s.threads.init != Lost then s
      else s.(store := if removed then s.store.(record := None) else s.store,
              threads := s.threads.(init := Failing))
  }

  /** The initializer's way through commit and cleanup. */
  function CommitStep(s: Session, ev: CommitEvent): (s': Session)
    ensures LeavesUpdatesAlone(s, s')
  {
    match ev
    case InitCheck(now) =>
      if s.threads.init != Working then s
      else
        var (e, proceed) := CommitCheckSection(s.entry, now);
        Move(s, e, s.threads.(init := if proceed then Checked else Failing), None)
    case InitWrite(ok, landed) =>
      if s.threads.init != Checked then s
      else
        var written := s.(store := WriteRecord(s.store, Record(0, true, s.store.services), ok || landed));
        if ok then Move(written, s.entry, s.threads.(init := Written), None)
        else Move(written, AbandonSection(s.entry), s.threads.(init := Failing), None)
    case InitElect(now) =>
      if s.threads.init != Written then s
      else
        var (e, ready) := CommitElectionSection(s.entry, now);
        if ready then
          Move(s.(log := s.log.(retained := Some(s.store.services))), e, s.threads.(init := InitDone), None)
        else Move(s, e, s.threads.(init := Lost), None)
    case InitCleanup =>
      if s.threads.init != Failing then s
      else
        var (e, cleanup) := InitializerCleanupSection(s.entry, false);
        Move(s, e, s.threads.(init := InitDone), cleanup)
  }

  /** Triggers that only look at the entry, and what task processes do to the workspace. */
  function TriggerStep(s: Session, ev: TriggerEvent): (s': Session)
    ensures LeavesUpdatesAlone(s, s')
  {
    match ev
    case TaskWrites(files) =>
      if s.threads.jobs == map[] then s.(store := s.store.(files := files)) else s
    case ServiceFails =>
      if !s.threads.spawned then s
      else
        var (e, cleanup) := ServiceFailedSection(s.entry);
        Move(s, e, s.threads, Automatic(cleanup))
    case Disconnects =>
      if !s.store.registered then s
      else
        var (e, cleanup) := DisconnectSection(s.entry);
        Move(s, e, s.threads, Automatic(cleanup))
    case LifetimeExpires =>
      if !s.store.registered then s
      else
        var (e, cleanup) := ExpireLifetimeSection(s.entry);
        Move(s, e, s.threads, Automatic(cleanup))
    case IdleExpires(idle, now) =>
      if !s.store.registered then s
      else
        var (e, cleanup) := ExpireIdleSection(s.entry, idle, now);
        Move(s, e, s.threads, Automatic(cleanup))
  }

  function StopStep(s: Session, ev: StopEvent): (s': Session)
    ensures LeavesUpdatesAlone(s, s')
  {
    var stops := s.threads.stops;
    match ev
    case StopCalled(call) =>
      if call in stops then s
      else
        var (e, verdict) := if s.store.registered then StopSection(s.entry) else (s.entry, StopConflict);
        (match verdict
         case StopConflict => s.(threads := s.threads.(stops := stops[call := Refused]))
         case StopWaits =>
           s.(entry := e, log := s.log.(winner := Some(call)),
              threads := s.threads.(stops := stops[call := Waiting]))
         case StopCleans =>
           s.(entry := e, log := s.log.(winner := Some(call)),
              threads := s.threads.(stops := stops[call := Cleaning],
                                    cleanups := s.threads.cleanups + [NewCleanup(true, Some(call))])))
    case StopReturns(call) =>
      if call in stops && stops[call].Waiting? && s.entry.state.Terminated? then
        s.(threads := s.threads.(stops := stops[call := Returned(s.entry.state.response)]))
      else s
  }

  function UpdateStep(s: Session, ev: UpdateEvent): Session {
    var jobs := s.threads.jobs;
    match ev
    case StartUpdate(requestId, digest, base, now) =>
      var id := s.threads.nextId;
      if !s.store.registered then s
      else
        var (e, admission) := StartUpdateSection(s.entry, id, requestId, digest, base, now);
        if admission.Admitted? then
          var job := Job(Success(requestId, digest, base), s.store.files, Applying);
          Move(s, e, s.threads.(nextId := id + 1, jobs := jobs[id := job]), None)
        else s
    case UpdateAborts(id, now) =>
      if id !in jobs || !jobs[id].pc.Applying? then s
      else
        var (e, cleanup) := FailUpdateSection(s.entry, id, false, now);
        Move(s, e, s.threads.(jobs := jobs - {id}), cleanup)
    case UpdateApplies(id, outcome) =>
      if id !in jobs || !jobs[id].pc.Applying? || !SourceUpdates.Admissible(s.store.files, outcome)
         || jobs[id].success.base + 1 > U64_MAX then s
      else
        var next := Record(jobs[id].success.base + 1, true, s.store.services);
        s.(store := WriteRecord(s.store.(files := outcome.files), next, outcome.recordLanded),
           threads := s.threads.(jobs := jobs[id := jobs[id].(pc := Closing(outcome))]))
    case UpdateCloses(id, now) =>
      if id !in jobs || !jobs[id].pc.Closing? then s
      else CloseJob(s, id, jobs[id], now)
    case UpdatePanics(id) =>
      if id !in jobs then s
      else
        var (e, cleanup) := if s.store.registered then UpdatePanickedSection(s.entry) else (s.entry, None);
        Move(s, e, s.threads.(jobs := jobs - {id}), cleanup)
  }

  function CloseJob(s: Session, id: nat, job: Job, now: nat): Session
    requires job.pc.Closing?
  {
    var threads := s.threads.(jobs := s.threads.jobs - {id});
    if job.pc.outcome.ok then
      var (e, verdict) := CloseUpdateSection(s.entry, id, job.success, now);
      match verdict
      case Committed => Move(s.(log := s.log.(successes := s.log.successes + [job.success])), e, threads, None)
      case CloseCleanup(explicit) => Move(s, e, threads, Some(explicit))
      case LostOwnership => Move(s, e, threads, None)
    else
      var (e, cleanup) := FailUpdateSection(s.entry, id, job.pc.outcome.rollbackProven, now);
      Move(s, e, threads, cleanup)
  }

  function ActionStep(s: Session, ev: ActionEvent): (s': Session)
    ensures LeavesUpdatesAlone(s, s')
  {
    var actions, delivered := s.threads.actions, s.threads.delivered;
    match ev
    case StartAction(now) =>
      var id := s.threads.nextId;
      if !s.store.registered then s
      else
        var (e, admission) := StartActionSection(s.entry, id, now);
        if admission.ActionAdmitted? then
          Move(s, e, s.threads.(nextId := id + 1, actions := actions[id := false]), None)
        else s
    case CancelAction(id) =>
      if s.entry.state.Action? && s.entry.state.actionId == id then
        s.(entry := s.entry.(state := Action(id, true)))
      else s
    case OfferFinal(id, now) =>
      if id in actions && CanPublish(s.entry, id, now) then
        s.(threads := s.threads.(actions := actions[id := true]))
      else s
    case Ack(id, now) =>
      if !s.store.registered || id !in actions || !actions[id] then s
      else
        var (e, accepted) := AcknowledgeSection(s.entry, id, now);
        Move(s, e,
             if accepted then s.threads.(actions := actions - {id}, delivered := delivered + {id})
             else s.threads, None)
    case Retire(id) =>
      s.(threads := s.threads.(delivered := delivered - {id}))
    case FinishAction(id, now) =>
      if id !in actions && id !in delivered then s
      else
        var (e, cleanup) := FinishActionSection(s.entry, id, false, now);
        Move(s, e, s.threads.(actions := actions - {id}, delivered := delivered - {id}), cleanup)
    case DisconnectsAction(id) =>
      if s.store.registered then s.(entry := DisconnectActionSection(s.entry, id)) else s
  }

  /** How far one step takes an activation of `cleanup_entry`; `ok` is the outcome of its I/O. */
  function Advanced(c: Cleanup, store: Store, ok: bool): Cleanup {
    match c.pc
    case Begin => c.(pc := Stopping, pending := store.services)
    case Stopping =>
      if c.pending == [] then c.(pc := TearingDown)
      else c.(pending := c.pending[..|c.pending| - 1], unproven := c.unproven || !ok)
    case TearingDown => c.(pc := Collecting)
    case Collecting => c.(pc := RemovingWorkspace, archived := c.explicit && store.workspace && ok)
    case RemovingWorkspace => c.(pc := RemovingRecord)
    case RemovingRecord => c.(pc := Deregistering)
    case Deregistering => c.(pc := Releasing)
    case Releasing => c.(pc := Publishing)
    case Publishing => c.(pc := Finished)
    case Finished => c
  }

  function StoreAfter(c: Cleanup, store: Store, ok: bool): Store {
    match c.pc
    case Begin => store.(services := [])
    case RemovingWorkspace => store.(workspace := store.workspace && !ok)
    case RemovingRecord => if !c.unproven && ok then store.(record := None) else store
    case Deregistering => store.(registered := false)
    case Releasing => store.(permit := false)
    case _ => store
  }

  function LogAfter(c: Cleanup, store: Store, log: Log, ok: bool): Log {
    match c.pc
    case Stopping =>
      if c.pending != [] && ok then log.(gone := log.gone + {c.pending[|c.pending| - 1]}) else log
    case TearingDown => if store.workspace then log.(teardowns := log.teardowns + 1) else log
    case Releasing => if store.permit then log.(released := log.released + 1) else log
    case _ => log
  }

  /** The last step publishes the response, to the stop call that runs this cleanup if one does. */
  function StopsAfter(c: Cleanup, stops: map<nat, StopCall>): map<nat, StopCall> {
    if c.pc.Publishing? && c.call.Some? then stops[c.call.value := Returned(Response(c.archived))] else stops
  }

  function StateAfter(c: Cleanup, e: Entry): Entry {
    if c.pc.Publishing? then e.(state := Terminated(Response(c.archived))) else e
  }

  /** One step of the k-th `cleanup_entry`. */
  function CleanupAfter(s: Session, k: nat, ok: bool): (s': Session)
    ensures LeavesUpdatesAlone(s, s')
  {
    if k >= |s.threads.cleanups| then s
    else
      var c := s.threads.cleanups[k];
      Session(StateAfter(c, s.entry),
              StoreAfter(c, s.store, ok),
              s.threads.(cleanups := s.threads.cleanups[k := Advanced(c, s.store, ok)],
                         stops := StopsAfter(c, s.threads.stops)),
              LogAfter(c, s.store, s.log, ok))
  }

  function After(s: Session, ev: Event): Session {
    match ev
    case OnUpload(e) => UploadStep(s, e)
    case OnWork(e) => WorkStep(s, e)
    case OnCommit(e) => CommitStep(s, e)
    case OnTrigger(e) => TriggerStep(s, e)
    case OnStop(e) => StopStep(s, e)
    case OnUpdate(e) => UpdateStep(s, e)
    case OnAction(e) => ActionStep(s, e)
    case CleanupStep(k, ok) => CleanupAfter(s, k, ok)
  }
}
