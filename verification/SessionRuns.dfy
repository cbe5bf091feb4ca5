/**
 Theorems about whole runs of one session: any sequence of events, from its reservation on.
 */
module SessionRuns {
  import opened Common
  import opened SessionEntries
  import opened SessionProtocol
  import opened SessionInvariants

  function Run(start: Session, run: seq<Event>): Session {
    if run == [] then start
    else After(Run(start, run[..|run| - 1]), run[|run| - 1])
  }

  predicate Inv(s: Session) {
    Core(s) && Workers(s) && Recorded(s) && Chain(s.entry, s.log.successes)
  }

  // ------------------------------------------------------------- single steps

  lemma {:induction false} StepKeepsCore(s: Session, ev: Event)
    requires Core(s)
    ensures Core(After(s, ev))
  {
    match ev
    case OnUpload(e) => UploadKeepsCore(s, e);
    case OnWork(e) => WorkKeepsCore(s, e);
    case OnCommit(e) => CommitKeepsCore(s, e);
    case OnTrigger(e) => TriggerKeepsCore(s, e);
    case OnStop(e) => StopKeepsCore(s, e);
    case OnUpdate(e) => UpdateKeepsCore(s, e);
    case OnAction(e) => ActionKeepsCore(s, e);
    case CleanupStep(k, ok) => CleanupKeepsCore(s, k, ok);
  }

  lemma {:induction false} StepKeepsWorkers(s: Session, ev: Event)
    requires Core(s) && Workers(s) && !StaleFinish(s, ev)
    ensures Workers(After(s, ev))
  {
    match ev
    case OnUpload(e) => UploadKeepsWorkers(s, e);
    case OnWork(e) => WorkKeepsWorkers(s, e);
    case OnCommit(e) => CommitKeepsWorkers(s, e);
    case OnTrigger(e) => TriggerKeepsWorkers(s, e);
    case OnStop(e) => StopKeepsWorkers(s, e);
    case OnUpdate(e) => UpdateKeepsWorkers(s, e);
    case OnAction(e) => ActionKeepsWorkers(s, e);
    case CleanupStep(k, ok) => CleanupKeepsWorkers(s, k, ok);
  }

  lemma {:induction false} StepKeepsRecorded(s: Session, ev: Event)
    requires Workers(s) && Recorded(s) && !StaleFinish(s, ev)
    ensures Recorded(After(s, ev))
  {
    match ev
    case OnUpload(e) => UploadKeepsRecorded(s, e);
    case OnWork(e) => WorkKeepsRecorded(s, e);
    case OnCommit(e) => CommitKeepsRecorded(s, e);
    case OnTrigger(e) => TriggerKeepsRecorded(s, e);
    case OnStop(e) => StopKeepsRecorded(s, e);
    case OnUpdate(e) => UpdateKeepsRecorded(s, e);
    case OnAction(e) => ActionKeepsRecorded(s, e);
    case CleanupStep(k, ok) => CleanupKeepsRecorded(s, k, ok);
  }

  /** The chain of successes only grows at a commit, whose base is the current revision. */
  lemma {:induction false} StepKeepsChain(s: Session, ev: Event)
    requires Chain(s.entry, s.log.successes)
    requires s.entry.state.Live() ==> Workers(s) && Recorded(s)
    ensures Chain(After(s, ev).entry, After(s, ev).log.successes)
  {
    if ev.OnUpdate? {
      UpdateKeepsChain(s, ev.update);
    }
  }

  lemma {:induction false} UpdateKeepsChain(s: Session, ev: UpdateEvent)
    requires Chain(s.entry, s.log.successes)
    requires s.entry.state.Live() ==> Workers(s) && Recorded(s)
    ensures Chain(UpdateStep(s, ev).entry, UpdateStep(s, ev).log.successes)
  {
    if ev.UpdateCloses? && ev.updateId in s.threads.jobs && s.entry.state.Updating? {
      OnlyJob(s, ev.updateId);
      assert JobDurable(s.entry.revision, s.store, s.log.retained.value, s.threads.jobs[ev.updateId]);
    }
  }

  predicate KeepsElection(s: Session, s': Session) {
    && !s'.entry.state.Live()
    && s'.log.winner == s.log.winner
    && (s'.entry.state.Terminating? ==> s'.entry.state == s.entry.state)
  }

  /** A terminated or terminating session keeps its election; only the response may be published. */
  lemma {:induction false} StepNeverRevives(s: Session, ev: Event)
    requires Core(s) && !s.entry.state.Live()
    ensures KeepsElection(s, After(s, ev))
  {
  }

  lemma {:induction false} ElectionKeptTwice(a: Session, b: Session, c: Session)
    requires KeepsElection(a, b) && KeepsElection(b, c)
    ensures KeepsElection(a, c)
  {
  }

  // --------------------------------------------------------------- whole runs

  /** The state after the first k events. */
  function At(deadline: nat, files: Files, run: seq<Event>, k: nat): Session
    requires k <= |run|
  {
    Run(Reserved(deadline, files), run[..k])
  }

  lemma {:induction false} AtNext(deadline: nat, files: Files, run: seq<Event>, k: nat)
    requires k < |run|
    ensures At(deadline, files, run, k + 1) == After(At(deadline, files, run, k), run[k])
  {
    assert run[..k + 1][..k] == run[..k];
  }

  /** No acknowledged action worker gives up into a later action's termination. */
  predicate Punctual(deadline: nat, files: Files, run: seq<Event>) {
    forall k :: 0 <= k < |run| ==> !StaleFinish(At(deadline, files, run, k), run[k])
  }

  /** At most one cleanup, and nobody at work on the workspace once it was started. */
  predicate Exclusive(s: Session) {
    |s.threads.cleanups| <= 1 && (s.threads.cleanups != [] ==> NobodyAtWork(s.threads))
  }

  predicate ExclusiveThroughout(deadline: nat, files: Files, run: seq<Event>) {
    forall k :: 0 <= k <= |run| ==> Exclusive(At(deadline, files, run, k))
  }

  lemma {:induction false} CoreAlways(deadline: nat, files: Files, run: seq<Event>, k: nat)
    requires k <= |run|
    ensures Core(At(deadline, files, run, k))
  {
    if k > 0 {
      CoreAlways(deadline, files, run, k - 1);
      AtNext(deadline, files, run, k - 1);
      StepKeepsCore(At(deadline, files, run, k - 1), run[k - 1]);
    }
  }

  /** The full invariant holds up to any moment before which no stale finish happened. */
  lemma {:induction false} InvWhilePunctual(deadline: nat, files: Files, run: seq<Event>, k: nat)
    requires k <= |run|
    requires forall j :: 0 <= j < k ==> !StaleFinish(At(deadline, files, run, j), run[j])
    ensures Inv(At(deadline, files, run, k))
  {
    if k > 0 {
      var s := At(deadline, files, run, k - 1);
      InvWhilePunctual(deadline, files, run, k - 1);
      AtNext(deadline, files, run, k - 1);
      assert !StaleFinish(s, run[k - 1]);
      StepKeepsCore(s, run[k - 1]);
      StepKeepsWorkers(s, run[k - 1]);
      StepKeepsRecorded(s, run[k - 1]);
      StepKeepsChain(s, run[k - 1]);
    }
  }

  lemma {:induction false} InvIsExclusive(s: Session)
    requires Workers(s)
    ensures Exclusive(s)
  {
  }

  /** A stale finish always starts a cleanup beside a worker or beside another cleanup. */
  lemma {:induction false} StaleFinishOverlaps(s: Session, ev: Event)
    requires Workers(s) && StaleFinish(s, ev)
    ensures !Exclusive(After(s, ev))
  {
    var id := ev.action.actionId;
    assert id !in s.threads.actions;
    assert s.threads.actions - {id} == s.threads.actions;
    assert |After(s, ev).threads.cleanups| == |s.threads.cleanups| + 1;
  }

  /**
   Cleanup runs at most once and never overlaps an initializer, action or update worker,
   in exactly the runs without a stale finish.
   */
  lemma {:induction false} CleanupIsExclusiveExactlyWhenPunctual(deadline: nat, files: Files, run: seq<Event>)
    ensures ExclusiveThroughout(deadline, files, run) <==> Punctual(deadline, files, run)
  {
    if Punctual(deadline, files, run) {
      forall k | 0 <= k <= |run| ensures Exclusive(At(deadline, files, run, k)) {
        InvWhilePunctual(deadline, files, run, k);
        InvIsExclusive(At(deadline, files, run, k));
      }
    } else {
      var k := FirstStale(deadline, files, run);
      InvWhilePunctual(deadline, files, run, k);
      StaleFinishOverlaps(At(deadline, files, run, k), run[k]);
      AtNext(deadline, files, run, k);
    }
  }

  lemma {:induction false} FirstStale(deadline: nat, files: Files, run: seq<Event>) returns (k: nat)
    requires !Punctual(deadline, files, run)
    ensures k < |run| && StaleFinish(At(deadline, files, run, k), run[k])
    ensures forall j :: 0 <= j < k ==> !StaleFinish(At(deadline, files, run, j), run[j])
  {
    var stale := (k: nat) => k < |run| && StaleFinish(At(deadline, files, run, k), run[k]);
    var last :| 0 <= last < |run| && StaleFinish(At(deadline, files, run, last), run[last]);
    assert stale(last);
    k := First(stale, last);
    assert stale(k);
    forall j | 0 <= j < k ensures !StaleFinish(At(deadline, files, run, j), run[j]) {
      assert !stale(j);
    }
  }

  lemma {:induction false} First(p: nat -> bool, last: nat) returns (k: nat)
    requires p(last)
    ensures k <= last && p(k) && forall j :: 0 <= j < k ==> !p(j)
  {
    if j: nat :| j < last && p(j) {
      k := First(p, j);
    } else {
      k := last;
    }
  }

  function Unfinished(cleanups: seq<Cleanup>): nat {
    if cleanups == [] then 0
    else (if cleanups[0].pc.Finished? then 0 else 1) + Unfinished(cleanups[1..])
  }

  /** Threads that still owe the session its cleanup or are running it. */
  function Parties(t: Threads): nat {
    (if InitRunning(t.init) then 1 else 0) + |t.actions| + |t.jobs| + Unfinished(t.cleanups)
  }

  lemma {:induction false} OneParty(s: Session)
    requires Workers(s) && s.entry.state.Terminating?
    ensures Parties(s.threads) == 1
  {
    if s.threads.cleanups != [] {
      assert s.threads.cleanups[1..] == [];
      assert Unfinished(s.threads.cleanups) == 1 + Unfinished([]);
      assert s.threads.actions == map[] && s.threads.jobs == map[];
    }
  }

  /** While a termination is pending exactly one party is outstanding, and it is the elected owner. */
  lemma {:induction false} ExactlyOneOwner(deadline: nat, files: Files, run: seq<Event>)
    requires Punctual(deadline, files, run)
    ensures
      var s := Run(Reserved(deadline, files), run);
      s.entry.state.Terminating? ==>
        && Parties(s.threads) == 1
        && (s.threads.cleanups == [] ==> OwnerAtWork(s.entry.state.owner, s.threads))
        && (s.entry.state.owner == Requester ==> |s.threads.cleanups| == 1)
  {
    assert run[..|run|] == run;
    InvWhilePunctual(deadline, files, run, |run|);
    if Run(Reserved(deadline, files), run).entry.state.Terminating? {
      OneParty(Run(Reserved(deadline, files), run));
    }
  }

  lemma {:induction false} NextNeverRevives(deadline: nat, files: Files, run: seq<Event>, k: nat)
    requires k < |run| && !At(deadline, files, run, k).entry.state.Live()
    ensures KeepsElection(At(deadline, files, run, k), At(deadline, files, run, k + 1))
  {
    CoreAlways(deadline, files, run, k);
    AtNext(deadline, files, run, k);
    StepNeverRevives(At(deadline, files, run, k), run[k]);
  }

  /** Once termination is elected no later event of any run brings a live state back. */
  lemma {:induction false} NeverRevives(deadline: nat, files: Files, run: seq<Event>, j: nat, k: nat)
    requires j <= k <= |run| && !At(deadline, files, run, j).entry.state.Live()
    ensures KeepsElection(At(deadline, files, run, j), At(deadline, files, run, k))
  {
    if j < k {
      NeverRevives(deadline, files, run, j, k - 1);
      NextNeverRevives(deadline, files, run, k - 1);
      ElectionKeptTwice(At(deadline, files, run, j), At(deadline, files, run, k - 1), At(deadline, files, run, k));
    }
  }

  /** The moment a stop call made the election. */
  predicate ElectedAt(deadline: nat, files: Files, run: seq<Event>, k: nat, call: nat) {
    && k < |run| && run[k] == OnStop(StopCalled(call))
    && At(deadline, files, run, k).entry.state.Live()
    && At(deadline, files, run, k + 1).entry.state.Terminating?
    && At(deadline, files, run, k + 1).entry.state.explicit
  }

  lemma {:induction false} StepElects(s: Session, ev: Event, call: nat)
    requires Core(s) && s.log.winner != Some(call) && After(s, ev).log.winner == Some(call)
    ensures ev == OnStop(StopCalled(call)) && s.entry.state.Live()
    ensures After(s, ev).entry.state.Terminating? && After(s, ev).entry.state.explicit
  {
  }

  lemma {:induction false} WinnerWasElected(deadline: nat, files: Files, run: seq<Event>, n: nat, call: nat)
    requires n <= |run| && At(deadline, files, run, n).log.winner == Some(call)
    ensures exists k :: 0 <= k < n && ElectedAt(deadline, files, run, k, call)
  {
    if n > 0 {
      var s := At(deadline, files, run, n - 1);
      AtNext(deadline, files, run, n - 1);
      CoreAlways(deadline, files, run, n - 1);
      if s.log.winner == Some(call) {
        WinnerWasElected(deadline, files, run, n - 1, call);
      } else {
        StepElects(s, run[n - 1], call);
        assert ElectedAt(deadline, files, run, n - 1, call);
      }
    }
  }

  /** In every run at most one stop call succeeds, and it is one that made the election itself. */
  lemma {:induction false} OneStopSucceeds(deadline: nat, files: Files, run: seq<Event>, a: nat)
    requires
      var stops := Run(Reserved(deadline, files), run).threads.stops;
      a in stops && stops[a].Returned?
    ensures exists k :: 0 <= k < |run| && ElectedAt(deadline, files, run, k, a)
    ensures
      var stops := Run(Reserved(deadline, files), run).threads.stops;
      forall b <- stops :: stops[b].Returned? ==> b == a
  {
    assert run[..|run|] == run;
    CoreAlways(deadline, files, run, |run|);
    WinnerWasElected(deadline, files, run, |run|, a);
  }

  /** Every cleanup gets the elected flag, and only an explicit election collects final artifacts. */
  lemma {:induction false} CleanupUsesElectedFlag(deadline: nat, files: Files, run: seq<Event>, k: nat)
    requires
      var s := Run(Reserved(deadline, files), run);
      k < |s.threads.cleanups|
    ensures
      var s := Run(Reserved(deadline, files), run);
      var c := s.threads.cleanups[k];
      var explicit := exists j, call :: 0 <= j < |run| && ElectedAt(deadline, files, run, j, call);
      && c.explicit == explicit
      && (s.entry.state.Terminating? ==> s.entry.state.explicit == explicit)
      && (c.archived ==> explicit)
      && (s.entry.state.Terminated? && s.entry.state.response.artifacts ==> explicit)
  {
    var s := Run(Reserved(deadline, files), run);
    assert run[..|run|] == run;
    CoreAlways(deadline, files, run, |run|);
    assert s.threads.cleanups[k] in s.threads.cleanups;
    if s.log.winner.Some? {
      WinnerWasElected(deadline, files, run, |run|, s.log.winner.value);
    } else if j, call :| 0 <= j < |run| && ElectedAt(deadline, files, run, j, call) {
      CoreAlways(deadline, files, run, j + 1);
      NeverRevives(deadline, files, run, j + 1, |run|);
    }
  }

  // ---------------------------------------------------- revisions and records

  /** A stale finish needs a pending termination, so a live session is always in full order. */
  lemma {:induction false} LiveIsInOrder(deadline: nat, files: Files, run: seq<Event>, k: nat)
    requires k <= |run|
    ensures At(deadline, files, run, k).entry.state.Live() ==> Inv(At(deadline, files, run, k))
    ensures Chain(At(deadline, files, run, k).entry, At(deadline, files, run, k).log.successes)
  {
    if k > 0 {
      var s := At(deadline, files, run, k - 1);
      LiveIsInOrder(deadline, files, run, k - 1);
      CoreAlways(deadline, files, run, k - 1);
      AtNext(deadline, files, run, k - 1);
      StepKeepsChain(s, run[k - 1]);
      if s.entry.state.Live() {
        StepKeepsCore(s, run[k - 1]);
        StepKeepsWorkers(s, run[k - 1]);
        StepKeepsRecorded(s, run[k - 1]);
      } else {
        StepNeverRevives(s, run[k - 1]);
      }
    }
  }

  // ------------------------------------------------------------ who cleans up

  /** On whose behalf an event may start a cleanup. */
  function CallerOf(ev: Event): Owner {
    match ev
    case OnUpload(_) => Requester
    case OnWork(_) => Initializer
    case OnCommit(_) => Initializer
    case OnTrigger(_) => Requester
    case OnStop(_) => Requester
    case OnUpdate(_) => UpdateWorker
    case OnAction(_) => ActionWorker
    case CleanupStep(_, _) => Requester
  }

  /** A session that ends here leaves the cleanup with its worker, or with the handler of a worker that panicked. */
  predicate LeavesDuty(s: Session, ev: Event, s': Session) {
    s.entry.state.Live() && !s'.entry.state.Live() ==>
      && s'.entry.state.Terminating?
      && (|| s'.entry.state.owner == OwnerFor(s.entry.state)
          || (ev.OnUpdate? && ev.update.UpdatePanics? && s.entry.state.Updating? && s'.entry.state.owner == Requester))
  }

  /** A cleanup is started only by the party whose duty it is; a requester must have made the election. */
  predicate StartsByDuty(s: Session, ev: Event, s': Session) {
    |s'.threads.cleanups| > |s.threads.cleanups| ==>
      && Duty(s.entry.state) == Some(CallerOf(ev))
      && (CallerOf(ev) == Requester ==> s.entry.state.Live())
      && |s'.threads.cleanups| == |s.threads.cleanups| + 1
      && !s'.entry.state.Live()
  }

  predicate Dutiful(s: Session, ev: Event, s': Session) {
    LeavesDuty(s, ev, s') && StartsByDuty(s, ev, s')
  }

  lemma {:induction false} CommitIsDutiful(s: Session, ev: CommitEvent)
    requires s.entry.state.Live() ==> Workers(s)
    ensures Dutiful(s, OnCommit(ev), CommitStep(s, ev))
  {
  }

  lemma {:induction false} TriggerIsDutiful(s: Session, ev: TriggerEvent)
    requires s.entry.state.Live() ==> Workers(s)
    ensures Dutiful(s, OnTrigger(ev), TriggerStep(s, ev))
  {
  }

  lemma {:induction false} UpdateIsDutiful(s: Session, ev: UpdateEvent)
    ensures Dutiful(s, OnUpdate(ev), UpdateStep(s, ev))
  {
  }

  lemma {:induction false} ActionIsDutiful(s: Session, ev: ActionEvent)
    ensures Dutiful(s, OnAction(ev), ActionStep(s, ev))
  {
  }

  lemma {:induction false} UploadIsDutiful(s: Session, ev: UploadEvent)
    ensures Dutiful(s, OnUpload(ev), UploadStep(s, ev))
  {
  }

  lemma {:induction false} StopIsDutiful(s: Session, ev: StopEvent)
    ensures Dutiful(s, OnStop(ev), StopStep(s, ev))
  {
  }

  lemma {:induction false} CleanupIsDutiful(s: Session, k: nat, ok: bool)
    requires s.entry.state.Live() ==> Workers(s)
    ensures Dutiful(s, CleanupStep(k, ok), CleanupAfter(s, k, ok))
  {
  }

  lemma {:induction false} StepIsDutiful(s: Session, ev: Event)
    requires s.entry.state.Live() ==> Workers(s)
    ensures Dutiful(s, ev, After(s, ev))
  {
    match ev
    case OnUpload(e) => UploadIsDutiful(s, e);
    case OnStop(e) => StopIsDutiful(s, e);
    case CleanupStep(k, ok) => CleanupIsDutiful(s, k, ok);
    case OnCommit(e) => CommitIsDutiful(s, e);
    case OnTrigger(e) => TriggerIsDutiful(s, e);
    case OnUpdate(e) => UpdateIsDutiful(s, e);
    case OnAction(e) => ActionIsDutiful(s, e);
    case _ =>
  }

  /** In every run, with stale finishes or without, terminations and cleanups fall to whoever has the duty. */
  lemma {:induction false} CleanupFollowsDuty(deadline: nat, files: Files, run: seq<Event>, k: nat)
    requires k < |run|
    ensures Dutiful(At(deadline, files, run, k), run[k], At(deadline, files, run, k + 1))
  {
    LiveIsInOrder(deadline, files, run, k);
    AtNext(deadline, files, run, k);
    StepIsDutiful(At(deadline, files, run, k), run[k]);
  }

  /**
   In every run the successful updates form the chain rev_0, rev_1, ... with one success per
   base revision, and while the session is Ready or in an action the durable revision is the
   one held in memory.
   */
  lemma {:induction false} RevisionsFormAChain(deadline: nat, files: Files, run: seq<Event>)
    ensures
      var s := Run(Reserved(deadline, files), run);
      && s.entry.revision == |s.log.successes|
      && (forall i :: 0 <= i < |s.log.successes| ==> s.log.successes[i].base == i)
      && (s.entry.state.Ready? || s.entry.state.Action? ==>
            s.store.record == Some(Record(s.entry.revision, true, s.store.services)))
  {
    assert run[..|run|] == run;
    LiveIsInOrder(deadline, files, run, |run|);
  }

  /** An exact retry of the latest success changes nothing at all. */
  lemma {:induction false} ExactRetryChangesNothing(deadline: nat, files: Files, run: seq<Event>, base: nat, now: nat)
    requires
      var s := Run(Reserved(deadline, files), run);
      s.log.successes != [] && s.entry.state.Ready?
    ensures
      var s := Run(Reserved(deadline, files), run);
      var latest := s.log.successes[|s.log.successes| - 1];
      && After(s, OnUpdate(StartUpdate(latest.requestId, latest.digest, base, now))) == s
      && (now < s.entry.deadline ==>
            StartUpdateSection(s.entry, s.threads.nextId, latest.requestId, latest.digest, base, now).1 == Retried(latest))
  {
    assert run[..|run|] == run;
    LiveIsInOrder(deadline, files, run, |run|);
  }

  /** The update was admitted at step j, and the workspace then held `before`. */
  predicate AdmittedAt(deadline: nat, files: Files, run: seq<Event>, j: nat, id: nat, before: Files) {
    && j < |run| && run[j].OnUpdate? && run[j].update.StartUpdate?
    && At(deadline, files, run, j).threads.nextId == id
    && At(deadline, files, run, j).store.files == before
  }

  predicate Admits(s: Session, ev: Event, s': Session, id: nat)
    requires id in s'.threads.jobs
  {
    || (id in s.threads.jobs && s.threads.jobs[id].before == s'.threads.jobs[id].before)
    || (ev.OnUpdate? && ev.update.StartUpdate? && s.threads.nextId == id
        && s'.threads.jobs[id].before == s.store.files)
  }

  lemma {:induction false} UpdateStepAdmits(s: Session, ev: UpdateEvent, id: nat)
    requires id in UpdateStep(s, ev).threads.jobs
    ensures Admits(s, OnUpdate(ev), UpdateStep(s, ev), id)
  {
  }

  lemma {:induction false} StepAdmits(s: Session, ev: Event, id: nat)
    requires id in After(s, ev).threads.jobs
    ensures Admits(s, ev, After(s, ev), id)
  {
    if ev.OnUpdate? {
      UpdateStepAdmits(s, ev.update, id);
    }
  }

  lemma {:induction false} JobWasAdmitted(deadline: nat, files: Files, run: seq<Event>, n: nat, id: nat)
    requires n <= |run| && id in At(deadline, files, run, n).threads.jobs
    ensures
      var before := At(deadline, files, run, n).threads.jobs[id].before;
      exists j :: 0 <= j < n && AdmittedAt(deadline, files, run, j, id, before)
  {
    if n > 0 {
      var s := At(deadline, files, run, n - 1);
      AtNext(deadline, files, run, n - 1);
      StepAdmits(s, run[n - 1], id);
      if id in s.threads.jobs && s.threads.jobs[id].before == At(deadline, files, run, n).threads.jobs[id].before {
        JobWasAdmitted(deadline, files, run, n - 1, id);
      } else {
        assert AdmittedAt(deadline, files, run, n - 1, id, s.store.files);
      }
    }
  }

  lemma {:induction false} FailedJobRestores(s: Session, id: nat, now: nat)
    requires Workers(s) && Recorded(s) && id in s.threads.jobs
    requires s.threads.jobs[id].pc.Closing? && !s.threads.jobs[id].pc.outcome.ok
    requires After(s, OnUpdate(UpdateCloses(id, now))).entry.state.Ready?
    ensures
      var s' := After(s, OnUpdate(UpdateCloses(id, now)));
      && s'.store.files == s.threads.jobs[id].before
      && s'.entry.revision == s.entry.revision && s'.entry.last == s.entry.last
      && s'.store.record == Some(Record(s.entry.revision, true, s.store.services))
  {
    OnlyJob(s, id);
    assert JobDurable(s.entry.revision, s.store, s.log.retained.value, s.threads.jobs[id]);
  }

  /**
   In every run an update that fails back to Ready leaves the workspace files as they were
   when it was admitted, and memory and durable record at the same revision.
   */
  lemma {:induction false} FailedUpdateLeavesFilesAlone(deadline: nat, files: Files, run: seq<Event>, id: nat, now: nat)
    requires
      var s := Run(Reserved(deadline, files), run);
      && id in s.threads.jobs && s.threads.jobs[id].pc.Closing? && !s.threads.jobs[id].pc.outcome.ok
      && After(s, OnUpdate(UpdateCloses(id, now))).entry.state.Ready?
    ensures
      var s := Run(Reserved(deadline, files), run);
      var s' := After(s, OnUpdate(UpdateCloses(id, now)));
      && (exists j :: 0 <= j < |run| && AdmittedAt(deadline, files, run, j, id, s'.store.files))
      && s'.entry.revision == s.entry.revision
      && s'.store.record == Some(Record(s.entry.revision, true, s.store.services))
  {
    var s := Run(Reserved(deadline, files), run);
    assert run[..|run|] == run;
    CoreAlways(deadline, files, run, |run|);
    if !s.entry.state.Live() {
      StepNeverRevives(s, OnUpdate(UpdateCloses(id, now)));
    }
    LiveIsInOrder(deadline, files, run, |run|);
    FailedJobRestores(s, id, now);
    JobWasAdmitted(deadline, files, run, |run|, id);
  }

  /**
   A session that became Ready loses its durable record only after every service group it
   retained was observed gone.
   */
  lemma {:induction false} RecordOutlivesServices(deadline: nat, files: Files, run: seq<Event>)
    requires Punctual(deadline, files, run)
    ensures
      var s := Run(Reserved(deadline, files), run);
      s.log.retained.Some? ==>
        if s.store.record.None? then AllGone(s.log.retained.value, s.log.gone)
        else s.store.record.value.services == s.log.retained.value
  {
    assert run[..|run|] == run;
    InvWhilePunctual(deadline, files, run, |run|);
    var s := Run(Reserved(deadline, files), run);
    if s.log.retained.Some? && s.store.record.None? {
      assert s.threads.cleanups != [] && s.threads.cleanups[0] in s.threads.cleanups;
    }
  }
}
