/**
 What a Ready session is good for: in every run it takes an update or an action and is Ready
 again afterwards, and it expires by idleness exactly when it has been Ready for long enough.
 */
module SessionProgress {
  import opened Common
  import opened SessionEntries
  import opened SessionProtocol
  import opened SessionInvariants
  import opened SessionRuns
  import SourceUpdates

  // -------------------------------------------------------------------------- idleness

  /** The steps that make a session Ready: the first commit, an acknowledgement, the close of an update. */
  predicate MakesReady(ev: Event, now: nat) {
    || ev == OnCommit(InitElect(now))
    || (ev.OnAction? && ev.action.Ack? && ev.action.now == now)
    || (ev.OnUpdate? && ev.update.UpdateCloses? && ev.update.now == now)
  }

  predicate ReadyBy(s: Session, ev: Event, s': Session) {
    s'.entry.state.Ready? ==>
      || s.entry.state == s'.entry.state
      || (!s.entry.state.Ready? && MakesReady(ev, s'.entry.state.lastActivity))
  }

  lemma {:induction false} UpdateMakesReady(s: Session, ev: UpdateEvent)
    ensures ReadyBy(s, OnUpdate(ev), UpdateStep(s, ev))
  {
  }

  lemma {:induction false} ActionMakesReady(s: Session, ev: ActionEvent)
    ensures ReadyBy(s, OnAction(ev), ActionStep(s, ev))
  {
  }

  lemma {:induction false} CommitMakesReady(s: Session, ev: CommitEvent)
    ensures ReadyBy(s, OnCommit(ev), CommitStep(s, ev))
  {
  }

  lemma {:induction false} StepMakesReady(s: Session, ev: Event)
    ensures ReadyBy(s, ev, After(s, ev))
  {
    match ev
    case OnUpdate(e) => UpdateMakesReady(s, e);
    case OnAction(e) => ActionMakesReady(s, e);
    case OnCommit(e) => CommitMakesReady(s, e);
    case _ =>
  }

  /** From step `j` to moment `n` the session has been Ready, since time `now`. */
  predicate ReadySince(deadline: nat, files: Files, run: seq<Event>, j: nat, n: nat, now: nat)
    requires n <= |run|
  {
    && j < n && MakesReady(run[j], now) && !At(deadline, files, run, j).entry.state.Ready?
    && forall k :: j < k <= n ==> At(deadline, files, run, k).entry.state == Ready(now)
  }

  lemma {:induction false} ReadyBegan(deadline: nat, files: Files, run: seq<Event>, n: nat) returns (j: nat)
    requires n <= |run| && At(deadline, files, run, n).entry.state.Ready?
    ensures ReadySince(deadline, files, run, j, n, At(deadline, files, run, n).entry.state.lastActivity)
  {
    var before := At(deadline, files, run, n - 1);
    AtNext(deadline, files, run, n - 1);
    StepMakesReady(before, run[n - 1]);
    if before.entry.state.Ready? {
      j := ReadyBegan(deadline, files, run, n - 1);
    } else {
      j := n - 1;
    }
  }

  lemma {:induction false} LiveIsRegistered(deadline: nat, files: Files, run: seq<Event>)
    requires Run(Reserved(deadline, files), run).entry.state.Live()
    ensures Run(Reserved(deadline, files), run).store.registered
  {
    assert run[..|run|] == run;
    CoreAlways(deadline, files, run, |run|);
  }

  ghost predicate IdleFor(deadline: nat, files: Files, run: seq<Event>, idle: nat, now: nat) {
    exists j: nat, since: nat :: ReadySince(deadline, files, run, j, |run|, since) && since + idle <= now
  }

  /** In every run the idle timer ends a live session exactly when it has been Ready that long. */
  lemma {:induction false} IdleExpiryIsExact(deadline: nat, files: Files, run: seq<Event>, idle: nat, now: nat)
    requires Run(Reserved(deadline, files), run).entry.state.Live()
    ensures
      var s := Run(Reserved(deadline, files), run);
      !After(s, OnTrigger(IdleExpires(idle, now))).entry.state.Live() <==> IdleFor(deadline, files, run, idle, now)
  {
    var s := Run(Reserved(deadline, files), run);
    assert run[..|run|] == run;
    LiveIsRegistered(deadline, files, run);
    if s.entry.state.Ready? {
      var j := ReadyBegan(deadline, files, run, |run|);
    }
    if j: nat, since: nat :| ReadySince(deadline, files, run, j, |run|, since) && since + idle <= now {
      assert At(deadline, files, run, |run|).entry.state == Ready(since);
    }
  }

  // -------------------------------------------------------------------------- triggers

  /** In every run: what ends a live session, and what does not. */
  lemma {:induction false} TriggersEndSessions(deadline: nat, files: Files, run: seq<Event>)
    requires Run(Reserved(deadline, files), run).entry.state.Live()
    ensures
      var s := Run(Reserved(deadline, files), run);
      && !After(s, OnTrigger(LifetimeExpires)).entry.state.Live()
      && (After(s, OnTrigger(ServiceFails)).entry.state.Live() <==> !s.threads.spawned)
      && (After(s, OnTrigger(Disconnects)).entry.state.Live() <==> !s.entry.state.Initializing?)
  {
    LiveIsRegistered(deadline, files, run);
  }

  /** A new stop call on a live session makes the election, and is answered by the cleanup. */
  lemma {:induction false} StopEndsSession(deadline: nat, files: Files, run: seq<Event>, call: nat)
    requires
      var s := Run(Reserved(deadline, files), run);
      s.entry.state.Live() && call !in s.threads.stops
    ensures
      var s := Run(Reserved(deadline, files), run);
      var s' := After(s, OnStop(StopCalled(call)));
      && s'.entry.state == Terminating(true, OwnerFor(s.entry.state)) && s'.log.winner == Some(call)
      && s'.threads.stops == s.threads.stops[call := if OwnerFor(s.entry.state) == Requester then Cleaning else Waiting]
  {
    LiveIsRegistered(deadline, files, run);
  }

  // --------------------------------------------------------------------------- updates

  predicate Open(s: Session, now: nat) {
    Core(s) && Workers(s) && Recorded(s) && s.entry.state.Ready? && now < s.entry.deadline
  }

  lemma {:induction false} ReadyIsOpen(deadline: nat, files: Files, run: seq<Event>, now: nat)
    requires
      var s := Run(Reserved(deadline, files), run);
      s.entry.state.Ready? && now < s.entry.deadline
    ensures Open(Run(Reserved(deadline, files), run), now)
  {
    assert run[..|run|] == run;
    LiveIsInOrder(deadline, files, run, |run|);
  }

  predicate NewRequest(e: Entry, requestId: nat) {
    e.last.Some? ==> e.last.value.requestId != requestId
  }

  function WithJob(s: Session, id: nat, job: Job): Session {
    s.(entry := s.entry.(state := Updating(id, false)),
       threads := s.threads.(nextId := id + 1, jobs := map[id := job]))
  }

  lemma {:induction false} UpdateStarts(s: Session, requestId: nat, digest: nat, now: nat)
    requires Open(s, now) && NewRequest(s.entry, requestId)
    ensures
      var id, base := s.threads.nextId, s.entry.revision;
      After(s, OnUpdate(StartUpdate(requestId, digest, base, now))) ==
      WithJob(s, id, Job(Success(requestId, digest, base), s.store.files, Applying))
  {
    assert s.threads.jobs == map[];
  }

  lemma {:induction false} UpdateIsApplied(s: Session, id: nat, job: Job, outcome: Outcome)
    requires job.pc.Applying? && SourceUpdates.Admissible(s.store.files, outcome) && job.success.base + 1 <= U64_MAX
    ensures
      var next := Record(job.success.base + 1, true, s.store.services);
      var store := WriteRecord(s.store.(files := outcome.files), next, outcome.recordLanded);
      After(WithJob(s, id, job), OnUpdate(UpdateApplies(id, outcome))) ==
      WithJob(s.(store := store), id, job.(pc := Closing(outcome)))
  {
    var next := job.(pc := Closing(outcome));
    assert map[id := job][id := next] == map[id := next];
  }

  lemma {:induction false} NoJobLeft(id: nat, job: Job)
    ensures map[id := job] - {id} == map[]
  {
  }

  /** What an update that was closed leaves: Ready again, with these files and this record. */
  predicate Settled(s: Session, s': Session, now: nat, revision: nat, last: Option<Success>, files: Files) {
    && s'.entry == s.entry.(state := Ready(now), revision := revision, last := last)
    && s'.store.files == files && s'.store.services == s.store.services
    && s'.store.record == Some(Record(revision, true, s.store.services))
    && s'.threads == s.threads.(nextId := s.threads.nextId + 1)
  }

  lemma {:induction false} UpdateIsClosed(s: Session, id: nat, job: Job, now: nat)
    requires job.pc.Closing? && job.pc.outcome.ok && now < s.entry.deadline && s.threads.jobs == map[]
    ensures
      var s' := After(WithJob(s, id, job), OnUpdate(UpdateCloses(id, now)));
      && s'.entry == s.entry.(state := Ready(now), revision := job.success.base + 1, last := Some(job.success))
      && s'.store == s.store && s'.threads == s.threads.(nextId := id + 1)
  {
    NoJobLeft(id, job);
  }

  lemma {:induction false} UpdateIsUndone(s: Session, id: nat, job: Job, now: nat)
    requires job.pc.Closing? && !job.pc.outcome.ok && job.pc.outcome.rollbackProven && s.threads.jobs == map[]
    ensures
      var s' := After(WithJob(s, id, job), OnUpdate(UpdateCloses(id, now)));
      && s'.entry == s.entry.(state := Ready(now))
      && s'.store == s.store && s'.threads == s.threads.(nextId := id + 1)
  {
    NoJobLeft(id, job);
  }

  function UpdateRun(s: Session, requestId: nat, digest: nat, outcome: Outcome, now: nat): Session {
    var s1 := After(s, OnUpdate(StartUpdate(requestId, digest, s.entry.revision, now)));
    var s2 := After(s1, OnUpdate(UpdateApplies(s.threads.nextId, outcome)));
    After(s2, OnUpdate(UpdateCloses(s.threads.nextId, now)))
  }

  /**
   In every run a Ready session admits a new request on its revision.  A transaction that
   succeeds makes it Ready at the next revision with the new files; one that is rolled back makes
   it Ready with files, revision and record as they were.
   */
  lemma {:induction false} UpdatesComplete(deadline: nat, files: Files, run: seq<Event>, requestId: nat, digest: nat,
                                           outcome: Outcome, now: nat)
    requires
      var s := Run(Reserved(deadline, files), run);
      && s.entry.state.Ready? && now < s.entry.deadline && NewRequest(s.entry, requestId)
      && s.entry.revision < U64_MAX && SourceUpdates.Admissible(s.store.files, outcome)
    ensures
      var s := Run(Reserved(deadline, files), run);
      var s' := UpdateRun(s, requestId, digest, outcome, now);
      var base := s.entry.revision;
      && (outcome.ok ==> Settled(s, s', now, base + 1, Some(Success(requestId, digest, base)), outcome.files))
      && (!outcome.ok && outcome.rollbackProven ==> Settled(s, s', now, base, s.entry.last, s.store.files))
  {
    var s := Run(Reserved(deadline, files), run);
    ReadyIsOpen(deadline, files, run, now);
    UpdateSettles(s, requestId, digest, outcome, now);
  }

  lemma {:induction false} UpdateSettles(s: Session, requestId: nat, digest: nat, outcome: Outcome, now: nat)
    requires Open(s, now) && NewRequest(s.entry, requestId)
    requires s.entry.revision < U64_MAX && SourceUpdates.Admissible(s.store.files, outcome)
    ensures
      var s' := UpdateRun(s, requestId, digest, outcome, now);
      var base := s.entry.revision;
      && (outcome.ok ==> Settled(s, s', now, base + 1, Some(Success(requestId, digest, base)), outcome.files))
      && (!outcome.ok && outcome.rollbackProven ==> Settled(s, s', now, base, s.entry.last, s.store.files))
  {
    var id, base := s.threads.nextId, s.entry.revision;
    var job := Job(Success(requestId, digest, base), s.store.files, Applying);
    UpdateStarts(s, requestId, digest, now);
    UpdateIsApplied(s, id, job, outcome);
    var next := Record(base + 1, true, s.store.services);
    var applied := s.(store := WriteRecord(s.store.(files := outcome.files), next, outcome.recordLanded));
    var closing := job.(pc := Closing(outcome));
    if outcome.ok {
      UpdateIsClosed(applied, id, closing, now);
    } else if outcome.rollbackProven {
      UpdateIsUndone(applied, id, closing, now);
    }
  }

  // --------------------------------------------------------------------------- actions

  function WithAction(s: Session, id: nat, offered: bool): Session {
    s.(entry := s.entry.(state := Action(id, false)),
       threads := s.threads.(nextId := id + 1, actions := map[id := offered]))
  }

  lemma {:induction false} ActionStarts(s: Session, now: nat)
    requires Open(s, now)
    ensures After(s, OnAction(StartAction(now))) == WithAction(s, s.threads.nextId, false)
  {
    assert s.threads.actions == map[];
  }

  lemma {:induction false} ActionIsOffered(s: Session, id: nat, now: nat)
    requires now < s.entry.deadline
    ensures After(WithAction(s, id, false), OnAction(OfferFinal(id, now))) == WithAction(s, id, true)
  {
    assert map[id := false][id := true] == map[id := true];
  }

  lemma {:induction false} ActionIsDelivered(s: Session, id: nat, now: nat)
    requires now < s.entry.deadline && s.store.registered && s.threads.actions == map[] && id !in s.threads.delivered
    ensures
      var s' := After(After(WithAction(s, id, true), OnAction(Ack(id, now))), OnAction(Retire(id)));
      s' == s.(entry := s.entry.(state := Ready(now)), threads := s.threads.(nextId := id + 1))
  {
    assert map[id := true] - {id} == map[];
    assert s.threads.delivered + {id} - {id} == s.threads.delivered;
  }

  function ActionRun(s: Session, now: nat): Session {
    var id := s.threads.nextId;
    var s1 := After(After(s, OnAction(StartAction(now))), OnAction(OfferFinal(id, now)));
    After(After(s1, OnAction(Ack(id, now))), OnAction(Retire(id)))
  }

  /** In every run a Ready session admits an action whose delivery makes it Ready again, otherwise unchanged. */
  lemma {:induction false} ActionsComplete(deadline: nat, files: Files, run: seq<Event>, now: nat)
    requires
      var s := Run(Reserved(deadline, files), run);
      s.entry.state.Ready? && now < s.entry.deadline
    ensures
      var s := Run(Reserved(deadline, files), run);
      ActionRun(s, now) ==
      s.(entry := s.entry.(state := Ready(now)), threads := s.threads.(nextId := s.threads.nextId + 1))
  {
    var s := Run(Reserved(deadline, files), run);
    ReadyIsOpen(deadline, files, run, now);
    LiveIsRegistered(deadline, files, run);
    ActionStarts(s, now);
    ActionIsOffered(s, s.threads.nextId, now);
    ActionIsDelivered(s, s.threads.nextId, now);
  }
}
