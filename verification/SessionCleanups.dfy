/**
 What a session leaves behind: in every run the response that stop calls get is the one the
 cleanup published, and a cleanup whose steps go well removes the workspace and the record.
 */
module SessionCleanups {
  import opened Common
  import opened SessionEntries
  import opened SessionProtocol
  import opened SessionInvariants
  import opened SessionRuns

  // ---------------------------------------------------------------- what is published

  predicate StopsAgree(state: State, stops: map<nat, StopCall>) {
    forall call <- stops :: stops[call].Returned? ==> state == Terminated(stops[call].response)
  }

  /** A stop call that cleans up is the one its cleanup will answer. */
  predicate CallsAnswered(cleanups: seq<Cleanup>, stops: map<nat, StopCall>) {
    forall call <- stops :: stops[call].Cleaning? ==>
      |cleanups| == 1 && cleanups[0].call == Some(call) && !cleanups[0].pc.Finished?
  }

  /** The published response tells what the cleanup archived, and stop calls return it. */
  predicate Published(s: Session) {
    && (s.entry.state.Terminated? ==>
          |s.threads.cleanups| == 1 && s.entry.state.response == Response(s.threads.cleanups[0].archived))
    && StopsAgree(s.entry.state, s.threads.stops)
    && CallsAnswered(s.threads.cleanups, s.threads.stops)
  }

  // ------------------------------------------------------------- a cleanup that goes well

  predicate StageReached(c: Cleanup, store: Store, teardowns: nat) {
    && !c.unproven
    && (store.workspace <==> Rank(c.pc) <= 4)
    && teardowns == (if Rank(c.pc) >= 3 then 1 else 0)
    && (Rank(c.pc) >= 4 ==> c.archived == c.explicit)
    && (Rank(c.pc) >= 6 ==> store.record.None?)
  }

  /** Nothing is removed before the cleanup, and everything as it goes on. */
  predicate Tidy(s: Session) {
    if s.threads.cleanups == [] then s.store.workspace && s.log.teardowns == 0
    else |s.threads.cleanups| == 1 && StageReached(s.threads.cleanups[0], s.store, s.log.teardowns)
  }

  predicate GoesWellInCleanup(ev: Event) {
    ev.CleanupStep? ==> ev.ok
  }

  // -------------------------------------------------------------------------- steps

  /** Once a cleanup runs, no other step touches what it removes. */
  predicate LeavesRest(s: Session, s': Session) {
    && s'.store.workspace == s.store.workspace && s'.log.teardowns == s.log.teardowns
    && (s.threads.cleanups != [] ==>
          s'.threads.cleanups == s.threads.cleanups && s'.store.record == s.store.record)
    && (s.threads.cleanups == [] ==>
          || s'.threads.cleanups == []
          || (|s'.threads.cleanups| == 1 && s'.threads.cleanups[0].pc.Begin? && !s'.threads.cleanups[0].unproven))
    && (s'.entry.state.Terminated? ==> s'.entry.state == s.entry.state)
    && (StopsAgree(s.entry.state, s.threads.stops) ==> StopsAgree(s'.entry.state, s'.threads.stops))
    && (CallsAnswered(s.threads.cleanups, s.threads.stops) ==> CallsAnswered(s'.threads.cleanups, s'.threads.stops))
  }

  lemma {:induction false} UploadLeavesRest(s: Session, ev: UploadEvent)
    requires Workers(s)
    ensures LeavesRest(s, UploadStep(s, ev))
  {
  }

  lemma {:induction false} WorkLeavesRest(s: Session, ev: WorkEvent)
    requires Workers(s)
    ensures LeavesRest(s, WorkStep(s, ev))
  {
  }

  lemma {:induction false} CommitLeavesRest(s: Session, ev: CommitEvent)
    requires Workers(s)
    ensures LeavesRest(s, CommitStep(s, ev))
  {
  }

  lemma {:induction false} TriggerLeavesRest(s: Session, ev: TriggerEvent)
    requires Workers(s)
    ensures LeavesRest(s, TriggerStep(s, ev))
  {
  }

  lemma {:induction false} StopLeavesRest(s: Session, ev: StopEvent)
    requires Workers(s)
    ensures LeavesRest(s, StopStep(s, ev))
  {
  }

  lemma {:induction false} SuccessLeavesRest(s: Session, id: nat, job: Job, now: nat)
    requires Workers(s) && id in s.threads.jobs && job.pc.Closing? && job.pc.outcome.ok
    ensures LeavesRest(s, CloseJob(s, id, job, now))
  {
    OnlyJob(s, id);
  }

  lemma {:induction false} FailureLeavesRest(s: Session, id: nat, job: Job, now: nat)
    requires Workers(s) && id in s.threads.jobs && job.pc.Closing? && !job.pc.outcome.ok
    ensures LeavesRest(s, CloseJob(s, id, job, now))
  {
    OnlyJob(s, id);
  }

  lemma {:induction false} UpdateLeavesRest(s: Session, ev: UpdateEvent)
    requires Workers(s)
    ensures LeavesRest(s, UpdateStep(s, ev))
  {
    if ev.UpdateCloses? {
      if ev.updateId in s.threads.jobs && s.threads.jobs[ev.updateId].pc.Closing? {
        var job := s.threads.jobs[ev.updateId];
        if job.pc.outcome.ok {
          SuccessLeavesRest(s, ev.updateId, job, ev.now);
        } else {
          FailureLeavesRest(s, ev.updateId, job, ev.now);
        }
      }
    } else if !ev.StartUpdate? && ev.updateId in s.threads.jobs {
      OnlyJob(s, ev.updateId);
    }
  }

  lemma {:induction false} ActionLeavesRest(s: Session, ev: ActionEvent)
    requires Workers(s) && !StaleFinish(s, OnAction(ev))
    ensures LeavesRest(s, ActionStep(s, ev))
  {
    if !ev.StartAction? {
      if ev.actionId in s.threads.actions {
        OnlyAction(s, ev.actionId);
      } else {
        StrayStepChangesNothing(s, ev);
      }
    }
  }

  lemma {:induction false} OtherStepsLeaveRest(s: Session, ev: Event)
    requires Workers(s) && !StaleFinish(s, ev) && !ev.CleanupStep?
    ensures LeavesRest(s, After(s, ev))
  {
    match ev
    case OnUpload(e) => UploadLeavesRest(s, e);
    case OnWork(e) => WorkLeavesRest(s, e);
    case OnCommit(e) => CommitLeavesRest(s, e);
    case OnTrigger(e) => TriggerLeavesRest(s, e);
    case OnStop(e) => StopLeavesRest(s, e);
    case OnUpdate(e) => UpdateLeavesRest(s, e);
    case OnAction(e) => ActionLeavesRest(s, e);
  }

  lemma {:induction false} StageAdvances(c: Cleanup, store: Store, log: Log)
    requires StageReached(c, store, log.teardowns)
    ensures StageReached(Advanced(c, store, true), StoreAfter(c, store, true), LogAfter(c, store, log, true).teardowns)
  {
  }

  lemma {:induction false} CleanupKeepsTidy(s: Session, k: nat)
    requires Workers(s) && Tidy(s)
    ensures Tidy(CleanupAfter(s, k, true))
  {
    if k < |s.threads.cleanups| {
      StageAdvances(s.threads.cleanups[0], s.store, s.log);
    }
  }

  lemma {:induction false} CleanupKeepsPublished(s: Session, k: nat, ok: bool)
    requires Core(s) && Workers(s) && Published(s)
    ensures Published(CleanupAfter(s, k, ok))
  {
  }

  lemma {:induction false} StepKeepsTidy(s: Session, ev: Event)
    requires Workers(s) && Tidy(s) && !StaleFinish(s, ev) && GoesWellInCleanup(ev)
    ensures Tidy(After(s, ev))
  {
    if ev.CleanupStep? {
      CleanupKeepsTidy(s, ev.k);
    } else {
      OtherStepsLeaveRest(s, ev);
    }
  }

  lemma {:induction false} StepKeepsPublished(s: Session, ev: Event)
    requires Core(s) && Workers(s) && Published(s) && !StaleFinish(s, ev)
    ensures Published(After(s, ev))
  {
    if ev.CleanupStep? {
      CleanupKeepsPublished(s, ev.k, ev.ok);
    } else {
      OtherStepsLeaveRest(s, ev);
    }
  }

  // ---------------------------------------------------------------------- whole runs

  lemma {:induction false} PublishedWhilePunctual(deadline: nat, files: Files, run: seq<Event>, k: nat)
    requires Punctual(deadline, files, run) && k <= |run|
    ensures Published(At(deadline, files, run, k))
  {
    if k > 0 {
      var s := At(deadline, files, run, k - 1);
      PublishedWhilePunctual(deadline, files, run, k - 1);
      InvWhilePunctual(deadline, files, run, k - 1);
      AtNext(deadline, files, run, k - 1);
      StepKeepsPublished(s, run[k - 1]);
    }
  }

  predicate CleanupsGoWell(run: seq<Event>) {
    forall k :: 0 <= k < |run| ==> GoesWellInCleanup(run[k])
  }

  lemma {:induction false} TidyWhileWell(deadline: nat, files: Files, run: seq<Event>, k: nat)
    requires Punctual(deadline, files, run) && CleanupsGoWell(run) && k <= |run|
    ensures Tidy(At(deadline, files, run, k))
  {
    if k > 0 {
      var s := At(deadline, files, run, k - 1);
      TidyWhileWell(deadline, files, run, k - 1);
      InvWhilePunctual(deadline, files, run, k - 1);
      AtNext(deadline, files, run, k - 1);
      StepKeepsTidy(s, run[k - 1]);
    }
  }

  /** Workspace and record are gone, teardown ran once, and artifacts were kept for an explicit stop only. */
  predicate Cleared(s: Session, explicit: bool) {
    && s.entry.state.Terminated?
    && !s.store.workspace && s.store.record.None? && s.log.teardowns == 1
    && s.entry.state.response == Response(explicit)
  }

  lemma {:induction false} TidyIsCleared(s: Session)
    requires Core(s) && Workers(s) && Tidy(s) && Published(s) && s.entry.state.Terminated?
    ensures Cleared(s, s.log.winner.Some?)
  {
    assert s.threads.cleanups[0] in s.threads.cleanups;
  }

  ghost predicate StoppedExplicitly(deadline: nat, files: Files, run: seq<Event>) {
    exists j, call :: 0 <= j < |run| && ElectedAt(deadline, files, run, j, call)
  }

  lemma {:induction false} WinnerIsExplicit(deadline: nat, files: Files, run: seq<Event>)
    ensures Run(Reserved(deadline, files), run).log.winner.Some? <==> StoppedExplicitly(deadline, files, run)
  {
    var s := Run(Reserved(deadline, files), run);
    assert run[..|run|] == run;
    if s.log.winner.Some? {
      WinnerWasElected(deadline, files, run, |run|, s.log.winner.value);
    } else if j, call :| 0 <= j < |run| && ElectedAt(deadline, files, run, j, call) {
      CoreAlways(deadline, files, run, j + 1);
      NeverRevives(deadline, files, run, j + 1, |run|);
    }
  }

  /**
   In every punctual run whose cleanup steps go well a terminated session has left neither
   workspace nor record, its teardown ran exactly once, final artifacts were collected exactly
   when a stop made the election, and every stop call that returned says so.
   */
  lemma {:induction false} TerminatedLeavesNothing(deadline: nat, files: Files, run: seq<Event>)
    requires Punctual(deadline, files, run) && CleanupsGoWell(run)
    requires Run(Reserved(deadline, files), run).entry.state.Terminated?
    ensures
      var s := Run(Reserved(deadline, files), run);
      && Cleared(s, StoppedExplicitly(deadline, files, run))
      && StopsAgree(s.entry.state, s.threads.stops)
  {
    var s := Run(Reserved(deadline, files), run);
    assert run[..|run|] == run;
    InvWhilePunctual(deadline, files, run, |run|);
    TidyWhileWell(deadline, files, run, |run|);
    PublishedWhilePunctual(deadline, files, run, |run|);
    TidyIsCleared(s);
    WinnerIsExplicit(deadline, files, run);
  }

  /** Once a session is terminated every stop call has its answer, or gets it by its next step. */
  lemma {:induction false} StopCallsReturn(deadline: nat, files: Files, run: seq<Event>, call: nat)
    requires Punctual(deadline, files, run)
    requires
      var s := Run(Reserved(deadline, files), run);
      s.entry.state.Terminated? && call in s.threads.stops && !s.threads.stops[call].Refused?
    ensures
      var s := Run(Reserved(deadline, files), run);
      After(s, OnStop(StopReturns(call))).threads.stops[call] == Returned(s.entry.state.response)
  {
    assert run[..|run|] == run;
    InvWhilePunctual(deadline, files, run, |run|);
    PublishedWhilePunctual(deadline, files, run, |run|);
  }

  predicate Untouched(s: Session) {
    s.threads.cleanups == [] ==> s.store.workspace && s.log.teardowns == 0
  }

  lemma {:induction false} StepKeepsUntouched(s: Session, ev: Event)
    requires Workers(s) && Untouched(s) && !StaleFinish(s, ev)
    ensures Untouched(After(s, ev))
  {
    if !ev.CleanupStep? {
      OtherStepsLeaveRest(s, ev);
    }
  }

  lemma {:induction false} UntouchedWhilePunctual(deadline: nat, files: Files, run: seq<Event>, k: nat)
    requires Punctual(deadline, files, run) && k <= |run|
    ensures Untouched(At(deadline, files, run, k))
  {
    if k > 0 {
      var s := At(deadline, files, run, k - 1);
      UntouchedWhilePunctual(deadline, files, run, k - 1);
      InvWhilePunctual(deadline, files, run, k - 1);
      AtNext(deadline, files, run, k - 1);
      StepKeepsUntouched(s, run[k - 1]);
    }
  }

  /** A live session has its workspace, and nothing has been torn down. */
  lemma {:induction false} LiveKeepsWorkspace(deadline: nat, files: Files, run: seq<Event>)
    requires Punctual(deadline, files, run) && Run(Reserved(deadline, files), run).entry.state.Live()
    ensures Run(Reserved(deadline, files), run).store.workspace
    ensures Run(Reserved(deadline, files), run).log.teardowns == 0
  {
    assert run[..|run|] == run;
    UntouchedWhilePunctual(deadline, files, run, |run|);
    InvWhilePunctual(deadline, files, run, |run|);
  }
}
