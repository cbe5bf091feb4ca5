/**
 Two existence results about runs: the interleaving that starts two cleanups of one session,
 and the way out that every other reachable state has.
 */
module SessionOutcomes {
  import opened Common
  import opened SessionEntries
  import opened SessionProtocol
  import opened SessionInvariants
  import opened SessionRuns
  import opened SessionCleanups

  /** One more event at the end of a run. */
  lemma {:induction false} Then(start: Session, run: seq<Event>, s: Session, ev: Event, s': Session)
    requires Run(start, run) == s && After(s, ev) == s'
    ensures Run(start, run + [ev]) == s'
  {
    assert (run + [ev])[..|run|] == run;
  }

  // A schedule with a stale finish: the first action is acknowledged but its worker has not
  // retired when a stop preempts the second action.

  function Initialization(): seq<Event> {
    [OnUpload(BeginInit(0)), OnWork(SpawnService(7)), OnCommit(InitCheck(0)), OnCommit(InitWrite(true, true)),
     OnCommit(InitElect(0))]
  }

  function TwoActions(): seq<Event> {
    Initialization()
    + [OnAction(StartAction(0))] + [OnAction(OfferFinal(0, 0))] + [OnAction(Ack(0, 0))] + [OnAction(StartAction(0))]
  }

  function Race(): seq<Event> {
    TwoActions()
    + [OnStop(StopCalled(0))] + [OnAction(FinishAction(0, 0))] + [CleanupStep(0, true)] + [OnAction(FinishAction(1, 0))]
  }

  function StaleSchedule(): seq<Event> {
    Race() + [CleanupStep(1, true)] + [CleanupStep(1, true)] + [CleanupStep(1, true)] + [CleanupStep(1, true)]
    + [CleanupStep(1, true)] + [CleanupStep(1, true)]
  }

  // The states the schedule visits, as far as they differ.

  function Fresh(): Session {
    Reserved(100, map[])
  }

  function Visited(state: State, init: InitPc, actions: map<nat, bool>, delivered: set<nat>, nextId: nat): Session {
    Session(Entry(state, 100, false, 0, None),
            Store([7], true, true, Some(Record(0, true, [7])), true, map[]),
            Threads(false, init, actions, delivered, map[], [], map[], nextId, true),
            Log(if init.InitDone? then Some([7]) else None, {}, [], None, 0, 0))
  }

  function Raced(services: seq<Service>, actions: map<nat, bool>, cleanups: seq<Cleanup>, record: Option<Record>,
                 workspace: bool, teardowns: nat): Session
  {
    Session(Entry(Terminating(true, ActionWorker), 100, false, 0, None),
            Store(services, true, true, record, workspace, map[]),
            Threads(false, InitDone, actions, {}, map[], cleanups, map[0 := Waiting], 2, true),
            Log(Some([7]), {}, [], Some(0), teardowns, 0))
  }

  lemma {:induction false} RunInitialization()
    ensures Run(Fresh(), Initialization()) == Visited(Ready(0), InitDone, map[], {}, 0)
  {
    var s1 := Session(Entry(Initializing(true), 100, false, 0, None), Store([], true, true, None, true, map[]),
                      Threads(false, Working, map[], {}, map[], [], map[], 0, false), Log(None, {}, [], None, 0, 0));
    var s2 := s1.(store := s1.store.(services := [7]), threads := s1.threads.(spawned := true));
    var s3 := s2.(threads := s2.threads.(init := Checked));
    var s4 := Visited(Initializing(true), Written, map[], {}, 0);
    var r := Initialization();
    Then(Fresh(), [], Fresh(), r[0], s1);
    Then(Fresh(), [] + [r[0]], s1, r[1], s2);
    Then(Fresh(), [] + [r[0]] + [r[1]], s2, r[2], s3);
    Then(Fresh(), [] + [r[0]] + [r[1]] + [r[2]], s3, r[3], s4);
    Then(Fresh(), [] + [r[0]] + [r[1]] + [r[2]] + [r[3]], s4, r[4], Visited(Ready(0), InitDone, map[], {}, 0));
    assert [] + [r[0]] + [r[1]] + [r[2]] + [r[3]] + [r[4]] == r;
  }

  lemma {:induction false} RunTwoActions()
    ensures Run(Fresh(), TwoActions()) == Visited(Action(1, false), InitDone, map[1 := false], {0}, 2)
  {
    RunInitialization();
    var s6 := Visited(Action(0, false), InitDone, map[0 := false], {}, 1);
    var s7 := Visited(Action(0, false), InitDone, map[0 := true], {}, 1);
    var s8 := Visited(Ready(0), InitDone, map[], {0}, 1);
    var r := Initialization();
    Then(Fresh(), r, Visited(Ready(0), InitDone, map[], {}, 0), OnAction(StartAction(0)), s6);
    r := r + [OnAction(StartAction(0))];
    assert map[0 := false][0 := true] == map[0 := true];
    Then(Fresh(), r, s6, OnAction(OfferFinal(0, 0)), s7);
    r := r + [OnAction(OfferFinal(0, 0))];
    assert map[0 := true] - {0} == map[];
    Then(Fresh(), r, s7, OnAction(Ack(0, 0)), s8);
    Then(Fresh(), r + [OnAction(Ack(0, 0))], s8, OnAction(StartAction(0)),
         Visited(Action(1, false), InitDone, map[1 := false], {0}, 2));
  }

  lemma {:induction false} RunStaleFinish()
    ensures Run(Fresh(), TwoActions() + [OnStop(StopCalled(0))] + [OnAction(FinishAction(0, 0))])
         == Raced([7], map[1 := false], [NewCleanup(true, None)], Some(Record(0, true, [7])), true, 0)
  {
    RunTwoActions();
    var record := Some(Record(0, true, [7]));
    var s10 := Raced([7], map[1 := false], [], record, true, 0);
    var s10' := s10.(threads := s10.threads.(delivered := {0}));
    var s11 := Raced([7], map[1 := false], [NewCleanup(true, None)], record, true, 0);
    var r := TwoActions();
    Then(Fresh(), r, Visited(Action(1, false), InitDone, map[1 := false], {0}, 2), OnStop(StopCalled(0)), s10');
    assert map[1 := false] - {0} == map[1 := false] && {0} - {0} == {};
    Then(Fresh(), r + [OnStop(StopCalled(0))], s10', OnAction(FinishAction(0, 0)), s11);
  }

  lemma {:induction false} RunRace()
    ensures Run(Fresh(), Race())
         == Raced([], map[], [Cleanup(true, Stopping, [7], false, false, None), NewCleanup(true, None)],
                  Some(Record(0, true, [7])), true, 0)
  {
    RunStaleFinish();
    var record := Some(Record(0, true, [7]));
    var first := Cleanup(true, Stopping, [7], false, false, None);
    var s11 := Raced([7], map[1 := false], [NewCleanup(true, None)], record, true, 0);
    var s12 := Raced([], map[1 := false], [first], record, true, 0);
    var s13 := Raced([], map[], [first, NewCleanup(true, None)], record, true, 0);
    var r := TwoActions() + [OnStop(StopCalled(0))] + [OnAction(FinishAction(0, 0))];
    Then(Fresh(), r, s11, CleanupStep(0, true), s12);
    assert map[1 := false] - {1} == map[];
    Then(Fresh(), r + [CleanupStep(0, true)], s12, OnAction(FinishAction(1, 0)), s13);
  }

  lemma {:induction false} RunStaleSchedule()
    ensures Run(Fresh(), StaleSchedule())
         == Raced([], map[], [Cleanup(true, Stopping, [7], false, false, None),
                              Cleanup(true, Deregistering, [], false, true, None)], None, false, 1)
  {
    RunRace();
    var record := Some(Record(0, true, [7]));
    var first := Cleanup(true, Stopping, [7], false, false, None);
    var c := Cleanup(true, Stopping, [], false, false, None);
    var archived := c.(archived := true);
    var step, r := CleanupStep(1, true), Race();
    var s0 := Raced([], map[], [first, NewCleanup(true, None)], record, true, 0);
    var s1 := Raced([], map[], [first, c], record, true, 0);
    Then(Fresh(), r, s0, step, s1);
    var s2 := Raced([], map[], [first, c.(pc := TearingDown)], record, true, 0);
    Then(Fresh(), r + [step], s1, step, s2);
    var s3 := Raced([], map[], [first, c.(pc := Collecting)], record, true, 1);
    Then(Fresh(), r + [step] + [step], s2, step, s3);
    var s4 := Raced([], map[], [first, archived.(pc := RemovingWorkspace)], record, true, 1);
    Then(Fresh(), r + [step] + [step] + [step], s3, step, s4);
    var s5 := Raced([], map[], [first, archived.(pc := RemovingRecord)], record, false, 1);
    Then(Fresh(), r + [step] + [step] + [step] + [step], s4, step, s5);
    var s6 := Raced([], map[], [first, archived.(pc := Deregistering)], None, false, 1);
    Then(Fresh(), r + [step] + [step] + [step] + [step] + [step], s5, step, s6);
  }

  /**
   Without punctual workers two cleanups of one session overlap: here the second has removed
   the durable record while the first still holds a service group that nobody saw go.
   */
  lemma {:induction false} StaleFinishBreaksExclusivity()
    ensures !Punctual(100, map[], StaleSchedule()) && !ExclusiveThroughout(100, map[], StaleSchedule())
    ensures
      var s := Run(Reserved(100, map[]), StaleSchedule());
      && |s.threads.cleanups| == 2
      && s.log.retained.Some? && s.store.record.None? && !AllGone(s.log.retained.value, s.log.gone)
  {
    RunStaleSchedule();
    var r := StaleSchedule();
    assert r[..|r|] == r;
    assert !Exclusive(At(100, map[], r, |r|));
    CleanupIsExclusiveExactlyWhenPunctual(100, map[], r);
    assert 7 in [7];
  }

  // ------------------------------------------------------------- no dead ends

  lemma {:induction false} RunCons(s: Session, ev: Event, rest: seq<Event>)
    ensures Run(s, [ev] + rest) == Run(After(s, ev), rest)
    decreases |rest|
  {
    var run := [ev] + rest;
    if rest == [] {
      assert run[..0] == [];
    } else {
      var last := |rest| - 1;
      assert run[..|run| - 1] == [ev] + rest[..last];
      RunCons(s, ev, rest[..last]);
    }
  }

  /** The session has ended in good order: one finished cleanup, one permit returned. */
  predicate Drained(s: Session) {
    s.entry.state.Terminated? && |s.threads.cleanups| == 1 && !s.store.permit && s.log.released == 1
  }

  /** A step that neither is a panic or a failure nor reports an I/O error. */
  predicate GoesWell(ev: Event) {
    match ev
    case OnUpload(e) => !e.UploadFails? && !e.UploadDropped?
    case OnWork(e) => !e.InitFails? && (e.RecordStarting? ==> e.ok) && (e.RemoveLostRecord? ==> e.removed)
    case OnCommit(e) => e.InitWrite? ==> e.ok
    case OnTrigger(e) => !e.ServiceFails?
    case OnUpdate(e) => !e.UpdatePanics?
    case CleanupStep(_, ok) => ok
    case _ => true
  }

  predicate Undisturbed(run: seq<Event>) {
    forall ev <- run :: GoesWell(ev)
  }

  lemma {:induction false} StaysTidy(s: Session, ev: Event)
    requires Core(s) && Workers(s) && !StaleFinish(s, ev) && GoesWell(ev)
    ensures Tidy(s) && Published(s) ==> Tidy(After(s, ev)) && Published(After(s, ev))
  {
    if Tidy(s) && Published(s) {
      StepKeepsTidy(s, ev);
      StepKeepsPublished(s, ev);
    }
  }

  lemma {:induction false} StaysCleared(s: Session)
    requires Core(s) && Workers(s) && s.entry.state.Terminated?
    ensures Tidy(s) && Published(s) ==> Cleared(s, s.log.winner.Some?)
  {
    if Tidy(s) && Published(s) {
      TidyIsCleared(s);
    }
  }

  /** A started cleanup can always be driven to its end. */
  lemma {:induction false} DrainCleanup(s: Session) returns (ext: seq<Event>)
    requires Core(s) && Workers(s) && s.threads.cleanups != []
    ensures Drained(Run(s, ext)) && Undisturbed(ext)
    ensures Tidy(s) && Published(s) ==> Cleared(Run(s, ext), Run(s, ext).log.winner.Some?)
    decreases 9 - Rank(s.threads.cleanups[0].pc), |s.threads.cleanups[0].pending|
  {
    if s.entry.state.Terminated? {
      ext := [];
      StaysCleared(s);
    } else {
      var step := CleanupStep(0, true);
      StaysTidy(s, step);
      CleanupKeepsCore(s, 0, true);
      CleanupKeepsWorkers(s, 0, true);
      var rest := DrainCleanup(After(s, step));
      ext := [step] + rest;
      RunCons(s, step, rest);
    }
  }

  function InitDistance(init: InitPc): nat {
    match init
    case Working => 2
    case Checked => 4
    case Written => 3
    case Lost => 2
    case _ => 1
  }

  /** The initializer's own next step, with every I/O going well. */
  function WayOut(init: InitPc): Event {
    match init
    case Working => OnCommit(InitCheck(0))
    case Checked => OnCommit(InitWrite(true, true))
    case Written => OnCommit(InitElect(0))
    case Lost => OnWork(RemoveLostRecord(true))
    case _ => OnCommit(InitCleanup)
  }

  predicate Losing(s: Session) {
    Workers(s) && InitRunning(s.threads.init) && s.entry.state.Terminating? && s.entry.state.owner == Initializer
  }

  /** An initializer that lost its session always has a step towards cleanup. */
  lemma {:induction false} InitializerAdvances(s: Session)
    requires Losing(s) && !s.threads.init.Failing?
    ensures
      var s' := After(s, WayOut(s.threads.init));
      && s'.entry.state == s.entry.state && InitRunning(s'.threads.init)
      && InitDistance(s'.threads.init) < InitDistance(s.threads.init)
  {
  }

  lemma {:induction false} InitializerCleansUp(s: Session)
    requires Losing(s) && s.threads.init.Failing?
    ensures After(s, WayOut(s.threads.init)).threads.cleanups != []
  {
  }

  lemma {:induction false} DrainInitializer(s: Session) returns (ext: seq<Event>)
    requires Core(s) && Losing(s)
    ensures Drained(Run(s, ext)) && Undisturbed(ext)
    ensures Tidy(s) && Published(s) ==> Cleared(Run(s, ext), Run(s, ext).log.winner.Some?)
    decreases InitDistance(s.threads.init)
  {
    var step := WayOut(s.threads.init);
    StepKeepsCore(s, step);
    StepKeepsWorkers(s, step);
    StaysTidy(s, step);
    var rest;
    if s.threads.init.Failing? {
      InitializerCleansUp(s);
      rest := DrainCleanup(After(s, step));
    } else {
      InitializerAdvances(s);
      rest := DrainInitializer(After(s, step));
    }
    ext := [step] + rest;
    RunCons(s, step, rest);
  }

  /** The update worker that was elected closes or aborts its update, and goes on to clean up. */
  lemma {:induction false} UpdateWorkerAdvances(s: Session, id: nat) returns (step: Event)
    requires Workers(s) && id in s.threads.jobs
    requires s.entry.state.Terminating? && s.entry.state.owner == UpdateWorker
    ensures step == OnUpdate(UpdateAborts(id, 0)) || step == OnUpdate(UpdateCloses(id, 0))
    ensures After(s, step).threads.cleanups != []
  {
    OnlyJob(s, id);
    step := if s.threads.jobs[id].pc.Applying? then OnUpdate(UpdateAborts(id, 0)) else OnUpdate(UpdateCloses(id, 0));
  }

  lemma {:induction false} DrainWorker(s: Session) returns (ext: seq<Event>)
    requires Core(s) && Workers(s) && s.threads.cleanups == []
    requires s.entry.state.Terminating? && s.entry.state.owner != Initializer
    ensures Drained(Run(s, ext)) && Undisturbed(ext)
    ensures Tidy(s) && Published(s) ==> Cleared(Run(s, ext), Run(s, ext).log.winner.Some?)
  {
    var step;
    if s.entry.state.owner == ActionWorker {
      var id :| id in s.threads.actions;
      OnlyAction(s, id);
      step := OnAction(FinishAction(id, 0));
    } else {
      var id :| id in s.threads.jobs;
      step := UpdateWorkerAdvances(s, id);
    }
    StepKeepsCore(s, step);
    StepKeepsWorkers(s, step);
    StaysTidy(s, step);
    var rest := DrainCleanup(After(s, step));
    ext := [step] + rest;
    RunCons(s, step, rest);
  }

  /** A pending termination can always be completed by the elected owner, without panics or I/O errors. */
  lemma {:induction false} DrainTermination(s: Session) returns (ext: seq<Event>)
    requires Core(s) && Workers(s) && !s.entry.state.Live()
    ensures Drained(Run(s, ext)) && Undisturbed(ext)
    ensures Tidy(s) && Published(s) ==> Cleared(Run(s, ext), Run(s, ext).log.winner.Some?)
  {
    if s.threads.cleanups != [] {
      ext := DrainCleanup(s);
    } else if s.entry.state.owner == Initializer {
      ext := DrainInitializer(s);
    } else {
      ext := DrainWorker(s);
    }
  }

  /**
   No dead ends: every punctual run can be continued, without panics or I/O errors, to a
   terminated session that was cleaned up once and has given its permit back.  Unless a cleanup
   step had already gone wrong, neither workspace nor record is left.
   */
  lemma {:induction false} EveryRunCanBeDrained(deadline: nat, files: Files, run: seq<Event>) returns (ext: seq<Event>)
    requires Punctual(deadline, files, run)
    ensures Drained(Run(Run(Reserved(deadline, files), run), ext)) && Undisturbed(ext)
    ensures
      var end := Run(Run(Reserved(deadline, files), run), ext);
      CleanupsGoWell(run) ==> Cleared(end, end.log.winner.Some?)
  {
    assert run[..|run|] == run;
    InvWhilePunctual(deadline, files, run, |run|);
    PublishedWhilePunctual(deadline, files, run, |run|);
    if CleanupsGoWell(run) {
      TidyWhileWell(deadline, files, run, |run|);
    }
    var s := Run(Reserved(deadline, files), run);
    if s.entry.state.Live() {
      var step := OnTrigger(LifetimeExpires);
      StepKeepsCore(s, step);
      StepKeepsWorkers(s, step);
      StaysTidy(s, step);
      var rest := DrainTermination(After(s, step));
      ext := [step] + rest;
      RunCons(s, step, rest);
    } else {
      ext := DrainTermination(s);
    }
  }
}
