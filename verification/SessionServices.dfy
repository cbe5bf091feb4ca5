/**
 The cleanup of a session joined with the service stops behind it: what the removal of the
 durable record says about the process groups themselves.
 */
module SessionServices {
  import opened Common
  import opened SessionEntries
  import opened SessionProtocol
  import opened SessionInvariants
  import opened SessionRuns
  import Services

  /** How the stop of one service will go, and how long it may take. */
  datatype Shutdown = Shutdown(ending: Services.Ending, timeout: nat, grace: nat)

  type Shutdowns = Service -> Shutdown

  ghost predicate StopProven(shutdown: Shutdown) {
    Services.Proven(shutdown.ending, shutdown.timeout, shutdown.grace)
  }

  // ---------------------------------------------------------------- the stopping loop

  /** Every pending service stopped, from the last one on. */
  ghost function AllStopped(c: Cleanup, store: Store, shutdowns: Shutdowns): Cleanup
    requires c.pc.Stopping?
    decreases |c.pending|
  {
    if c.pending == [] then c
    else AllStopped(Advanced(c, store, StopProven(shutdowns(c.pending[|c.pending| - 1]))), store, shutdowns)
  }

  /** The loop is a run of stopping steps, and ends unproven exactly when some service was not proven gone. */
  method StopServices(c: Cleanup, store: Store, shutdowns: Shutdowns) returns (c': Cleanup)
    requires c.pc.Stopping?
    ensures c' == AllStopped(c, store, shutdowns) && c' == c.(pending := [], unproven := c'.unproven)
    ensures !c'.unproven <==> !c.unproven && forall g <- c.pending :: StopProven(shutdowns(g))
  {
    c' := c;
    while c'.pending != []
      invariant c' == c.(pending := c'.pending, unproven := c'.unproven) && c'.pending <= c.pending
      invariant AllStopped(c', store, shutdowns) == AllStopped(c, store, shutdowns)
      invariant !c'.unproven <==> !c.unproven && forall g <- c.pending[|c'.pending|..] :: StopProven(shutdowns(g))
      decreases |c'.pending|
    {
      var last := |c'.pending| - 1;
      var shutdown := shutdowns(c'.pending[last]);
      assert c.pending[last..] == [c'.pending[last]] + c.pending[last + 1..];
      var result := Services.StopService(shutdown.ending, shutdown.timeout, shutdown.grace);
      c' := Advanced(c', store, result == Services.Stopped || !result.unproven);
    }
    assert c.pending[0..] == c.pending;
  }

  // --------------------------------------------------------------------- whole runs

  /** A stopping step reports what the stop of its service has proved. */
  ghost predicate ReportsStop(s: Session, ev: Event, shutdowns: Shutdowns) {
    ev.CleanupStep? && ev.k < |s.threads.cleanups| ==>
      var c := s.threads.cleanups[ev.k];
      c.pc.Stopping? && c.pending != [] ==> (ev.ok <==> StopProven(shutdowns(c.pending[|c.pending| - 1])))
  }

  ghost predicate ReportsStops(deadline: nat, files: Files, run: seq<Event>, shutdowns: Shutdowns) {
    forall k :: 0 <= k < |run| ==> ReportsStop(At(deadline, files, run, k), run[k], shutdowns)
  }

  ghost predicate AllProven(gone: set<Service>, shutdowns: Shutdowns) {
    forall g <- gone :: StopProven(shutdowns(g))
  }

  lemma {:induction false} StepKeepsProven(s: Session, ev: Event, shutdowns: Shutdowns)
    requires AllProven(s.log.gone, shutdowns) && ReportsStop(s, ev, shutdowns)
    ensures AllProven(After(s, ev).log.gone, shutdowns)
  {
  }

  lemma {:induction false} GoneIsProven(deadline: nat, files: Files, run: seq<Event>, shutdowns: Shutdowns, n: nat)
    requires n <= |run| && ReportsStops(deadline, files, run, shutdowns)
    ensures AllProven(At(deadline, files, run, n).log.gone, shutdowns)
  {
    if n > 0 {
      GoneIsProven(deadline, files, run, shutdowns, n - 1);
      AtNext(deadline, files, run, n - 1);
      StepKeepsProven(At(deadline, files, run, n - 1), run[n - 1], shutdowns);
    }
  }

  predicate Distinct(services: seq<Service>) {
    forall i, j :: 0 <= i < j < |services| ==> services[i] != services[j]
  }

  predicate ServicesDistinct(store: Store, retained: Option<seq<Service>>) {
    Distinct(store.services) && (retained.Some? ==> Distinct(retained.value))
  }

  lemma {:induction false} WorkKeepsDistinct(s: Session, ev: WorkEvent)
    requires ServicesDistinct(s.store, s.log.retained)
    ensures ServicesDistinct(WorkStep(s, ev).store, WorkStep(s, ev).log.retained)
  {
  }

  lemma {:induction false} OtherStepsKeepServices(s: Session, ev: Event)
    requires !ev.OnWork?
    ensures After(s, ev).store.services in {s.store.services, []}
    ensures After(s, ev).log.retained in {s.log.retained, Some(s.store.services)}
  {
  }

  lemma {:induction false} StepKeepsDistinct(s: Session, ev: Event)
    requires ServicesDistinct(s.store, s.log.retained)
    ensures ServicesDistinct(After(s, ev).store, After(s, ev).log.retained)
  {
    if ev.OnWork? {
      WorkKeepsDistinct(s, ev.work);
    } else {
      OtherStepsKeepServices(s, ev);
    }
  }

  /** No two services of a session share a name, so one observation never counts for two. */
  lemma {:induction false} ServicesStayDistinct(deadline: nat, files: Files, run: seq<Event>, n: nat)
    requires n <= |run|
    ensures ServicesDistinct(At(deadline, files, run, n).store, At(deadline, files, run, n).log.retained)
  {
    if n > 0 {
      ServicesStayDistinct(deadline, files, run, n - 1);
      AtNext(deadline, files, run, n - 1);
      StepKeepsDistinct(At(deadline, files, run, n - 1), run[n - 1]);
    }
  }

  /**
   A session that became Ready loses its durable record only after the process group of every
   service it retained was probed and found gone, and the service's monitor had reported.
   */
  lemma {:induction false} RemovedRecordMeansGroupsGone(
    deadline: nat, files: Files, run: seq<Event>, shutdowns: Shutdowns)
    requires Punctual(deadline, files, run) && ReportsStops(deadline, files, run, shutdowns)
    ensures
      var s := Run(Reserved(deadline, files), run);
      s.log.retained.Some? && s.store.record.None? ==>
        && Distinct(s.log.retained.value)
        && forall g <- s.log.retained.value ::
             Services.SeenGone(shutdowns(g).ending.group, shutdowns(g).timeout, shutdowns(g).grace)
  {
    assert run[..|run|] == run;
    RecordOutlivesServices(deadline, files, run);
    GoneIsProven(deadline, files, run, shutdowns, |run|);
    ServicesStayDistinct(deadline, files, run, |run|);
    var s := Run(Reserved(deadline, files), run);
    if s.log.retained.Some? && s.store.record.None? {
      forall g <- s.log.retained.value
        ensures Services.SeenGone(shutdowns(g).ending.group, shutdowns(g).timeout, shutdowns(g).grace)
      {
        assert StopProven(shutdowns(g));
      }
    }
  }
}
