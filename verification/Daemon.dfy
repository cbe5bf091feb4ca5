/**
 The daemon as a whole: one-shot builds and managed sessions share one pool of admission
 permits.  Each step is a step of one build or of one session.
 */
module Daemon {
  import opened Common
  import opened SessionEntries
  import opened SessionProtocol
  import opened SessionInvariants
  import opened SessionRuns

  datatype Pool = Pool(free: nat, builds: nat, sessions: map<nat, Session>)

  datatype PoolEvent =
    | BuildArrives
    | BuildEnds
    | SessionArrives(id: nat, deadline: nat, files: Files)
    | SessionSteps(id: nat, event: Event)

  function Idle(capacity: nat): Pool {
    Pool(capacity, 0, map[])
  }

  /** `try_acquire_owned` fails at once when no permit is free. */
  function PoolAfter(p: Pool, ev: PoolEvent): Pool {
    match ev
    case BuildArrives =>
      if p.free == 0 then p else p.(free := p.free - 1, builds := p.builds + 1)
    case BuildEnds =>
      if p.builds == 0 then p else p.(free := p.free + 1, builds := p.builds - 1)
    case SessionArrives(id, deadline, files) =>
      if p.free == 0 || id in p.sessions then p
      else p.(free := p.free - 1, sessions := p.sessions[id := Reserved(deadline, files)])
    case SessionSteps(id, event) =>
      if id !in p.sessions then p
      else
        var s := p.sessions[id];
        var s' := After(s, event);
        p.(sessions := p.sessions[id := s'],
           free := if s.store.permit && !s'.store.permit then p.free + 1 else p.free)
  }

  function PoolRun(capacity: nat, run: seq<PoolEvent>): Pool {
    if run == [] then Idle(capacity)
    else PoolAfter(PoolRun(capacity, run[..|run| - 1]), run[|run| - 1])
  }

  function Holders(sessions: map<nat, Session>): set<nat> {
    set id <- sessions | sessions[id].store.permit
  }

  function Registered(sessions: map<nat, Session>): set<nat> {
    set id <- sessions | sessions[id].store.registered
  }

  predicate PoolInv(capacity: nat, p: Pool) {
    && p.free + p.builds + |Holders(p.sessions)| == capacity
    && forall id <- p.sessions :: Core(p.sessions[id])
  }

  /** A permit once given back is never held again. */
  lemma {:induction false} PermitOnlyFalls(s: Session, ev: Event)
    ensures After(s, ev).store.permit ==> s.store.permit
  {
  }

  lemma {:induction false} HoldersAfterStep(sessions: map<nat, Session>, id: nat, s': Session)
    requires id in sessions && (s'.store.permit ==> sessions[id].store.permit)
    ensures
      var freed := if sessions[id].store.permit && !s'.store.permit then 1 else 0;
      |Holders(sessions[id := s'])| + freed == |Holders(sessions)|
  {
    var before, after := Holders(sessions), Holders(sessions[id := s']);
    if sessions[id].store.permit && !s'.store.permit {
      assert before == after + {id} && id !in after;
    } else {
      assert before == after;
    }
  }

  lemma {:induction false} SessionStepKeepsPool(capacity: nat, p: Pool, id: nat, event: Event)
    requires PoolInv(capacity, p) && id in p.sessions
    ensures PoolInv(capacity, PoolAfter(p, SessionSteps(id, event)))
  {
    var s' := After(p.sessions[id], event);
    PermitOnlyFalls(p.sessions[id], event);
    StepKeepsCore(p.sessions[id], event);
    HoldersAfterStep(p.sessions, id, s');
  }

  lemma {:induction false} ReservedIsCore(deadline: nat, files: Files)
    ensures Core(Reserved(deadline, files))
  {
  }

  lemma {:induction false} HoldersAfterArrival(sessions: map<nat, Session>, id: nat, s: Session)
    requires id !in sessions && s.store.permit
    ensures |Holders(sessions[id := s])| == |Holders(sessions)| + 1
  {
    assert Holders(sessions[id := s]) == Holders(sessions) + {id};
  }

  lemma {:induction false} AdmissionKeepsPool(capacity: nat, p: Pool, ev: PoolEvent)
    requires PoolInv(capacity, p) && !ev.SessionSteps?
    ensures PoolInv(capacity, PoolAfter(p, ev))
  {
    if ev.SessionArrives? && p.free > 0 && ev.id !in p.sessions {
      ReservedIsCore(ev.deadline, ev.files);
      HoldersAfterArrival(p.sessions, ev.id, Reserved(ev.deadline, ev.files));
    }
  }

  lemma {:induction false} StepKeepsPool(capacity: nat, p: Pool, ev: PoolEvent)
    requires PoolInv(capacity, p)
    ensures PoolInv(capacity, PoolAfter(p, ev))
  {
    if !ev.SessionSteps? {
      AdmissionKeepsPool(capacity, p, ev);
    } else if ev.id in p.sessions {
      SessionStepKeepsPool(capacity, p, ev.id, ev.event);
    }
  }

  lemma {:induction false} RunKeepsPool(capacity: nat, run: seq<PoolEvent>)
    ensures PoolInv(capacity, PoolRun(capacity, run))
    decreases |run|
  {
    if run != [] {
      RunKeepsPool(capacity, run[..|run| - 1]);
      StepKeepsPool(capacity, PoolRun(capacity, run[..|run| - 1]), run[|run| - 1]);
    } else {
      assert Holders(map[]) == {};
    }
  }

  /**
   In every run of the daemon running builds and registered sessions never exceed the
   configured capacity, no permit is lost or invented, every registered session holds one
   and every terminated session has given back exactly one.
   */
  lemma {:induction false} PermitsAreConserved(capacity: nat, run: seq<PoolEvent>)
    ensures
      var p := PoolRun(capacity, run);
      && p.builds + |Registered(p.sessions)| <= capacity
      && p.free + p.builds + |Holders(p.sessions)| == capacity
      && Registered(p.sessions) <= Holders(p.sessions)
      && forall id <- p.sessions :: p.sessions[id].entry.state.Terminated? ==>
           id !in Holders(p.sessions) && p.sessions[id].log.released == 1
  {
    RunKeepsPool(capacity, run);
    var p := PoolRun(capacity, run);
    forall id <- Registered(p.sessions) ensures id in Holders(p.sessions) {
      assert Core(p.sessions[id]);
    }
    SubsetIsSmaller(Registered(p.sessions), Holders(p.sessions));
  }

  /** In every run a build or a new session is admitted exactly while fewer than `capacity` are there. */
  lemma {:induction false} AdmissionIsExact(capacity: nat, run: seq<PoolEvent>, id: nat, deadline: nat, files: Files)
    requires id !in PoolRun(capacity, run).sessions
    ensures
      var p := PoolRun(capacity, run);
      var room := p.builds + |Holders(p.sessions)| < capacity;
      && PoolAfter(p, BuildArrives).builds == (if room then p.builds + 1 else p.builds)
      && (id in PoolAfter(p, SessionArrives(id, deadline, files)).sessions <==> room)
  {
    RunKeepsPool(capacity, run);
  }

  lemma SubsetIsSmaller<T>(a: set<T>, b: set<T>)
    requires a <= b
    ensures |a| <= |b|
  {
    assert b == a + (b - a);
  }

  /** A session reached inside the daemon is reached by a run of its own. */
  ghost predicate IsRun(s: Session) {
    exists deadline, files, run :: s == Run(Reserved(deadline, files), run)
  }

  lemma {:induction false} RunGrows(deadline: nat, files: Files, run: seq<Event>, ev: Event)
    ensures IsRun(After(Run(Reserved(deadline, files), run), ev))
  {
    assert (run + [ev])[..|run|] == run;
    assert Run(Reserved(deadline, files), run + [ev]) == After(Run(Reserved(deadline, files), run), ev);
  }

  /** Every session follows a run of its own, so that what holds of runs holds inside the daemon. */
  lemma {:induction false} SessionsAreIndependent(capacity: nat, run: seq<PoolEvent>, id: nat)
    requires id in PoolRun(capacity, run).sessions
    ensures IsRun(PoolRun(capacity, run).sessions[id])
    decreases |run|
  {
    if run != [] {
      var before, ev := PoolRun(capacity, run[..|run| - 1]), run[|run| - 1];
      if id in before.sessions {
        SessionsAreIndependent(capacity, run[..|run| - 1], id);
        if ev.SessionSteps? && ev.id == id {
          var deadline, files, own :| before.sessions[id] == Run(Reserved(deadline, files), own);
          RunGrows(deadline, files, own, ev.event);
        }
      } else {
        assert PoolRun(capacity, run).sessions[id] == Run(Reserved(ev.deadline, ev.files), []);
      }
    }
  }

  /** In every run of the daemon, every session's revisions form a chain and at most one stop succeeds. */
  lemma {:induction false} EverySessionKeepsOrder(capacity: nat, run: seq<PoolEvent>, id: nat)
    requires id in PoolRun(capacity, run).sessions
    ensures
      var s := PoolRun(capacity, run).sessions[id];
      && s.entry.revision == |s.log.successes|
      && (forall i :: 0 <= i < |s.log.successes| ==> s.log.successes[i].base == i)
      && forall a, b | a in s.threads.stops && b in s.threads.stops ::
           s.threads.stops[a].Returned? && s.threads.stops[b].Returned? ==> a == b
  {
    SessionsAreIndependent(capacity, run, id);
    var s := PoolRun(capacity, run).sessions[id];
    var deadline, files, own :| s == Run(Reserved(deadline, files), own);
    RevisionsFormAChain(deadline, files, own);
    forall a, b | a in s.threads.stops && b in s.threads.stops
                  && s.threads.stops[a].Returned? && s.threads.stops[b].Returned?
      ensures a == b
    {
      OneStopSucceeds(deadline, files, own, a);
    }
  }
}
