/** Bounded termination of a retained service: what a stop has proved when it returns. */
module Services {
  import opened Common

  /** The answer of one probe for the recorded process group. */
  datatype Probe = Exists | Gone | ProbeFails

  /** What the operating system will answer, in the order it is asked. */
  datatype World = World(probes: nat -> Probe, signals: nat -> bool)

  /**
   The first probe that does not find the group finds it gone, within `timeout` polls of a
   delivered TERM or `grace` more polls, and one, of a delivered KILL.
   */
  ghost predicate SeenGone(world: World, timeout: nat, grace: nat) {
    exists k :: 0 <= k <= timeout + grace + 1 && GoneAt(world, timeout, k)
  }

  ghost predicate GoneAt(world: World, timeout: nat, k: nat) {
    && world.probes(k) == Gone
    && (forall j :: 0 <= j < k ==> world.probes(j) == Exists)
    && (k > 0 ==> world.signals(0))
    && (k > timeout ==> world.signals(1))
  }

  /**
   Terminate a recorded process group: TERM, poll until the configured timeout, KILL, poll
   until the grace period ends.  Time is counted in polls.
   */
  method TerminateGroup(world: World, timeout: nat, grace: nat) returns (ok: bool)
    ensures ok <==> SeenGone(world, timeout, grace)
  {
    if world.probes(0) != Exists {
      ok := FirstOther(world, timeout, grace, 0);
      return;
    }
    if !world.signals(0) {
      return false;
    }
    var now := 0;
    while now < timeout
      invariant 0 <= now <= timeout
      invariant forall k :: 0 <= k < now + 1 ==> world.probes(k) == Exists
    {
      if world.probes(now + 1) != Exists {
        ok := FirstOther(world, timeout, grace, now + 1);
        return;
      }
      now := now + 1;
    }
    if !world.signals(1) {
      return false;
    }
    now := 0;
    while true
      invariant 0 <= now <= grace
      invariant forall k :: 0 <= k < timeout + 1 + now ==> world.probes(k) == Exists
      decreases grace - now
    {
      if world.probes(timeout + 1 + now) != Exists {
        ok := FirstOther(world, timeout, grace, timeout + 1 + now);
        return;
      }
      if now >= grace {
        return false;
      }
      now := now + 1;
    }
  }

  /** The answer once a probe did not find the group: gone, or the probe failed. */
  method FirstOther(world: World, timeout: nat, grace: nat, k: nat) returns (ok: bool)
    requires k <= timeout + grace + 1 && world.probes(k) != Exists
    requires forall j :: 0 <= j < k ==> world.probes(j) == Exists
    requires (k > 0 ==> world.signals(0)) && (k > timeout ==> world.signals(1))
    ensures ok <==> SeenGone(world, timeout, grace)
  {
    ok := world.probes(k) == Gone;
    if ok {
      assert GoneAt(world, timeout, k);
    }
  }

  /** How the supervisor's monitor thread ended, if it reported at all. */
  datatype MonitorReport = Clean | Unclean | ReapUnproven

  /** What the threads and the group of a running service will do while it is stopped. */
  datatype Ending = Ending(
    monitorJoins: bool,
    report: Option<MonitorReport>,
    group: World,
    readinessJoins: bool,
    outputsJoin: seq<bool>)

  datatype StopResult = Stopped | StopFailed(unproven: bool)

  /** What a stop must have seen for its service not to count as unproven. */
  ghost predicate Proven(ending: Ending, timeout: nat, grace: nat) {
    ending.monitorJoins && ending.report.Some? && SeenGone(ending.group, timeout, grace)
  }

  /** `RunningService::stop`: every step is taken whatever the earlier ones found. */
  method StopService(ending: Ending, timeout: nat, grace: nat) returns (result: StopResult)
    ensures
      && (result == Stopped || !result.unproven <==> Proven(ending, timeout, grace))
      && (result == Stopped <==> Proven(ending, timeout, grace) && ending.report == Some(Clean)
                                 && ending.readinessJoins && false !in ending.outputsJoin)
  {
    var errors, unproven := 0, false;
    if !ending.monitorJoins {
      unproven, errors := true, errors + 1;
    }
    match ending.report {
      case Some(report) =>
        if report != Clean {
          errors := errors + 1;
        }
      case None =>
        unproven, errors := true, errors + 1;
    }
    var ok := TerminateGroup(ending.group, timeout, grace);
    if !ok {
      unproven, errors := true, errors + 1;
    }
    if !ending.readinessJoins {
      errors := errors + 1;
    }
    var failures := errors;
    for i := 0 to |ending.outputsJoin|
      invariant errors >= failures
      invariant errors == failures <==> false !in ending.outputsJoin[..i]
    {
      if !ending.outputsJoin[i] {
        errors := errors + 1;
      }
    }
    assert ending.outputsJoin[..|ending.outputsJoin|] == ending.outputsJoin;
    result := if errors == 0 then Stopped else StopFailed(unproven);
  }
}
