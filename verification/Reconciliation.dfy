/**
 Startup reconciliation of the durable session records, and its composition with the session
 protocol: a record that survived because a service could not be proved gone makes the next
 startup fail closed.
 */
module Reconciliation {
  import opened Common
  import SessionProtocol
  import SessionInvariants
  import SessionRuns

  const METADATA_VERSION: nat := 3

  /** A process that a record names: supervisor, service leader and process group. */
  datatype Process = Process(supervisor: nat, leader: nat, group: int)

  datatype Metadata = Metadata(version: nat, sessionId: string, processes: seq<Process>)

  /** A file name in the metadata directory. */
  datatype FileName = Json(stem: string) | Unrecognized(text: string)

  /** Processes still there when the bounded wait for the supervisor has ended. */
  datatype Liveness = Liveness(process: nat -> bool, group: int -> Option<bool>)

  /** A group whose existence cannot be determined counts as live. */
  predicate Live(world: Liveness, p: Process) {
    world.process(p.supervisor) || world.process(p.leader) || world.group(p.group) != Some(false)
  }

  /** Readable, protected, of a known version and about the session its name says. */
  predicate ValidRecord(name: FileName, content: Option<Metadata>) {
    && name.Json? && content.Some?
    && (content.value.version == 2 || content.value.version == METADATA_VERSION)
    && content.value.sessionId == name.stem
  }

  /** The record names a process that is still there. */
  predicate Blocks(world: Liveness, name: FileName, content: Option<Metadata>) {
    ValidRecord(name, content) && exists p <- content.value.processes :: Live(world, p)
  }

  /** Session ids are generated with this prefix; orphaned workspaces are recognized by it. */
  predicate Generated(id: string) {
    "ses_" <= id
  }

  datatype Root = MissingRoot | ProtectedRoot | RefusedRoot

  class Storage {
    const root: Root
    var records: map<FileName, Option<Metadata>>
    var workspaces: set<string>   // ids x of the directories session-x under the workspace root

    constructor (root: Root, records: map<FileName, Option<Metadata>>, workspaces: set<string>)
      ensures this.root == root && this.records == records && this.workspaces == workspaces
    {
      this.root, this.records, this.workspaces := root, records, workspaces;
    }

    /** Wait for the recorded processes in reverse start order; true when all are gone. */
    static method AwaitShutdown(world: Liveness, processes: seq<Process>) returns (ok: bool)
      ensures ok <==> forall p <- processes :: !Live(world, p)
    {
      var i := |processes|;
      while i > 0
        invariant 0 <= i <= |processes|
        invariant forall k :: i <= k < |processes| ==> !Live(world, processes[k])
      {
        i := i - 1;
        var p := processes[i];
        assert p in processes;
        if world.process(p.supervisor) {
          return false;
        }
        if world.process(p.leader) || world.group(p.group) != Some(false) {
          return false;
        }
      }
      ok := true;
    }

    /**
     `order` is the directory listing and `stuck` the files whose removal fails.  Startup
     succeeds exactly when no valid record names a live process; a record that does keeps
     its session's files; a startup that succeeds leaves nothing that could be removed.
     */
    method Reconcile(world: Liveness, order: seq<FileName>, stuck: set<FileName>, stuckWorkspaces: set<string>)
      returns (ok: bool)
      requires root.ProtectedRoot? ==> forall name :: name in order <==> name in records
      requires forall i, j :: 0 <= i < j < |order| ==> order[i] != order[j]
      modifies this
      ensures root.RefusedRoot? ==> !ok
      ensures root.ProtectedRoot? ==>
        (ok <==> forall name <- old(records) :: !Blocks(world, name, old(records)[name]))
      ensures root.ProtectedRoot? ==>
        forall name <- old(records) :: Blocks(world, name, old(records)[name]) ==>
          && name in records && records[name] == old(records)[name]
          && (name.stem in old(workspaces) ==> name.stem in workspaces)
      ensures records.Keys <= old(records.Keys) && workspaces <= old(workspaces)
      ensures ok ==> forall w <- workspaces :: Generated(w) ==> w in stuckWorkspaces
      ensures ok && root.ProtectedRoot? ==> records.Keys <= stuck
    {
      if root.RefusedRoot? {
        return false;
      }
      if root.ProtectedRoot? {
        for i := 0 to |order|
          invariant records.Keys <= old(records.Keys) && workspaces <= old(workspaces)
          invariant forall j :: i <= j < |order| ==> order[j] in records && records[order[j]] == old(records)[order[j]]
          invariant forall j :: i <= j < |order| && order[j].Json? && order[j].stem in old(workspaces) ==>
                      order[j].stem in workspaces
          invariant forall j :: 0 <= j < i ==> !Blocks(world, order[j], old(records)[order[j]])
          invariant forall j :: 0 <= j < i ==> order[j] !in records || order[j] in stuck
        {
          var name := order[i];
          match name
          case Unrecognized(_) =>
            records := if name in stuck then records else records - {name};
          case Json(stem) =>
            if ValidRecord(name, records[name]) {
              var shutDown := AwaitShutdown(world, records[name].value.processes);
              if !shutDown {
                return false;
              }
            }
            workspaces := if stem in stuckWorkspaces then workspaces else workspaces - {stem};
            records := if name in stuck then records else records - {name};
        }
      }
      workspaces := set w <- workspaces | !Generated(w) || w in stuckWorkspaces;
      ok := true;
    }
  }

  // ------------------------------------------------- across a daemon restart

  /** The record as the session manager writes it, given the processes behind each service. */
  function MetadataOf(id: string, record: SessionProtocol.Record, processOf: nat -> Process): Metadata {
    Metadata(if record.services == [] then 2 else METADATA_VERSION, id,
             seq(|record.services|, i requires 0 <= i < |record.services| => processOf(record.services[i])))
  }

  /**
   Fail closed across a restart: when a session that became Ready ends without one of its
   service groups having been observed gone, its record survives and, as long as that service
   is live, makes `Reconcile` refuse to start.
   */
  lemma {:induction false} SurvivorBlocksStartup(
    deadline: nat, files: SessionProtocol.Files, run: seq<SessionProtocol.Event>,
    id: string, processOf: nat -> Process, world: Liveness, service: nat)
    requires SessionRuns.Punctual(deadline, files, run)
    requires
      var s := SessionRuns.Run(SessionProtocol.Reserved(deadline, files), run);
      s.log.retained.Some? && service in s.log.retained.value && service !in s.log.gone
    requires Live(world, processOf(service))
    ensures
      var s := SessionRuns.Run(SessionProtocol.Reserved(deadline, files), run);
      s.store.record.Some? && Blocks(world, Json(id), Some(MetadataOf(id, s.store.record.value, processOf)))
  {
    SessionRuns.RecordOutlivesServices(deadline, files, run);
    var s := SessionRuns.Run(SessionProtocol.Reserved(deadline, files), run);
    var services := s.store.record.value.services;
    var i :| 0 <= i < |services| && services[i] == service;
    assert MetadataOf(id, s.store.record.value, processOf).processes[i] == processOf(service);
  }
}
