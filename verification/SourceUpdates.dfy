/**
 The source-update transaction: back up every target, mutate one slot at a time, verify that
 every held parent directory is still where the declared path says, commit, and on any
 observed error roll back in reverse order.
 */
module SourceUpdates {
  import opened Common
  import opened WorkspaceFiles
  import opened UpdateSteps
  import opened QuietSteps

  datatype UpdateError = UpdateError(kind: ErrorKind, rollbackProven: bool)

  datatype Evidence = Evidence(path: seq<string>, bytes: seq<nat>)

  datatype Applied = Applied(changed: seq<Evidence>, deleted: seq<Evidence>)

  datatype UpdateResult = Ok(evidence: Applied) | Err(error: UpdateError)

  /** How a transaction ended, given the files before and after and the commit calls it made. */
  predicate Transacted(result: UpdateResult, before: Files, after: Files, calls: seq<bool>) {
    match result
    case Ok(_) => calls == [true]
    case Err(error) =>
      if error.rollbackProven then after == before && calls == [] else calls == [] || calls == [false]
  }

  /** What the session that runs an update learns about it: also whether its durable record moved. */
  datatype Outcome = Outcome(ok: bool, rollbackProven: bool, recordLanded: bool, files: Files)

  /** All that the session protocol relies on. */
  predicate Admissible(before: Files, outcome: Outcome) {
    && (outcome.ok ==> outcome.recordLanded)
    && (!outcome.ok && outcome.rollbackProven ==> !outcome.recordLanded && outcome.files == before)
  }

  /**
   Every transaction is admissible.  A commit that reported success has landed, and only a
   commit that was called may have; one that reported failure may have landed all the same.
   */
  lemma TransactionsAreAdmissible(result: UpdateResult, before: Files, after: Files, calls: seq<bool>, landed: bool)
    requires Transacted(result, before, after, calls)
    requires (landed ==> calls != []) && (calls == [true] ==> landed)
    ensures Admissible(before, Outcome(result.Ok?, result.Err? && result.error.rollbackProven, landed, after))
  {
  }

  // ------------------------------------------------------------ the whole transaction

  datatype Commit = Commit(sys: Sys, slots: seq<Slot>, error: Option<UpdateError>, calls: seq<bool>)

  /** Mutation, verification and commit; `calls` are the commits made. */
  function Committed(w: World, s: Sys, changes: seq<Change>, backups: seq<Backup>): (r: Commit)
    requires Proper(changes) && |backups| == |changes|
    ensures |r.slots| <= |changes| && (r.error.None? ==> |r.slots| == |changes|)
  {
    CommittedAfter(w, MutatedTo(w, s, changes, backups, |changes|), changes)
  }

  function CommittedAfter(w: World, m: Mutation, changes: seq<Change>): (r: Commit)
    requires Proper(changes) && |m.slots| <= |changes| && (m.error.None? ==> |m.slots| == |changes|)
    ensures r.slots == m.slots && (m.error.Some? ==> r.error.Some?)
  {
    if m.error.Some? then Commit(m.sys, m.slots, Some(UpdateError(m.error.value, true)), [])
    else
      var (s1, verified) := VerifiedTo(w, m.sys, changes, m.slots, |changes|);
      if !verified then Commit(s1, m.slots, Some(UpdateError(BadRequest, true)), [])
      else if w.cancels(s1.clock) then Commit(s1, m.slots, Some(UpdateError(Cancelled, true)), [])
      else if w.fails(s1.clock) then Commit(Later(w, s1), m.slots, Some(UpdateError(Internal, false)), [false])
      else Commit(Later(w, s1), m.slots, None, [true])
  }

  datatype Ending = Ending(sys: Sys, slots: seq<Slot>, result: UpdateResult, calls: seq<bool>)

  function Ended(w: World, s: Sys, changes: seq<Change>): Ending
    requires Proper(changes)
  {
    if w.cancels(s.clock) then Ending(s, [], Err(UpdateError(Cancelled, true)), [])
    else if w.fails(s.clock) then Ending(Later(w, s), [], Err(UpdateError(Internal, true)), [])
    else
      var b := BackedUpTo(w, Later(w, s), changes, |changes|);
      if b.error.Some? then Ending(b.sys, [], Err(UpdateError(b.error.value, true)), [])
      else Concluded(w, Committed(w, b.sys, changes, b.backups), changes, b.backups)
  }

  /** After the commit, or the error before it: report, or roll back. */
  function Concluded(w: World, c: Commit, changes: seq<Change>, backups: seq<Backup>): Ending
    requires |c.slots| <= |changes| == |backups|
  {
    if c.error.Some? then
      var (s1, restored) := RolledBack(w, c.sys, c.slots, backups);
      Ending(s1, c.slots, Err(c.error.value.(rollbackProven := c.error.value.rollbackProven && restored)), c.calls)
    else Ending(c.sys, c.slots, Ok(Applied(Changed(changes), Deleted(changes, backups))), c.calls)
  }

  // ------------------------------------------------ effects on the file view

  /** The effect of all changes, in order. */
  function AllWritten(files: Files, slots: seq<Slot>, changes: seq<Change>, uid: nat, gid: nat): Files
    requires |slots| == |changes|
  {
    if slots == [] then files
    else
      var n := |slots| - 1;
      Written(AllWritten(files, slots[..n], changes[..n], uid, gid), slots[n], changes[n].kind, uid, gid)
  }

  /** The recorded views are the effects of the changes so far. */
  ghost predicate Staged(files: Files, stages: seq<Files>, slots: seq<Slot>, changes: seq<Change>, uid: nat, gid: nat) {
    && |slots| == |changes| && |stages| == |slots| + 1
    && forall j :: 0 <= j <= |slots| ==> stages[j] == AllWritten(files, slots[..j], changes[..j], uid, gid)
  }

  lemma StagedGrows(files: Files, stages: seq<Files>, slots: seq<Slot>, changes: seq<Change>, slot: Slot,
                    change: Change, uid: nat, gid: nat)
    requires Staged(files, stages, slots, changes, uid, gid)
    ensures
      var after := Written(stages[|slots|], slot, change.kind, uid, gid);
      Staged(files, stages + [after], slots + [slot], changes + [change], uid, gid)
  {
    var n := |slots|;
    var slots', changes' := slots + [slot], changes + [change];
    var stages' := stages + [Written(stages[n], slot, change.kind, uid, gid)];
    forall j | 0 <= j <= |slots'|
      ensures stages'[j] == AllWritten(files, slots'[..j], changes'[..j], uid, gid)
    {
      if j <= n {
        assert slots'[..j] == slots[..j] && changes'[..j] == changes[..j];
      } else {
        assert slots'[..j][..n] == slots[..n] && changes'[..j][..n] == changes[..n];
      }
    }
  }

  /** The evidence of installed files, in declaration order. */
  function Changed(changes: seq<Change>): seq<Evidence> {
    if changes == [] then []
    else
      var n := |changes| - 1;
      Changed(changes[..n])
      + (if changes[n].kind.Install? then [Evidence(changes[n].path, changes[n].kind.bytes)] else [])
  }

  /** The evidence of deleted files: what was backed up, in declaration order. */
  function Deleted(changes: seq<Change>, backups: seq<Backup>): seq<Evidence>
    requires |backups| == |changes|
  {
    if changes == [] then []
    else
      var n := |changes| - 1;
      Deleted(changes[..n], backups[..n])
      + (if changes[n].kind.Delete? && backups[n].saved.Some? then
           [Evidence(changes[n].path, backups[n].saved.value.bytes)]
         else [])
  }

  /** The files deleted, as each slot held them right before. */
  function Withdrawn(files: Files, slots: seq<Slot>, changes: seq<Change>, uid: nat, gid: nat): seq<Evidence>
    requires |slots| == |changes|
  {
    if changes == [] then []
    else
      var n := |changes| - 1;
      var before := AllWritten(files, slots[..n], changes[..n], uid, gid);
      Withdrawn(files, slots[..n], changes[..n], uid, gid)
      + (if changes[n].kind.Delete? && slots[n] in before then [Evidence(changes[n].path, before[slots[n]].bytes)]
         else [])
  }

  /** A history of file views in which step j touched slot j only, and backup j can undo it. */
  ghost predicate Undoable(stages: seq<Files>, slots: seq<Slot>, backups: seq<Backup>) {
    && |stages| == |slots| + 1 && |slots| <= |backups|
    && forall j :: 0 <= j < |slots| ==>
         Saved(stages[j], slots[j], backups[j]) && OnlyAt(stages[j], stages[j + 1], slots[j])
  }

  /** Restoring the slot of a step takes its effect back entirely. */
  lemma RestoreUndoes(before: Files, after: Files, slot: Slot, backup: Backup)
    requires Saved(before, slot, backup) && OnlyAt(before, after, slot)
    ensures PutBack(after, slot, backup) == before
  {
    assert forall s :: s in PutBack(after, slot, backup) <==> s in before;
  }

  /** One more undoable step. */
  lemma UndoableGrows(stages: seq<Files>, slots: seq<Slot>, backups: seq<Backup>, slot: Slot, after: Files)
    requires Undoable(stages, slots, backups) && |slots| < |backups|
    requires Saved(stages[|slots|], slot, backups[|slots|]) && OnlyAt(stages[|slots|], after, slot)
    ensures Undoable(stages + [after], slots + [slot], backups)
  {
    var stages', slots' := stages + [after], slots + [slot];
    forall j | 0 <= j < |slots'|
      ensures Saved(stages'[j], slots'[j], backups[j]) && OnlyAt(stages'[j], stages'[j + 1], slots'[j])
    {
      if j < |slots| {
        assert Saved(stages[j], slots[j], backups[j]) && OnlyAt(stages[j], stages[j + 1], slots[j]);
      }
    }
  }

  // -------------------------------------------------------------------- the backups

  predicate BackupsValid(inodes: map<nat, FileData>, backups: seq<Backup>) {
    forall i :: 0 <= i < |backups| ==> BackupValid(inodes, backups[i])
  }

  lemma BackupsStayValid(before: map<nat, FileData>, after: map<nat, FileData>, backups: seq<Backup>)
    requires Extends(before, after) && BackupsValid(before, backups)
    ensures BackupsValid(after, backups)
  {
    forall i | 0 <= i < |backups| ensures BackupValid(after, backups[i]) {
      assert BackupValid(before, backups[i]);
    }
  }

  /** Deleted targets have a copy. */
  predicate DeletesCovered(changes: seq<Change>, backups: seq<Backup>) {
    && |backups| <= |changes|
    && forall i :: 0 <= i < |backups| ==> (changes[i].kind.Delete? ==> backups[i].saved.Some?)
  }

  /** Nothing has changed, and every backup so far is good. */
  ghost predicate Backed(s: Sys, b: Backing, changes: seq<Change>)
    requires ValidSys(s)
  {
    Still(s, b.sys) && BackupsValid(s.tree.inodes, b.backups) && DeletesCovered(changes, b.backups)
  }

  lemma OneMoreBacked(s: Sys, b: Backing, changes: seq<Change>, s1: Sys, backup: Backup)
    requires ValidSys(s) && Backed(s, b, changes) && Still(b.sys, s1) && |b.backups| < |changes|
    requires BackupValid(s.tree.inodes, backup) && (changes[|b.backups|].kind.Delete? ==> backup.saved.Some?)
    ensures Backed(s, Backing(s1, b.backups + [backup], None), changes)
  {
    StillTwice(s, b.sys, s1);
  }

  lemma BackedUpOneKeeps(w: World, s: Sys, b: Backing, changes: seq<Change>)
    requires ValidSys(s) && Backed(s, b, changes) && Proper(changes) && |b.backups| < |changes|
    ensures Backed(s, BackedUpOne(w, b, changes[|b.backups|]), changes)
  {
    var change := changes[|b.backups|];
    BackedUpIsGood(w, b.sys, change);
    var (s1, backup) := BackedUp(w, b.sys, change);
    if backup.Done? {
      OneMoreBacked(s, b, changes, s1, backup.value);
    } else {
      StillTwice(s, b.sys, s1);
    }
  }

  lemma BackedUpIsGood(w: World, s: Sys, change: Change)
    requires ValidSys(s) && change.path != []
    ensures
      var (s', backup) := BackedUp(w, s, change);
      && Still(s, s')
      && (backup.Done? ==> BackupValid(s.tree.inodes, backup.value) && (change.kind.Delete? ==> backup.value.saved.Some?))
  {
    BackedUpSaves(w, s, change);
  }

  lemma BackupsAreValid(w: World, s: Sys, changes: seq<Change>)
    requires ValidSys(s) && Proper(changes)
    ensures Backed(s, BackedUpTo(w, s, changes, |changes|), changes)
  {
    var keeps := (b: Backing) => |b.backups| <= |changes| && Backed(s, b, changes);
    forall b: Backing | keeps(b) && |b.backups| < |changes| ensures keeps(BackedUpOne(w, b, changes[|b.backups|])) {
      BackedUpOneKeeps(w, s, b, changes);
    }
    assert keeps(Backing(s, [], None));
    BackedUpToKeeps(w, s, changes, |changes|, keeps);
    assert keeps(BackedUpTo(w, s, changes, |changes|));
  }

  lemma {:induction false} BackedUpToKeeps(w: World, s: Sys, changes: seq<Change>, k: nat, keeps: Backing -> bool)
    requires Proper(changes) && k <= |changes| && keeps(Backing(s, [], None))
    requires forall b: Backing {:trigger BackedUpOne(w, b, changes[|b.backups|])} ::
               keeps(b) && |b.backups| < |changes| ==> keeps(BackedUpOne(w, b, changes[|b.backups|]))
    ensures keeps(BackedUpTo(w, s, changes, k))
    decreases k
  {
    if k > 0 {
      BackedUpToKeeps(w, s, changes, k - 1, keeps);
      var b := BackedUpTo(w, s, changes, k - 1);
      if b.error.None? {
        assert keeps(BackedUpOne(w, b, changes[|b.backups|]));
      }
    }
  }

  // -------------------------------------------------------------------- the mutations

  /** Every installed file is still in its slot, as a file made since `bound`. */
  ghost predicate Standing(t: Tree, slots: seq<Slot>, changes: seq<Change>, bound: nat) {
    && |slots| <= |changes|
    && forall i :: 0 <= i < |slots| && changes[i].kind.Install? ==>
         IsFile(t, slots[i]) && t.entries[slots[i]].inode >= bound
  }

  /** No later change goes to a slot that an earlier one installed a file in. */
  predicate Separate(slots: seq<Slot>, changes: seq<Change>) {
    && |slots| <= |changes|
    && forall i, j {:trigger slots[i], slots[j]} ::
         0 <= i < j < |slots| && changes[i].kind.Install? ==> slots[i] != slots[j]
  }

  /** Every slot carries the final component of its change's path. */
  predicate Named(slots: seq<Slot>, changes: seq<Change>)
    requires Proper(changes)
  {
    |slots| <= |changes| && forall i :: 0 <= i < |slots| ==> slots[i].name == Final(changes[i].path)
  }

  /** What holds after any number of mutations, the last of which may have failed. */
  ghost predicate Progress(s: Sys, m: Mutation, changes: seq<Change>, backups: seq<Backup>, stages: seq<Files>)
    requires ValidSys(s) && Proper(changes)
  {
    && ValidSys(m.sys) && Extends(s.tree.inodes, m.sys.tree.inodes) && s.next <= m.sys.next
    && Undoable(stages, m.slots, backups) && Named(m.slots, changes)
    && stages[0] == FilesOf(s.tree) && stages[|m.slots|] == FilesOf(m.sys.tree)
  }

  /** What holds besides as long as none has failed. */
  ghost predicate Successful(w: World, s: Sys, m: Mutation, changes: seq<Change>, stages: seq<Files>)
    requires ValidSys(s)
  {
    && |m.slots| <= |changes|
    && Staged(FilesOf(s.tree), stages, m.slots, changes[..|m.slots|], w.uid, w.gid)
    && Standing(m.sys.tree, m.slots, changes, s.next) && Separate(m.slots, changes)
  }

  /** The mutations so far can be undone, and as long as none failed they are all in place. */
  ghost predicate Advanced(w: World, s: Sys, m: Mutation, changes: seq<Change>, backups: seq<Backup>)
    requires ValidSys(s) && Proper(changes)
  {
    exists stages :: Progress(s, m, changes, backups, stages) && (m.error.None? ==> Successful(w, s, m, changes, stages))
  }

  lemma MutationsAdvance(w: World, s: Sys, changes: seq<Change>, backups: seq<Backup>)
    requires ValidSys(s) && Proper(changes) && |backups| == |changes| && BackupsValid(s.tree.inodes, backups)
    ensures Advanced(w, s, MutatedTo(w, s, changes, backups, |changes|), changes, backups)
  {
    var keeps := (m: Mutation) => |m.slots| <= |changes| && Advanced(w, s, m, changes, backups);
    forall m: Mutation | keeps(m) && m.error.None? && |m.slots| < |changes|
      ensures keeps(MutatedOne(w, m, changes[|m.slots|], backups[|m.slots|]))
    {
      var stages :| Progress(s, m, changes, backups, stages) && Successful(w, s, m, changes, stages);
      var more := MutationProgresses(w, s, m, changes, backups, stages);
    }
    assert Progress(s, Mutation(s, [], None), changes, backups, [FilesOf(s.tree)]);
    assert Successful(w, s, Mutation(s, [], None), changes, [FilesOf(s.tree)]);
    assert keeps(Mutation(s, [], None));
    MutatedToKeeps(w, s, changes, backups, |changes|, keeps);
    assert keeps(MutatedTo(w, s, changes, backups, |changes|));
  }

  lemma {:induction false} MutatedToKeeps(w: World, s: Sys, changes: seq<Change>, backups: seq<Backup>, k: nat,
                                          keeps: Mutation -> bool)
    requires Proper(changes) && |backups| == |changes| && k <= |changes| && keeps(Mutation(s, [], None))
    requires forall m: Mutation {:trigger MutatedOne(w, m, changes[|m.slots|], backups[|m.slots|])} ::
               keeps(m) && m.error.None? && |m.slots| < |changes| ==>
                 keeps(MutatedOne(w, m, changes[|m.slots|], backups[|m.slots|]))
    ensures keeps(MutatedTo(w, s, changes, backups, k))
    decreases k
  {
    if k > 0 {
      MutatedToKeeps(w, s, changes, backups, k - 1, keeps);
      var m := MutatedTo(w, s, changes, backups, k - 1);
      if m.error.None? {
        assert keeps(MutatedOne(w, m, changes[|m.slots|], backups[|m.slots|]));
      }
    }
  }

  /** One more mutation, whatever comes of it. */
  lemma MutationProgresses(w: World, s: Sys, m: Mutation, changes: seq<Change>, backups: seq<Backup>, stages: seq<Files>)
    returns (more: seq<Files>)
    requires ValidSys(s) && Proper(changes) && |backups| == |changes| && BackupsValid(s.tree.inodes, backups)
    requires Progress(s, m, changes, backups, stages) && Successful(w, s, m, changes, stages) && |m.slots| < |changes|
    ensures
      var m' := MutatedOne(w, m, changes[|m.slots|], backups[|m.slots|]);
      Progress(s, m', changes, backups, more) && (m'.error.None? ==> Successful(w, s, m', changes, more))
  {
    var n := |m.slots|;
    var change, backup := changes[n], backups[n];
    BackupsStayValid(s.tree.inodes, m.sys.tree.inodes, backups);
    RecheckedSaves(w, m.sys, change, backup);
    var (s1, held) := Rechecked(w, m.sys, change, backup);
    if held.Failed? {
      more := stages;
    } else {
      var (s2, ok) := Rewritten(w, s1, held.value, change.kind);
      RewrittenTouches(w, s1, held.value, change.kind);
      more := stages + [FilesOf(s2.tree)];
      ProgressGrows(s, m, changes, backups, stages, s1, s2, held.value, if ok then None else Some(Internal));
      if ok {
        SuccessGrows(w, s, m, changes, backups, stages, s1, s2, held.value);
      }
    }
  }

  lemma ProgressGrows(s: Sys, m: Mutation, changes: seq<Change>, backups: seq<Backup>, stages: seq<Files>,
                      s1: Sys, s2: Sys, slot: Slot, error: Option<ErrorKind>)
    requires ValidSys(s) && Proper(changes) && |backups| == |changes|
    requires Progress(s, m, changes, backups, stages) && |m.slots| < |changes|
    requires Holds(m.sys, s1, Done(slot), Final(changes[|m.slots|].path), backups[|m.slots|]) && Touches(s1, s2, slot)
    ensures Progress(s, Mutation(s2, m.slots + [slot], error), changes, backups, stages + [FilesOf(s2.tree)])
  {
    UndoableGrows(stages, m.slots, backups, slot, FilesOf(s2.tree));
  }

  lemma SuccessGrows(w: World, s: Sys, m: Mutation, changes: seq<Change>, backups: seq<Backup>, stages: seq<Files>,
                     s1: Sys, s2: Sys, slot: Slot)
    requires ValidSys(s) && Proper(changes) && |backups| == |changes| && BackupsValid(s.tree.inodes, backups)
    requires Progress(s, m, changes, backups, stages) && Successful(w, s, m, changes, stages) && |m.slots| < |changes|
    requires Holds(m.sys, s1, Done(slot), Final(changes[|m.slots|].path), backups[|m.slots|]) && Touches(s1, s2, slot)
    requires FilesOf(s2.tree) == Written(FilesOf(s1.tree), slot, changes[|m.slots|].kind, w.uid, w.gid)
    requires changes[|m.slots|].kind.Install? ==> Look(s2.tree, slot) == Some(FileNode(s1.next))
    ensures Successful(w, s, Mutation(s2, m.slots + [slot], None), changes, stages + [FilesOf(s2.tree)])
  {
    var n := |m.slots|;
    StagedGrows(FilesOf(s.tree), stages, m.slots, changes[..n], slot, changes[n], w.uid, w.gid);
    assert changes[..n + 1] == changes[..n] + [changes[n]];
    StandingGrows(s, m, changes, backups, s1, s2, slot);
  }

  /**
   A file installed earlier has a newer inode than any backup, so a target that is still the
   one backed up, or still absent, is in another slot.
   */
  lemma StandingGrows(s: Sys, m: Mutation, changes: seq<Change>, backups: seq<Backup>, s1: Sys, s2: Sys, slot: Slot)
    requires ValidSys(s) && ValidSys(m.sys) && |backups| == |changes| && BackupsValid(s.tree.inodes, backups)
    requires s.next <= m.sys.next && |m.slots| < |changes| && slot.name.Plain?
    requires Standing(m.sys.tree, m.slots, changes, s.next) && Separate(m.slots, changes)
    requires forall i :: 0 <= i < |m.slots| ==> m.slots[i].name.Plain?
    requires Still(m.sys, s1) && Unchanged(Look(s1.tree, slot), backups[|m.slots|]) && Touches(s1, s2, slot)
    requires changes[|m.slots|].kind.Install? ==> Look(s2.tree, slot) == Some(FileNode(s1.next))
    ensures Standing(s2.tree, m.slots + [slot], changes, s.next) && Separate(m.slots + [slot], changes)
  {
    var n := |m.slots|;
    assert BackupValid(s.tree.inodes, backups[n]);
    forall i | 0 <= i < n && changes[i].kind.Install?
      ensures m.slots[i] != slot && IsFile(s2.tree, m.slots[i]) && s2.tree.entries[m.slots[i]].inode >= s.next
    {
      assert IsFile(m.sys.tree, m.slots[i]);
      assert IsFile(s1.tree, m.slots[i]) && s1.tree.entries[m.slots[i]] == m.sys.tree.entries[m.slots[i]];
    }
  }

  // --------------------------------------------------------------------- the rollback

  ghost predicate Undone(r: (Sys, bool), files: Files) {
    ValidSys(r.0) && (r.1 ==> FilesOf(r.0.tree) == files)
  }

  lemma {:induction false} UndoingLeadsBack(restore: Restoring, s: Sys, k: nat, stages: seq<Files>)
    requires ValidSys(s) && k < |stages| && FilesOf(s.tree) == stages[k]
    requires forall s, i: nat {:trigger restore(s, i)} ::
               i < k && ValidSys(s) && FilesOf(s.tree) == stages[i + 1] ==> Undone(restore(s, i), stages[i])
    ensures Undone(Undoing(restore, s, k), stages[0])
    decreases k
  {
    if k > 0 {
      var (s1, ok) := restore(s, k - 1);
      assert Undone(restore(s, k - 1), stages[k - 1]);
      if ok {
        UndoingLeadsBack(restore, s1, k - 1, stages);
      }
    }
  }

  lemma SlotRestored(w: World, s: Sys, slot: Slot, backup: Backup, before: Files)
    requires ValidSys(s) && slot.name.Plain? && Saved(before, slot, backup) && OnlyAt(before, FilesOf(s.tree), slot)
    ensures Undone(Restored(w, s, slot, backup), before)
  {
    RestoredPutsBack(w, s, slot, backup);
    RestoreUndoes(before, FilesOf(s.tree), slot, backup);
  }

  /** A rollback that reports success has put back every file the mutations touched. */
  lemma RollbackRestores(w: World, s: Sys, slots: seq<Slot>, backups: seq<Backup>, stages: seq<Files>)
    requires ValidSys(s) && Undoable(stages, slots, backups) && FilesOf(s.tree) == stages[|slots|]
    requires forall i :: 0 <= i < |slots| ==> slots[i].name.Plain?
    ensures Undone(RolledBack(w, s, slots, backups), stages[0])
  {
    var restore := Restorer(w, slots, backups);
    forall s, i: nat | i < |slots| && ValidSys(s) && FilesOf(s.tree) == stages[i + 1]
      ensures Undone(restore(s, i), stages[i])
    {
      assert Saved(stages[i], slots[i], backups[i]) && OnlyAt(stages[i], stages[i + 1], slots[i]);
      SlotRestored(w, s, slots[i], backups[i], stages[i]);
    }
    UndoingLeadsBack(restore, s, |slots|, stages);
  }

  /** Whatever history of undoable steps led to the files, a successful rollback leads back to its start. */
  ghost predicate LeadsBack(before: Files, r: (Sys, bool), slots: seq<Slot>, backups: seq<Backup>) {
    forall stages {:trigger Undoable(stages, slots, backups)} ::
      Undoable(stages, slots, backups) && stages[|slots|] == before ==> Undone(r, stages[0])
  }

  lemma RollbackLeadsBack(w: World, s: Sys, slots: seq<Slot>, backups: seq<Backup>)
    requires ValidSys(s) && |slots| <= |backups| && forall i :: 0 <= i < |slots| ==> slots[i].name.Plain?
    ensures LeadsBack(FilesOf(s.tree), RolledBack(w, s, slots, backups), slots, backups)
  {
    forall stages | Undoable(stages, slots, backups) && stages[|slots|] == FilesOf(s.tree)
      ensures Undone(RolledBack(w, s, slots, backups), stages[0])
    {
      RollbackRestores(w, s, slots, backups, stages);
    }
  }

  lemma {:induction false} VerifiedIsStill(w: World, s: Sys, changes: seq<Change>, slots: seq<Slot>, k: nat)
    requires ValidSys(s) && Proper(changes) && |slots| == |changes| && k <= |changes|
    ensures Still(s, VerifiedTo(w, s, changes, slots, k).0)
    decreases k
  {
    if k > 0 {
      VerifiedIsStill(w, s, changes, slots, k - 1);
      var (s1, ok) := VerifiedTo(w, s, changes, slots, k - 1);
      if ok {
        OpenedParentIsStill(w, s1, changes[k - 1].path);
        StillTwice(s, s1, OpenedParent(w, s1, changes[k - 1].path).0);
      }
    }
  }

  /** The instants of a verification: opening the i-th parent at `states[i]` finds the held directory. */
  ghost predicate Refinds(w: World, changes: seq<Change>, slots: seq<Slot>, states: seq<Sys>)
    requires Proper(changes) && |slots| == |changes|
  {
    && 1 <= |states| <= |changes| + 1
    && forall i :: 0 <= i < |states| - 1 ==>
         OpenedParent(w, states[i], changes[i].path) == (states[i + 1], Some(slots[i].dir))
  }

  ghost predicate AllRefound(w: World, s: Sys, changes: seq<Change>, slots: seq<Slot>)
    requires Proper(changes) && |slots| == |changes|
  {
    exists states :: Refinds(w, changes, slots, states) && |states| == |changes| + 1 && states[0] == s
  }

  lemma {:induction false} RefoundIsVerified(w: World, changes: seq<Change>, slots: seq<Slot>, states: seq<Sys>, k: nat)
    requires Proper(changes) && |slots| == |changes| && Refinds(w, changes, slots, states) && k < |states|
    ensures VerifiedTo(w, states[0], changes, slots, k) == (states[k], true)
    decreases k
  {
    if k > 0 {
      RefoundIsVerified(w, changes, slots, states, k - 1);
    }
  }

  lemma {:induction false} VerifiedIsRefound(w: World, s: Sys, changes: seq<Change>, slots: seq<Slot>, k: nat)
    returns (states: seq<Sys>)
    requires Proper(changes) && |slots| == |changes| && k <= |changes| && VerifiedTo(w, s, changes, slots, k).1
    ensures Refinds(w, changes, slots, states) && |states| == k + 1 && states[0] == s
    ensures states[k] == VerifiedTo(w, s, changes, slots, k).0
    decreases k
  {
    if k == 0 {
      states := [s];
    } else {
      states := VerifiedIsRefound(w, s, changes, slots, k - 1);
      states := states + [VerifiedTo(w, s, changes, slots, k).0];
    }
  }

  /** Verification succeeds exactly when every parent, opened in turn, is found to be the held one. */
  lemma VerificationRefindsAll(w: World, s: Sys, changes: seq<Change>, slots: seq<Slot>)
    requires Proper(changes) && |slots| == |changes|
    ensures
      VerifiedTo(w, s, changes, slots, |changes|).1 <==> AllRefound(w, s, changes, slots)
  {
    if VerifiedTo(w, s, changes, slots, |changes|).1 {
      var states := VerifiedIsRefound(w, s, changes, slots, |changes|);
    }
    if states :| Refinds(w, changes, slots, states) && |states| == |changes| + 1 && states[0] == s {
      RefoundIsVerified(w, changes, slots, states, |changes|);
    }
  }

  // ------------------------------------------------ where the changes are at the end

  /** Some change after the i-th installed a file in the same slot. */
  predicate Retaken(slots: seq<Slot>, changes: seq<Change>, i: nat)
    requires |slots| == |changes| && i < |slots|
  {
    exists j :: i < j < |slots| && changes[j].kind.Install? && slots[j] == slots[i]
  }

  /** An installed file is in its slot; a deleted one is gone exactly when no later change took the slot. */
  ghost predicate Placed(after: Files, slots: seq<Slot>, changes: seq<Change>, uid: nat, gid: nat, i: nat)
    requires |slots| == |changes| && i < |slots|
  {
    match changes[i].kind
    case Install(bytes) => slots[i] in after && after[slots[i]] == View(uid, gid, INSTALL_MODE, bytes)
    case Delete => slots[i] !in after <==> !Retaken(slots, changes, i)
  }

  /** What a successful update leaves behind. */
  ghost predicate InPlace(before: Files, after: Files, slots: seq<Slot>, changes: seq<Change>, uid: nat, gid: nat) {
    && |slots| == |changes|
    && (forall i :: 0 <= i < |slots| ==> Placed(after, slots, changes, uid, gid, i))
    && (forall s :: s !in slots ==> (s in after <==> s in before) && (s in before ==> after[s] == before[s]))
  }

  /** Slots that no change names keep their files. */
  lemma {:induction false} OthersUntouched(files: Files, slots: seq<Slot>, changes: seq<Change>, uid: nat, gid: nat, s: Slot)
    requires |slots| == |changes| && s !in slots
    ensures
      var after := AllWritten(files, slots, changes, uid, gid);
      (s in after <==> s in files) && (s in files ==> after[s] == files[s])
  {
    if slots != [] {
      var n := |slots| - 1;
      assert slots == slots[..n] + [slots[n]];
      OthersUntouched(files, slots[..n], changes[..n], uid, gid, s);
    }
  }

  lemma {:induction false} InstalledStays(files: Files, slots: seq<Slot>, changes: seq<Change>, uid: nat, gid: nat, i: nat)
    requires |slots| == |changes| && i < |slots| && changes[i].kind.Install? && Separate(slots, changes)
    ensures
      var after := AllWritten(files, slots, changes, uid, gid);
      slots[i] in after && after[slots[i]] == View(uid, gid, INSTALL_MODE, changes[i].kind.bytes)
  {
    var n := |slots| - 1;
    if i < n {
      InstalledStays(files, slots[..n], changes[..n], uid, gid, i);
      assert slots[i] != slots[n];
    }
  }

  lemma {:induction false} DeletedStaysAway(files: Files, slots: seq<Slot>, changes: seq<Change>, uid: nat, gid: nat, i: nat)
    requires |slots| == |changes| && i < |slots| && changes[i].kind.Delete? && !Retaken(slots, changes, i)
    ensures slots[i] !in AllWritten(files, slots, changes, uid, gid)
  {
    var n := |slots| - 1;
    if i < n {
      assert !Retaken(slots[..n], changes[..n], i);
      DeletedStaysAway(files, slots[..n], changes[..n], uid, gid, i);
    }
  }

  lemma {:induction false} SeparateChangesInPlace(files: Files, slots: seq<Slot>, changes: seq<Change>, uid: nat, gid: nat)
    requires |slots| == |changes| && Separate(slots, changes)
    ensures InPlace(files, AllWritten(files, slots, changes, uid, gid), slots, changes, uid, gid)
  {
    var after := AllWritten(files, slots, changes, uid, gid);
    forall i | 0 <= i < |slots| ensures Placed(after, slots, changes, uid, gid, i) {
      if changes[i].kind.Install? {
        InstalledStays(files, slots, changes, uid, gid, i);
      } else if Retaken(slots, changes, i) {
        var j :| i < j < |slots| && changes[j].kind.Install? && slots[j] == slots[i];
        InstalledStays(files, slots, changes, uid, gid, j);
      } else {
        DeletedStaysAway(files, slots, changes, uid, gid, i);
      }
    }
    forall s | s !in slots ensures (s in after <==> s in files) && (s in files ==> after[s] == files[s]) {
      OthersUntouched(files, slots, changes, uid, gid, s);
    }
  }

  lemma DeletedNext(changes: seq<Change>, backups: seq<Backup>, n: nat)
    requires n < |changes| == |backups|
    ensures Deleted(changes[..n + 1], backups[..n + 1]) ==
            Deleted(changes[..n], backups[..n])
            + (if changes[n].kind.Delete? && backups[n].saved.Some? then
                 [Evidence(changes[n].path, backups[n].saved.value.bytes)]
               else [])
  {
    assert changes[..n + 1][..n] == changes[..n] && backups[..n + 1][..n] == backups[..n];
  }

  lemma WithdrawnNext(files: Files, slots: seq<Slot>, changes: seq<Change>, uid: nat, gid: nat, n: nat)
    requires n < |changes| == |slots|
    ensures
      var before := AllWritten(files, slots[..n], changes[..n], uid, gid);
      Withdrawn(files, slots[..n + 1], changes[..n + 1], uid, gid) ==
      Withdrawn(files, slots[..n], changes[..n], uid, gid)
      + (if changes[n].kind.Delete? && slots[n] in before then [Evidence(changes[n].path, before[slots[n]].bytes)]
         else [])
  {
    assert changes[..n + 1][..n] == changes[..n] && slots[..n + 1][..n] == slots[..n];
  }

  /** The backup of a deleted target is what the slot held right before. */
  lemma {:induction false} DeletedIsWithdrawn(files: Files, stages: seq<Files>, slots: seq<Slot>, changes: seq<Change>,
                                              backups: seq<Backup>, uid: nat, gid: nat, n: nat)
    requires Staged(files, stages, slots, changes, uid, gid) && Undoable(stages, slots, backups)
    requires |backups| == |changes| && n <= |changes|
    ensures Deleted(changes[..n], backups[..n]) == Withdrawn(files, slots[..n], changes[..n], uid, gid)
  {
    if n > 0 {
      DeletedIsWithdrawn(files, stages, slots, changes, backups, uid, gid, n - 1);
      DeletedNext(changes, backups, n - 1);
      WithdrawnNext(files, slots, changes, uid, gid, n - 1);
      assert Saved(stages[n - 1], slots[n - 1], backups[n - 1]);
      assert stages[n - 1] == AllWritten(files, slots[..n - 1], changes[..n - 1], uid, gid);
    }
  }

  lemma {:induction false} StagesTellOutcome(files: Files, stages: seq<Files>, slots: seq<Slot>, changes: seq<Change>,
                                             backups: seq<Backup>, uid: nat, gid: nat)
    requires Staged(files, stages, slots, changes, uid, gid) && Undoable(stages, slots, backups)
    requires |backups| == |changes|
    ensures stages[|slots|] == AllWritten(files, slots, changes, uid, gid)
    ensures Deleted(changes, backups) == Withdrawn(files, slots, changes, uid, gid)
  {
    var n := |changes|;
    DeletedIsWithdrawn(files, stages, slots, changes, backups, uid, gid, n);
    assert slots[..n] == slots && changes[..n] == changes && backups[..n] == backups;
  }

  // ------------------------------------------------------------- turning back

  /** The instant at which a transaction that fails has met its error. */
  function BrokenAt(w: World, s: Sys, changes: seq<Change>): nat
    requires Proper(changes)
  {
    if w.cancels(s.clock) then s.clock
    else if w.fails(s.clock) then s.clock + 1
    else
      var b := BackedUpTo(w, Later(w, s), changes, |changes|);
      if b.error.Some? then b.sys.clock else Committed(w, b.sys, changes, b.backups).sys.clock
  }

  /** An error before the commit counts as rolled back exactly when no operation failed from then on. */
  ghost predicate TurnsBack(w: World, e: Ending, broken: nat) {
    e.result.Err? && e.calls == [] ==> (e.result.error.rollbackProven <==> Smooth(w, broken, e.sys.clock))
  }

  lemma CommitIsOrderly(w: World, m: Mutation, changes: seq<Change>)
    requires Proper(changes) && |m.slots| <= |changes| && (m.error.None? ==> |m.slots| == |changes|)
    requires Quiet(w, m.sys.clock) && FreshSerials(m.sys) && AllClear(m.sys.tree, m.slots)
    ensures
      var c := CommittedAfter(w, m, changes);
      m.sys.clock <= c.sys.clock && FreshSerials(c.sys) && AllClear(c.sys.tree, c.slots)
  {
    if m.error.None? {
      VerifyingIsExact(w, m.sys, changes, m.slots, |changes|);
      var s1 := VerifiedTo(w, m.sys, changes, m.slots, |changes|).0;
      LaterIsOrderly(w, s1);
    }
  }

  lemma ConclusionTurnsBack(w: World, c: Commit, changes: seq<Change>, backups: seq<Backup>)
    requires Quiet(w, c.sys.clock) && FreshSerials(c.sys) && AllClear(c.sys.tree, c.slots)
    requires |c.slots| <= |changes| == |backups|
    requires c.error.Some? && c.calls == [] ==> c.error.value.rollbackProven
    ensures TurnsBack(w, Concluded(w, c, changes, backups), c.sys.clock)
  {
    RollbackIsExact(w, c.sys, c.slots, backups);
  }

  lemma CommitTurnsBack(w: World, s: Sys, changes: seq<Change>, backups: seq<Backup>)
    requires Proper(changes) && |backups| == |changes| && Quiet(w, s.clock) && FreshSerials(s)
    ensures
      var c := Committed(w, s, changes, backups);
      TurnsBack(w, Concluded(w, c, changes, backups), c.sys.clock)
  {
    MutationsAreOrderly(w, s, changes, backups, |changes|);
    CommitIsOrderly(w, MutatedTo(w, s, changes, backups, |changes|), changes);
    ConclusionTurnsBack(w, Committed(w, s, changes, backups), changes, backups);
  }

  /** Where directories stay put, only a failing operation can keep a rollback from being proven. */
  lemma QuietTransactionsTurnBack(w: World, s: Sys, changes: seq<Change>)
    requires Proper(changes) && Quiet(w, s.clock) && FreshSerials(s)
    ensures TurnsBack(w, Ended(w, s, changes), BrokenAt(w, s, changes))
  {
    var s0 := Later(w, s);
    LaterIsOrderly(w, s);
    BackingsAreExact(w, s0, changes, |changes|);
    var b := BackedUpTo(w, s0, changes, |changes|);
    if b.error.None? {
      CommitTurnsBack(w, b.sys, changes, b.backups);
    }
  }

  // ------------------------------------------------------------------- the theorem

  /** Right before the commit every held parent was found again where its path leads. */
  ghost predicate Reverified(w: World, sys: Sys, slots: seq<Slot>, changes: seq<Change>)
    requires Proper(changes) && |slots| == |changes|
  {
    exists s1 ::
      && VerifiedTo(w, s1, changes, slots, |changes|).1
      && sys == Later(w, VerifiedTo(w, s1, changes, slots, |changes|).0)
  }

  /** The files and the evidence after a success. */
  ghost predicate Achieved(w: World, before: Files, after: Files, slots: seq<Slot>, changes: seq<Change>, evidence: Applied)
    requires Proper(changes)
  {
    && InPlace(before, after, slots, changes, w.uid, w.gid) && Named(slots, changes)
    && after == AllWritten(before, slots, changes, w.uid, w.gid)
    && evidence == Applied(Changed(changes), Withdrawn(before, slots, changes, w.uid, w.gid))
  }

  /**
   Every transaction, whatever fails and however directories are relinked in between.  Success:
   every installed file is in its own slot, a deleted one is gone exactly when no later change
   took its slot, all else is untouched and the commit ran once.  Failure with a proven rollback:
   all files are as before and the commit never ran.  Where directories stay put, every error
   before the commit is such a failure unless an operation of the rollback failed.
   */
  lemma TransactionTheorem(w: World, s: Sys, changes: seq<Change>)
    requires ValidSys(s) && Proper(changes)
    ensures
      var e := Ended(w, s, changes);
      && ValidSys(e.sys)
      && Transacted(e.result, FilesOf(s.tree), FilesOf(e.sys.tree), e.calls)
      && (e.result.Ok? ==>
            && Achieved(w, FilesOf(s.tree), FilesOf(e.sys.tree), e.slots, changes, e.result.evidence)
            && Reverified(w, e.sys, e.slots, changes))
      && (Quiet(w, s.clock) && FreshSerials(s) ==> TurnsBack(w, e, BrokenAt(w, s, changes)))
  {
    if Quiet(w, s.clock) && FreshSerials(s) {
      QuietTransactionsTurnBack(w, s, changes);
    }
    LaterIsStill(w, s);
    var s0 := Later(w, s);
    BackupsAreValid(w, s0, changes);
    var b := BackedUpTo(w, s0, changes, |changes|);
    if b.error.None? && !w.cancels(s.clock) && !w.fails(s.clock) {
      CommitTheorem(w, b.sys, changes, b.backups);
    }
  }

  /** A commit that succeeded, or what its rollback leaves. */
  ghost predicate Settled(w: World, s: Sys, c: Commit, changes: seq<Change>, backups: seq<Backup>)
    requires ValidSys(s) && Proper(changes) && |c.slots| <= |changes| == |backups|
  {
    Named(c.slots, changes) &&
    if c.error.None? then
      && ValidSys(c.sys) && c.calls == [true]
      && Achieved(w, FilesOf(s.tree), FilesOf(c.sys.tree), c.slots, changes,
                  Applied(Changed(changes), Deleted(changes, backups)))
      && Reverified(w, c.sys, c.slots, changes)
    else
      var (s', restored) := RolledBack(w, c.sys, c.slots, backups);
      && ValidSys(s') && (restored ==> FilesOf(s'.tree) == FilesOf(s.tree))
      && c.calls == if c.error.value.rollbackProven then [] else [false]
  }

  lemma CommitTheorem(w: World, s: Sys, changes: seq<Change>, backups: seq<Backup>)
    requires ValidSys(s) && Proper(changes) && |backups| == |changes| && BackupsValid(s.tree.inodes, backups)
    ensures Settled(w, s, Committed(w, s, changes, backups), changes, backups)
  {
    MutationsAdvance(w, s, changes, backups);
    CommitSettles(w, s, MutatedTo(w, s, changes, backups, |changes|), changes, backups);
  }

  lemma CommitSettles(w: World, s: Sys, m: Mutation, changes: seq<Change>, backups: seq<Backup>)
    requires ValidSys(s) && Proper(changes) && |backups| == |changes|
    requires |m.slots| <= |changes| && (m.error.None? ==> |m.slots| == |changes|)
    requires Advanced(w, s, m, changes, backups)
    ensures Settled(w, s, CommittedAfter(w, m, changes), changes, backups)
  {
    var stages :| Progress(s, m, changes, backups, stages) && (m.error.None? ==> Successful(w, s, m, changes, stages));
    if m.error.Some? {
      FailureSettles(w, s, m, m.sys, changes, backups, stages, UpdateError(m.error.value, true), []);
    } else {
      VerifiedIsStill(w, m.sys, changes, m.slots, |changes|);
      var (s1, verified) := VerifiedTo(w, m.sys, changes, m.slots, |changes|);
      if !verified {
        FailureSettles(w, s, m, s1, changes, backups, stages, UpdateError(BadRequest, true), []);
      } else if w.cancels(s1.clock) {
        FailureSettles(w, s, m, s1, changes, backups, stages, UpdateError(Cancelled, true), []);
      } else {
        LaterIsStill(w, s1);
        StillTwice(m.sys, s1, Later(w, s1));
        if w.fails(s1.clock) {
          FailureSettles(w, s, m, Later(w, s1), changes, backups, stages, UpdateError(Internal, false), [false]);
        } else {
          SuccessSettles(w, s, m, Later(w, s1), changes, backups, stages);
        }
      }
    }
  }

  lemma FailureSettles(w: World, s: Sys, m: Mutation, s1: Sys, changes: seq<Change>, backups: seq<Backup>,
                       stages: seq<Files>, error: UpdateError, calls: seq<bool>)
    requires ValidSys(s) && Proper(changes) && |m.slots| <= |changes| == |backups|
    requires Progress(s, m, changes, backups, stages) && Still(m.sys, s1)
    requires calls == if error.rollbackProven then [] else [false]
    ensures Settled(w, s, Commit(s1, m.slots, Some(error), calls), changes, backups)
  {
    RollbackRestores(w, s1, m.slots, backups, stages);
  }

  lemma SuccessSettles(w: World, s: Sys, m: Mutation, s1: Sys, changes: seq<Change>, backups: seq<Backup>,
                       stages: seq<Files>)
    requires ValidSys(s) && Proper(changes) && |m.slots| == |changes| == |backups|
    requires Progress(s, m, changes, backups, stages) && Successful(w, s, m, changes, stages) && Still(m.sys, s1)
    requires Reverified(w, s1, m.slots, changes)
    ensures Settled(w, s, Commit(s1, m.slots, None, [true]), changes, backups)
  {
    assert changes[..|changes|] == changes;
    StagesTellOutcome(FilesOf(s.tree), stages, m.slots, changes, backups, w.uid, w.gid);
    SeparateChangesInPlace(FilesOf(s.tree), m.slots, changes, w.uid, w.gid);
  }

  // ------------------------------------------------------------------- the program

  /** The transaction at work on the file system. */
  class Transaction {
    const world: World
    var tree: Tree
    var clock: nat
    var nextInode: nat
    var slots: seq<Slot>   // held parents and names of the mutated slots

    ghost function Now(): Sys
      reads this
    {
      Sys(tree, clock, nextInode)
    }

    ghost predicate Valid()
      reads this
    {
      ValidSys(Now())
    }

    constructor (world: World, tree: Tree, nextInode: nat)
      requires ValidSys(Sys(tree, 0, nextInode))
      ensures Valid() && Now() == Sys(tree, 0, nextInode) && this.world == world && slots == []
    {
      this.world := world;
      this.tree, clock, this.nextInode, slots := tree, 0, nextInode, [];
    }

    /** Let the rest of the world act, then say whether the next file operation fails. */
    method Tick() returns (failed: bool)
      requires Valid()
      modifies this`tree, this`clock
      ensures Now() == Later(world, old(Now())) && failed == world.fails(old(clock))
      ensures Still(old(Now()), Now())
    {
      LaterIsStill(world, Now());
      failed := world.fails(clock);
      tree := world.relink(clock, tree);
      clock := clock + 1;
    }

    /** Open the parent directory of a path beneath the workspace root, one component at a time. */
    method OpenParent(path: seq<string>) returns (dir: Option<nat>)
      requires Valid() && path != []
      modifies this`tree, this`clock
      ensures (Now(), dir) == OpenedParent(world, old(Now()), path)
      ensures Still(old(Now()), Now())
    {
      OpenedParentIsStill(world, Now(), path);
      var failed := Tick();
      if failed {
        return None;
      }
      dir := OpenBeneath(world.root, Parent(path));
    }

    method OpenBeneath(root: nat, components: seq<string>) returns (dir: Option<nat>)
      requires Valid()
      modifies this`tree, this`clock
      ensures (Now(), dir) == Opened(world, old(Now()), root, components) && Valid()
    {
      ghost var all := Opened(world, Now(), root, components);
      var at := root;
      for i := 0 to |components|
        invariant Valid() && all == Opened(world, Now(), at, components[i..])
      {
        var slot := Slot(at, Plain(components[i]));
        assert components[i..][0] == components[i] && components[i..][1..] == components[i + 1..];
        var failed := Tick();
        if failed || slot !in tree.entries || !tree.entries[slot].Directory? {
          return None;
        }
        at := tree.entries[slot].id;
      }
      dir := Some(at);
    }

    method InspectTarget(slot: Slot) returns (found: Inspection)
      requires Valid()
      modifies this`tree, this`clock
      ensures (Now(), found) == Inspected(world, old(Now()), slot)
      ensures Still(old(Now()), Now())
      ensures slot.name.Plain? && found.Found? ==>
                (slot in FilesOf(tree) <==> found.node.Some? && found.node.value.FileNode?)
    {
      var failed := Tick();
      if failed {
        return InspectFailed;
      }
      found := Found(if slot in tree.entries then Some(tree.entries[slot]) else None);
    }

    /** Write a new file beside the target and rename it over the target. */
    method AtomicCopyAt(bytes: seq<nat>, slot: Slot, owner: nat, group: nat, mode: Permissions) returns (ok: bool)
      requires Valid() && slot.name.Plain?
      modifies this`tree, this`clock, this`nextInode
      ensures (Now(), ok) == Copied(world, old(Now()), slot, FileData(owner, group, 0, mode, bytes))
      ensures Touches(old(Now()), Now(), slot)
      ensures ok ==> FilesOf(tree) == old(FilesOf(tree))[slot := View(owner, group, mode, bytes)]
    {
      var data := FileData(owner, group, 0, mode, bytes);
      CopiedTouches(world, Now(), slot, data);
      var inode := nextInode;
      var temp := Slot(slot.dir, Temporary(inode));
      ok := PrepareTemporary(temp, data);
      if ok {
        ok := RenameOver(temp, slot, inode);
      }
      if !ok {
        DropTemporary(temp);
      }
    }

    method PrepareTemporary(temp: Slot, data: FileData) returns (ready: bool)
      requires Valid() && temp.name.Temporary?
      modifies this`tree, this`clock, this`nextInode
      ensures (Now(), ready) == Prepared(world, old(Now()), temp, data) && Valid()
      ensures ready ==> old(nextInode) in tree.inodes
    {
      PreparedIsInvisible(world, Now(), temp, data);
      var failed := Tick();
      if failed || temp in tree.entries {
        return false;
      }
      tree := Tree(tree.entries[temp := FileNode(nextInode)], tree.inodes[nextInode := data]);
      nextInode := nextInode + 1;
      ready := true;
    }

    method RenameOver(temp: Slot, slot: Slot, inode: nat) returns (ok: bool)
      requires Valid() && temp.name.Temporary? && slot.name.Plain? && inode in tree.inodes
      modifies this`tree, this`clock
      ensures (Now(), ok) == Installed(world, old(Now()), temp, slot, inode) && Valid()
    {
      InstalledTouches(world, Now(), temp, slot, inode);
      var failed := Tick();
      if failed || (slot in tree.entries && tree.entries[slot].Directory?) {
        return false;
      }
      RenameInstalls(Now(), temp, slot, inode);
      tree := tree.(entries := (tree.entries - {temp})[slot := FileNode(inode)]);
      failed := Tick();
      ok := !failed;
    }

    /** Best-effort removal of a temporary file; a failure leaks it. */
    method DropTemporary(temp: Slot)
      requires Valid() && temp.name.Temporary?
      modifies this`tree, this`clock
      ensures Now() == Dropped(world, old(Now()), temp) && Still(old(Now()), Now())
    {
      DroppedIsStill(world, Now(), temp);
      var failed := Tick();
      if !failed {
        tree := tree.(entries := tree.entries - {temp});
      }
    }

    method UnlinkFileAt(slot: Slot) returns (ok: bool)
      requires Valid() && slot.name.Plain?
      modifies this`tree, this`clock
      ensures (Now(), ok) == Removed(world, old(Now()), slot)
      ensures Touches(old(Now()), Now(), slot)
      ensures ok ==> FilesOf(tree) == old(FilesOf(tree)) - {slot}
    {
      RemovedTouches(world, Now(), slot);
      var failed := Tick();
      if failed || slot !in tree.entries || tree.entries[slot].Directory? {
        return false;
      }
      UnlinkRemoves(Now(), slot);
      tree := tree.(entries := tree.entries - {slot});
      failed := Tick();
      ok := !failed;
    }

    /** Inspect one target and copy it; whatever happens, nothing changes. */
    method BackUp(change: Change) returns (backup: UpdateSteps.Outcome<Backup>)
      requires Valid() && change.path != []
      modifies this`tree, this`clock
      ensures (Now(), backup) == BackedUp(world, old(Now()), change)
      ensures Still(old(Now()), Now())
      ensures
        match SlotOf(world, old(Now()), change.path)
        case None => backup.Failed?
        case Some(slot) => Saves(old(Now()), Now(), slot, change.kind, backup)
    {
      BackedUpSaves(world, Now(), change);
      var dir := OpenParent(change.path);
      if dir.None? {
        return Failed(BadRequest);
      }
      backup := BackUpAt(Slot(dir.value, Final(change.path)), change.kind);
    }

    method BackUpAt(slot: Slot, kind: Kind) returns (backup: UpdateSteps.Outcome<Backup>)
      requires Valid() && slot.name.Plain?
      modifies this`tree, this`clock
      ensures (Now(), backup) == BackedUpAt(world, old(Now()), slot, kind)
    {
      var found := InspectTarget(slot);
      match found
      case InspectFailed =>
        backup := Failed(Internal);
      case Found(None) =>
        backup := if kind.Delete? then Failed(BadRequest) else Done(Backup(None, None));
      case Found(Some(FileNode(inode))) =>
        var data := tree.inodes[inode];
        if Executable(data.mode) {
          return Failed(BadRequest);
        }
        var failed := Tick();
        if failed || slot !in tree.entries || tree.entries[slot] != FileNode(inode) {
          return Failed(BadRequest);
        }
        backup := Done(Backup(Some(inode), Some(ViewOf(data))));
      case Found(Some(_)) =>
        backup := Failed(BadRequest);
    }

    /** The target must still be the file that was backed up, or still be absent. */
    method ValidateTargetAt(slot: Slot, backup: Backup) returns (held: UpdateSteps.Outcome<Slot>)
      requires Valid() && slot.name.Plain? && BackupValid(tree.inodes, backup)
      modifies this`tree, this`clock
      ensures (Now(), held) == RecheckedAt(world, old(Now()), slot, backup)
      ensures Holds(old(Now()), Now(), held, slot.name, backup)
    {
      RecheckedAtSaves(world, Now(), slot, backup);
      var current := InspectTarget(slot);
      if current.InspectFailed? {
        return Failed(Internal);
      }
      match backup.original
      case Some(expected) =>
        held := if current.node == Some(FileNode(expected)) then Done(slot) else Failed(BadRequest);
      case None =>
        held := if current.node.None? then Done(slot) else Failed(BadRequest);
    }

    method BackUpAll(changes: seq<Change>) returns (backups: seq<Backup>, error: Option<ErrorKind>)
      requires Valid() && Proper(changes)
      modifies this`tree, this`clock
      ensures Backing(Now(), backups, error) == BackedUpTo(world, old(Now()), changes, |changes|)
      ensures Backed(old(Now()), Backing(Now(), backups, error), changes)
    {
      BackupsAreValid(world, Now(), changes);
      ghost var start := Now();
      backups, error := [], None;
      for i := 0 to |changes|
        invariant Valid() && error.None?
        invariant Backing(Now(), backups, None) == BackedUpTo(world, start, changes, i)
      {
        var backup := BackUp(changes[i]);
        match backup
        case Done(value) =>
          backups := backups + [value];
        case Failed(kind) =>
          error := Some(kind);
          BackupStuck(world, start, changes, i + 1, |changes|);
          return;
      }
    }

    /** Open, recheck, hold and mutate one slot; on an error it may or may not have changed. */
    method MutateNext(change: Change, backup: Backup) returns (error: Option<ErrorKind>)
      requires Valid() && change.path != [] && BackupValid(tree.inodes, backup)
      modifies this`tree, this`clock, this`nextInode, this`slots
      ensures Mutation(Now(), slots, error) == MutatedOne(world, Mutation(old(Now()), old(slots), None), change, backup)
      ensures Valid() && Extends(old(tree.inodes), tree.inodes)
    {
      var held := HoldTarget(change, backup);
      if held.Failed? {
        return Some(held.kind);
      }
      slots := slots + [held.value];
      var ok := Mutate(held.value, change.kind);
      error := if ok then None else Some(Internal);
    }

    method HoldTarget(change: Change, backup: Backup) returns (held: UpdateSteps.Outcome<Slot>)
      requires Valid() && change.path != [] && BackupValid(tree.inodes, backup)
      modifies this`tree, this`clock
      ensures (Now(), held) == Rechecked(world, old(Now()), change, backup)
      ensures Holds(old(Now()), Now(), held, Final(change.path), backup)
    {
      RecheckedSaves(world, Now(), change, backup);
      if world.cancels(clock) {
        return Failed(Cancelled);
      }
      var dir := OpenParent(change.path);
      if dir.None? {
        return Failed(BadRequest);
      }
      held := ValidateTargetAt(Slot(dir.value, Final(change.path)), backup);
    }

    method Mutate(slot: Slot, kind: Kind) returns (ok: bool)
      requires Valid() && slot.name.Plain?
      modifies this`tree, this`clock, this`nextInode
      ensures (Now(), ok) == Rewritten(world, old(Now()), slot, kind)
      ensures Touches(old(Now()), Now(), slot)
    {
      match kind
      case Install(bytes) =>
        ok := AtomicCopyAt(bytes, slot, world.uid, world.gid, INSTALL_MODE);
      case Delete =>
        ok := UnlinkFileAt(slot);
    }

    method MutateAll(changes: seq<Change>, backups: seq<Backup>) returns (error: Option<ErrorKind>)
      requires Valid() && Proper(changes) && |backups| == |changes| && BackupsValid(tree.inodes, backups) && slots == []
      modifies this`tree, this`clock, this`nextInode, this`slots
      ensures Mutation(Now(), slots, error) == MutatedTo(world, old(Now()), changes, backups, |changes|)
      ensures Advanced(world, old(Now()), Mutation(Now(), slots, error), changes, backups)
    {
      MutationsAdvance(world, Now(), changes, backups);
      ghost var start := Now();
      error := None;
      for i := 0 to |changes|
        invariant Valid() && BackupsValid(tree.inodes, backups) && error.None?
        invariant Mutation(Now(), slots, None) == MutatedTo(world, start, changes, backups, i)
      {
        ghost var inodes := tree.inodes;
        error := MutateNext(changes[i], backups[i]);
        BackupsStayValid(inodes, tree.inodes, backups);
        if error.Some? {
          MutationStuck(world, start, changes, backups, i + 1, |changes|);
          return;
        }
      }
    }

    /** Every held parent must still be what its declared path leads to. */
    method VerifyParents(changes: seq<Change>) returns (ok: bool)
      requires Valid() && Proper(changes) && |slots| == |changes|
      modifies this`tree, this`clock
      ensures (Now(), ok) == VerifiedTo(world, old(Now()), changes, slots, |changes|)
      ensures ok <==> AllRefound(world, old(Now()), changes, slots)
      ensures Still(old(Now()), Now())
    {
      VerificationRefindsAll(world, Now(), changes, slots);
      VerifiedIsStill(world, Now(), changes, slots, |changes|);
      ok := ReopenParents(changes);
    }

    method ReopenParents(changes: seq<Change>) returns (ok: bool)
      requires Valid() && Proper(changes) && |slots| == |changes|
      modifies this`tree, this`clock
      ensures (Now(), ok) == VerifiedTo(world, old(Now()), changes, slots, |changes|)
    {
      ghost var start := Now();
      for i := 0 to |changes|
        invariant Valid() && (Now(), true) == VerifiedTo(world, start, changes, slots, i)
      {
        var current := OpenParent(changes[i].path);
        if current != Some(slots[i].dir) {
          VerificationStuck(world, start, changes, slots, i + 1, |changes|);
          return false;
        }
      }
      ok := true;
    }

    /** The mutation phase up to and including the durable commit; `calls` are the commits it made. */
    method MutateAndCommit(changes: seq<Change>, backups: seq<Backup>)
      returns (error: Option<UpdateError>, calls: seq<bool>)
      requires Valid() && Proper(changes) && |backups| == |changes| && BackupsValid(tree.inodes, backups) && slots == []
      modifies this`tree, this`clock, this`nextInode, this`slots
      ensures Commit(Now(), slots, error, calls) == Committed(world, old(Now()), changes, backups)
      ensures |slots| <= |changes| && Settled(world, old(Now()), Commit(Now(), slots, error, calls), changes, backups)
      ensures Valid()
    {
      CommitTheorem(world, Now(), changes, backups);
      calls := [];
      var failure := MutateAll(changes, backups);
      if failure.Some? {
        return Some(UpdateError(failure.value, true)), [];
      }
      var verified := VerifyParents(changes);
      if !verified {
        return Some(UpdateError(BadRequest, true)), [];
      }
      if world.cancels(clock) {
        return Some(UpdateError(Cancelled, true)), [];
      }
      var failed := Tick();
      calls := [!failed];
      error := if failed then Some(UpdateError(Internal, false)) else None;
    }

    /** Undo the held slots, last first. */
    method Rollback(backups: seq<Backup>) returns (ok: bool)
      requires Valid() && |slots| <= |backups| && forall i :: 0 <= i < |slots| ==> slots[i].name.Plain?
      modifies this`tree, this`clock, this`nextInode
      ensures (Now(), ok) == RolledBack(world, old(Now()), slots, backups)
      ensures LeadsBack(old(FilesOf(tree)), (Now(), ok), slots, backups)
      ensures old(Quiet(world, clock) && FreshSerials(Now()) && AllClear(tree, slots)) ==>
                (ok <==> Smooth(world, old(clock), clock))
    {
      RollbackLeadsBack(world, Now(), slots, backups);
      if Quiet(world, clock) && FreshSerials(Now()) && AllClear(tree, slots) {
        RollbackIsExact(world, Now(), slots, backups);
      }
      ok := RestoreAll(backups, Restorer(world, slots, backups));
    }

    method RestoreAll(backups: seq<Backup>, ghost restore: Restoring) returns (ok: bool)
      requires Valid() && |slots| <= |backups| && forall i :: 0 <= i < |slots| ==> slots[i].name.Plain?
      requires Restores(restore, slots, backups)
      modifies this`tree, this`clock, this`nextInode
      ensures (Now(), ok) == Undoing(restore, old(Now()), |slots|)
    {
      ghost var start := Now();
      var i := |slots|;
      while i > 0
        invariant 0 <= i <= |slots|
        invariant Valid() && Undoing(restore, start, |slots|) == Undoing(restore, Now(), i)
      {
        i := i - 1;
        ok := RestoreNext(i, backups, restore);
        if !ok {
          return;
        }
      }
      ok := true;
    }

    ghost predicate Restores(restore: Restoring, slots: seq<Slot>, backups: seq<Backup>)
      requires |slots| <= |backups|
    {
      forall s, i: nat {:trigger Restored(world, s, slots[i], backups[i])} ::
        i < |slots| ==> restore(s, i) == Restored(world, s, slots[i], backups[i])
    }

    method RestoreNext(i: nat, backups: seq<Backup>, ghost restore: Restoring) returns (ok: bool)
      requires Valid() && i < |slots| <= |backups| && slots[i].name.Plain? && Restores(restore, slots, backups)
      modifies this`tree, this`clock, this`nextInode
      ensures (Now(), ok) == restore(old(Now()), i) && Valid()
    {
      ok := RestoreSlot(slots[i], backups[i]);
    }

    method RestoreSlot(slot: Slot, backup: Backup) returns (ok: bool)
      requires Valid() && slot.name.Plain?
      modifies this`tree, this`clock, this`nextInode
      ensures (Now(), ok) == Restored(world, old(Now()), slot, backup) && Valid()
      ensures ok ==> FilesOf(tree) == PutBack(old(FilesOf(tree)), slot, backup)
    {
      RestoredPutsBack(world, Now(), slot, backup);
      var found := InspectTarget(slot);
      if found.InspectFailed? || (found.node.Some? && !found.node.value.FileNode?) {
        return false;
      }
      match backup.saved
      case Some(view) =>
        ok := AtomicCopyAt(view.bytes, slot, view.uid, view.gid, view.mode);
      case None =>
        if found.node.None? {
          return true;
        }
        ok := UnlinkFileAt(slot);
    }

    /** The whole transaction; see `TransactionTheorem`. */
    method ApplyUpdate(changes: seq<Change>) returns (result: UpdateResult, calls: seq<bool>)
      requires Valid() && Proper(changes) && slots == []
      modifies this
      ensures Ending(Now(), slots, result, calls) == Ended(world, old(Now()), changes)
      ensures Valid() && Transacted(result, old(FilesOf(tree)), FilesOf(tree), calls)
      ensures result.Ok? ==>
                && Achieved(world, old(FilesOf(tree)), FilesOf(tree), slots, changes, result.evidence)
                && Reverified(world, Now(), slots, changes)
      ensures old(Quiet(world, clock) && FreshSerials(Now())) ==>
                TurnsBack(world, Ending(Now(), slots, result, calls), BrokenAt(world, old(Now()), changes))
    {
      TransactionTheorem(world, Now(), changes);
      calls := [];
      if world.cancels(clock) {
        return Err(UpdateError(Cancelled, true)), [];
      }
      var failed := Tick();
      if failed {
        return Err(UpdateError(Internal, true)), [];
      }
      var backups, failure := BackUpAll(changes);
      if failure.Some? {
        return Err(UpdateError(failure.value, true)), [];
      }
      result, calls := MutateOrRollBack(changes, backups);
    }

    method MutateOrRollBack(changes: seq<Change>, backups: seq<Backup>) returns (result: UpdateResult, calls: seq<bool>)
      requires Valid() && Proper(changes) && |backups| == |changes| && slots == []
      requires BackupsValid(tree.inodes, backups) && DeletesCovered(changes, backups)
      modifies this`tree, this`clock, this`nextInode, this`slots
      ensures Ending(Now(), slots, result, calls) ==
              Concluded(world, Committed(world, old(Now()), changes, backups), changes, backups)
    {
      var error;
      error, calls := MutateAndCommit(changes, backups);
      if error.Some? {
        var restored := Rollback(backups);
        return Err(error.value.(rollbackProven := error.value.rollbackProven && restored)), calls;
      }
      var applied := Gather(changes, backups);
      result := Ok(applied);
    }
  }

  /** Evidence in declaration order; no deleted target is without a backup. */
  method Gather(changes: seq<Change>, backups: seq<Backup>) returns (applied: Applied)
    requires |backups| == |changes| && DeletesCovered(changes, backups)
    ensures applied == Applied(Changed(changes), Deleted(changes, backups))
  {
    var changed, deleted := [], [];
    for i := 0 to |changes|
      invariant changed == Changed(changes[..i]) && deleted == Deleted(changes[..i], backups[..i])
    {
      assert changes[..i + 1][..i] == changes[..i] && backups[..i + 1][..i] == backups[..i];
      match changes[i].kind
      case Install(bytes) => changed := changed + [Evidence(changes[i].path, bytes)];
      case Delete => deleted := deleted + [Evidence(changes[i].path, backups[i].saved.value.bytes)];
    }
    assert changes[..|changes|] == changes && backups[..|changes|] == backups;
    applied := Applied(changed, deleted);
  }

  lemma {:induction false} BackupStuck(w: World, s: Sys, changes: seq<Change>, k: nat, n: nat)
    requires Proper(changes) && k <= n <= |changes| && BackedUpTo(w, s, changes, k).error.Some?
    ensures BackedUpTo(w, s, changes, n) == BackedUpTo(w, s, changes, k)
    decreases n
  {
    if k < n {
      BackupStuck(w, s, changes, k, n - 1);
    }
  }

  lemma {:induction false} MutationStuck(w: World, s: Sys, changes: seq<Change>, backups: seq<Backup>, k: nat, n: nat)
    requires Proper(changes) && |backups| == |changes| && k <= n <= |changes|
    requires MutatedTo(w, s, changes, backups, k).error.Some?
    ensures MutatedTo(w, s, changes, backups, n) == MutatedTo(w, s, changes, backups, k)
    decreases n
  {
    if k < n {
      MutationStuck(w, s, changes, backups, k, n - 1);
    }
  }

  lemma {:induction false} VerificationStuck(w: World, s: Sys, changes: seq<Change>, slots: seq<Slot>, k: nat, n: nat)
    requires Proper(changes) && |slots| == |changes| && k <= n <= |changes|
    requires !VerifiedTo(w, s, changes, slots, k).1
    ensures VerifiedTo(w, s, changes, slots, n) == VerifiedTo(w, s, changes, slots, k)
    decreases n
  {
    if k < n {
      VerificationStuck(w, s, changes, slots, k, n - 1);
    }
  }
}
