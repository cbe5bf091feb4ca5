/**
 * Updates of a workspace whose directories stay where they are: the declared paths then name
 * different slots, every change stays in force, and an update succeeds exactly when its targets
 * allow it.
 */
module QuietUpdates {
  import opened Common
  import opened WorkspaceFiles
  import opened UpdateSteps
  import opened QuietSteps
  import opened SourceUpdates

  lemma ShapeIsKept(t: Tree, t': Tree, root: nat)
    requires TreeShaped(t, root) && AddsOnlyFiles(t, t')
    ensures TreeShaped(t', root)
  {
  }

  predicate DistinctPaths(changes: seq<Change>) {
    forall i, j :: 0 <= i < j < |changes| ==> changes[i].path != changes[j].path
  }

  predicate DistinctSlots(slots: seq<Slot>) {
    forall i, j :: 0 <= i < j < |slots| ==> slots[i] != slots[j]
  }

  /** At one instant different paths lead to different slots. */
  lemma SlotsAreDistinct(t: Tree, root: nat, changes: seq<Change>, slots: seq<Slot>)
    requires Proper(changes) && |slots| == |changes| && DistinctPaths(changes)
    requires TreeShaped(t, root) && LedTo(t, root, changes, slots, |changes|) && Named(slots, changes)
    ensures DistinctSlots(slots)
  {
    forall i, j | 0 <= i < j < |slots| ensures slots[i] != slots[j] {
      var a, b := changes[i].path, changes[j].path;
      assert a == Parent(a) + [a[|a| - 1]] && b == Parent(b) + [b[|b| - 1]];
      if slots[i].dir == slots[j].dir {
        OnePathPerDirectory(t, root, Parent(a), Parent(b));
      }
    }
  }

  /** With directories left alone, a successful update puts every change in place, deletions included. */
  lemma QuietUpdatesAreExact(w: World, s: Sys, changes: seq<Change>)
    requires ValidSys(s) && Proper(changes) && DistinctPaths(changes)
    requires Quiet(w, s.clock) && TreeShaped(s.tree, w.root)
    ensures
      var e := Ended(w, s, changes);
      e.result.Ok? ==>
        && |e.slots| == |changes| && DistinctSlots(e.slots) && ValidSys(e.sys)
        && LedTo(e.sys.tree, w.root, changes, e.slots, |changes|)
        && (forall i :: 0 <= i < |changes| && changes[i].kind.Delete? ==> e.slots[i] !in FilesOf(e.sys.tree))
  {
    var e := Ended(w, s, changes);
    TransactionTheorem(w, s, changes);
    if e.result.Ok? {
      EndedLeads(w, s, changes);
      SlotsAreDistinct(e.sys.tree, w.root, changes, e.slots);
      forall i | 0 <= i < |changes| && changes[i].kind.Delete? ensures e.slots[i] !in FilesOf(e.sys.tree) {
        assert Placed(FilesOf(e.sys.tree), e.slots, changes, w.uid, w.gid, i);
        assert !Retaken(e.slots, changes, i);
      }
    }
  }

  lemma EndedLeads(w: World, s: Sys, changes: seq<Change>)
    requires Proper(changes) && Quiet(w, s.clock) && TreeShaped(s.tree, w.root)
    requires Ended(w, s, changes).result.Ok?
    ensures
      var e := Ended(w, s, changes);
      && |e.slots| == |changes| && TreeShaped(e.sys.tree, w.root)
      && LedTo(e.sys.tree, w.root, changes, e.slots, |changes|)
  {
    var s0 := Later(w, s);
    LaterIsOrderly(w, s);
    BackingsAreExact(w, s0, changes, |changes|);
    var b := BackedUpTo(w, s0, changes, |changes|);
    MutationsLead(w, b.sys, changes, b.backups);
  }

  lemma MutationsLead(w: World, s: Sys, changes: seq<Change>, backups: seq<Backup>)
    requires Proper(changes) && |backups| == |changes| && TreeShaped(s.tree, w.root)
    requires Quiet(w, s.clock) && Committed(w, s, changes, backups).error.None?
    ensures
      var c := Committed(w, s, changes, backups);
      TreeShaped(c.sys.tree, w.root) && LedTo(c.sys.tree, w.root, changes, c.slots, |changes|)
  {
    MutationsAreOrderly(w, s, changes, backups, |changes|);
    var m := MutatedTo(w, s, changes, backups, |changes|);
    ShapeIsKept(s.tree, m.sys.tree, w.root);
    CommitLeads(w, m, changes);
  }

  lemma CommitLeads(w: World, m: Mutation, changes: seq<Change>)
    requires Proper(changes) && |m.slots| <= |changes| && (m.error.None? ==> |m.slots| == |changes|)
    requires Quiet(w, m.sys.clock) && CommittedAfter(w, m, changes).error.None?
    ensures
      var c := CommittedAfter(w, m, changes);
      |c.slots| == |changes| && c.sys.tree == m.sys.tree && LedTo(c.sys.tree, w.root, changes, c.slots, |changes|)
  {
    VerifyingIsExact(w, m.sys, changes, m.slots, |changes|);
    var s1 := VerifiedTo(w, m.sys, changes, m.slots, |changes|).0;
    assert Later(w, s1).tree == s1.tree;
  }

  // ------------------------------------------------------------------------- success

  /** Nothing fails and nobody cancels. */
  ghost predicate Calm(w: World, start: nat) {
    Quiet(w, start) && forall k: nat :: k >= start ==> !w.fails(k) && !w.cancels(k)
  }

  /** The same directories in the same places. */
  ghost predicate SameDirectories(t: Tree, t': Tree) {
    forall x: Slot :: IsDirectory(t, x) || IsDirectory(t', x) ==> Look(t, x) == Look(t', x)
  }

  lemma {:induction false} WalkIsSame(t: Tree, t': Tree, dir: nat, components: seq<string>)
    requires SameDirectories(t, t')
    ensures Walk(t', dir, components) == Walk(t, dir, components)
    decreases |components|
  {
    if components != [] {
      var slot := Slot(dir, Plain(components[0]));
      assert IsDirectory(t, slot) || IsDirectory(t', slot) ==> Look(t, slot) == Look(t', slot);
      if IsDirectory(t, slot) {
        WalkIsSame(t, t', t.entries[slot].id, components[1..]);
      }
    }
  }

  /** Outside `slots` every ordinary name is as it was. */
  ghost predicate Beside(t: Tree, t': Tree, slots: seq<Slot>) {
    forall x: Slot :: x.name.Plain? && x !in slots ==> Look(t', x) == Look(t, x)
  }

  lemma RemovalIsLocal(w: World, s: Sys, slot: Slot)
    requires Calm(w, s.clock) && FreshSerials(s) && IsFile(s.tree, slot)
    ensures
      var (s', ok) := Removed(w, s, slot);
      ok && SameDirectories(s.tree, s'.tree) && Beside(s.tree, s'.tree, [slot])
  {
    var s1 := Later(w, s);
    assert s1.tree == s.tree;
    var s2 := Unlinked(s1, slot);
    assert Later(w, s2).tree == s2.tree;
  }

  lemma CopyIsLocal(w: World, s: Sys, slot: Slot, data: FileData)
    requires Calm(w, s.clock) && FreshSerials(s) && slot.name.Plain? && Clear(s.tree, slot)
    ensures
      var (s', ok) := Copied(w, s, slot, data);
      ok && SameDirectories(s.tree, s'.tree) && Beside(s.tree, s'.tree, [slot])
  {
    CopiedIsExact(w, s, slot, data);
    var temp := Slot(slot.dir, Temporary(s.next));
    var s1 := Later(w, s);
    assert s1.tree == s.tree && temp !in s.tree.entries;
    var s2 := WithTemporary(s1, temp, data);
    var s3 := Later(w, s2);
    assert s3.tree == s2.tree;
    var s4 := Renamed(s3, temp, slot, s.next);
    assert Later(w, s4).tree == s4.tree;
    assert SameDirectories(s.tree, s4.tree);
  }

  lemma RewriteIsLocal(w: World, s: Sys, slot: Slot, kind: Kind)
    requires Calm(w, s.clock) && FreshSerials(s) && slot.name.Plain? && Clear(s.tree, slot)
    requires kind.Delete? ==> slot in s.tree.entries
    ensures
      var (s', ok) := Rewritten(w, s, slot, kind);
      ok && Orderly(s, s') && SameDirectories(s.tree, s'.tree) && Beside(s.tree, s'.tree, [slot])
  {
    RewrittenIsExact(w, s, slot, kind);
    if kind.Install? {
      CopyIsLocal(w, s, slot, FileData(w.uid, w.gid, 0, INSTALL_MODE, kind.bytes));
    } else {
      RemovalIsLocal(w, s, slot);
    }
  }

  /** The slots the declared paths lead to. */
  function Targets(t: Tree, root: nat, changes: seq<Change>): (r: seq<Slot>)
    requires Proper(changes) && AllFit(t, root, changes, |changes|)
    ensures |r| == |changes|
    ensures forall i :: 0 <= i < |changes| ==> Target(t, root, changes[i].path) == Some(r[i])
  {
    seq(|changes|, i requires 0 <= i < |changes| =>
      assert TargetFits(t, root, changes[i]); Target(t, root, changes[i].path).value)
  }

  /** After the first changes: theirs are held, all other slots are untouched. */
  ghost predicate Going(s: Sys, m: Mutation, targets: seq<Slot>) {
    && m.error.None? && |m.slots| <= |targets| && m.slots == targets[..|m.slots|]
    && Orderly(s, m.sys) && SameDirectories(s.tree, m.sys.tree) && Beside(s.tree, m.sys.tree, m.slots)
  }

  lemma TargetIsStill(s: Sys, m: Mutation, root: nat, change: Change, backup: Backup, targets: seq<Slot>)
    requires change.path != [] && Going(s, m, targets) && |m.slots| < |targets| && DistinctSlots(targets)
    requires Target(s.tree, root, change.path) == Some(targets[|m.slots|]) && TargetIs(s.tree, root, change, backup)
    ensures Target(m.sys.tree, root, change.path) == Some(targets[|m.slots|])
    ensures Look(m.sys.tree, targets[|m.slots|]) == Look(s.tree, targets[|m.slots|])
    ensures TargetIs(m.sys.tree, root, change, backup)
  {
    WalkIsSame(s.tree, m.sys.tree, root, Parent(change.path));
    var slot := targets[|m.slots|];
    assert slot !in m.slots;
  }

  lemma LocalTwice(t: Tree, t1: Tree, t2: Tree, slots: seq<Slot>, slot: Slot)
    requires SameDirectories(t, t1) && SameDirectories(t1, t2) && Beside(t, t1, slots) && Beside(t1, t2, [slot])
    ensures SameDirectories(t, t2) && Beside(t, t2, slots + [slot])
  {
    forall x: Slot | IsDirectory(t, x) || IsDirectory(t2, x) ensures Look(t, x) == Look(t2, x) {
      assert IsDirectory(t, x) || IsDirectory(t1, x) ==> Look(t, x) == Look(t1, x);
      assert IsDirectory(t1, x) || IsDirectory(t2, x) ==> Look(t1, x) == Look(t2, x);
    }
    forall x: Slot | x.name.Plain? && x !in slots + [slot] ensures Look(t2, x) == Look(t, x) {
      assert x !in slots && x !in [slot];
    }
  }

  lemma TargetIsHeld(w: World, s: Sys, change: Change, backup: Backup, slot: Slot)
    requires Calm(w, s.clock) && change.path != []
    requires Target(s.tree, w.root, change.path) == Some(slot) && TargetIs(s.tree, w.root, change, backup)
    ensures
      var (s', held) := Rechecked(w, s, change, backup);
      held == Done(slot) && Waits(s, s')
  {
    RecheckedIsExact(w, s, change, backup);
  }

  lemma GoesOn(w: World, s: Sys, m: Mutation, change: Change, backup: Backup, targets: seq<Slot>)
    requires Calm(w, s.clock) && FreshSerials(s) && change.path != [] && Going(s, m, targets)
    requires |m.slots| < |targets| && DistinctSlots(targets)
    requires Target(s.tree, w.root, change.path) == Some(targets[|m.slots|]) && TargetIs(s.tree, w.root, change, backup)
    requires TargetFits(s.tree, w.root, change)
    ensures Going(s, MutatedOne(w, m, change, backup), targets)
  {
    var slot := targets[|m.slots|];
    TargetIsStill(s, m, w.root, change, backup, targets);
    TargetIsHeld(w, m.sys, change, backup, slot);
    var s1 := Rechecked(w, m.sys, change, backup).0;
    WaitsIsOrderly(m.sys, s1);
    OrderlyTwice(s, m.sys, s1);
    RewriteIsLocal(w, s1, slot, change.kind);
    StepGoesOn(s, m, s1, Rewritten(w, s1, slot, change.kind).0, targets);
  }

  lemma StepGoesOn(s: Sys, m: Mutation, s1: Sys, s2: Sys, targets: seq<Slot>)
    requires Going(s, m, targets) && |m.slots| < |targets| && s1.tree == m.sys.tree && Orderly(s, s1) && Orderly(s1, s2)
    requires SameDirectories(s1.tree, s2.tree) && Beside(s1.tree, s2.tree, [targets[|m.slots|]])
    ensures Going(s, Mutation(s2, m.slots + [targets[|m.slots|]], None), targets)
  {
    OrderlyTwice(s, s1, s2);
    LocalTwice(s.tree, s1.tree, s2.tree, m.slots, targets[|m.slots|]);
  }

  lemma {:induction false} MutationsGoOn(w: World, s: Sys, changes: seq<Change>, backups: seq<Backup>, k: nat,
                                         targets: seq<Slot>)
    requires Calm(w, s.clock) && FreshSerials(s) && Proper(changes) && |backups| == |changes| && k <= |changes|
    requires AllFit(s.tree, w.root, changes, |changes|) && BackupsOf(s.tree, w.root, changes, backups)
    requires targets == Targets(s.tree, w.root, changes) && DistinctSlots(targets)
    ensures
      var m := MutatedTo(w, s, changes, backups, k);
      Going(s, m, targets) && |m.slots| == k
  {
    if k > 0 {
      MutationsGoOn(w, s, changes, backups, k - 1, targets);
      GoesOn(w, s, MutatedTo(w, s, changes, backups, k - 1), changes[k - 1], backups[k - 1], targets);
    }
  }

  lemma TargetsLead(t: Tree, t': Tree, root: nat, changes: seq<Change>)
    requires Proper(changes) && AllFit(t, root, changes, |changes|) && SameDirectories(t, t')
    ensures LedTo(t', root, changes, Targets(t, root, changes), |changes|)
    ensures Named(Targets(t, root, changes), changes)
  {
    forall i | 0 <= i < |changes|
      ensures Walk(t', root, Parent(changes[i].path)) == Some(Targets(t, root, changes)[i].dir)
    {
      WalkIsSame(t, t', root, Parent(changes[i].path));
    }
  }

  lemma CalmCommit(w: World, s: Sys, changes: seq<Change>, backups: seq<Backup>)
    requires Calm(w, s.clock) && FreshSerials(s) && Proper(changes) && |backups| == |changes|
    requires AllFit(s.tree, w.root, changes, |changes|) && BackupsOf(s.tree, w.root, changes, backups)
    requires TreeShaped(s.tree, w.root) && DistinctPaths(changes)
    ensures Committed(w, s, changes, backups).error.None?
    ensures Committed(w, s, changes, backups).slots == Targets(s.tree, w.root, changes)
  {
    var targets := Targets(s.tree, w.root, changes);
    TargetsLead(s.tree, s.tree, w.root, changes);
    SlotsAreDistinct(s.tree, w.root, changes, targets);
    MutationsGoOn(w, s, changes, backups, |changes|, targets);
    var m := MutatedTo(w, s, changes, backups, |changes|);
    assert m.slots == targets;
    TargetsLead(s.tree, m.sys.tree, w.root, changes);
    VerifyingIsExact(w, m.sys, changes, m.slots, |changes|);
  }

  /**
   * Where directories stay put, nothing fails and nobody cancels, an update succeeds exactly when
   * every path leads to a regular file without execute bits, or to a free place for a new one;
   * the changes are then in the places their paths lead to.
   */
  lemma CalmUpdatesSucceedExactly(w: World, s: Sys, changes: seq<Change>)
    requires Proper(changes) && DistinctPaths(changes)
    requires Calm(w, s.clock) && FreshSerials(s) && TreeShaped(s.tree, w.root)
    ensures
      var e := Ended(w, s, changes);
      && (e.result.Ok? <==> AllFit(s.tree, w.root, changes, |changes|))
      && (e.result.Ok? ==> e.slots == Targets(s.tree, w.root, changes))
  {
    var s0 := Later(w, s);
    LaterIsOrderly(w, s);
    BackingsAreExact(w, s0, changes, |changes|);
    var b := BackedUpTo(w, s0, changes, |changes|);
    if AllFit(s.tree, w.root, changes, |changes|) {
      CalmCommit(w, b.sys, changes, b.backups);
    }
  }
}
