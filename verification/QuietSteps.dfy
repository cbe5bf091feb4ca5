/**
 * The file operations of an update in a workspace whose directories and links stay as they are:
 * then an operation that is asked for something possible goes wrong only by failing itself.
 */
module QuietSteps {
  import opened Common
  import opened WorkspaceFiles
  import opened UpdateSteps

  /** From some instant on task processes leave directories and links alone. */
  ghost predicate Quiet(w: World, start: nat) {
    forall k: nat, t :: k >= start ==> w.relink(k, t) == t
  }

  /** No operation fails at these instants. */
  ghost predicate Smooth(w: World, start: nat, end: nat) {
    forall k :: start <= k < end ==> !w.fails(k)
  }

  lemma SmoothInTwo(w: World, start: nat, middle: nat, end: nat)
    requires start <= middle <= end
    ensures Smooth(w, start, end) <==> Smooth(w, start, middle) && Smooth(w, middle, end)
  {
  }

  /** Names of temporary files still to be made are not in use. */
  ghost predicate FreshSerials(s: Sys) {
    forall x <- s.tree.entries :: x.name.Temporary? ==> x.name.serial < s.next
  }

  /** A slot is empty or holds a regular file. */
  predicate Clear(t: Tree, slot: Slot) {
    slot in t.entries ==> t.entries[slot].FileNode?
  }

  ghost predicate AddsOnlyFiles(t: Tree, t': Tree) {
    forall x <- t'.entries :: t'.entries[x].FileNode? || (x in t.entries && t.entries[x] == t'.entries[x])
  }

  lemma AddsOnlyFilesTwice(t: Tree, t1: Tree, t2: Tree)
    requires AddsOnlyFiles(t, t1) && AddsOnlyFiles(t1, t2)
    ensures AddsOnlyFiles(t, t2)
  {
    forall x <- t2.entries | !t2.entries[x].FileNode? ensures x in t.entries && t.entries[x] == t2.entries[x] {
      assert x in t1.entries && t1.entries[x] == t2.entries[x];
    }
  }

  lemma ClearStaysClear(t: Tree, t': Tree, slot: Slot)
    requires AddsOnlyFiles(t, t') && Clear(t, slot)
    ensures Clear(t', slot)
  {
  }

  /** An operation that made nothing but files, and took as long as it did. */
  ghost predicate Orderly(s: Sys, s': Sys) {
    && AddsOnlyFiles(s.tree, s'.tree) && s.clock <= s'.clock && s.next <= s'.next
    && (FreshSerials(s) ==> FreshSerials(s'))
  }

  lemma OrderlyTwice(s: Sys, s1: Sys, s2: Sys)
    requires Orderly(s, s1) && Orderly(s1, s2)
    ensures Orderly(s, s2)
  {
    AddsOnlyFilesTwice(s.tree, s1.tree, s2.tree);
  }

  lemma LaterIsOrderly(w: World, s: Sys)
    requires Quiet(w, s.clock)
    ensures Later(w, s).tree == s.tree && Later(w, s).clock == s.clock + 1 && Later(w, s).next == s.next
    ensures Orderly(s, Later(w, s))
  {
  }

  lemma UnlinkedIsOrderly(s: Sys, slot: Slot)
    ensures Orderly(s, Unlinked(s, slot))
  {
  }

  lemma DroppedIsOrderly(w: World, s: Sys, temp: Slot)
    requires Quiet(w, s.clock)
    ensures Orderly(s, Dropped(w, s, temp))
  {
    LaterIsOrderly(w, s);
    UnlinkedIsOrderly(Later(w, s), temp);
  }

  lemma PreparedIsExact(w: World, s: Sys, dir: nat, data: FileData)
    requires Quiet(w, s.clock)
    ensures
      var (s', ready) := Prepared(w, s, Slot(dir, Temporary(s.next)), data);
      && Orderly(s, s') && s'.clock == s.clock + 1
      && (FreshSerials(s) ==> ready == !w.fails(s.clock))
      && (forall x: Slot :: x.name.Plain? ==> Look(s'.tree, x) == Look(s.tree, x))
  {
    LaterIsOrderly(w, s);
  }

  lemma RenamedIsOrderly(s: Sys, temp: Slot, slot: Slot, inode: nat)
    requires slot.name.Plain?
    ensures Orderly(s, Renamed(s, temp, slot, inode))
  {
  }

  lemma InstalledIsExact(w: World, s: Sys, temp: Slot, slot: Slot, inode: nat)
    requires Quiet(w, s.clock) && slot.name.Plain?
    ensures
      var (s', ok) := Installed(w, s, temp, slot, inode);
      Orderly(s, s') && (Clear(s.tree, slot) ==> (ok <==> Smooth(w, s.clock, s'.clock)))
  {
    LaterIsOrderly(w, s);
    var s1 := Later(w, s);
    RenamedIsOrderly(s1, temp, slot, inode);
    var s2 := Renamed(s1, temp, slot, inode);
    LaterIsOrderly(w, s2);
    OrderlyTwice(s, s1, s2);
    OrderlyTwice(s, s2, Later(w, s2));
  }

  /** What is left to do once the temporary file is ready. */
  function Finished(w: World, s: Sys, temp: Slot, slot: Slot, inode: nat): (Sys, bool) {
    var (s1, ok) := Installed(w, s, temp, slot, inode);
    if ok then (s1, true) else (Dropped(w, s1, temp), false)
  }

  lemma FinishedIsExact(w: World, s: Sys, temp: Slot, slot: Slot, inode: nat)
    requires Quiet(w, s.clock) && slot.name.Plain?
    ensures
      var (s', ok) := Finished(w, s, temp, slot, inode);
      Orderly(s, s') && (Clear(s.tree, slot) ==> (ok <==> Smooth(w, s.clock, s'.clock)))
  {
    InstalledIsExact(w, s, temp, slot, inode);
    var (s1, ok) := Installed(w, s, temp, slot, inode);
    if !ok {
      DroppedIsOrderly(w, s1, temp);
      var s2 := Dropped(w, s1, temp);
      OrderlyTwice(s, s1, s2);
      SmoothInTwo(w, s.clock, s1.clock, s2.clock);
    }
  }

  lemma CopiedInTwo(w: World, s: Sys, slot: Slot, data: FileData)
    ensures
      var temp := Slot(slot.dir, Temporary(s.next));
      var (s1, ready) := Prepared(w, s, temp, data);
      Copied(w, s, slot, data) ==
      if ready then Finished(w, s1, temp, slot, s.next) else (Dropped(w, s1, temp), false)
  {
  }

  /** A copy to a clear slot succeeds exactly when none of its operations fails. */
  lemma CopiedIsExact(w: World, s: Sys, slot: Slot, data: FileData)
    requires Quiet(w, s.clock) && slot.name.Plain?
    ensures
      var (s', ok) := Copied(w, s, slot, data);
      Orderly(s, s') && (FreshSerials(s) && Clear(s.tree, slot) ==> (ok <==> Smooth(w, s.clock, s'.clock)))
  {
    var temp := Slot(slot.dir, Temporary(s.next));
    CopiedInTwo(w, s, slot, data);
    PreparedIsExact(w, s, slot.dir, data);
    var (s1, ready) := Prepared(w, s, temp, data);
    var s2 := Copied(w, s, slot, data).0;
    if ready {
      FinishedIsExact(w, s1, temp, slot, s.next);
    } else {
      DroppedIsOrderly(w, s1, temp);
    }
    OrderlyTwice(s, s1, s2);
    SmoothInTwo(w, s.clock, s1.clock, s2.clock);
  }

  lemma RemovedIsExact(w: World, s: Sys, slot: Slot)
    requires Quiet(w, s.clock)
    ensures
      var (s', ok) := Removed(w, s, slot);
      Orderly(s, s') && (IsFile(s.tree, slot) ==> (ok <==> Smooth(w, s.clock, s'.clock)))
  {
    LaterIsOrderly(w, s);
    var s1 := Later(w, s);
    UnlinkedIsOrderly(s1, slot);
    var s2 := Unlinked(s1, slot);
    LaterIsOrderly(w, s2);
    OrderlyTwice(s, s1, s2);
    OrderlyTwice(s, s2, Later(w, s2));
  }

  // ---------------------------------------------------------------------- rolling back

  ghost predicate Exact(w: World, s: Sys, r: (Sys, bool)) {
    Orderly(s, r.0) && (r.1 <==> Smooth(w, s.clock, r.0.clock))
  }

  lemma ExactAfter(w: World, s: Sys, s1: Sys, r: (Sys, bool))
    requires Orderly(s, s1) && Smooth(w, s.clock, s1.clock) && Exact(w, s1, r)
    ensures Exact(w, s, r)
  {
    OrderlyTwice(s, s1, r.0);
    SmoothInTwo(w, s.clock, s1.clock, r.0.clock);
  }

  lemma RestoredIsExact(w: World, s: Sys, slot: Slot, backup: Backup)
    requires Quiet(w, s.clock) && FreshSerials(s) && slot.name.Plain? && Clear(s.tree, slot)
    ensures Exact(w, s, Restored(w, s, slot, backup))
  {
    LaterIsOrderly(w, s);
    var s1 := Later(w, s);
    if !w.fails(s.clock) {
      match backup.saved
      case Some(view) =>
        var data := FileData(view.uid, view.gid, 0, view.mode, view.bytes);
        CopiedIsExact(w, s1, slot, data);
        ExactAfter(w, s, s1, Copied(w, s1, slot, data));
      case None =>
        if slot in s1.tree.entries {
          RemovedIsExact(w, s1, slot);
          ExactAfter(w, s, s1, Removed(w, s1, slot));
        }
    }
  }

  ghost predicate AllClear(t: Tree, slots: seq<Slot>) {
    forall i :: 0 <= i < |slots| ==> slots[i].name.Plain? && Clear(t, slots[i])
  }

  lemma AllStayClear(t: Tree, t': Tree, slots: seq<Slot>)
    requires AddsOnlyFiles(t, t') && AllClear(t, slots)
    ensures AllClear(t', slots)
  {
    forall i | 0 <= i < |slots| ensures Clear(t', slots[i]) {
      ClearStaysClear(t, t', slots[i]);
    }
  }

  lemma {:induction false} UndoingIsExact(w: World, restore: Restoring, good: Sys -> bool, s: Sys, k: nat)
    requires good(s) && FreshSerials(s)
    requires forall s, i: nat {:trigger restore(s, i)} ::
               i < k && good(s) ==> good(restore(s, i).0) && Exact(w, s, restore(s, i))
    ensures Exact(w, s, Undoing(restore, s, k))
    decreases k
  {
    if k > 0 {
      var (s1, ok) := restore(s, k - 1);
      assert good(s1) && Exact(w, s, (s1, ok));
      if ok {
        UndoingIsExact(w, restore, good, s1, k - 1);
        ExactAfter(w, s, s1, Undoing(restore, s1, k - 1));
      }
    }
  }

  /** A rollback succeeds exactly when none of its operations fails. */
  lemma RollbackIsExact(w: World, s: Sys, slots: seq<Slot>, backups: seq<Backup>)
    requires Quiet(w, s.clock) && FreshSerials(s) && AllClear(s.tree, slots) && |slots| <= |backups|
    ensures Exact(w, s, RolledBack(w, s, slots, backups))
  {
    var restore := Restorer(w, slots, backups);
    var good := (x: Sys) => s.clock <= x.clock && FreshSerials(x) && AllClear(x.tree, slots);
    forall x, i: nat | i < |slots| && good(x) ensures good(restore(x, i).0) && Exact(w, x, restore(x, i)) {
      RestoredIsExact(w, x, slots[i], backups[i]);
      AllStayClear(x.tree, restore(x, i).0.tree, slots);
    }
    UndoingIsExact(w, restore, good, s, |slots|);
  }

  // --------------------------------------------------------------------- looking around

  /** Time passed, and nothing else did. */
  predicate Waits(s: Sys, s': Sys) {
    s'.tree == s.tree && s'.next == s.next && s.clock <= s'.clock
  }

  /** Opening a path component by component is one walk of the tree, unless an opening fails. */
  lemma {:induction false} OpenedWalks(w: World, s: Sys, dir: nat, components: seq<string>)
    requires Quiet(w, s.clock)
    ensures
      var (s', found) := Opened(w, s, dir, components);
      && Waits(s, s')
      && (found.Some? || Smooth(w, s.clock, s'.clock) ==> found == Walk(s.tree, dir, components))
    decreases |components|
  {
    if components != [] {
      var s1, slot := Later(w, s), Slot(dir, Plain(components[0]));
      if !w.fails(s.clock) && IsDirectory(s1.tree, slot) {
        OpenedWalks(w, s1, s1.tree.entries[slot].id, components[1..]);
      }
    }
  }

  lemma OpenedParentWalks(w: World, s: Sys, path: seq<string>)
    requires Quiet(w, s.clock) && path != []
    ensures
      var (s', dir) := OpenedParent(w, s, path);
      && Waits(s, s')
      && (dir.Some? || Smooth(w, s.clock, s'.clock) ==> dir == Walk(s.tree, w.root, Parent(path)))
  {
    if !w.fails(s.clock) {
      OpenedWalks(w, Later(w, s), w.root, Parent(path));
    }
  }

  /** The slot a path leads to in a tree. */
  function Target(t: Tree, root: nat, path: seq<string>): Option<Slot>
    requires path != []
  {
    var dir := Walk(t, root, Parent(path));
    if dir.None? then None else Some(Slot(dir.value, Final(path)))
  }

  /** A regular file without execute bits, or a free place for a new one. */
  predicate SlotFits(t: Tree, slot: Slot, kind: Kind) {
    match Look(t, slot)
    case None => kind.Install?
    case Some(FileNode(inode)) => inode in t.inodes && !Executable(t.inodes[inode].mode)
    case Some(_) => false
  }

  predicate TargetFits(t: Tree, root: nat, change: Change)
    requires change.path != []
  {
    Target(t, root, change.path).Some? && SlotFits(t, Target(t, root, change.path).value, change.kind)
  }

  lemma BackingAtIsExact(w: World, s: Sys, slot: Slot, kind: Kind)
    requires Quiet(w, s.clock)
    ensures
      var (s', backup) := BackedUpAt(w, s, slot, kind);
      && Waits(s, s')
      && (backup.Done? ==> SlotFits(s.tree, slot, kind) && Unchanged(Look(s.tree, slot), backup.value))
      && (SlotFits(s.tree, slot, kind) && Smooth(w, s.clock, s'.clock) ==> backup.Done?)
  {
    var s1 := Later(w, s);
    var s2 := Later(w, s1);
    assert s1.tree == s.tree && s2.tree == s.tree;
  }

  /** A backup is made exactly of a target that fits, unless an operation fails. */
  lemma BackingIsExact(w: World, s: Sys, change: Change)
    requires Quiet(w, s.clock) && change.path != []
    ensures
      var (s', backup) := BackedUp(w, s, change);
      && Waits(s, s')
      && (backup.Done? ==>
            && TargetFits(s.tree, w.root, change)
            && Unchanged(Look(s.tree, Target(s.tree, w.root, change.path).value), backup.value))
      && (TargetFits(s.tree, w.root, change) && Smooth(w, s.clock, s'.clock) ==> backup.Done?)
  {
    OpenedParentWalks(w, s, change.path);
    var (s1, dir) := OpenedParent(w, s, change.path);
    if dir.Some? {
      BackingAtIsExact(w, s1, Slot(dir.value, Final(change.path)), change.kind);
      SmoothInTwo(w, s.clock, s1.clock, BackedUp(w, s, change).0.clock);
    }
  }

  ghost predicate BackupsOf(t: Tree, root: nat, changes: seq<Change>, backups: seq<Backup>)
    requires Proper(changes)
  {
    && |backups| <= |changes|
    && forall i :: 0 <= i < |backups| ==> TargetFits(t, root, changes[i]) && TargetIs(t, root, changes[i], backups[i])
  }

  lemma OneMoreBackup(t: Tree, root: nat, changes: seq<Change>, backups: seq<Backup>, backup: Backup)
    requires Proper(changes) && BackupsOf(t, root, changes, backups) && |backups| < |changes|
    requires TargetFits(t, root, changes[|backups|]) && TargetIs(t, root, changes[|backups|], backup)
    ensures BackupsOf(t, root, changes, backups + [backup])
  {
  }

  lemma BackingNextIsExact(w: World, s: Sys, b: Backing, changes: seq<Change>)
    requires Quiet(w, s.clock) && Proper(changes) && Waits(s, b.sys) && BackupsOf(s.tree, w.root, changes, b.backups)
    requires |b.backups| < |changes|
    ensures
      var change := changes[|b.backups|];
      var b' := BackedUpOne(w, b, change);
      && Waits(b.sys, b'.sys) && BackupsOf(s.tree, w.root, changes, b'.backups)
      && (Smooth(w, b.sys.clock, b'.sys.clock) && TargetFits(s.tree, w.root, change) ==> b'.error.None?)
  {
    BackingIsExact(w, b.sys, changes[|b.backups|]);
    var (s1, backup) := BackedUp(w, b.sys, changes[|b.backups|]);
    if backup.Done? {
      OneMoreBackup(s.tree, w.root, changes, b.backups, backup.value);
    }
  }

  ghost predicate AllFit(t: Tree, root: nat, changes: seq<Change>, k: nat)
    requires Proper(changes) && k <= |changes|
  {
    forall i :: 0 <= i < k ==> TargetFits(t, root, changes[i])
  }

  lemma {:induction false} BackingsAreExact(w: World, s: Sys, changes: seq<Change>, k: nat)
    requires Quiet(w, s.clock) && Proper(changes) && k <= |changes|
    ensures
      var b := BackedUpTo(w, s, changes, k);
      && Waits(s, b.sys) && BackupsOf(s.tree, w.root, changes, b.backups)
      && (Smooth(w, s.clock, b.sys.clock) && AllFit(s.tree, w.root, changes, k) ==> b.error.None?)
  {
    if k > 0 {
      BackingsAreExact(w, s, changes, k - 1);
      var b := BackedUpTo(w, s, changes, k - 1);
      if b.error.None? {
        BackingNextIsExact(w, s, b, changes);
        SmoothInTwo(w, s.clock, b.sys.clock, BackedUpTo(w, s, changes, k).sys.clock);
      }
    }
  }

  // ------------------------------------------------------------------------- mutations

  lemma RewrittenIsExact(w: World, s: Sys, slot: Slot, kind: Kind)
    requires Quiet(w, s.clock) && slot.name.Plain?
    ensures
      var (s', ok) := Rewritten(w, s, slot, kind);
      && Orderly(s, s')
      && (FreshSerials(s) && Clear(s.tree, slot) && (kind.Delete? ==> slot in s.tree.entries) ==>
            (ok <==> Smooth(w, s.clock, s'.clock)))
  {
    if kind.Install? {
      CopiedIsExact(w, s, slot, FileData(w.uid, w.gid, 0, INSTALL_MODE, kind.bytes));
    } else {
      RemovedIsExact(w, s, slot);
    }
  }

  /** The target is there, and still is what was backed up. */
  predicate TargetIs(t: Tree, root: nat, change: Change, backup: Backup)
    requires change.path != []
  {
    && Target(t, root, change.path).Some?
    && Unchanged(Look(t, Target(t, root, change.path).value), backup)
  }

  lemma RecheckedIsExact(w: World, s: Sys, change: Change, backup: Backup)
    requires Quiet(w, s.clock) && change.path != []
    ensures
      var (s', held) := Rechecked(w, s, change, backup);
      && Waits(s, s')
      && (held.Done? ==>
            && Target(s.tree, w.root, change.path) == Some(held.value)
            && Unchanged(Look(s.tree, held.value), backup))
      && (!w.cancels(s.clock) && Smooth(w, s.clock, s'.clock) && TargetIs(s.tree, w.root, change, backup) ==> held.Done?)
  {
    OpenedParentWalks(w, s, change.path);
    var (s1, dir) := OpenedParent(w, s, change.path);
    var s2 := Later(w, s1);
    assert s2.tree == s1.tree;
    SmoothInTwo(w, s.clock, s1.clock, s2.clock);
  }

  lemma WaitsIsOrderly(s: Sys, s': Sys)
    requires Waits(s, s')
    ensures Orderly(s, s')
  {
  }

  lemma MutatedIsOrderly(w: World, m: Mutation, change: Change, backup: Backup)
    requires Quiet(w, m.sys.clock) && change.path != [] && AllClear(m.sys.tree, m.slots)
    ensures
      var m' := MutatedOne(w, m, change, backup);
      Orderly(m.sys, m'.sys) && AllClear(m'.sys.tree, m'.slots)
  {
    RecheckedIsExact(w, m.sys, change, backup);
    var (s1, held) := Rechecked(w, m.sys, change, backup);
    WaitsIsOrderly(m.sys, s1);
    if held.Done? {
      var slot := held.value;
      RewrittenIsExact(w, s1, slot, change.kind);
      var s2 := Rewritten(w, s1, slot, change.kind).0;
      OrderlyTwice(m.sys, s1, s2);
      AllStayClear(s1.tree, s2.tree, m.slots + [slot]);
    }
  }

  /** Whatever comes of the mutations, the held slots are fit for a rollback. */
  lemma {:induction false} MutationsAreOrderly(w: World, s: Sys, changes: seq<Change>, backups: seq<Backup>, k: nat)
    requires Quiet(w, s.clock) && Proper(changes) && |backups| == |changes| && k <= |changes|
    ensures
      var m := MutatedTo(w, s, changes, backups, k);
      Orderly(s, m.sys) && AllClear(m.sys.tree, m.slots)
  {
    if k > 0 {
      MutationsAreOrderly(w, s, changes, backups, k - 1);
      var m := MutatedTo(w, s, changes, backups, k - 1);
      if m.error.None? {
        MutatedIsOrderly(w, m, changes[k - 1], backups[k - 1]);
        OrderlyTwice(s, m.sys, MutatedOne(w, m, changes[k - 1], backups[k - 1]).sys);
      }
    }
  }

  // ----------------------------------------------------------------------- verification

  ghost predicate LedTo(t: Tree, root: nat, changes: seq<Change>, slots: seq<Slot>, k: nat)
    requires Proper(changes) && |slots| == |changes| && k <= |changes|
  {
    forall i :: 0 <= i < k ==> Walk(t, root, Parent(changes[i].path)) == Some(slots[i].dir)
  }

  /** Verification succeeds exactly when every path leads to its held parent, unless an opening fails. */
  lemma {:induction false} VerifyingIsExact(w: World, s: Sys, changes: seq<Change>, slots: seq<Slot>, k: nat)
    requires Quiet(w, s.clock) && Proper(changes) && |slots| == |changes| && k <= |changes|
    ensures
      var (s', ok) := VerifiedTo(w, s, changes, slots, k);
      && Waits(s, s') && (ok ==> LedTo(s.tree, w.root, changes, slots, k))
      && (LedTo(s.tree, w.root, changes, slots, k) && Smooth(w, s.clock, s'.clock) ==> ok)
  {
    if k > 0 {
      VerifyingIsExact(w, s, changes, slots, k - 1);
      var (s1, ok) := VerifiedTo(w, s, changes, slots, k - 1);
      if ok {
        OpenedParentWalks(w, s1, changes[k - 1].path);
        SmoothInTwo(w, s.clock, s1.clock, VerifiedTo(w, s, changes, slots, k).0.clock);
      }
    }
  }
}
