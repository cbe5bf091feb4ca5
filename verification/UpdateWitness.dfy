/**
 * A successful update whose deletion does not last: after `x/f` is deleted, task processes swap
 * the directories `x` and `y`, so that the new file `y/f` goes to the very slot that was emptied.
 * Swapping back and forth once more lets both parents be verified.
 */
module UpdateWitness {
  import opened Common
  import opened WorkspaceFiles
  import opened UpdateSteps
  import opened SourceUpdates

  const X := Slot(0, Plain("x"))
  const Y := Slot(0, Plain("y"))
  const F := Slot(1, Plain("f"))

  const CHANGES := [Change(["x", "f"], Delete), Change(["y", "f"], Install([]))]

  /** The instants at which `x` and `y` are swapped. */
  predicate Swapped(k: nat) { 13 <= k < 19 || k >= 21 }

  function Swap(k: nat, t: Tree): Tree {
    if IsFile(t, X) || IsFile(t, Y) then t
    else t.(entries := t.entries[X := Directory(if Swapped(k) then 2 else 1)][Y := Directory(if Swapped(k) then 1 else 2)])
  }

  lemma SwapKeepsFiles(k: nat, t: Tree)
    requires ValidTree(t)
    ensures FilesKept(t, Swap(k, t))
  {
  }

  function TheWorld(): World {
    assert forall k, t :: ValidTree(t) ==> FilesKept(t, Swap(k, t)) by {
      forall k, t | ValidTree(t) ensures FilesKept(t, Swap(k, t)) {
        SwapKeepsFiles(k, t);
      }
    }
    World(0, 0, 0, k => false, k => false, Swap)
  }

  /** Directory 1 may hold `f` and a temporary. */
  function Held(file: Option<nat>, temp: Option<nat>): map<Slot, Node> {
    (if file.Some? then map[F := FileNode(file.value)] else map[])
    + (if temp.Some? then map[Slot(1, Temporary(6)) := FileNode(temp.value)] else map[])
  }

  /** Directory `x` is 1 and `y` is 2, or the other way round. */
  function Layout(swapped: bool, file: Option<nat>, temp: Option<nat>): map<Slot, Node> {
    Held(file, temp)[X := Directory(if swapped then 2 else 1)][Y := Directory(if swapped then 1 else 2)]
  }

  const OLD := FileData(0, 0, 0, INSTALL_MODE, [7])
  const NEW := FileData(0, 0, 0, INSTALL_MODE, [])

  function Inodes(copied: bool): map<nat, FileData> {
    if copied then map[5 := OLD, 6 := NEW] else map[5 := OLD]
  }

  function State(k: nat, swapped: bool, file: Option<nat>, temp: Option<nat>, copied: bool): Sys {
    Sys(Tree(Layout(swapped, file, temp), Inodes(copied)), k, if copied then 7 else 6)
  }

  lemma Tick(k: nat, swapped: bool, file: Option<nat>, temp: Option<nat>, copied: bool)
    ensures Later(TheWorld(), State(k, swapped, file, temp, copied)) == State(k + 1, Swapped(k), file, temp, copied)
  {
    SwapLayout(k, swapped, file, temp, Inodes(copied));
  }

  lemma WrittenTwice<K, V>(m: map<K, V>, a: K, b: K, p: V, q: V, p': V, q': V)
    requires a != b
    ensures m[a := p][b := q][a := p'][b := q'] == m[a := p'][b := q']
  {
  }

  lemma SwapLayout(k: nat, swapped: bool, file: Option<nat>, temp: Option<nat>, inodes: map<nat, FileData>)
    ensures Swap(k, Tree(Layout(swapped, file, temp), inodes)) == Tree(Layout(Swapped(k), file, temp), inodes)
  {
    WrittenTwice(Held(file, temp), X, Y, Directory(if swapped then 2 else 1), Directory(if swapped then 1 else 2),
                 Directory(if Swapped(k) then 2 else 1), Directory(if Swapped(k) then 1 else 2));
  }

  lemma OpenX(k: nat, swapped: bool, file: Option<nat>, copied: bool)
    ensures OpenedParent(TheWorld(), State(k, swapped, file, None, copied), ["x", "f"]) ==
            (State(k + 2, Swapped(k + 1), file, None, copied), Some(if Swapped(k + 1) then 2 else 1))
  {
    Tick(k, swapped, file, None, copied);
    Tick(k + 1, Swapped(k), file, None, copied);
    var s1 := State(k + 1, Swapped(k), file, None, copied);
    assert Parent(["x", "f"]) == ["x"] && ["x"][1..] == [];
    assert Opened(TheWorld(), s1, 0, ["x"]) ==
           (State(k + 2, Swapped(k + 1), file, None, copied), Some(if Swapped(k + 1) then 2 else 1));
  }

  lemma OpenY(k: nat, swapped: bool, file: Option<nat>, copied: bool)
    ensures OpenedParent(TheWorld(), State(k, swapped, file, None, copied), ["y", "f"]) ==
            (State(k + 2, Swapped(k + 1), file, None, copied), Some(if Swapped(k + 1) then 1 else 2))
  {
    Tick(k, swapped, file, None, copied);
    Tick(k + 1, Swapped(k), file, None, copied);
    var s1 := State(k + 1, Swapped(k), file, None, copied);
    assert Parent(["y", "f"]) == ["y"] && ["y"][1..] == [];
    assert Opened(TheWorld(), s1, 0, ["y"]) ==
           (State(k + 2, Swapped(k + 1), file, None, copied), Some(if Swapped(k + 1) then 1 else 2));
  }

  // ------------------------------------------------------------------------ the run

  const BACKUPS := [Backup(Some(5), Some(ViewOf(OLD))), Backup(None, None)]

  lemma BackUpX()
    ensures BackedUp(TheWorld(), State(1, false, Some(5), None, false), CHANGES[0]) ==
            (State(5, false, Some(5), None, false), Done(BACKUPS[0]))
  {
    OpenX(1, false, Some(5), false);
    Tick(3, false, Some(5), None, false);
    Tick(4, false, Some(5), None, false);
    assert Final(["x", "f"]) == Plain("f");
    assert CopiedAside(TheWorld(), State(4, false, Some(5), None, false), F, 5) ==
           (State(5, false, Some(5), None, false), Done(BACKUPS[0]));
    assert BackedUpAt(TheWorld(), State(3, false, Some(5), None, false), F, Delete) ==
           (State(5, false, Some(5), None, false), Done(BACKUPS[0]));
  }

  lemma BackUpY()
    ensures BackedUp(TheWorld(), State(5, false, Some(5), None, false), CHANGES[1]) ==
            (State(8, false, Some(5), None, false), Done(BACKUPS[1]))
  {
    OpenY(5, false, Some(5), false);
    Tick(7, false, Some(5), None, false);
    assert Final(["y", "f"]) == Plain("f");
    assert BackedUpAt(TheWorld(), State(7, false, Some(5), None, false), Slot(2, Plain("f")), Install([])) ==
           (State(8, false, Some(5), None, false), Done(BACKUPS[1]));
  }

  lemma BothBackedUp(w: World, changes: seq<Change>, s0: Sys, s1: Sys, s2: Sys, b0: Backup, b1: Backup)
    requires Proper(changes) && |changes| == 2
    requires BackedUp(w, s0, changes[0]) == (s1, Done(b0)) && BackedUp(w, s1, changes[1]) == (s2, Done(b1))
    ensures BackedUpTo(w, s0, changes, 2) == Backing(s2, [b0, b1], None)
  {
    assert BackedUpTo(w, s0, changes, 1) == Backing(s1, [b0], None);
  }

  lemma BothMutated(w: World, changes: seq<Change>, backups: seq<Backup>, s0: Sys, m1: Mutation, m2: Mutation)
    requires Proper(changes) && |changes| == |backups| == 2
    requires MutatedOne(w, Mutation(s0, [], None), changes[0], backups[0]) == m1 && m1.error.None?
    requires MutatedOne(w, m1, changes[1], backups[1]) == m2
    ensures MutatedTo(w, s0, changes, backups, 2) == m2
  {
    assert MutatedTo(w, s0, changes, backups, 1) == m1;
  }

  lemma Finished(w: World, changes: seq<Change>, s0: Sys, s1: Sys, b: Backing, m: Mutation, s2: Sys)
    requires Proper(changes) && !w.cancels(s0.clock) && !w.fails(s0.clock)
    requires Later(w, s0) == s1 && BackedUpTo(w, s1, changes, |changes|) == b && b.error.None?
    requires MutatedTo(w, b.sys, changes, b.backups, |changes|) == m && m.error.None?
    requires VerifiedTo(w, m.sys, changes, m.slots, |changes|) == (s2, true)
    requires !w.cancels(s2.clock) && !w.fails(s2.clock)
    ensures Ended(w, s0, changes).result.Ok? && Ended(w, s0, changes).sys == Later(w, s2)
            && Ended(w, s0, changes).slots == m.slots
  {
  }

  lemma DeleteX()
    ensures MutatedOne(TheWorld(), Mutation(State(8, false, Some(5), None, false), [], None), CHANGES[0], BACKUPS[0]) ==
            Mutation(State(13, false, None, None, false), [F], None)
  {
    OpenX(8, false, Some(5), false);
    Tick(10, false, Some(5), None, false);
    assert Final(["x", "f"]) == Plain("f");
    assert RecheckedAt(TheWorld(), State(10, false, Some(5), None, false), F, BACKUPS[0]) ==
           (State(11, false, Some(5), None, false), Done(F));
    Tick(11, false, Some(5), None, false);
    UnlinkF();
    Tick(12, false, None, None, false);
    assert Removed(TheWorld(), State(11, false, Some(5), None, false), F) == (State(13, false, None, None, false), true);
  }

  lemma UnlinkF()
    ensures Unlinked(State(12, false, Some(5), None, false), F) == State(12, false, None, None, false)
  {
    assert Layout(false, Some(5), None) - {F} == Layout(false, None, None);
  }

  lemma RecheckY()
    ensures Rechecked(TheWorld(), State(13, false, None, None, false), CHANGES[1], BACKUPS[1]) ==
            (State(16, true, None, None, false), Done(F))
  {
    OpenY(13, false, None, false);
    Tick(15, true, None, None, false);
    assert Final(["y", "f"]) == Plain("f");
    assert RecheckedAt(TheWorld(), State(15, true, None, None, false), F, BACKUPS[1]) ==
           (State(16, true, None, None, false), Done(F));
  }

  lemma MutatesBy(w: World, m: Mutation, change: Change, backup: Backup, s1: Sys, slot: Slot, s2: Sys)
    requires change.path != [] && Rechecked(w, m.sys, change, backup) == (s1, Done(slot))
    requires Rewritten(w, s1, slot, change.kind) == (s2, true)
    ensures MutatedOne(w, m, change, backup) == Mutation(s2, m.slots + [slot], None)
  {
  }

  lemma InstallY()
    ensures MutatedOne(TheWorld(), Mutation(State(13, false, None, None, false), [F], None), CHANGES[1], BACKUPS[1]) ==
            Mutation(State(19, true, Some(6), None, true), [F, F], None)
  {
    RecheckY();
    CopyF();
    MutatesBy(TheWorld(), Mutation(State(13, false, None, None, false), [F], None), CHANGES[1], BACKUPS[1],
              State(16, true, None, None, false), F, State(19, true, Some(6), None, true));
  }

  lemma CopyF()
    ensures Copied(TheWorld(), State(16, true, None, None, false), F, NEW) == (State(19, true, Some(6), None, true), true)
  {
    var temp := Slot(1, Temporary(6));
    Tick(16, true, None, None, false);
    assert Layout(true, None, None)[temp := FileNode(6)] == Layout(true, None, Some(6));
    assert WithTemporary(State(17, true, None, None, false), temp, NEW) == State(17, true, None, Some(6), true);
    Tick(17, true, None, Some(6), true);
    assert (Layout(true, None, Some(6)) - {temp})[F := FileNode(6)] == Layout(true, Some(6), None);
    assert Renamed(State(18, true, None, Some(6), true), temp, F, 6) == State(18, true, Some(6), None, true);
    Tick(18, true, Some(6), None, true);
    assert Installed(TheWorld(), State(17, true, None, Some(6), true), temp, F, 6) ==
           (State(19, true, Some(6), None, true), true);
  }

  lemma VerifyBoth()
    ensures VerifiedTo(TheWorld(), State(19, true, Some(6), None, true), CHANGES, [F, F], 2) ==
            (State(23, true, Some(6), None, true), true)
  {
    OpenX(19, true, Some(6), true);
    OpenY(21, false, Some(6), true);
    assert VerifiedTo(TheWorld(), State(19, true, Some(6), None, true), CHANGES, [F, F], 1) ==
           (State(21, false, Some(6), None, true), true);
  }

  lemma ChangesAreProper()
    ensures Proper(CHANGES) && |CHANGES| == |BACKUPS| == 2
  {
  }

  lemma RunEnds()
    ensures
      && Proper(CHANGES)
      && var e := Ended(TheWorld(), State(0, false, Some(5), None, false), CHANGES);
      && e.result.Ok? && e.slots == [F, F] && e.sys == State(24, true, Some(6), None, true)
  {
    ChangesAreProper();
    var w := TheWorld();
    var s, s1 := State(0, false, Some(5), None, false), State(1, false, Some(5), None, false);
    var s8 := State(8, false, Some(5), None, false);
    var m2 := Mutation(State(19, true, Some(6), None, true), [F, F], None);
    Tick(0, false, Some(5), None, false);
    BackUpX();
    BackUpY();
    BothBackedUp(w, CHANGES, s1, State(5, false, Some(5), None, false), s8, BACKUPS[0], BACKUPS[1]);
    DeleteX();
    InstallY();
    BothMutated(w, CHANGES, BACKUPS, s8, Mutation(State(13, false, None, None, false), [F], None), m2);
    VerifyBoth();
    Tick(23, true, Some(6), None, true);
    Finished(w, CHANGES, s, s1, Backing(s8, BACKUPS, None), m2, State(23, true, Some(6), None, true));
  }

  lemma StatesAreValid()
    ensures ValidSys(State(0, false, Some(5), None, false)) && ValidSys(State(24, true, Some(6), None, true))
    ensures F in FilesOf(State(24, true, Some(6), None, true).tree)
  {
  }

  /** The update succeeds, both parents are verified, and the slot of the deleted file is taken. */
  lemma DeletionCanBeUndone()
    ensures
      var s := State(0, false, Some(5), None, false);
      && ValidSys(s) && Proper(CHANGES) && CHANGES[0].path != CHANGES[1].path && CHANGES[0].kind.Delete?
      && var e := Ended(TheWorld(), s, CHANGES);
      && e.result.Ok? && |e.slots| == 2 && ValidSys(e.sys) && e.slots[0] in FilesOf(e.sys.tree)
  {
    StatesAreValid();
    RunEnds();
    assert CHANGES[0].path[0] != CHANGES[1].path[0] by {
      assert "x"[0] != "y"[0];
    }
  }
}
