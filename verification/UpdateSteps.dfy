/**
 * The file operations of a source update, one after the other.  Which of them fail, when
 * cancellation is seen and what task processes do to directories and links before every
 * operation are arbitrary functions of time.
 */
module UpdateSteps {
  import opened Common
  import opened WorkspaceFiles

  datatype Kind = Install(bytes: seq<nat>) | Delete

  /** A verified change; the path is a nonempty list of components. */
  datatype Change = Change(path: seq<string>, kind: Kind)

  predicate Proper(changes: seq<Change>) {
    forall i :: 0 <= i < |changes| ==> changes[i].path != []
  }

  /** The copy of a target taken before the first mutation; `saved` is absent for a new file. */
  datatype Backup = Backup(original: Option<nat>, saved: Option<View>)

  datatype ErrorKind = BadRequest | Internal | Cancelled

  const INSTALL_MODE: Permissions := 420  // 0o644

  /** What task processes do to the tree before the operation at each instant. */
  type Relinking = relink: (nat, Tree) -> Tree | forall k, t :: ValidTree(t) ==> FilesKept(t, relink(k, t))
    witness (k: nat, t: Tree) => t

  /** The workspace root, the identity that owns installed files, and the world around the transaction. */
  datatype World = World(root: nat, uid: nat, gid: nat, fails: nat -> bool, cancels: nat -> bool, relink: Relinking)

  /** The file system at an instant; `next` bounds the inode numbers in use. */
  datatype Sys = Sys(tree: Tree, clock: nat, next: nat)

  ghost predicate ValidSys(s: Sys) {
    ValidTree(s.tree) && forall i <- s.tree.inodes :: i < s.next
  }

  ghost function FilesAt(s: Sys): Files
    requires ValidSys(s)
  {
    FilesOf(s.tree)
  }

  /** Any of the three execute bits. */
  predicate Executable(mode: Permissions) {
    mode % 2 == 1 || mode / 8 % 2 == 1 || mode / 64 % 2 == 1
  }

  function Parent(path: seq<string>): seq<string>
    requires path != []
  {
    path[..|path| - 1]
  }

  function Final(path: seq<string>): Name
    requires path != []
  {
    Plain(path[|path| - 1])
  }

  // --------------------------------------------------------------- single operations

  /** The rest of the world acts. */
  function Later(w: World, s: Sys): Sys {
    Sys(w.relink(s.clock, s.tree), s.clock + 1, s.next)
  }

  predicate IsDirectory(t: Tree, slot: Slot) {
    slot in t.entries && t.entries[slot].Directory?
  }

  function Look(t: Tree, slot: Slot): Option<Node> {
    if slot in t.entries then Some(t.entries[slot]) else None
  }

  /** Opening directories one component at a time, without following links. */
  function Opened(w: World, s: Sys, dir: nat, components: seq<string>): (Sys, Option<nat>)
    decreases |components|
  {
    if components == [] then (s, Some(dir))
    else
      var s1, slot := Later(w, s), Slot(dir, Plain(components[0]));
      if w.fails(s.clock) || !IsDirectory(s1.tree, slot) then (s1, None)
      else Opened(w, s1, s1.tree.entries[slot].id, components[1..])
  }

  function OpenedParent(w: World, s: Sys, path: seq<string>): (Sys, Option<nat>)
    requires path != []
  {
    if w.fails(s.clock) then (Later(w, s), None) else Opened(w, Later(w, s), w.root, Parent(path))
  }

  datatype Inspection = InspectFailed | Found(node: Option<Node>)

  function Inspected(w: World, s: Sys, slot: Slot): (Sys, Inspection) {
    (Later(w, s), if w.fails(s.clock) then InspectFailed else Found(Look(Later(w, s).tree, slot)))
  }

  function WithTemporary(s: Sys, temp: Slot, data: FileData): Sys {
    Sys(Tree(s.tree.entries[temp := FileNode(s.next)], s.tree.inodes[s.next := data]), s.clock, s.next + 1)
  }

  function Renamed(s: Sys, temp: Slot, slot: Slot, inode: nat): Sys {
    s.(tree := s.tree.(entries := (s.tree.entries - {temp})[slot := FileNode(inode)]))
  }

  function Unlinked(s: Sys, slot: Slot): Sys {
    s.(tree := s.tree.(entries := s.tree.entries - {slot}))
  }

  /** Best-effort removal of a temporary file; a failure leaks it. */
  function Dropped(w: World, s: Sys, temp: Slot): Sys {
    if w.fails(s.clock) then Later(w, s) else Unlinked(Later(w, s), temp)
  }

  /** Creating and filling the temporary file. */
  function Prepared(w: World, s: Sys, temp: Slot, data: FileData): (Sys, bool) {
    var s1 := Later(w, s);
    if w.fails(s.clock) || temp in s1.tree.entries then (s1, false) else (WithTemporary(s1, temp, data), true)
  }

  /** Renaming it over the target and syncing the directory. */
  function Installed(w: World, s: Sys, temp: Slot, slot: Slot, inode: nat): (Sys, bool) {
    var s1 := Later(w, s);
    if w.fails(s.clock) || IsDirectory(s1.tree, slot) then (s1, false)
    else
      var s2 := Renamed(s1, temp, slot, inode);
      (Later(w, s2), !w.fails(s2.clock))
  }

  function Copied(w: World, s: Sys, slot: Slot, data: FileData): (Sys, bool) {
    var temp := Slot(slot.dir, Temporary(s.next));
    var (s1, ready) := Prepared(w, s, temp, data);
    if !ready then (Dropped(w, s1, temp), false)
    else
      var (s2, ok) := Installed(w, s1, temp, slot, s.next);
      if ok then (s2, true) else (Dropped(w, s2, temp), false)
  }

  /** Unlinking the target and syncing the directory. */
  function Removed(w: World, s: Sys, slot: Slot): (Sys, bool) {
    var s1 := Later(w, s);
    if w.fails(s.clock) || slot !in s1.tree.entries || IsDirectory(s1.tree, slot) then (s1, false)
    else
      var s2 := Unlinked(s1, slot);
      (Later(w, s2), !w.fails(s2.clock))
  }

  // ------------------------------------------------------------------- one change

  datatype Outcome<T> = Done(value: T) | Failed(kind: ErrorKind)

  /** Inspecting the target and copying it. */
  function BackedUp(w: World, s: Sys, change: Change): (Sys, Outcome<Backup>)
    requires change.path != []
  {
    var (s1, dir) := OpenedParent(w, s, change.path);
    if dir.None? then (s1, Failed(BadRequest))
    else BackedUpAt(w, s1, Slot(dir.value, Final(change.path)), change.kind)
  }

  function BackedUpAt(w: World, s: Sys, slot: Slot, kind: Kind): (Sys, Outcome<Backup>) {
    var (s1, found) := Inspected(w, s, slot);
    match found
    case InspectFailed => (s1, Failed(Internal))
    case Found(None) => (s1, if kind.Delete? then Failed(BadRequest) else Done(Backup(None, None)))
    case Found(Some(FileNode(inode))) => CopiedAside(w, s1, slot, inode)
    case Found(Some(_)) => (s1, Failed(BadRequest))
  }

  /** Only files that are not executable are backed up, and only while they stay where they were found. */
  function CopiedAside(w: World, s: Sys, slot: Slot, inode: nat): (Sys, Outcome<Backup>) {
    if inode !in s.tree.inodes || Executable(s.tree.inodes[inode].mode) then (s, Failed(BadRequest))
    else
      var s1 := Later(w, s);
      if w.fails(s.clock) || Look(s1.tree, slot) != Some(FileNode(inode)) then (s1, Failed(BadRequest))
      else (s1, Done(Backup(Some(inode), Some(ViewOf(s.tree.inodes[inode])))))
  }

  /** The target is still the file that was backed up, or still absent. */
  predicate Unchanged(found: Option<Node>, backup: Backup) {
    match backup.original
    case None => found == None
    case Some(inode) => found == Some(FileNode(inode))
  }

  /** Opening the parent and rechecking the target; the slot is then held. */
  function Rechecked(w: World, s: Sys, change: Change, backup: Backup): (Sys, Outcome<Slot>)
    requires change.path != []
  {
    if w.cancels(s.clock) then (s, Failed(Cancelled))
    else
      var (s1, dir) := OpenedParent(w, s, change.path);
      if dir.None? then (s1, Failed(BadRequest))
      else RecheckedAt(w, s1, Slot(dir.value, Final(change.path)), backup)
  }

  function RecheckedAt(w: World, s: Sys, slot: Slot, backup: Backup): (Sys, Outcome<Slot>) {
    var (s1, found) := Inspected(w, s, slot);
    if found.InspectFailed? then (s1, Failed(Internal))
    else (s1, if Unchanged(found.node, backup) then Done(slot) else Failed(BadRequest))
  }

  function Rewritten(w: World, s: Sys, slot: Slot, kind: Kind): (Sys, bool) {
    match kind
    case Install(bytes) => Copied(w, s, slot, FileData(w.uid, w.gid, 0, INSTALL_MODE, bytes))
    case Delete => Removed(w, s, slot)
  }

  /** Putting back what a slot held before its mutation. */
  function Restored(w: World, s: Sys, slot: Slot, backup: Backup): (Sys, bool) {
    var (s1, found) := Inspected(w, s, slot);
    if found.InspectFailed? || (found.node.Some? && !found.node.value.FileNode?) then (s1, false)
    else
      match backup.saved
      case Some(view) => Copied(w, s1, slot, FileData(view.uid, view.gid, 0, view.mode, view.bytes))
      case None => if found.node.None? then (s1, true) else Removed(w, s1, slot)
  }

  // ---------------------------------------------------------------------- the phases

  datatype Backing = Backing(sys: Sys, backups: seq<Backup>, error: Option<ErrorKind>)

  function BackedUpTo(w: World, s: Sys, changes: seq<Change>, k: nat): (r: Backing)
    requires Proper(changes) && k <= |changes|
    ensures |r.backups| <= k && (r.error.None? ==> |r.backups| == k)
  {
    if k == 0 then Backing(s, [], None)
    else
      var b := BackedUpTo(w, s, changes, k - 1);
      if b.error.Some? then b else BackedUpOne(w, b, changes[k - 1])
  }

  function BackedUpOne(w: World, b: Backing, change: Change): Backing
    requires change.path != []
  {
    var (s1, backup) := BackedUp(w, b.sys, change);
    match backup
    case Done(backup) => Backing(s1, b.backups + [backup], None)
    case Failed(kind) => b.(sys := s1, error := Some(kind))
  }

  /** `slots` are the held slots, in order; the last one may be half done when there is an error. */
  datatype Mutation = Mutation(sys: Sys, slots: seq<Slot>, error: Option<ErrorKind>)

  function MutatedTo(w: World, s: Sys, changes: seq<Change>, backups: seq<Backup>, k: nat): (r: Mutation)
    requires Proper(changes) && |backups| == |changes| && k <= |changes|
    ensures |r.slots| <= k && (r.error.None? ==> |r.slots| == k)
  {
    if k == 0 then Mutation(s, [], None)
    else
      var m := MutatedTo(w, s, changes, backups, k - 1);
      if m.error.Some? then m else MutatedOne(w, m, changes[k - 1], backups[k - 1])
  }

  function MutatedOne(w: World, m: Mutation, change: Change, backup: Backup): Mutation
    requires change.path != []
  {
    var (s1, slot) := Rechecked(w, m.sys, change, backup);
    match slot
    case Failed(kind) => m.(sys := s1, error := Some(kind))
    case Done(slot) =>
      var (s2, ok) := Rewritten(w, s1, slot, change.kind);
      Mutation(s2, m.slots + [slot], if ok then None else Some(Internal))
  }

  /** Every held parent must still be what its declared path leads to. */
  function VerifiedTo(w: World, s: Sys, changes: seq<Change>, slots: seq<Slot>, k: nat): (Sys, bool)
    requires Proper(changes) && |slots| == |changes| && k <= |changes|
  {
    if k == 0 then (s, true)
    else
      var (s1, ok) := VerifiedTo(w, s, changes, slots, k - 1);
      if !ok then (s1, false)
      else
        var (s2, dir) := OpenedParent(w, s1, changes[k - 1].path);
        (s2, dir == Some(slots[k - 1].dir))
  }

  type Restoring = (Sys, nat) -> (Sys, bool)

  /** How each slot is put back. */
  function Restorer(w: World, slots: seq<Slot>, backups: seq<Backup>): Restoring {
    (s: Sys, i: nat) => if i < |slots| && i < |backups| then Restored(w, s, slots[i], backups[i]) else (s, false)
  }

  /** Undoing the first `k` steps, last first. */
  function Undoing(restore: Restoring, s: Sys, k: nat): (Sys, bool)
    decreases k
  {
    if k == 0 then (s, true)
    else
      var (s1, ok) := restore(s, k - 1);
      if ok then Undoing(restore, s1, k - 1) else (s1, false)
  }

  function RolledBack(w: World, s: Sys, slots: seq<Slot>, backups: seq<Backup>): (Sys, bool) {
    Undoing(Restorer(w, slots, backups), s, |slots|)
  }

  // ------------------------------------------------------------- what operations keep

  /** Nothing a regular file shows has changed. */
  ghost predicate Still(s: Sys, s': Sys)
    requires ValidSys(s)
  {
    && ValidSys(s') && FilesOf(s'.tree) == FilesOf(s.tree)
    && s'.tree.inodes == s.tree.inodes && s'.next == s.next
    && Kept(s.tree, s'.tree)
  }

  /** Ordinary regular files keep their nodes. */
  ghost predicate Kept(t: Tree, t': Tree) {
    forall x: Slot :: x.name.Plain? && IsFile(t, x) ==> IsFile(t', x) && t'.entries[x] == t.entries[x]
  }

  /** Ordinary regular files outside `slot` keep their nodes. */
  ghost predicate KeptBut(t: Tree, t': Tree, slot: Slot) {
    forall x: Slot :: x.name.Plain? && x != slot && IsFile(t, x) ==> IsFile(t', x) && t'.entries[x] == t.entries[x]
  }

  /** The inode table only grows. */
  predicate Extends(before: map<nat, FileData>, after: map<nat, FileData>) {
    forall i <- before :: i in after && after[i] == before[i]
  }

  lemma LaterIsStill(w: World, s: Sys)
    requires ValidSys(s)
    ensures Still(s, Later(w, s))
    ensures forall x: Slot :: IsFile(s.tree, x) ==>
              IsFile(Later(w, s).tree, x) && Later(w, s).tree.entries[x] == s.tree.entries[x]
  {
    KeptFilesLookTheSame(s.tree, w.relink(s.clock, s.tree));
  }

  lemma StillTwice(s: Sys, s1: Sys, s2: Sys)
    requires ValidSys(s) && Still(s, s1) && Still(s1, s2)
    ensures Still(s, s2)
  {
  }

  lemma {:induction false} OpenedIsStill(w: World, s: Sys, dir: nat, components: seq<string>)
    requires ValidSys(s)
    ensures Still(s, Opened(w, s, dir, components).0)
    decreases |components|
  {
    if components != [] {
      var s1, slot := Later(w, s), Slot(dir, Plain(components[0]));
      LaterIsStill(w, s);
      if !w.fails(s.clock) && IsDirectory(s1.tree, slot) {
        OpenedIsStill(w, s1, s1.tree.entries[slot].id, components[1..]);
        StillTwice(s, s1, Opened(w, s, dir, components).0);
      }
    }
  }

  lemma OpenedParentIsStill(w: World, s: Sys, path: seq<string>)
    requires ValidSys(s) && path != []
    ensures Still(s, OpenedParent(w, s, path).0)
  {
    LaterIsStill(w, s);
    if !w.fails(s.clock) {
      OpenedIsStill(w, Later(w, s), w.root, Parent(path));
      StillTwice(s, Later(w, s), OpenedParent(w, s, path).0);
    }
  }

  // ------------------------------------------------------------- effects on the files

  /** Outside one slot nothing changed. */
  ghost predicate OnlyAt(before: Files, after: Files, slot: Slot) {
    forall s :: s != slot ==> (s in after <==> s in before) && (s in before ==> after[s] == before[s])
  }

  /** An operation on one slot: it was made, or not, and touched nothing else. */
  ghost predicate Touches(s: Sys, s': Sys, slot: Slot)
    requires ValidSys(s)
  {
    && ValidSys(s') && Extends(s.tree.inodes, s'.tree.inodes) && s.next <= s'.next
    && OnlyAt(FilesOf(s.tree), FilesOf(s'.tree), slot)
    && KeptBut(s.tree, s'.tree, slot)
  }

  lemma DroppedIsStill(w: World, s: Sys, temp: Slot)
    requires ValidSys(s) && temp.name.Temporary?
    ensures Still(s, Dropped(w, s, temp))
  {
    LaterIsStill(w, s);
    var s1 := Later(w, s);
    UnlinkRemoves(s1, temp);
  }

  lemma UnlinkRemoves(s: Sys, slot: Slot)
    requires ValidSys(s)
    ensures ValidSys(Unlinked(s, slot))
    ensures FilesOf(Unlinked(s, slot).tree) == if slot.name.Plain? then FilesOf(s.tree) - {slot} else FilesOf(s.tree)
    ensures KeptBut(s.tree, Unlinked(s, slot).tree, slot)
    ensures slot.name.Temporary? ==> Kept(s.tree, Unlinked(s, slot).tree)
  {
  }

  lemma PreparedIsInvisible(w: World, s: Sys, temp: Slot, data: FileData)
    requires ValidSys(s) && temp.name.Temporary?
    ensures
      var (s', ready) := Prepared(w, s, temp, data);
      && ValidSys(s') && FilesOf(s'.tree) == FilesOf(s.tree) && Kept(s.tree, s'.tree)
      && Extends(s.tree.inodes, s'.tree.inodes) && s.next <= s'.next
      && (ready ==> Look(s'.tree, temp) == Some(FileNode(s.next)) && s.next in s'.tree.inodes
                    && s'.tree.inodes[s.next] == data)
  {
    LaterIsStill(w, s);
    var s1 := Later(w, s);
    if !w.fails(s.clock) && temp !in s1.tree.entries {
      TemporaryIsInvisible(s1, temp, data);
    }
  }

  lemma TemporaryIsInvisible(s: Sys, temp: Slot, data: FileData)
    requires ValidSys(s) && temp.name.Temporary? && temp !in s.tree.entries
    ensures
      var s' := WithTemporary(s, temp, data);
      ValidSys(s') && FilesOf(s'.tree) == FilesOf(s.tree) && Extends(s.tree.inodes, s'.tree.inodes) && Kept(s.tree, s'.tree)
  {
    FilesAgree(s.tree, WithTemporary(s, temp, data).tree);
  }

  lemma FilesAgree(t: Tree, t': Tree)
    requires ValidTree(t) && ValidTree(t') && Extends(t.inodes, t'.inodes) && Kept(t, t')
    requires forall x: Slot :: x.name.Plain? && IsFile(t', x) ==> IsFile(t, x)
    ensures FilesOf(t') == FilesOf(t)
  {
    forall s ensures s in FilesOf(t') <==> s in FilesOf(t) {
      assert s.name.Plain? ==> (IsFile(t, s) <==> IsFile(t', s));
    }
    forall s <- FilesOf(t) ensures FilesOf(t')[s] == FilesOf(t)[s] {
      assert IsFile(t, s);
    }
  }

  lemma RenameInstalls(s: Sys, temp: Slot, slot: Slot, inode: nat)
    requires ValidSys(s) && temp.name.Temporary? && slot.name.Plain? && inode in s.tree.inodes
    ensures
      var s' := Renamed(s, temp, slot, inode);
      && ValidSys(s') && FilesOf(s'.tree) == FilesOf(s.tree)[slot := ViewOf(s.tree.inodes[inode])]
      && KeptBut(s.tree, s'.tree, slot) && Look(s'.tree, slot) == Some(FileNode(inode))
  {
  }

  lemma InstalledTouches(w: World, s: Sys, temp: Slot, slot: Slot, inode: nat)
    requires ValidSys(s) && temp.name.Temporary? && slot.name.Plain? && inode in s.tree.inodes
    ensures
      var (s', ok) := Installed(w, s, temp, slot, inode);
      && Touches(s, s', slot) && s'.next == s.next
      && (FilesOf(s'.tree) == FilesOf(s.tree) || FilesOf(s'.tree) == FilesOf(s.tree)[slot := ViewOf(s.tree.inodes[inode])])
      && (ok ==> FilesOf(s'.tree) == FilesOf(s.tree)[slot := ViewOf(s.tree.inodes[inode])]
                 && Look(s'.tree, slot) == Some(FileNode(inode)))
  {
    LaterIsStill(w, s);
    var s1 := Later(w, s);
    if !w.fails(s.clock) && !IsDirectory(s1.tree, slot) {
      RenameInstalls(s1, temp, slot, inode);
      var s2 := Renamed(s1, temp, slot, inode);
      LaterIsStill(w, s2);
      assert IsFile(s2.tree, slot);
      KeptChain(s.tree, s1.tree, s2.tree, slot);
      KeptChain(s.tree, s2.tree, Later(w, s2).tree, slot);
    }
  }

  lemma KeptChain(a: Tree, b: Tree, c: Tree, slot: Slot)
    requires KeptBut(a, b, slot) && KeptBut(b, c, slot)
    ensures KeptBut(a, c, slot)
  {
  }

  /** A copy: made or not, nothing else is touched; made, the slot holds a new file. */
  lemma CopiedTouches(w: World, s: Sys, slot: Slot, data: FileData)
    requires ValidSys(s) && slot.name.Plain?
    ensures
      var (s', ok) := Copied(w, s, slot, data);
      && Touches(s, s', slot)
      && (ok ==> FilesOf(s'.tree) == FilesOf(s.tree)[slot := ViewOf(data)] && Look(s'.tree, slot) == Some(FileNode(s.next)))
  {
    var temp := Slot(slot.dir, Temporary(s.next));
    PreparedIsInvisible(w, s, temp, data);
    var (s1, ready) := Prepared(w, s, temp, data);
    if !ready {
      DroppedIsStill(w, s1, temp);
    } else {
      InstalledTouches(w, s1, temp, slot, s.next);
      var (s2, ok) := Installed(w, s1, temp, slot, s.next);
      KeptChain(s.tree, s1.tree, s2.tree, slot);
      if !ok {
        DroppedIsStill(w, s2, temp);
        KeptChain(s.tree, s2.tree, Dropped(w, s2, temp).tree, slot);
      }
    }
  }

  lemma RemovedTouches(w: World, s: Sys, slot: Slot)
    requires ValidSys(s) && slot.name.Plain?
    ensures
      var (s', ok) := Removed(w, s, slot);
      Touches(s, s', slot) && (ok ==> FilesOf(s'.tree) == FilesOf(s.tree) - {slot})
  {
    LaterIsStill(w, s);
    var s1 := Later(w, s);
    UnlinkRemoves(s1, slot);
    var s2 := Unlinked(s1, slot);
    LaterIsStill(w, s2);
    KeptChain(s.tree, s1.tree, s2.tree, slot);
    KeptChain(s.tree, s2.tree, Later(w, s2).tree, slot);
  }

  // ------------------------------------------------------------ effects of one change

  /** A backup is of a file in the inode table. */
  predicate BackupValid(inodes: map<nat, FileData>, b: Backup) {
    match b.original
    case None => b.saved == None
    case Some(inode) => inode in inodes && b.saved == Some(ViewOf(inodes[inode]))
  }

  /** The backup holds what the slot held. */
  predicate Saved(files: Files, slot: Slot, backup: Backup) {
    match backup.saved
    case None => slot !in files
    case Some(view) => slot in files && files[slot] == view
  }

  lemma CopiedAsideSaves(w: World, s: Sys, slot: Slot, inode: nat)
    requires ValidSys(s) && slot.name.Plain? && Look(s.tree, slot) == Some(FileNode(inode))
    ensures
      var (s', backup) := CopiedAside(w, s, slot, inode);
      && Still(s, s')
      && (backup.Done? ==>
            && BackupValid(s.tree.inodes, backup.value) && backup.value.saved.Some?
            && Saved(FilesOf(s.tree), slot, backup.value))
  {
    LaterIsStill(w, s);
  }

  ghost predicate Saves(s: Sys, s': Sys, slot: Slot, kind: Kind, backup: Outcome<Backup>)
    requires ValidSys(s)
  {
    && Still(s, s')
    && (backup.Done? ==>
          && BackupValid(s.tree.inodes, backup.value) && (kind.Delete? ==> backup.value.saved.Some?)
          && Saved(FilesOf(s.tree), slot, backup.value))
  }

  lemma StillThenSaves(s: Sys, s1: Sys, s2: Sys, slot: Slot, kind: Kind, backup: Outcome<Backup>)
    requires ValidSys(s) && Still(s, s1) && Saves(s1, s2, slot, kind, backup)
    ensures Saves(s, s2, slot, kind, backup)
  {
    StillTwice(s, s1, s2);
  }

  lemma BackedUpAtSaves(w: World, s: Sys, slot: Slot, kind: Kind)
    requires ValidSys(s) && slot.name.Plain?
    ensures Saves(s, BackedUpAt(w, s, slot, kind).0, slot, kind, BackedUpAt(w, s, slot, kind).1)
  {
    LaterIsStill(w, s);
    var s1 := Later(w, s);
    if slot in s1.tree.entries && s1.tree.entries[slot].FileNode? && !w.fails(s.clock) {
      var inode := s1.tree.entries[slot].inode;
      CopiedAsideSaves(w, s1, slot, inode);
      var (s2, backup) := CopiedAside(w, s1, slot, inode);
      StillThenSaves(s, s1, s2, slot, kind, backup);
    }
  }

  /** The slot a path leads to. */
  function SlotOf(w: World, s: Sys, path: seq<string>): Option<Slot>
    requires path != []
  {
    var dir := OpenedParent(w, s, path).1;
    if dir.None? then None else Some(Slot(dir.value, Final(path)))
  }

  /** A backup changes nothing and holds what was in the slot its path led to. */
  lemma BackedUpSaves(w: World, s: Sys, change: Change)
    requires ValidSys(s) && change.path != []
    ensures
      var (s', backup) := BackedUp(w, s, change);
      match SlotOf(w, s, change.path)
      case None => Still(s, s') && backup.Failed?
      case Some(slot) => Saves(s, s', slot, change.kind, backup)
  {
    var (s1, dir) := OpenedParent(w, s, change.path);
    OpenedParentIsStill(w, s, change.path);
    if dir.Some? {
      var slot := Slot(dir.value, Final(change.path));
      BackedUpAtSaves(w, s1, slot, change.kind);
      var (s2, backup) := BackedUpAt(w, s1, slot, change.kind);
      StillThenSaves(s, s1, s2, slot, change.kind, backup);
    }
  }

  ghost predicate Holds(s: Sys, s': Sys, held: Outcome<Slot>, name: Name, backup: Backup)
    requires ValidSys(s)
  {
    && Still(s, s')
    && (held.Done? ==>
          && held.value.name == name && Saved(FilesOf(s.tree), held.value, backup)
          && Unchanged(Look(s'.tree, held.value), backup))
  }

  lemma RecheckedAtSaves(w: World, s: Sys, slot: Slot, backup: Backup)
    requires ValidSys(s) && slot.name.Plain? && BackupValid(s.tree.inodes, backup)
    ensures Holds(s, RecheckedAt(w, s, slot, backup).0, RecheckedAt(w, s, slot, backup).1, slot.name, backup)
  {
    LaterIsStill(w, s);
  }

  lemma StillThenHolds(s: Sys, s1: Sys, s2: Sys, held: Outcome<Slot>, name: Name, backup: Backup)
    requires ValidSys(s) && Still(s, s1) && Holds(s1, s2, held, name, backup)
    ensures Holds(s, s2, held, name, backup)
  {
    StillTwice(s, s1, s2);
  }

  /** A held slot holds what was backed up, in a file that has not been replaced. */
  lemma RecheckedSaves(w: World, s: Sys, change: Change, backup: Backup)
    requires ValidSys(s) && change.path != [] && BackupValid(s.tree.inodes, backup)
    ensures Holds(s, Rechecked(w, s, change, backup).0, Rechecked(w, s, change, backup).1, Final(change.path), backup)
  {
    if !w.cancels(s.clock) {
      var (s1, dir) := OpenedParent(w, s, change.path);
      OpenedParentIsStill(w, s, change.path);
      if dir.Some? {
        var slot := Slot(dir.value, Final(change.path));
        assert Rechecked(w, s, change, backup) == RecheckedAt(w, s1, slot, backup);
        StillThenRechecked(w, s, s1, slot, backup);
      } else {
        assert Rechecked(w, s, change, backup) == (s1, Failed(BadRequest));
      }
    } else {
      assert Rechecked(w, s, change, backup) == (s, Failed(Cancelled));
    }
  }

  lemma StillThenRechecked(w: World, s: Sys, s1: Sys, slot: Slot, backup: Backup)
    requires ValidSys(s) && Still(s, s1) && slot.name.Plain? && BackupValid(s.tree.inodes, backup)
    ensures Holds(s, RecheckedAt(w, s1, slot, backup).0, RecheckedAt(w, s1, slot, backup).1, slot.name, backup)
  {
    RecheckedAtSaves(w, s1, slot, backup);
    StillThenHolds(s, s1, RecheckedAt(w, s1, slot, backup).0, RecheckedAt(w, s1, slot, backup).1, slot.name, backup);
  }

  /** The effect of one change on the files, once its slot is known. */
  function Written(files: Files, slot: Slot, kind: Kind, uid: nat, gid: nat): Files {
    match kind
    case Install(bytes) => files[slot := View(uid, gid, INSTALL_MODE, bytes)]
    case Delete => files - {slot}
  }

  lemma RewrittenTouches(w: World, s: Sys, slot: Slot, kind: Kind)
    requires ValidSys(s) && slot.name.Plain?
    ensures
      var (s', ok) := Rewritten(w, s, slot, kind);
      && Touches(s, s', slot)
      && (ok ==> FilesOf(s'.tree) == Written(FilesOf(s.tree), slot, kind, w.uid, w.gid))
      && (ok && kind.Install? ==> Look(s'.tree, slot) == Some(FileNode(s.next)))
  {
    match kind
    case Install(bytes) => CopiedTouches(w, s, slot, FileData(w.uid, w.gid, 0, INSTALL_MODE, bytes));
    case Delete => RemovedTouches(w, s, slot);
  }

  function PutBack(files: Files, slot: Slot, backup: Backup): Files {
    match backup.saved
    case None => files - {slot}
    case Some(view) => files[slot := view]
  }

  lemma RestoredPutsBack(w: World, s: Sys, slot: Slot, backup: Backup)
    requires ValidSys(s) && slot.name.Plain?
    ensures
      var (s', ok) := Restored(w, s, slot, backup);
      ValidSys(s') && (ok ==> FilesOf(s'.tree) == PutBack(FilesOf(s.tree), slot, backup))
  {
    LaterIsStill(w, s);
    var s1 := Later(w, s);
    match backup.saved {
      case Some(view) => CopiedTouches(w, s1, slot, FileData(view.uid, view.gid, 0, view.mode, view.bytes));
      case None => RemovedTouches(w, s1, slot);
    }
    if slot !in s1.tree.entries {
      RemovingNothing(FilesOf(s1.tree), slot);
    }
  }

  lemma RemovingNothing(files: Files, slot: Slot)
    requires slot !in files
    ensures files - {slot} == files
  {
  }
}
