/**
 The workspace file system as far as a source update can see it: directory entries keyed by
 directory identity and name, and an inode table that is only ever extended.
 */
module WorkspaceFiles {
  import opened Common

  /** Temporary names are generated per copy and never clash with a declared path. */
  datatype Name = Plain(text: string) | Temporary(serial: nat)

  datatype Slot = Slot(dir: nat, name: Name)

  /** The nine permission bits, 0o777. */
  type Permissions = m: nat | m < 512

  /** A regular file: owner, group, set-id and sticky bits, permissions and contents. */
  datatype FileData = FileData(uid: nat, gid: nat, special: nat, mode: Permissions, bytes: seq<nat>)

  /** What occupies a slot; `Special` stands for symlinks, sockets and devices. */
  datatype Node = FileNode(inode: nat) | Directory(id: nat) | Special

  datatype Tree = Tree(entries: map<Slot, Node>, inodes: map<nat, FileData>)

  predicate ValidTree(t: Tree) {
    forall s <- t.entries :: t.entries[s].FileNode? ==> t.entries[s].inode in t.inodes
  }

  /** What a backup preserves of a file: contents, owner, group and nine permission bits. */
  datatype View = View(uid: nat, gid: nat, mode: Permissions, bytes: seq<nat>)

  type Files = map<Slot, View>

  function ViewOf(d: FileData): View {
    View(d.uid, d.gid, d.mode, d.bytes)
  }

  predicate IsFile(t: Tree, s: Slot) {
    s in t.entries && t.entries[s].FileNode?
  }

  /** All regular files with ordinary names. */
  function FilesOf(t: Tree): Files
    requires ValidTree(t)
  {
    map s <- t.entries | s.name.Plain? && t.entries[s].FileNode? :: ViewOf(t.inodes[t.entries[s].inode])
  }

  /** Task processes may rename directories and plant or remove links, but leave regular files alone. */
  ghost predicate FilesKept(t: Tree, t': Tree) {
    && t'.inodes == t.inodes
    && (forall s :: IsFile(t, s) <==> IsFile(t', s))
    && (forall s :: IsFile(t, s) ==> t'.entries[s] == t.entries[s])
  }

  lemma KeptFilesLookTheSame(t: Tree, t': Tree)
    requires ValidTree(t) && FilesKept(t, t')
    ensures ValidTree(t') && FilesOf(t') == FilesOf(t)
  {
    forall s <- t'.entries | t'.entries[s].FileNode? ensures t'.entries[s].inode in t'.inodes {
      assert IsFile(t', s);
    }
    forall s ensures s in FilesOf(t') <==> s in FilesOf(t) {
      assert IsFile(t, s) <==> IsFile(t', s);
    }
    forall s <- FilesOf(t) ensures FilesOf(t')[s] == FilesOf(t)[s] {
      assert IsFile(t, s);
    }
  }

  // -------------------------------------------------------------- path walks

  /** Follow directory components without following links. */
  function Walk(t: Tree, dir: nat, components: seq<string>): Option<nat>
    decreases |components|
  {
    if components == [] then Some(dir)
    else
      var slot := Slot(dir, Plain(components[0]));
      if slot in t.entries && t.entries[slot].Directory? then Walk(t, t.entries[slot].id, components[1..])
      else None
  }

  /** Directories form a tree: no directory has two entries and the root has none. */
  ghost predicate TreeShaped(t: Tree, root: nat) {
    && (forall s <- t.entries :: t.entries[s].Directory? ==> t.entries[s].id != root)
    && (forall a <- t.entries, b <- t.entries ::
          t.entries[a].Directory? && t.entries[a] == t.entries[b] ==> a == b)
  }

  lemma {:induction false} WalkLast(t: Tree, dir: nat, components: seq<string>)
    requires components != [] && Walk(t, dir, components).Some?
    ensures
      var n := |components| - 1;
      && Walk(t, dir, components[..n]).Some?
      && var slot := Slot(Walk(t, dir, components[..n]).value, Plain(components[n]));
         slot in t.entries && t.entries[slot] == Directory(Walk(t, dir, components).value)
    decreases |components|
  {
    var n := |components| - 1;
    if n == 0 {
      assert components[1..] == [] && components[..0] == [];
    } else {
      var next := t.entries[Slot(dir, Plain(components[0]))].id;
      WalkLast(t, next, components[1..]);
      assert components[1..][..n - 1] == components[..n][1..];
    }
  }

  /** At one instant a directory is reached by one path only. */
  lemma {:induction false} OnePathPerDirectory(t: Tree, root: nat, a: seq<string>, b: seq<string>)
    requires TreeShaped(t, root)
    requires Walk(t, root, a).Some? && Walk(t, root, a) == Walk(t, root, b)
    ensures a == b
    decreases |a| + |b|
  {
    if a != [] {
      WalkLast(t, root, a);
    }
    if b != [] {
      WalkLast(t, root, b);
    }
    if a != [] && b != [] {
      OnePathPerDirectory(t, root, a[..|a| - 1], b[..|b| - 1]);
      assert a == a[..|a| - 1] + [a[|a| - 1]];
      assert b == b[..|b| - 1] + [b[|b| - 1]];
    }
  }
}
