/** Writing an accepted archive into an empty workspace. */
module SourceExtraction {
  import opened Common
  import opened Paths
  import opened Scans
  import opened SourceTree

  /** Permission bits are kept as the low nine bits; `None` is left to the file system. */
  datatype Node =
    | Directory(mode: Option<nat>)
    | Regular(data: string, mode: Option<nat>)
    | Link(target: string)

  type Nodes = map<string, Node>

  function Permissions(mode: Option<nat>): Option<nat> {
    if mode.None? then None else Some(mode.value % 512)
  }

  function NodeOf(e: ZipEntry): Node {
    if e.isDir then Directory(Permissions(e.mode))
    else if e.isSymlink then Link(e.data)
    else Regular(e.data, Permissions(e.mode))
  }

  /** The entry that archives a node: file type 4, 8 or 10 above the permissions. */
  function EntryFor(path: string, node: Node): ZipEntry {
    match node
    case Directory(mode) =>
      ZipEntry(path + "/", true, false, if mode.None? then None else Some(0x4000 + mode.value), 0, "", true)
    case Regular(data, mode) =>
      ZipEntry(path, false, false, if mode.None? then None else Some(0x8000 + mode.value), |data|, data, true)
    case Link(target) => ZipEntry(path, false, true, Some(0xA1FF), |target|, target, true)
  }

  /** Whatever node a tree may hold, some accepted entry of that path is extracted to it. */
  lemma EveryNodeCanBeArchived(path: string, node: Node, maxDepth: nat)
    requires NormalizedPath(path, false, maxDepth) == Some(path)
    requires !node.Link? && node.mode.Some? ==> node.mode.value < 512
    ensures NodeOf(EntryFor(path, node)) == node && Trimmed(EntryFor(path, node).name, node.Directory?) == path
    ensures EntryAccepted(EntryFor(path, node), maxDepth) <==> (node.Link? ==> TargetAccepted(path, node.target))
  {
    EndSlashMeansEmpty(path);
    NameWithoutSlash(path, maxDepth);
    EndSlashIsIgnored(path, maxDepth);
  }

  lemma EndSlashMeansEmpty(path: string)
    ensures path != "" && path[|path| - 1] == '/' ==> "" in Split(path)
  {
    if path != "" && path[|path| - 1] == '/' {
      LastIsEmpty(path);
      assert Split(path)[|Split(path)| - 1] in Split(path);
    }
  }

  lemma {:induction false} LastIsEmpty(path: string)
    requires path != "" && path[|path| - 1] == '/'
    ensures Split(path)[|Split(path)| - 1] == "" && |Split(path)| >= 2
  {
    if |path| > 1 {
      LastIsEmpty(path[1..]);
    } else {
      assert path[1..] == "";
    }
  }

  function PathOf(folding: bool, e: ZipEntry): string {
    Lookup(folding, Trimmed(e.name, e.isDir))
  }

  function ExtractedBytes(e: ZipEntry): nat {
    if e.isDir then 0 else |e.data|
  }

  function ExtractedTotal(entries: seq<ZipEntry>): nat {
    if entries == [] then 0
    else ExtractedTotal(entries[..|entries| - 1]) + ExtractedBytes(entries[|entries| - 1])
  }

  function EntryPaths(folding: bool, entries: seq<ZipEntry>): set<string> {
    set e <- entries :: PathOf(folding, e)
  }

  function ParentPaths(folding: bool, entries: seq<ZipEntry>): set<string> {
    set e <- entries, a <- Ancestors(PathOf(folding, e)) :: a
  }

  predicate Placed(nodes: Nodes, folding: bool, e: ZipEntry) {
    PathOf(folding, e) in nodes && nodes[PathOf(folding, e)] == NodeOf(e)
  }

  /** Nothing beside `own` and `parents`; what is only a parent is a plain directory. */
  predicate Spans(nodes: Nodes, own: set<string>, parents: set<string>) {
    && nodes.Keys == own + parents
    && forall x <- parents :: x !in own ==> nodes[x] == Directory(None)
  }

  /** The tree an archive describes: its entries, plus the directories above them. */
  predicate IsTreeOf(nodes: Nodes, folding: bool, entries: seq<ZipEntry>) {
    && Spans(nodes, EntryPaths(folding, entries), ParentPaths(folding, entries))
    && forall e <- entries :: Placed(nodes, folding, e)
  }

  lemma SameEntriesSamePaths(folding: bool, a: seq<ZipEntry>, b: seq<ZipEntry>)
    requires multiset(a) == multiset(b)
    ensures forall e :: e in a <==> e in b
    ensures EntryPaths(folding, a) == EntryPaths(folding, b)
    ensures ParentPaths(folding, a) == ParentPaths(folding, b)
  {
    forall e ensures e in a <==> e in b {
      assert e in a <==> e in multiset(a);
      assert e in b <==> e in multiset(b);
    }
  }

  /** That description determines the tree, whatever the order of the entries. */
  lemma TreeIsUnique(s: Nodes, t: Nodes, folding: bool, a: seq<ZipEntry>, b: seq<ZipEntry>)
    requires multiset(a) == multiset(b)
    requires IsTreeOf(s, folding, a) && IsTreeOf(t, folding, b)
    ensures s == t
  {
    SameEntriesSamePaths(folding, a, b);
    assert s.Keys == t.Keys by {
      assert s.Keys == EntryPaths(folding, a) + ParentPaths(folding, a);
    }
    SameNodes(s, t, folding, a, b);
  }

  lemma SameNodes(s: Nodes, t: Nodes, folding: bool, a: seq<ZipEntry>, b: seq<ZipEntry>)
    requires IsTreeOf(s, folding, a) && IsTreeOf(t, folding, b) && s.Keys == t.Keys
    requires (forall e <- a :: e in b) && EntryPaths(folding, a) == EntryPaths(folding, b)
    ensures s == t
  {
    forall x <- s ensures s[x] == t[x] {
      SameNode(s, t, folding, a, b, x);
    }
  }

  lemma SameNode(s: Nodes, t: Nodes, folding: bool, a: seq<ZipEntry>, b: seq<ZipEntry>, x: string)
    requires IsTreeOf(s, folding, a) && IsTreeOf(t, folding, b) && x in s && x in t
    requires (forall e <- a :: e in b) && EntryPaths(folding, a) == EntryPaths(folding, b)
    ensures s[x] == t[x]
  {
    if x in EntryPaths(folding, a) {
      var e :| e in a && x == PathOf(folding, e);
      assert Placed(s, folding, e) && Placed(t, folding, e);
    }
  }

  /** `create_dir_all`: every named directory exists afterwards. */
  function WithDirectories(nodes: Nodes, paths: set<string>): Nodes {
    map x <- nodes.Keys + paths :: if x in nodes then nodes[x] else Directory(None)
  }

  /** The directory at `at` and all above it exist, and a given mode has been set. */
  function WithDirectory(nodes: Nodes, at: string, mode: Option<nat>): Nodes {
    var made := WithDirectories(nodes, Ancestors(at) + {at});
    if mode.None? then made else made[at := Directory(Permissions(mode))]
  }

  lemma WithDirectoriesGrows(nodes: Nodes, paths: set<string>, at: string)
    ensures
      var before := WithDirectories(nodes, paths);
      && WithDirectories(nodes, paths + {at}) == (if at in before then before else before[at := Directory(None)])
      && (Passable(nodes, paths + {at}) <==> Passable(nodes, paths) && (at in before ==> before[at].Directory?))
  {
  }

  lemma NotItsOwnParent(nodes: Nodes, at: string)
    ensures at in WithDirectories(nodes, Ancestors(at)) <==> at in nodes
  {
    AncestorsAreAbove(at, at);
  }

  lemma SpansGrows(nodes: Nodes, own: set<string>, parents: set<string>, p: string, above: set<string>, node: Node)
    requires Spans(nodes, own, parents)
    ensures Spans(WithDirectories(nodes, above)[p := node], own + {p}, parents + above)
  {
  }

  predicate Passable(nodes: Nodes, paths: set<string>) {
    forall x <- paths :: x in nodes ==> nodes[x].Directory?
  }

  /** Every ancestor of a new entry is missing or a directory, and its own place is free. */
  lemma RoomForEntry(nodes: Nodes, folding: bool, entries: seq<ZipEntry>, e: ZipEntry)
    requires IsTreeOf(nodes, folding, entries) && Fits(Items(entries), ItemOf(e))
    ensures Passable(nodes, Ancestors(PathOf(folding, e)))
    ensures PathOf(folding, e) in nodes ==> e.isDir && nodes[PathOf(folding, e)] == Directory(None)
    ensures PathOf(folding, e) !in EntryPaths(folding, entries)
  {
    FitsMeansNoCollision(Items(entries), ItemOf(e));
    var p := PathOf(folding, e);
    forall d <- entries
      ensures PathOf(folding, d) != p
      ensures PathOf(folding, d) in Ancestors(p) ==> d.isDir
      ensures p in Ancestors(PathOf(folding, d)) ==> e.isDir
    {
      var i :| 0 <= i < |entries| && entries[i] == d;
      assert Items(entries)[i] == ItemOf(d);
      PathsDoNotCollide(folding, d, e);
    }
    forall x <- Ancestors(p) | x in nodes ensures nodes[x].Directory? {
      if x in EntryPaths(folding, entries) {
        var d :| d in entries && PathOf(folding, d) == x;
      }
    }
  }

  lemma PathsDoNotCollide(folding: bool, d: ZipEntry, e: ZipEntry)
    requires !Collide(ItemOf(d), ItemOf(e))
    ensures PathOf(folding, d) != PathOf(folding, e)
    ensures PathOf(folding, d) in Ancestors(PathOf(folding, e)) ==> d.isDir
    ensures PathOf(folding, e) in Ancestors(PathOf(folding, d)) ==> e.isDir
  {
    var a, b := PathOf(folding, d), PathOf(folding, e);
    AncestorsAreAbove(a, b);
    AncestorsAreAbove(b, a);
    if !folding && Above(a, b) {
      LookupKeepsAbove(true, a, b);
    }
    if !folding && Above(b, a) {
      LookupKeepsAbove(true, b, a);
    }
  }

  lemma TreeGrows(nodes: Nodes, folding: bool, entries: seq<ZipEntry>, e: ZipEntry)
    requires IsTreeOf(nodes, folding, entries)
    requires PathOf(folding, e) !in EntryPaths(folding, entries)
    ensures IsTreeOf(WithDirectories(nodes, Ancestors(PathOf(folding, e)))[PathOf(folding, e) := NodeOf(e)],
                     folding, entries + [e])
  {
    var p, longer := PathOf(folding, e), entries + [e];
    PathsGrow(folding, entries, e);
    SpansGrows(nodes, EntryPaths(folding, entries), ParentPaths(folding, entries), p, Ancestors(p), NodeOf(e));
    var now := WithDirectories(nodes, Ancestors(p))[p := NodeOf(e)];
    forall d <- longer ensures Placed(now, folding, d) {
      if d in entries {
        assert Placed(nodes, folding, d) && PathOf(folding, d) in EntryPaths(folding, entries);
      }
    }
  }

  lemma PathsGrow(folding: bool, entries: seq<ZipEntry>, e: ZipEntry)
    ensures EntryPaths(folding, entries + [e]) == EntryPaths(folding, entries) + {PathOf(folding, e)}
    ensures ParentPaths(folding, entries + [e]) == ParentPaths(folding, entries) + Ancestors(PathOf(folding, e))
  {
    var longer := entries + [e];
    assert longer[|entries|] == e;
    forall d <- entries ensures d in longer {
    }
  }

  class Workspace {
    const folding: bool
    var nodes: Nodes

    constructor (folding: bool)
      ensures nodes == map[] && this.folding == folding
    {
      this.folding := folding;
      nodes := map[];
    }

    /**
     * Creates the missing directories from the top down. A symbolic link on the way counts as
     * an obstacle, so that success also says no link was followed.
     */
    method CreateDirAll(path: string, count: nat) returns (ok: bool)
      requires count <= |Split(path)|
      modifies this
      ensures ok <==> Passable(old(nodes), LeadingJoins(folding, path, count))
      ensures ok ==> nodes == WithDirectories(old(nodes), LeadingJoins(folding, path, count))
    {
      for k := 0 to count
        invariant Passable(old(nodes), LeadingJoins(folding, path, k))
        invariant nodes == WithDirectories(old(nodes), LeadingJoins(folding, path, k))
      {
        var at := Lookup(folding, Join(Split(path)[..k + 1]));
        LeadingJoinsGrow(folding, path, k);
        WithDirectoriesGrows(old(nodes), LeadingJoins(folding, path, k), at);
        if at in nodes {
          if !nodes[at].Directory? {
            assert LeadingJoins(folding, path, k + 1) <= LeadingJoins(folding, path, count);
            return false;
          }
        } else {
          nodes := nodes[at := Directory(None)];
        }
      }
      return true;
    }

    method MakeDirectory(path: string, mode: Option<nat>) returns (ok: bool)
      modifies this
      ensures ok <==> Passable(old(nodes), Ancestors(Lookup(folding, path)) + {Lookup(folding, path)})
      ensures ok ==> nodes == WithDirectory(old(nodes), Lookup(folding, path), mode)
    {
      var at := Lookup(folding, path);
      AllLeadingJoins(folding, path);
      ok := CreateDirAll(path, |Split(path)|);
      if ok && mode.Some? {
        nodes := nodes[at := Directory(Some(mode.value % 512))];
      }
    }

    /** Creates the parents and then the file itself, which must not exist. */
    method MakeFile(path: string, node: Node) returns (ok: bool)
      modifies this
      ensures ok <==>
              && Passable(old(nodes), Ancestors(Lookup(folding, path)))
              && Lookup(folding, path) !in old(nodes)
      ensures ok ==>
                nodes == WithDirectories(old(nodes), Ancestors(Lookup(folding, path)))[Lookup(folding, path) := node]
    {
      var at := Lookup(folding, path);
      LeadingJoinsAreAncestors(folding, path);
      NotItsOwnParent(nodes, at);
      ok := CreateDirAll(path, |Split(path)| - 1);
      if !ok || at in nodes {
        return false;
      }
      nodes := nodes[at := node];
    }

    /** One turn of the extraction loop; `total` is the running size after it. */
    method WriteEntry(e: ZipEntry, limits: Limits, before: nat, ghost entries: seq<ZipEntry>)
      returns (ok: bool, total: nat)
      requires EntryAccepted(e, limits.maxDepth) && Fits(Items(entries), ItemOf(e))
      requires IsTreeOf(nodes, folding, entries) && before <= U64_MAX && before <= limits.maxBytes
      modifies this
      ensures ok <==> SaturatingAdd(before, ExtractedBytes(e)) <= limits.maxBytes
      ensures ok ==> total == SaturatingAdd(before, ExtractedBytes(e)) && IsTreeOf(nodes, folding, entries + [e])
    {
      RoomForEntry(nodes, folding, entries, e);
      TreeGrows(nodes, folding, entries, e);
      var path := NormalizedPath(e.name, e.isDir, limits.maxDepth).value;
      if e.isDir {
        DirectoryInPlace(nodes, PathOf(folding, e), e.mode);
        ok := MakeDirectory(path, e.mode);
        return ok, before;
      }
      var data;
      ok, total, data := CopyData(e.data, before, limits.maxBytes, 8192);
      if ok {
        ok := MakeFile(path, if e.isSymlink then Link(data) else Regular(data, Permissions(e.mode)));
      }
    }

    /** Preflights the archive, then writes it entry by entry. */
    method Extract(entries: seq<ZipEntry>, limits: Limits) returns (ok: bool)
      requires nodes == map[]
      modifies this
      ensures ok <==> Acceptable(entries, limits) && Min(ExtractedTotal(entries), U64_MAX) <= limits.maxBytes
      ensures ok ==> IsTreeOf(nodes, folding, entries)
    {
      ok := Preflight(entries, limits);
      if ok {
        AcceptableIsScanned(entries, limits);
        HoldingStands(limits);
        ok := WriteAll(entries, limits, Judging(limits), Holding());
        WholeTree(nodes, entries);
      }
    }

    function Holding(): (Nodes, seq<ZipEntry>) -> bool {
      (nodes: Nodes, front: seq<ZipEntry>) => IsTreeOf(nodes, folding, front)
    }

    lemma HoldingStands(limits: Limits)
      ensures Stand(Judging(limits), Holding(), limits) && Holding()(map[], [])
    {
    }

    lemma WholeTree(nodes: Nodes, entries: seq<ZipEntry>)
      ensures Holding()(nodes, entries) == IsTreeOf(nodes, folding, entries)
    {
    }

    ghost predicate Stand(fits: Judge, holds: (Nodes, seq<ZipEntry>) -> bool, limits: Limits) {
      && (forall front, e {:trigger Passes(front, e, limits)} :: fits(front, e) == Passes(front, e, limits))
      && (forall nodes, front {:trigger IsTreeOf(nodes, folding, front)} ::
            holds(nodes, front) == IsTreeOf(nodes, folding, front))
    }

    method WriteNext(e: ZipEntry, limits: Limits, before: nat, ghost front: seq<ZipEntry>,
                     ghost fits: Judge, ghost holds: (Nodes, seq<ZipEntry>) -> bool)
      returns (ok: bool, total: nat)
      requires Stand(fits, holds, limits) && fits(front, e) && holds(nodes, front)
      requires before <= U64_MAX && before <= limits.maxBytes
      modifies this
      ensures ok <==> SaturatingAdd(before, ExtractedBytes(e)) <= limits.maxBytes
      ensures ok ==> total == SaturatingAdd(before, ExtractedBytes(e)) && holds(nodes, front + [e])
    {
      assert fits(front, e) == Passes(front, e, limits);
      assert holds(nodes, front) == IsTreeOf(nodes, folding, front);
      ok, total := WriteEntry(e, limits, before, front);
      assert holds(nodes, front + [e]) == IsTreeOf(nodes, folding, front + [e]);
    }

    /** The loop; what fits and what a tree holds is settled in `WriteNext`. */
    method WriteAll(entries: seq<ZipEntry>, limits: Limits,
                    ghost fits: Judge, ghost holds: (Nodes, seq<ZipEntry>) -> bool)
      returns (ok: bool)
      requires Stand(fits, holds, limits) && Scanned(fits, entries) && holds(nodes, [])
      modifies this
      ensures ok <==> Min(ExtractedTotal(entries), U64_MAX) <= limits.maxBytes
      ensures ok ==> holds(nodes, entries)
    {
      var total := 0;
      for i := 0 to |entries|
        invariant holds(nodes, entries[..i])
        invariant total == Min(ExtractedTotal(entries[..i]), U64_MAX) <= limits.maxBytes
      {
        ScannedPrefix(fits, entries, i + 1);
        ScannedOneMore(fits, entries, i);
        NextTotal(entries, i);
        TotalsAscend(entries, i + 1);
        ok, total := WriteNext(entries[i], limits, total, entries[..i], fits, holds);
        if !ok {
          return;
        }
        assert entries[..i + 1] == entries[..i] + [entries[i]];
      }
      assert entries[..|entries|] == entries;
      return true;
    }
  }

  /** Reads an entry `chunk` bytes at a time, stopping once the running size is over the limit. */
  method CopyData(data: string, before: nat, maxBytes: nat, chunk: nat) returns (ok: bool, total: nat, copy: string)
    requires before <= U64_MAX && before <= maxBytes && chunk > 0
    ensures ok <==> SaturatingAdd(before, |data|) <= maxBytes
    ensures ok ==> copy == data && total == SaturatingAdd(before, |data|)
  {
    copy, total := "", before;
    while |copy| < |data|
      invariant |copy| <= |data| && copy == data[..|copy|]
      invariant total == SaturatingAdd(before, |copy|) <= maxBytes
    {
      var bytes := Min(chunk, |data| - |copy|);
      total := SaturatingAdd(total, bytes);
      if total > maxBytes {
        return false, total, copy;
      }
      copy := copy + data[|copy|..|copy| + bytes];
    }
    return true, total, copy;
  }

  lemma DirectoryInPlace(nodes: Nodes, at: string, mode: Option<nat>)
    requires Passable(nodes, Ancestors(at))
    requires at in nodes ==> nodes[at] == Directory(None)
    ensures Passable(nodes, Ancestors(at) + {at})
    ensures WithDirectory(nodes, at, mode) ==
            WithDirectories(nodes, Ancestors(at))[at := Directory(Permissions(mode))]
  {
    var above := Ancestors(at);
    assert forall x <- WithDirectories(nodes, above + {at}) ::
             x != at ==> x in nodes.Keys + above;
  }

  lemma NextTotal(entries: seq<ZipEntry>, i: nat)
    requires i < |entries|
    ensures ExtractedTotal(entries[..i + 1]) == ExtractedTotal(entries[..i]) + ExtractedBytes(entries[i])
  {
    assert entries[..i + 1][..i] == entries[..i];
  }

  lemma {:induction false} TotalsAscend(entries: seq<ZipEntry>, k: nat)
    requires k <= |entries|
    ensures ExtractedTotal(entries[..k]) <= ExtractedTotal(entries)
  {
    if k == |entries| {
      assert entries[..k] == entries;
    } else {
      var front := entries[..|entries| - 1];
      TotalsAscend(front, k);
      assert front[..k] == entries[..k];
    }
  }
}
