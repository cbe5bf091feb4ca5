/** The client's side: planning a source package, and what the daemon makes of it. */
module SourcePackaging {
  import opened Common
  import opened Paths
  import opened SourceTree
  import opened SourceExtraction

  const MAX_FILES: nat := 50_000
  const MAX_DEPTH: nat := 64
  const MAX_UNCOMPRESSED_BYTES: nat := 1_342_177_280

  /** `data` is what packaging reads: a file's bytes, or a link's target. */
  datatype Planned = Planned(path: string, isLink: bool, executable: bool, data: string, utf8: bool)

  // ------------------------------------------------------------------------ paths

  predicate ComponentAccepted(c: string) {
    c != "" && c != "." && c != ".." && Fold(c) != ".git" && Fold(c) != ".jj"
  }

  predicate PathAccepted(path: string) {
    && path != "" && |path| <= 4096 && PlainCharacters(path)
    && |Split(path)| <= MAX_DEPTH
    && forall c <- Split(path) :: ComponentAccepted(c)
  }

  /** The client's path rule is the daemon's, plus three limits of its own. */
  lemma ClientPathRule(path: string)
    ensures PathAccepted(path) <==>
            && NormalizedPath(path, false, MAX_DEPTH) == Some(path)
            && |path| <= 4096
            && (forall c <- Split(path) :: Fold(c) != ".git" && Fold(c) != ".jj")
  {
    if NormalizedPath(path, false, MAX_DEPTH).Some? && forall c <- Split(path) :: Fold(c) != ".git" && Fold(c) != ".jj" {
      assert forall c <- Split(path) :: ComponentAccepted(c);
    }
    if forall c <- Split(path) :: ComponentAccepted(c) {
      assert Plain(path);
    }
  }

  /** A character of the most portable names. */
  predicate Portable(c: char) {
    'a' <= c <= 'z' || 'A' <= c <= 'Z' || '0' <= c <= '9' || c == '-' || c == '_'
  }

  predicate PortableName(name: string) {
    name != "" && forall c <- name :: Portable(c)
  }

  lemma {:induction false} JoinedCharacters(components: seq<string>, c: char)
    requires c in Join(components)
    ensures c == '/' || exists name <- components :: c in name
  {
    if |components| > 1 {
      if c in Join(components[1..]) {
        JoinedCharacters(components[1..], c);
      } else if c != '/' {
        assert c in components[0];
      }
    } else if |components| == 1 {
      assert components[0] in components;
    }
  }

  /** Paths of portable names are accepted on both sides, up to depth and length. */
  lemma PortablePathsAreAccepted(components: seq<string>, isDir: bool, maxDepth: nat)
    requires components != [] && forall name <- components :: PortableName(name)
    ensures NormalizedPath(Join(components), isDir, maxDepth) ==
            if |components| <= maxDepth then Some(Join(components)) else None
    ensures PathAccepted(Join(components)) <==> |components| <= MAX_DEPTH && |Join(components)| <= 4096
  {
    var path := Join(components);
    SplitOfJoin(components);
    forall c <- path ensures Portable(c) || c == '/' {
      JoinedCharacters(components, c);
    }
    forall name <- components ensures ComponentAccepted(name) {
      assert Portable(name[0]) && Fold(name)[0] != '.';
    }
    LastCharacter(components);
    assert Trimmed(path, isDir) == path;
  }

  lemma {:induction false} LastCharacter(components: seq<string>)
    requires components != [] && forall name <- components :: PortableName(name)
    ensures Join(components) != "" && Portable(Join(components)[|Join(components)| - 1])
  {
    assert components[0] in components;
    if |components| > 1 {
      LastCharacter(components[1..]);
    }
  }

  // -------------------------------------------------------------------- byte order

  /** Comparison of paths as byte strings. */
  predicate AtMost(a: string, b: string) {
    a == "" || (b != "" && (a[0] < b[0] || (a[0] == b[0] && AtMost(a[1..], b[1..]))))
  }

  lemma {:induction false} AtMostIsTotal(a: string, b: string)
    ensures AtMost(a, b) || AtMost(b, a)
  {
    if a != "" && b != "" && a[0] == b[0] {
      AtMostIsTotal(a[1..], b[1..]);
    }
  }

  lemma {:induction false} AtMostIsTransitive(a: string, b: string, c: string)
    requires AtMost(a, b) && AtMost(b, c)
    ensures AtMost(a, c)
  {
    if a != "" && a[0] == b[0] == c[0] {
      AtMostIsTransitive(a[1..], b[1..], c[1..]);
    }
  }

  /** The first difference decides, and where there is none the shorter comes first. */
  lemma {:induction false} FirstDifferenceDecides(a: string, b: string)
    ensures AtMost(a, b) <==>
            a <= b || exists k :: 0 <= k < |a| && k < |b| && a[..k] == b[..k] && a[k] < b[k]
  {
    if a != "" && b != "" && a[0] == b[0] {
      FirstDifferenceDecides(a[1..], b[1..]);
      assert a <= b <==> a[1..] <= b[1..];
      if k :| 0 <= k < |a[1..]| && k < |b[1..]| && a[1..][..k] == b[1..][..k] && a[1..][k] < b[1..][k] {
        assert a[..k + 1] == [a[0]] + a[1..][..k] && b[..k + 1] == [b[0]] + b[1..][..k];
        assert a[..k + 1] == b[..k + 1] && a[k + 1] < b[k + 1];
      }
      if k :| 0 <= k < |a| && k < |b| && a[..k] == b[..k] && a[k] < b[k] {
        assert k > 0 && a[1..][..k - 1] == a[..k][1..] && b[1..][..k - 1] == b[..k][1..];
        assert a[1..][k - 1] < b[1..][k - 1];
      }
    } else if a != "" && b != "" {
      if a[0] < b[0] {
        assert a[..0] == b[..0];
      }
      forall k | 0 < k < |a| && k < |b| ensures a[..k] != b[..k] {
        assert a[..k][0] != b[..k][0];
      }
    }
  }

  predicate Sorted(plan: seq<Planned>) {
    forall i, j :: 0 <= i < j < |plan| ==> AtMost(plan[i].path, plan[j].path)
  }

  function Inserted(p: Planned, plan: seq<Planned>): (r: seq<Planned>)
    requires Sorted(plan)
    ensures multiset(r) == multiset(plan) + multiset{p}
    ensures Sorted(r)
  {
    if plan == [] then [p]
    else if AtMost(p.path, plan[0].path) then
      InsertedFirst(p, plan);
      [p] + plan
    else
      InsertedLater(p, plan);
      [plan[0]] + Inserted(p, plan[1..])
  }

  lemma InsertedFirst(p: Planned, plan: seq<Planned>)
    requires Sorted(plan) && plan != [] && AtMost(p.path, plan[0].path)
    ensures Sorted([p] + plan) && multiset([p] + plan) == multiset(plan) + multiset{p}
  {
    forall j | 0 < j <= |plan| ensures AtMost(p.path, ([p] + plan)[j].path) {
      if j > 1 {
        AtMostIsTransitive(p.path, plan[0].path, plan[j - 1].path);
      }
    }
  }

  lemma InsertedLater(p: Planned, plan: seq<Planned>)
    requires Sorted(plan) && plan != [] && !AtMost(p.path, plan[0].path)
    ensures Sorted(plan[1..]) && plan == [plan[0]] + plan[1..]
    ensures forall r: seq<Planned> ::
              Sorted(r) && multiset(r) == multiset(plan[1..]) + multiset{p} ==>
                Sorted([plan[0]] + r) && multiset([plan[0]] + r) == multiset(plan) + multiset{p}
  {
    assert plan == [plan[0]] + plan[1..];
    AtMostIsTotal(p.path, plan[0].path);
    forall r: seq<Planned> | Sorted(r) && multiset(r) == multiset(plan[1..]) + multiset{p}
      ensures Sorted([plan[0]] + r)
    {
      forall x <- r ensures AtMost(plan[0].path, x.path) {
        assert x in multiset(r);
        if x != p {
          assert x in multiset(plan[1..]);
          var i :| 0 <= i < |plan[1..]| && plan[1..][i] == x;
          assert plan[i + 1] == x;
        }
      }
    }
  }

  function SortedByPath(plan: seq<Planned>): (r: seq<Planned>)
    ensures multiset(r) == multiset(plan)
    ensures Sorted(r)
    ensures |r| == |plan|
  {
    if plan == [] then []
    else
      assert plan == [plan[0]] + plan[1..];
      var r := Inserted(plan[0], SortedByPath(plan[1..]));
      assert |multiset(r)| == |multiset(plan)|;
      r
  }

  // ------------------------------------------------------------------- the archive

  /** Modes 0o120777, 0o100755 and 0o100644. */
  function ModeOf(p: Planned): nat {
    if p.isLink then 0xA1FF else if p.executable then 0x81ED else 0x81A4
  }

  function EntryOf(p: Planned): ZipEntry {
    ZipEntry(p.path, false, p.isLink, Some(ModeOf(p)), |p.data|, p.data, p.utf8)
  }

  function ArchiveOf(plan: seq<Planned>): (r: seq<ZipEntry>)
    ensures |r| == |plan|
    ensures forall i :: 0 <= i < |plan| ==> r[i] == EntryOf(plan[i])
  {
    seq(|plan|, i requires 0 <= i < |plan| => EntryOf(plan[i]))
  }

  lemma ArchiveWithout(plan: seq<Planned>, j: nat)
    requires j < |plan|
    ensures multiset(ArchiveOf(plan)) == multiset(ArchiveOf(Without(plan, j))) + multiset{EntryOf(plan[j])}
  {
    SplitMultiset(ArchiveOf(plan), j);
    assert ArchiveOf(Without(plan, j)) == Without(ArchiveOf(plan), j);
  }

  lemma {:induction false} ArchiveIgnoresOrder(a: seq<Planned>, b: seq<Planned>)
    requires multiset(a) == multiset(b)
    ensures multiset(ArchiveOf(a)) == multiset(ArchiveOf(b))
    decreases |a|
  {
    SameLength(a, b);
    if a == [] {
      assert ArchiveOf(a) == ArchiveOf(b);
    } else {
      var n := |a| - 1;
      var j := FindInShuffle(a, b);
      ArchiveIgnoresOrder(a[..n], Without(b, j));
      assert Without(a, n) == a[..n];
      ArchiveWithout(a, n);
      ArchiveWithout(b, j);
    }
  }

  predicate PathsAccepted(plan: seq<Planned>) {
    forall p <- plan :: PathAccepted(p.path)
  }

  /** What the planner accepts, said of the plan as a whole. */
  predicate PlanAccepted(plan: seq<Planned>) {
    && |plan| <= MAX_FILES
    && PathsAccepted(plan)
    && NoCollisions(Items(ArchiveOf(plan)))
  }

  lemma PlanIgnoresOrder(a: seq<Planned>, b: seq<Planned>)
    requires multiset(a) == multiset(b)
    ensures PlanAccepted(a) <==> PlanAccepted(b)
  {
    ArchiveIgnoresOrder(a, b);
    NoCollisionsIgnoresOrder(ArchiveOf(a), ArchiveOf(b));
    SameLength(a, b);
    forall p ensures p in a <==> p in b {
      assert p in a <==> p in multiset(a);
      assert p in b <==> p in multiset(b);
    }
  }

  lemma NextPathDecides(plan: seq<Planned>, i: nat)
    requires i < |plan| <= MAX_FILES && PlanAccepted(plan[..i])
    ensures Items(ArchiveOf(plan[..i + 1])) == Items(ArchiveOf(plan[..i])) + [ItemOf(EntryOf(plan[i]))]
    ensures PlanAccepted(plan[..i + 1]) <==>
            PathAccepted(plan[i].path) && Fits(Items(ArchiveOf(plan[..i])), ItemOf(EntryOf(plan[i])))
    ensures !PlanAccepted(plan[..i + 1]) ==> !PlanAccepted(plan)
  {
    assert plan[..i + 1] == plan[..i] + [plan[i]];
    PlanItemsGrow(plan[..i], plan[i]);
    NoCollisionsGrows(Items(ArchiveOf(plan[..i])), ItemOf(EntryOf(plan[i])));
    PathsAcceptedGrow(plan[..i], plan[i]);
    if PlanAccepted(plan) {
      PlanPrefix(plan, i + 1);
    }
  }

  lemma PlanItemsGrow(plan: seq<Planned>, p: Planned)
    ensures Items(ArchiveOf(plan + [p])) == Items(ArchiveOf(plan)) + [ItemOf(EntryOf(p))]
  {
  }

  lemma PathsAcceptedGrow(plan: seq<Planned>, p: Planned)
    ensures PathsAccepted(plan + [p]) <==> PathsAccepted(plan) && PathAccepted(p.path)
  {
    assert (plan + [p])[|plan|] == p;
    forall q <- plan ensures q in plan + [p] {
    }
  }

  lemma PlanPrefix(plan: seq<Planned>, k: nat)
    requires k <= |plan| && PlanAccepted(plan)
    ensures PlanAccepted(plan[..k])
  {
    var all, some := Items(ArchiveOf(plan)), Items(ArchiveOf(plan[..k]));
    forall i, j | 0 <= i < j < k ensures !Collide(some[i], some[j]) {
      assert some[i] == all[i] && some[j] == all[j];
    }
  }

  // ------------------------------------------------------------ the planner's own loop

  /** What the planner's loop has met; `files` and `directories` hold folded names only. */
  datatype Met = Met(exact: set<string>, folded: set<string>, files: set<string>, directories: set<string>)

  predicate Records(met: Met, items: seq<Item>) {
    && Folds(met.exact, met.folded)
    && met.folded == Keys(items)
    && met.files == FileKeys(items)
    && met.directories == DirKeys(items)
  }

  /** Turns every proper ancestor of `path` into a directory, unless one of them is a file. */
  method MeetAncestors(path: string, files: set<string>, before: set<string>)
    returns (ok: bool, directories: set<string>)
    requires Plain(path)
    ensures ok <==> Ancestors(Fold(path)) !! files
    ensures ok ==> directories == before + Ancestors(Fold(path))
  {
    var components := Split(path);
    var ancestor := "";
    directories := before;
    LeadingJoinsAreAncestors(true, path);
    for k := 0 to |components| - 1
      invariant ancestor == Join(components[..k])
      invariant LeadingJoins(true, path, k) !! files
      invariant directories == before + LeadingJoins(true, path, k)
    {
      NextAncestor(path, k);
      if ancestor != "" {
        ancestor := ancestor + "/";
      }
      ancestor := ancestor + components[k];
      var foldedAncestor := Fold(ancestor);
      if foldedAncestor in files {
        return false, directories;
      }
      directories := directories + {foldedAncestor};
    }
    return true, directories;
  }

  /** One turn of the loop, after the path itself was accepted. */
  method MeetPath(path: string, before: Met, ghost items: seq<Item>) returns (ok: bool, met: Met)
    requires Plain(path) && Records(before, items)
    ensures ok <==> Fits(items, Item(Fold(path), false))
    ensures ok ==> Records(met, items + [Item(Fold(path), false)])
  {
    var lower := Fold(path);
    met := before;
    if path in met.exact || lower in met.folded {
      return false, met;
    }
    KeysGrow(items, Item(lower, false));
    var directories;
    ok, directories := MeetAncestors(path, met.files, met.directories);
    if !ok {
      return;
    }
    AncestorsAreAbove(lower, lower);
    if lower in directories {
      return false, met;
    }
    met := Met(met.exact + {path}, met.folded + {lower}, met.files + {lower}, directories);
  }

  method CheckPaths(plan: seq<Planned>) returns (ok: bool)
    requires |plan| <= MAX_FILES
    ensures ok <==> PlanAccepted(plan)
  {
    var met := Met({}, {}, {}, {});
    for i := 0 to |plan|
      invariant PlanAccepted(plan[..i])
      invariant Records(met, Items(ArchiveOf(plan[..i])))
    {
      NextPathDecides(plan, i);
      ClientPathRule(plan[i].path);
      if !PathAccepted(plan[i].path) {
        return false;
      }
      ok, met := MeetPath(plan[i].path, met, Items(ArchiveOf(plan[..i])));
      if !ok {
        return;
      }
    }
    assert plan[..|plan|] == plan;
    return true;
  }

  /** Sorts the plan in place and checks every path. */
  method ValidatePlan(plan: array<Planned>) returns (ok: bool)
    modifies plan
    ensures multiset(plan[..]) == old(multiset(plan[..]))
    ensures ok <==> PlanAccepted(old(plan[..]))
    ensures ok ==> Sorted(plan[..])
  {
    if plan.Length > MAX_FILES {
      return false;
    }
    var ordered := SortedByPath(plan[..]);
    PlanIgnoresOrder(plan[..], ordered);
    forall i | 0 <= i < plan.Length {
      plan[i] := ordered[i];
    }
    assert plan[..] == ordered;
    ok := CheckPaths(ordered);
  }

  // ------------------------------------------------------------------- packaging

  predicate LinkAccepted(p: Planned) {
    p.isLink ==> p.utf8 && TargetAccepted(p.path, p.data)
  }

  function DataTotal(plan: seq<Planned>): nat {
    if plan == [] then 0 else DataTotal(plan[..|plan| - 1]) + |plan[|plan| - 1].data|
  }

  predicate Packable(plan: seq<Planned>) {
    (forall p <- plan :: LinkAccepted(p)) && DataTotal(plan) <= MAX_UNCOMPRESSED_BYTES
  }

  lemma PackableGrows(plan: seq<Planned>, p: Planned)
    ensures Packable(plan + [p]) <==>
            Packable(plan) && LinkAccepted(p) && DataTotal(plan) + |p.data| <= MAX_UNCOMPRESSED_BYTES
    ensures DataTotal(plan + [p]) == DataTotal(plan) + |p.data|
  {
    assert (plan + [p])[..|plan|] == plan && (plan + [p])[|plan|] == p;
    forall q <- plan ensures q in plan + [p] {
    }
  }

  lemma {:induction false} PackablePrefix(plan: seq<Planned>, k: nat)
    requires k <= |plan| && !Packable(plan[..k])
    ensures !Packable(plan)
    decreases |plan| - k
  {
    if k == |plan| {
      assert plan[..k] == plan;
    } else {
      assert plan[..k + 1] == plan[..k] + [plan[k]];
      PackableGrows(plan[..k], plan[k]);
      PackablePrefix(plan, k + 1);
    }
  }

  /** Reads and archives the planned entries in order. */
  method Package(plan: seq<Planned>) returns (r: Option<seq<ZipEntry>>)
    ensures r.Some? <==> Packable(plan)
    ensures r.Some? ==> r.value == ArchiveOf(plan)
  {
    var archive, total := [], 0;
    for i := 0 to |plan|
      invariant Packable(plan[..i]) && archive == ArchiveOf(plan[..i]) && total == DataTotal(plan[..i])
    {
      var p := plan[i];
      assert plan[..i + 1] == plan[..i] + [p];
      PackableGrows(plan[..i], p);
      if !Packable(plan[..i + 1]) {
        PackablePrefix(plan, i + 1);
      }
      if p.isLink {
        var target := ValidateSymlinkTarget(p.path, p.data);
        if !p.utf8 || !target {
          return None;
        }
      }
      var ok, copy;
      ok, total, copy := CopyData(p.data, total, MAX_UNCOMPRESSED_BYTES, 65536);
      if !ok {
        return None;
      }
      archive := archive + [EntryOf(p.(data := copy))];
    }
    assert plan[..|plan|] == plan;
    return Some(archive);
  }

  // --------------------------------------------------------------- the daemon's side

  predicate WithinLimits(plan: seq<Planned>, limits: Limits) {
    && |plan| <= limits.maxFiles
    && (forall p <- plan :: |Split(p.path)| <= limits.maxDepth)
    && DataTotal(plan) <= limits.maxBytes
  }

  lemma {:induction false} TotalsAgree(plan: seq<Planned>)
    ensures DeclaredTotal(ArchiveOf(plan)) == ExtractedTotal(ArchiveOf(plan)) == DataTotal(plan)
  {
    if plan != [] {
      var n := |plan| - 1;
      TotalsAgree(plan[..n]);
      assert ArchiveOf(plan)[..n] == ArchiveOf(plan[..n]);
    }
  }

  lemma PlannedEntryAccepted(p: Planned, maxDepth: nat)
    requires PathAccepted(p.path) && LinkAccepted(p)
    ensures EntryAccepted(EntryOf(p), maxDepth) <==> |Split(p.path)| <= maxDepth
  {
    ClientPathRule(p.path);
  }

  /** Nothing but the daemon's three limits can make it reject a package the client made. */
  lemma OnlyLimitsReject(plan: seq<Planned>, limits: Limits)
    requires PlanAccepted(plan) && Packable(plan)
    ensures Acceptable(ArchiveOf(plan), limits) <==> WithinLimits(plan, limits)
  {
    TotalsAgree(plan);
    var archive := ArchiveOf(plan);
    forall i | 0 <= i < |plan|
      ensures EntryAccepted(archive[i], limits.maxDepth) <==> |Split(plan[i].path)| <= limits.maxDepth
    {
      assert plan[i] in plan;
      PlannedEntryAccepted(plan[i], limits.maxDepth);
    }
    if EntriesAccepted(archive, limits.maxDepth) {
      forall p <- plan ensures |Split(p.path)| <= limits.maxDepth {
        var i :| 0 <= i < |plan| && plan[i] == p;
        assert archive[i] in archive;
      }
    }
    if forall p <- plan :: |Split(p.path)| <= limits.maxDepth {
      forall e <- archive ensures EntryAccepted(e, limits.maxDepth) {
        var i :| 0 <= i < |plan| && archive[i] == e;
        assert plan[i] in plan;
      }
    }
  }

  /** 0o755 and 0o644. */
  function PlannedNode(p: Planned): Node {
    if p.isLink then Link(p.data) else Regular(p.data, Some(if p.executable then 493 else 420))
  }

  /** `x` is the place of a planned entry, or a plain directory above one. */
  predicate Explained(nodes: Nodes, folding: bool, plan: seq<Planned>, x: string)
    requires x in nodes
  {
    || (exists p <- plan :: x == Lookup(folding, p.path))
    || (nodes[x] == Directory(None) && exists p <- plan :: Above(x, Lookup(folding, p.path)))
  }

  predicate Planted(nodes: Nodes, folding: bool, p: Planned) {
    Lookup(folding, p.path) in nodes && nodes[Lookup(folding, p.path)] == PlannedNode(p)
  }

  lemma PlacedIsPlanted(nodes: Nodes, folding: bool, p: Planned)
    requires Placed(nodes, folding, EntryOf(p))
    ensures Planted(nodes, folding, p)
  {
  }

  /** Exactly the planned files and links, in plain directories. */
  predicate HoldsPlan(nodes: Nodes, folding: bool, plan: seq<Planned>) {
    && (forall p <- plan :: Planted(nodes, folding, p))
    && (forall x <- nodes :: Explained(nodes, folding, plan, x))
  }

  lemma TreeIsExplained(nodes: Nodes, folding: bool, plan: seq<Planned>, x: string)
    requires IsTreeOf(nodes, folding, ArchiveOf(plan)) && x in nodes
    ensures Explained(nodes, folding, plan, x)
  {
    var archive := ArchiveOf(plan);
    if x in EntryPaths(folding, archive) {
      var e :| e in archive && x == PathOf(folding, e);
      var i :| 0 <= i < |plan| && archive[i] == e;
      assert plan[i] in plan;
    } else {
      var e :| e in archive && x in Ancestors(PathOf(folding, e));
      var i :| 0 <= i < |plan| && archive[i] == e;
      AncestorsAreAbove(x, PathOf(folding, e));
      assert plan[i] in plan;
    }
  }

  lemma TreeHoldsPlan(nodes: Nodes, folding: bool, plan: seq<Planned>)
    requires IsTreeOf(nodes, folding, ArchiveOf(plan))
    ensures HoldsPlan(nodes, folding, plan)
  {
    var archive := ArchiveOf(plan);
    forall p <- plan ensures Planted(nodes, folding, p) {
      var i :| 0 <= i < |plan| && plan[i] == p;
      assert archive[i] in archive;
      PlacedIsPlanted(nodes, folding, p);
    }
    forall x <- nodes ensures Explained(nodes, folding, plan, x) {
      TreeIsExplained(nodes, folding, plan, x);
    }
  }

  /**
   * Plan, package, upload and extract: the workspace ends up with exactly the planned tree,
   * on a file system that folds case as on one that does not.
   */
  method Transfer(plan: array<Planned>, workspace: Workspace, limits: Limits) returns (ok: bool)
    requires workspace.nodes == map[]
    modifies plan, workspace
    ensures multiset(plan[..]) == old(multiset(plan[..]))
    ensures ok <==> PlanAccepted(plan[..]) && Packable(plan[..]) && WithinLimits(plan[..], limits)
    ensures ok ==> HoldsPlan(workspace.nodes, workspace.folding, plan[..])
  {
    ok := ValidatePlan(plan);
    PlanIgnoresOrder(old(plan[..]), plan[..]);
    if !ok {
      return;
    }
    var archive := Package(plan[..]);
    if archive.None? {
      return false;
    }
    OnlyLimitsReject(plan[..], limits);
    TotalsAgree(plan[..]);
    ok := workspace.Extract(archive.value, limits);
    if ok {
      TreeHoldsPlan(workspace.nodes, workspace.folding, plan[..]);
    }
  }
}
