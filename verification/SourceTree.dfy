/**
 * Which source archives the daemon accepts: the checks made on every ZIP entry
 * before any of them is written, and what they amount to for the whole archive.
 */
module SourceTree {
  import opened Common
  import opened Paths
  import opened Scans

  // ------------------------------------------------------------ symlink targets

  /** `a/b` as the directory a relative link at `a/b/c` starts from. */
  function Home(link: string): seq<string> {
    Split(link)[..|Split(link)| - 1]
  }

  /** The path reached from `at` through `components`, or nothing once it climbs above the root. */
  function Resolve(at: seq<string>, components: seq<string>): Option<seq<string>>
    decreases |components|
  {
    if components == [] then Some(at)
    else if components[0] in ["", "."] then Resolve(at, components[1..])
    else if components[0] != ".." then Resolve(at + [components[0]], components[1..])
    else if at == [] then None
    else Resolve(at[..|at| - 1], components[1..])
  }

  predicate PlainTarget(target: string) {
    1 <= |target| <= 4096 && '\\' !in target && '\0' !in target && target[0] != '/'
  }

  /** A target whose lexical meaning stays inside the source root. */
  predicate TargetAccepted(link: string, target: string) {
    PlainTarget(target) && Resolve(Home(link), Split(target)).Some?
  }

  method ValidateSymlinkTarget(link: string, target: string) returns (ok: bool)
    ensures ok <==> TargetAccepted(link, target)
  {
    if target == "" || |target| > 4096 || '\\' in target || '\0' in target || target[0] == '/' {
      return false;
    }
    var components := Split(target);
    var depth := |Split(link)| - 1;
    ghost var at := Home(link);
    for i := 0 to |components|
      invariant |at| == depth
      invariant Resolve(Home(link), components) == Resolve(at, components[i..])
    {
      var c := components[i];
      assert components[i..][0] == c && components[i..][1..] == components[i + 1..];
      if c == "" || c == "." {
      } else if c != ".." {
        depth := depth + 1;
        at := at + [c];
      } else if depth > 0 {
        depth := depth - 1;
        at := at[..|at| - 1];
      } else {
        return false;
      }
    }
    return true;
  }

  function Ups(n: nat): (r: seq<string>)
    ensures |r| == n && forall i :: 0 <= i < n ==> r[i] == ".."
  {
    seq(n, i => "..")
  }

  lemma {:induction false} ResolveDown(at: seq<string>, p: seq<string>)
    requires forall c <- p :: c != "" && c != "." && c != ".."
    ensures Resolve(at, p) == Some(at + p)
    decreases |p|
  {
    if p == [] {
      assert at + p == at;
    } else {
      assert p[0] in p;
      forall c <- p[1..] ensures c in p {
      }
      ResolveDown(at + [p[0]], p[1..]);
      assert at + [p[0]] + p[1..] == at + p;
    }
  }

  lemma {:induction false} ResolveUpAndDown(at: seq<string>, p: seq<string>)
    requires forall c <- p :: c != "" && c != "." && c != ".."
    ensures Resolve(at, Ups(|at|) + p) == Some(p)
    decreases |at|
  {
    if at == [] {
      assert Ups(0) + p == p && [] + p == p;
      ResolveDown([], p);
    } else {
      ResolveUpAndDown(at[..|at| - 1], p);
      assert (Ups(|at|) + p)[1..] == Ups(|at| - 1) + p;
    }
  }

  /** Up to the source root and down again, a link may lead to any path in it, and leads there. */
  lemma EveryPathCanBeLinked(link: string, p: seq<string>)
    requires p != [] && forall c <- p :: c != "" && c != "." && c != ".." && '/' !in c
    ensures
      var target := Join(Ups(|Home(link)|) + p);
      && Resolve(Home(link), Split(target)) == Some(p)
      && (TargetAccepted(link, target) <==> |target| <= 4096 && '\\' !in target && '\0' !in target)
  {
    var components := Ups(|Home(link)|) + p;
    forall c <- components ensures '/' !in c && c != "" {
      if c !in p {
        assert c == "..";
      }
    }
    SplitOfJoin(components);
    ResolveUpAndDown(Home(link), p);
    assert components[0] in components;
    assert components[0] <= Join(components);
  }

  // ---------------------------------------------------------------- one ZIP entry

  /**
   * `size` is the declared size and `data` the bytes that reading the entry yields,
   * one character each; `utf8` says whether they decode.
   */
  datatype ZipEntry = ZipEntry(name: string, isDir: bool, isSymlink: bool, mode: Option<nat>,
                               size: nat, data: string, utf8: bool)

  datatype Limits = Limits(maxBytes: nat, maxFiles: nat, maxDepth: nat)

  predicate PlainCharacters(s: string) {
    '\\' !in s && '\0' !in s && forall c <- s :: c as int < 128
  }

  /** Without the slashes at its end, and without any other character. */
  function TrimSlashes(s: string): (r: string)
    ensures r <= s && forall i :: |r| <= i < |s| ==> s[i] == '/'
    ensures r != "" ==> r[|r| - 1] != '/'
  {
    if s != "" && s[|s| - 1] == '/' then TrimSlashes(s[..|s| - 1]) else s
  }

  function Trimmed(name: string, isDir: bool): string {
    if isDir then TrimSlashes(name) else name
  }

  function NormalizedPath(name: string, isDir: bool, maxDepth: nat): (r: Option<string>)
    ensures r.Some? <==>
            && name != "" && PlainCharacters(name)
            && Plain(Trimmed(name, isDir)) && |Split(Trimmed(name, isDir))| <= maxDepth
    ensures r.Some? ==> r.value == Trimmed(name, isDir)
  {
    if name == "" || !PlainCharacters(name) then None
    else
      var trimmed := Trimmed(name, isDir);
      assert Split("")[0] == "" && Split("")[0] in Split("");
      if trimmed == "" || (exists c <- Split(trimmed) :: c == "" || c == ".") then None
      else if exists c <- Split(trimmed) :: c == ".." then None
      else if |Split(trimmed)| > maxDepth then None
      else Some(trimmed)
  }

  /** A slash at the end of a directory's name makes no difference. */
  lemma EndSlashIsIgnored(name: string, maxDepth: nat)
    requires name != ""
    ensures NormalizedPath(name + "/", true, maxDepth) == NormalizedPath(name, true, maxDepth)
  {
    assert (name + "/")[..|name|] == name;
    forall c <- name + "/" ensures c in name || c == '/' {
    }
    forall c <- name ensures c in name + "/" {
    }
    assert PlainCharacters(name + "/") <==> PlainCharacters(name);
  }

  /** Without one, a directory's name is read like a file's. */
  lemma NameWithoutSlash(name: string, maxDepth: nat)
    requires name != "" && name[|name| - 1] != '/'
    ensures NormalizedPath(name, true, maxDepth) == NormalizedPath(name, false, maxDepth)
  {
  }

  /** The file-type bits of a Unix mode, 0o170000. */
  function TypeBits(mode: nat): nat {
    mode / 0x1000 % 16
  }

  predicate KindAccepted(mode: Option<nat>, isDir: bool, isSymlink: bool) {
    match mode
    case None => !isSymlink
    case Some(mode) =>
      TypeBits(mode) == 0 || TypeBits(mode) == (if isDir then 4 else if isSymlink then 10 else 8)
  }

  predicate IsLink(e: ZipEntry) {
    !e.isDir && e.isSymlink
  }

  predicate EntryAccepted(e: ZipEntry, maxDepth: nat) {
    && NormalizedPath(e.name, e.isDir, maxDepth).Some?
    && KindAccepted(e.mode, e.isDir, e.isSymlink)
    && (IsLink(e) ==> e.utf8 && TargetAccepted(e.name, e.data))
  }

  function DeclaredBytes(e: ZipEntry): nat {
    if e.isDir then 0 else if e.isSymlink then |e.data| else e.size
  }

  function DeclaredTotal(entries: seq<ZipEntry>): nat {
    if entries == [] then 0
    else DeclaredTotal(entries[..|entries| - 1]) + DeclaredBytes(entries[|entries| - 1])
  }

  // ------------------------------------------------------------------ collisions

  /** A path as compared for collisions, with the kind of thing it names. */
  datatype Item = Item(key: string, isDir: bool)

  function ItemOf(e: ZipEntry): Item {
    Item(Fold(Trimmed(e.name, e.isDir)), e.isDir)
  }

  function Items(entries: seq<ZipEntry>): (r: seq<Item>)
    ensures |r| == |entries|
    ensures forall i :: 0 <= i < |entries| ==> r[i] == ItemOf(entries[i])
  {
    seq(|entries|, i requires 0 <= i < |entries| => ItemOf(entries[i]))
  }

  /** Two entries cannot both be extracted: same path, or one is a non-directory above the other. */
  predicate Collide(a: Item, b: Item) {
    || a.key == b.key
    || (!a.isDir && Above(a.key, b.key))
    || (!b.isDir && Above(b.key, a.key))
  }

  predicate NoCollisions(items: seq<Item>) {
    forall i, j {:trigger Collide(items[i], items[j])} :: 0 <= i < j < |items| ==> !Collide(items[i], items[j])
  }

  function Keys(items: seq<Item>): set<string> {
    set it <- items :: it.key
  }

  function FileKeys(items: seq<Item>): set<string> {
    set it <- items | !it.isDir :: it.key
  }

  /** Everything that has to be a directory. */
  function DirKeys(items: seq<Item>): set<string> {
    (set it <- items | it.isDir :: it.key) + (set it <- items, a <- Ancestors(it.key) :: a)
  }

  predicate Fits(items: seq<Item>, x: Item) {
    && x.key !in Keys(items)
    && Ancestors(x.key) !! FileKeys(items)
    && (!x.isDir ==> x.key !in DirKeys(items))
  }

  lemma FitsMeansNoCollision(items: seq<Item>, x: Item)
    ensures Fits(items, x) <==> forall it <- items :: !Collide(it, x)
  {
    forall it <- items
      ensures it.key in Keys(items)
      ensures !it.isDir && Above(it.key, x.key) ==> it.key in Ancestors(x.key) && it.key in FileKeys(items)
      ensures !x.isDir && Above(x.key, it.key) ==> x.key in DirKeys(items)
    {
      AncestorsAreAbove(it.key, x.key);
      AncestorsAreAbove(x.key, it.key);
    }
    if forall it <- items :: !Collide(it, x) {
      forall it <- items, a <- Ancestors(it.key) ensures x.isDir || a != x.key {
        AncestorsAreAbove(a, it.key);
      }
      forall a <- Ancestors(x.key) ensures a !in FileKeys(items) {
        AncestorsAreAbove(a, x.key);
      }
    }
  }

  lemma NoCollisionsGrows(items: seq<Item>, x: Item)
    ensures NoCollisions(items + [x]) <==> NoCollisions(items) && Fits(items, x)
  {
    FitsMeansNoCollision(items, x);
    var longer := items + [x];
    if NoCollisions(longer) {
      forall i, j | 0 <= i < j < |items| ensures !Collide(items[i], items[j]) {
        assert longer[i] == items[i] && longer[j] == items[j];
      }
      forall it <- items ensures !Collide(it, x) {
        var i :| 0 <= i < |items| && items[i] == it;
        assert longer[i] == it && longer[|items|] == x;
      }
    }
  }

  lemma KeysGrow(items: seq<Item>, x: Item)
    ensures Keys(items + [x]) == Keys(items) + {x.key}
    ensures FileKeys(items + [x]) == FileKeys(items) + (if x.isDir then {} else {x.key})
    ensures DirKeys(items + [x]) ==
            DirKeys(items) + Ancestors(x.key) + (if x.isDir then {x.key} else {})
  {
    var longer := items + [x];
    assert x in longer;
    forall it <- items ensures it in longer {
    }
    forall it <- longer ensures it in items || it == x {
    }
  }

  // -------------------------------------------------------------------- preflight

  predicate EntriesAccepted(entries: seq<ZipEntry>, maxDepth: nat) {
    forall e <- entries :: EntryAccepted(e, maxDepth)
  }

  /** What the daemon accepts, said of the entries as a whole. */
  predicate Acceptable(entries: seq<ZipEntry>, limits: Limits) {
    && |entries| <= limits.maxFiles
    && EntriesAccepted(entries, limits.maxDepth)
    && NoCollisions(Items(entries))
    && Min(DeclaredTotal(entries), U64_MAX) <= limits.maxBytes
  }

  /** What an entry must satisfy beside the entries before it. */
  predicate Passes(front: seq<ZipEntry>, e: ZipEntry, limits: Limits) {
    && |front| < limits.maxFiles
    && EntryAccepted(e, limits.maxDepth)
    && Fits(Items(front), ItemOf(e))
    && Min(DeclaredTotal(front) + DeclaredBytes(e), U64_MAX) <= limits.maxBytes
  }

  /** An archive may name its directories with or without a slash at the end. */
  lemma DirectorySlashes(entries: seq<ZipEntry>, i: nat, limits: Limits)
    requires i < |entries| && entries[i].isDir && entries[i].name != ""
    ensures Acceptable(entries[i := entries[i].(name := entries[i].name + "/")], limits) <==> Acceptable(entries, limits)
  {
    var e := entries[i];
    var slashed := entries[i := e.(name := e.name + "/")];
    EndSlashIsIgnored(e.name, limits.maxDepth);
    assert (e.name + "/")[..|e.name|] == e.name;
    assert Items(slashed) == Items(entries);
    SameTotal(entries, slashed);
    forall k | 0 <= k < |entries|
      ensures EntryAccepted(slashed[k], limits.maxDepth) <==> EntryAccepted(entries[k], limits.maxDepth)
    {
    }
    EachAccepted(entries, limits.maxDepth);
    EachAccepted(slashed, limits.maxDepth);
  }

  lemma EachAccepted(entries: seq<ZipEntry>, maxDepth: nat)
    ensures EntriesAccepted(entries, maxDepth) <==> forall k :: 0 <= k < |entries| ==> EntryAccepted(entries[k], maxDepth)
  {
    if EntriesAccepted(entries, maxDepth) {
      forall k | 0 <= k < |entries| ensures EntryAccepted(entries[k], maxDepth) {
        assert entries[k] in entries;
      }
    }
  }

  lemma {:induction false} SameTotal(a: seq<ZipEntry>, b: seq<ZipEntry>)
    requires |a| == |b| && forall k :: 0 <= k < |a| ==> DeclaredBytes(a[k]) == DeclaredBytes(b[k])
    ensures DeclaredTotal(a) == DeclaredTotal(b)
  {
    if a != [] {
      SameTotal(a[..|a| - 1], b[..|b| - 1]);
    }
  }

  lemma AcceptableGrows(entries: seq<ZipEntry>, e: ZipEntry, limits: Limits)
    ensures Acceptable(entries + [e], limits) <==> Acceptable(entries, limits) && Passes(entries, e, limits)
  {
    ItemsGrow(entries, e);
    TotalGrows(entries, e);
    NoCollisionsGrows(Items(entries), ItemOf(e));
    EntriesAcceptedGrows(entries, e, limits.maxDepth);
  }

  lemma ItemsGrow(entries: seq<ZipEntry>, e: ZipEntry)
    ensures Items(entries + [e]) == Items(entries) + [ItemOf(e)]
  {
  }

  lemma TotalGrows(entries: seq<ZipEntry>, e: ZipEntry)
    ensures DeclaredTotal(entries + [e]) == DeclaredTotal(entries) + DeclaredBytes(e)
  {
    assert (entries + [e])[..|entries|] == entries;
  }

  lemma EntriesAcceptedGrows(entries: seq<ZipEntry>, e: ZipEntry, maxDepth: nat)
    ensures EntriesAccepted(entries + [e], maxDepth) <==> EntriesAccepted(entries, maxDepth) && EntryAccepted(e, maxDepth)
  {
    var longer := entries + [e];
    assert longer[|entries|] == e;
    forall x <- entries ensures x in longer {
    }
  }

  /** A rejected prefix stays rejected. */
  lemma {:induction false} AcceptablePrefix(entries: seq<ZipEntry>, k: nat, limits: Limits)
    requires k <= |entries|
    ensures Acceptable(entries, limits) ==> Acceptable(entries[..k], limits)
    decreases |entries| - k
  {
    if k == |entries| {
      assert entries[..k] == entries;
    } else {
      assert entries[..k + 1] == entries[..k] + [entries[k]];
      AcceptableGrows(entries[..k], entries[k], limits);
      AcceptablePrefix(entries, k + 1, limits);
    }
  }

  /** The sets a pass over the entries keeps. */
  datatype Seen = Seen(exact: set<string>, folded: set<string>, files: set<string>, directories: set<string>,
                       foldedFiles: set<string>, foldedDirectories: set<string>)

  predicate Folds(exact: set<string>, folded: set<string>) {
    forall x <- exact :: Fold(x) in folded
  }

  predicate Describes(seen: Seen, items: seq<Item>) {
    && seen.folded == Keys(items)
    && seen.foldedFiles == FileKeys(items)
    && seen.foldedDirectories == DirKeys(items)
    && Folds(seen.exact, seen.folded)
    && Folds(seen.files, seen.foldedFiles)
    && Folds(seen.directories, seen.foldedDirectories)
  }

  /** Notes every proper ancestor of `path` as a directory, unless one of them is a file. */
  method ClaimAncestors(path: string, seen: Seen) returns (ok: bool, now: Seen)
    requires Plain(path)
    requires Folds(seen.files, seen.foldedFiles) && Folds(seen.directories, seen.foldedDirectories)
    ensures ok <==> Ancestors(Fold(path)) !! seen.foldedFiles
    ensures ok ==>
              && now == seen.(directories := now.directories, foldedDirectories := now.foldedDirectories)
              && now.foldedDirectories == seen.foldedDirectories + Ancestors(Fold(path))
              && Folds(now.directories, now.foldedDirectories)
  {
    var components := Split(path);
    var ancestor := "";
    var directories, foldedDirectories := seen.directories, seen.foldedDirectories;
    LeadingJoinsAreAncestors(true, path);
    for k := 0 to |components| - 1
      invariant ancestor == Join(components[..k])
      invariant LeadingJoins(true, path, k) !! seen.foldedFiles
      invariant foldedDirectories == seen.foldedDirectories + LeadingJoins(true, path, k)
      invariant Folds(directories, foldedDirectories)
    {
      NextAncestor(path, k);
      if ancestor != "" {
        ancestor := ancestor + "/";
      }
      ancestor := ancestor + components[k];
      var foldedAncestor := Fold(ancestor);
      if ancestor in seen.files || foldedAncestor in seen.foldedFiles {
        return false, seen;
      }
      directories := directories + {ancestor};
      foldedDirectories := foldedDirectories + {foldedAncestor};
    }
    return true, seen.(directories := directories, foldedDirectories := foldedDirectories);
  }

  /** Growing the ancestor string by a component, from the empty string on. */
  lemma NextAncestor(path: string, k: nat)
    requires Plain(path) && k < |Split(path)| - 1
    ensures
      var before, next := Join(Split(path)[..k]), Join(Split(path)[..k + 1]);
      && (before == "" <==> k == 0)
      && next == (if before == "" then before else before + "/") + Split(path)[k]
      && LeadingJoins(true, path, k + 1) == LeadingJoins(true, path, k) + {Fold(next)}
      && Fold(next) in LeadingJoins(true, path, |Split(path)| - 1)
  {
    var components := Split(path);
    LeadingJoinsGrow(true, path, k);
    if k == 0 {
      assert components[..1] == [components[0]];
    } else {
      JoinExtends(components, k);
      assert components[0] in components;
      LeadingJoinNonempty(components, k);
    }
  }

  lemma LeadingJoinNonempty(components: seq<string>, k: nat)
    requires 1 <= k <= |components| && components[0] != ""
    ensures Join(components[..k]) != ""
  {
  }

  /** The path checks of one entry. */
  method ClaimPath(path: string, isDir: bool, seen: Seen, ghost items: seq<Item>) returns (ok: bool, now: Seen)
    requires Plain(path) && Describes(seen, items)
    ensures ok <==> Fits(items, Item(Fold(path), isDir))
    ensures ok ==> Describes(now, items + [Item(Fold(path), isDir)])
  {
    var key := Fold(path);
    if path in seen.exact || key in seen.folded {
      return false, seen;
    }
    KeysGrow(items, Item(key, isDir));
    now := seen.(exact := seen.exact + {path}, folded := seen.folded + {key});
    ok, now := ClaimAncestors(path, now);
    if !ok {
      return;
    }
    if isDir {
      assert FileKeys(items) <= Keys(items);
      if path in now.files || key in now.foldedFiles {
        return false, seen;
      }
      now := now.(directories := now.directories + {path}, foldedDirectories := now.foldedDirectories + {key});
    } else {
      AncestorsAreAbove(key, key);
      if path in now.directories || key in now.foldedDirectories {
        return false, seen;
      }
      now := now.(files := now.files + {path}, foldedFiles := now.foldedFiles + {key});
    }
  }

  /** All the checks of one entry; `declared` is the running size after it. */
  method CheckEntry(e: ZipEntry, limits: Limits, seen: Seen, before: nat, ghost items: seq<Item>)
    returns (ok: bool, now: Seen, declared: nat)
    requires Describes(seen, items) && before <= U64_MAX && before <= limits.maxBytes
    ensures declared == SaturatingAdd(before, DeclaredBytes(e)) || !ok
    ensures ok <==>
            && EntryAccepted(e, limits.maxDepth)
            && Fits(items, ItemOf(e))
            && SaturatingAdd(before, DeclaredBytes(e)) <= limits.maxBytes
    ensures ok ==> Describes(now, items + [ItemOf(e)])
  {
    now, declared := seen, before;
    var normalized := NormalizedPath(e.name, e.isDir, limits.maxDepth);
    if normalized.None? || !KindAccepted(e.mode, e.isDir, e.isSymlink) {
      return false, seen, before;
    }
    ok, now := ClaimPath(normalized.value, e.isDir, seen, items);
    if !ok || e.isDir {
      return;
    }
    if e.isSymlink {
      var target := ValidateSymlinkTarget(normalized.value, e.data);
      if |e.data| > 4096 || !e.utf8 || !target {
        return false, seen, before;
      }
      declared := SaturatingAdd(declared, |e.data|);
    } else {
      declared := SaturatingAdd(declared, e.size);
    }
    ok := declared <= limits.maxBytes;
  }

  /** What the loop's variables say about the entries before. */
  predicate Sums(seen: Seen, declared: nat, front: seq<ZipEntry>, limits: Limits) {
    && Describes(seen, Items(front))
    && declared == Min(DeclaredTotal(front), U64_MAX)
    && declared <= limits.maxBytes
  }

  type Judge = (seq<ZipEntry>, ZipEntry) -> bool
  type Summary = (Seen, nat, seq<ZipEntry>) -> bool

  ghost predicate Stands(passes: Judge, sums: Summary, limits: Limits) {
    && (forall front, e {:trigger Passes(front, e, limits)} :: passes(front, e) == Passes(front, e, limits))
    && (forall seen, d, front {:trigger Sums(seen, d, front, limits)} ::
          sums(seen, d, front) == Sums(seen, d, front, limits))
  }

  method CheckNext(e: ZipEntry, limits: Limits, seen: Seen, before: nat, count: nat,
                   ghost front: seq<ZipEntry>, ghost passes: Judge, ghost sums: Summary)
    returns (ok: bool, now: Seen, declared: nat)
    requires Stands(passes, sums, limits) && sums(seen, before, front) && count == |front|
    ensures ok <==> passes(front, e)
    ensures ok ==> sums(now, declared, front + [e])
  {
    assert passes(front, e) == Passes(front, e, limits);
    assert sums(seen, before, front) == Sums(seen, before, front, limits);
    if count + 1 > limits.maxFiles {
      return false, seen, before;
    }
    ok, now, declared := CheckEntry(e, limits, seen, before, Items(front));
    if ok {
      ItemsGrow(front, e);
      TotalGrows(front, e);
      assert sums(now, declared, front + [e]) == Sums(now, declared, front + [e], limits);
    }
  }

  /** The loop; what passes and what the variables mean is settled in `CheckNext`. */
  method CheckEntries(entries: seq<ZipEntry>, limits: Limits, ghost passes: Judge, ghost sums: Summary)
    returns (ok: bool)
    requires Stands(passes, sums, limits) && sums(Seen({}, {}, {}, {}, {}, {}), 0, [])
    ensures ok <==> Scanned(passes, entries)
  {
    var seen := Seen({}, {}, {}, {}, {}, {});
    var declared := 0;
    for i := 0 to |entries|
      invariant Scanned(passes, entries[..i])
      invariant sums(seen, declared, entries[..i])
    {
      ScannedOneMore(passes, entries, i);
      ok, seen, declared := CheckNext(entries[i], limits, seen, declared, i, entries[..i], passes, sums);
      if !ok {
        if Scanned(passes, entries) {
          ScannedPrefix(passes, entries, i + 1);
        }
        return;
      }
      assert entries[..i + 1] == entries[..i] + [entries[i]];
    }
    assert entries[..|entries|] == entries;
    return true;
  }

  function Judging(limits: Limits): Judge {
    (front: seq<ZipEntry>, e: ZipEntry) => Passes(front, e, limits)
  }

  function Summing(limits: Limits): Summary {
    (seen: Seen, d: nat, front: seq<ZipEntry>) => Sums(seen, d, front, limits)
  }

  lemma AcceptableIsDecided(limits: Limits)
    ensures Decided(entries => Acceptable(entries, limits), Judging(limits))
  {
    forall front, e
      ensures Acceptable(front + [e], limits) <==> Acceptable(front, limits) && Passes(front, e, limits)
    {
      AcceptableGrows(front, e, limits);
    }
  }

  /** The whole is acceptable exactly when every entry passes beside those before it. */
  lemma AcceptableIsScanned(entries: seq<ZipEntry>, limits: Limits)
    ensures Scanned(Judging(limits), entries) <==> Acceptable(entries, limits)
  {
    AcceptableIsDecided(limits);
    ScanDecides(es => Acceptable(es, limits), Judging(limits), entries);
  }

  /** Accepts exactly the acceptable archives. */
  method Preflight(entries: seq<ZipEntry>, limits: Limits) returns (ok: bool)
    ensures ok <==> Acceptable(entries, limits)
  {
    ok := CheckEntries(entries, limits, Judging(limits), Summing(limits));
    AcceptableIsScanned(entries, limits);
  }

  // ------------------------------------------------------------------ entry order

  function Without<T>(s: seq<T>, j: nat): seq<T>
    requires j < |s|
  {
    s[..j] + s[j + 1..]
  }

  lemma SplitMultiset<T>(s: seq<T>, j: nat)
    requires j < |s|
    ensures multiset(s) == multiset(Without(s, j)) + multiset{s[j]}
  {
    assert s == s[..j] + [s[j]] + s[j + 1..];
  }

  /** The last element of one order, found and taken out of another. */
  lemma FindInShuffle<T>(a: seq<T>, b: seq<T>) returns (j: nat)
    requires a != [] && multiset(a) == multiset(b)
    ensures j < |b| && b[j] == a[|a| - 1]
    ensures multiset(a[..|a| - 1]) == multiset(Without(b, j))
  {
    var n := |a| - 1;
    assert a[n] in multiset(b);
    j :| 0 <= j < |b| && b[j] == a[n];
    SplitMultiset(a, n);
    SplitMultiset(b, j);
    assert Without(a, n) == a[..n];
    MultisetCancels(multiset(a[..n]), multiset(Without(b, j)), multiset{a[n]});
  }

  lemma MultisetCancels<T>(a: multiset<T>, b: multiset<T>, c: multiset<T>)
    requires a + c == b + c
    ensures a == b
  {
    assert a == (a + c) - c && b == (b + c) - c;
  }

  lemma SameLength<T>(a: seq<T>, b: seq<T>)
    requires multiset(a) == multiset(b)
    ensures |a| == |b|
  {
    assert |multiset(a)| == |multiset(b)|;
  }

  lemma {:induction false} TotalWithout(entries: seq<ZipEntry>, j: nat)
    requires j < |entries|
    ensures DeclaredTotal(entries) == DeclaredTotal(Without(entries, j)) + DeclaredBytes(entries[j])
  {
    var n := |entries| - 1;
    var rest := Without(entries, j);
    if j == n {
      assert rest == entries[..n];
    } else {
      TotalWithout(entries[..n], j);
      assert rest[..n - 1] == Without(entries[..n], j);
      assert rest[n - 1] == entries[n];
    }
  }

  lemma {:induction false} TotalIgnoresOrder(a: seq<ZipEntry>, b: seq<ZipEntry>)
    requires multiset(a) == multiset(b)
    ensures DeclaredTotal(a) == DeclaredTotal(b)
    decreases |a|
  {
    SameLength(a, b);
    if a != [] {
      var j := FindInShuffle(a, b);
      TotalIgnoresOrder(a[..|a| - 1], Without(b, j));
      TotalWithout(b, j);
    }
  }

  predicate Distinct<T(==)>(s: seq<T>) {
    forall i, j :: 0 <= i < j < |s| ==> s[i] != s[j]
  }

  predicate Once<T(==)>(s: seq<T>) {
    forall x <- s :: multiset(s)[x] == 1
  }

  lemma {:induction false} DistinctOccursOnce<T>(s: seq<T>, x: T)
    requires Distinct(s) && x in s
    ensures multiset(s)[x] == 1
  {
    var n := |s| - 1;
    assert s == s[..n] + [s[n]];
    if s[n] == x {
      assert forall y <- s[..n] :: y != x;
      assert x !in multiset(s[..n]);
    } else {
      DistinctOccursOnce(s[..n], x);
    }
  }

  lemma RepeatOccursTwice<T>(s: seq<T>, i: nat, j: nat)
    requires i < j < |s| && s[i] == s[j]
    ensures multiset(s)[s[i]] >= 2
  {
    SplitMultiset(s, j);
    assert s[i] == Without(s, j)[i];
    assert s[i] in multiset(Without(s, j));
  }

  lemma DistinctIsOnce<T>(s: seq<T>)
    ensures Distinct(s) <==> Once(s)
  {
    if Distinct(s) {
      forall x <- s ensures multiset(s)[x] == 1 {
        DistinctOccursOnce(s, x);
      }
    } else {
      var i, j :| 0 <= i < j < |s| && s[i] == s[j];
      RepeatOccursTwice(s, i, j);
      assert s[i] in s;
    }
  }

  /** No two different entries collide. */
  predicate Apart(entries: seq<ZipEntry>) {
    forall d <- entries, e <- entries :: d != e ==> !Collide(ItemOf(d), ItemOf(e))
  }

  lemma NoCollisionsIsApart(entries: seq<ZipEntry>)
    ensures NoCollisions(Items(entries)) <==> Distinct(entries) && Apart(entries)
  {
    var items := Items(entries);
    if NoCollisions(items) {
      forall i, j | 0 <= i < j < |entries| ensures entries[i] != entries[j] {
        assert !Collide(items[i], items[j]);
      }
      forall d <- entries, e <- entries | d != e ensures !Collide(ItemOf(d), ItemOf(e)) {
        ApartWhereNoCollisions(entries, d, e);
      }
    }
  }

  lemma ApartWhereNoCollisions(entries: seq<ZipEntry>, d: ZipEntry, e: ZipEntry)
    requires NoCollisions(Items(entries)) && d in entries && e in entries && d != e
    ensures !Collide(ItemOf(d), ItemOf(e))
  {
    var items := Items(entries);
    var i :| 0 <= i < |entries| && entries[i] == d;
    var j :| 0 <= j < |entries| && entries[j] == e;
    assert !Collide(items[if i < j then i else j], items[if i < j then j else i]);
  }

  lemma NoCollisionsIgnoresOrder(a: seq<ZipEntry>, b: seq<ZipEntry>)
    requires multiset(a) == multiset(b)
    ensures NoCollisions(Items(a)) <==> NoCollisions(Items(b))
    ensures forall e :: e in a <==> e in b
  {
    NoCollisionsIsApart(a);
    NoCollisionsIsApart(b);
    DistinctIsOnce(a);
    DistinctIsOnce(b);
    forall e ensures e in a <==> e in b {
      assert e in a <==> e in multiset(a);
      assert e in b <==> e in multiset(b);
    }
  }

  /** The verdict on an archive does not depend on the order of its entries. */
  lemma PreflightIgnoresOrder(a: seq<ZipEntry>, b: seq<ZipEntry>, limits: Limits)
    requires multiset(a) == multiset(b)
    ensures Acceptable(a, limits) <==> Acceptable(b, limits)
  {
    TotalIgnoresOrder(a, b);
    NoCollisionsIgnoresOrder(a, b);
    SameLength(a, b);
  }
}
