/** Matching an uploaded update archive against the changes a request declares. */
module UpdateArchive {
  import opened Common
  import opened Paths
  import opened Scans
  import opened SourceExtraction
  import SourceTree

  datatype Change = File(path: string, sha256: string) | Delete(path: string)

  /** A ZIP entry: the declared size, and the bytes that reading it yields. */
  datatype Entry = Entry(name: string, isDir: bool, isSymlink: bool, mode: Option<nat>, size: nat, data: string)

  /** A declared file with the archive entry staged for it, or a deletion. */
  datatype Prepared = Staged(path: string, index: nat, sha256: string) | Deleted(path: string)

  datatype Policy = Policy(maxFiles: nat, maxBytes: nat)

  type Hash = string -> string

  // --------------------------------------------------------------------- requests

  predicate PathAccepted(path: string, maxDepth: nat) {
    && path != "" && '\\' !in path && '\0' !in path && (forall c <- path :: c as int < 128)
    && Plain(path)
    && |Split(path)| <= maxDepth
    && Fold(Split(path)[0]) !in {".indentured", ".sessions"}
  }

  /** The daemon's own directories at the top of a workspace. */
  predicate Reserved(dir: string) {
    dir == ".indentured" || dir == ".sessions"
  }

  lemma FoldedSplit(path: string)
    ensures Fold(Split(path)[0]) == Split(Fold(path))[0]
    decreases |path|
  {
    if path != "" && path[0] != '/' {
      FoldedSplit(path[1..]);
      assert Fold(path)[1..] == Fold(path[1..]);
      assert Fold([path[0]] + Split(path[1..])[0]) == [FoldChar(path[0])] + Fold(Split(path[1..])[0]);
    }
  }

  /** An update's path is one a source archive may have, outside the daemon's directories under any case. */
  lemma UpdatePathRule(path: string, maxDepth: nat)
    ensures PathAccepted(path, maxDepth) <==>
            && SourceTree.NormalizedPath(path, false, maxDepth) == Some(path)
            && !Reserved(Split(Fold(path))[0])
  {
    FoldedSplit(path);
  }

  predicate HexDigest(s: string) {
    |s| == 64 && forall c <- s :: '0' <= c <= '9' || 'a' <= c <= 'f'
  }

  const HEX := "0123456789abcdef"

  type Octet = n: nat | n < 256

  /** Bytes in lower-case hexadecimal, two digits each. */
  function Hex(bytes: seq<Octet>): (r: string)
    ensures |r| == 2 * |bytes|
    ensures forall c <- r :: c in HEX
  {
    if bytes == [] then ""
    else [HEX[bytes[0] / 16], HEX[bytes[0] % 16]] + Hex(bytes[1..])
  }

  lemma HexDigits(c: char)
    ensures c in HEX <==> '0' <= c <= '9' || 'a' <= c <= 'f'
  {
    if '0' <= c <= '9' {
      assert HEX[c as int - '0' as int] == c;
    }
    if 'a' <= c <= 'f' {
      assert HEX[10 + c as int - 'a' as int] == c;
    }
  }

  lemma HexPlace(c: char) returns (k: nat)
    requires c in HEX
    ensures k < 16 && HEX[k] == c
  {
    k :| 0 <= k < |HEX| && HEX[k] == c;
  }

  lemma HexOfOne(h: nat, l: nat, rest: seq<Octet>)
    requires h < 16 && l < 16
    ensures Hex([h * 16 + l] + rest) == [HEX[h], HEX[l]] + Hex(rest)
  {
    assert (h * 16 + l) / 16 == h && (h * 16 + l) % 16 == l;
    assert ([h * 16 + l] + rest)[1..] == rest;
  }

  lemma {:induction false} ReadHex(s: string) returns (bytes: seq<Octet>)
    requires |s| % 2 == 0 && forall i :: 0 <= i < |s| ==> s[i] in HEX
    ensures Hex(bytes) == s
    decreases |s|
  {
    if s == "" {
      bytes := [];
    } else {
      var rest := ReadHex(s[2..]);
      var h := HexPlace(s[0]);
      var l := HexPlace(s[1]);
      bytes := [h * 16 + l] + rest;
      HexOfOne(h, l, rest);
      assert s == [s[0], s[1]] + s[2..];
    }
  }

  /** The digests accepted are exactly the hexadecimal forms of 32 bytes. */
  lemma DigestsAreHex(s: string)
    ensures HexDigest(s) <==> exists bytes :: |bytes| == 32 && Hex(bytes) == s
  {
    forall c ensures c in HEX <==> '0' <= c <= '9' || 'a' <= c <= 'f' {
      HexDigits(c);
    }
    if HexDigest(s) {
      forall i | 0 <= i < |s| ensures s[i] in HEX {
        assert s[i] in s;
      }
      var bytes := ReadHex(s);
    }
  }

  predicate ChangeAccepted(change: Change, maxDepth: nat) {
    PathAccepted(change.path, maxDepth) && (change.File? ==> HexDigest(change.sha256))
  }

  /** No two changes name the same path, even where case is folded. */
  predicate DistinctPaths(changes: seq<Change>) {
    forall i, j {:trigger Fold(changes[i].path), Fold(changes[j].path)} ::
      0 <= i < j < |changes| ==> Fold(changes[i].path) != Fold(changes[j].path)
  }

  predicate ChangesAccepted(changes: seq<Change>, maxFiles: nat, maxDepth: nat) {
    1 <= |changes| <= maxFiles && ListAccepted(changes, maxDepth)
  }

  /** What a change must satisfy beside the changes before it. */
  predicate ChangePasses(front: seq<Change>, change: Change, maxDepth: nat) {
    ChangeAccepted(change, maxDepth) && Fold(change.path) !in FoldedPaths(front)
  }

  type Judge = (seq<Change>, Change) -> bool

  ghost predicate Stands(passes: Judge, maxDepth: nat) {
    forall front, c {:trigger ChangePasses(front, c, maxDepth)} :: passes(front, c) == ChangePasses(front, c, maxDepth)
  }

  method CheckChange(change: Change, maxDepth: nat, exact: set<string>, folded: set<string>,
                     ghost front: seq<Change>, ghost passes: Judge)
    returns (ok: bool)
    requires Stands(passes, maxDepth) && folded == FoldedPaths(front) && Folds(exact, folded)
    ensures ok <==> passes(front, change)
  {
    assert passes(front, change) == ChangePasses(front, change, maxDepth);
    if !PathAccepted(change.path, maxDepth) || change.path in exact || Fold(change.path) in folded {
      return false;
    }
    return change.Delete? || HexDigest(change.sha256);
  }

  method CheckChanges(changes: seq<Change>, maxDepth: nat, ghost passes: Judge) returns (ok: bool)
    requires Stands(passes, maxDepth)
    ensures ok <==> Scanned(passes, changes)
  {
    var exact, folded: set<string> := {}, {};
    for i := 0 to |changes|
      invariant Scanned(passes, changes[..i])
      invariant folded == FoldedPaths(changes[..i]) && Folds(exact, folded)
    {
      ScannedOneMore(passes, changes, i);
      ok := CheckChange(changes[i], maxDepth, exact, folded, changes[..i], passes);
      if !ok {
        if Scanned(passes, changes) {
          ScannedPrefix(passes, changes, i + 1);
        }
        return;
      }
      FoldedPathsGrow(changes, i);
      exact, folded := exact + {changes[i].path}, folded + {Fold(changes[i].path)};
    }
    assert changes[..|changes|] == changes;
    return true;
  }

  predicate ListAccepted(changes: seq<Change>, maxDepth: nat) {
    (forall c <- changes :: ChangeAccepted(c, maxDepth)) && DistinctPaths(changes)
  }

  lemma ListIsDecided(maxDepth: nat)
    ensures Decided(changes => ListAccepted(changes, maxDepth), (front, c) => ChangePasses(front, c, maxDepth))
  {
    forall front, c
      ensures ListAccepted(front + [c], maxDepth) <==> ListAccepted(front, maxDepth) && ChangePasses(front, c, maxDepth)
    {
      ListGrows(front, c, maxDepth);
    }
  }

  lemma ListGrows(front: seq<Change>, c: Change, maxDepth: nat)
    ensures ListAccepted(front + [c], maxDepth) <==> ListAccepted(front, maxDepth) && ChangePasses(front, c, maxDepth)
  {
    var longer := front + [c];
    assert longer[|front|] == c && c in longer;
    forall x <- front ensures x in longer {
    }
    DistinctGrows(front, c);
  }

  lemma DistinctGrows(front: seq<Change>, c: Change)
    ensures DistinctPaths(front + [c]) <==> DistinctPaths(front) && Fold(c.path) !in FoldedPaths(front)
  {
    var longer := front + [c];
    if DistinctPaths(longer) {
      forall i, j | 0 <= i < j < |front| ensures Fold(front[i].path) != Fold(front[j].path) {
        assert Fold(longer[i].path) != Fold(longer[j].path);
      }
      forall d <- front ensures Fold(d.path) != Fold(c.path) {
        var i :| 0 <= i < |front| && front[i] == d;
        assert Fold(longer[i].path) != Fold(longer[|front|].path);
      }
    }
    if DistinctPaths(front) && Fold(c.path) !in FoldedPaths(front) {
      forall i, j | 0 <= i < j < |longer| ensures Fold(longer[i].path) != Fold(longer[j].path) {
        assert longer[i] == front[i] && front[i] in front;
        if j < |front| {
          assert longer[j] == front[j];
        }
      }
    }
  }

  /** Accepts a nonempty list within the limit whose changes are each valid and name distinct paths. */
  method ParseChanges(changes: seq<Change>, maxFiles: nat, maxDepth: nat) returns (ok: bool)
    ensures ok <==> ChangesAccepted(changes, maxFiles, maxDepth)
  {
    if changes == [] || |changes| > maxFiles {
      return false;
    }
    ghost var accept := (changes: seq<Change>) => ListAccepted(changes, maxDepth);
    ghost var passes := (front: seq<Change>, c: Change) => ChangePasses(front, c, maxDepth);
    ok := CheckChanges(changes, maxDepth, passes);
    ListIsDecided(maxDepth);
    ScanDecides(accept, passes, changes);
    assert accept(changes) == ListAccepted(changes, maxDepth);
  }

  function FoldedPaths(changes: seq<Change>): set<string> {
    set c <- changes :: Fold(c.path)
  }

  predicate Folds(exact: set<string>, folded: set<string>) {
    forall x <- exact :: Fold(x) in folded
  }

  lemma FoldedPathsGrow(changes: seq<Change>, i: nat)
    requires i < |changes|
    ensures FoldedPaths(changes[..i + 1]) == FoldedPaths(changes[..i]) + {Fold(changes[i].path)}
  {
    assert changes[..i + 1] == changes[..i] + [changes[i]];
  }

  // ------------------------------------------------------------------ declared files

  /** The declared files and their digests, as one map. */
  function Declared(changes: seq<Change>): map<string, string> {
    if changes == [] then map[]
    else
      var n := |changes| - 1;
      var before := Declared(changes[..n]);
      if changes[n].File? then before[changes[n].path := changes[n].sha256] else before
  }

  lemma SamePathSameChange(changes: seq<Change>, i: nat, j: nat)
    requires DistinctPaths(changes) && i < |changes| && j < |changes| && changes[i].path == changes[j].path
    ensures i == j
  {
    assert Fold(changes[i].path) == Fold(changes[j].path);
  }

  /** A path is declared with the digest of the one file change that names it. */
  lemma {:induction false} DeclaredByOneChange(changes: seq<Change>, k: nat)
    requires DistinctPaths(changes) && k < |changes|
    ensures changes[k].File? ==>
              changes[k].path in Declared(changes) && Declared(changes)[changes[k].path] == changes[k].sha256
    ensures changes[k].Delete? ==> changes[k].path !in Declared(changes)
    decreases |changes|
  {
    var n := |changes| - 1;
    if k < n {
      DeclaredByOneChange(changes[..n], k);
      assert Fold(changes[k].path) != Fold(changes[n].path);
    } else if changes[n].Delete? && changes[n].path in Declared(changes) {
      var j := DeclaredComesFrom(changes[..n], changes[n].path);
      SamePathSameChange(changes, j, n);
      assert false;
    }
  }

  lemma {:induction false} DeclaredComesFrom(changes: seq<Change>, path: string) returns (k: nat)
    requires path in Declared(changes)
    ensures k < |changes| && changes[k].File? && changes[k].path == path
    ensures Declared(changes)[path] == changes[k].sha256
    decreases |changes|
  {
    var n := |changes| - 1;
    if changes[n].File? && changes[n].path == path {
      k := n;
    } else {
      k := DeclaredComesFrom(changes[..n], path);
    }
  }

  // ------------------------------------------------------------------- the archive

  predicate RegularEntry(e: Entry) {
    && !e.isDir && !e.isSymlink
    && (e.mode.Some? ==>
          && e.mode.value / 0x1000 % 16 in {0, 8}
          && e.mode.value % 2 == 0 && e.mode.value / 8 % 2 == 0 && e.mode.value / 64 % 2 == 0)
  }

  /** Declared sizes, as the running `u64` counts them. */
  function RunningTotal(entries: seq<Entry>): (r: nat)
    ensures r <= U64_MAX
  {
    if entries == [] then 0
    else SaturatingAdd(RunningTotal(entries[..|entries| - 1]), entries[|entries| - 1].size)
  }

  /** The running total without the current entry's declared size. */
  function Uncharged(total: nat, size: nat): nat {
    if total >= size then total - size else 0
  }

  predicate WithinBudget(front: seq<Entry>, e: Entry, maxBytes: nat) {
    var total := SaturatingAdd(RunningTotal(front), e.size);
    total <= maxBytes && SaturatingAdd(Uncharged(total, e.size), |e.data|) <= maxBytes
  }

  predicate EntryMatches(e: Entry, declared: map<string, string>, hash: Hash) {
    e.name in declared && RegularEntry(e) && hash(e.data) == declared[e.name]
  }

  predicate DistinctNames(entries: seq<Entry>) {
    forall i, j {:trigger Fold(entries[i].name), Fold(entries[j].name)} ::
      0 <= i < j < |entries| ==> Fold(entries[i].name) != Fold(entries[j].name)
  }

  /** Every entry is declared, regular, unchanged and affordable, and no two share a name. */
  predicate EntriesAccepted(entries: seq<Entry>, declared: map<string, string>, maxBytes: nat, hash: Hash) {
    && DistinctNames(entries)
    && (forall e <- entries :: EntryMatches(e, declared, hash))
    && Affordable(entries, maxBytes)
  }

  predicate Affordable(entries: seq<Entry>, maxBytes: nat) {
    forall k :: 0 <= k < |entries| ==> WithinBudget(entries[..k], entries[k], maxBytes)
  }

  /** The archive and the declarations fit together. */
  predicate Fits(entries: seq<Entry>, changes: seq<Change>, policy: Policy, hash: Hash) {
    && |entries| <= policy.maxFiles && |entries| == |Declared(changes)|
    && EntriesAccepted(entries, Declared(changes), policy.maxBytes, hash)
  }

  function Names(entries: seq<Entry>): set<string> {
    set e <- entries :: e.name
  }

  lemma {:induction false} DistinctNamesCount(entries: seq<Entry>)
    requires DistinctNames(entries)
    ensures |Names(entries)| == |entries|
  {
    if entries != [] {
      var n := |entries| - 1;
      var front := entries[..n];
      DistinctNamesCount(front);
      assert entries == front + [entries[n]];
      assert Names(entries) == Names(front) + {entries[n].name};
      forall i | 0 <= i < n ensures front[i].name != entries[n].name {
        assert Fold(entries[i].name) != Fold(entries[n].name);
      }
    }
  }

  lemma FullSubset<T>(a: set<T>, b: set<T>)
    requires a <= b && |a| == |b|
    ensures a == b
  {
    assert a + (b - a) == b && a * (b - a) == {};
    assert |a + (b - a)| == |a| + |b - a|;
  }

  /** By counting: an accepted archive holds exactly the declared files. */
  lemma EveryDeclaredFileIsThere(entries: seq<Entry>, changes: seq<Change>, policy: Policy, hash: Hash)
    requires Fits(entries, changes, policy, hash)
    ensures Names(entries) == Declared(changes).Keys
  {
    DistinctNamesCount(entries);
    forall x <- Names(entries) ensures x in Declared(changes) {
      var e :| e in entries && e.name == x;
      assert EntryMatches(e, Declared(changes), hash);
    }
    FullSubset(Names(entries), Declared(changes).Keys);
  }

  // ------------------------------------------------------------------ the first loop

  function FoldedNames(entries: seq<Entry>): set<string> {
    set e <- entries :: Fold(e.name)
  }

  /** The place each entry was staged under. */
  function Places(entries: seq<Entry>): map<string, nat> {
    if entries == [] then map[]
    else Places(entries[..|entries| - 1])[entries[|entries| - 1].name := |entries| - 1]
  }

  lemma {:induction false} PlacesAreNames(entries: seq<Entry>)
    ensures Places(entries).Keys == Names(entries)
    ensures forall x <- Places(entries) :: Places(entries)[x] < |entries| && entries[Places(entries)[x]].name == x
  {
    if entries != [] {
      var n := |entries| - 1;
      PlacesAreNames(entries[..n]);
      assert entries == entries[..n] + [entries[n]];
      assert Names(entries) == Names(entries[..n]) + {entries[n].name};
    }
  }

  predicate EntryPasses(front: seq<Entry>, e: Entry, declared: map<string, string>, maxBytes: nat, hash: Hash) {
    && Fold(e.name) !in FoldedNames(front)
    && EntryMatches(e, declared, hash)
    && WithinBudget(front, e, maxBytes)
  }

  lemma EntriesGrow(front: seq<Entry>, e: Entry, declared: map<string, string>, maxBytes: nat, hash: Hash)
    ensures EntriesAccepted(front + [e], declared, maxBytes, hash) <==>
            EntriesAccepted(front, declared, maxBytes, hash) && EntryPasses(front, e, declared, maxBytes, hash)
  {
    var longer := front + [e];
    assert longer[|front|] == e && e in longer;
    forall x <- front ensures x in longer {
    }
    AffordableGrows(front, e, maxBytes);
    NamesGrow(front, e);
  }

  lemma AffordableGrows(front: seq<Entry>, e: Entry, maxBytes: nat)
    ensures Affordable(front + [e], maxBytes) <==> Affordable(front, maxBytes) && WithinBudget(front, e, maxBytes)
  {
    var longer := front + [e];
    assert longer[..|front|] == front && longer[|front|] == e;
    if Affordable(longer, maxBytes) {
      assert WithinBudget(longer[..|front|], longer[|front|], maxBytes);
      forall k | 0 <= k < |front| ensures WithinBudget(front[..k], front[k], maxBytes) {
        assert longer[..k] == front[..k] && WithinBudget(longer[..k], longer[k], maxBytes);
      }
    }
    if Affordable(front, maxBytes) && WithinBudget(front, e, maxBytes) {
      forall k | 0 <= k < |longer| ensures WithinBudget(longer[..k], longer[k], maxBytes) {
        if k < |front| {
          assert longer[..k] == front[..k] && WithinBudget(front[..k], front[k], maxBytes);
        }
      }
    }
  }

  lemma NamesGrow(front: seq<Entry>, e: Entry)
    ensures DistinctNames(front + [e]) <==> DistinctNames(front) && Fold(e.name) !in FoldedNames(front)
  {
    var longer := front + [e];
    if DistinctNames(longer) {
      forall i, j | 0 <= i < j < |front| ensures Fold(front[i].name) != Fold(front[j].name) {
        assert Fold(longer[i].name) != Fold(longer[j].name);
      }
      forall d <- front ensures Fold(d.name) != Fold(e.name) {
        var i :| 0 <= i < |front| && front[i] == d;
        assert Fold(longer[i].name) != Fold(longer[|front|].name);
      }
    }
    if DistinctNames(front) && Fold(e.name) !in FoldedNames(front) {
      forall i, j | 0 <= i < j < |longer| ensures Fold(longer[i].name) != Fold(longer[j].name) {
        assert longer[i] == front[i] && front[i] in front;
        if j < |front| {
          assert longer[j] == front[j];
        }
      }
    }
  }

  type EntryJudge = (seq<Entry>, Entry) -> bool

  ghost predicate Judges(passes: EntryJudge, declared: map<string, string>, maxBytes: nat, hash: Hash) {
    forall front, e {:trigger EntryPasses(front, e, declared, maxBytes, hash)} ::
      passes(front, e) == EntryPasses(front, e, declared, maxBytes, hash)
  }

  /** The checks on one entry; `total` is the running total after it. */
  method CheckEntry(e: Entry, declared: map<string, string>, maxBytes: nat, hash: Hash, seen: set<string>,
                    folded: set<string>, before: nat, ghost front: seq<Entry>, ghost passes: EntryJudge)
    returns (ok: bool, total: nat)
    requires Judges(passes, declared, maxBytes, hash)
    requires folded == FoldedNames(front) && Folds(seen, folded) && before == RunningTotal(front)
    ensures ok <==> passes(front, e)
    ensures total == SaturatingAdd(before, e.size)
  {
    assert passes(front, e) == EntryPasses(front, e, declared, maxBytes, hash);
    total := SaturatingAdd(before, e.size);
    if e.name in seen || Fold(e.name) in folded || e.name !in declared || !RegularEntry(e) {
      return false, total;
    }
    if total > maxBytes {
      return false, total;
    }
    var staged, charged;
    ok, charged, staged := CopyData(e.data, Uncharged(total, e.size), maxBytes, 8192);
    ok := ok && hash(staged) == declared[e.name];
  }

  method StageEntries(entries: seq<Entry>, declared: map<string, string>, maxBytes: nat, hash: Hash,
                      ghost passes: EntryJudge)
    returns (ok: bool, places: map<string, nat>)
    requires Judges(passes, declared, maxBytes, hash)
    ensures ok <==> Scanned(passes, entries)
    ensures ok ==> places == Places(entries)
  {
    places := map[];
    var seen, folded: set<string> := {}, {};
    var total := 0;
    for i := 0 to |entries|
      invariant Scanned(passes, entries[..i])
      invariant folded == FoldedNames(entries[..i]) && Folds(seen, folded) && total == RunningTotal(entries[..i])
      invariant places == Places(entries[..i])
    {
      ScannedOneMore(passes, entries, i);
      FrontGrows(entries, i);
      ok, total := CheckEntry(entries[i], declared, maxBytes, hash, seen, folded, total, entries[..i], passes);
      if !ok {
        if Scanned(passes, entries) {
          ScannedPrefix(passes, entries, i + 1);
        }
        return;
      }
      seen, folded := seen + {entries[i].name}, folded + {Fold(entries[i].name)};
      places := places[entries[i].name := i];
    }
    assert entries[..|entries|] == entries;
    ok := true;
  }

  lemma FrontGrows(entries: seq<Entry>, i: nat)
    requires i < |entries|
    ensures FoldedNames(entries[..i + 1]) == FoldedNames(entries[..i]) + {Fold(entries[i].name)}
    ensures RunningTotal(entries[..i + 1]) == SaturatingAdd(RunningTotal(entries[..i]), entries[i].size)
    ensures Places(entries[..i + 1]) == Places(entries[..i])[entries[i].name := i]
  {
    var longer := entries[..i + 1];
    assert longer == entries[..i] + [entries[i]];
    assert longer[..i] == entries[..i];
  }

  // ----------------------------------------------------------------- the second loop

  /** A prepared change is its declaration, with the staged entry of that name. */
  predicate Matched(p: Prepared, change: Change, entries: seq<Entry>, hash: Hash) {
    match change
    case Delete(path) => p == Deleted(path)
    case File(path, sha256) =>
      && p.Staged? && p.path == path && p.sha256 == sha256
      && p.index < |entries| && entries[p.index].name == path && hash(entries[p.index].data) == sha256
  }

  /** Paths still waiting to be taken out of the staging map. */
  function Waiting(places: map<string, nat>, changes: seq<Change>): map<string, nat> {
    if changes == [] then places
    else
      var n := |changes| - 1;
      if changes[n].File? then Waiting(places, changes[..n]) - {changes[n].path} else Waiting(places, changes[..n])
  }

  lemma WaitingShrinks(places: map<string, nat>, changes: seq<Change>, k: nat)
    requires k < |changes|
    ensures Waiting(places, changes[..k + 1]) ==
            Waiting(places, changes[..k]) - (if changes[k].File? then {changes[k].path} else {})
  {
    assert changes[..k + 1][..k] == changes[..k];
  }

  lemma {:induction false} StillWaiting(places: map<string, nat>, changes: seq<Change>, path: string)
    requires path in places && forall c <- changes :: c.path != path
    ensures path in Waiting(places, changes) && Waiting(places, changes)[path] == places[path]
  {
    if changes != [] {
      var n := |changes| - 1;
      assert changes[n] in changes;
      StillWaiting(places, changes[..n], path);
    }
  }

  /** A declared file is staged, and nobody has taken it yet. */
  lemma NextIsWaiting(entries: seq<Entry>, changes: seq<Change>, policy: Policy, hash: Hash, k: nat)
    requires Fits(entries, changes, policy, hash) && DistinctPaths(changes)
    requires k < |changes| && changes[k].File?
    ensures
      var waiting, path := Waiting(Places(entries), changes[..k]), changes[k].path;
      && path in waiting && waiting[path] < |entries| && entries[waiting[path]].name == path
      && hash(entries[waiting[path]].data) == changes[k].sha256
  {
    var path := changes[k].path;
    DeclaredByOneChange(changes, k);
    EveryDeclaredFileIsThere(entries, changes, policy, hash);
    PlacesAreNames(entries);
    forall c <- changes[..k] ensures c.path != path {
      var j :| 0 <= j < k && changes[j] == c;
      assert Fold(changes[j].path) != Fold(changes[k].path);
    }
    StillWaiting(Places(entries), changes[..k], path);
    var i := Places(entries)[path];
    assert entries[i] in entries;
    assert EntryMatches(entries[i], Declared(changes), hash);
  }

  /** Prepared changes in request order; taking a staged file out of the map never fails. */
  method PairUp(entries: seq<Entry>, changes: seq<Change>, policy: Policy, hash: Hash, places: map<string, nat>)
    returns (prepared: seq<Prepared>)
    requires Fits(entries, changes, policy, hash) && DistinctPaths(changes) && places == Places(entries)
    ensures |prepared| == |changes|
    ensures forall k :: 0 <= k < |changes| ==> Matched(prepared[k], changes[k], entries, hash)
  {
    prepared := [];
    var staged := places;
    for k := 0 to |changes|
      invariant |prepared| == k && staged == Waiting(places, changes[..k])
      invariant forall j :: 0 <= j < k ==> Matched(prepared[j], changes[j], entries, hash)
    {
      WaitingShrinks(places, changes, k);
      match changes[k]
      case File(path, sha256) =>
        NextIsWaiting(entries, changes, policy, hash, k);
        prepared := prepared + [Staged(path, staged[path], hash(entries[staged[path]].data))];
        staged := staged - {path};
      case Delete(path) =>
        prepared := prepared + [Deleted(path)];
    }
  }

  /** Succeeds exactly when archive and declarations fit, and pairs every change with its entry. */
  method PrepareArchive(entries: seq<Entry>, changes: seq<Change>, policy: Policy, hash: Hash)
    returns (r: Option<seq<Prepared>>)
    requires DistinctPaths(changes)
    ensures r.Some? <==> Fits(entries, changes, policy, hash)
    ensures r.Some? ==> |r.value| == |changes|
    ensures r.Some? ==> forall k :: 0 <= k < |changes| ==> Matched(r.value[k], changes[k], entries, hash)
  {
    var declared := Declared(changes);
    if |entries| > policy.maxFiles || |entries| != |declared| {
      return None;
    }
    ghost var accept := (entries: seq<Entry>) => EntriesAccepted(entries, declared, policy.maxBytes, hash);
    ghost var passes := (front: seq<Entry>, e: Entry) => EntryPasses(front, e, declared, policy.maxBytes, hash);
    var ok, places := StageEntries(entries, declared, policy.maxBytes, hash, passes);
    EntriesAreDecided(declared, policy.maxBytes, hash);
    ScanDecides(accept, passes, entries);
    assert accept(entries) == EntriesAccepted(entries, declared, policy.maxBytes, hash);
    if !ok {
      return None;
    }
    var prepared := PairUp(entries, changes, policy, hash, places);
    return Some(prepared);
  }

  lemma EntriesAreDecided(declared: map<string, string>, maxBytes: nat, hash: Hash)
    ensures Decided(entries => EntriesAccepted(entries, declared, maxBytes, hash),
                    (front, e) => EntryPasses(front, e, declared, maxBytes, hash))
  {
    forall front, e
      ensures EntriesAccepted(front + [e], declared, maxBytes, hash) <==>
              EntriesAccepted(front, declared, maxBytes, hash) && EntryPasses(front, e, declared, maxBytes, hash)
    {
      EntriesGrow(front, e, declared, maxBytes, hash);
    }
  }

  /** And no entry is left over: each is declared by exactly one file change. */
  lemma EntriesAreAllUsed(entries: seq<Entry>, changes: seq<Change>, policy: Policy, hash: Hash, i: nat)
    returns (k: nat)
    requires Fits(entries, changes, policy, hash) && DistinctPaths(changes) && i < |entries|
    ensures k < |changes| && changes[k].File? && changes[k].path == entries[i].name
    ensures forall j :: 0 <= j < |changes| && changes[j].path == entries[i].name ==> j == k
  {
    assert entries[i] in entries;
    assert EntryMatches(entries[i], Declared(changes), hash);
    k := DeclaredComesFrom(changes, entries[i].name);
    forall j | 0 <= j < |changes| && changes[j].path == entries[i].name ensures j == k {
      SamePathSameChange(changes, j, k);
    }
  }
}
