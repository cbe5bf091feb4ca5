/**
 * Collecting artifacts: the walk of a workspace is pruned to the literal prefixes of the include
 * patterns, and selects what an unpruned walk would.  Glob matching itself is a parameter.
 */
module Artifacts {
  import opened Common
  import opened Paths

  /** A relative path as its components. */
  type Path = seq<string>

  predicate IsPath(p: Path) {
    forall i :: 0 <= i < |p| ==> '/' !in p[i] && p[i] != "" && p[i] != "." && p[i] != ".."
  }

  // --------------------------------------------------------------------- patterns

  predicate Wild(c: char) { c == '*' || c == '?' || c == '[' }

  predicate Literal(s: string) {
    forall i :: 0 <= i < |s| ==> !Wild(s[i])
  }

  type Glob = (string, string) -> bool

  /** What a pattern says before its first special character, the matched text begins with. */
  ghost predicate LiteralStart(matches: Glob) {
    forall pattern, s {:trigger matches(pattern, s)} :: matches(pattern, s) ==>
      && (Literal(pattern) ==> s == pattern)
      && (forall n :: 0 <= n <= |pattern| && Literal(pattern[..n]) ==> pattern[..n] <= s)
  }

  /** Glob syntax, with the default options under which `*` and `?` also match a slash. */
  datatype Token = Character(c: char) | AnyChar | Class(members: string, negated: bool) | AnySequence | AnyRecursive

  function TokenText(t: Token): string {
    match t
    case Character(c) => [c]
    case AnyChar => "?"
    case Class(members, negated) => (if negated then "[!" else "[") + members + "]"
    case AnySequence => "*"
    case AnyRecursive => "**"
  }

  function PatternText(tokens: seq<Token>): string {
    if tokens == [] then "" else TokenText(tokens[0]) + PatternText(tokens[1..])
  }

  predicate TokensMatch(tokens: seq<Token>, s: string) {
    if tokens == [] then s == ""
    else
      var rest := tokens[1..];
      match tokens[0]
      case Character(c) => s != "" && s[0] == c && TokensMatch(rest, s[1..])
      case AnyChar => s != "" && TokensMatch(rest, s[1..])
      case Class(members, negated) => s != "" && (s[0] in members) != negated && TokensMatch(rest, s[1..])
      case AnySequence => exists k :: 0 <= k <= |s| && TokensMatch(rest, s[k..])
      case AnyRecursive =>
        exists k :: 0 <= k <= |s| && (k == 0 || s[k - 1] == '/' || k == |s|) && TokensMatch(rest, s[k..])
  }

  ghost predicate MatchesByTokens(pattern: string, s: string) {
    exists tokens :: pattern == PatternText(tokens) && TokensMatch(tokens, s)
  }

  lemma {:induction false} TokensStartLiterally(tokens: seq<Token>, s: string, n: nat)
    requires n <= |PatternText(tokens)| && Literal(PatternText(tokens)[..n]) && TokensMatch(tokens, s)
    ensures PatternText(tokens)[..n] <= s
    ensures n == |PatternText(tokens)| ==> s == PatternText(tokens)
    decreases tokens
  {
    if tokens != [] && n > 0 {
      var text, rest := PatternText(tokens), PatternText(tokens[1..]);
      assert !Wild(text[..n][0]);
      assert tokens[0].Character? && text == [tokens[0].c] + rest;
      assert rest[..n - 1] == text[..n][1..];
      TokensStartLiterally(tokens[1..], s[1..], n - 1);
      assert s == [s[0]] + s[1..] && text[..n] == [text[0]] + rest[..n - 1];
    } else if tokens != [] {
      assert TokenText(tokens[0]) != "";
    }
  }

  /** Matching by tokens has the property the collector relies on. */
  lemma TokenMatchingStartsLiterally()
    ensures LiteralStart((pattern, s) => MatchesByTokens(pattern, s))
  {
    forall pattern, s | MatchesByTokens(pattern, s)
      ensures (Literal(pattern) ==> s == pattern)
      ensures forall n :: 0 <= n <= |pattern| && Literal(pattern[..n]) ==> pattern[..n] <= s
    {
      var tokens :| pattern == PatternText(tokens) && TokensMatch(tokens, s);
      if Literal(pattern) {
        assert pattern[..|pattern|] == pattern;
        TokensStartLiterally(tokens, s, |pattern|);
      }
      forall n | 0 <= n <= |pattern| && Literal(pattern[..n]) ensures pattern[..n] <= s {
        TokensStartLiterally(tokens, s, n);
      }
    }
  }

  /** The leading components that name one directory each; `first` tells a root from a doubled slash. */
  function LiteralPrefix(components: seq<string>, first: bool): Path {
    if components == [] then []
    else
      var c, rest := components[0], components[1..];
      if c == "" && first then []
      else if c == "" || c == "." then LiteralPrefix(rest, false)
      else if c == ".." || !Literal(c) then []
      else [c] + LiteralPrefix(rest, false)
  }

  method PatternPrefix(pattern: string) returns (prefix: Path)
    ensures prefix == LiteralPrefix(Split(pattern), true)
  {
    var components := Split(pattern);
    prefix := [];
    for i := 0 to |components|
      invariant prefix + LiteralPrefix(components[i..], i == 0) == LiteralPrefix(components, true)
    {
      var c := components[i];
      assert components[i..][0] == c && components[i..][1..] == components[i + 1..];
      if c == "" && i == 0 {
        break;
      }
      if c != "" && c != "." {
        if c == ".." || !Literal(c) {
          break;
        }
        Regroup(prefix, [c], LiteralPrefix(components[i + 1..], false));
        prefix := prefix + [c];
      }
    }
  }

  lemma Regroup(a: Path, b: Path, c: Path)
    ensures a + b + c == a + (b + c)
  {
  }

  /** As long as a path's own components come first, they are the prefix. */
  lemma {:induction false} PrefixOfPath(components: seq<string>, j: nat, first: bool)
    requires j <= |components| && IsPath(components[..j]) && forall i :: 0 <= i < j ==> Literal(components[i])
    requires j < |components| ==> !Literal(components[j])
    ensures LiteralPrefix(components, first) == components[..j]
    decreases j
  {
    if j > 0 {
      var rest := components[1..];
      assert components[..j][0] == components[0];
      assert rest[..j - 1] == components[..j][1..];
      PrefixOfPath(rest, j - 1, false);
      assert components[..j] == [components[0]] + rest[..j - 1];
    } else if components != [] {
      assert components[0] != "";
    }
  }

  lemma {:induction false} LiteralJoin(components: seq<string>)
    requires forall i :: 0 <= i < |components| ==> Literal(components[i])
    ensures Literal(Join(components))
  {
    if |components| > 1 {
      LiteralJoin(components[1..]);
    }
  }

  /** Leading components without special characters, up to the first one with some. */
  lemma FirstWild(components: seq<string>) returns (j: nat)
    ensures j <= |components| && (forall i :: 0 <= i < j ==> Literal(components[i]))
    ensures j < |components| ==> !Literal(components[j])
  {
    j := 0;
    while j < |components| && Literal(components[j])
      invariant j <= |components| && forall i :: 0 <= i < j ==> Literal(components[i])
    {
      j := j + 1;
    }
  }

  /** Whatever a pattern matches lies under the pattern's literal prefix. */
  lemma MatchIsUnderPrefix(matches: Glob, pattern: string, p: Path)
    requires LiteralStart(matches) && p != [] && IsPath(p) && matches(pattern, Join(p))
    ensures LiteralPrefix(Split(pattern), true) <= p
  {
    var components, s := Split(pattern), Join(p);
    var j := FirstWild(components);
    JoinOfSplit(pattern);
    SplitOfJoin(p);
    if j == |components| {
      LiteralJoin(components);
      assert components[..j] == p;
      PrefixOfPath(components, j, true);
    } else if j == 0 {
      PrefixOfPath(components, 0, true);
    } else {
      LeadingComponentsAgree(matches, pattern, p, j);
      assert IsPath(p[..j]);
      PrefixOfPath(components, j, true);
    }
  }

  lemma LeadingComponentsAgree(matches: Glob, pattern: string, p: Path, j: nat)
    requires LiteralStart(matches) && p != [] && IsPath(p) && matches(pattern, Join(p))
    requires 0 < j < |Split(pattern)| && forall i :: 0 <= i < j ==> Literal(Split(pattern)[i])
    ensures j <= |p| && Split(pattern)[..j] == p[..j]
  {
    LeadingJoinIsAbove(pattern, j);
    LiteralJoin(Split(pattern)[..j]);
    MatchKeepsLead(matches, pattern, Join(p), Join(Split(pattern)[..j]));
    AboveIsLeading(Split(pattern)[..j], p);
  }

  /** A literal lead that ends at a slash of the pattern ends at one in whatever it matches. */
  lemma MatchKeepsLead(matches: Glob, pattern: string, s: string, lead: string)
    requires LiteralStart(matches) && matches(pattern, s)
    requires Above(lead, pattern) && Literal(lead)
    ensures Above(lead, s)
  {
    var n := |lead| + 1;
    assert pattern[..n] == lead + "/";
    assert Literal(pattern[..n]);
    assert pattern[..n] <= s;
    assert s[..n] == lead + "/";
    assert s[..n][..|lead|] == lead;
  }

  /** A joined path that ends at a slash of another consists of that path's leading components. */
  lemma AboveIsLeading(a: seq<string>, p: Path)
    requires a != [] && (forall c <- a :: '/' !in c) && p != [] && IsPath(p) && Above(Join(a), Join(p))
    ensures |a| <= |p| && a == p[..|a|]
  {
    var k := SlashEndsLeadingJoin(Join(p), |Join(a)|);
    SplitOfJoin(p);
    SplitOfJoin(a);
    SplitOfJoin(p[..k]);
  }

  // ------------------------------------------------------------- minimal prefixes

  predicate ByLength(ps: seq<Path>) {
    forall i, j :: 0 <= i < j < |ps| ==> |ps[i]| <= |ps[j]|
  }

  /** `p` in front of the first path that is at least as long. */
  function Inserted(p: Path, ps: seq<Path>): seq<Path> {
    if ps == [] || |p| <= |ps[0]| then [p] + ps else [ps[0]] + Inserted(p, ps[1..])
  }

  lemma {:induction false} InsertedKeepsOrder(p: Path, ps: seq<Path>)
    requires ByLength(ps)
    ensures ByLength(Inserted(p, ps))
    ensures forall x :: x in Inserted(p, ps) <==> x == p || x in ps
    decreases |ps|
  {
    if ps != [] && |p| > |ps[0]| {
      var rest := ps[1..];
      TailByLength(ps);
      InsertedKeepsOrder(p, rest);
      LeastFirst(ps[0], Inserted(p, rest));
      assert ps == [ps[0]] + rest;
    } else {
      if ps != [] {
        TailByLength(ps);
        assert ps == [ps[0]] + ps[1..];
      }
      LeastFirst(p, ps);
    }
  }

  lemma TailByLength(ps: seq<Path>)
    requires ByLength(ps) && ps != []
    ensures ByLength(ps[1..]) && forall x <- ps[1..] :: |ps[0]| <= |x|
  {
    var rest := ps[1..];
    forall i, j | 0 <= i < j < |rest| ensures |rest[i]| <= |rest[j]| {
      assert rest[i] == ps[i + 1] && rest[j] == ps[j + 1];
    }
    forall x <- rest ensures |ps[0]| <= |x| {
      var i :| 0 <= i < |rest| && rest[i] == x;
      assert rest[i] == ps[i + 1];
    }
  }

  lemma LeastFirst(p: Path, ps: seq<Path>)
    requires ByLength(ps) && forall x <- ps :: |p| <= |x|
    ensures ByLength([p] + ps)
  {
    var more := [p] + ps;
    forall i, j | 0 <= i < j < |more| ensures |more[i]| <= |more[j]| {
      assert more[j] == ps[j - 1] && ps[j - 1] in ps;
      if i > 0 {
        assert more[i] == ps[i - 1];
      }
    }
  }

  /** The prefixes by number of components. */
  function SortedByLength(ps: seq<Path>): seq<Path> {
    if ps == [] then [] else Inserted(ps[0], SortedByLength(ps[1..]))
  }

  lemma {:induction false} SortedByLengthIsSorted(ps: seq<Path>)
    ensures ByLength(SortedByLength(ps))
    ensures forall x :: x in SortedByLength(ps) <==> x in ps
  {
    if ps != [] {
      SortedByLengthIsSorted(ps[1..]);
      InsertedKeepsOrder(ps[0], SortedByLength(ps[1..]));
      assert ps == [ps[0]] + ps[1..];
    }
  }

  predicate Comparable(a: Path, b: Path) { a <= b || b <= a }

  /** None of them lies under another. */
  predicate Antichain(ps: seq<Path>) {
    forall i, j {:trigger Comparable(ps[i], ps[j])} :: 0 <= i < j < |ps| ==> !Comparable(ps[i], ps[j])
  }

  predicate Covers(kept: seq<Path>, p: Path) {
    exists q <- kept :: q <= p
  }

  /** `kept` covers the first `i` prefixes by some of themselves, none under another. */
  predicate Reduced(kept: seq<Path>, sorted: seq<Path>, i: nat)
    requires i <= |sorted|
  {
    && Antichain(kept)
    && (forall q <- kept :: q in sorted[..i])
    && (forall p <- sorted[..i] :: Covers(kept, p))
  }

  method Minimal(all: seq<Path>) returns (minimal: seq<Path>)
    ensures Antichain(minimal)
    ensures forall q <- minimal :: q in all
    ensures forall p <- all :: Covers(minimal, p)
  {
    var sorted := SortedByLength(all);
    SortedByLengthIsSorted(all);
    minimal := [];
    for i := 0 to |sorted|
      invariant Reduced(minimal, sorted, i)
    {
      if !Covers(minimal, sorted[i]) {
        KeepOne(minimal, sorted, i);
        minimal := minimal + [sorted[i]];
      } else {
        SkipOne(minimal, sorted, i);
      }
    }
    assert sorted[..|sorted|] == sorted;
  }

  lemma SkipOne(kept: seq<Path>, sorted: seq<Path>, i: nat)
    requires i < |sorted| && Reduced(kept, sorted, i) && Covers(kept, sorted[i])
    ensures Reduced(kept, sorted, i + 1)
  {
    assert sorted[..i + 1] == sorted[..i] + [sorted[i]];
  }

  lemma KeepOne(kept: seq<Path>, sorted: seq<Path>, i: nat)
    requires i < |sorted| && ByLength(sorted) && Reduced(kept, sorted, i) && !Covers(kept, sorted[i])
    ensures Reduced(kept + [sorted[i]], sorted, i + 1)
  {
    AntichainGrows(kept, sorted, i);
    AllCoveredGrows(kept, sorted[..i], sorted[i]);
    TakenFromGrows(kept, sorted[..i], sorted[i]);
    OneMore(sorted, i);
  }

  lemma OneMore(sorted: seq<Path>, i: nat)
    requires i < |sorted|
    ensures sorted[..i + 1] == sorted[..i] + [sorted[i]]
  {
  }

  lemma TakenFromGrows(kept: seq<Path>, front: seq<Path>, one: Path)
    requires forall q <- kept :: q in front
    ensures forall q <- kept + [one] :: q in front + [one]
  {
  }

  lemma AllCoveredGrows(kept: seq<Path>, front: seq<Path>, one: Path)
    requires forall p <- front :: Covers(kept, p)
    ensures forall p <- front + [one] :: Covers(kept + [one], p)
  {
    forall p <- front + [one] ensures Covers(kept + [one], p) {
      MoreCovers(kept, one, p);
    }
  }

  lemma MoreCovers(kept: seq<Path>, one: Path, p: Path)
    requires Covers(kept, p) || one == p
    ensures Covers(kept + [one], p)
  {
    var more := kept + [one];
    if one == p {
      assert more[|kept|] == one && one in more;
    } else {
      var q :| q in kept && q <= p;
      assert q in more;
    }
  }

  lemma AntichainGrows(kept: seq<Path>, sorted: seq<Path>, i: nat)
    requires Antichain(kept) && ByLength(sorted) && i < |sorted|
    requires (forall q <- kept :: q in sorted[..i]) && !Covers(kept, sorted[i])
    ensures Antichain(kept + [sorted[i]])
  {
    var more := kept + [sorted[i]];
    forall a, b | 0 <= a < b < |more| ensures !Comparable(more[a], more[b]) {
      if b < |kept| {
        assert !Comparable(kept[a], kept[b]);
      } else {
        assert kept[a] in kept;
        var k :| 0 <= k < i && sorted[..i][k] == kept[a];
        assert |sorted[k]| <= |sorted[i]|;
      }
    }
  }

  // ------------------------------------------------------------------- the filter

  /** What the walk descends into. */
  predicate Passes(prefixes: seq<Path>, rel: Path) {
    rel == [] || exists q <- prefixes :: rel <= q || q <= rel
  }

  /** Dropping covered prefixes changes nothing for the walk. */
  lemma MinimalPassesTheSame(all: seq<Path>, minimal: seq<Path>, rel: Path)
    requires (forall q <- minimal :: q in all) && forall p <- all :: Covers(minimal, p)
    ensures Passes(all, rel) <==> Passes(minimal, rel)
  {
    if rel != [] && Passes(all, rel) {
      var p :| p in all && (rel <= p || p <= rel);
      assert Covers(minimal, p);
      var q :| q in minimal && q <= p;
      if rel <= p {
        assert rel == p[..|rel|] && q == p[..|q|];
      }
    }
  }

  /** `is_included`: a pattern matches the path or one of its ancestors. */
  predicate Included(matches: Glob, patterns: seq<string>, p: Path) {
    exists i, k :: 0 <= i < |patterns| && 1 <= k <= |p| && matches(patterns[i], Join(p[..k]))
  }

  predicate MatchedBy(matches: Glob, patterns: seq<string>, p: Path) {
    exists pattern <- patterns :: matches(pattern, Join(p))
  }

  /** A path is included by itself or through its parent; the root of the workspace never is. */
  lemma IncludedThroughParent(matches: Glob, patterns: seq<string>, p: Path)
    ensures Included(matches, patterns, p) <==>
            p != [] && (MatchedBy(matches, patterns, p) || Included(matches, patterns, p[..|p| - 1]))
  {
    if i, k :| 0 <= i < |patterns| && 1 <= k <= |p| && matches(patterns[i], Join(p[..k])) {
      if k == |p| {
        assert p[..k] == p && patterns[i] in patterns;
      } else {
        assert p[..|p| - 1][..k] == p[..k];
      }
    }
    if p != [] && MatchedBy(matches, patterns, p) {
      var pattern :| pattern in patterns && matches(pattern, Join(p));
      var i :| 0 <= i < |patterns| && patterns[i] == pattern;
      assert p[..|p|] == p;
    }
    if p != [] && Included(matches, patterns, p[..|p| - 1]) {
      var i, k :| 0 <= i < |patterns| && 1 <= k <= |p| - 1 && matches(patterns[i], Join(p[..|p| - 1][..k]));
      assert p[..|p| - 1][..k] == p[..k];
    }
  }

  /** Every pattern is tried on the path and on every ancestor, the nearest first. */
  method IsIncluded(matches: Glob, patterns: seq<string>, p: Path) returns (included: bool)
    ensures included <==> Included(matches, patterns, p)
  {
    for i := 0 to |patterns|
      invariant forall j, k :: 0 <= j < i && 1 <= k <= |p| ==> !matches(patterns[j], Join(p[..k]))
    {
      for k := |p| downto 0
        invariant forall l :: k < l <= |p| ==> !matches(patterns[i], Join(p[..l]))
      {
        if matches(patterns[i], Join(p[..k + 1])) {
          return true;
        }
      }
    }
    return false;
  }

  method CollectPrefixes(patterns: seq<string>) returns (prefixes: seq<Path>)
    ensures |prefixes| == |patterns|
    ensures forall i :: 0 <= i < |patterns| ==> prefixes[i] == LiteralPrefix(Split(patterns[i]), true)
  {
    prefixes := [];
    for i := 0 to |patterns|
      invariant |prefixes| == i
      invariant forall j :: 0 <= j < i ==> prefixes[j] == LiteralPrefix(Split(patterns[j]), true)
    {
      var prefix := PatternPrefix(patterns[i]);
      prefixes := prefixes + [prefix];
    }
  }

  /** The filter lets the walk reach every included path: all its ancestors pass, and itself. */
  ghost predicate Reaches(prefixes: seq<Path>, matches: Glob, patterns: seq<string>) {
    forall p: Path, k: nat {:trigger Passes(prefixes, p[..k])} ::
      k <= |p| && IsPath(p) && Included(matches, patterns, p) ==> Passes(prefixes, p[..k])
  }

  /** `artifact_walk_prefixes`. */
  method WalkPrefixes(patterns: seq<string>, ghost matches: Glob) returns (minimal: seq<Path>)
    requires LiteralStart(matches)
    ensures Antichain(minimal)
    ensures Reaches(minimal, matches, patterns)
  {
    var all := CollectPrefixes(patterns);
    minimal := Minimal(all);
    forall p: Path, k: nat | k <= |p| && IsPath(p) && Included(matches, patterns, p)
      ensures Passes(minimal, p[..k])
    {
      IncludedPasses(matches, patterns, all, p, k);
      MinimalPassesTheSame(all, minimal, p[..k]);
    }
  }

  lemma IncludedPasses(matches: Glob, patterns: seq<string>, all: seq<Path>, p: Path, k: nat)
    requires LiteralStart(matches) && k <= |p| && IsPath(p) && Included(matches, patterns, p)
    requires |all| == |patterns| && forall i :: 0 <= i < |patterns| ==> all[i] == LiteralPrefix(Split(patterns[i]), true)
    ensures Passes(all, p[..k])
  {
    var i, n :| 0 <= i < |patterns| && 1 <= n <= |p| && matches(patterns[i], Join(p[..n]));
    MatchIsUnderPrefix(matches, patterns[i], p[..n]);
    var q := all[i];
    assert q in all && q <= p[..n];
    assert q == p[..|q|];
  }

  // --------------------------------------------------------------------- the walk

  /** A workspace tree; anything but a directory is a leaf, symbolic links included. */
  datatype Tree = Leaf(regular: bool) | Dir(children: Entries)
  datatype Entries = NoMore | Entry(name: string, tree: Tree, others: Entries)

  datatype Found = Found(path: Path, regular: bool)

  /** Every non-directory below `at`, in walk order, entering only what `enter` admits. */
  function Walk(tree: Tree, at: Path, enter: Path -> bool): seq<Found> {
    if !enter(at) then []
    else if tree.Leaf? then [Found(at, tree.regular)]
    else WalkEntries(tree.children, at, enter)
  }

  function WalkEntries(entries: Entries, at: Path, enter: Path -> bool): seq<Found> {
    match entries
    case NoMore => []
    case Entry(name, tree, others) => Walk(tree, at + [name], enter) + WalkEntries(others, at, enter)
  }

  function Selected(found: seq<Found>, keep: Path -> bool): seq<Found> {
    if found == [] then []
    else (if keep(found[0].path) then [found[0]] else []) + Selected(found[1..], keep)
  }

  lemma RegroupFound(a: seq<Found>, b: seq<Found>, c: seq<Found>)
    ensures a + b + c == a + (b + c)
  {
  }

  lemma {:induction false} SelectedAppends(a: seq<Found>, b: seq<Found>, keep: Path -> bool)
    ensures Selected(a + b, keep) == Selected(a, keep) + Selected(b, keep)
  {
    if a == [] {
      assert a + b == b;
    } else {
      assert (a + b)[1..] == a[1..] + b && (a + b)[0] == a[0];
      SelectedAppends(a[1..], b, keep);
      RegroupFound(if keep(a[0].path) then [a[0]] else [], Selected(a[1..], keep), Selected(b, keep));
    }
  }

  /** Nothing that is kept lies below a path that is not entered. */
  ghost predicate Admits(enter: Path -> bool, keep: Path -> bool) {
    forall p: Path, k: nat {:trigger enter(p[..k])} :: k <= |p| && keep(p) ==> enter(p[..k])
  }

  predicate Everything(p: Path) { true }

  lemma {:induction false} WalkStaysBelow(tree: Tree, at: Path, enter: Path -> bool)
    ensures forall f <- Walk(tree, at, enter) :: at <= f.path
    decreases tree
  {
    if tree.Dir? {
      WalkEntriesStayBelow(tree.children, at, enter);
    }
  }

  lemma {:induction false} WalkEntriesStayBelow(entries: Entries, at: Path, enter: Path -> bool)
    ensures forall f <- WalkEntries(entries, at, enter) :: at <= f.path
    decreases entries
  {
    if entries.Entry? {
      WalkStaysBelow(entries.tree, at + [entries.name], enter);
      WalkEntriesStayBelow(entries.others, at, enter);
    }
  }

  lemma {:induction false} NothingSelected(found: seq<Found>, keep: Path -> bool)
    requires forall f <- found :: !keep(f.path)
    ensures Selected(found, keep) == []
  {
    if found != [] {
      assert found[0] in found;
      NothingSelected(found[1..], keep);
    }
  }

  /** Pruning loses nothing: both walks select the same files in the same order. */
  lemma {:induction false} PrunedWalkSelectsTheSame(tree: Tree, at: Path, enter: Path -> bool, keep: Path -> bool)
    requires Admits(enter, keep)
    ensures Selected(Walk(tree, at, enter), keep) == Selected(Walk(tree, at, Everything), keep)
    decreases tree
  {
    if !enter(at) {
      WalkStaysBelow(tree, at, Everything);
      forall f <- Walk(tree, at, Everything) ensures !keep(f.path) {
        assert f.path[..|at|] == at;
      }
      NothingSelected(Walk(tree, at, Everything), keep);
    } else if tree.Dir? {
      PrunedEntriesSelectTheSame(tree.children, at, enter, keep);
    }
  }

  lemma {:induction false} PrunedEntriesSelectTheSame(entries: Entries, at: Path, enter: Path -> bool, keep: Path -> bool)
    requires Admits(enter, keep)
    ensures Selected(WalkEntries(entries, at, enter), keep) == Selected(WalkEntries(entries, at, Everything), keep)
    decreases entries
  {
    if entries.Entry? {
      var below := at + [entries.name];
      PrunedWalkSelectsTheSame(entries.tree, below, enter, keep);
      PrunedEntriesSelectTheSame(entries.others, at, enter, keep);
      SelectedAppends(Walk(entries.tree, below, enter), WalkEntries(entries.others, at, enter), keep);
      SelectedAppends(Walk(entries.tree, below, Everything), WalkEntries(entries.others, at, Everything), keep);
    }
  }

  // ------------------------------------------------------------- what the walk finds

  predicate IsChild(entries: Entries, name: string, tree: Tree) {
    entries.Entry? && ((entries.name == name && entries.tree == tree) || IsChild(entries.others, name, tree))
  }

  /** Going down from name to name along `p` ends at a leaf. */
  ghost predicate LeafAt(tree: Tree, p: Path, regular: bool)
    decreases |p|
  {
    if p == [] then tree == Leaf(regular)
    else tree.Dir? && LeafAmong(tree.children, p, regular)
  }

  ghost predicate LeafAmong(entries: Entries, p: Path, regular: bool)
    requires p != []
    decreases |p|, 0
  {
    exists t :: IsChild(entries, p[0], t) && LeafAt(t, p[1..], regular)
  }

  lemma {:induction false} WalkFindsLeaves(tree: Tree, at: Path, p: Path, regular: bool)
    ensures Found(at + p, regular) in Walk(tree, at, Everything) <==> LeafAt(tree, p, regular)
    decreases tree
  {
    if tree.Leaf? {
      assert at + p == at <==> p == [];
    } else {
      WalkEntriesFindLeaves(tree.children, at, p, regular);
    }
  }

  lemma {:induction false} WalkEntriesFindLeaves(entries: Entries, at: Path, p: Path, regular: bool)
    ensures Found(at + p, regular) in WalkEntries(entries, at, Everything) <==>
            p != [] && LeafAmong(entries, p, regular)
    decreases entries
  {
    if entries.Entry? {
      var first := Walk(entries.tree, at + [entries.name], Everything);
      WalkEntriesFindLeaves(entries.others, at, p, regular);
      WalkStaysBelow(entries.tree, at + [entries.name], Everything);
      if p != [] && p[0] == entries.name {
        WalkFindsLeaves(entries.tree, at + [entries.name], p[1..], regular);
        assert at + [entries.name] + p[1..] == at + p;
      } else {
        NotBelow(at, p, entries.name);
      }
      if p != [] {
        LeafAmongMore(entries, p, regular);
      }
    }
  }

  lemma NotBelow(at: Path, p: Path, name: string)
    requires p == [] || p[0] != name
    ensures !(at + [name] <= at + p)
  {
    if p != [] {
      assert (at + p)[|at|] == p[0] && (at + [name])[|at|] == name;
    }
  }

  lemma LeafAmongMore(entries: Entries, p: Path, regular: bool)
    requires entries.Entry? && p != []
    ensures LeafAmong(entries, p, regular) <==>
            (p[0] == entries.name && LeafAt(entries.tree, p[1..], regular)) || LeafAmong(entries.others, p, regular)
  {
    if p[0] == entries.name && LeafAt(entries.tree, p[1..], regular) {
      assert IsChild(entries, p[0], entries.tree);
    }
    if LeafAmong(entries.others, p, regular) {
      var t :| IsChild(entries.others, p[0], t) && LeafAt(t, p[1..], regular);
      assert IsChild(entries, p[0], t);
    }
  }

  lemma {:induction false} SelectedMembers(found: seq<Found>, keep: Path -> bool, f: Found)
    ensures f in Selected(found, keep) <==> f in found && keep(f.path)
  {
    if found != [] {
      SelectedMembers(found[1..], keep, f);
      assert found == [found[0]] + found[1..];
    }
  }

  /** The walk selects exactly the leaves of the tree that are kept. */
  lemma SelectedLeaves(tree: Tree, keep: Path -> bool, p: Path, regular: bool)
    ensures Found(p, regular) in Selected(Walk(tree, [], Everything), keep) <==> LeafAt(tree, p, regular) && keep(p)
  {
    SelectedMembers(Walk(tree, [], Everything), keep, Found(p, regular));
    WalkFindsLeaves(tree, [], p, regular);
    assert [] + p == p;
  }

  // ------------------------------------------------------------------ the collector

  function PathsOf(found: seq<Found>): seq<Path> {
    seq(|found|, i requires 0 <= i < |found| => found[i].path)
  }

  predicate AllRegular(found: seq<Found>) {
    forall f <- found :: f.regular
  }

  lemma SelectedNext(found: seq<Found>, i: nat, keep: Path -> bool)
    requires i < |found|
    ensures Selected(found[..i + 1], keep) ==
            Selected(found[..i], keep) + if keep(found[i].path) then [found[i]] else []
  {
    assert found[..i + 1] == found[..i] + [found[i]];
    SelectedAppends(found[..i], [found[i]], keep);
  }

  function Wanted(matches: Glob, patterns: seq<string>, excluded: Path -> bool): Path -> bool {
    (p: Path) => IsPath(p) && !excluded(p) && Included(matches, patterns, p)
  }

  /** The loop over what the walk yields: a chosen entry that is no regular file is an error. */
  method TakeRegular(found: seq<Found>, matches: Glob, patterns: seq<string>, excluded: Path -> bool,
                     ghost keep: Path -> bool)
    returns (files: Option<seq<Path>>)
    requires keep == Wanted(matches, patterns, excluded)
    ensures files.Some? <==> AllRegular(Selected(found, keep))
    ensures files.Some? ==> files.value == PathsOf(Selected(found, keep))
  {
    var taken := [];
    for i := 0 to |found|
      invariant AllRegular(Selected(found[..i], keep)) && taken == PathsOf(Selected(found[..i], keep))
    {
      SelectedNext(found, i, keep);
      var wanted := IsWanted(found[i].path, matches, patterns, excluded, keep);
      if wanted {
        if !found[i].regular {
          SelectedMembers(found, keep, found[i]);
          return None;
        }
        taken := taken + [found[i].path];
      }
    }
    assert found[..|found|] == found;
    return Some(taken);
  }

  method IsWanted(p: Path, matches: Glob, patterns: seq<string>, excluded: Path -> bool, ghost keep: Path -> bool)
    returns (wanted: bool)
    requires keep == Wanted(matches, patterns, excluded)
    ensures wanted == keep(p)
  {
    if !IsPath(p) || excluded(p) {
      return false;
    }
    wanted := IsIncluded(matches, patterns, p);
  }

  /**
   * The collector returns exactly the regular files of the workspace that are included and not
   * excluded, in walk order, and fails exactly when something else is.
   */
  method Collect(tree: Tree, patterns: seq<string>, matches: Glob, excluded: Path -> bool)
    returns (files: Option<seq<Path>>)
    requires LiteralStart(matches)
    ensures
      var keep := Wanted(matches, patterns, excluded);
      && (files.Some? <==> forall p :: LeafAt(tree, p, false) ==> !keep(p))
      && (files.Some? ==> forall p :: p in files.value <==> LeafAt(tree, p, true) && keep(p))
      && (files.Some? ==> files.value == PathsOf(Selected(Walk(tree, [], Everything), keep)))
  {
    var prefixes := WalkPrefixes(patterns, matches);
    var enter := (p: Path) => Passes(prefixes, p);
    ghost var keep := Wanted(matches, patterns, excluded);
    forall p: Path, k: nat | k <= |p| && keep(p) ensures enter(p[..k]) {
      assert Passes(prefixes, p[..k]);
    }
    PrunedWalkSelectsTheSame(tree, [], enter, keep);
    files := TakeRegular(Walk(tree, [], enter), matches, patterns, excluded, keep);
    ChosenLeaves(tree, keep);
  }

  lemma ChosenLeaves(tree: Tree, keep: Path -> bool)
    ensures
      var chosen := Selected(Walk(tree, [], Everything), keep);
      && (AllRegular(chosen) <==> forall p :: LeafAt(tree, p, false) ==> !keep(p))
      && (AllRegular(chosen) ==> forall p :: p in PathsOf(chosen) <==> LeafAt(tree, p, true) && keep(p))
  {
    var chosen := Selected(Walk(tree, [], Everything), keep);
    forall p, regular ensures Found(p, regular) in chosen <==> LeafAt(tree, p, regular) && keep(p) {
      SelectedLeaves(tree, keep, p, regular);
    }
    if !AllRegular(chosen) {
      var f :| f in chosen && !f.regular;
      assert f == Found(f.path, false);
    }
    if AllRegular(chosen) {
      forall p ensures p in PathsOf(chosen) <==> Found(p, true) in chosen {
        PathsOfFound(chosen, p);
      }
    }
  }

  lemma PathsOfFound(found: seq<Found>, p: Path)
    requires AllRegular(found)
    ensures p in PathsOf(found) <==> Found(p, true) in found
  {
    if p in PathsOf(found) {
      var i :| 0 <= i < |found| && PathsOf(found)[i] == p;
      assert found[i] in found && found[i] == Found(p, true);
    }
    if Found(p, true) in found {
      var i :| 0 <= i < |found| && found[i] == Found(p, true);
      assert PathsOf(found)[i] == p;
    }
  }
}
