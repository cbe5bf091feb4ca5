/** Slash-separated relative paths, their components, and ASCII case folding. */
module Paths {

  /** Rust's `split('/')`. */
  function Split(s: string): (r: seq<string>)
    ensures r != []
    ensures forall c <- r :: '/' !in c
  {
    if s == "" then [""]
    else
      var rest := Split(s[1..]);
      if s[0] == '/' then [""] + rest
      else [[s[0]] + rest[0]] + rest[1..]
  }

  function Join(components: seq<string>): string {
    if components == [] then ""
    else if |components| == 1 then components[0]
    else components[0] + "/" + Join(components[1..])
  }

  lemma {:induction false} JoinPrepends(c: char, components: seq<string>)
    requires components != []
    ensures Join([[c] + components[0]] + components[1..]) == [c] + Join(components)
  {
    var longer := [[c] + components[0]] + components[1..];
    assert longer[1..] == components[1..];
  }

  lemma {:induction false} JoinOfSplit(s: string)
    ensures Join(Split(s)) == s
  {
    if s != "" {
      var rest := Split(s[1..]);
      JoinOfSplit(s[1..]);
      if s[0] == '/' {
        assert ([""] + rest)[1..] == rest;
        assert Join([""] + rest) == "" + "/" + Join(rest);
      } else {
        JoinPrepends(s[0], rest);
      }
    }
  }

  lemma {:induction false} SplitAppends(a: string, s: string)
    requires '/' !in a
    ensures Split(a + s) == [a + Split(s)[0]] + Split(s)[1..]
  {
    if a == "" {
      assert a + s == s && a + Split(s)[0] == Split(s)[0];
    } else {
      SplitAppends(a[1..], s);
      assert (a + s)[1..] == a[1..] + s;
      assert [a[0]] + (a[1..] + Split(s)[0]) == a + Split(s)[0];
    }
  }

  lemma {:induction false} SplitOfJoin(components: seq<string>)
    requires components != [] && forall c <- components :: '/' !in c
    ensures Split(Join(components)) == components
  {
    var first := components[0];
    if |components| == 1 {
      SplitAppends(first, "");
      assert first + "" == first;
    } else {
      var tail := "/" + Join(components[1..]);
      SplitOfJoin(components[1..]);
      SplitAppends(first, tail);
      assert tail[1..] == Join(components[1..]);
      assert Split(tail) == [""] + components[1..];
      assert first + "/" + Join(components[1..]) == first + tail;
      assert first + Split(tail)[0] == first && Split(tail)[1..] == components[1..];
    }
  }

  // ---------------------------------------------------------------- ancestors

  /** `a` is a proper ancestor of `b`. */
  predicate Above(a: string, b: string) {
    |a| < |b| && b[..|a|] == a && b[|a|] == '/'
  }

  function Ancestors(p: string): set<string> {
    set k | 0 <= k < |p| && p[k] == '/' :: p[..k]
  }

  lemma AncestorsAreAbove(a: string, p: string)
    ensures a in Ancestors(p) <==> Above(a, p)
  {
    if Above(a, p) {
      assert p[..|a|] == a;
    }
  }

  /** Every join of leading components ends at a slash ... */
  lemma {:induction false} LeadingJoinIsAbove(p: string, j: nat)
    requires 1 <= j < |Split(p)|
    ensures Above(Join(Split(p)[..j]), p)
  {
    var c, rest := Split(p), Split(p[1..]);
    if p[0] == '/' {
      if j == 1 {
        assert c[..1] == [""];
      } else {
        LeadingJoinIsAbove(p[1..], j - 1);
        assert c[..j] == [""] + rest[..j - 1];
        assert c[..j][1..] == rest[..j - 1];
        assert Join(c[..j]) == "/" + Join(rest[..j - 1]);
      }
    } else {
      LeadingJoinIsAbove(p[1..], j);
      assert c[..j] == [[p[0]] + rest[..j][0]] + rest[..j][1..];
      JoinPrepends(p[0], rest[..j]);
    }
  }

  /** ... and every slash ends such a join. */
  lemma {:induction false} SlashEndsLeadingJoin(p: string, k: nat) returns (j: nat)
    requires k < |p| && p[k] == '/'
    ensures 1 <= j < |Split(p)| && Join(Split(p)[..j]) == p[..k]
  {
    var c, rest := Split(p), Split(p[1..]);
    if k == 0 {
      j := 1;
      assert c[..1] == [""];
    } else {
      j := SlashEndsLeadingJoin(p[1..], k - 1);
      assert p[..k] == [p[0]] + p[1..][..k - 1];
      if p[0] == '/' {
        assert c[..j + 1] == [""] + rest[..j];
        assert c[..j + 1][1..] == rest[..j];
        j := j + 1;
      } else {
        assert c[..j] == [[p[0]] + rest[..j][0]] + rest[..j][1..];
        JoinPrepends(p[0], rest[..j]);
      }
    }
  }

  /** Growing a join by one more component. */
  lemma {:induction false} JoinExtends(components: seq<string>, k: nat)
    requires 1 <= k < |components|
    ensures Join(components[..k + 1]) == Join(components[..k]) + "/" + components[k]
  {
    var short, long := components[..k], components[..k + 1];
    if k == 1 {
      assert short == [components[0]] && long[1..] == [components[1]];
    } else {
      JoinExtends(components[1..], k - 1);
      assert short[1..] == components[1..][..k - 1] && long[1..] == components[1..][..k];
      assert Join(long) == components[0] + "/" + (Join(short[1..]) + "/" + components[k]);
    }
  }

  /** A path all of whose components name something. */
  predicate Plain(p: string) {
    forall c <- Split(p) :: c != "" && c != "." && c != ".."
  }

  // ------------------------------------------------------------- case folding

  function FoldChar(c: char): char {
    if 'A' <= c <= 'Z' then (c as int + 32) as char else c
  }

  /** `to_ascii_lowercase`. */
  function Fold(s: string): (r: string)
    ensures |r| == |s|
    ensures forall i :: 0 <= i < |s| ==> r[i] == FoldChar(s[i])
  {
    seq(|s|, i requires 0 <= i < |s| => FoldChar(s[i]))
  }

  const UPPER := "ABCDEFGHIJKLMNOPQRSTUVWXYZ"
  const LOWER := "abcdefghijklmnopqrstuvwxyz"

  /** The two cases of one ASCII letter. */
  predicate CasesOf(upper: char, lower: char) {
    exists k :: 0 <= k < 26 && UPPER[k] == upper && LOWER[k] == lower
  }

  predicate SameLetter(c: char, d: char) {
    c == d || CasesOf(c, d) || CasesOf(d, c)
  }

  lemma LetterCodes(k: nat)
    requires k < 26
    ensures UPPER[k] as int == 65 + k && LOWER[k] as int == 97 + k
  {
  }

  lemma CasesByCode(upper: char, lower: char)
    ensures CasesOf(upper, lower) <==> 65 <= upper as int < 91 && lower as int == upper as int + 32
  {
    if k :| 0 <= k < 26 && UPPER[k] == upper && LOWER[k] == lower {
      LetterCodes(k);
    }
    if 65 <= upper as int < 91 && lower as int == upper as int + 32 {
      LetterCodes(upper as int - 65);
    }
  }

  lemma FoldCharAlike(c: char, d: char)
    ensures FoldChar(c) == FoldChar(d) <==> SameLetter(c, d)
  {
    CasesByCode(c, d);
    CasesByCode(d, c);
  }

  /** Strings fold alike exactly when they agree up to ASCII case. */
  lemma FoldsAlike(a: string, b: string)
    ensures Fold(a) == Fold(b) <==> |a| == |b| && forall i :: 0 <= i < |a| ==> SameLetter(a[i], b[i])
  {
    forall i | 0 <= i < |a| && i < |b| ensures FoldChar(a[i]) == FoldChar(b[i]) <==> SameLetter(a[i], b[i]) {
      FoldCharAlike(a[i], b[i]);
    }
    if Fold(a) == Fold(b) {
      forall i | 0 <= i < |a| ensures SameLetter(a[i], b[i]) {
        assert Fold(a)[i] == Fold(b)[i];
      }
    }
  }

  /** How a file system finds a path: some fold ASCII case. */
  function Lookup(folding: bool, path: string): (r: string)
    ensures |r| == |path|
    ensures forall i :: 0 <= i < |path| ==> (r[i] == '/' <==> path[i] == '/')
  {
    if folding then Fold(path) else path
  }

  lemma LookupSlices(folding: bool, s: string, k: nat)
    requires k <= |s|
    ensures Lookup(folding, s[..k]) == Lookup(folding, s)[..k]
  {
  }

  /** Folding keeps ancestry. */
  lemma LookupKeepsAbove(folding: bool, a: string, b: string)
    requires Above(a, b)
    ensures Above(Lookup(folding, a), Lookup(folding, b))
  {
    LookupSlices(folding, b, |a|);
  }

  /** Where the joins of the first 1 to `k` components of a path are looked up. */
  function LeadingJoins(folding: bool, p: string, k: nat): set<string>
    requires k <= |Split(p)|
  {
    set j | 1 <= j <= k :: Lookup(folding, Join(Split(p)[..j]))
  }

  lemma LeadingJoinsGrow(folding: bool, p: string, k: nat)
    requires k < |Split(p)|
    ensures LeadingJoins(folding, p, k + 1) ==
            LeadingJoins(folding, p, k) + {Lookup(folding, Join(Split(p)[..k + 1]))}
  {
  }

  /** Walking the components before the last meets exactly the ancestors of the path. */
  lemma LeadingJoinsAreAncestors(folding: bool, p: string)
    ensures LeadingJoins(folding, p, |Split(p)| - 1) == Ancestors(Lookup(folding, p))
  {
    var joins := LeadingJoins(folding, p, |Split(p)| - 1);
    forall x <- joins ensures x in Ancestors(Lookup(folding, p)) {
      var j :| 1 <= j < |Split(p)| && x == Lookup(folding, Join(Split(p)[..j]));
      LeadingJoinIsAbove(p, j);
      LookupKeepsAbove(folding, Join(Split(p)[..j]), p);
      AncestorsAreAbove(x, Lookup(folding, p));
    }
    forall x <- Ancestors(Lookup(folding, p)) ensures x in joins {
      var k :| 0 <= k < |p| && Lookup(folding, p)[k] == '/' && x == Lookup(folding, p)[..k];
      LookupSlices(folding, p, k);
      var j := SlashEndsLeadingJoin(p, k);
    }
  }

  /** Walking all of them also meets the path itself. */
  lemma AllLeadingJoins(folding: bool, p: string)
    ensures LeadingJoins(folding, p, |Split(p)|) == Ancestors(Lookup(folding, p)) + {Lookup(folding, p)}
  {
    var n := |Split(p)|;
    LeadingJoinsGrow(folding, p, n - 1);
    LeadingJoinsAreAncestors(folding, p);
    assert Split(p)[..n] == Split(p);
    JoinOfSplit(p);
  }
}
