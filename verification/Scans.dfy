/** One pass over a sequence, judging every element beside those before it. */
module Scans {

  predicate Scanned<T(!new)>(passes: (seq<T>, T) -> bool, s: seq<T>) {
    if s == [] then true
    else
      var n := |s| - 1;
      Scanned(passes, s[..n]) && passes(s[..n], s[n])
  }

  lemma ScannedOneMore<T(!new)>(passes: (seq<T>, T) -> bool, s: seq<T>, i: nat)
    requires i < |s|
    ensures Scanned(passes, s[..i + 1]) <==> Scanned(passes, s[..i]) && passes(s[..i], s[i])
  {
    assert s[..i + 1][..i] == s[..i];
  }

  lemma {:induction false} ScannedPrefix<T(!new)>(passes: (seq<T>, T) -> bool, s: seq<T>, k: nat)
    requires k <= |s| && Scanned(passes, s)
    ensures Scanned(passes, s[..k])
  {
    if k == |s| {
      assert s[..k] == s;
    } else {
      var front := s[..|s| - 1];
      ScannedPrefix(passes, front, k);
      assert front[..k] == s[..k];
    }
  }

  /** `accept` is decided element by element by `passes`. */
  ghost predicate Decided<T(!new)>(accept: seq<T> -> bool, passes: (seq<T>, T) -> bool) {
    && accept([])
    && forall front, e {:trigger accept(front + [e])} :: accept(front + [e]) <==> accept(front) && passes(front, e)
  }

  lemma {:induction false} ScanDecides<T(!new)>(accept: seq<T> -> bool, passes: (seq<T>, T) -> bool, s: seq<T>)
    requires Decided(accept, passes)
    ensures Scanned(passes, s) <==> accept(s)
  {
    if s != [] {
      var n := |s| - 1;
      ScanDecides(accept, passes, s[..n]);
      assert s == s[..n] + [s[n]];
    }
  }
}
