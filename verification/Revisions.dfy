/** Revision names: `rev_` and a canonical 64-bit decimal. */
module Revisions {
  import opened Common

  function Digit(d: nat): char
    requires d < 10
  {
    ('0' as int + d) as char
  }

  predicate IsDigit(c: char) { '0' <= c <= '9' }

  predicate AllDigits(s: string) {
    forall i :: 0 <= i < |s| ==> IsDigit(s[i])
  }

  /** Rust's formatting of an unsigned integer. */
  function Decimal(n: nat): string {
    if n < 10 then [Digit(n)] else Decimal(n / 10) + [Digit(n % 10)]
  }

  function Value(s: string): nat
    requires AllDigits(s)
  {
    if s == "" then 0 else 10 * Value(s[..|s| - 1]) + (s[|s| - 1] as int - '0' as int)
  }

  /** `str::parse::<u64>` on digits, by accumulation from the left with an overflow check. */
  method ParseU64(s: string) returns (r: Option<nat>)
    requires s != "" && AllDigits(s)
    ensures r == if Value(s) <= U64_MAX then Some(Value(s)) else None
  {
    var n := 0;
    for i := 0 to |s|
      invariant n == Value(s[..i]) <= U64_MAX
    {
      assert s[..i + 1][..i] == s[..i];
      n := 10 * n + (s[i] as int - '0' as int);
      if n > U64_MAX {
        ValueAscends(s, i + 1);
        return None;
      }
    }
    assert s[..|s|] == s;
    return Some(n);
  }

  lemma {:induction false} ValueAscends(s: string, k: nat)
    requires k <= |s| && AllDigits(s)
    ensures Value(s[..k]) <= Value(s)
  {
    if k == |s| {
      assert s[..k] == s;
    } else {
      var front := s[..|s| - 1];
      ValueAscends(front, k);
      assert front[..k] == s[..k];
    }
  }

  predicate Canonical(s: string) {
    s != "" && (|s| > 1 ==> s[0] != '0') && AllDigits(s)
  }

  lemma {:induction false} DecimalIsCanonical(n: nat)
    ensures Canonical(Decimal(n)) && Value(Decimal(n)) == n
    ensures n > 0 ==> Decimal(n)[0] != '0'
  {
    if n >= 10 {
      var s := Decimal(n);
      DecimalIsCanonical(n / 10);
      assert s[..|s| - 1] == Decimal(n / 10) && s[|s| - 1] == Digit(n % 10);
      assert s[0] == Decimal(n / 10)[0];
    } else {
      var s := Decimal(n);
      assert s == [Digit(n)] && s[..0] == "";
    }
  }

  lemma {:induction false} CanonicalIsDecimal(s: string)
    requires Canonical(s)
    ensures Decimal(Value(s)) == s
    ensures s[0] != '0' ==> Value(s) > 0
  {
    var n := |s| - 1;
    if n == 0 {
      assert s[..0] == "" && s == [s[0]];
    } else {
      var front := s[..n];
      assert front[0] == s[0];
      CanonicalIsDecimal(front);
      assert Value(s) / 10 == Value(front);
      assert s == front + [s[n]];
    }
  }

  /** Reading a revision undoes writing it, and nothing else is read. */
  method ParseRevision(value: string) returns (r: Option<nat>)
    ensures r.Some? ==> r.value <= U64_MAX && value == "rev_" + Decimal(r.value)
    ensures r.None? ==> forall n: nat :: n <= U64_MAX ==> value != "rev_" + Decimal(n)
  {
    if |value| < 4 || value[..4] != "rev_" {
      forall n: nat ensures value != "rev_" + Decimal(n) {
        assert ("rev_" + Decimal(n))[..4] == "rev_";
      }
      return None;
    }
    var decimal := value[4..];
    assert value == "rev_" + decimal;
    if !Canonical(decimal) {
      forall n: nat ensures value != "rev_" + Decimal(n) {
        DecimalIsCanonical(n);
        assert ("rev_" + Decimal(n))[4..] == Decimal(n);
      }
      return None;
    }
    CanonicalIsDecimal(decimal);
    var revision := ParseU64(decimal);
    if revision.None? {
      forall n: nat | n <= U64_MAX ensures value != "rev_" + Decimal(n) {
        DecimalIsCanonical(n);
        assert ("rev_" + Decimal(n))[4..] == Decimal(n);
      }
      return None;
    }
    r := if "rev_" + Decimal(revision.value) == value then revision else None;
  }
}
