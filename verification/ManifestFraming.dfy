/** What the client feeds to the aggregate hash of a source manifest. */
module ManifestFraming {

  type byte = x: nat | x < 256

  /** `digest` is a SHA-256 value and `size` a 64-bit count. */
  datatype Entry = Entry(path: seq<byte>, isLink: bool, size: nat, digest: seq<byte>)

  const U64: nat := 0x1_0000_0000_0000_0000

  predicate WellFormed(e: Entry) {
    |e.path| < U64 && e.size < U64 && |e.digest| == 32
  }

  /** `n` in `k` little-endian bytes, dropping what does not fit. */
  function LittleEndian(n: nat, k: nat): (r: seq<byte>)
    ensures |r| == k
  {
    if k == 0 then [] else [n % 256] + LittleEndian(n / 256, k - 1)
  }

  function Value(bytes: seq<byte>): nat {
    if bytes == [] then 0 else bytes[0] + 256 * Value(bytes[1..])
  }

  function Power(k: nat): nat {
    if k == 0 then 1 else 256 * Power(k - 1)
  }

  lemma {:induction false} ValueOfLittleEndian(n: nat, k: nat)
    requires n < Power(k)
    ensures Value(LittleEndian(n, k)) == n
  {
    if k > 0 {
      ValueOfLittleEndian(n / 256, k - 1);
      assert LittleEndian(n, k)[1..] == LittleEndian(n / 256, k - 1);
    }
  }

  lemma EightBytes(n: nat)
    requires n < U64
    ensures Value(LittleEndian(n, 8)) == n
  {
    assert Power(4) == 0x1_0000_0000 by {
      assert Power(2) == 0x1_0000;
    }
    assert Power(6) == 0x1_0000_0000_0000;
    assert Power(8) == U64;
    ValueOfLittleEndian(n, 8);
  }

  function Frame(e: Entry): seq<byte> {
    LittleEndian(|e.path|, 8) + e.path + [if e.isLink then 1 else 0] + LittleEndian(e.size, 8) + e.digest
  }

  function Frames(entries: seq<Entry>): seq<byte> {
    if entries == [] then [] else Frame(entries[0]) + Frames(entries[1..])
  }

  method UpdateAggregate(hashed: seq<byte>, e: Entry) returns (next: seq<byte>)
    ensures next == hashed + Frame(e)
  {
    next := hashed + LittleEndian(|e.path|, 8);
    next := next + e.path;
    next := next + [if e.isLink then 1 else 0];
    next := next + LittleEndian(e.size, 8);
    next := next + e.digest;
  }

  /** The bytes hashed while packaging, one entry after the other. */
  method Aggregate(entries: seq<Entry>) returns (hashed: seq<byte>)
    ensures hashed == Frames(entries)
  {
    hashed := [];
    for i := 0 to |entries|
      invariant hashed + Frames(entries[i..]) == Frames(entries)
    {
      Regroup(hashed, Frame(entries[i]), Frames(entries[i..][1..]));
      hashed := UpdateAggregate(hashed, entries[i]);
      assert entries[i..][1..] == entries[i + 1..];
    }
  }

  lemma Regroup(a: seq<byte>, b: seq<byte>, c: seq<byte>)
    ensures a + b + c == a + (b + c)
  {
  }

  /** The first entry of a stream can be read back from it. */
  lemma FirstFrame(e: Entry, rest: seq<byte>)
    requires WellFormed(e)
    ensures
      var s, n := Frame(e) + rest, |e.path|;
      && |s| >= 49 + n && Value(s[..8]) == n && s[8..8 + n] == e.path
      && (s[8 + n] == 1 <==> e.isLink)
      && Value(s[9 + n..17 + n]) == e.size && s[17 + n..49 + n] == e.digest && s[49 + n..] == rest
  {
    var s, n := Frame(e) + rest, |e.path|;
    EightBytes(n);
    EightBytes(e.size);
    assert s[..8] == LittleEndian(n, 8);
    assert s[8..8 + n] == e.path;
    assert s[9 + n..17 + n] == LittleEndian(e.size, 8);
    assert s[17 + n..49 + n] == e.digest;
    assert s[49 + n..] == rest;
  }

  /** Different manifests are hashed differently: framing leaves no ambiguity. */
  lemma {:induction false} FramesAreInjective(a: seq<Entry>, b: seq<Entry>)
    requires forall e <- a + b :: WellFormed(e)
    requires Frames(a) == Frames(b)
    ensures a == b
    decreases |a|
  {
    if a != [] && b != [] {
      assert a[0] in a + b && b[0] in a + b;
      FirstFrame(a[0], Frames(a[1..]));
      FirstFrame(b[0], Frames(b[1..]));
      assert a[0] == b[0];
      forall e <- a[1..] + b[1..] ensures WellFormed(e) {
        assert e in a + b;
      }
      FramesAreInjective(a[1..], b[1..]);
      assert a == [a[0]] + a[1..] && b == [b[0]] + b[1..];
    }
  }
}
