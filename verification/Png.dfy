/** The framing check made on captured PNG images. */
module Png {
  import opened Common
  import opened Crc32

  const SIGNATURE: seq<byte> := [0x89, 0x50, 0x4E, 0x47, 0x0D, 0x0A, 0x1A, 0x0A]
  const IHDR: seq<byte> := [0x49, 0x48, 0x44, 0x52]
  const IDAT: seq<byte> := [0x49, 0x44, 0x41, 0x54]
  const IEND: seq<byte> := [0x49, 0x45, 0x4E, 0x44]

  // ---------------------------------------------------------------- big-endian words

  const LENGTHS: nat := 0x1_0000_0000

  function Compose(a: int, b: int, c: int, d: int): int {
    ((a * 256 + b) * 256 + c) * 256 + d
  }

  function Number(b: seq<byte>): (n: nat)
    requires |b| == 4
    ensures n < LENGTHS
  {
    ComposeIsBounded(b[0] as int, b[1] as int, b[2] as int, b[3] as int);
    Compose(b[0] as int, b[1] as int, b[2] as int, b[3] as int)
  }

  lemma ComposeIsBounded(a: int, b: int, c: int, d: int)
    requires 0 <= a < 256 && 0 <= b < 256 && 0 <= c < 256 && 0 <= d < 256
    ensures 0 <= Compose(a, b, c, d) < LENGTHS
  {
  }

  lemma ByteRoundTrip(n: nat)
    requires n < 256
    ensures (n as byte) as int == n
  {
    assert n % 256 == n;
  }

  function Digit(n: nat): (b: byte)
    requires n < 256
    ensures b as int == n
  {
    ByteRoundTrip(n);
    n as byte
  }

  function Digits(n: nat): (b: seq<byte>)
    requires n < LENGTHS
    ensures |b| == 4
  {
    [Digit(n / 256 / 256 / 256), Digit(n / 256 / 256 % 256), Digit(n / 256 % 256), Digit(n % 256)]
  }

  lemma Recomposed(n: nat)
    ensures Compose(n / 256 / 256 / 256, n / 256 / 256 % 256, n / 256 % 256, n % 256) == n
  {
  }

  lemma NumberOfDigits(n: nat)
    requires n < LENGTHS
    ensures Number(Digits(n)) == n
  {
    Recomposed(n);
  }

  lemma ComposeIsInjective(a: int, b: int, c: int, d: int, a': int, b': int, c': int, d': int)
    requires 0 <= b < 256 && 0 <= c < 256 && 0 <= d < 256
    requires 0 <= b' < 256 && 0 <= c' < 256 && 0 <= d' < 256
    requires Compose(a, b, c, d) == Compose(a', b', c', d')
    ensures a == a' && b == b' && c == c' && d == d'
  {
    assert d == d';
    assert c == c';
    assert b == b';
  }

  lemma SameDigit(a: byte, b: byte)
    requires a as int == b as int
    ensures a == b
  {
    assert (a as int) as byte == a && (b as int) as byte == b;
  }

  lemma NumberIsInjective(a: seq<byte>, b: seq<byte>)
    requires |a| == |b| == 4 && Number(a) == Number(b)
    ensures a == b
  {
    ComposeIsInjective(a[0] as int, a[1] as int, a[2] as int, a[3] as int,
                       b[0] as int, b[1] as int, b[2] as int, b[3] as int);
    SameDigit(a[0], b[0]);
    SameDigit(a[1], b[1]);
    SameDigit(a[2], b[2]);
    SameDigit(a[3], b[3]);
  }

  lemma DigitsOfNumber(b: seq<byte>)
    requires |b| == 4
    ensures Digits(Number(b)) == b
  {
    NumberOfDigits(Number(b));
    NumberIsInjective(Digits(Number(b)), b);
  }

  function CrcOf(b: seq<byte>): word
    requires |b| == 4
  {
    (b[0] as word << 24) | (b[1] as word << 16) | (b[2] as word << 8) | b[3] as word
  }

  function CrcBytes(c: word): (b: seq<byte>)
    ensures |b| == 4
  {
    [(c >> 24) as byte, ((c >> 16) & 0xFF) as byte, ((c >> 8) & 0xFF) as byte, (c & 0xFF) as byte]
  }

  lemma CrcRoundTrip(c: word)
    ensures CrcOf(CrcBytes(c)) == c
  {
  }

  lemma CrcOfIsInjective(a: seq<byte>, b: seq<byte>)
    requires |a| == |b| == 4 && CrcOf(a) == CrcOf(b)
    ensures a == b
  {
    FourParts(a[0], a[1], a[2], a[3], b[0], b[1], b[2], b[3]);
  }

  lemma FourParts(a0: byte, a1: byte, a2: byte, a3: byte, b0: byte, b1: byte, b2: byte, b3: byte)
    requires (a0 as word << 24) | (a1 as word << 16) | (a2 as word << 8) | a3 as word ==
             (b0 as word << 24) | (b1 as word << 16) | (b2 as word << 8) | b3 as word
    ensures a0 == b0 && a1 == b1 && a2 == b2 && a3 == b3
  {
  }

  lemma CrcFieldMatches(b: seq<byte>, c: word)
    requires |b| == 4
    ensures CrcOf(b) == c <==> b == CrcBytes(c)
  {
    CrcRoundTrip(c);
    if CrcOf(b) == c {
      CrcOfIsInjective(b, CrcBytes(c));
    }
  }

  // ---------------------------------------------------------------------- chunks

  datatype Chunk = Chunk(kind: seq<byte>, payload: seq<byte>)

  predicate Framed(c: Chunk) {
    |c.kind| == 4 && |c.payload| < LENGTHS
  }

  function Frame(length: seq<byte>, body: seq<byte>, crc: seq<byte>): seq<byte> {
    length + body + crc
  }

  /** Length, type, payload and CRC. */
  function Encode(c: Chunk): seq<byte> {
    if !Framed(c) then []
    else Frame(Digits(|c.payload|), c.kind + c.payload, CrcBytes(Crc(c.kind + c.payload)))
  }

  /** The chunk at the start of `rest`, when it is complete and its CRC is right. */
  function ReadChunk(rest: seq<byte>): Option<Chunk> {
    if |rest| < 12 then None
    else
      var n := Number(rest[..4]);
      if 12 + n > |rest| then None
      else if Crc(rest[4..8 + n]) != CrcOf(rest[8 + n..12 + n]) then None
      else Some(Chunk(rest[4..8], rest[8..8 + n]))
  }

  /** A frame is read as a chunk exactly when its CRC field is the CRC of its body. */
  lemma ReadFrame(kind: seq<byte>, payload: seq<byte>, crc: seq<byte>, tail: seq<byte>)
    requires Framed(Chunk(kind, payload)) && |crc| == 4
    ensures ReadChunk(Frame(Digits(|payload|), kind + payload, crc) + tail) ==
            if crc == CrcBytes(Crc(kind + payload)) then Some(Chunk(kind, payload)) else None
  {
    var n := |payload|;
    var rest := Frame(Digits(n), kind + payload, crc) + tail;
    NumberOfDigits(n);
    FrameParts(Digits(n), kind, payload, crc, tail);
    CrcFieldMatches(crc, Crc(kind + payload));
  }

  lemma FrameParts(length: seq<byte>, kind: seq<byte>, payload: seq<byte>, crc: seq<byte>, tail: seq<byte>)
    requires |length| == |kind| == |crc| == 4
    ensures
      var rest, n := Frame(length, kind + payload, crc) + tail, |payload|;
      && |rest| >= 12 + n && rest[..4] == length && rest[4..8 + n] == kind + payload
      && rest[4..8] == kind && rest[8..8 + n] == payload && rest[8 + n..12 + n] == crc
  {
  }

  lemma ReadIsEncoded(rest: seq<byte>)
    requires ReadChunk(rest).Some?
    ensures
      var c := ReadChunk(rest).value;
      && Framed(c) && 12 + |c.payload| <= |rest|
      && rest == Encode(c) + rest[12 + |c.payload|..]
      && |Encode(c)| == 12 + |c.payload|
  {
    var n := Number(rest[..4]);
    Slices(rest, n);
    DigitsOfNumber(rest[..4]);
    CrcFieldMatches(rest[8 + n..12 + n], Crc(rest[4..8 + n]));
  }

  lemma Slices(rest: seq<byte>, n: nat)
    requires 12 + n <= |rest|
    ensures rest[4..8] + rest[8..8 + n] == rest[4..8 + n]
    ensures rest == Frame(rest[..4], rest[4..8 + n], rest[8 + n..12 + n]) + rest[12 + n..]
  {
  }

  // ------------------------------------------------------------------ acceptable images

  /** Powers of two: a palette index has at most eight bits, a sample of several channels at least eight. */
  predicate DepthAllowed(colour: byte, depth: byte) {
    && colour in {0, 2, 3, 4, 6} && depth in {1, 2, 4, 8, 16}
    && (colour == 3 ==> depth <= 8)
    && (colour in {2, 4, 6} ==> depth >= 8)
  }

  predicate GoodHeader(c: Chunk) {
    && c.kind == IHDR && |c.payload| == 13
    && ExtentAllowed(Number(c.payload[..4]), Number(c.payload[4..8]))
    && FormatAllowed(c.payload[8..])
  }

  /** Neither side empty, neither too long, and not too many pixels. */
  predicate ExtentAllowed(width: nat, height: nat) {
    1 <= width <= 32768 && 1 <= height <= 32768 && width * height <= 100_000_000
  }

  /** Bit depth, colour type, compression, filter and interlace. */
  predicate FormatAllowed(format: seq<byte>)
    requires |format| == 5
  {
    DepthAllowed(format[1], format[0]) && format[2] == 0 && format[3] == 0 && format[4] <= 1
  }

  predicate HasData(c: Chunk) {
    c.kind == IDAT && c.payload != []
  }

  type Test = Chunk -> bool

  /** A good header first and only first, some image data, an empty end chunk last and only last. */
  predicate IsImage(good: Test, chunks: seq<Chunk>, header: bool, data: bool) {
    && chunks != []
    && (forall i :: 0 <= i < |chunks| ==> Framed(chunks[i]))
    && (!header ==> good(chunks[0]))
    && (forall i :: 0 <= i < |chunks| && (header || i > 0) ==> chunks[i].kind != IHDR)
    && (forall i :: 0 <= i < |chunks| - 1 ==> chunks[i].kind != IEND)
    && chunks[|chunks| - 1] == Chunk(IEND, [])
    && (data || exists c <- chunks :: HasData(c))
  }

  /** Peeling one chunk off an image leaves an image. */
  lemma ImageTail(good: Test, chunks: seq<Chunk>, header: bool, data: bool)
    requires chunks != [] && chunks[0].kind != IEND && Framed(chunks[0])
    requires if header then chunks[0].kind != IHDR else good(chunks[0])
    ensures IsImage(good, chunks, header, data) <==> IsImage(good, chunks[1..], true, data || HasData(chunks[0]))
  {
    var rest := chunks[1..];
    assert chunks == [chunks[0]] + rest;
    assert forall c :: c in chunks <==> c == chunks[0] || c in rest;
    assert forall i :: 0 <= i < |rest| ==> rest[i] == chunks[i + 1];
    assert forall i :: 0 < i < |chunks| ==> chunks[i] == rest[i - 1];
  }

  // ----------------------------------------------------- streams of framed chunks

  type Reader = seq<byte> -> Option<Chunk>
  type Writer = Chunk -> seq<byte>

  function Size(c: Chunk): nat {
    12 + |c.payload|
  }

  /** `read` takes exactly what `write` puts, whatever follows it. */
  ghost predicate Framing(read: Reader, write: Writer) {
    && (forall c, tail {:trigger read(write(c) + tail)} :: Framed(c) ==> read(write(c) + tail) == Some(c))
    && (forall c {:trigger write(c)} :: Framed(c) ==> |write(c)| == Size(c))
    && (forall rest {:trigger read(rest)} ::
          read(rest).Some? ==>
            var c := read(rest).value;
            Framed(c) && Size(c) <= |rest| && rest == write(c) + rest[Size(c)..])
  }

  function EncodeAll(write: Writer, chunks: seq<Chunk>): seq<byte> {
    if chunks == [] then [] else write(chunks[0]) + EncodeAll(write, chunks[1..])
  }

  lemma ChunkIsRead(read: Reader, write: Writer, c: Chunk, more: seq<byte>)
    requires Framing(read, write) && Framed(c)
    ensures read(write(c) + more) == Some(c)
    ensures |write(c) + more| >= Size(c) && (write(c) + more)[Size(c)..] == more
  {
    assert |write(c)| == Size(c);
  }

  /** What the loop accepts from a chunk boundary on. */
  predicate Accepts(read: Reader, good: Test, rest: seq<byte>, header: bool, data: bool)
    decreases |rest|
  {
    match read(rest)
    case None => false
    case Some(c) =>
      if Size(c) > |rest| || (if header then c.kind == IHDR else !good(c)) then false
      else if c.kind == IEND then c.payload == [] && (data || HasData(c)) && |rest| == Size(c)
      else Accepts(read, good, rest[Size(c)..], true, data || HasData(c))
  }

  lemma {:induction false} ImagesAreAccepted(
    read: Reader, write: Writer, good: Test, chunks: seq<Chunk>, header: bool, data: bool)
    requires Framing(read, write) && IsImage(good, chunks, header, data)
    ensures Accepts(read, good, EncodeAll(write, chunks), header, data)
    decreases |chunks|
  {
    var more := EncodeAll(write, chunks[1..]);
    ChunkIsRead(read, write, chunks[0], more);
    if |chunks| > 1 {
      ImageTail(good, chunks, header, data);
      ImagesAreAccepted(read, write, good, chunks[1..], true, data || HasData(chunks[0]));
    }
  }

  lemma {:induction false} AcceptedIsImage(
    read: Reader, write: Writer, good: Test, rest: seq<byte>, header: bool, data: bool) returns (chunks: seq<Chunk>)
    requires Framing(read, write) && Accepts(read, good, rest, header, data)
    ensures IsImage(good, chunks, header, data) && rest == EncodeAll(write, chunks)
    decreases |rest|
  {
    var c := read(rest).value;
    if c.kind == IEND {
      chunks := [c];
      assert EncodeAll(write, chunks) == write(c) + [];
    } else {
      var more := AcceptedIsImage(read, write, good, rest[Size(c)..], true, data || HasData(c));
      chunks := [c] + more;
      assert chunks[1..] == more;
      ImageTail(good, chunks, header, data);
    }
  }

  /** Where the leading chunks of an image are followed by something unreadable. */
  lemma {:induction false} RejectedAfter(
    read: Reader, write: Writer, good: Test, chunks: seq<Chunk>, k: nat, tail: seq<byte>, header: bool, data: bool)
    requires Framing(read, write) && IsImage(good, chunks, header, data) && k < |chunks|
    requires read(tail).None?
    ensures !Accepts(read, good, EncodeAll(write, chunks[..k]) + tail, header, data)
    decreases k
  {
    if k == 0 {
      assert EncodeAll(write, chunks[..k]) + tail == tail;
    } else {
      var front, rest := chunks[..k], chunks[1..];
      assert front[1..] == rest[..k - 1];
      var more := EncodeAll(write, rest[..k - 1]) + tail;
      assert EncodeAll(write, front) + tail == write(chunks[0]) + more;
      ChunkIsRead(read, write, chunks[0], more);
      ImageTail(good, chunks, header, data);
      RejectedAfter(read, write, good, rest, k - 1, tail, true, data || HasData(chunks[0]));
    }
  }

  lemma Regroup(a: seq<byte>, b: seq<byte>, c: seq<byte>)
    ensures a + b + c == a + (b + c)
  {
  }

  lemma {:induction false} EncodeAllSplits(write: Writer, chunks: seq<Chunk>, k: nat)
    requires k < |chunks|
    ensures EncodeAll(write, chunks) ==
            EncodeAll(write, chunks[..k]) + (write(chunks[k]) + EncodeAll(write, chunks[k + 1..]))
    decreases k
  {
    if k > 0 {
      var front, rest := chunks[..k], chunks[1..];
      assert front[1..] == rest[..k - 1] && rest[k..] == chunks[k + 1..];
      EncodeAllSplits(write, rest, k - 1);
      Regroup(write(chunks[0]), EncodeAll(write, front[1..]), write(chunks[k]) + EncodeAll(write, chunks[k + 1..]));
    }
  }

  /** PNG's chunk format is such a framing. */
  lemma ChunksAreFramed()
    ensures Framing(ReadChunk, Encode)
  {
    forall c, tail | Framed(c) ensures ReadChunk(Encode(c) + tail) == Some(c) {
      ReadFrame(c.kind, c.payload, CrcBytes(Crc(c.kind + c.payload)), tail);
    }
    forall rest | ReadChunk(rest).Some?
      ensures var c := ReadChunk(rest).value;
              Framed(c) && Size(c) <= |rest| && rest == Encode(c) + rest[Size(c)..]
    {
      ReadIsEncoded(rest);
    }
  }

  ghost predicate IsPng(bytes: seq<byte>) {
    exists chunks :: IsImage(GoodHeader, chunks, false, false) && bytes == SIGNATURE + EncodeAll(Encode, chunks)
  }

  lemma PngIsAcceptedBy(read: Reader, write: Writer, good: Test, bytes: seq<byte>)
    requires Framing(read, write)
    ensures (exists chunks :: IsImage(good, chunks, false, false) && bytes == SIGNATURE + EncodeAll(write, chunks)) <==>
            |bytes| >= 8 && bytes[..8] == SIGNATURE && Accepts(read, good, bytes[8..], false, false)
  {
    if chunks :| IsImage(good, chunks, false, false) && bytes == SIGNATURE + EncodeAll(write, chunks) {
      assert bytes[..8] == SIGNATURE && bytes[8..] == EncodeAll(write, chunks);
      ImagesAreAccepted(read, write, good, chunks, false, false);
    }
    if |bytes| >= 8 && bytes[..8] == SIGNATURE && Accepts(read, good, bytes[8..], false, false) {
      var chunks := AcceptedIsImage(read, write, good, bytes[8..], false, false);
      assert bytes == SIGNATURE + EncodeAll(write, chunks);
    }
  }

  lemma PngIsAccepted(bytes: seq<byte>)
    ensures IsPng(bytes) <==>
            |bytes| >= 8 && bytes[..8] == SIGNATURE && Accepts(ReadChunk, GoodHeader, bytes[8..], false, false)
  {
    ChunksAreFramed();
    PngIsAcceptedBy(ReadChunk, Encode, GoodHeader, bytes);
  }

  // --------------------------------------------------------------------- the validator

  lemma ZeroByte()
    ensures (0 as byte) as int == 0
  {
    ByteRoundTrip(0);
  }

  lemma ZeroNumber(b: seq<byte>)
    requires |b| == 4
    ensures b == [0, 0, 0, 0] <==> Number(b) == 0
  {
    var zero: seq<byte> := [0, 0, 0, 0];
    ZeroByte();
    if Number(b) == 0 {
      NumberIsInjective(b, zero);
    }
  }

  method CheckHeader(kind: seq<byte>, payload: seq<byte>) returns (ok: bool)
    ensures ok <==> GoodHeader(Chunk(kind, payload))
  {
    if kind != IHDR || |payload| != 13 {
      return false;
    }
    var format := CheckFormat(payload[8..]);
    if !format {
      return false;
    }
    var noWidth := IsZero(payload[..4]);
    var noHeight := IsZero(payload[4..8]);
    if noWidth || noHeight {
      return false;
    }
    ok := CheckExtent(Number(payload[..4]), Number(payload[4..8]));
  }

  method CheckFormat(format: seq<byte>) returns (ok: bool)
    requires |format| == 5
    ensures ok <==> FormatAllowed(format)
  {
    var depth, colour := format[0], format[1];
    var allowed;
    if colour == 0 {
      allowed := depth == 1 || depth == 2 || depth == 4 || depth == 8 || depth == 16;
    } else if colour == 2 || colour == 4 || colour == 6 {
      allowed := depth == 8 || depth == 16;
    } else if colour == 3 {
      allowed := depth == 1 || depth == 2 || depth == 4 || depth == 8;
    } else {
      allowed := false;
    }
    return allowed && format[2] == 0 && format[3] == 0 && format[4] <= 1;
  }

  method IsZero(b: seq<byte>) returns (zero: bool)
    requires |b| == 4
    ensures zero <==> Number(b) == 0
  {
    ZeroNumber(b);
    return b == [0, 0, 0, 0];
  }

  method CheckExtent(width: nat, height: nat) returns (ok: bool)
    requires width > 0 && height > 0
    ensures ok <==> ExtentAllowed(width, height)
  {
    return width <= 32768 && height <= 32768 && width * height <= 100_000_000;
  }

  /** The CRC-checked chunk at the start of `rest`, or nothing. */
  method NextChunk(table: array<word>, rest: seq<byte>) returns (r: Option<Chunk>)
    requires IsTable(table[..])
    ensures r == ReadChunk(rest)
    ensures r.Some? ==> Size(r.value) <= |rest|
  {
    if |rest| < 12 {
      return None;
    }
    var length := Number(rest[..4]);
    if 12 + length > |rest| {
      return None;
    }
    var crc := ComputeCrc(table, rest[4..8 + length]);
    if crc != CrcOf(rest[8 + length..12 + length]) {
      return None;
    }
    return Some(Chunk(rest[4..8], rest[8..8 + length]));
  }

  /** Accepts exactly the signature followed by the encoding of an acceptable image. */
  method ValidatePng(table: array<word>, bytes: seq<byte>) returns (ok: bool)
    requires IsTable(table[..])
    ensures ok <==> IsPng(bytes)
  {
    PngIsAccepted(bytes);
    if |bytes| < 8 || bytes[..8] != SIGNATURE {
      return false;
    }
    ghost var accepts := (rest: seq<byte>, header: bool, data: bool) => Accepts(ReadChunk, GoodHeader, rest, header, data);
    ok := ValidateChunks(table, bytes, accepts);
    assert accepts(bytes[8..], false, false) == Accepts(ReadChunk, GoodHeader, bytes[8..], false, false);
  }

  /** A header comes first, and never again. */
  method CheckOrder(header: bool, chunk: Chunk, ghost good: Test) returns (ok: bool)
    requires good == GoodHeader
    ensures ok <==> if header then chunk.kind != IHDR else good(chunk)
  {
    if !header {
      ok := CheckHeader(chunk.kind, chunk.payload);
    } else {
      ok := chunk.kind != IHDR;
    }
  }

  type Verdict = (seq<byte>, bool, bool) -> bool

  ghost predicate Judges(accepts: Verdict) {
    forall rest, header, data {:trigger Accepts(ReadChunk, GoodHeader, rest, header, data)} ::
      accepts(rest, header, data) == Accepts(ReadChunk, GoodHeader, rest, header, data)
  }

  /** One turn of the loop: the verdict, or the size of the chunk taken and what has been seen. */
  method TakeChunk(table: array<word>, rest: seq<byte>, header: bool, data: bool, ghost read: Reader, ghost good: Test)
    returns (verdict: Option<bool>, size: nat, data': bool)
    requires IsTable(table[..]) && read == ReadChunk && good == GoodHeader
    ensures verdict.Some? ==> (verdict.value <==> Accepts(read, good, rest, header, data))
    ensures verdict.None? ==>
              && 0 < size <= |rest|
              && (Accepts(read, good, rest, header, data) <==> Accepts(read, good, rest[size..], true, data'))
  {
    size, data' := 0, data;
    var next := NextChunk(table, rest);
    if next.None? {
      return Some(false), size, data';
    }
    var chunk := next.value;
    size := Size(chunk);
    var ordered := CheckOrder(header, chunk, good);
    if !ordered {
      return Some(false), size, data';
    }
    if chunk.kind == IDAT && |chunk.payload| > 0 {
      data' := true;
    }
    if chunk.kind == IEND {
      return Some(|chunk.payload| == 0 && data' && size == |rest|), size, data';
    }
    return None, size, data';
  }

  method TakeNext(table: array<word>, rest: seq<byte>, header: bool, data: bool, ghost accepts: Verdict)
    returns (verdict: Option<bool>, size: nat, data': bool)
    requires IsTable(table[..]) && Judges(accepts)
    ensures verdict.Some? ==> (verdict.value <==> accepts(rest, header, data))
    ensures verdict.None? ==>
              0 < size <= |rest| && (accepts(rest, header, data) <==> accepts(rest[size..], true, data'))
  {
    verdict, size, data' := TakeChunk(table, rest, header, data, ReadChunk, GoodHeader);
    assert accepts(rest, header, data) == Accepts(ReadChunk, GoodHeader, rest, header, data);
    if verdict.None? {
      assert accepts(rest[size..], true, data') == Accepts(ReadChunk, GoodHeader, rest[size..], true, data');
    }
  }

  /** The loop over chunks; what is accepted is settled in `TakeNext`. */
  method ValidateChunks(table: array<word>, bytes: seq<byte>, ghost accepts: Verdict) returns (ok: bool)
    requires IsTable(table[..]) && |bytes| >= 8 && Judges(accepts)
    ensures ok <==> accepts(bytes[8..], false, false)
  {
    var offset, header, data := 8, false, false;
    while offset + 12 <= |bytes|
      invariant 8 <= offset <= |bytes|
      invariant accepts(bytes[8..], false, false) == accepts(bytes[offset..], header, data)
      decreases |bytes| - offset
    {
      var verdict, size, data' := TakeNext(table, bytes[offset..], header, data, accepts);
      if verdict.Some? {
        return verdict.value;
      }
      assert bytes[offset..][size..] == bytes[offset + size..];
      offset, header, data := offset + size, true, data';
    }
    TooShort(bytes[offset..], header, data, accepts);
    return false;
  }

  lemma TooShort(rest: seq<byte>, header: bool, data: bool, accepts: Verdict)
    requires |rest| < 12 && Judges(accepts)
    ensures !accepts(rest, header, data)
  {
    assert accepts(rest, header, data) == Accepts(ReadChunk, GoodHeader, rest, header, data);
  }

  // ------------------------------------------------------------------------ corruption

  /** An image with the body and CRC field of one chunk replaced. */
  function Tampered(chunks: seq<Chunk>, k: nat, body: seq<byte>, crc: seq<byte>): seq<byte>
    requires k < |chunks| && Framed(chunks[k])
  {
    SIGNATURE + (EncodeAll(Encode, chunks[..k]) +
                 (Frame(Digits(|chunks[k].payload|), body, crc) + EncodeAll(Encode, chunks[k + 1..])))
  }

  /** Writing back the same body and CRC gives the image itself. */
  lemma UntamperedIsImage(chunks: seq<Chunk>, k: nat)
    requires k < |chunks| && Framed(chunks[k])
    ensures Tampered(chunks, k, chunks[k].kind + chunks[k].payload, CrcBytes(Crc(chunks[k].kind + chunks[k].payload)))
            == SIGNATURE + EncodeAll(Encode, chunks)
  {
    EncodeAllSplits(Encode, chunks, k);
  }

  lemma TamperedIsRejected(chunks: seq<Chunk>, k: nat, body: seq<byte>, crc: seq<byte>)
    requires IsImage(GoodHeader, chunks, false, false) && k < |chunks|
    requires |body| == 4 + |chunks[k].payload| && |crc| == 4 && crc != CrcBytes(Crc(body))
    ensures !IsPng(Tampered(chunks, k, body, crc))
  {
    var rest := EncodeAll(Encode, chunks[k + 1..]);
    var tail := Frame(Digits(|chunks[k].payload|), body, crc) + rest;
    TamperedFrame(|chunks[k].payload|, body, crc, rest);
    ChunksAreFramed();
    RejectedAfter(ReadChunk, Encode, GoodHeader, chunks, k, tail, false, false);
    RejectedTail(Tampered(chunks, k, body, crc), EncodeAll(Encode, chunks[..k]) + tail);
  }

  lemma TamperedFrame(n: nat, body: seq<byte>, crc: seq<byte>, rest: seq<byte>)
    requires n < LENGTHS && |body| == 4 + n && |crc| == 4 && crc != CrcBytes(Crc(body))
    ensures ReadChunk(Frame(Digits(n), body, crc) + rest).None?
  {
    assert body == body[..4] + body[4..];
    ReadFrame(body[..4], body[4..], crc, rest);
  }

  lemma RejectedTail(bytes: seq<byte>, rest: seq<byte>)
    requires bytes == SIGNATURE + rest && !Accepts(ReadChunk, GoodHeader, rest, false, false)
    ensures !IsPng(bytes)
  {
    PngIsAccepted(bytes);
    assert bytes[8..] == rest;
  }

  /** Damage to up to four consecutive bytes of any chunk's type and payload is noticed. */
  lemma BodyDamageIsRejected(
    chunks: seq<Chunk>, k: nat, before: seq<byte>, x: seq<byte>, y: seq<byte>, after: seq<byte>)
    requires IsImage(GoodHeader, chunks, false, false) && k < |chunks|
    requires chunks[k].kind + chunks[k].payload == before + x + after
    requires |x| == |y| <= 4 && x != y
    ensures !IsPng(Tampered(chunks, k, before + y + after, CrcBytes(Crc(before + x + after))))
  {
    BurstChangesCrc(before, x, y, after);
    CrcRoundTrip(Crc(before + x + after));
    CrcRoundTrip(Crc(before + y + after));
    TamperedIsRejected(chunks, k, before + y + after, CrcBytes(Crc(before + x + after)));
  }

  /** So is any damage to a CRC field. */
  lemma CrcDamageIsRejected(chunks: seq<Chunk>, k: nat, crc: seq<byte>)
    requires IsImage(GoodHeader, chunks, false, false) && k < |chunks|
    requires |crc| == 4 && crc != CrcBytes(Crc(chunks[k].kind + chunks[k].payload))
    ensures !IsPng(Tampered(chunks, k, chunks[k].kind + chunks[k].payload, crc))
  {
    TamperedIsRejected(chunks, k, chunks[k].kind + chunks[k].payload, crc);
  }
}
