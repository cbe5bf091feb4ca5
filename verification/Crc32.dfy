/** The CRC of PNG chunks: a table-driven loop, against the bit-serial definition. */
module Crc32 {

  type byte = bv8
  type word = bv32

  const POLYNOMIAL: word := 0xedb8_8320

  function Xor(a: word, b: word): word { a ^ b }

  function Half(a: word): word { a >> 1 }

  predicate Odd(a: word) { a & 1 == 1 }

  // -------------------------------------------------------- the bit-serial definition

  /** The low `n` bits of `x`, least significant first. */
  function Bits(x: word, n: nat): seq<bool>
    decreases n
  {
    if n == 0 then [] else [Odd(x)] + Bits(Half(x), n - 1)
  }

  function AllBits(bytes: seq<byte>): seq<bool> {
    if bytes == [] then [] else Bits(bytes[0] as word, 8) + AllBits(bytes[1..])
  }

  /** One clock of the shift register. */
  function Clock(crc: word, bit: bool): word {
    Half(crc) ^ (if Odd(crc) != bit then POLYNOMIAL else 0)
  }

  function Clocked(clock: (word, bool) -> word, crc: word, bits: seq<bool>): word
    decreases |bits|
  {
    if bits == [] then crc else Clocked(clock, clock(crc, bits[0]), bits[1..])
  }

  /** CRC-32: a register preset to ones, the bits fed in order, the result complemented. */
  function Crc(bytes: seq<byte>): word {
    !Clocked(Clock, 0xFFFF_FFFF, AllBits(bytes))
  }

  // ------------------------------------------------------------- iterated functions

  function Iterate(f: word -> word, x: word, n: nat): word
    decreases n
  {
    if n == 0 then x else Iterate(f, f(x), n - 1)
  }

  ghost predicate Linear(f: word -> word) {
    forall x: word, y: word {:trigger f(Xor(x, y))} :: f(Xor(x, y)) == Xor(f(x), f(y))
  }

  ghost predicate Injective(f: word -> word) {
    forall x: word, y: word {:trigger f(x), f(y)} :: f(x) == f(y) ==> x == y
  }

  lemma {:induction false} IterateIsLinear(f: word -> word, a: word, b: word, n: nat)
    requires Linear(f)
    ensures Iterate(f, Xor(a, b), n) == Xor(Iterate(f, a, n), Iterate(f, b, n))
    decreases n
  {
    if n > 0 {
      IterateIsLinear(f, f(a), f(b), n - 1);
      assert f(Xor(a, b)) == Xor(f(a), f(b));
    }
  }

  lemma {:induction false} IterateIsInjective(f: word -> word, a: word, b: word, n: nat)
    requires Injective(f) && Iterate(f, a, n) == Iterate(f, b, n)
    ensures a == b
    decreases n
  {
    if n > 0 {
      IterateIsInjective(f, f(a), f(b), n - 1);
    }
  }

  lemma {:induction false} IterateComposes(f: word -> word, x: word, m: nat, n: nat)
    ensures Iterate(f, Iterate(f, x, m), n) == Iterate(f, x, m + n)
    decreases m
  {
    if m > 0 {
      IterateComposes(f, f(x), m - 1, n);
    }
  }

  lemma IterateUnrolls(f: word -> word, x: word)
    ensures Iterate(f, x, 8) == f(f(f(f(f(f(f(f(x))))))))
  {
    var y := f(f(f(f(x))));
    assert Iterate(f, x, 4) == y by {
      assert Iterate(f, f(f(x)), 2) == y;
    }
    assert Iterate(f, y, 4) == f(f(f(f(y)))) by {
      assert Iterate(f, f(f(y)), 2) == f(f(f(f(y))));
    }
    IterateComposes(f, x, 4, 4);
  }

  // ----------------------------------------------------------------------- one step

  function Step(crc: word): word {
    (crc >> 1) ^ (if crc & 1 == 1 then POLYNOMIAL else 0)
  }

  lemma LowBit(crc: word)
    ensures crc & 1 == 0 || crc & 1 == 1
  {
  }

  /** Masking the polynomial with the negated low bit is a conditional. */
  lemma MaskedStep(crc: word)
    ensures Step(crc) == (crc >> 1) ^ (POLYNOMIAL & (0 - (crc & 1)))
  {
    LowBit(crc);
    if crc & 1 == 0 {
      assert 0 - (crc & 1) == 0;
    } else {
      assert 0 - (crc & 1) == 0xFFFF_FFFF;
    }
  }

  lemma XorOfParts(a: word, b: word)
    ensures (a ^ b) >> 1 == (a >> 1) ^ (b >> 1)
    ensures (a ^ b) & 1 == (a & 1) ^ (b & 1)
  {
  }

  lemma XorRegroups(a: word, b: word, c: word)
    ensures (a ^ b) ^ c == (a ^ c) ^ b == a ^ (b ^ c)
    ensures (a ^ c) ^ (b ^ c) == a ^ b
  {
  }

  lemma StepIsLinear(a: word, b: word)
    ensures Step(a ^ b) == Step(a) ^ Step(b)
  {
    XorOfParts(a, b);
    LowBit(a);
    LowBit(b);
    XorRegroups(a >> 1, b >> 1, POLYNOMIAL);
  }

  /** The polynomial's top bit tells which branch was taken, so a step can be undone. */
  lemma StepIsInjective(a: word, b: word)
    requires Step(a) == Step(b)
    ensures a == b
  {
  }

  lemma StepIsLinearAndInjective()
    ensures Linear(Step) && Injective(Step)
  {
    forall a: word, b: word ensures Step(Xor(a, b)) == Xor(Step(a), Step(b)) {
      StepIsLinear(a, b);
    }
    forall a: word, b: word | Step(a) == Step(b) ensures a == b {
      StepIsInjective(a, b);
    }
  }

  // -------------------------------------------------------------------- byte by byte

  function Eight(crc: word): word {
    Iterate(Step, crc, 8)
  }

  function Update(crc: word, b: byte): word {
    Eight(Xor(crc, b as word))
  }

  function Consumed(update: (word, byte) -> word, crc: word, bytes: seq<byte>): word
    decreases |bytes|
  {
    if bytes == [] then crc else Consumed(update, update(crc, bytes[0]), bytes[1..])
  }

  function Run(crc: word, bytes: seq<byte>): word {
    Consumed(Update, crc, bytes)
  }

  /** Clocking in the low bit of `x` while the rest of it waits. */
  ghost predicate Feeds(clock: (word, bool) -> word, f: word -> word) {
    forall c: word, x: word {:trigger clock(c, Odd(x))} :: Xor(clock(c, Odd(x)), Half(x)) == f(Xor(c, x))
  }

  lemma ClockFeedsStep()
    ensures Feeds(Clock, Step)
  {
    forall c: word, x: word ensures Xor(Clock(c, Odd(x)), Half(x)) == Step(Xor(c, x)) {
      ClockIsStep(c, x);
    }
  }

  lemma ClockIsStep(c: word, x: word)
    ensures Xor(Clock(c, Odd(x)), Half(x)) == Step(Xor(c, x))
  {
    LowBit(c);
    LowBit(x);
    XorOfParts(c, x);
    if x & 1 == 0 {
      ShiftedFeedback(c >> 1, x >> 1, Step(c) ^ (c >> 1));
    } else if c & 1 == 0 {
      XorRegroups(c >> 1, x >> 1, POLYNOMIAL);
    } else {
      assert (c ^ x) & 1 == 0;
    }
  }

  lemma ShiftedFeedback(c: word, x: word, f: word)
    ensures (c ^ f) ^ x == (c ^ x) ^ f
  {
  }

  lemma {:induction false} ClockedIsIterate(clock: (word, bool) -> word, f: word -> word, crc: word, x: word, n: nat)
    requires Feeds(clock, f)
    ensures Xor(Clocked(clock, crc, Bits(x, n)), Iterate(Half, x, n)) == Iterate(f, Xor(crc, x), n)
    decreases n
  {
    if n > 0 {
      assert Bits(x, n)[1..] == Bits(Half(x), n - 1);
      ClockedIsIterate(clock, f, clock(crc, Odd(x)), Half(x), n - 1);
    }
  }

  lemma EightHalves(b: byte)
    ensures Iterate(Half, b as word, 8) == 0
  {
    IterateUnrolls(Half, b as word);
  }

  lemma {:induction false} ClockedAppends(clock: (word, bool) -> word, crc: word, a: seq<bool>, b: seq<bool>)
    ensures Clocked(clock, crc, a + b) == Clocked(clock, Clocked(clock, crc, a), b)
    decreases |a|
  {
    if a == [] {
      assert a + b == b;
    } else {
      assert (a + b)[1..] == a[1..] + b;
      ClockedAppends(clock, clock(crc, a[0]), a[1..], b);
    }
  }

  lemma ByteIsUpdate(crc: word, b: byte)
    ensures Clocked(Clock, crc, Bits(b as word, 8)) == Update(crc, b)
  {
    ClockFeedsStep();
    ClockedIsIterate(Clock, Step, crc, b as word, 8);
    EightHalves(b);
  }

  lemma {:induction false} ClockedIsRun(crc: word, bytes: seq<byte>)
    ensures Clocked(Clock, crc, AllBits(bytes)) == Run(crc, bytes)
    decreases |bytes|
  {
    if bytes != [] {
      ByteIsUpdate(crc, bytes[0]);
      ClockedAppends(Clock, crc, Bits(bytes[0] as word, 8), AllBits(bytes[1..]));
      ClockedIsRun(Update(crc, bytes[0]), bytes[1..]);
    }
  }

  // ----------------------------------------------------------------------- the table

  lemma EightNested(crc: word)
    requires crc & 0xFF == 0
    ensures Step(Step(Step(Step(Step(Step(Step(Step(crc)))))))) == crc >> 8
  {
  }

  /** Eight zero bits fall off the low end unchanged. */
  lemma EightOfShifted(crc: word)
    requires crc & 0xFF == 0
    ensures Eight(crc) == crc >> 8
  {
    EightNested(crc);
    IterateUnrolls(Step, crc);
  }

  lemma SplitWord(crc: word, b: byte)
    ensures
      var x := Xor(crc, b as word);
      && x == Xor(x & 0xFFFF_FF00, x & 0xFF)
      && (x & 0xFFFF_FF00) & 0xFF == 0
      && (x & 0xFFFF_FF00) >> 8 == crc >> 8
      && x & 0xFF <= 0xFF
  {
  }

  lemma TableStepOf(f: word -> word, high: word, low: word, rest: word)
    requires Linear(f) && Iterate(f, high, 8) == rest
    ensures Xor(rest, Iterate(f, low, 8)) == Iterate(f, Xor(high, low), 8)
  {
    IterateIsLinear(f, high, low, 8);
  }

  lemma EightOfParts(high: word, low: word)
    requires high & 0xFF == 0
    ensures Xor(high >> 8, Eight(low)) == Eight(Xor(high, low))
  {
    EightOfShifted(high);
    StepIsLinearAndInjective();
    TableStepOf(Step, high, low, high >> 8);
  }

  /** One table look-up does the work of eight steps. */
  lemma TableStep(crc: word, b: byte)
    ensures Xor(crc >> 8, Eight(Xor(crc, b as word) & 0xFF)) == Update(crc, b)
  {
    var x := Xor(crc, b as word);
    SplitWord(crc, b);
    EightOfParts(x & 0xFFFF_FF00, x & 0xFF);
  }

  ghost predicate IsTable(table: seq<word>) {
    |table| == 256 && forall i :: 0 <= i < 256 ==> table[i] == Eight(i as word)
  }

  method TableEntry(index: word) returns (crc: word)
    ensures crc == Eight(index)
  {
    crc := index;
    var bit := 0;
    while bit < 8
      invariant 0 <= bit <= 8
      invariant Iterate(Step, crc, 8 - bit) == Eight(index)
    {
      MaskedStep(crc);
      crc := (crc >> 1) ^ (POLYNOMIAL & (0 - (crc & 1)));
      bit := bit + 1;
    }
  }

  method BuildTable() returns (table: array<word>)
    ensures fresh(table) && IsTable(table[..])
  {
    table := new word[256];
    var index := 0;
    while index < 256
      invariant 0 <= index <= 256
      invariant forall i :: 0 <= i < index ==> table[i] == Eight(i as word)
    {
      var crc := TableEntry(index as word);
      table[index] := crc;
      index := index + 1;
    }
  }

  lemma NarrowIndex(n: nat)
    requires n < 256
    ensures (n as byte) as word == n as word
  {
    assert n % 256 == n;
  }

  lemma ByteIndex(b: byte)
    ensures b as int < 256 && (b as int) as word == b as word
  {
    NarrowIndex(b as int);
  }

  lemma MaskedByte(x: word)
    requires x <= 0xFF
    ensures (x as byte) as word == x
  {
  }

  /** The table-driven loop computes the bit-serial CRC. */
  method ComputeCrc(table: array<word>, bytes: seq<byte>) returns (crc: word)
    requires IsTable(table[..])
    ensures crc == Crc(bytes)
  {
    crc := RunTable(table, 0xFFFF_FFFF, bytes, Update);
    CrcIsRun(bytes);
    crc := !crc;
  }

  method RunTable(table: array<word>, start: word, bytes: seq<byte>, ghost update: (word, byte) -> word)
    returns (crc: word)
    requires IsTable(table[..]) && update == Update
    ensures crc == Consumed(update, start, bytes)
  {
    crc := start;
    for i := 0 to |bytes|
      invariant Consumed(update, start, bytes) == Consumed(update, crc, bytes[i..])
    {
      assert bytes[i..][0] == bytes[i] && bytes[i..][1..] == bytes[i + 1..];
      crc := TableUpdate(table, crc, bytes[i]);
    }
  }

  lemma TableIndex(crc: word, b: byte)
    ensures (crc ^ (b as word)) & 255 <= 0xFF
    ensures (((crc ^ (b as word)) & 255) as byte) as word == Xor(crc, b as word) & 0xFF
  {
    SplitWord(crc, b);
    MaskedByte((crc ^ (b as word)) & 255);
  }

  method TableUpdate(table: array<word>, crc: word, b: byte) returns (next: word)
    requires IsTable(table[..])
    ensures next == Update(crc, b)
  {
    TableIndex(crc, b);
    var low := ((crc ^ (b as word)) & 255) as byte;
    var entry := LookUp(table, low);
    TableStep(crc, b);
    next := Xor(crc >> 8, entry);
  }

  method LookUp(table: array<word>, low: byte) returns (entry: word)
    requires IsTable(table[..])
    ensures entry == Eight(low as word)
  {
    ByteIndex(low);
    entry := table[low as int];
  }

  // ----------------------------------------------------------------- error detection

  ghost predicate Reversible(update: (word, byte) -> word) {
    forall a: word, b: word, c: byte {:trigger update(a, c), update(b, c)} :: update(a, c) == update(b, c) ==> a == b
  }

  lemma {:induction false} ConsumedIsInjective(update: (word, byte) -> word, a: word, b: word, bytes: seq<byte>)
    requires Reversible(update) && Consumed(update, a, bytes) == Consumed(update, b, bytes)
    ensures a == b
    decreases |bytes|
  {
    if bytes != [] {
      ConsumedIsInjective(update, update(a, bytes[0]), update(b, bytes[0]), bytes[1..]);
      ReverseOne(update, a, b, bytes[0]);
    }
  }

  lemma ReverseOne(update: (word, byte) -> word, a: word, b: word, c: byte)
    requires Reversible(update) && update(a, c) == update(b, c)
    ensures a == b
  {
  }

  lemma UpdateIsReversible()
    ensures Reversible(Update)
  {
    forall a: word, b: word, c: byte | Update(a, c) == Update(b, c) ensures a == b {
      UndoUpdate(a, b, c);
    }
  }

  lemma UndoUpdate(a: word, b: word, c: byte)
    requires Update(a, c) == Update(b, c)
    ensures a == b
  {
    StepIsLinearAndInjective();
    IterateIsInjective(Step, Xor(a, c as word), Xor(b, c as word), 8);
    XorCancels(a, b, c as word);
  }

  lemma XorCancels(a: word, b: word, c: word)
    ensures Xor(a, c) == Xor(b, c) <==> a == b
    ensures Xor(c, a) == Xor(c, b) <==> a == b
  {
  }

  lemma {:induction false} ConsumedAppends(update: (word, byte) -> word, crc: word, a: seq<byte>, b: seq<byte>)
    ensures Consumed(update, crc, a + b) == Consumed(update, Consumed(update, crc, a), b)
    decreases |a|
  {
    if a == [] {
      assert a + b == b;
    } else {
      assert (a + b)[1..] == a[1..] + b;
      ConsumedAppends(update, update(crc, a[0]), a[1..], b);
    }
  }

  function Pack(b: byte, w: word): word { Xor(b as word, w << 8) }

  function Packed(pack: (byte, word) -> word, bytes: seq<byte>): word {
    if bytes == [] then 0 else pack(bytes[0], Packed(pack, bytes[1..]))
  }

  /** Up to four bytes as one little-endian word. */
  function Word(bytes: seq<byte>): word {
    Packed(Pack, bytes)
  }

  /** A word of at most three bytes. */
  predicate Short(w: word) { w & 0xFF00_0000 == 0 }

  lemma PackedThree(b0: byte, b1: byte, b2: byte)
    ensures Short(Pack(b0, 0)) && Short(Pack(b0, Pack(b1, 0))) && Short(Pack(b0, Pack(b1, Pack(b2, 0))))
  {
  }

  lemma WordIsShort(bytes: seq<byte>)
    requires |bytes| <= 3
    ensures Short(Word(bytes))
  {
    PackedThree(if |bytes| > 0 then bytes[0] else 0, if |bytes| > 1 then bytes[1] else 0,
                if |bytes| > 2 then bytes[2] else 0);
    UnpackThree(Pack, bytes);
  }

  lemma UnpackThree(pack: (byte, word) -> word, bytes: seq<byte>)
    requires |bytes| <= 3
    ensures
      Packed(pack, bytes) ==
      match |bytes|
      case 0 => 0
      case 1 => pack(bytes[0], 0)
      case 2 => pack(bytes[0], pack(bytes[1], 0))
      case _ => pack(bytes[0], pack(bytes[1], pack(bytes[2], 0)))
  {
    if |bytes| > 0 {
      assert Packed(pack, bytes) == pack(bytes[0], Packed(pack, bytes[1..]));
      if |bytes| > 1 {
        assert Packed(pack, bytes[1..]) == pack(bytes[1], Packed(pack, bytes[1..][1..]));
      }
    }
  }

  lemma ShiftedWord(w: word)
    requires Short(w)
    ensures (w << 8) & 0xFF == 0 && (w << 8) >> 8 == w
  {
  }

  /** Consuming a word eight bits at a time. */
  lemma {:induction false} RunOfWord(crc: word, bytes: seq<byte>)
    requires |bytes| <= 4
    ensures Run(crc, bytes) == Iterate(Step, Xor(crc, Word(bytes)), 8 * |bytes|)
    decreases |bytes|
  {
    if bytes == [] {
      assert Xor(crc, Word(bytes)) == crc;
    } else {
      var rest := bytes[1..];
      WordIsShort(rest);
      RunOfWord(Update(crc, bytes[0]), rest);
      ByteThenWord(crc, bytes[0], Word(rest), 8 * |rest|);
    }
  }

  lemma XorRegrouped(crc: word, b: byte, w: word)
    ensures Xor(Xor(crc, b as word), w << 8) == Xor(crc, Pack(b, w))
  {
    XorRegroups(crc, b as word, w << 8);
  }

  lemma ThenWord(f: word -> word, x: word, high: word, w: word, n: nat)
    requires Linear(f) && Iterate(f, high, 8) == w
    ensures Iterate(f, Xor(Iterate(f, x, 8), w), n) == Iterate(f, Xor(x, high), 8 + n)
  {
    IterateIsLinear(f, x, high, 8);
    IterateComposes(f, Xor(x, high), 8, n);
  }

  lemma ByteThenWord(crc: word, b: byte, w: word, n: nat)
    requires Short(w)
    ensures Iterate(Step, Xor(Update(crc, b), w), n) == Iterate(Step, Xor(crc, Pack(b, w)), 8 + n)
  {
    ShiftedWord(w);
    EightOfShifted(w << 8);
    StepIsLinearAndInjective();
    ThenWord(Step, Xor(crc, b as word), w << 8, w, n);
    XorRegrouped(crc, b, w);
  }

  ghost predicate Unpacks(pack: (byte, word) -> word, short: word -> bool) {
    forall a: byte, v: word, b: byte, w: word {:trigger pack(a, v), pack(b, w)} ::
      short(v) && short(w) && pack(a, v) == pack(b, w) ==> a == b && v == w
  }

  lemma UnpackOne(pack: (byte, word) -> word, short: word -> bool, a: byte, v: word, b: byte, w: word)
    requires Unpacks(pack, short) && short(v) && short(w) && pack(a, v) == pack(b, w)
    ensures a == b && v == w
  {
  }

  lemma {:induction false} PackedIsInjective(
    pack: (byte, word) -> word, short: word -> bool, x: seq<byte>, y: seq<byte>)
    requires |x| == |y| <= 4 && Packed(pack, x) == Packed(pack, y)
    requires Unpacks(pack, short)
    requires forall s {:trigger Packed(pack, s)} :: |s| <= 3 ==> short(Packed(pack, s))
    ensures x == y
  {
    if x != [] {
      var v, w := Packed(pack, x[1..]), Packed(pack, y[1..]);
      assert short(v) && short(w);
      UnpackOne(pack, short, x[0], v, y[0], w);
      PackedIsInjective(pack, short, x[1..], y[1..]);
      assert x == [x[0]] + x[1..] && y == [y[0]] + y[1..];
    }
  }

  lemma PackUnpacks()
    ensures Unpacks(Pack, Short)
  {
  }

  lemma WordIsInjective(x: seq<byte>, y: seq<byte>)
    requires |x| == |y| <= 4 && Word(x) == Word(y)
    ensures x == y
  {
    PackUnpacks();
    forall s: seq<byte> | |s| <= 3 ensures Short(Packed(Pack, s)) {
      WordIsShort(s);
    }
    PackedIsInjective(Pack, Short, x, y);
  }

  lemma BurstChangesRun(c: word, x: seq<byte>, y: seq<byte>, after: seq<byte>)
    requires |x| == |y| <= 4 && x != y
    ensures Run(Run(c, x), after) != Run(Run(c, y), after)
  {
    if Run(Run(c, x), after) == Run(Run(c, y), after) {
      UpdateIsReversible();
      ConsumedIsInjective(Update, Run(c, x), Run(c, y), after);
      RunOfWord(c, x);
      RunOfWord(c, y);
      StepIsLinearAndInjective();
      IterateIsInjective(Step, Xor(c, Word(x)), Xor(c, Word(y)), 8 * |x|);
      XorCancels(Word(x), Word(y), c);
      WordIsInjective(x, y);
    }
  }

  lemma RunThrough(crc: word, before: seq<byte>, x: seq<byte>, after: seq<byte>)
    ensures Run(crc, before + x + after) == Run(Run(Run(crc, before), x), after)
  {
    ConsumedAppends(Update, crc, before + x, after);
    ConsumedAppends(Update, crc, before, x);
  }

  lemma CrcIsRun(bytes: seq<byte>)
    ensures Crc(bytes) == !Run(0xFFFF_FFFF, bytes)
  {
    ClockedIsRun(0xFFFF_FFFF, bytes);
  }

  lemma ComplementTwice(a: word)
    ensures !!a == a
  {
  }

  /** Any change confined to four consecutive bytes changes the CRC. */
  lemma BurstChangesCrc(before: seq<byte>, x: seq<byte>, y: seq<byte>, after: seq<byte>)
    requires |x| == |y| <= 4 && x != y
    ensures Crc(before + x + after) != Crc(before + y + after)
  {
    CrcIsRun(before + x + after);
    CrcIsRun(before + y + after);
    BurstChangesWhole(0xFFFF_FFFF, before, x, y, after);
    ComplementTwice(Run(0xFFFF_FFFF, before + x + after));
    ComplementTwice(Run(0xFFFF_FFFF, before + y + after));
  }

  lemma BurstChangesWhole(crc: word, before: seq<byte>, x: seq<byte>, y: seq<byte>, after: seq<byte>)
    requires |x| == |y| <= 4 && x != y
    ensures Run(crc, before + x + after) != Run(crc, before + y + after)
  {
    RunThrough(crc, before, x, after);
    RunThrough(crc, before, y, after);
    BurstChangesRun(Run(crc, before), x, y, after);
  }
}
