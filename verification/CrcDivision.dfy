/**
 * The CRC of RFC 2083 section 3.4 as it is defined there: the remainder of a polynomial division.
 * A polynomial over the two-element field says of every exponent whether it has that term.
 */
module CrcDivision {
  import opened Crc32

  type Polynomial = nat -> bool

  const EXPONENTS: set<nat> := {32, 26, 23, 22, 16, 12, 11, 10, 8, 7, 5, 4, 2, 1, 0}

  function Generator(): Polynomial {
    (e: nat) => e in EXPONENTS
  }

  function Zero(): Polynomial {
    (e: nat) => false
  }

  function Add(a: Polynomial, b: Polynomial): Polynomial {
    (e: nat) => a(e) != b(e)
  }

  /** Multiplication by a power of x. */
  function Shift(a: Polynomial, n: nat): Polynomial {
    (e: nat) => e >= n && a(e - n)
  }

  function Term(present: bool, a: Polynomial): Polynomial {
    if present then a else Zero()
  }

  ghost predicate Same(a: Polynomial, b: Polynomial) {
    forall e: nat :: a(e) == b(e)
  }

  // ------------------------------------------------------------------- the register

  /** Bit `i` of a word. */
  predicate Coefficient(x: word, i: nat) {
    if i == 0 then Odd(x) else Coefficient(Half(x), i - 1)
  }

  /** The register read as a polynomial: its lowest bit is the coefficient of x^31. */
  function Register(x: word): Polynomial {
    (e: nat) => e < 32 && Coefficient(x, 31 - e)
  }

  lemma {:induction false} CoefficientOfXor(a: word, b: word, i: nat)
    ensures Coefficient(a ^ b, i) == (Coefficient(a, i) != Coefficient(b, i))
    decreases i
  {
    OddXor(a, b);
    if i > 0 {
      CoefficientOfXor(Half(a), Half(b), i - 1);
    }
  }

  lemma OddXor(a: word, b: word)
    ensures Odd(a ^ b) == (Odd(a) != Odd(b)) && Half(a ^ b) == Half(a) ^ Half(b)
  {
    LowBit(a);
    LowBit(b);
    XorOfParts(a, b);
  }

  lemma {:induction false} CoefficientOfZero(i: nat)
    ensures !Coefficient(0, i)
  {
    if i > 0 {
      CoefficientOfZero(i - 1);
    }
  }

  function ByteOff(x: word): word { x >> 8 }

  lemma EightShifts(x: word)
    ensures Half(Half(Half(Half(Half(Half(Half(Half(x)))))))) == ByteOff(x)
  {
  }

  lemma FourBytes(x: word)
    ensures ByteOff(ByteOff(ByteOff(ByteOff(x)))) == 0
  {
  }

  lemma NextCoefficient(x: word, i: nat)
    ensures Coefficient(x, i + 1) == Coefficient(Half(x), i)
  {
  }

  lemma FourHalvings(x: word, i: nat)
    ensures Coefficient(x, i + 4) == Coefficient(Half(Half(Half(Half(x)))), i)
  {
    assert Coefficient(x, i + 4) == Coefficient(Half(Half(x)), i + 2);
  }

  lemma EightHalvings(x: word, i: nat)
    ensures Coefficient(x, i + 8) == Coefficient(ByteOff(x), i)
  {
    FourHalvings(x, i + 4);
    FourHalvings(Half(Half(Half(Half(x)))), i);
    EightShifts(x);
  }

  lemma NoBitBeyond(x: word, i: nat)
    requires i >= 32
    ensures !Coefficient(x, i)
  {
    EightHalvings(x, i - 8);
    EightHalvings(ByteOff(x), i - 16);
    EightHalvings(ByteOff(ByteOff(x)), i - 24);
    EightHalvings(ByteOff(ByteOff(ByteOff(x))), i - 32);
    FourBytes(x);
    CoefficientOfZero(i - 32);
  }

  lemma OddMasks(x: word)
    ensures Odd(x) == (x & 0x01 != 0) && Odd(Half(x)) == (x & 0x02 != 0)
    ensures Odd(Half(Half(x))) == (x & 0x04 != 0) && Odd(Half(Half(Half(x)))) == (x & 0x08 != 0)
  {
  }

  lemma FirstFour(x: word)
    ensures Coefficient(x, 0) == Odd(x) && Coefficient(x, 1) == Odd(Half(x))
    ensures Coefficient(x, 2) == Odd(Half(Half(x))) && Coefficient(x, 3) == Odd(Half(Half(Half(x))))
  {
    NextCoefficient(x, 0);
    NextCoefficient(x, 1);
    NextCoefficient(Half(x), 0);
    NextCoefficient(x, 2);
    NextCoefficient(Half(x), 1);
    NextCoefficient(Half(Half(x)), 0);
  }

  lemma LowFour(x: word)
    ensures Coefficient(x, 0) == (x & 0x01 != 0) && Coefficient(x, 1) == (x & 0x02 != 0)
    ensures Coefficient(x, 2) == (x & 0x04 != 0) && Coefficient(x, 3) == (x & 0x08 != 0)
  {
    OddMasks(x);
    FirstFour(x);
  }

  lemma MaskedHalves(x: word)
    ensures
      var y := Half(Half(Half(Half(x))));
      && (y & 0x01 != 0) == (x & 0x10 != 0) && (y & 0x02 != 0) == (x & 0x20 != 0)
      && (y & 0x04 != 0) == (x & 0x40 != 0) && (y & 0x08 != 0) == (x & 0x80 != 0)
  {
  }

  lemma LowBits(x: word)
    ensures Coefficient(x, 0) == (x & 0x01 != 0) && Coefficient(x, 1) == (x & 0x02 != 0)
    ensures Coefficient(x, 2) == (x & 0x04 != 0) && Coefficient(x, 3) == (x & 0x08 != 0)
    ensures Coefficient(x, 4) == (x & 0x10 != 0) && Coefficient(x, 5) == (x & 0x20 != 0)
    ensures Coefficient(x, 6) == (x & 0x40 != 0) && Coefficient(x, 7) == (x & 0x80 != 0)
  {
    LowFour(x);
    LowFour(Half(Half(Half(Half(x)))));
    MaskedHalves(x);
    FourHalvings(x, 0);
    FourHalvings(x, 1);
    FourHalvings(x, 2);
    FourHalvings(x, 3);
  }

  lemma PolynomialByte(x: word, k: nat, i: nat)
    requires i < 8
    requires (x, k) in {(0xedb8_8320, 0), (0xed_b883, 8), (0xedb8, 16), (0xed, 24)}
    ensures Coefficient(x, i) <==> 31 - k - i in EXPONENTS
  {
    LowBits(x);
  }

  /** The reflected constant is the generator without its highest term. */
  lemma PolynomialIsGenerator(e: nat)
    ensures Register(POLYNOMIAL)(e) <==> e != 32 && Generator()(e)
  {
    if e < 32 {
      var i := 31 - e;
      if i < 8 {
        PolynomialByte(POLYNOMIAL, 0, i);
      } else if i < 16 {
        EightHalvings(POLYNOMIAL, i - 8);
        PolynomialByte(0xed_b883, 8, i - 8);
      } else if i < 24 {
        EightHalvings(POLYNOMIAL, i - 8);
        EightHalvings(0xed_b883, i - 16);
        PolynomialByte(0xedb8, 16, i - 16);
      } else {
        EightHalvings(POLYNOMIAL, i - 8);
        EightHalvings(0xed_b883, i - 16);
        EightHalvings(0xedb8, i - 24);
        PolynomialByte(0xed, 24, i - 24);
      }
    }
  }

  // ------------------------------------------------------------------- the division

  function Feedback(q: bool): word {
    if q then POLYNOMIAL else 0
  }

  lemma FeedbackCoefficient(q: bool, i: nat)
    ensures Coefficient(Feedback(q), i) == (q && Coefficient(POLYNOMIAL, i))
  {
    CoefficientOfZero(i);
  }

  lemma ClockIsFeedback(crc: word, bit: bool)
    ensures Clock(crc, bit) == Half(crc) ^ Feedback(Odd(crc) != bit)
  {
  }

  lemma SumCoefficient(sum: word, a: word, b: word, i: nat)
    requires sum == a ^ b
    ensures Coefficient(sum, i) == (Coefficient(a, i) != Coefficient(b, i))
  {
    CoefficientOfXor(a, b, i);
  }

  lemma ClockedCoefficient(crc: word, bit: bool, i: nat)
    ensures Coefficient(Clock(crc, bit), i) ==
            (Coefficient(crc, i + 1) != (Odd(crc) != bit && Coefficient(POLYNOMIAL, i)))
  {
    var half, feedback, next := Half(crc), Feedback(Odd(crc) != bit), Clock(crc, bit);
    ClockIsFeedback(crc, bit);
    SumCoefficient(next, half, feedback, i);
    FeedbackCoefficient(Odd(crc) != bit, i);
    NextCoefficient(crc, i);
  }

  /** x^32. */
  function Leading(): Polynomial {
    (e: nat) => e == 32
  }

  /** One clock multiplies by x, takes in the next bit at x^32 and subtracts the generator if that term is left. */
  lemma ClockDivides(crc: word, bit: bool)
    ensures Same(Add(Shift(Register(crc), 1), Term(bit, Leading())),
                 Add(Register(Clock(crc, bit)), Term(Odd(crc) != bit, Generator())))
  {
    forall e: nat
      ensures Add(Shift(Register(crc), 1), Term(bit, Leading()))(e) ==
              Add(Register(Clock(crc, bit)), Term(Odd(crc) != bit, Generator()))(e)
    {
      ClockDividesAt(crc, bit, e);
    }
  }

  lemma ClockDividesAt(crc: word, bit: bool, e: nat)
    ensures Add(Shift(Register(crc), 1), Term(bit, Leading()))(e) ==
            Add(Register(Clock(crc, bit)), Term(Odd(crc) != bit, Generator()))(e)
  {
    PolynomialIsGenerator(e);
    GeneratorLeads();
    ClockDividesBy(crc, bit, Generator(), e);
  }

  lemma GeneratorLeads()
    ensures Generator()(32)
  {
  }

  lemma RegisterAt(x: word, e: nat)
    ensures Register(x)(e) == (e < 32 && Coefficient(x, 31 - e))
  {
  }

  lemma ClockDividesBy(crc: word, bit: bool, g: Polynomial, e: nat)
    requires g(e) <==> e == 32 || Register(POLYNOMIAL)(e)
    ensures Add(Shift(Register(crc), 1), Term(bit, Leading()))(e) ==
            Add(Register(Clock(crc, bit)), Term(Odd(crc) != bit, g))(e)
  {
    ShiftedAt(crc, e);
    TermAt(bit, Leading(), e);
    TermAt(Odd(crc) != bit, g, e);
    RegisterAt(Clock(crc, bit), e);
    RegisterAt(POLYNOMIAL, e);
    if e < 32 {
      ClockedCoefficient(crc, bit, 31 - e);
    }
  }

  lemma TermAt(present: bool, a: Polynomial, e: nat)
    ensures Term(present, a)(e) == (present && a(e))
  {
  }

  /** Multiplied by x, the register has its lowest bit at x^32 and nothing at 1. */
  lemma ShiftedAt(crc: word, e: nat)
    ensures Shift(Register(crc), 1)(e) ==
            if e > 32 then false else if e == 32 then Odd(crc) else Coefficient(crc, 32 - e)
  {
    NoBitBeyond(crc, 32);
  }

  /** `start` times x^n plus the n bits of the message, first bit highest, times x^32. */
  function Dividend(start: Polynomial, bits: seq<bool>): Polynomial {
    Add(Shift(start, |bits|), Shift((e: nat) => e < |bits| && bits[|bits| - 1 - e], 32))
  }

  /** The sum of the multiples of `g` that the quotient names, first bit highest. */
  function Product(quotient: seq<bool>, g: Polynomial): Polynomial {
    if quotient == [] then Zero()
    else Add(Term(quotient[0], Shift(g, |quotient| - 1)), Product(quotient[1..], g))
  }

  lemma DividendTakesBit(start: Polynomial, bits: seq<bool>)
    requires bits != []
    ensures Same(Dividend(start, bits), Dividend(Add(Shift(start, 1), Term(bits[0], Leading())), bits[1..]))
  {
  }

  lemma DividendOfSum(a: Polynomial, b: Polynomial, c: Polynomial, bits: seq<bool>)
    requires Same(a, Add(b, c))
    ensures Same(Dividend(a, bits), Add(Dividend(b, bits), Shift(c, |bits|)))
  {
  }

  lemma QuotientGrows(dividend: Polynomial, q: bool, more: seq<bool>, g: Polynomial, remainder: Polynomial, rest: Polynomial)
    requires Same(dividend, Add(rest, Shift(Term(q, g), |more|))) && Same(rest, Add(Product(more, g), remainder))
    ensures Same(dividend, Add(Product([q] + more, g), remainder))
  {
    assert ([q] + more)[1..] == more;
  }

  /** Feeding bits to the register divides by the generator: the register ends as the remainder. */
  lemma {:induction false} ClockingDivides(crc: word, bits: seq<bool>) returns (quotient: seq<bool>)
    ensures |quotient| == |bits|
    ensures Same(Dividend(Register(crc), bits),
                 Add(Product(quotient, Generator()), Register(Clocked(Clock, crc, bits))))
    decreases |bits|
  {
    if bits == [] {
      quotient := [];
    } else {
      var next, q, rest := Clock(crc, bits[0]), Odd(crc) != bits[0], bits[1..];
      var more := ClockingDivides(next, rest);
      quotient := [q] + more;
      ClockDivides(crc, bits[0]);
      DividendTakesBit(Register(crc), bits);
      DividendOfSum(Add(Shift(Register(crc), 1), Term(bits[0], Leading())), Register(next), Term(q, Generator()), rest);
      QuotientGrows(Dividend(Register(crc), bits), q, more, Generator(), Register(Clocked(Clock, next, rest)),
                    Dividend(Register(next), rest));
    }
  }

  /** The polynomial of 32 ones, which presets the register. */
  function Ones(): Polynomial {
    (e: nat) => e < 32
  }

  lemma OnesByte(x: word, i: nat)
    requires i < 8 && x in {0xFFFF_FFFF, 0xFF_FFFF, 0xFFFF, 0xFF}
    ensures Coefficient(x, i)
  {
    LowBits(x);
  }

  lemma PresetIsOnes(e: nat)
    ensures Register(0xFFFF_FFFF)(e) == Ones()(e)
  {
    if e < 32 {
      var i := 31 - e;
      if i < 8 {
        OnesByte(0xFFFF_FFFF, i);
      } else if i < 16 {
        EightHalvings(0xFFFF_FFFF, i - 8);
        OnesByte(0xFF_FFFF, i - 8);
      } else if i < 24 {
        EightHalvings(0xFFFF_FFFF, i - 8);
        EightHalvings(0xFF_FFFF, i - 16);
        OnesByte(0xFFFF, i - 16);
      } else {
        EightHalvings(0xFFFF_FFFF, i - 8);
        EightHalvings(0xFF_FFFF, i - 16);
        EightHalvings(0xFFFF, i - 24);
        OnesByte(0xFF, i - 24);
      }
    }
  }

  lemma PresetDivides(start: word, preset: Polynomial, bits: seq<bool>, end: word) returns (quotient: seq<bool>)
    requires Same(preset, Register(start)) && end == Clocked(Clock, start, bits)
    ensures Same(Dividend(preset, bits), Add(Product(quotient, Generator()), Register(end)))
  {
    quotient := ClockingDivides(start, bits);
    SamePresets(preset, Register(start), bits);
  }

  lemma SamePresets(a: Polynomial, b: Polynomial, bits: seq<bool>)
    requires Same(a, b)
    ensures Same(Dividend(a, bits), Dividend(b, bits))
  {
  }

  lemma RegisterAtEnd(bytes: seq<byte>)
    ensures !Crc(bytes) == Clocked(Clock, 0xFFFF_FFFF, AllBits(bytes))
  {
    ComplementTwice(Clocked(Clock, 0xFFFF_FFFF, AllBits(bytes)));
  }

  lemma PresetIsAllOnes()
    ensures Same(Ones(), Register(0xFFFF_FFFF))
  {
    forall e: nat ensures Ones()(e) == Register(0xFFFF_FFFF)(e) {
      PresetIsOnes(e);
    }
  }

  /**
   * The complemented CRC is the remainder, of degree below 32, of the preset and the message
   * divided by the generator.
   */
  lemma CrcIsRemainder(bytes: seq<byte>) returns (quotient: seq<bool>)
    ensures Same(Dividend(Ones(), AllBits(bytes)), Add(Product(quotient, Generator()), Register(!Crc(bytes))))
  {
    RegisterAtEnd(bytes);
    PresetIsAllOnes();
    quotient := PresetDivides(0xFFFF_FFFF, Ones(), AllBits(bytes), !Crc(bytes));
  }
}
