/**
 * The CRC of section 8 of RFC 1952 as long division of polynomials over GF(2): a register of 32
 * coefficients, highest power first, and the generator given by its exponents.
 */
module CrcDivision {
  import opened Words
  import opened Arithmetic
  import opened Crc32

  // ----- the division -----

  /** The powers of x in the generator, below x^32. */
  predicate InGenerator(e: int) {
    e in {26, 23, 22, 16, 12, 11, 10, 8, 7, 5, 4, 2, 1, 0}
  }

  /** The remainder so far: element i is the coefficient of x^(31 - i). */
  type Remainder = r: seq<bool> | |r| == 32 witness seq(32, _ => false)

  /** One more coefficient of the message: times x, and minus the generator when x^32 appears. */
  function Divide(r: Remainder, b: bool): Remainder {
    seq(32, i requires 0 <= i < 32 => (i < 31 && r[i + 1]) != (r[0] != b && InGenerator(31 - i)))
  }

  function DivideAll(r: Remainder, bits: seq<bool>): Remainder
    decreases |bits|
  {
    if bits == [] then r else DivideAll(Divide(r, bits[0]), bits[1..])
  }

  /** The low n bits of a byte, lowest first, the order in which they are sent. */
  function BitsOf(b: nat, n: nat): (bits: seq<bool>)
    ensures |bits| == n
  {
    seq(n, i requires 0 <= i < n => Bit(b, i) == 1)
  }

  function MessageBits(data: seq<Byte>): seq<bool> {
    if data == [] then [] else BitsOf(data[0], 8) + MessageBits(data[1..])
  }

  /** The register starts with all coefficients set, and the remainder is sent complemented. */
  function Checked(data: seq<Byte>): Remainder {
    var r := DivideAll(seq(32, _ => true), MessageBits(data));
    seq(32, i requires 0 <= i < 32 => !r[i])
  }

  // ----- the register of the program -----

  /** The register of the program holds the coefficient of x^31 in its lowest bit. */
  function Coefficients(c: Word): Remainder {
    BitsOf(c, 32)
  }

  lemma {:induction false} NoHighBit(v: nat, n: nat)
    requires v < Pow2(n)
    ensures Bit(v, n) == 0
    decreases n
  {
    if n == 0 {
    } else {
      NoHighBit(v / 2, n - 1);
    }
  }

  lemma BitNext(v: nat, i: nat)
    ensures Bit(v, i + 1) == Bit(v / 2, i)
  {}

  /** The bits above the lowest byte. */
  lemma BitAbove(v: nat, j: nat)
    ensures Bit(v, j + 8) == Bit(v / 0x100, j)
  {
    hide Bit;
    BitNext(v, j + 7);
    BitNext(v / 2, j + 6);
    BitNext(v / 4, j + 5);
    BitNext(v / 8, j + 4);
    BitNext(v / 0x10, j + 3);
    BitNext(v / 0x20, j + 2);
    BitNext(v / 0x40, j + 1);
    BitNext(v / 0x80, j);
  }

  /** The bits of the lowest byte. */
  lemma BitByte(v: nat, j: nat)
    requires j < 8
    ensures Bit(v, j) == Bit(v % 0x100, j)
  {
    hide Bit;
    Pow2Values();
    LowBitsAt(v, 8, j);
  }

  /** The four bytes of the constant of the program, bit by bit. */
  lemma GeneratorByte0(j: nat)
    requires j < 8
    ensures Bit(0x20, j) == 1 <==> InGenerator(31 - j)
  {
    assert Bit(0x20, 0) == 0 && Bit(0x20, 1) == 0 && Bit(0x20, 2) == 0 && Bit(0x20, 3) == 0;
    assert Bit(0x20, 4) == 0 && Bit(0x20, 5) == 1 && Bit(0x20, 6) == 0 && Bit(0x20, 7) == 0;
  }

  lemma GeneratorByte1(j: nat)
    requires j < 8
    ensures Bit(0x83, j) == 1 <==> InGenerator(23 - j)
  {
    assert Bit(0x83, 0) == 1 && Bit(0x83, 1) == 1 && Bit(0x83, 2) == 0 && Bit(0x83, 3) == 0;
    assert Bit(0x83, 4) == 0 && Bit(0x83, 5) == 0 && Bit(0x83, 6) == 0 && Bit(0x83, 7) == 1;
  }

  lemma GeneratorByte2(j: nat)
    requires j < 8
    ensures Bit(0xB8, j) == 1 <==> InGenerator(15 - j)
  {
    assert Bit(0xB8, 0) == 0 && Bit(0xB8, 1) == 0 && Bit(0xB8, 2) == 0 && Bit(0xB8, 3) == 1;
    assert Bit(0xB8, 4) == 1 && Bit(0xB8, 5) == 1 && Bit(0xB8, 6) == 0 && Bit(0xB8, 7) == 1;
  }

  lemma GeneratorByte3(j: nat)
    requires j < 8
    ensures Bit(0xED, j) == 1 <==> InGenerator(7 - j)
  {
    assert Bit(0xED, 0) == 1 && Bit(0xED, 1) == 0 && Bit(0xED, 2) == 1 && Bit(0xED, 3) == 1;
    assert Bit(0xED, 4) == 0 && Bit(0xED, 5) == 1 && Bit(0xED, 6) == 1 && Bit(0xED, 7) == 1;
  }

  /** The constant of the program is the generator. */
  lemma GeneratorAt(i: nat)
    requires i < 32
    ensures Bit(POLY, i) == 1 <==> InGenerator(31 - i)
  {
    hide Bit, InGenerator;
    Pow2Values();
    var j := i % 8;
    if i < 8 {
      BitByte(POLY, j);
      GeneratorByte0(j);
    } else if i < 16 {
      BitAbove(POLY, j);
      BitByte(POLY / 0x100, j);
      GeneratorByte1(j);
    } else if i < 24 {
      BitAbove(POLY, j + 8);
      BitAbove(POLY / 0x100, j);
      BitByte(POLY / 0x1_0000, j);
      GeneratorByte2(j);
    } else {
      BitAbove(POLY, j + 16);
      BitAbove(POLY / 0x100, j + 8);
      BitAbove(POLY / 0x1_0000, j);
      GeneratorByte3(j);
    }
  }

  lemma {:induction false} OnesAt(n: nat, i: nat)
    requires i < n
    ensures Bit(Pow2(n) - 1, i) == 1
    decreases n
  {
    assert (Pow2(n) - 1) / 2 == Pow2(n - 1) - 1;
    if i == 0 {
    } else {
      OnesAt(n - 1, i - 1);
    }
  }

  lemma {:induction false} ZeroAt(i: nat)
    ensures Bit(0, i) == 0
  {
    if i == 0 {
    } else {
      ZeroAt(i - 1);
    }
  }

  lemma StepAt(c: Word, bit: Word, i: nat)
    requires bit < 2 && i < 32
    ensures Bit(Step(Xor(c, bit)), i) == 1 <==>
            (i < 31 && Bit(c, i + 1) == 1) != ((Bit(c, 0) == 1) != (bit == 1) && InGenerator(31 - i))
  {
    hide Xor, POLY, InGenerator;
    Pow2Values();
    var x := Xor(c, bit);
    XorAt(c, bit, 0);
    XorAt(c, bit, i + 1);
    assert Bit(bit, i + 1) == Bit(bit / 2, i) == Bit(0, i);
    ZeroAt(i);
    assert Bit(x, i + 1) == Bit(x / 2, i);
    NoHighBit(c, 32);
    GeneratorAt(i);
    XorAt(x / 2, POLY, i);
  }

  // ----- the program divides -----

  /** One step of the program on one bit is one step of the division. */
  lemma StepDivides(c: Word, bit: Word)
    requires bit < 2
    ensures Coefficients(Step(Xor(c, bit))) == Divide(Coefficients(c), bit == 1)
  {
    hide Xor, Step, InGenerator, Bit;
    forall i | 0 <= i < 32
      ensures Coefficients(Step(Xor(c, bit)))[i] == Divide(Coefficients(c), bit == 1)[i]
    {
      StepAt(c, bit, i);
    }
  }

  lemma BitsTail(b: nat, n: nat)
    requires n > 0
    ensures BitsOf(b, n)[0] == (b % 2 == 1) && BitsOf(b, n)[1..] == BitsOf(b / 2, n - 1)
  {}

  lemma {:induction false} FeedDivides(c: Word, b: Byte, n: nat)
    ensures Coefficients(FeedBits(c, b, n)) == DivideAll(Coefficients(c), BitsOf(b, n))
    decreases n
  {
    hide Coefficients, Divide, Step, Xor, BitsOf;
    if n == 0 {
      assert BitsOf(b, 0) == [];
    } else {
      BitsTail(b, n);
      StepDivides(c, b % 2);
      FeedDivides(Step(Xor(c, b % 2)), b / 2, n - 1);
    }
  }

  lemma {:induction false} DivideAppend(r: Remainder, a: seq<bool>, b: seq<bool>)
    ensures DivideAll(r, a + b) == DivideAll(DivideAll(r, a), b)
    decreases |a|
  {
    hide Divide;
    if a == [] {
      assert a + b == b;
    } else {
      assert (a + b)[0] == a[0] && (a + b)[1..] == a[1..] + b;
      DivideAppend(Divide(r, a[0]), a[1..], b);
    }
  }

  lemma {:induction false} BytesDivide(c: Word, data: seq<Byte>)
    ensures Coefficients(FeedBytes(c, data)) == DivideAll(Coefficients(c), MessageBits(data))
    decreases |data|
  {
    hide Coefficients, Divide, FeedBits, BitsOf;
    if data == [] {
    } else {
      var x := FeedBits(c, data[0], 8);
      FeedDivides(c, data[0], 8);
      BytesDivide(x, data[1..]);
      DivideAppend(Coefficients(c), BitsOf(data[0], 8), MessageBits(data[1..]));
    }
  }

  lemma OnesCoefficients()
    ensures Coefficients(ONES) == seq(32, _ => true)
  {
    Pow2Values();
    forall i | 0 <= i < 32
      ensures Coefficients(ONES)[i]
    {
      OnesAt(32, i);
    }
  }

  /**
   * For every message the bits of the CRC, lowest first, are the complemented remainder of the
   * division of the message, highest power first.
   */
  lemma CrcIsRemainder(data: seq<Byte>)
    ensures BitsOf(Crc(data), 32) == Checked(data)
  {
    hide FeedBytes, DivideAll, Bit, Xor, MessageBits;
    BytesDivide(ONES, data);
    OnesCoefficients();
    var c := FeedBytes(ONES, data);
    forall i | 0 <= i < 32
      ensures BitsOf(Crc(data), 32)[i] == Checked(data)[i]
    {
      XorAt(c, ONES, i);
      assert Coefficients(ONES)[i];
      assert Coefficients(c)[i] == (Bit(c, i) == 1);
    }
  }

  /** A number below 2^n is known by its n low bits. */
  lemma {:induction false} BitsTell(a: nat, b: nat, n: nat)
    requires a < Pow2(n) && b < Pow2(n) && BitsOf(a, n) == BitsOf(b, n)
    ensures a == b
    decreases n
  {
    hide BitsOf;
    if n == 0 {
    } else {
      BitsTail(a, n);
      BitsTail(b, n);
      BitsTell(a / 2, b / 2, n - 1);
    }
  }

  /** The CRC is the only 32-bit number with that property. */
  lemma CrcIsOnly(data: seq<Byte>, v: Word)
    ensures v == Crc(data) <==> BitsOf(v, 32) == Checked(data)
  {
    hide Crc, BitsOf, Checked, Pow2;
    Pow2Values();
    CrcIsRemainder(data);
    if BitsOf(v, 32) == Checked(data) {
      BitsTell(v, Crc(data), 32);
    }
  }
}
