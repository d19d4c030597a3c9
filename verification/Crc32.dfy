/**
 * samples/crc.c: the table-driven CRC-32, proved equal to the bit-serial division
 * of section 8 of RFC 1952, and the error detection that division is used for.
 */
module Crc32 {
  import opened Words

  const POLY: Word := 0xEDB88320
  const ONES: Word := 0xFFFFFFFF
  const BITS: nat := 8

  /** One step of the division: shift out the low bit and, if it was set, subtract the polynomial. */
  function Step(c: Word): Word {
    if c % 2 == 1 then Xor(c / 2, POLY) else c / 2
  }

  function Steps(c: Word, n: nat): Word
    decreases n
  {
    if n == 0 then c else Step(Steps(c, n - 1))
  }

  /** The simple form: the message enters one bit at a time, lowest bit of each byte first. */
  function FeedBits(c: Word, b: Byte, n: nat): Word
    decreases n
  {
    if n == 0 then c else FeedBits(Step(Xor(c, b % 2)), b / 2, n - 1)
  }

  function FeedBytes(c: Word, data: seq<Byte>): Word
    decreases |data|
  {
    if data == [] then c else FeedBytes(FeedBits(c, data[0], BITS), data[1..])
  }

  function Crc(data: seq<Byte>): Word {
    Xor(FeedBytes(ONES, data), ONES)
  }

  // ----- the bit step is linear and invertible -----

  lemma StepXor(a: Word, b: Word)
    ensures Step(Xor(a, b)) == Xor(Step(a), Step(b))
  {
    XorHalf(a, b);
    var x, y := a / 2, b / 2;
    XorAssoc(x, y, POLY);
    XorAssoc(x, POLY, y);
    XorComm(y, POLY);
    XorComm(POLY, Xor(y, POLY));
    XorAssoc(x, POLY, Xor(y, POLY));
    XorCancel(y, POLY);
  }

  lemma {:induction false} StepsXor(a: Word, b: Word, n: nat)
    ensures Steps(Xor(a, b), n) == Xor(Steps(a, n), Steps(b, n))
    decreases n
  {
    if n == 0 {
    } else {
      StepsXor(a, b, n - 1);
      StepXor(Steps(a, n - 1), Steps(b, n - 1));
    }
  }

  lemma {:induction false} StepsAdd(c: Word, m: nat, n: nat)
    ensures Steps(Steps(c, m), n) == Steps(c, m + n)
    decreases n
  {
    if n == 0 {
    } else {
      StepsAdd(c, m, n - 1);
    }
  }

  lemma {:induction false} XorTop(a: nat, b: nat, n: nat)
    requires a < Pow2(n) && b < Pow2(n)
    ensures Bits(XOR, a, Pow2(n) + b) >= Pow2(n)
    decreases n
  {
    if n == 0 {
    } else {
      assert (Pow2(n) + b) / 2 == Pow2(n - 1) + b / 2;
      XorTop(a / 2, b / 2, n - 1);
      BitsHalf(XOR, a, Pow2(n) + b);
    }
  }

  /** The polynomial has its top bit set, so the top bit of the result tells the bit shifted out. */
  lemma StepTop(c: Word)
    ensures Step(c) >= 0x8000_0000 <==> c % 2 == 1
  {
    Pow2Values();
    XorTop(c / 2, POLY - 0x8000_0000, 31);
  }

  lemma StepInjective(a: Word, b: Word)
    requires Step(a) == Step(b)
    ensures a == b
  {
    StepTop(a);
    StepTop(b);
    XorCancel(a / 2, POLY);
    XorCancel(b / 2, POLY);
  }

  /** Two register values never merge, however many steps follow. */
  lemma {:induction false} StepsInjective(a: Word, b: Word, n: nat)
    requires Steps(a, n) == Steps(b, n)
    ensures a == b
    decreases n
  {
    if n == 0 {
    } else {
      StepInjective(Steps(a, n - 1), Steps(b, n - 1));
      StepsInjective(a, b, n - 1);
    }
  }

  // ----- eight steps at a time -----

  lemma StepEven(y: Word)
    requires 2 * y < M32
    ensures Step(2 * y) == y
  {
    hide Xor;
  }

  lemma OneTimes(y: nat)
    ensures Pow2(0) * y == y
  {}

  /** Steps over bits that are all zero only shift. */
  lemma {:induction false} StepsShift(y: nat, n: nat)
    requires Pow2(n) * y < M32
    ensures Steps(Pow2(n) * y, n) == y
    decreases n
  {
    hide Step, Pow2;
    if n == 0 {
      OneTimes(y);
    } else {
      Twice(n, y);
      var half := Pow2(n - 1) * y;
      StepEven(half);
      StepsAdd(2 * half, 1, n - 1);
      assert Steps(2 * half, 0) == 2 * half;
      assert Steps(2 * half, 1) == Step(2 * half);
      StepsShift(y, n - 1);
    }
  }

  lemma StepsXorShift8(c: Word, y: Word)
    requires y < 0x100_0000
    ensures Steps(Xor(c, 0x100 * y), BITS) == Xor(Steps(c, BITS), y)
  {
    Pow2Values();
    StepsShift(y, BITS);
    StepsXor(c, 0x100 * y, BITS);
  }

  /** The table identity: eight steps see the upper 24 bits only through a shift. */
  lemma StepsSplit(c: Word)
    ensures Steps(c, BITS) == Xor(c / 0x100, Steps(c % 0x100, BITS))
  {
    hide *;
    XorLowHigh(c % 0x100, c / 0x100);
    StepsXorShift8(c % 0x100, c / 0x100);
    XorComm(Steps(c % 0x100, BITS), c / 0x100);
  }

  /** Feeding a bit and leaving the rest is stepping with the whole value mixed in. */
  lemma FeedOneBit(c: Word, b: Byte)
    ensures Xor(Step(Xor(c, b % 2)), b / 2) == Step(Xor(c, b))
  {
    var h := b / 2;
    XorBitHigh(b % 2, h);
    XorAssoc(c, b % 2, 2 * h);
    StepXor(Xor(c, b % 2), 2 * h);
  }

  lemma {:induction false} FeedBitsIsSteps(c: Word, b: Byte, n: nat)
    requires b < Pow2(n)
    ensures FeedBits(c, b, n) == Steps(Xor(c, b), n)
    decreases n
  {
    if n == 0 {
      XorSelf(c);
    } else {
      FeedBitsIsSteps(Step(Xor(c, b % 2)), b / 2, n - 1);
      FeedOneBit(c, b);
      StepsAdd(Xor(c, b), 1, n - 1);
      assert Steps(Xor(c, b), 1) == Step(Xor(c, b));
    }
  }

  lemma FeedByteIsSteps(c: Word, b: Byte)
    ensures FeedBits(c, b, BITS) == Steps(Xor(c, b), BITS)
  {
    Pow2Values();
    FeedBitsIsSteps(c, b, BITS);
  }

  lemma XorByte(a: Byte, b: Byte)
    ensures Xor(a, b) < 0x100
  {
    Pow2Values();
    BitsBound(XOR, a, b, BITS);
  }

  lemma XorUpper(c: Word, b: Byte)
    ensures Xor(c, b) / 0x100 == c / 0x100
  {
    var lo, hi := c % 0x100, c / 0x100;
    XorLowHigh(lo, hi);
    XorComm(lo, 0x100 * hi);
    XorAssoc(0x100 * hi, lo, b);
    XorComm(0x100 * hi, Xor(lo, b));
    XorByte(lo, b);
    XorLowHigh(Xor(lo, b), hi);
  }

  /** The index and the shifted register of one table look-up give the eight bit steps. */
  lemma TableStep(c: Word, b: Byte)
    ensures FeedBits(c, b, BITS) == Xor(c / 0x100, Steps(Xor(c, b) % 0x100, BITS))
  {
    FeedByteIsSteps(c, b);
    StepsSplit(Xor(c, b));
    XorUpper(c, b);
  }

  // ----- error detection -----

  lemma {:induction false} FeedBytesAppend(c: Word, p: seq<Byte>, q: seq<Byte>)
    ensures FeedBytes(c, p + q) == FeedBytes(FeedBytes(c, p), q)
    decreases |p|
  {
    if p == [] {
      assert p + q == q;
    } else {
      assert (p + q)[1..] == p[1..] + q;
      FeedBytesAppend(FeedBits(c, p[0], BITS), p[1..], q);
    }
  }

  lemma {:induction false} FeedBytesInjective(a: Word, b: Word, data: seq<Byte>)
    requires FeedBytes(a, data) == FeedBytes(b, data)
    ensures a == b
    decreases |data|
  {
    if data == [] {
    } else {
      FeedBytesInjective(FeedBits(a, data[0], BITS), FeedBits(b, data[0], BITS), data[1..]);
      FeedByteIsSteps(a, data[0]);
      FeedByteIsSteps(b, data[0]);
      StepsInjective(Xor(a, data[0]), Xor(b, data[0]), BITS);
      XorCancel(a, data[0]);
      XorCancel(b, data[0]);
    }
  }

  /** The little-endian value of up to four bytes. */
  function Value(w: seq<Byte>): (v: Word)
    requires |w| <= 4
    ensures |w| <= 3 ==> v < 0x100_0000
    ensures |w| <= 2 ==> v < 0x1_0000
    ensures |w| <= 1 ==> v < 0x100
  {
    if w == [] then 0 else w[0] + 0x100 * Value(w[1..])
  }

  lemma {:induction false} ValueInjective(u: seq<Byte>, w: seq<Byte>)
    requires |u| == |w| <= 4 && Value(u) == Value(w)
    ensures u == w
    decreases |u|
  {
    if u == [] {
    } else {
      ValueInjective(u[1..], w[1..]);
      assert u == [u[0]] + u[1..] && w == [w[0]] + w[1..];
    }
  }

  /** A byte fed ahead of three more only adds its own eight steps. */
  lemma WindowStep(c: Word, b: Byte, y: Word, n: nat)
    requires y < 0x100_0000
    ensures Steps(Xor(FeedBits(c, b, BITS), y), n) == Steps(Xor(c, b + 0x100 * y), BITS + n)
  {
    hide *;
    var x := Xor(c, b);
    FeedByteIsSteps(c, b);
    StepsXorShift8(x, y);
    StepsAdd(Xor(x, 0x100 * y), BITS, n);
    XorLowHigh(b, y);
    XorAssoc(c, b, 0x100 * y);
  }

  lemma WindowNone(c: Word)
    ensures FeedBytes(c, []) == Steps(Xor(c, Value([])), BITS * 0)
  {
    XorSelf(c);
  }

  lemma WindowHead(c: Word, w: seq<Byte>)
    requires 0 < |w| <= 4
    ensures FeedBytes(c, w) == FeedBytes(FeedBits(c, w[0], BITS), w[1..])
    ensures Value(w) == w[0] + 0x100 * Value(w[1..]) && Value(w[1..]) < 0x100_0000
    ensures BITS * |w| == BITS + BITS * |w[1..]|
  {
    hide FeedBits;
  }

  /** Feeding up to four bytes is mixing in their value at once and stepping through all its bits. */
  lemma {:induction false} WindowIsSteps(c: Word, w: seq<Byte>)
    requires |w| <= 4
    ensures FeedBytes(c, w) == Steps(Xor(c, Value(w)), BITS * |w|)
    decreases |w|
  {
    hide *;
    if w == [] {
      WindowNone(c);
    } else {
      WindowHead(c, w);
      WindowIsSteps(FeedBits(c, w[0], BITS), w[1..]);
      WindowStep(c, w[0], Value(w[1..]), BITS * |w[1..]|);
    }
  }

  /**
   * Every error confined to four consecutive bytes is detected: two messages that differ there
   * and nowhere else never share a CRC. One wrong byte is the case |u| == 1.
   */
  lemma BurstDetected(p: seq<Byte>, u: seq<Byte>, w: seq<Byte>, q: seq<Byte>)
    requires |u| == |w| <= 4 && u != w
    ensures Crc(p + u + q) != Crc(p + w + q)
  {
    if Crc(p + u + q) == Crc(p + w + q) {
      var c := FeedBytes(ONES, p);
      XorCancel(FeedBytes(ONES, p + u + q), ONES);
      XorCancel(FeedBytes(ONES, p + w + q), ONES);
      FeedBytesAppend(ONES, p + u, q);
      FeedBytesAppend(ONES, p + w, q);
      FeedBytesAppend(ONES, p, u);
      FeedBytesAppend(ONES, p, w);
      FeedBytesInjective(FeedBytes(c, u), FeedBytes(c, w), q);
      WindowIsSteps(c, u);
      WindowIsSteps(c, w);
      StepsInjective(Xor(c, Value(u)), Xor(c, Value(w)), BITS * |u|);
      XorComm(c, Value(u));
      XorComm(c, Value(w));
      XorCancel(Value(u), c);
      XorCancel(Value(w), c);
      ValueInjective(u, w);
      assert false;
    }
  }

  lemma {:induction false} ValueBytes(v: Word, n: nat)
    requires n <= 4 && v < Pow2(BITS * n)
    ensures Value(LowBytes(v, n)) == v
    decreases n
  {
    if n == 0 {
    } else {
      Pow2Byte(BITS * (n - 1));
      ValueBytes(v / 0x100, n - 1);
      assert LowBytes(v, n)[1..] == LowBytes(v / 0x100, n - 1);
    }
  }

  lemma ZeroWord()
    ensures FeedBytes(ONES, [0, 0, 0, 0]) == Steps(ONES, 32)
  {
    var z: seq<Byte> := [0, 0, 0, 0];
    WindowIsSteps(ONES, z);
    assert Value(z[1..][1..]) == 0;
    XorSelf(ONES);
  }

  /** A message with its CRC appended has the same CRC whatever the message: that of four zero bytes. */
  lemma Residue(m: seq<Byte>)
    ensures Crc(m + LowBytes(Crc(m), 4)) == Crc([0, 0, 0, 0])
  {
    var s := FeedBytes(ONES, m);
    Pow2Values();
    ValueBytes(Crc(m), 4);
    FeedBytesAppend(ONES, m, LowBytes(Crc(m), 4));
    WindowIsSteps(s, LowBytes(Crc(m), 4));
    XorAssoc(s, s, ONES);
    XorSelf(s);
    XorSelf(ONES);
    ZeroWord();
  }

  lemma TableBit(c: Word)
    ensures Xor(c / 2, if c % 2 == 1 then POLY else 0) == Step(c)
  {
    XorSelf(c / 2);
  }

  // ----- the program -----

  class Checksum {
    /** crc32_table */
    const table: array<Word>

    constructor ()
      ensures fresh(table) && table.Length == 256
    {
      table := new Word[256];
    }

    /** What init_crc32_table establishes: entry i is eight bit steps of i. */
    ghost predicate Ready()
      reads table
    {
      table.Length == 256 && forall i | 0 <= i < 256 :: table[i] == Steps(i, BITS)
    }

    method Init()
      requires table.Length == 256
      modifies table
      ensures Ready()
    {
      hide Xor, Step;
      for i := 0 to 256
        invariant forall k | 0 <= k < i :: table[k] == Steps(k, BITS)
      {
        var ch: Word := i;
        for j := 0 to BITS
          modifies {}
          invariant ch == Steps(i, j)
        {
          TableBit(ch);
          ch := Xor(ch / 2, if ch % 2 == 1 then POLY else 0);
        }
        table[i] := ch;
      }
    }

    method Compute(data: array<Byte>, len: nat) returns (crc: Word)
      requires Ready() && len <= data.Length
      ensures crc == Crc(data[..len])
    {
      crc := ONES;
      for i := 0 to len
        invariant crc == FeedBytes(ONES, data[..i])
      {
        var b := data[i];
        TableStep(crc, b);
        FeedBytesAppend(ONES, data[..i], [b]);
        assert data[..i + 1] == data[..i] + [b];
        assert FeedBytes(crc, [b]) == FeedBits(crc, b, BITS);
        crc := Xor(crc / 0x100, table[Xor(crc, b) % 0x100]);
      }
      crc := Xor(crc, ONES);
    }
  }
}
