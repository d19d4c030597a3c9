/**
 * Bytes and 32-bit words as bounded integers, the wrap-around arithmetic of u32,
 * and the bitwise operators, defined bit by bit.
 */
module Words {
  datatype Option<+T> = None | Some(value: T)

  const M32: int := 0x1_0000_0000

  type Byte = x: int | 0 <= x < 256
  type Word = x: int | 0 <= x < 0x1_0000_0000

  /** Truncation of any integer to u32. */
  function Wrap(x: int): Word {
    x % 0x1_0000_0000
  }

  /** u32 addition. */
  function Plus(a: Word, k: int): Word {
    Wrap(a + k)
  }

  lemma PlusPlus(a: Word, j: int, k: int)
    ensures Plus(Plus(a, j), k) == Plus(a, j + k)
  {}

  /** The value of a u32 read as s32. */
  function Signed(x: Word): int {
    if x < 0x8000_0000 then x else x - 0x1_0000_0000
  }

  /** (s32)(s16) imm16 */
  function SignExtend16(x: int): int
    requires 0 <= x < 0x1_0000
  {
    if x < 0x8000 then x else x - 0x1_0000
  }

  /** (s32)(s8) byte */
  function SignExtend8(x: Byte): int {
    if x < 0x80 then x else x - 0x100
  }

  /** Four bytes in memory order, lowest first. */
  function LittleEndian(b0: Byte, b1: Byte, b2: Byte, b3: Byte): Word {
    b0 + 0x100 * b1 + 0x1_0000 * b2 + 0x100_0000 * b3
  }

  /** The n low bytes of v, lowest first. */
  function LowBytes(v: Word, n: nat): (data: seq<Byte>)
    ensures |data| == n
  {
    if n == 0 then [] else [v % 0x100] + LowBytes(v / 0x100, n - 1)
  }

  function Pow2(n: nat): (r: nat)
    ensures r >= 1
  {
    if n == 0 then 1 else 2 * Pow2(n - 1)
  }

  lemma Pow2Values()
    ensures Pow2(8) == 0x100 && Pow2(16) == 0x1_0000 && Pow2(24) == 0x100_0000
    ensures Pow2(31) == 0x8000_0000 && Pow2(32) == 0x1_0000_0000
  {
    assert Pow2(8) == 0x100;
    assert Pow2(16) == 0x1_0000;
    assert Pow2(24) == 0x100_0000;
  }

  lemma Pow2Byte(k: nat)
    ensures Pow2(k + 8) == 0x100 * Pow2(k)
  {
    assert Pow2(k + 2) == 4 * Pow2(k);
    assert Pow2(k + 4) == 4 * Pow2(k + 2);
    assert Pow2(k + 6) == 4 * Pow2(k + 4);
  }

  // ----- bitwise operators -----

  datatype Logic = AND | OR | XOR

  function LogicBit(op: Logic, a: int, b: int): int {
    match op
    case AND => if a == 1 && b == 1 then 1 else 0
    case OR => if a == 1 || b == 1 then 1 else 0
    case XOR => if a != b then 1 else 0
  }

  /** The operator applied bit by bit. */
  function Bits(op: Logic, a: nat, b: nat): nat
    decreases a + b
  {
    if a == 0 && b == 0 then 0 else LogicBit(op, a % 2, b % 2) + 2 * Bits(op, a / 2, b / 2)
  }

  lemma {:induction false} BitsBound(op: Logic, a: nat, b: nat, n: nat)
    requires a < Pow2(n) && b < Pow2(n)
    ensures Bits(op, a, b) < Pow2(n)
    decreases n
  {
    if n == 0 || (a == 0 && b == 0) {
    } else {
      BitsBound(op, a / 2, b / 2, n - 1);
    }
  }

  function Logic32(op: Logic, a: Word, b: Word): Word {
    Pow2Values();
    BitsBound(op, a, b, 32);
    Bits(op, a, b)
  }

  function And(a: Word, b: Word): Word { Logic32(AND, a, b) }
  function Or(a: Word, b: Word): Word { Logic32(OR, a, b) }
  function Xor(a: Word, b: Word): Word { Logic32(XOR, a, b) }
  function Not(a: Word): Word { 0xFFFF_FFFF - a }

  // ----- laws of exclusive or -----

  lemma BitsHalf(op: Logic, a: nat, b: nat)
    ensures Bits(op, a, b) / 2 == Bits(op, a / 2, b / 2)
    ensures Bits(op, a, b) % 2 == LogicBit(op, a % 2, b % 2)
  {}

  lemma {:induction false} XorAssocBits(a: nat, b: nat, c: nat)
    ensures Bits(XOR, Bits(XOR, a, b), c) == Bits(XOR, a, Bits(XOR, b, c))
    decreases a + b + c
  {
    if a == 0 && b == 0 && c == 0 {
    } else {
      XorAssocBits(a / 2, b / 2, c / 2);
      BitsHalf(XOR, a, b);
      BitsHalf(XOR, b, c);
      BitsHalf(XOR, Bits(XOR, a, b), c);
      BitsHalf(XOR, a, Bits(XOR, b, c));
    }
  }

  lemma {:induction false} XorCommBits(a: nat, b: nat)
    ensures Bits(XOR, a, b) == Bits(XOR, b, a)
    decreases a + b
  {
    if a == 0 && b == 0 {
    } else {
      XorCommBits(a / 2, b / 2);
    }
  }

  lemma {:induction false} XorZeroBits(a: nat)
    ensures Bits(XOR, a, 0) == a
    ensures Bits(XOR, a, a) == 0
  {
    if a == 0 {
    } else {
      XorZeroBits(a / 2);
    }
  }

  /** A value in the low m bits and a value above them combine by addition. */
  lemma {:induction false} XorDisjointBits(a: nat, y: nat, m: nat)
    requires a < Pow2(m)
    ensures Bits(XOR, a, Pow2(m) * y) == a + Pow2(m) * y
    decreases m
  {
    if m == 0 {
      XorCommBits(0, y);
      XorZeroBits(y);
    } else {
      var z := Pow2(m - 1) * y;
      assert Pow2(m) * y == 2 * z;
      XorDisjointBits(a / 2, y, m - 1);
      BitsHalf(XOR, a, 2 * z);
    }
  }

  lemma XorAssoc(a: Word, b: Word, c: Word)
    ensures Xor(Xor(a, b), c) == Xor(a, Xor(b, c))
  {
    XorAssocBits(a, b, c);
  }

  lemma XorComm(a: Word, b: Word)
    ensures Xor(a, b) == Xor(b, a)
  {
    XorCommBits(a, b);
  }

  lemma XorSelf(a: Word)
    ensures Xor(a, a) == 0 && Xor(a, 0) == a && Xor(0, a) == a
  {
    XorZeroBits(a);
    XorCommBits(0, a);
  }

  lemma XorCancel(a: Word, b: Word)
    ensures Xor(Xor(a, b), b) == a
  {
    XorAssoc(a, b, b);
    XorSelf(a);
    XorSelf(b);
  }

  lemma XorLowHigh(a: Word, y: Word)
    requires a < 0x100 && y < 0x100_0000
    ensures Xor(a, 0x100 * y) == a + 0x100 * y
  {
    Pow2Values();
    XorDisjointBits(a, y, 8);
  }

  lemma XorBitHigh(bit: Word, y: Word)
    requires bit < 2 && y < 0x8000_0000
    ensures Xor(bit, 2 * y) == bit + 2 * y
  {
    XorDisjointBits(bit, y, 1);
  }

  /** Exclusive or never carries between bits, so it halves and keeps parity. */
  lemma XorHalf(a: Word, b: Word)
    ensures Xor(a, b) / 2 == Xor(a / 2, b / 2)
    ensures Xor(a, b) % 2 == (if a % 2 == b % 2 then 0 else 1)
  {
    BitsHalf(XOR, a, b);
  }

  // ----- masks -----

  lemma {:induction false} AndOnes(a: nat, n: nat)
    requires a < Pow2(n)
    ensures Bits(AND, a, Pow2(n) - 1) == a
    decreases n
  {
    if n == 0 {
    } else {
      AndOnes(a / 2, n - 1);
      BitsHalf(AND, a, Pow2(n) - 1);
    }
  }

  lemma Twice(n: nat, x: nat)
    requires n > 0
    ensures Pow2(n) * x == 2 * (Pow2(n - 1) * x) && Pow2(n) == 2 * Pow2(n - 1)
  {}

  lemma {:induction false} AndZero(a: nat)
    ensures Bits(AND, a, 0) == 0
  {
    if a == 0 {
    } else {
      AndZero(a / 2);
    }
  }

  lemma {:induction false} OrZero(a: nat)
    ensures Bits(OR, a, 0) == a && Bits(OR, 0, a) == a
  {
    if a == 0 {
    } else {
      OrZero(a / 2);
    }
  }

  lemma AndHighStep(lo: nat, p: nat, q: nat, r: nat)
    requires Bits(AND, lo / 2 + p, q) == r
    ensures Bits(AND, lo + 2 * p, 2 * q) == 2 * r
  {
    hide Bits;
    BitsHalf(AND, lo + 2 * p, 2 * q);
  }

  /** A mask of high bits clears what lies below it. */
  lemma {:induction false} AndHigh(lo: nat, hi: nat, mask: nat, n: nat)
    requires lo < Pow2(n)
    ensures Bits(AND, lo + Pow2(n) * hi, Pow2(n) * mask) == Pow2(n) * Bits(AND, hi, mask)
    decreases n
  {
    hide Bits;
    if n == 0 {
      assert Pow2(0) == 1;
    } else {
      hide Pow2;
      Twice(n, hi);
      Twice(n, mask);
      Twice(n, Bits(AND, hi, mask));
      AndHigh(lo / 2, hi, mask, n - 1);
      AndHighStep(lo, Pow2(n - 1) * hi, Pow2(n - 1) * mask, Pow2(n - 1) * Bits(AND, hi, mask));
    }
  }

  lemma AndLowStep(lo: nat, p: nat, m: nat)
    requires m > 0 && Bits(AND, lo / 2 + p, m - 1) == lo / 2
    ensures Bits(AND, lo + 2 * p, 2 * m - 1) == lo
  {
    hide Bits;
    BitsHalf(AND, lo + 2 * p, 2 * m - 1);
  }

  /** A mask of low bits clears what lies above it. */
  lemma {:induction false} AndLow(lo: nat, hi: nat, n: nat)
    requires lo < Pow2(n)
    ensures Bits(AND, lo + Pow2(n) * hi, Pow2(n) - 1) == lo
    decreases n
  {
    hide Bits;
    if n == 0 {
      assert Pow2(0) == 1;
      AndZero(hi);
    } else {
      hide Pow2;
      Twice(n, hi);
      AndLow(lo / 2, hi, n - 1);
      AndLowStep(lo, Pow2(n - 1) * hi, Pow2(n - 1));
    }
  }

  lemma Recombine(z: nat, h: nat, b: nat)
    requires z / 2 == h && z % 2 == b
    ensures z == 2 * h + b
  {}

  lemma OrStep(lo: nat, p: nat)
    requires Bits(OR, p, lo / 2) == lo / 2 + p == Bits(OR, lo / 2, p)
    ensures Bits(OR, 2 * p, lo) == lo + 2 * p == Bits(OR, lo, 2 * p)
  {
    hide Bits;
    assert 2 * p / 2 == p && 2 * p % 2 == 0;
    BitsHalf(OR, 2 * p, lo);
    BitsHalf(OR, lo, 2 * p);
    Recombine(Bits(OR, 2 * p, lo), lo / 2 + p, lo % 2);
    Recombine(Bits(OR, lo, 2 * p), lo / 2 + p, lo % 2);
  }

  lemma {:induction false} OrDisjoint(lo: nat, hi: nat, n: nat)
    requires lo < Pow2(n)
    ensures Bits(OR, Pow2(n) * hi, lo) == lo + Pow2(n) * hi == Bits(OR, lo, Pow2(n) * hi)
    decreases n
  {
    hide Bits;
    if n == 0 {
      assert Pow2(0) == 1;
      OrZero(hi);
    } else {
      hide Pow2;
      Twice(n, hi);
      OrDisjoint(lo / 2, hi, n - 1);
      OrStep(lo, Pow2(n - 1) * hi);
    }
  }

  lemma Parts(a: nat, p: nat)
    requires p > 0
    ensures a == a % p + p * (a / p)
  {}

  lemma Divided(a: nat, p: nat, q: nat)
    requires p > 0 && a < p * q
    ensures a == a % p + p * (a / p) && a / p < q
  {
    assert p * (a / p) < p * q;
  }

  /** (a & ~low) | x, with x in the low n bits and ~low the m bits above: a with its low bits replaced. */
  lemma KeepHigh(a: Word, x: Word, n: nat, m: nat)
    requires Pow2(n) * Pow2(m) == M32 && x < Pow2(n)
    ensures 0 <= Pow2(n) * (Pow2(m) - 1) < M32
    ensures Or(And(a, Pow2(n) * (Pow2(m) - 1)), x) == Pow2(n) * (a / Pow2(n)) + x
  {
    hide Pow2, Bits;
    var lo, hi := a % Pow2(n), a / Pow2(n);
    Divided(a, Pow2(n), Pow2(m));
    AndHigh(lo, hi, Pow2(m) - 1, n);
    AndOnes(hi, m);
    OrDisjoint(x, hi, n);
  }

  /** A mask of the low n bits takes the remainder. */
  lemma LowMask(a: Word, n: nat)
    requires Pow2(n) <= M32
    ensures And(a, Pow2(n) - 1) == a % Pow2(n)
  {
    hide Pow2, Bits;
    Parts(a, Pow2(n));
    AndLow(a % Pow2(n), a / Pow2(n), n);
  }

  /** (a & low) | high, with nothing of high in the low n bits. */
  lemma KeepLow(a: Word, y: nat, n: nat, high: Word)
    requires Pow2(n) <= M32 && high == Pow2(n) * y
    ensures Or(And(a, Pow2(n) - 1), high) == a % Pow2(n) + high
  {
    hide Pow2, Bits, And;
    LowMask(a, n);
    OrDisjoint(a % Pow2(n), y, n);
  }
}
