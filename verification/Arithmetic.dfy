/**
 * instructions.h: what the arithmetic, logic, shift, load and store bodies compute, said
 * without their formulas: bit by bit, by inverses, and by the products they stand for.
 */
module Arithmetic {
  import opened Words
  import opened Machines
  import opened Instructions

  // ----- bits -----

  function Bit(v: nat, i: nat): (b: nat)
    ensures b < 2
  {
    if i == 0 then v % 2 else Bit(v / 2, i - 1)
  }

  lemma {:induction false} LogicAt(op: Logic, a: nat, b: nat, i: nat)
    ensures Bit(Bits(op, a, b), i) == LogicBit(op, Bit(a, i), Bit(b, i))
    decreases i
  {
    BitsHalf(op, a, b);
    if i == 0 {
    } else {
      LogicAt(op, a / 2, b / 2, i - 1);
    }
  }

  lemma HalfComplement(a: nat, p: nat)
    requires a < 2 * p
    ensures (2 * p - 1 - a) / 2 == p - 1 - a / 2 && (2 * p - 1 - a) % 2 == 1 - a % 2
  {}

  lemma {:induction false} ComplementAt(a: nat, n: nat, i: nat)
    requires a < Pow2(n) && i < n
    ensures Bit(Pow2(n) - 1 - a, i) == 1 - Bit(a, i)
    decreases i
  {
    hide Pow2;
    Twice(n, 0);
    HalfComplement(a, Pow2(n - 1));
    if i == 0 {
    } else {
      ComplementAt(a / 2, n - 1, i - 1);
    }
  }

  lemma AndAt(a: Word, b: Word, i: nat)
    ensures Bit(And(a, b), i) == if Bit(a, i) == 1 && Bit(b, i) == 1 then 1 else 0
  {
    hide Bit, Bits, Pow2;
    LogicAt(AND, a, b, i);
  }

  lemma OrAt(a: Word, b: Word, i: nat)
    ensures Bit(Or(a, b), i) == if Bit(a, i) == 1 || Bit(b, i) == 1 then 1 else 0
  {
    hide Bit, Bits, Pow2;
    LogicAt(OR, a, b, i);
  }

  lemma XorAt(a: Word, b: Word, i: nat)
    ensures Bit(Xor(a, b), i) == if Bit(a, i) != Bit(b, i) then 1 else 0
  {
    hide Bit, Bits, Pow2;
    LogicAt(XOR, a, b, i);
  }

  lemma NotAt(a: Word, i: nat)
    requires i < 32
    ensures Bit(Not(a), i) == 1 - Bit(a, i)
  {
    hide Bit, Pow2;
    Pow2Values();
    ComplementAt(a, 32, i);
  }

  lemma LogicResults(a: Word, b: Word)
    ensures AluReg(LAND, a, b) == Some(And(a, b)) && AluReg(LOR, a, b) == Some(Or(a, b))
    ensures AluReg(LXOR, a, b) == Some(Xor(a, b)) && AluReg(LNOR, a, b) == Some(Not(Or(a, b)))
  {
    hide And, Or, Xor, Not;
  }

  /** and, or, xor and nor work on each bit alone. */
  lemma LogicBodies(a: Word, b: Word, i: nat)
    requires i < 32
    ensures Bit(AluReg(LAND, a, b).value, i) == if Bit(a, i) == 1 && Bit(b, i) == 1 then 1 else 0
    ensures Bit(AluReg(LOR, a, b).value, i) == if Bit(a, i) == 1 || Bit(b, i) == 1 then 1 else 0
    ensures Bit(AluReg(LXOR, a, b).value, i) == if Bit(a, i) != Bit(b, i) then 1 else 0
    ensures Bit(AluReg(LNOR, a, b).value, i) == if Bit(a, i) == 0 && Bit(b, i) == 0 then 1 else 0
  {
    hide *;
    LogicResults(a, b);
    AndAt(a, b, i);
    OrAt(a, b, i);
    XorAt(a, b, i);
    NotAt(Or(a, b), i);
  }

  lemma Multiples(d: int, k: int)
    requires d > 0
    ensures k >= 1 ==> d * k >= d && d * k >= k
    ensures k <= -1 ==> d * k <= -d && d * k <= k
  {
    if k >= 1 {
      assert d * k - d == d * (k - 1);
      assert d * k - k == (d - 1) * k;
    } else if k <= -1 {
      assert d * k + d == d * (k + 1);
      assert d * k - k == (d - 1) * k;
    }
  }

  lemma Distribute(d: int, q: int, k: int)
    ensures d * (q - k) == d * q - d * k
  {}

  lemma Quotient(x: nat, d: nat, q: nat, r: nat)
    requires d > 0 && x == r + d * q && r < d
    ensures x / d == q && x % d == r
  {
    Parts(x, d);
    Distribute(d, q, x / d);
    Multiples(d, q - x / d);
  }

  lemma HalfRemainder(x: nat, n: nat)
    requires n > 0
    ensures x % Pow2(n) / 2 == (x / 2) % Pow2(n - 1) && x % Pow2(n) % 2 == x % 2
    ensures x / Pow2(n) == (x / 2) / Pow2(n - 1)
  {
    var p, h := Pow2(n - 1), x / 2;
    Parts(h, p);
    var r := 2 * (h % p) + x % 2;
    assert x == r + (2 * p) * (h / p) by { assert (2 * p) * (h / p) == 2 * (p * (h / p)); }
    assert Pow2(n) == 2 * p;
    Quotient(x, 2 * p, h / p, r);
  }

  lemma {:induction false} LowBitsAt(x: nat, n: nat, i: nat)
    requires i < n
    ensures Bit(x % Pow2(n), i) == Bit(x, i)
    decreases i
  {
    HalfRemainder(x, n);
    if i == 0 {
    } else {
      LowBitsAt(x / 2, n - 1, i - 1);
    }
  }

  /** A value doubled and cut to 32 bits moves up by one bit. */
  lemma DoubleAt(x: Word, i: nat)
    requires i < 32
    ensures Bit(Wrap(2 * x), i) == if i == 0 then 0 else Bit(x, i - 1)
  {
    if i > 0 {
      Pow2Values();
      assert Wrap(2 * x) / 2 == x % 0x8000_0000;
      LowBitsAt(x, 31, i - 1);
    }
  }

  lemma WrapTwice(x: int)
    ensures Wrap(2 * Wrap(x)) == Wrap(2 * x)
  {
    assert 2 * x == 2 * Wrap(x) + M32 * (2 * (x / M32));
  }

  lemma LeftStep(v: Word, s: nat)
    requires s > 0
    ensures Shift(SLL, v, s) == Wrap(2 * Shift(SLL, v, s - 1))
    ensures Shift(SLL, v, 0) == v
  {
    var x := v * Pow2(s - 1);
    assert v * Pow2(s) == 2 * x;
    WrapTwice(x);
    assert Pow2(0) == 1;
  }

  /** sll moves bits up and brings in zeros. */
  lemma {:induction false} ShiftLeftAt(v: Word, s: nat, i: nat)
    requires s < 32 && i < 32
    ensures Bit(Shift(SLL, v, s), i) == if i < s then 0 else Bit(v, i - s)
    decreases s
  {
    hide Bit, Shift, Wrap;
    LeftStep(v, if s > 0 then s else 1);
    if s == 0 {
    } else {
      DoubleAt(Shift(SLL, v, s - 1), i);
      if i > 0 {
        ShiftLeftAt(v, s - 1, i - 1);
      }
    }
  }

  lemma RightStep(v: Word, s: nat)
    requires s > 0
    ensures Shift(SRL, v, s) == Shift(SRL, v / 2, s - 1)
    ensures Shift(SRL, v, 0) == v
  {
    HalfRemainder(v, s);
    assert Pow2(0) == 1;
  }

  /** srl moves bits down and brings in zeros. */
  lemma {:induction false} ShiftRightAt(v: Word, s: nat, i: nat)
    requires s < 32
    ensures Bit(Shift(SRL, v, s), i) == Bit(v, i + s)
    decreases s
  {
    hide Shift;
    RightStep(v, if s > 0 then s else 1);
    if s == 0 {
    } else {
      ShiftRightAt(v / 2, s - 1, i);
    }
  }

  lemma QuotientBound(x: int, p: int, q: int, r: int)
    requires p >= 1 && x == p * q + r && 0 <= r < p
    ensures x >= 0 ==> 0 <= q <= x
    ensures x < 0 ==> x <= q < 0
  {
    Multiples(p, q);
    Multiples(p, q + 1);
    assert p * (q + 1) == p * q + p;
  }

  lemma Shrinks(x: int, p: int)
    requires p >= 1
    ensures x >= 0 ==> 0 <= x / p <= x
    ensures x < 0 ==> x <= x / p < 0
  {
    QuotientBound(x, p, x / p, x % p);
  }

  /** sra divides the signed value, rounding down. */
  lemma ShiftArithmetic(v: Word, s: nat)
    requires s < 32
    ensures Signed(Shift(SRA, v, s)) == Signed(v) / Pow2(s)
  {
    var p, q := Pow2(s), Signed(v) / Pow2(s);
    assert -0x8000_0000 <= q < 0x8000_0000 by { Shrinks(Signed(v), p); }
  }

  // ----- sums, products and quotients -----

  /** addu is signed addition exactly when the sum is a signed 32-bit value; subu undoes it always. */
  lemma AddMeaning(a: Word, b: Word)
    ensures var sum := AluReg(ADDU, a, b).value;
            && AluReg(SUBU, sum, b) == Some(a)
            && (Signed(sum) == Signed(a) + Signed(b) <==> -0x8000_0000 <= Signed(a) + Signed(b) < 0x8000_0000)
  {}

  lemma ProductBound(x: int, y: int, m: int)
    requires -m <= x <= m && -m <= y <= m
    ensures -(m * m) <= x * y <= m * m
  {
    assert (m - x) * (m + y) >= 0 && (m + x) * (m - y) >= 0;
    assert (m - x) * (m - y) >= 0 && (m + x) * (m + y) >= 0;
  }

  lemma Halves(p: int)
    requires -0x4000_0000_0000_0000 <= p <= 0x4000_0000_0000_0000
    ensures Signed(Wrap(p / M32)) * M32 + Wrap(p) == p
  {}

  /** hi and lo together are the signed 64-bit product. */
  lemma MultMeaning(a: Word, b: Word)
    ensures var p := MultDiv(MULT, a, b); Signed(p.hi) * M32 + p.lo == Signed(a) * Signed(b)
  {
    ProductBound(Signed(a), Signed(b), 0x8000_0000);
    Halves(Signed(a) * Signed(b));
  }

  lemma UnsignedHalves(p: nat)
    requires p < M32 * M32
    ensures Wrap(p / M32) * M32 + Wrap(p) == p
  {}

  /** hi and lo together are the unsigned 64-bit product. */
  lemma MultuMeaning(a: Word, b: Word)
    ensures var p := MultDiv(MULTU, a, b); p.hi * M32 + p.lo == a * b
  {
    hide Wrap;
    Multiples(if a > 0 then a else 1, b);
    ProductBound(a, b, 0xFFFF_FFFF);
    UnsignedHalves(a * b);
  }

  lemma SmallWrap(x: Word)
    ensures Wrap(x) == x
  {}

  /** lo is the unsigned quotient and hi the remainder; for div except on the input that overflows. */
  lemma DivMeaning(op: Op, a: Word, b: Word)
    requires op == DIVU || (op == DIV && !(a == 0x8000_0000 && b == 0xFFFF_FFFF))
    ensures var p := MultDiv(op, a, b); b != 0 ==> p.lo * b + p.hi == a && p.hi < b
    ensures var p := MultDiv(op, a, b); b == 0 ==>
              p.hi == a && p.lo == (if op == DIVU || Signed(a) > 0 then 0xFFFF_FFFF else 1)
  {
    if b != 0 {
      Parts(a, b);
      Shrinks(a, b);
      SmallWrap(a / b);
      SmallWrap(a % b);
      hide Wrap;
      assert (a / b) * b == b * (a / b);
    }
  }

  /** The input whose signed quotient is no signed 32-bit value. */
  lemma DivOverflow()
    ensures MultDiv(DIV, 0x8000_0000, 0xFFFF_FFFF) == HiLo(0, 0x8000_0000)
  {}

  function Abs(x: int): nat { if x >= 0 then x else -x }

  /** The signed quotient, rounded towards zero, that the instruction is named for. */
  function Truncated(a: int, b: int): int
    requires b != 0
  {
    if (a >= 0) == (b > 0) then Abs(a) / Abs(b) else -(Abs(a) / Abs(b))
  }

  /** HI and LO hold the signed quotient and remainder. */
  predicate SignedQuotient(p: HiLo, a: Word, b: Word)
    requires b != 0
  {
    var q := Truncated(Signed(a), Signed(b));
    p.lo == Wrap(q) && p.hi == Wrap(Signed(a) - Signed(b) * q)
  }

  lemma QuotientSize(x: nat, y: nat)
    requires y > 0
    ensures x < y ==> x / y == 0 && x % y == x
    ensures x >= y ==> x / y >= 1
    ensures y >= 2 ==> 2 * (x / y) <= x
    ensures y <= x < 2 * y ==> x / y == 1 && x % y == x - y
  {
    var q := x / y;
    Parts(x, y);
    Multiples(y, q);
    if y >= 2 {
      assert y * q == 2 * q + (y - 2) * q;
      Shrinks(x, y);
      assert (y - 2) * q >= 0 by { if y > 2 { Multiples(y - 2, q); } }
    }
    if y <= x < 2 * y {
      Multiples(y, q - 1);
      assert y * (q - 1) == y * q - y;
    }
  }

  lemma BothPositive(a: Word, b: Word)
    requires 0 < b < 0x8000_0000 && a < 0x8000_0000
    ensures SignedQuotient(MultDiv(DIV, a, b), a, b)
  {
    hide Wrap;
    Parts(a, b);
    assert a - b * (a / b) == a % b;
  }

  lemma ByOne(a: Word)
    ensures SignedQuotient(MultDiv(DIV, a, 1), a, 1)
  {
    assert Abs(Signed(a)) / 1 == Abs(Signed(a)) && a / 1 == a && a % 1 == 0;
  }

  /** The unsigned quotient is between 1 and 2^31, the signed one is 0 or above 2^31 modulo 2^32. */
  lemma NegativeByMore(a: Word, b: Word)
    requires 2 <= b < 0x8000_0000 <= a
    ensures MultDiv(DIV, a, b).lo != Wrap(Truncated(Signed(a), Signed(b)))
  {
    var x := (M32 - a) / b;
    QuotientSize(a, b);
    QuotientSize(M32 - a, b);
    Shrinks(M32 - a, b);
    SmallWrap(a / b);
    assert Truncated(Signed(a), Signed(b)) == -x;
    assert Wrap(-x) == if x == 0 then 0 else M32 - x;
  }

  lemma NegativeByPositive(a: Word, b: Word)
    requires 0 < b < 0x8000_0000 <= a
    ensures SignedQuotient(MultDiv(DIV, a, b), a, b) <==> b == 1
  {
    hide MultDiv, Truncated, Wrap;
    if b == 1 {
      ByOne(a);
    } else {
      NegativeByMore(a, b);
    }
  }

  lemma QuotientZero(p: HiLo, a: Word, b: Word)
    requires b != 0 && Truncated(Signed(a), Signed(b)) == 0 && p == HiLo(a, 0)
    ensures SignedQuotient(p, a, b)
  {
    hide Truncated;
  }

  lemma LowDiffers(p: HiLo, a: Word, b: Word)
    requires b != 0 && p.lo != Wrap(Truncated(Signed(a), Signed(b)))
    ensures !SignedQuotient(p, a, b)
  {}

  lemma OppositeSigns(a: Word, b: Word)
    requires a < 0x8000_0000 <= b
    ensures MultDiv(DIV, a, b) == HiLo(a, 0)
    ensures var x := a / (M32 - b); Truncated(Signed(a), Signed(b)) == -x && x <= a && (x == 0 <==> a < M32 - b)
  {
    QuotientSize(a, b);
    QuotientSize(a, M32 - b);
    Shrinks(a, M32 - b);
  }

  lemma PositiveByNegative(a: Word, b: Word)
    requires a < 0x8000_0000 <= b
    ensures SignedQuotient(MultDiv(DIV, a, b), a, b) <==> a < M32 - b
  {
    hide SignedQuotient, MultDiv, Truncated;
    OppositeSigns(a, b);
    if a < M32 - b {
      QuotientZero(MultDiv(DIV, a, b), a, b);
    } else {
      LowDiffers(MultDiv(DIV, a, b), a, b);
    }
  }

  lemma ByItself(a: Word)
    requires 0x8000_0000 <= a
    ensures SignedQuotient(MultDiv(DIV, a, a), a, a)
  {
    QuotientSize(a, a);
    QuotientSize(M32 - a, M32 - a);
  }

  lemma NegativeQuotients(a: Word, b: Word)
    requires 0x8000_0000 <= a && 0x8000_0000 <= b && a != b && !(a == 0x8000_0000 && b == 0xFFFF_FFFF)
    ensures MultDiv(DIV, a, b).lo == if a > b then 1 else 0
    ensures var x := (M32 - a) / (M32 - b); Truncated(Signed(a), Signed(b)) == x && x < M32 && (x == 0 <==> a > b)
  {
    QuotientSize(a, b);
    QuotientSize(M32 - a, M32 - b);
    Shrinks(M32 - a, M32 - b);
  }

  /** The unsigned quotient is 0 or 1, and the signed one is the other, or larger. */
  lemma NegativeByNegative(a: Word, b: Word)
    requires 0x8000_0000 <= a && 0x8000_0000 <= b && a != b && !(a == 0x8000_0000 && b == 0xFFFF_FFFF)
    ensures MultDiv(DIV, a, b).lo != Wrap(Truncated(Signed(a), Signed(b)))
  {
    hide MultDiv, Truncated;
    NegativeQuotients(a, b);
  }

  lemma BothNegative(a: Word, b: Word)
    requires 0x8000_0000 <= a && 0x8000_0000 <= b && !(a == 0x8000_0000 && b == 0xFFFF_FFFF)
    ensures SignedQuotient(MultDiv(DIV, a, b), a, b) <==> a == b
  {
    hide SignedQuotient, MultDiv, Truncated;
    if a == b {
      ByItself(a);
    } else {
      NegativeByNegative(a, b);
      LowDiffers(MultDiv(DIV, a, b), a, b);
    }
  }

  lemma OverflowSigned()
    ensures SignedQuotient(MultDiv(DIV, 0x8000_0000, 0xFFFF_FFFF), 0x8000_0000, 0xFFFF_FFFF)
  {}

  /**
   * div is an unsigned division outside its special inputs. It leaves the signed quotient and
   * remainder exactly when neither operand is negative, when the operands are equal, when the
   * divisor is 1, when a negative divisor is the larger in size, and on the overflow input.
   */
  lemma DivIsSigned(a: Word, b: Word)
    requires b != 0
    ensures SignedQuotient(MultDiv(DIV, a, b), a, b) <==>
              || (a < 0x8000_0000 && b < 0x8000_0000) || a == b || b == 1
              || (a < 0x8000_0000 <= b && a < M32 - b) || (a == 0x8000_0000 && b == 0xFFFF_FFFF)
  {
    hide SignedQuotient, MultDiv;
    if a < 0x8000_0000 && b < 0x8000_0000 {
      BothPositive(a, b);
    } else if b < 0x8000_0000 {
      NegativeByPositive(a, b);
    } else if a < 0x8000_0000 {
      PositiveByNegative(a, b);
    } else if a == 0x8000_0000 && b == 0xFFFF_FFFF {
      OverflowSigned();
    } else {
      BothNegative(a, b);
    }
  }

  // ----- conditions -----

  /** The conditional branches come in complementary pairs. */
  lemma BranchPairs(a: Word, b: Word)
    ensures Taken(BGEZ, a, b) == Taken(BGEZAL, a, b) == !Taken(BLTZ, a, b)
    ensures Taken(BLTZAL, a, b) == Taken(BLTZ, a, b)
    ensures Taken(BGTZ, a, b) == !Taken(BLEZ, a, b)
    ensures Taken(BNE, a, b) == !Taken(BEQ, a, b)
    ensures Taken(BLEZ, a, b) == (Taken(BLTZ, a, b) || Taken(BEQ, a, 0))
  {}

  // ----- stores and loads -----

  lemma WordBytes(v: Word)
    ensures LittleEndian(v % 0x100, v / 0x100 % 0x100, v / 0x1_0000 % 0x100, v / 0x100_0000) == v
    ensures LittleEndian(v % 0x100, v / 0x100 % 0x100, 0, 0) == v % 0x1_0000
  {
    var x := v / 0x100;
    var y := x / 0x100;
    assert v == v % 0x100 + 0x100 * (x % 0x100 + 0x100 * (y % 0x100 + 0x100 * (y / 0x100)));
    assert y == v / 0x1_0000 && y / 0x100 == v / 0x100_0000;
    assert v % 0x1_0000 == v % 0x100 + 0x100 * (x % 0x100);
  }

  /** A stored word is read back whole, lies lowest byte first, and touches no other byte. */
  lemma StoreWord(mem: Mem, a: Word, v: Word, prev: Word)
    requires Raw(mem, a, 4)
    ensures Store(SW, mem, a, v).Some?
    ensures var m := Store(SW, mem, a, v).value;
            && Load(LW, m, a, prev) == Some(v)
            && Load(LBU, m, a, prev) == Some(v % 0x100) && Load(LBU, m, a + 3, prev) == Some(v / 0x100_0000)
            && (forall b | b in mem && !(a <= b < a + 4) :: m[b] == mem[b])
  {
    hide LittleEndian;
    WordBytes(v);
  }

  /** A stored half is read back with either extension. */
  lemma StoreHalf(mem: Mem, a: Word, v: Word, prev: Word)
    requires Raw(mem, a, 2)
    ensures Store(SH, mem, a, v).Some?
    ensures var m := Store(SH, mem, a, v).value;
            && Load(LHU, m, a, prev) == Some(v % 0x1_0000)
            && Load(LH, m, a, prev) == Some(Wrap(SignExtend16(v % 0x1_0000)))
            && (forall b | b in mem && !(a <= b < a + 2) :: m[b] == mem[b])
  {
    hide LittleEndian, SignExtend16, Wrap;
    WordBytes(v);
  }

  /** A stored byte is read back with either extension. */
  lemma StoreByte(mem: Mem, a: Word, v: Word, prev: Word)
    requires a in mem
    ensures Store(SB, mem, a, v).Some?
    ensures var m := Store(SB, mem, a, v).value;
            && Load(LBU, m, a, prev) == Some(v % 0x100)
            && Load(LB, m, a, prev) == Some(Wrap(SignExtend8(v % 0x100)))
            && (forall b | b in mem && b != a :: m[b] == mem[b])
  {}
}
