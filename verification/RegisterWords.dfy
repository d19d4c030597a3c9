/**
 * instructions.h, the words that work on registers alone: what each leaves in which register,
 * said of the numbers in its fields and without the bodies.
 */
module RegisterWords {
  import opened Words
  import opened Machines
  import opened Instructions
  import opened Switch
  import opened Arithmetic
  import opened Encoding

  // ----- sums and comparisons -----

  /** add and addu: rd becomes rs + rt; add leaves the machine alone when the sum is no u32. */
  lemma AddWords(h: Host, rs: nat, rt: nat, rd: nat, sh: nat, m: Machine)
    requires Fields(rs, rt, rd, sh)
    ensures var a: int, b: int := m.r[rs], m.r[rt];
            && (a + b < 0x1_0000_0000 ==> Sets(m, ExecWord(h, RWord(rs, rt, rd, sh, 0x20), m), rd, a + b))
            && (a + b >= 0x1_0000_0000 ==> ExecWord(h, RWord(rs, rt, rd, sh, 0x20), m) == Some(m))
            && Sets(m, ExecWord(h, RWord(rs, rt, rd, sh, 0x21), m), rd, (a + b) % 0x1_0000_0000)
  {
    hide ExecWord, RWord, Sets, Secondary, TypeOf;
    SumCodes();
    RAlu(h, rs, rt, rd, sh, 0x20, ADD, m);
    RAlu(h, rs, rt, rd, sh, 0x21, ADDU, m);
  }

  /** sub and subu: rd becomes rs - rt; sub leaves the machine alone below -2^31. */
  lemma SubWords(h: Host, rs: nat, rt: nat, rd: nat, sh: nat, m: Machine)
    requires Fields(rs, rt, rd, sh)
    ensures var a: int, b: int := m.r[rs], m.r[rt];
            && (a - b >= -0x8000_0000 ==>
                  Sets(m, ExecWord(h, RWord(rs, rt, rd, sh, 0x22), m), rd, (a - b) % 0x1_0000_0000))
            && (a - b < -0x8000_0000 ==> ExecWord(h, RWord(rs, rt, rd, sh, 0x22), m) == Some(m))
            && Sets(m, ExecWord(h, RWord(rs, rt, rd, sh, 0x23), m), rd, (a - b) % 0x1_0000_0000)
  {
    hide ExecWord, RWord, Sets, Secondary, TypeOf;
    SumCodes();
    RAlu(h, rs, rt, rd, sh, 0x22, SUB, m);
    RAlu(h, rs, rt, rd, sh, 0x23, SUBU, m);
  }

  /** slt and sltu: rd tells whether rs is below rt, as signed and as unsigned numbers. */
  lemma CompareWords(h: Host, rs: nat, rt: nat, rd: nat, sh: nat, m: Machine)
    requires Fields(rs, rt, rd, sh)
    ensures Sets(m, ExecWord(h, RWord(rs, rt, rd, sh, 0x2A), m), rd, if Signed(m.r[rs]) < Signed(m.r[rt]) then 1 else 0)
    ensures Sets(m, ExecWord(h, RWord(rs, rt, rd, sh, 0x2B), m), rd, if m.r[rs] < m.r[rt] then 1 else 0)
  {
    hide ExecWord, RWord, Sets, Signed, Secondary, TypeOf;
    CompareCodes();
    RAlu(h, rs, rt, rd, sh, 0x2A, SLT, m);
    RAlu(h, rs, rt, rd, sh, 0x2B, SLTU, m);
  }

  /** Bit i of register d of r. */
  function BitOf(r: Option<Machine>, d: nat, i: nat): nat
    requires r.Some? && d < 39
  {
    Bit(r.value.r[d], i)
  }

  /** and, or, xor, nor: each bit of rd from the bits of rs and rt at its place. */
  lemma LogicWords(h: Host, rs: nat, rt: nat, rd: nat, sh: nat, m: Machine, i: nat)
    requires Fields(rs, rt, rd, sh) && i < 32
    ensures var a, b := Bit(m.r[rs], i), Bit(m.r[rt], i);
            var x, y := ExecWord(h, RWord(rs, rt, rd, sh, 0x24), m), ExecWord(h, RWord(rs, rt, rd, sh, 0x25), m);
            && Changes(m, x, rd) && BitOf(x, rd, i) == (if a == 1 && b == 1 then 1 else 0)
            && Changes(m, y, rd) && BitOf(y, rd, i) == (if a == 1 || b == 1 then 1 else 0)
    ensures var a, b := Bit(m.r[rs], i), Bit(m.r[rt], i);
            var x, y := ExecWord(h, RWord(rs, rt, rd, sh, 0x26), m), ExecWord(h, RWord(rs, rt, rd, sh, 0x27), m);
            && Changes(m, x, rd) && BitOf(x, rd, i) == (if a != b then 1 else 0)
            && Changes(m, y, rd) && BitOf(y, rd, i) == (if a == 0 && b == 0 then 1 else 0)
  {
    hide ExecWord, RWord, Bit, And, Or, Xor, Not, AluReg, Secondary, TypeOf;
    LogicCodes();
    LogicResults(m.r[rs], m.r[rt]);
    RAlu(h, rs, rt, rd, sh, 0x24, LAND, m);
    RAlu(h, rs, rt, rd, sh, 0x25, LOR, m);
    RAlu(h, rs, rt, rd, sh, 0x26, LXOR, m);
    RAlu(h, rs, rt, rd, sh, 0x27, LNOR, m);
    LogicBodies(m.r[rs], m.r[rt], i);
  }

  // ----- shifts -----

  /** sll and sllv: the bits of rt, moved up by the shift field or by the low five bits of rs. */
  lemma LeftWords(h: Host, rs: nat, rt: nat, rd: nat, sh: nat, m: Machine, i: nat)
    requires Fields(rs, rt, rd, sh) && i < 32
    ensures var x := ExecWord(h, RWord(rs, rt, rd, sh, 0), m);
            Changes(m, x, rd) && BitOf(x, rd, i) == if i < sh then 0 else Bit(m.r[rt], i - sh)
    ensures var x, s := ExecWord(h, RWord(rs, rt, rd, sh, 4), m), m.r[rs] % 32;
            Changes(m, x, rd) && BitOf(x, rd, i) == if i < s then 0 else Bit(m.r[rt], i - s)
  {
    hide ExecWord, RWord, Bit, Secondary, TypeOf;
    ShiftCodes();
    VariableCodes();
    RShift(h, rs, rt, rd, sh, 0, SLL, m);
    RShift(h, rs, rt, rd, sh, 4, SLLV, m);
    ShiftLeftAt(m.r[rt], sh, i);
    ShiftLeftAt(m.r[rt], m.r[rs] % 32, i);
  }

  /** srl and srlv: the bits of rt, moved down. */
  lemma RightWords(h: Host, rs: nat, rt: nat, rd: nat, sh: nat, m: Machine, i: nat)
    requires Fields(rs, rt, rd, sh)
    ensures var x := ExecWord(h, RWord(rs, rt, rd, sh, 2), m);
            Changes(m, x, rd) && BitOf(x, rd, i) == Bit(m.r[rt], i + sh)
    ensures var x := ExecWord(h, RWord(rs, rt, rd, sh, 6), m);
            Changes(m, x, rd) && BitOf(x, rd, i) == Bit(m.r[rt], i + m.r[rs] % 32)
  {
    hide ExecWord, RWord, Bit, Secondary, TypeOf;
    ShiftCodes();
    VariableCodes();
    RShift(h, rs, rt, rd, sh, 2, SRL, m);
    RShift(h, rs, rt, rd, sh, 6, SRLV, m);
    ShiftRightAt(m.r[rt], sh, i);
    ShiftRightAt(m.r[rt], m.r[rs] % 32, i);
  }

  /** sra and srav: the signed number in rt, divided by a power of two and rounded down. */
  lemma SignedRightWords(h: Host, rs: nat, rt: nat, rd: nat, sh: nat, m: Machine)
    requires Fields(rs, rt, rd, sh)
    ensures var x := ExecWord(h, RWord(rs, rt, rd, sh, 3), m);
            Changes(m, x, rd) && Signed(x.value.r[rd]) == Signed(m.r[rt]) / Pow2(sh)
    ensures var x := ExecWord(h, RWord(rs, rt, rd, sh, 7), m);
            Changes(m, x, rd) && Signed(x.value.r[rd]) == Signed(m.r[rt]) / Pow2(m.r[rs] % 32)
  {
    hide ExecWord, RWord, Secondary, Signed, Pow2, TypeOf;
    ShiftCodes();
    VariableCodes();
    RShift(h, rs, rt, rd, sh, 3, SRA, m);
    RShift(h, rs, rt, rd, sh, 7, SRAV, m);
    ShiftArithmetic(m.r[rt], sh);
    ShiftArithmetic(m.r[rt], m.r[rs] % 32);
  }

  // ----- products and quotients -----

  /** r is m with something in HI and LO. */
  predicate ChangesHiLo(m: Machine, r: Option<Machine>) {
    r.Some? && r.value == m.(r := m.r[32 := r.value.r[32]][33 := r.value.r[33]])
  }

  lemma RMultDiv(h: Host, rs: nat, rt: nat, rd: nat, sh: nat, fn: nat, op: Op, m: Machine)
    requires Fields(rs, rt, rd, sh) && fn < 64 && Secondary(fn) == Some(op) && TypeOf(op) == MULT_DIV
    ensures var r, p := ExecWord(h, RWord(rs, rt, rd, sh, fn), m), MultDiv(op, m.r[rs], m.r[rt]);
            ChangesHiLo(m, r) && r.value.r[32] == p.hi && r.value.r[33] == p.lo
  {
    hide Exec, ExecWord, RWord, Rs, Rt, Rd, Sh, MultDiv, Secondary;
    RExec(h, rs, rt, rd, sh, fn, m);
    AluExec(h, op, RWord(rs, rt, rd, sh, fn), m);
  }

  predicate Product(hi: int, lo: int, a: int, b: int) {
    hi * 0x1_0000_0000 + lo == a * b
  }

  /** mult and multu: HI and LO are the upper and lower half of the product. */
  lemma MultiplyWords(h: Host, rs: nat, rt: nat, rd: nat, sh: nat, m: Machine)
    requires Fields(rs, rt, rd, sh)
    ensures var x := ExecWord(h, RWord(rs, rt, rd, sh, 0x18), m);
            ChangesHiLo(m, x) && Product(Signed(x.value.r[32]), x.value.r[33], Signed(m.r[rs]), Signed(m.r[rt]))
    ensures var x := ExecWord(h, RWord(rs, rt, rd, sh, 0x19), m);
            ChangesHiLo(m, x) && Product(x.value.r[32], x.value.r[33], m.r[rs], m.r[rt])
  {
    hide ExecWord, RWord, Secondary, Signed, MultDiv, TypeOf;
    ProductCodes();
    RMultDiv(h, rs, rt, rd, sh, 0x18, MULT, m);
    RMultDiv(h, rs, rt, rd, sh, 0x19, MULTU, m);
    MultMeaning(m.r[rs], m.r[rt]);
    MultuMeaning(m.r[rs], m.r[rt]);
  }

  /** LO and HI are the unsigned quotient and remainder of a by b. */
  predicate Quotients(x: Machine, a: int, b: int) {
    x.r[33] * b + x.r[32] == a && x.r[32] < b
  }

  /** div and divu divide rs by rt, unsigned; div by zero leaves rs in HI. */
  lemma DivideWords(h: Host, rs: nat, rt: nat, rd: nat, sh: nat, m: Machine)
    requires Fields(rs, rt, rd, sh)
    ensures var a, b, x := m.r[rs], m.r[rt], ExecWord(h, RWord(rs, rt, rd, sh, 0x1A), m);
            && ChangesHiLo(m, x)
            && (b != 0 && !(a == 0x8000_0000 && b == 0xFFFF_FFFF) ==> Quotients(x.value, a, b))
            && (a == 0x8000_0000 && b == 0xFFFF_FFFF ==> x.value.r[32] == 0 && x.value.r[33] == a)
            && (b == 0 ==> x.value.r[32] == a && x.value.r[33] == if Signed(a) > 0 then 0xFFFF_FFFF else 1)
    ensures var a, b, x := m.r[rs], m.r[rt], ExecWord(h, RWord(rs, rt, rd, sh, 0x1B), m);
            && ChangesHiLo(m, x)
            && (b != 0 ==> Quotients(x.value, a, b))
            && (b == 0 ==> x.value.r[32] == a && x.value.r[33] == 0xFFFF_FFFF)
  {
    hide ExecWord, RWord, Secondary, Signed, MultDiv, Wrap, TypeOf;
    ProductCodes();
    var a, b := m.r[rs], m.r[rt];
    RMultDiv(h, rs, rt, rd, sh, 0x1A, DIV, m);
    RMultDiv(h, rs, rt, rd, sh, 0x1B, DIVU, m);
    DivMeaning(DIVU, a, b);
    if a == 0x8000_0000 && b == 0xFFFF_FFFF {
      DivOverflow();
    } else {
      DivMeaning(DIV, a, b);
    }
  }

  lemma RMove(h: Host, rs: nat, rt: nat, rd: nat, sh: nat, fn: nat, op: Op, m: Machine)
    requires Fields(rs, rt, rd, sh) && fn < 64 && Secondary(fn) == Some(op)
    ensures var r := ExecWord(h, RWord(rs, rt, rd, sh, fn), m);
            && (TypeOf(op) == MF ==> Sets(m, r, rd, m.r[if op == MFHI then HI else LO]))
            && (TypeOf(op) == MT ==> Sets(m, r, if op == MTHI then HI else LO, m.r[rs]))
  {
    hide Exec, ExecWord, RWord, Rs, Rt, Rd, Sh, Secondary;
    RExec(h, rs, rt, rd, sh, fn, m);
    MoveExec(h, op, RWord(rs, rt, rd, sh, fn), m);
  }

  /** mfhi, mflo, mthi, mtlo. */
  lemma MoveWords(h: Host, rs: nat, rt: nat, rd: nat, sh: nat, m: Machine)
    requires Fields(rs, rt, rd, sh)
    ensures Sets(m, ExecWord(h, RWord(rs, rt, rd, sh, 0x10), m), rd, m.r[32])
    ensures Sets(m, ExecWord(h, RWord(rs, rt, rd, sh, 0x12), m), rd, m.r[33])
    ensures Sets(m, ExecWord(h, RWord(rs, rt, rd, sh, 0x11), m), 32, m.r[rs])
    ensures Sets(m, ExecWord(h, RWord(rs, rt, rd, sh, 0x13), m), 33, m.r[rs])
  {
    hide ExecWord, RWord, Secondary, Sets, TypeOf;
    MoveCodes();
    RMove(h, rs, rt, rd, sh, 0x10, MFHI, m);
    RMove(h, rs, rt, rd, sh, 0x12, MFLO, m);
    RMove(h, rs, rt, rd, sh, 0x11, MTHI, m);
    RMove(h, rs, rt, rd, sh, 0x13, MTLO, m);
  }

  // ----- immediate operands -----

  /** addi and addiu: rt becomes rs plus the signed field; addi leaves the machine alone when that passes 2^32. */
  lemma AddImmediates(h: Host, rs: nat, rt: nat, imm: nat, s: int, m: Machine)
    requires rs < 32 && rt < 32 && imm < 0x1_0000 && SignedHalf(imm, s)
    ensures var a: int := m.r[rs];
            && (a + s < 0x1_0000_0000 ==> Sets(m, ExecWord(h, IWord(8, rs, rt, imm), m), rt, (a + s) % 0x1_0000_0000))
            && (a + s >= 0x1_0000_0000 ==> ExecWord(h, IWord(8, rs, rt, imm), m) == Some(m))
            && Sets(m, ExecWord(h, IWord(9, rs, rt, imm), m), rt, (a + s) % 0x1_0000_0000)
  {
    hide ExecWord, IWord, Primary, SignExtend16, SignedHalf, Sets, TypeOf;
    ArithmeticCodes();
    SignIs(imm, s);
    IAlu(h, 8, rs, rt, imm, ADDI, m);
    IAlu(h, 9, rs, rt, imm, ADDIU, m);
  }

  /** slti compares rs with the signed field, sltiu with that field as an unsigned number. */
  lemma CompareImmediates(h: Host, rs: nat, rt: nat, imm: nat, s: int, m: Machine)
    requires rs < 32 && rt < 32 && imm < 0x1_0000 && SignedHalf(imm, s)
    ensures Sets(m, ExecWord(h, IWord(0xA, rs, rt, imm), m), rt, if Signed(m.r[rs]) < s then 1 else 0)
    ensures Sets(m, ExecWord(h, IWord(0xB, rs, rt, imm), m), rt, if m.r[rs] < s % 0x1_0000_0000 then 1 else 0)
  {
    hide ExecWord, IWord, Primary, SignExtend16, SignedHalf, Sets, Signed, TypeOf;
    ArithmeticCodes();
    SignIs(imm, s);
    IAlu(h, 0xA, rs, rt, imm, SLTI, m);
    IAlu(h, 0xB, rs, rt, imm, SLTIU, m);
  }

  lemma LogicImmediate(op: Op, a: Word, imm: nat)
    requires imm < 0x1_0000
    ensures AluImm(ANDI, a, imm) == Some(And(a, imm)) && AluImm(ORI, a, imm) == Some(Or(a, imm))
    ensures AluImm(XORI, a, imm) == Some(Xor(a, imm))
  {
    hide And, Or, Xor, SignExtend16;
  }

  /** andi, ori, xori: the field is not sign-extended. */
  lemma LogicImmediates(h: Host, rs: nat, rt: nat, imm: nat, m: Machine, i: nat)
    requires rs < 32 && rt < 32 && imm < 0x1_0000 && i < 32
    ensures var a, b, x := Bit(m.r[rs], i), Bit(imm, i), ExecWord(h, IWord(0xC, rs, rt, imm), m);
            Changes(m, x, rt) && BitOf(x, rt, i) == if a == 1 && b == 1 then 1 else 0
    ensures var a, b, x := Bit(m.r[rs], i), Bit(imm, i), ExecWord(h, IWord(0xD, rs, rt, imm), m);
            Changes(m, x, rt) && BitOf(x, rt, i) == if a == 1 || b == 1 then 1 else 0
    ensures var a, b, x := Bit(m.r[rs], i), Bit(imm, i), ExecWord(h, IWord(0xE, rs, rt, imm), m);
            Changes(m, x, rt) && BitOf(x, rt, i) == if a != b then 1 else 0
  {
    hide ExecWord, IWord, Primary, Bit, And, Or, Xor, AluImm, TypeOf;
    MaskCodes();
    LogicImmediate(ANDI, m.r[rs], imm);
    IAlu(h, 0xC, rs, rt, imm, ANDI, m);
    IAlu(h, 0xD, rs, rt, imm, ORI, m);
    IAlu(h, 0xE, rs, rt, imm, XORI, m);
    AndAt(m.r[rs], imm, i);
    OrAt(m.r[rs], imm, i);
    XorAt(m.r[rs], imm, i);
  }

  /** lui: the field becomes the upper half of rt. */
  lemma UpperImmediate(h: Host, rs: nat, rt: nat, imm: nat, m: Machine)
    requires rs < 32 && rt < 32 && imm < 0x1_0000
    ensures Sets(m, ExecWord(h, IWord(0xF, rs, rt, imm), m), rt, 0x1_0000 * imm)
  {
    hide Exec, ExecWord, IWord, Primary, Rs, Rt, Rd, Imm16, TypeOf;
    RegisterCodes();
    IExec(h, 0xF, rs, rt, imm, m);
    MoveExec(h, LUI, IWord(0xF, rs, rt, imm), m);
  }

  /** rdhwr: register 3 is the counter resolution, 29 the thread pointer, the others read as 0. */
  lemma HardwareWord(h: Host, rs: nat, rt: nat, rd: nat, low: nat, m: Machine)
    requires rs < 32 && rt < 32 && rd < 32 && low < 0x800
    ensures Sets(m, ExecWord(h, IWord(0x1F, rs, rt, 0x800 * rd + low), m), rt,
                 if rd == 3 then 1 else if rd == 29 then m.userLocal else 0)
  {
    hide Exec, ExecWord, IWord, Primary, Rs, Rt, Rd, Imm16, TypeOf;
    RegisterCodes();
    IExec(h, 0x1F, rs, rt, 0x800 * rd + low, m);
    MoveExec(h, RDHWR, IWord(0x1F, rs, rt, 0x800 * rd + low), m);
  }
}
