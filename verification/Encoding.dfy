/**
 * mips.h, the instruction words built from the numbers of their fields, and what executing a
 * word of each type comes to.
 */
module Encoding {
  import opened Words
  import opened Machines
  import opened Instructions
  import opened Switch

  // ----- assembling -----

  predicate Fields(rs: nat, rt: nat, rd: nat, sh: nat) {
    rs < 32 && rt < 32 && rd < 32 && sh < 32
  }

  /** op 0: three registers, a shift amount and a function code. */
  function RWord(rs: nat, rt: nat, rd: nat, sh: nat, fn: nat): Word
    requires Fields(rs, rt, rd, sh) && fn < 64
  {
    rs * 0x20_0000 + rt * 0x1_0000 + rd * 0x800 + sh * 0x40 + fn
  }

  /** An operation, two registers and 16 bits. */
  function IWord(op: nat, rs: nat, rt: nat, imm: nat): Word
    requires op < 64 && rs < 32 && rt < 32 && imm < 0x1_0000
  {
    op * 0x400_0000 + rs * 0x20_0000 + rt * 0x1_0000 + imm
  }

  /** An operation and 26 bits. */
  function JWord(op: nat, target: nat): Word
    requires op < 64 && target < 0x400_0000
  {
    op * 0x400_0000 + target
  }

  lemma FieldsAre(w: Word)
    ensures OpField(w) == w / 0x400_0000 && Rs(w) == w / 0x20_0000 % 32 && Rt(w) == w / 0x1_0000 % 32
    ensures Rd(w) == w / 0x800 % 32 && Sh(w) == w / 0x40 % 32 && Fn(w) == w % 0x40 && Imm16(w) == w % 0x1_0000
  {}

  lemma RQuotients(rs: nat, rt: nat, rd: nat, sh: nat, fn: nat)
    requires Fields(rs, rt, rd, sh) && fn < 64
    ensures var w := RWord(rs, rt, rd, sh, fn);
            && w % 0x40 == fn && w / 0x40 == sh + 0x20 * (rd + 0x20 * (rt + 0x20 * rs))
            && w / 0x800 == rd + 0x20 * (rt + 0x20 * rs) && w / 0x1_0000 == rt + 0x20 * rs
            && w / 0x20_0000 == rs && w / 0x400_0000 == 0
  {}

  lemma RFields(rs: nat, rt: nat, rd: nat, sh: nat, fn: nat)
    requires Fields(rs, rt, rd, sh) && fn < 64
    ensures var w := RWord(rs, rt, rd, sh, fn);
            OpField(w) == 0 && Rs(w) == rs && Rt(w) == rt && Rd(w) == rd && Sh(w) == sh && Fn(w) == fn
  {
    hide RWord, OpField, Rs, Rt, Rd, Sh, Fn;
    RQuotients(rs, rt, rd, sh, fn);
    FieldsAre(RWord(rs, rt, rd, sh, fn));
  }

  lemma IQuotients(op: nat, rs: nat, rt: nat, imm: nat)
    requires op < 64 && rs < 32 && rt < 32 && imm < 0x1_0000
    ensures var w := IWord(op, rs, rt, imm);
            && w % 0x1_0000 == imm && w / 0x800 == imm / 0x800 + 0x20 * (rt + 0x20 * (rs + 0x20 * op))
            && w / 0x1_0000 == rt + 0x20 * (rs + 0x20 * op) && w / 0x20_0000 == rs + 0x20 * op && w / 0x400_0000 == op
  {}

  lemma IFields(op: nat, rs: nat, rt: nat, imm: nat)
    requires op < 64 && rs < 32 && rt < 32 && imm < 0x1_0000
    ensures var w := IWord(op, rs, rt, imm);
            OpField(w) == op && Rs(w) == rs && Rt(w) == rt && Imm16(w) == imm && Rd(w) == imm / 0x800
  {
    hide IWord, OpField, Rs, Rt, Rd, Imm16;
    IQuotients(op, rs, rt, imm);
    FieldsAre(IWord(op, rs, rt, imm));
  }

  lemma JFields(op: nat, target: nat)
    requires op < 64 && target < 0x400_0000
    ensures OpField(JWord(op, target)) == op && Imm26(JWord(op, target)) == target
  {}

  /** s is the 16-bit number imm read as a signed one. */
  predicate SignedHalf(imm: nat, s: int) {
    -0x8000 <= s < 0x8000 && (s - imm) % 0x1_0000 == 0
  }

  lemma SignIs(imm: nat, s: int)
    requires imm < 0x1_0000 && SignedHalf(imm, s)
    ensures SignExtend16(imm) == s
  {}

  /** The value of a 32-bit number read as a signed one. */
  lemma SignedIs(a: Word)
    ensures -0x8000_0000 <= Signed(a) < 0x8000_0000 && (Signed(a) - a) % 0x1_0000_0000 == 0
  {}

  // ----- the codes -----

  lemma ShiftTypes()
    ensures TypeOf(SLL) == SHIFT_IMM && TypeOf(SRL) == SHIFT_IMM && TypeOf(SRA) == SHIFT_IMM
  {}

  lemma ShiftCodes()
    ensures Secondary(0) == Some(SLL) && Secondary(2) == Some(SRL)
    ensures Secondary(3) == Some(SRA)
    ensures TypeOf(SLL) == SHIFT_IMM && TypeOf(SRL) == SHIFT_IMM && TypeOf(SRA) == SHIFT_IMM
  {
    hide TypeOf;
    ShiftTypes();
  }

  lemma VariableTypes()
    ensures TypeOf(SLLV) == SHIFT_REG && TypeOf(SRLV) == SHIFT_REG && TypeOf(SRAV) == SHIFT_REG
  {}

  lemma VariableCodes()
    ensures Secondary(4) == Some(SLLV) && Secondary(6) == Some(SRLV)
    ensures Secondary(7) == Some(SRAV)
    ensures TypeOf(SLLV) == SHIFT_REG && TypeOf(SRLV) == SHIFT_REG && TypeOf(SRAV) == SHIFT_REG
  {
    hide TypeOf;
    VariableTypes();
  }

  lemma SystemTypes()
    ensures TypeOf(JR) == JUMP_REG && TypeOf(JALR) == JUMP_LINK_REG && TypeOf(SYSCALL) == SYSTEM
    ensures TypeOf(BREAK) == BRK && TypeOf(SPECIAL) == SYSTEM
  {}

  lemma SystemCodes()
    ensures Secondary(8) == Some(JR) && Secondary(9) == Some(JALR)
    ensures Secondary(0xC) == Some(SYSCALL) && Secondary(0xD) == Some(BREAK)
    ensures Secondary(0xF) == Some(SPECIAL)
    ensures TypeOf(JR) == JUMP_REG && TypeOf(JALR) == JUMP_LINK_REG && TypeOf(SYSCALL) == SYSTEM
    ensures TypeOf(BREAK) == BRK && TypeOf(SPECIAL) == SYSTEM
  {
    hide TypeOf;
    SystemTypes();
  }

  lemma MoveTypes()
    ensures TypeOf(MFHI) == MF && TypeOf(MTHI) == MT && TypeOf(MFLO) == MF
    ensures TypeOf(MTLO) == MT
  {}

  lemma MoveCodes()
    ensures Secondary(0x10) == Some(MFHI) && Secondary(0x11) == Some(MTHI)
    ensures Secondary(0x12) == Some(MFLO) && Secondary(0x13) == Some(MTLO)
    ensures TypeOf(MFHI) == MF && TypeOf(MTHI) == MT && TypeOf(MFLO) == MF
    ensures TypeOf(MTLO) == MT
  {
    hide TypeOf;
    MoveTypes();
  }

  lemma ProductTypes()
    ensures TypeOf(MULT) == MULT_DIV && TypeOf(MULTU) == MULT_DIV && TypeOf(DIV) == MULT_DIV
    ensures TypeOf(DIVU) == MULT_DIV
  {}

  lemma ProductCodes()
    ensures Secondary(0x18) == Some(MULT) && Secondary(0x19) == Some(MULTU)
    ensures Secondary(0x1A) == Some(DIV) && Secondary(0x1B) == Some(DIVU)
    ensures TypeOf(MULT) == MULT_DIV && TypeOf(MULTU) == MULT_DIV && TypeOf(DIV) == MULT_DIV
    ensures TypeOf(DIVU) == MULT_DIV
  {
    hide TypeOf;
    ProductTypes();
  }

  lemma SumTypes()
    ensures TypeOf(ADD) == ALU_REG && TypeOf(ADDU) == ALU_REG && TypeOf(SUB) == ALU_REG
    ensures TypeOf(SUBU) == ALU_REG
  {}

  lemma SumCodes()
    ensures Secondary(0x20) == Some(ADD) && Secondary(0x21) == Some(ADDU)
    ensures Secondary(0x22) == Some(SUB) && Secondary(0x23) == Some(SUBU)
    ensures TypeOf(ADD) == ALU_REG && TypeOf(ADDU) == ALU_REG && TypeOf(SUB) == ALU_REG
    ensures TypeOf(SUBU) == ALU_REG
  {
    hide TypeOf;
    SumTypes();
  }

  lemma LogicTypes()
    ensures TypeOf(LAND) == ALU_REG && TypeOf(LOR) == ALU_REG && TypeOf(LXOR) == ALU_REG
    ensures TypeOf(LNOR) == ALU_REG
  {}

  lemma LogicCodes()
    ensures Secondary(0x24) == Some(LAND) && Secondary(0x25) == Some(LOR)
    ensures Secondary(0x26) == Some(LXOR) && Secondary(0x27) == Some(LNOR)
    ensures TypeOf(LAND) == ALU_REG && TypeOf(LOR) == ALU_REG && TypeOf(LXOR) == ALU_REG
    ensures TypeOf(LNOR) == ALU_REG
  {
    hide TypeOf;
    LogicTypes();
  }

  lemma CompareTypes()
    ensures TypeOf(SLT) == ALU_REG && TypeOf(SLTU) == ALU_REG
  {}

  lemma CompareCodes()
    ensures Secondary(0x2A) == Some(SLT) && Secondary(0x2B) == Some(SLTU)
    ensures TypeOf(SLT) == ALU_REG && TypeOf(SLTU) == ALU_REG
  {
    hide TypeOf;
    CompareTypes();
  }

  lemma BranchTypes()
    ensures TypeOf(BEQ) == BRANCH_EQ_NE && TypeOf(BNE) == BRANCH_EQ_NE && TypeOf(BLEZ) == BRANCH_GENERIC
    ensures TypeOf(BGTZ) == BRANCH_GENERIC
  {}

  lemma BranchCodes()
    ensures Primary(4) == Some(BEQ) && Primary(5) == Some(BNE)
    ensures Primary(6) == Some(BLEZ) && Primary(7) == Some(BGTZ)
    ensures TypeOf(BEQ) == BRANCH_EQ_NE && TypeOf(BNE) == BRANCH_EQ_NE && TypeOf(BLEZ) == BRANCH_GENERIC
    ensures TypeOf(BGTZ) == BRANCH_GENERIC
  {
    hide TypeOf;
    BranchTypes();
  }

  lemma JumpTypes()
    ensures TypeOf(J) == J_JAL && TypeOf(JAL) == J_JAL
  {}

  lemma JumpCodes()
    ensures Primary(2) == Some(J) && Primary(3) == Some(JAL)
    ensures TypeOf(J) == J_JAL && TypeOf(JAL) == J_JAL
  {
    hide TypeOf;
    JumpTypes();
  }

  lemma ZeroTypes()
    ensures TypeOf(BLTZ) == BRANCH_GENERIC && TypeOf(BGEZ) == BRANCH_GENERIC && TypeOf(BLTZAL) == BRANCH_GENERIC
    ensures TypeOf(BGEZAL) == BRANCH_GENERIC
  {}

  lemma ZeroCodes()
    ensures RegImm(0) == Some(BLTZ) && RegImm(1) == Some(BGEZ)
    ensures RegImm(0x10) == Some(BLTZAL) && RegImm(0x11) == Some(BGEZAL)
    ensures TypeOf(BLTZ) == BRANCH_GENERIC && TypeOf(BGEZ) == BRANCH_GENERIC && TypeOf(BLTZAL) == BRANCH_GENERIC
    ensures TypeOf(BGEZAL) == BRANCH_GENERIC
  {
    hide TypeOf;
    ZeroTypes();
  }

  lemma ArithmeticTypes()
    ensures TypeOf(ADDI) == ALU_IMM && TypeOf(ADDIU) == ALU_IMM && TypeOf(SLTI) == ALU_IMM
    ensures TypeOf(SLTIU) == ALU_IMM
  {}

  lemma ArithmeticCodes()
    ensures Primary(8) == Some(ADDI) && Primary(9) == Some(ADDIU)
    ensures Primary(0xA) == Some(SLTI) && Primary(0xB) == Some(SLTIU)
    ensures TypeOf(ADDI) == ALU_IMM && TypeOf(ADDIU) == ALU_IMM && TypeOf(SLTI) == ALU_IMM
    ensures TypeOf(SLTIU) == ALU_IMM
  {
    hide TypeOf;
    ArithmeticTypes();
  }

  lemma MaskTypes()
    ensures TypeOf(ANDI) == ALU_IMM && TypeOf(ORI) == ALU_IMM && TypeOf(XORI) == ALU_IMM
  {}

  lemma MaskCodes()
    ensures Primary(0xC) == Some(ANDI) && Primary(0xD) == Some(ORI)
    ensures Primary(0xE) == Some(XORI)
    ensures TypeOf(ANDI) == ALU_IMM && TypeOf(ORI) == ALU_IMM && TypeOf(XORI) == ALU_IMM
  {
    hide TypeOf;
    MaskTypes();
  }

  lemma RegisterTypes()
    ensures TypeOf(LUI) == LUI_IMM && TypeOf(RDHWR) == READ_HW
  {}

  lemma RegisterCodes()
    ensures Primary(0xF) == Some(LUI) && Primary(0x1F) == Some(RDHWR)
    ensures TypeOf(LUI) == LUI_IMM && TypeOf(RDHWR) == READ_HW
  {
    hide TypeOf;
    RegisterTypes();
  }

  lemma LoadTypes()
    ensures TypeOf(LB) == LOAD_IMM && TypeOf(LH) == LOAD_IMM && TypeOf(LWL) == LOAD_IMM
    ensures TypeOf(LW) == LOAD_IMM
  {}

  lemma LoadCodes()
    ensures Primary(0x20) == Some(LB) && Primary(0x21) == Some(LH)
    ensures Primary(0x22) == Some(LWL) && Primary(0x23) == Some(LW)
    ensures TypeOf(LB) == LOAD_IMM && TypeOf(LH) == LOAD_IMM && TypeOf(LWL) == LOAD_IMM
    ensures TypeOf(LW) == LOAD_IMM
  {
    hide TypeOf;
    LoadTypes();
  }

  lemma MoreLoadTypes()
    ensures TypeOf(LBU) == LOAD_IMM && TypeOf(LHU) == LOAD_IMM && TypeOf(LWR) == LOAD_IMM
    ensures TypeOf(LL) == LOAD_IMM
  {}

  lemma MoreLoadCodes()
    ensures Primary(0x24) == Some(LBU) && Primary(0x25) == Some(LHU)
    ensures Primary(0x26) == Some(LWR) && Primary(0x30) == Some(LL)
    ensures TypeOf(LBU) == LOAD_IMM && TypeOf(LHU) == LOAD_IMM && TypeOf(LWR) == LOAD_IMM
    ensures TypeOf(LL) == LOAD_IMM
  {
    hide TypeOf;
    MoreLoadTypes();
  }

  lemma StoreTypes()
    ensures TypeOf(SB) == STORE_IMM && TypeOf(SH) == STORE_IMM && TypeOf(SWL) == STORE_IMM
  {}

  lemma StoreCodes()
    ensures Primary(0x28) == Some(SB) && Primary(0x29) == Some(SH)
    ensures Primary(0x2A) == Some(SWL)
    ensures TypeOf(SB) == STORE_IMM && TypeOf(SH) == STORE_IMM && TypeOf(SWL) == STORE_IMM
  {
    hide TypeOf;
    StoreTypes();
  }

  lemma MoreStoreTypes()
    ensures TypeOf(SW) == STORE_IMM && TypeOf(SWR) == STORE_IMM && TypeOf(SC) == STORE_IMM
  {}

  lemma MoreStoreCodes()
    ensures Primary(0x2B) == Some(SW) && Primary(0x2E) == Some(SWR)
    ensures Primary(0x38) == Some(SC)
    ensures TypeOf(SW) == STORE_IMM && TypeOf(SWR) == STORE_IMM && TypeOf(SC) == STORE_IMM
  {
    hide TypeOf;
    MoreStoreTypes();
  }

  // ----- one word, by the type of its instruction -----

  lemma RExec(h: Host, rs: nat, rt: nat, rd: nat, sh: nat, fn: nat, m: Machine)
    requires Fields(rs, rt, rd, sh) && fn < 64
    ensures var w := RWord(rs, rt, rd, sh, fn);
            && Rs(w) == rs && Rt(w) == rt && Rd(w) == rd && Sh(w) == sh
            && ExecWord(h, w, m) == match Secondary(fn) case None => None case Some(op) => Exec(h, op, w, m)
  {
    hide Exec, Secondary, Primary, RegImm, RWord, OpField, Rs, Rt, Rd, Sh, Fn;
    RFields(rs, rt, rd, sh, fn);
  }

  lemma IExec(h: Host, op: nat, rs: nat, rt: nat, imm: nat, m: Machine)
    requires 0 < op < 64 && rs < 32 && rt < 32 && imm < 0x1_0000
    ensures var w := IWord(op, rs, rt, imm);
            && Rs(w) == rs && Rt(w) == rt && Imm16(w) == imm && Rd(w) == imm / 0x800
            && ExecWord(h, w, m) ==
               match if op == 1 then RegImm(rt) else Primary(op) case None => None case Some(o) => Exec(h, o, w, m)
  {
    hide Exec, Secondary, Primary, RegImm, IWord, OpField, Rs, Rt, Rd, Imm16;
    IFields(op, rs, rt, imm);
  }

  lemma AluExec(h: Host, op: Op, w: Word, m: Machine)
    ensures TypeOf(op) == ALU_REG ==>
              Exec(h, op, w, m) == Some(PutSome(m, Rd(w), AluReg(op, m.r[Rs(w)], m.r[Rt(w)])))
    ensures TypeOf(op) == ALU_IMM ==>
              Exec(h, op, w, m) == Some(PutSome(m, Rt(w), AluImm(op, m.r[Rs(w)], Imm16(w))))
    ensures TypeOf(op) == MULT_DIV ==> Exec(h, op, w, m) == Some(ExecMultDiv(op, w, m))
  {
    hide AluReg, AluImm, PutSome, Rs, Rt, Rd, Imm16, ExecMultDiv;
  }

  lemma ShiftExec(h: Host, op: Op, w: Word, m: Machine)
    ensures TypeOf(op) == SHIFT_IMM ==> Exec(h, op, w, m) == Some(Put(m, Rd(w), Shift(op, m.r[Rt(w)], Sh(w))))
    ensures TypeOf(op) == SHIFT_REG ==>
              Exec(h, op, w, m) == Some(Put(m, Rd(w), Shift(op, m.r[Rt(w)], m.r[Rs(w)] % 32)))
  {
    hide Shift, Put, Rs, Rt, Rd, Sh;
  }

  lemma MoveExec(h: Host, op: Op, w: Word, m: Machine)
    ensures TypeOf(op) == MF ==> Exec(h, op, w, m) == Some(Put(m, Rd(w), m.r[if op == MFHI then HI else LO]))
    ensures TypeOf(op) == MT ==> Exec(h, op, w, m) == Some(Put(m, if op == MTHI then HI else LO, m.r[Rs(w)]))
    ensures TypeOf(op) == LUI_IMM ==> Exec(h, op, w, m) == Some(Put(m, Rt(w), 0x1_0000 * Imm16(w)))
    ensures TypeOf(op) == READ_HW ==> Exec(h, op, w, m) == Some(Put(m, Rt(w), HardwareRegister(m, Rd(w))))
    ensures TypeOf(op) == LOAD_IMM ==> Exec(h, op, w, m) == ExecLoad(op, w, m)
    ensures TypeOf(op) == STORE_IMM ==> Exec(h, op, w, m) == ExecStore(op, w, m)
  {
    hide Put, Rs, Rt, Rd, Imm16, HardwareRegister, ExecLoad, ExecStore;
  }

  lemma SystemExec(h: Host, op: Op, w: Word, m: Machine)
    ensures op == SYSCALL ==> Exec(h, op, w, m) == Syscall(h, m)
    ensures op == SPECIAL ==> Exec(h, op, w, m) == Some(m)
    ensures op == BREAK ==> Exec(h, op, w, m) == None
  {
    hide Syscall;
  }

  // ----- the register file -----

  /** r is m with v in register i. */
  predicate Sets(m: Machine, r: Option<Machine>, i: nat, v: int)
    requires i < 39
  {
    0 <= v < 0x1_0000_0000 && r == Some(m.(r := m.r[i := v]))
  }

  /** r is m with something in register i. */
  predicate Changes(m: Machine, r: Option<Machine>, i: nat)
    requires i < 39
  {
    r.Some? && r.value == m.(r := m.r[i := r.value.r[i]])
  }

  lemma RAlu(h: Host, rs: nat, rt: nat, rd: nat, sh: nat, fn: nat, op: Op, m: Machine)
    requires Fields(rs, rt, rd, sh) && fn < 64
    requires Secondary(fn) == Some(op) && TypeOf(op) == ALU_REG
    ensures var v := AluReg(op, m.r[rs], m.r[rt]);
            var r := ExecWord(h, RWord(rs, rt, rd, sh, fn), m);
            if v == None then r == Some(m) else Sets(m, r, rd, v.value)
  {
    hide Exec, ExecWord, RWord, Rs, Rt, Rd, Sh, AluReg, Secondary;
    RExec(h, rs, rt, rd, sh, fn, m);
    AluExec(h, op, RWord(rs, rt, rd, sh, fn), m);
  }

  lemma RShift(h: Host, rs: nat, rt: nat, rd: nat, sh: nat, fn: nat, op: Op, m: Machine)
    requires Fields(rs, rt, rd, sh) && fn < 64 && Secondary(fn) == Some(op)
    requires TypeOf(op) == SHIFT_IMM || TypeOf(op) == SHIFT_REG
    ensures var r := ExecWord(h, RWord(rs, rt, rd, sh, fn), m);
            Sets(m, r, rd, Shift(op, m.r[rt], if TypeOf(op) == SHIFT_IMM then sh else m.r[rs] % 32))
  {
    hide Exec, ExecWord, RWord, Rs, Rt, Rd, Sh, Shift, Secondary;
    RExec(h, rs, rt, rd, sh, fn, m);
    ShiftExec(h, op, RWord(rs, rt, rd, sh, fn), m);
  }

  lemma IAlu(h: Host, o: nat, rs: nat, rt: nat, imm: nat, op: Op, m: Machine)
    requires 1 < o < 64 && rs < 32 && rt < 32 && imm < 0x1_0000
    requires Primary(o) == Some(op) && TypeOf(op) == ALU_IMM
    ensures var v := AluImm(op, m.r[rs], imm);
            var r := ExecWord(h, IWord(o, rs, rt, imm), m);
            if v == None then r == Some(m) else Sets(m, r, rt, v.value)
  {
    hide Exec, ExecWord, IWord, Rs, Rt, Rd, Imm16, AluImm, Primary;
    IExec(h, o, rs, rt, imm, m);
    AluExec(h, op, IWord(o, rs, rt, imm), m);
  }
}
