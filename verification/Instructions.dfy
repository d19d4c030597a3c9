/**
 * instructions.h and syscalls.h: the instruction bodies every engine shares, as
 * functions on the machine. None stands for the death of the process: an unmapped
 * access, BRK, or a system call that aborts.
 */
module Instructions {
  import opened Words
  import opened Machines

  datatype Op =
    | BLEZ | BGTZ | J | JAL | BEQ | BNE | ADDI | ADDIU | SLTI | SLTIU | ANDI | ORI | XORI | LUI
    | LB | LH | LWL | LW | LBU | LHU | LWR | LL | SB | SH | SWL | SW | SC | SWR | RDHWR
    | BREAK | SLL | SRL | SRA | SLLV | SRLV | SRAV | JR | JALR | SYSCALL | SPECIAL
    | MFHI | MFLO | MTHI | MTLO | MULT | MULTU | DIV | DIVU
    | ADD | ADDU | SUB | SUBU | SLT | SLTU | LAND | LOR | LXOR | LNOR
    | BLTZ | BGEZ | BLTZAL | BGEZAL

  /** The instruction types of the table in mips.h. */
  datatype Type =
    | SHIFT_IMM | SHIFT_REG | JUMP_REG | JUMP_LINK_REG | SYSTEM | BRK | MF | MT | MULT_DIV | ALU_REG
    | BRANCH_GENERIC | J_JAL | BRANCH_EQ_NE | ALU_IMM | LUI_IMM | LOAD_IMM | STORE_IMM | READ_HW

  function TypeOf(op: Op): Type {
    match op
    case SLL | SRL | SRA => SHIFT_IMM
    case SLLV | SRLV | SRAV => SHIFT_REG
    case JR => JUMP_REG
    case JALR => JUMP_LINK_REG
    case SYSCALL | SPECIAL => SYSTEM
    case BREAK => BRK
    case MFHI | MFLO => MF
    case MTHI | MTLO => MT
    case MULT | MULTU | DIV | DIVU => MULT_DIV
    case ADD | ADDU | SUB | SUBU | SLT | SLTU | LAND | LOR | LXOR | LNOR => ALU_REG
    case BLEZ | BGTZ | BLTZ | BGEZ | BLTZAL | BGEZAL => BRANCH_GENERIC
    case J | JAL => J_JAL
    case BEQ | BNE => BRANCH_EQ_NE
    case ADDI | ADDIU | SLTI | SLTIU | ANDI | ORI | XORI => ALU_IMM
    case LUI => LUI_IMM
    case LB | LH | LWL | LW | LBU | LHU | LWR | LL => LOAD_IMM
    case SB | SH | SWL | SW | SC | SWR => STORE_IMM
    case RDHWR => READ_HW
  }

  predicate IsBranch(op: Op) {
    var t := TypeOf(op);
    t == JUMP_REG || t == JUMP_LINK_REG || t == BRANCH_GENERIC || t == J_JAL || t == BRANCH_EQ_NE
  }

  predicate IsIndirect(op: Op) {
    op == JR || op == JALR
  }

  // ----- fields -----

  function OpField(w: Word): nat { w / 0x400_0000 }
  function Rs(w: Word): (i: nat) ensures i < 32 { w / 0x20_0000 % 32 }
  function Rt(w: Word): (i: nat) ensures i < 32 { w / 0x1_0000 % 32 }
  function Rd(w: Word): (i: nat) ensures i < 32 { w / 0x800 % 32 }
  function Sh(w: Word): (i: nat) ensures i < 32 { w / 0x40 % 32 }
  function Fn(w: Word): nat { w % 0x40 }
  function Imm16(w: Word): (i: nat) ensures i < 0x1_0000 { w % 0x1_0000 }
  function Imm26(w: Word): (i: nat) ensures i < 0x400_0000 { w % 0x400_0000 }

  // ----- results of the bodies -----

  function Shift(op: Op, v: Word, sh: nat): Word {
    if op == SLL || op == SLLV then Wrap(v * Pow2(sh))
    else if op == SRL || op == SRLV then Wrap(v / Pow2(sh))
    else Wrap(Signed(v) / Pow2(sh))
  }

  /** None: the body leaves the register file alone (its TRAP branch). */
  function AluReg(op: Op, a: Word, b: Word): Option<Word> {
    match op
    case ADD => if a + b > 0xFFFF_FFFF then None else Some(a + b)
    case ADDU => Some(Wrap(a + b))
    case SUB => if a - b < -0x8000_0000 then None else Some(Wrap(a - b))
    case SUBU => Some(Wrap(a - b))
    case SLT => Some(if Signed(a) < Signed(b) then 1 else 0)
    case SLTU => Some(if a < b then 1 else 0)
    case LAND => Some(And(a, b))
    case LOR => Some(Or(a, b))
    case LXOR => Some(Xor(a, b))
    case _ => Some(Not(Or(a, b)))
  }

  function AluImm(op: Op, a: Word, imm: nat): Option<Word>
    requires imm < 0x1_0000
  {
    var s := SignExtend16(imm);
    match op
    case ADDI => if a + s > 0xFFFF_FFFF then None else Some(Wrap(a + s))
    case ADDIU => Some(Wrap(a + s))
    case SLTI => Some(if Signed(a) < s then 1 else 0)
    case SLTIU => Some(if a < Wrap(s) then 1 else 0)
    case ANDI => Some(And(a, imm))
    case ORI => Some(Or(a, imm))
    case _ => Some(Xor(a, imm))
  }

  datatype HiLo = HiLo(hi: Word, lo: Word)

  function MultDiv(op: Op, a: Word, b: Word): HiLo {
    match op
    case MULT => var p := Signed(a) * Signed(b); HiLo(Wrap(p / M32), Wrap(p))
    case MULTU => var p := a * b; HiLo(Wrap(p / M32), Wrap(p))
    case DIV =>
      if b == 0 then HiLo(a, if Signed(a) > 0 then 0xFFFF_FFFF else 1)
      else if b == 0xFFFF_FFFF && a == 0x8000_0000 then HiLo(0, 0x8000_0000)
      else HiLo(Wrap(a % b), Wrap(a / b))
    case _ =>
      if b == 0 then HiLo(a, 0xFFFF_FFFF) else HiLo(Wrap(a % b), Wrap(a / b))
  }

  /** 0x100 to the power of k. */
  function Bytes8(k: nat): nat {
    if k == 0 then 1 else if k == 1 then 0x100 else if k == 2 then 0x1_0000 else if k == 3 then 0x100_0000 else M32
  }

  /** lwr: (rt & ~mask) | (word >> shift), where mask is 0xffffffff >> shift. */
  function MergeRight(prev: Word, word: Word, k: nat): Word
    requires k < 4
  {
    Or(And(prev, Not(0xFFFF_FFFF / Bytes8(k))), word / Bytes8(k))
  }

  /** lwl: (rt & ~mask) | (word << (24 - shift)), where mask is 0xffffffff << (24 - shift). */
  function MergeLeft(prev: Word, word: Word, k: nat): Word
    requires k < 4
  {
    Or(And(prev, Not(Wrap(0xFFFF_FFFF * Bytes8(3 - k)))), Wrap(word * Bytes8(3 - k)))
  }

  function Load(op: Op, mem: Mem, a: Word, prev: Word): Option<Word> {
    match op
    case LB => if a in mem then Some(Wrap(SignExtend8(mem[a]))) else None
    case LBU => if a in mem then Some(mem[a]) else None
    case LH => if Raw(mem, a, 2) then Some(Wrap(SignExtend16(Load16(mem, a)))) else None
    case LHU => if Raw(mem, a, 2) then Some(Load16(mem, a)) else None
    case LWR => if Raw(mem, a - a % 4, 4) then Some(MergeRight(prev, Load32(mem, a - a % 4), a % 4)) else None
    case LWL => if Raw(mem, a - a % 4, 4) then Some(MergeLeft(prev, Load32(mem, a - a % 4), a % 4)) else None
    case _ => if Raw(mem, a, 4) then Some(Load32(mem, a)) else None
  }

  function Store(op: Op, mem: Mem, a: Word, v: Word): Option<Mem> {
    match op
    case SB => if a in mem then Some(Store8(mem, a, v)) else None
    case SH => if Raw(mem, a, 2) then Some(Store16(mem, a, v)) else None
    case _ => if Raw(mem, a, 4) then Some(Store32(mem, a, v)) else None
  }

  function HardwareRegister(m: Machine, rd: nat): Word {
    if rd == 3 then 1 else if rd == 29 then m.userLocal else 0
  }

  predicate Taken(op: Op, a: Word, b: Word) {
    match op
    case BLTZ | BLTZAL => Signed(a) < 0
    case BGEZ | BGEZAL => Signed(a) >= 0
    case BLEZ => Signed(a) <= 0
    case BGTZ => Signed(a) > 0
    case BEQ => a == b
    case BNE => a != b
    case _ => true
  }

  // ----- system calls -----

  /** The call as the host sees it, added to the calls before it. */
  function CallHost(m: Machine): Machine {
    m.(calls := m.calls + [HostCall(m.r[V0], m.r[A0], m.r[A1], m.r[A2], m.r[A3], m.mem)])
  }

  function HostSyscall(h: Host, m: Machine): Option<Machine> {
    var m' := CallHost(m);
    match h(m'.calls)
    case Abort => None
    case Done(v0, a3, address, data) =>
      if |data| < M32 && Covers(m.mem, address, |data|) then
        Some(Put(Put(m'.(mem := CopyIn(m.mem, address, data)), V0, v0), A3, a3))
      else
        None
  }

  function GrownHeap(m: Machine, brk: Word): Machine
    requires brk > m.brkEnd
  {
    m.(mem := Allocate(m.mem, m.brkEnd, brk - m.brkEnd), brkEnd := brk)
  }

  function Brk(m: Machine): Machine {
    var m' := if m.r[A0] > m.brkEnd then GrownHeap(m, m.r[A0]) else m;
    Put(m', V0, m'.brkEnd)
  }

  function RoundUp(len: Word): Word {
    Wrap(len + 0xFFF) - Wrap(len + 0xFFF) % PAGE
  }

  /** Allocate, clear and claim the next len bytes of the mmap region. */
  function MapZeroed(m: Machine, len: Word): Option<Machine> {
    var mem := Allocate(m.mem, m.mmapEnd, len);
    if Covers(mem, m.mmapEnd, len) then
      Some(m.(mem := Fill(mem, m.mmapEnd, len, 0), mmapEnd := Plus(m.mmapEnd, len)))
    else
      None
  }

  /** Two stack arguments are read and dropped; the region must end below USER_TOP. */
  predicate CanMap(m: Machine, len: Word) {
    Raw(m.mem, Plus(m.r[SP], 16), 4) && Raw(m.mem, Plus(m.r[SP], 20), 4) && Plus(m.mmapEnd, len) <= USER_TOP
  }

  function Mmap2(m: Machine): Option<Machine> {
    var len := RoundUp(m.r[A1]);
    if CanMap(m, len) && MapZeroed(m, len).Some? then
      Some(Put(Put(MapZeroed(m, len).value, V0, m.mmapEnd), A3, 0))
    else
      None
  }

  /** munmap, mprotect, set_tid_address and set_thread_area */
  function SimpleSyscall(nr: Word, m: Machine): Machine {
    if nr == 4091 then Put(Put(m, V0, 0), A0, 0)
    else if nr == 4125 then Put(Put(m, V0, 0), A3, 0)
    else if nr == 4252 then Put(m.(tidptr := m.r[A0]), V0, 1)
    else Put(m.(userLocal := m.r[A0]), V0, 0)
  }

  predicate IsHostCall(nr: Word) {
    nr == 4003 || nr == 4004 || nr == 4005 || nr == 4006 || nr == 4019 || nr == 4054 || nr == 4146 || nr == 4403
  }

  function Syscall(h: Host, m: Machine): Option<Machine> {
    var nr := m.r[V0];
    if nr == 4001 || nr == 4246 then Some(m.(status := m.r[A0], halted := true))
    else if IsHostCall(nr) then HostSyscall(h, m)
    else if nr == 4045 then Some(Brk(m))
    else if nr == 4210 then Mmap2(m)
    else if nr == 4091 || nr == 4125 || nr == 4252 || nr == 4283 then Some(SimpleSyscall(nr, m))
    else None
  }

  // ----- bodies -----

  function BranchTarget(pc: Word, imm: nat): Word
    requires imm < 0x1_0000
  {
    Plus(pc, 4 * SignExtend16(imm) + 4)
  }

  function JumpTarget(pc: Word, imm26: nat): Word
    requires imm26 < 0x400_0000
  {
    Or(And(pc, 0xF000_0000), 4 * imm26)
  }

  /** BRANCH and NOT_BRANCH */
  function Branch(m: Machine, w: Word, taken: bool): Machine {
    m.(branched := taken,
       r := m.r[NNPC := if taken then BranchTarget(m.r[PC], Imm16(w)) else Plus(m.r[PC], 8)])
  }

  function Jump(m: Machine, target: Word): Machine {
    m.(branched := true, r := m.r[NNPC := target])
  }

  function PutSome(m: Machine, i: nat, v: Option<Word>): Machine
    requires i < 32
  {
    match v case None => m case Some(x) => Put(m, i, x)
  }

  function ExecBranch(op: Op, w: Word, m: Machine): Machine {
    var rs, rt, link := m.r[Rs(w)], m.r[Rt(w)], Plus(m.r[PC], 8);
    match op
    case JR => Jump(m, rs)
    case JALR => Jump(Put(m, Rd(w), link), rs)
    case J => Jump(m, JumpTarget(m.r[PC], Imm26(w)))
    case JAL => Jump(Put(m, RA, link), JumpTarget(m.r[PC], Imm26(w)))
    case BLTZAL | BGEZAL => Branch(Put(m, RA, link), w, Taken(op, rs, rt))
    case _ => Branch(m, w, Taken(op, rs, rt))
  }

  function EffectiveAddress(w: Word, m: Machine): Word {
    Plus(m.r[Rs(w)], SignExtend16(Imm16(w)))
  }

  function PutMem(m: Machine, mem: Option<Mem>): Option<Machine> {
    match mem case None => None case Some(x) => Some(m.(mem := x))
  }

  function PutLoaded(m: Machine, i: nat, v: Option<Word>): Option<Machine>
    requires i < 32
  {
    match v case None => None case Some(x) => Some(Put(m, i, x))
  }

  function ExecStore(op: Op, w: Word, m: Machine): Option<Machine> {
    var stored := PutMem(m, Store(op, m.mem, EffectiveAddress(w, m), m.r[Rt(w)]));
    if op == SC && stored.Some? then Some(Put(stored.value, Rt(w), 1)) else stored
  }

  function ExecLoad(op: Op, w: Word, m: Machine): Option<Machine> {
    PutLoaded(m, Rt(w), Load(op, m.mem, EffectiveAddress(w, m), m.r[Rt(w)]))
  }

  function ExecMultDiv(op: Op, w: Word, m: Machine): Machine {
    var p := MultDiv(op, m.r[Rs(w)], m.r[Rt(w)]);
    m.(r := m.r[LO := p.lo][HI := p.hi])
  }

  /** The body of instruction op on the word w, before any program counter moves. */
  function Exec(h: Host, op: Op, w: Word, m: Machine): Option<Machine> {
    var rs, rt := m.r[Rs(w)], m.r[Rt(w)];
    match TypeOf(op)
    case SHIFT_IMM => Some(Put(m, Rd(w), Shift(op, rt, Sh(w))))
    case SHIFT_REG => Some(Put(m, Rd(w), Shift(op, rt, rs % 32)))
    case SYSTEM => if op == SYSCALL then Syscall(h, m) else Some(m)
    case BRK => None
    case MF => Some(Put(m, Rd(w), m.r[if op == MFHI then HI else LO]))
    case MT => Some(Put(m, if op == MTHI then HI else LO, rs))
    case MULT_DIV => Some(ExecMultDiv(op, w, m))
    case ALU_REG => Some(PutSome(m, Rd(w), AluReg(op, rs, rt)))
    case ALU_IMM => Some(PutSome(m, Rt(w), AluImm(op, rs, Imm16(w))))
    case LUI_IMM => Some(Put(m, Rt(w), 0x1_0000 * Imm16(w)))
    case LOAD_IMM => ExecLoad(op, w, m)
    case STORE_IMM => ExecStore(op, w, m)
    case READ_HW => Some(Put(m, Rt(w), HardwareRegister(m, Rd(w))))
    case _ => Some(ExecBranch(op, w, m))
  }

  // ----- decoding: the nested switch -----

  function Primary(code: nat): Option<Op> {
    match code
    case 2 => Some(J)     case 3 => Some(JAL)    case 4 => Some(BEQ)    case 5 => Some(BNE)
    case 6 => Some(BLEZ)  case 7 => Some(BGTZ)   case 8 => Some(ADDI)   case 9 => Some(ADDIU)
    case 10 => Some(SLTI) case 11 => Some(SLTIU) case 12 => Some(ANDI)  case 13 => Some(ORI)
    case 14 => Some(XORI) case 15 => Some(LUI)   case 0x1F => Some(RDHWR)
    case 0x20 => Some(LB) case 0x21 => Some(LH)  case 0x22 => Some(LWL) case 0x23 => Some(LW)
    case 0x24 => Some(LBU) case 0x25 => Some(LHU) case 0x26 => Some(LWR)
    case 0x28 => Some(SB) case 0x29 => Some(SH)  case 0x2A => Some(SWL) case 0x2B => Some(SW)
    case 0x2E => Some(SWR) case 0x30 => Some(LL) case 0x38 => Some(SC)
    case _ => None
  }

  function Secondary(code: nat): Option<Op> {
    match code
    case 0 => Some(SLL)   case 2 => Some(SRL)   case 3 => Some(SRA)   case 4 => Some(SLLV)
    case 6 => Some(SRLV)  case 7 => Some(SRAV)  case 8 => Some(JR)    case 9 => Some(JALR)
    case 0xC => Some(SYSCALL) case 0xD => Some(BREAK) case 0xF => Some(SPECIAL)
    case 0x10 => Some(MFHI) case 0x11 => Some(MTHI) case 0x12 => Some(MFLO) case 0x13 => Some(MTLO)
    case 0x18 => Some(MULT) case 0x19 => Some(MULTU) case 0x1A => Some(DIV) case 0x1B => Some(DIVU)
    case 0x20 => Some(ADD) case 0x21 => Some(ADDU) case 0x22 => Some(SUB) case 0x23 => Some(SUBU)
    case 0x24 => Some(LAND) case 0x25 => Some(LOR) case 0x26 => Some(LXOR) case 0x27 => Some(LNOR)
    case 0x2A => Some(SLT) case 0x2B => Some(SLTU)
    case _ => None
  }

  function RegImm(code: nat): Option<Op> {
    match code
    case 0 => Some(BLTZ) case 1 => Some(BGEZ) case 0x10 => Some(BLTZAL) case 0x11 => Some(BGEZAL)
    case _ => None
  }

  /** The instruction of a word; None is the default case of a switch. */
  function Decode(w: Word): Option<Op> {
    if OpField(w) == 0 then Secondary(Fn(w))
    else if OpField(w) == 1 then RegImm(Rt(w))
    else Primary(OpField(w))
  }
}
