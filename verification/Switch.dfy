/**
 * switch.c as a function: the loop that fetches, executes and shifts the program
 * counters, one instruction at a time. It is the reference for the other engines.
 */
module Switch {
  import opened Words
  import opened Machines
  import opened Instructions

  /** memory_read_u32 at the program counter. */
  function Fetch(mem: Mem, pc: Word): Option<Word> {
    if Raw(mem, pc, 4) then Some(Load32(mem, pc)) else None
  }

  /** INCREMENT_PC */
  function Increment(m: Machine): Machine {
    Repin(m, m.r[NPC], m.r[NNPC], Plus(m.r[NNPC], 4))
  }

  function IncrementSome(m: Option<Machine>): Option<Machine> {
    match m case None => None case Some(x) => Some(Increment(x))
  }

  /** The body of the word w. */
  function ExecWord(h: Host, w: Word, m: Machine): Option<Machine> {
    match Decode(w) case None => None case Some(op) => Exec(h, op, w, m)
  }

  /** One turn of the loop. */
  function Step(h: Host, m: Machine): Option<Machine> {
    match Fetch(m.mem, m.r[PC])
    case None => None
    case Some(w) => IncrementSome(ExecWord(h, w, m))
  }

  /** At most n turns. */
  function Run(h: Host, m: Machine, n: nat): Option<Machine>
    decreases n
  {
    if n == 0 || m.halted then Some(m) else
    match Step(h, m) case None => None case Some(m') => Run(h, m', n - 1)
  }

  lemma {:induction false} RunAppend(h: Host, m: Machine, a: nat, b: nat)
    ensures Run(h, m, a + b) == match Run(h, m, a) case None => None case Some(m') => Run(h, m', b)
    decreases a
  {
    hide Step;
    if a == 0 || m.halted {
    } else {
      match Step(h, m)
      case None =>
      case Some(m') => RunAppend(h, m', a - 1, b);
    }
  }

  // ----- only branches look at the program counters -----

  function RepinSome(m: Option<Machine>, pc: Word, npc: Word, nnpc: Word): Option<Machine> {
    match m case None => None case Some(x) => Some(Repin(x, pc, npc, nnpc))
  }

  lemma PutRepin(m: Machine, i: nat, v: Word, pc: Word, npc: Word, nnpc: Word)
    requires i < PC
    ensures Put(Repin(m, pc, npc, nnpc), i, v) == Repin(Put(m, i, v), pc, npc, nnpc)
  {
    assert Put(Repin(m, pc, npc, nnpc), i, v).r == Repin(Put(m, i, v), pc, npc, nnpc).r;
  }

  lemma SystemNop(m: Machine, pc: Word, npc: Word, nnpc: Word)
    ensures Some(Repin(m, pc, npc, nnpc)) == RepinSome(Some(m), pc, npc, nnpc)
    ensures RepinSome(None, pc, npc, nnpc) == None
  {}

  lemma AddressBlind(w: Word, m: Machine, pc: Word, npc: Word, nnpc: Word)
    ensures EffectiveAddress(w, Repin(m, pc, npc, nnpc)) == EffectiveAddress(w, m)
    ensures Repin(m, pc, npc, nnpc).r[Rt(w)] == m.r[Rt(w)]
  {
    hide Rs, Rt, Imm16, Plus, SignExtend16;
  }

  lemma PutLoadedBlind(m: Machine, i: nat, v: Option<Word>, pc: Word, npc: Word, nnpc: Word)
    requires i < 32
    ensures PutLoaded(Repin(m, pc, npc, nnpc), i, v) == RepinSome(PutLoaded(m, i, v), pc, npc, nnpc)
  {
    if v.Some? {
      PutRepin(m, i, v.value, pc, npc, nnpc);
    }
  }

  lemma LoadBlind(op: Op, w: Word, m: Machine, pc: Word, npc: Word, nnpc: Word)
    ensures ExecLoad(op, w, Repin(m, pc, npc, nnpc)) == RepinSome(ExecLoad(op, w, m), pc, npc, nnpc)
  {
    hide Load, Rt, EffectiveAddress, PutLoaded, RepinSome;
    AddressBlind(w, m, pc, npc, nnpc);
    PutLoadedBlind(m, Rt(w), Load(op, m.mem, EffectiveAddress(w, m), m.r[Rt(w)]), pc, npc, nnpc);
  }

  lemma StoreBlind(op: Op, w: Word, m: Machine, pc: Word, npc: Word, nnpc: Word)
    ensures ExecStore(op, w, Repin(m, pc, npc, nnpc)) == RepinSome(ExecStore(op, w, m), pc, npc, nnpc)
  {
    hide Store, Rt, EffectiveAddress;
    AddressBlind(w, m, pc, npc, nnpc);
    var stored := Store(op, m.mem, EffectiveAddress(w, m), m.r[Rt(w)]);
    if op == SC && stored.Some? {
      PutRepin(m.(mem := stored.value), Rt(w), 1, pc, npc, nnpc);
    }
  }

  /** 5-bit register fields, HI and LO never name a program counter. */
  lemma RepinReads(w: Word, m: Machine, pc: Word, npc: Word, nnpc: Word)
    ensures var x := Repin(m, pc, npc, nnpc);
            && x.r[Rs(w)] == m.r[Rs(w)] && x.r[Rt(w)] == m.r[Rt(w)] && x.r[HI] == m.r[HI] && x.r[LO] == m.r[LO]
            && x.userLocal == m.userLocal
  {
    hide Rs, Rt;
  }

  lemma MultDivBlind(op: Op, w: Word, m: Machine, pc: Word, npc: Word, nnpc: Word)
    ensures ExecMultDiv(op, w, Repin(m, pc, npc, nnpc)) == Repin(ExecMultDiv(op, w, m), pc, npc, nnpc)
  {
    hide MultDiv, Rs, Rt;
    var p := MultDiv(op, m.r[Rs(w)], m.r[Rt(w)]);
    PutRepin(m, LO, p.lo, pc, npc, nnpc);
    PutRepin(Put(m, LO, p.lo), HI, p.hi, pc, npc, nnpc);
  }

  lemma PutSomeBlind(m: Machine, i: nat, v: Option<Word>, pc: Word, npc: Word, nnpc: Word)
    requires i < 32
    ensures PutSome(Repin(m, pc, npc, nnpc), i, v) == Repin(PutSome(m, i, v), pc, npc, nnpc)
  {
    if v.Some? {
      PutRepin(m, i, v.value, pc, npc, nnpc);
    }
  }

  lemma AluBlind(h: Host, op: Op, w: Word, m: Machine, pc: Word, npc: Word, nnpc: Word)
    requires TypeOf(op) in {MULT_DIV, ALU_REG, ALU_IMM}
    ensures Exec(h, op, w, Repin(m, pc, npc, nnpc)) == RepinSome(Exec(h, op, w, m), pc, npc, nnpc)
  {
    hide AluReg, AluImm, Rs, Rt, Rd, Imm16, PutSome, ExecMultDiv, Put, Repin;
    RepinReads(w, m, pc, npc, nnpc);
    MultDivBlind(op, w, m, pc, npc, nnpc);
    PutSomeBlind(m, Rd(w), AluReg(op, m.r[Rs(w)], m.r[Rt(w)]), pc, npc, nnpc);
    PutSomeBlind(m, Rt(w), AluImm(op, m.r[Rs(w)], Imm16(w)), pc, npc, nnpc);
  }

  lemma PutBlind(h: Host, op: Op, w: Word, m: Machine, pc: Word, npc: Word, nnpc: Word)
    requires TypeOf(op) in {SHIFT_IMM, SHIFT_REG, MF, MT, LUI_IMM, READ_HW}
    ensures Exec(h, op, w, Repin(m, pc, npc, nnpc)) == RepinSome(Exec(h, op, w, m), pc, npc, nnpc)
  {
    hide Shift, Rs, Rt, Rd, Sh, Imm16, Put, Repin;
    var rs, rt := m.r[Rs(w)], m.r[Rt(w)];
    RepinReads(w, m, pc, npc, nnpc);
    match TypeOf(op)
    case SHIFT_IMM => PutRepin(m, Rd(w), Shift(op, rt, Sh(w)), pc, npc, nnpc);
    case SHIFT_REG => PutRepin(m, Rd(w), Shift(op, rt, rs % 32), pc, npc, nnpc);
    case MF => PutRepin(m, Rd(w), m.r[if op == MFHI then HI else LO], pc, npc, nnpc);
    case MT => PutRepin(m, if op == MTHI then HI else LO, rs, pc, npc, nnpc);
    case LUI_IMM => PutRepin(m, Rt(w), 0x1_0000 * Imm16(w), pc, npc, nnpc);
    case READ_HW => PutRepin(m, Rt(w), HardwareRegister(m, Rd(w)), pc, npc, nnpc);
  }

  lemma HostBlind(h: Host, m: Machine, pc: Word, npc: Word, nnpc: Word)
    ensures HostSyscall(h, Repin(m, pc, npc, nnpc)) == RepinSome(HostSyscall(h, m), pc, npc, nnpc)
  {
    hide Covers, CopyIn, Put;
    var m' := CallHost(m);
    match h(m'.calls)
    case Abort =>
    case Done(v0, a3, address, data) =>
      var x := m'.(mem := CopyIn(m.mem, address, data));
      PutRepin(x, V0, v0, pc, npc, nnpc);
      PutRepin(Put(x, V0, v0), A3, a3, pc, npc, nnpc);
  }

  lemma BrkBlind(m: Machine, pc: Word, npc: Word, nnpc: Word)
    ensures Brk(Repin(m, pc, npc, nnpc)) == Repin(Brk(m), pc, npc, nnpc)
  {
    hide Allocate, Put;
    var m' := if m.r[A0] > m.brkEnd then GrownHeap(m, m.r[A0]) else m;
    PutRepin(m', V0, m'.brkEnd, pc, npc, nnpc);
  }

  lemma MapBlind(m: Machine, len: Word, pc: Word, npc: Word, nnpc: Word)
    ensures MapZeroed(Repin(m, pc, npc, nnpc), len) == RepinSome(MapZeroed(m, len), pc, npc, nnpc)
  {
    hide Allocate, Covers, Fill, Plus;
  }

  lemma Mmap2Blind(m: Machine, pc: Word, npc: Word, nnpc: Word)
    ensures Mmap2(Repin(m, pc, npc, nnpc)) == RepinSome(Mmap2(m), pc, npc, nnpc)
  {
    hide MapZeroed, Raw, RoundUp, Put, Plus;
    assert CanMap(Repin(m, pc, npc, nnpc), RoundUp(m.r[A1])) == CanMap(m, RoundUp(m.r[A1]));
    var len := RoundUp(m.r[A1]);
    MapBlind(m, len, pc, npc, nnpc);
    var x := MapZeroed(m, len);
    if x.Some? {
      PutRepin(x.value, V0, m.mmapEnd, pc, npc, nnpc);
      PutRepin(Put(x.value, V0, m.mmapEnd), A3, 0, pc, npc, nnpc);
    }
  }

  lemma SyscallBlind(h: Host, m: Machine, pc: Word, npc: Word, nnpc: Word)
    ensures Syscall(h, Repin(m, pc, npc, nnpc)) == RepinSome(Syscall(h, m), pc, npc, nnpc)
  {
    hide HostSyscall, Brk, Mmap2, Put;
    HostBlind(h, m, pc, npc, nnpc);
    BrkBlind(m, pc, npc, nnpc);
    Mmap2Blind(m, pc, npc, nnpc);
    PutRepin(m, V0, 0, pc, npc, nnpc);
    PutRepin(m.(tidptr := m.r[A0]), V0, 1, pc, npc, nnpc);
    PutRepin(m.(userLocal := m.r[A0]), V0, 0, pc, npc, nnpc);
    PutRepin(Put(m, V0, 0), A0, 0, pc, npc, nnpc);
    PutRepin(Put(m, V0, 0), A3, 0, pc, npc, nnpc);
  }

  /** A body other than a branch computes the same whatever the program counters hold, and leaves them alone. */
  lemma ExecBlind(h: Host, op: Op, w: Word, m: Machine, pc: Word, npc: Word, nnpc: Word)
    requires !IsBranch(op)
    ensures Exec(h, op, w, Repin(m, pc, npc, nnpc)) == RepinSome(Exec(h, op, w, m), pc, npc, nnpc)
  {
    hide Syscall, ExecLoad, ExecStore, AluReg, AluImm, MultDiv, Shift, PutSome, HardwareRegister, ExecMultDiv, Rs, Rt;
    hide Rd, Sh, Imm16, RepinSome, Repin, ExecBranch;
    SystemNop(m, pc, npc, nnpc);
    match TypeOf(op)
    case SYSTEM => SyscallBlind(h, m, pc, npc, nnpc);
    case LOAD_IMM => LoadBlind(op, w, m, pc, npc, nnpc);
    case STORE_IMM => StoreBlind(op, w, m, pc, npc, nnpc);
    case BRK =>
    case MULT_DIV => AluBlind(h, op, w, m, pc, npc, nnpc);
    case ALU_REG => AluBlind(h, op, w, m, pc, npc, nnpc);
    case ALU_IMM => AluBlind(h, op, w, m, pc, npc, nnpc);
    case _ => PutBlind(h, op, w, m, pc, npc, nnpc);
  }

  lemma PutsKeepBranched(op: Op, w: Word, m: Machine)
    ensures forall i: nat, v | i < REG_MAX :: Put(m, i, v).branched == m.branched
    ensures forall i: nat, v | i < 32 :: PutSome(m, i, v).branched == m.branched
    ensures ExecMultDiv(op, w, m).branched == m.branched
  {
    hide MultDiv;
  }

  lemma SystemKeepsBranched(h: Host, op: Op, w: Word, m: Machine)
    ensures Syscall(h, m).Some? ==> Syscall(h, m).value.branched == m.branched
    ensures ExecLoad(op, w, m).Some? ==> ExecLoad(op, w, m).value.branched == m.branched
    ensures ExecStore(op, w, m).Some? ==> ExecStore(op, w, m).value.branched == m.branched
  {
    hide Load, Store, Allocate, Fill, CopyIn, Covers, Raw, EffectiveAddress, Rt;
  }

  /** Only branches set the branched flag. */
  lemma ExecKeepsBranched(h: Host, op: Op, w: Word, m: Machine)
    requires !IsBranch(op)
    ensures var m' := Exec(h, op, w, m); m'.Some? ==> m'.value.branched == m.branched
  {
    hide Put, PutSome, ExecMultDiv, Syscall, ExecLoad, ExecStore, Rs, Rt, Rd, Sh, Imm16, Shift, AluReg, AluImm;
    hide HardwareRegister;
    PutsKeepBranched(op, w, m);
    SystemKeepsBranched(h, op, w, m);
  }

  // ----- branches -----

  /** The static targets of a branch at pc; what jr and jalr do is not static. */
  function StaticTarget(op: Op, w: Word, pc: Word, taken: bool): Word {
    if TypeOf(op) == J_JAL then JumpTarget(pc, Imm26(w))
    else if taken then BranchTarget(pc, Imm16(w))
    else Plus(pc, 8)
  }

  lemma BranchRepin(m: Machine, w: Word, taken: bool, npc: Word, nnpc: Word)
    ensures var b, pc := Branch(m, w, taken), m.r[PC];
            Branch(Repin(m, pc, npc, nnpc), w, taken) == Repin(b, pc, npc, b.r[NNPC])
  {
    hide Imm16, BranchTarget, Plus;
  }

  lemma JumpRepin(m: Machine, target: Word, npc: Word, nnpc: Word)
    ensures var b, pc := Jump(m, target), m.r[PC];
            Jump(Repin(m, pc, npc, nnpc), target) == Repin(b, pc, npc, b.r[NNPC])
  {}

  /** The PC, the next PC, the halted flag and memory are the same. */
  predicate SamePlace(m: Machine, x: Machine) {
    x.r[PC] == m.r[PC] && x.r[NPC] == m.r[NPC] && x.halted == m.halted && x.mem == m.mem
  }

  lemma PlaceKept(m: Machine, w: Word, taken: bool, target: Word)
    ensures SamePlace(m, Branch(m, w, taken)) && SamePlace(m, Jump(m, target))
  {
    hide Imm16, BranchTarget, Plus;
  }

  lemma PutPlace(m: Machine, i: nat, v: Word)
    requires i < PC
    ensures SamePlace(m, Put(m, i, v)) && Put(m, i, v).r[PC] == m.r[PC]
  {}

  lemma BranchKeeps(op: Op, w: Word, m: Machine)
    requires IsBranch(op)
    ensures SamePlace(m, ExecBranch(op, w, m))
  {
    hide Rs, Rt, Rd, Imm26, Plus, JumpTarget, Taken, Branch, Jump, Put;
    var link, target := Plus(m.r[PC], 8), JumpTarget(m.r[PC], Imm26(w));
    var rs, taken := m.r[Rs(w)], Taken(op, m.r[Rs(w)], m.r[Rt(w)]);
    PutPlace(m, Rd(w), link);
    PutPlace(m, RA, link);
    var rd, ra := Put(m, Rd(w), link), Put(m, RA, link);
    PlaceKept(m, w, taken, rs);
    PlaceKept(m, w, taken, target);
    PlaceKept(rd, w, taken, rs);
    PlaceKept(ra, w, taken, target);
  }

  lemma BranchRepins(op: Op, w: Word, m: Machine, npc: Word, nnpc: Word)
    requires IsBranch(op)
    ensures var b, pc := ExecBranch(op, w, m), m.r[PC];
            ExecBranch(op, w, Repin(m, pc, npc, nnpc)) == Repin(b, pc, npc, b.r[NNPC])
  {
    hide Rs, Rt, Rd, Imm16, Imm26, Plus, JumpTarget, Taken, Branch, Jump, Put;
    var pc, link, x := m.r[PC], Plus(m.r[PC], 8), Repin(m, m.r[PC], npc, nnpc);
    var rs, taken := m.r[Rs(w)], Taken(op, m.r[Rs(w)], m.r[Rt(w)]);
    assert x.r[Rs(w)] == rs && x.r[Rt(w)] == m.r[Rt(w)] && x.r[PC] == pc;
    PutRepin(m, Rd(w), link, pc, npc, nnpc);
    PutRepin(m, RA, link, pc, npc, nnpc);
    var rd, ra := Put(m, Rd(w), link), Put(m, RA, link);
    PutPlace(m, Rd(w), link);
    PutPlace(m, RA, link);
    BranchRepin(m, w, taken, npc, nnpc);
    BranchRepin(ra, w, taken, npc, nnpc);
    JumpRepin(m, rs, npc, nnpc);
    JumpRepin(rd, rs, npc, nnpc);
    JumpRepin(m, JumpTarget(pc, Imm26(w)), npc, nnpc);
    JumpRepin(ra, JumpTarget(pc, Imm26(w)), npc, nnpc);
  }

  /** Every branch, taken or not, writes NNPC from PC and general registers alone, and no other counter. */
  lemma BranchBlind(op: Op, w: Word, m: Machine, npc: Word, nnpc: Word)
    requires IsBranch(op)
    ensures var b, pc := ExecBranch(op, w, m), m.r[PC];
            && ExecBranch(op, w, Repin(m, pc, npc, nnpc)) == Repin(b, pc, npc, b.r[NNPC])
            && b.r[PC] == pc && b.r[NPC] == m.r[NPC]
            && b.halted == m.halted && b.mem == m.mem
  {
    hide ExecBranch, IsBranch;
    BranchRepins(op, w, m, npc, nnpc);
    BranchKeeps(op, w, m);
  }

  /** The branches that leave a return address. */
  predicate Links(op: Op) {
    op == JALR || op == JAL || op == BLTZAL || op == BGEZAL
  }

  /** A branch that writes no link changes NNPC and the outcome flag, which general registers decide. */
  lemma BranchUnlinked(op: Op, w: Word, m: Machine)
    requires IsBranch(op) && !Links(op)
    ensures var b := ExecBranch(op, w, m);
            b == Repin(m.(branched := Taken(op, m.r[Rs(w)], m.r[Rt(w)])), m.r[PC], m.r[NPC], b.r[NNPC])
  {
    hide Rs, Rt, Imm16, Imm26, BranchTarget, JumpTarget, Plus;
    assert Repin(m, m.r[PC], m.r[NPC], ExecBranch(op, w, m).r[NNPC]).r == m.r[NNPC := ExecBranch(op, w, m).r[NNPC]];
  }

  lemma BranchLeads(m: Machine, w: Word, taken: bool, target: Word)
    ensures Branch(m, w, taken).branched == taken
    ensures Branch(m, w, taken).r[NNPC] == if taken then BranchTarget(m.r[PC], Imm16(w)) else Plus(m.r[PC], 8)
    ensures Jump(m, target).branched && Jump(m, target).r[NNPC] == target
  {
    hide Imm16, BranchTarget, Plus;
  }

  /** The outcome flag of a direct branch selects its static target. */
  lemma BranchGoesToTarget(op: Op, w: Word, m: Machine)
    requires IsBranch(op) && !IsIndirect(op)
    ensures var b := ExecBranch(op, w, m);
            b.r[NNPC] == StaticTarget(op, w, m.r[PC], b.branched)
  {
    hide Rs, Rt, Imm16, Imm26, Plus, BranchTarget, JumpTarget, Taken, Branch, Jump, Put;
    var link, target := Plus(m.r[PC], 8), JumpTarget(m.r[PC], Imm26(w));
    var ra, taken := Put(m, RA, link), Taken(op, m.r[Rs(w)], m.r[Rt(w)]);
    PutPlace(m, RA, link);
    BranchLeads(m, w, taken, target);
    BranchLeads(ra, w, taken, target);
  }

  lemma BranchIsBranch(h: Host, op: Op, w: Word, m: Machine)
    requires IsBranch(op)
    ensures Exec(h, op, w, m) == Some(ExecBranch(op, w, m))
  {}

  // ----- the pipeline of program counters -----

  /** The counters stand one instruction apart, as loader_load_pc leaves them. */
  predicate Straight(m: Machine) {
    m.r[NPC] == Plus(m.r[PC], 4) && m.r[NNPC] == Plus(m.r[PC], 8)
  }

  /** The instruction the next turn executes. */
  function Current(m: Machine): Option<Op> {
    match Fetch(m.mem, m.r[PC]) case None => None case Some(w) => Decode(w)
  }

  lemma ExecBlindNow(h: Host, op: Op, w: Word, m: Machine)
    requires Exec(h, op, w, m).Some?
    ensures var m' := Exec(h, op, w, m).value;
            && m'.r[PC] == m.r[PC] && m'.r[NPC] == m.r[NPC]
            && (!IsBranch(op) ==> m'.r[NNPC] == m.r[NNPC])
            && (IsBranch(op) ==> m'.r[NNPC] == ExecBranch(op, w, m).r[NNPC])
  {
    if IsBranch(op) {
      BranchBlind(op, w, m, m.r[NPC], m.r[NNPC]);
      BranchIsBranch(h, op, w, m);
    } else {
      ExecBlind(h, op, w, m, m.r[PC], m.r[NPC], m.r[NNPC]);
      assert Repin(m, m.r[PC], m.r[NPC], m.r[NNPC]).r == m.r;
    }
  }

  /** How the counters move in one turn. */
  lemma StepCounters(h: Host, m: Machine)
    requires Step(h, m).Some?
    ensures Current(m).Some?
    ensures var m' := Step(h, m).value;
            && m'.r[PC] == m.r[NPC] && m'.r[NNPC] == Plus(m'.r[NPC], 4)
            && (!IsBranch(Current(m).value) ==> m'.r[NPC] == m.r[NNPC])
            && (IsBranch(Current(m).value) ==>
                  m'.r[NPC] == ExecBranch(Current(m).value, Fetch(m.mem, m.r[PC]).value, m).r[NNPC])
  {
    hide Exec, ExecBranch, Decode, Fetch, IsBranch;
    var w := Fetch(m.mem, m.r[PC]).value;
    var op := Decode(w).value;
    ExecBlindNow(h, op, w, m);
  }

  /** Where the branch m is about to execute leads. */
  function Goal(m: Machine): Word
    requires Current(m).Some?
  {
    ExecBranch(Current(m).value, Fetch(m.mem, m.r[PC]).value, m).r[NNPC]
  }

  /** A branch m is about to execute leads to the word after its delay slot and writes no link. */
  predicate FallsThrough(m: Machine) {
    Current(m).Some? && IsBranch(Current(m).value) ==> Goal(m) == Plus(m.r[PC], 8) && !Links(Current(m).value)
  }

  /** A conditional branch that is not taken and writes no link falls through. */
  lemma NotTakenFalls(m: Machine)
    requires Current(m).Some? && IsBranch(Current(m).value) && !Links(Current(m).value)
    requires var w := Fetch(m.mem, m.r[PC]).value; !Taken(Current(m).value, m.r[Rs(w)], m.r[Rt(w)])
    ensures FallsThrough(m)
  {
    hide Fetch, Decode, Rs, Rt, Imm16, Imm26, BranchTarget, JumpTarget, Plus;
    BranchLeads(m, Fetch(m.mem, m.r[PC]).value, false, 0);
  }

  /** m is a branch's delay slot: p was that branch and the slot leads to its goal. */
  predicate InSlotOf(m: Machine, p: Machine) {
    && Straight(p) && Current(p).Some? && IsBranch(Current(p).value)
    && m.r[PC] == Plus(p.r[PC], 4) && m.r[NPC] == Goal(p) && m.r[NNPC] == Plus(m.r[NPC], 4)
  }

  predicate SlotClean(p: Option<Machine>, s: Option<Machine>) {
    p.Some? && s.Some? && Current(p.value).Some? && IsBranch(Current(p.value).value) && !s.value.halted
    ==> Current(s.value).Some? ==> !IsBranch(Current(s.value).value)
  }

  /** No branch of the first n turns is followed by another branch. */
  ghost predicate SlotsClean(h: Host, m: Machine, n: nat) {
    forall k: nat | k + 1 < n :: SlotClean(Run(h, m, k), Run(h, m, k + 1))
  }

  lemma StepCountersCurrent(h: Host, m: Machine)
    requires Step(h, m).Some?
    ensures Current(m).Some?
    ensures var m' := Step(h, m).value;
            && m'.r[PC] == m.r[NPC] && m'.r[NNPC] == Plus(m'.r[NPC], 4)
            && m'.r[NPC] == (if IsBranch(Current(m).value) then Goal(m) else m.r[NNPC])
  {
    hide Step, Exec, ExecBranch, Decode, Fetch, IsBranch;
    StepCounters(h, m);
  }

  lemma StepFromStraight(h: Host, m: Machine)
    requires Straight(m) && Step(h, m).Some?
    ensures Current(m).Some?
    ensures if IsBranch(Current(m).value) then InSlotOf(Step(h, m).value, m) else Straight(Step(h, m).value)
  {
    hide Step, Fetch, Current, ExecBranch, IsBranch;
    StepCountersCurrent(h, m);
    PlusPlus(m.r[PC], 4, 4);
    PlusPlus(m.r[PC], 8, 4);
    PlusPlus(m.r[PC], 4, 8);
  }

  /** A branch that falls through moves the counters like any other instruction. */
  lemma StepStraight(h: Host, m: Machine)
    requires Straight(m) && FallsThrough(m) && Step(h, m).Some?
    ensures Straight(Step(h, m).value) && Step(h, m).value.r[PC] == Plus(m.r[PC], 4)
  {
    hide Step, Fetch, Current, ExecBranch, IsBranch, Goal, Links;
    StepCountersCurrent(h, m);
    PlusPlus(m.r[PC], 4, 4);
    PlusPlus(m.r[PC], 8, 4);
    PlusPlus(m.r[PC], 4, 8);
  }

  lemma StepFromSlot(h: Host, m: Machine, p: Machine)
    requires InSlotOf(m, p) && Step(h, m).Some? && Current(m).Some? && !IsBranch(Current(m).value)
    ensures Straight(Step(h, m).value) && Step(h, m).value.r[PC] == Goal(p)
  {
    hide Step, Fetch, Current, ExecBranch, IsBranch, Goal;
    StepCountersCurrent(h, m);
    PlusPlus(m.r[NPC], 4, 4);
  }

  /** In every run, whatever the delay slots hold, NNPC stays one instruction after NPC. */
  lemma {:induction false} CountersApart(h: Host, m: Machine, n: nat)
    requires m.r[NNPC] == Plus(m.r[NPC], 4) && Run(h, m, n).Some?
    ensures var s := Run(h, m, n).value; s.r[NNPC] == Plus(s.r[NPC], 4)
    decreases n
  {
    hide Step, Plus, Current, IsBranch, Goal;
    if n == 0 || m.halted {
    } else {
      StepCountersCurrent(h, m);
      CountersApart(h, Step(h, m).value, n - 1);
    }
  }

  predicate Running(s: Option<Machine>) { s.Some? && !s.value.halted }

  lemma RunOne(h: Host, m: Machine)
    requires !m.halted
    ensures Run(h, m, 1) == Step(h, m)
  {
    hide Step;
    var s := Step(h, m);
    if s.Some? {
      assert Run(h, s.value, 0) == s;
    }
  }

  lemma SlotFollows(h: Host, m: Machine, p: Machine)
    requires InSlotOf(m, p) && SlotClean(Some(p), Some(m)) && !m.halted && Step(h, m).Some?
    ensures Straight(Step(h, m).value)
  {
    hide Step, Straight, Goal, Fetch, Decode, IsBranch;
    StepCountersCurrent(h, m);
    StepFromSlot(h, m, p);
  }

  /**
   * The control flow of every run started straight: each state is at a straight point or in the
   * delay slot of the branch just executed, and what follows the slot is that branch's goal.
   */
  lemma {:induction false} SlotOrStraight(h: Host, m: Machine, n: nat)
    requires Straight(m) && SlotsClean(h, m, n) && Run(h, m, n).Some?
    requires forall k: nat | k < n :: Running(Run(h, m, k))
    ensures var s := Run(h, m, n).value;
            || Straight(s)
            || (n > 0 && Run(h, m, n - 1).Some? && InSlotOf(s, Run(h, m, n - 1).value))
  {
    hide Step, Straight, InSlotOf, SlotClean, Current, IsBranch;
    if n == 0 {
    } else {
      assert Running(Run(h, m, n - 1));
      var p := Run(h, m, n - 1).value;
      assert SlotsClean(h, m, n - 1);
      SlotOrStraight(h, m, n - 1);
      RunAppend(h, m, n - 1, 1);
      RunOne(h, p);
      if Straight(p) {
        StepFromStraight(h, p);
      } else {
        var q := Run(h, m, n - 2).value;
        assert SlotClean(Run(h, m, n - 2), Run(h, m, n - 2 + 1));
        SlotFollows(h, p, q);
      }
    }
  }
}
