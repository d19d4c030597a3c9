/**
 * struct mips with the instruction bodies of instructions.h and the system calls of
 * syscalls.h working on it in place.
 */
module Cpu {
  import opened Words
  import opened Machines
  import opened Instructions
  import opened Memory
  import opened Switch

  class Mips {
    const r: array<Word>
    var status: Word
    var tidptr: Word
    var userLocal: Word
    var branched: bool
    var halted: bool
    /** The calls handed to the host so far. */
    var calls: seq<HostCall>

    constructor ()
      ensures fresh(r) && r.Length == REG_MAX && r[..] == seq(REG_MAX, _ => 0)
      ensures status == tidptr == userLocal == 0 && !branched && !halted && calls == []
    {
      r := new Word[REG_MAX](_ => 0);
      status, tidptr, userLocal := 0, 0, 0;
      branched, halted := false, false;
      calls := [];
    }

    ghost predicate Ready(memory: PagedMemory)
      reads this, r, memory, memory.Repr
    {
      r.Length == REG_MAX && memory.Valid() && this !in memory.Repr && r !in memory.Repr
    }

    function Registers(): Regs
      reads r
      requires r.Length == REG_MAX
    {
      r[..]
    }

    /** The machine as a value. */
    function State(memory: PagedMemory): Machine
      reads this, r, memory, memory.Repr
      requires Ready(memory)
    {
      Machine(Registers(), status, tidptr, userLocal, branched, halted,
              memory.Flat(), memory.brkEnd, memory.mmapEnd, calls)
    }

    // ----- parts of a body -----

    method PutReg(i: nat, v: Word, ghost memory: PagedMemory)
      requires Ready(memory) && i < REG_MAX
      modifies r
      ensures Ready(memory) && State(memory) == Put(old(State(memory)), i, v)
    {
      r[i] := v;
    }

    method PutOptional(i: nat, v: Option<Word>, ghost memory: PagedMemory)
      requires Ready(memory) && i < 32
      modifies r
      ensures Ready(memory) && State(memory) == PutSome(old(State(memory)), i, v)
    {
      if v.Some? {
        PutReg(i, v.value, memory);
      }
    }

    method InterpretMultDiv(op: Op, w: Word, ghost memory: PagedMemory)
      requires Ready(memory)
      modifies r
      ensures Ready(memory) && State(memory) == old(ExecMultDiv(op, w, State(memory)))
    {
      hide MultDiv;
      var p := MultDiv(op, r[Rs(w)], r[Rt(w)]);
      PutReg(LO, p.lo, memory);
      PutReg(HI, p.hi, memory);
    }

    method SetBranched(b: bool, ghost memory: PagedMemory)
      requires Ready(memory)
      modifies this`branched
      ensures Ready(memory) && State(memory) == old(State(memory)).(branched := b)
    {
      hide FlatOf, memory.Contents;
      assert memory.Flat() == old(memory.Flat());
      branched := b;
    }

    lemma ReadyParts(memory: PagedMemory)
      requires Ready(memory)
      ensures r.Length == REG_MAX && State(memory).r == r[..]
      ensures forall i | 0 <= i < REG_MAX :: State(memory).r[i] == r[i]
    {}

    /** BRANCH and NOT_BRANCH, behind a condition. */
    method InterpretTaken(taken: bool, w: Word, ghost memory: PagedMemory)
      requires Ready(memory)
      modifies this`branched, r
      ensures Ready(memory) && State(memory) == Branch(old(State(memory)), w, taken)
    {
      hide Imm16, BranchTarget, Plus, Ready;
      ReadyParts(memory);
      SetBranched(taken, memory);
      ReadyParts(memory);
      if taken {
        PutReg(NNPC, BranchTarget(r[PC], Imm16(w)), memory);
      } else {
        PutReg(NNPC, Plus(r[PC], 8), memory);
      }
    }

    lemma ReadyMemory(memory: PagedMemory)
      requires Ready(memory)
      ensures memory.Valid() && r.Length == REG_MAX && memory.Flat() == State(memory).mem
    {}

    lemma ReadyPart(i: nat, memory: PagedMemory)
      requires Ready(memory) && i < REG_MAX
      ensures r.Length == REG_MAX && State(memory).r[i] == r[i]
    {}

    method InterpretJump(target: Word, ghost memory: PagedMemory)
      requires Ready(memory)
      modifies this`branched, r
      ensures Ready(memory) && State(memory) == Jump(old(State(memory)), target)
    {
      hide Ready, State;
      SetBranched(true, memory);
      PutReg(NNPC, target, memory);
    }

    /** The branches that leave a return address. */
    lemma WithLink(op: Op, w: Word, m: Machine)
      requires op in {JALR, JAL, BLTZAL, BGEZAL}
      ensures var linked := Put(m, if op == JALR then Rd(w) else RA, Plus(m.r[PC], 8));
              ExecBranch(op, w, m) ==
              if op == JALR then Jump(linked, m.r[Rs(w)])
              else if op == JAL then Jump(linked, JumpTarget(m.r[PC], Imm26(w)))
              else Branch(linked, w, Taken(op, m.r[Rs(w)], 0))
    {
      hide Branch, Jump, Put, Rs, Rt, Rd, JumpTarget, Plus, Imm26;
    }

    /** The branches that also write a return address. */
    method InterpretLink(op: Op, w: Word, ghost memory: PagedMemory)
      requires Ready(memory) && op in {JALR, JAL, BLTZAL, BGEZAL}
      modifies this`branched, r
      ensures Ready(memory) && State(memory) == ExecBranch(op, w, old(State(memory)))
    {
      hide Branch, Jump, Put, Taken, Rs, Rt, Rd, Ready, State, JumpTarget, Plus, Imm26, ExecBranch;
      WithLink(op, w, State(memory));
      ReadyParts(memory);
      var rs, link, target := r[Rs(w)], Plus(r[PC], 8), JumpTarget(r[PC], Imm26(w));
      PutReg(if op == JALR then Rd(w) else RA, link, memory);
      if op == JALR {
        InterpretJump(rs, memory);
      } else if op == JAL {
        InterpretJump(target, memory);
      } else {
        InterpretTaken(Taken(op, rs, 0), w, memory);
      }
    }

    /** The branches that leave no return address. */
    lemma NoLink(op: Op, w: Word, m: Machine)
      requires op !in {JALR, JAL, BLTZAL, BGEZAL}
      ensures ExecBranch(op, w, m) ==
              if op == JR then Jump(m, m.r[Rs(w)])
              else if op == J then Jump(m, JumpTarget(m.r[PC], Imm26(w)))
              else Branch(m, w, Taken(op, m.r[Rs(w)], m.r[Rt(w)]))
    {
      hide Branch, Jump, Put, Taken, Rs, Rt, Rd, JumpTarget, Plus, Imm26;
    }

    method InterpretBranch(op: Op, w: Word, ghost memory: PagedMemory)
      requires Ready(memory)
      modifies this`branched, r
      ensures Ready(memory) && State(memory) == ExecBranch(op, w, old(State(memory)))
    {
      hide Branch, Jump, Put, Taken, Rs, Rt, Rd, Ready, State, JumpTarget, Plus, Imm26, ExecBranch;
      if op == JALR || op == JAL || op == BLTZAL || op == BGEZAL {
        InterpretLink(op, w, memory);
        return;
      }
      NoLink(op, w, State(memory));
      ReadyParts(memory);
      var rs, rt := r[Rs(w)], r[Rt(w)];
      if op == JR {
        InterpretJump(rs, memory);
      } else if op == J {
        InterpretJump(JumpTarget(r[PC], Imm26(w)), memory);
      } else {
        InterpretTaken(Taken(op, rs, rt), w, memory);
      }
    }

    // ----- loads and stores -----

    /** lwr and lwl read the aligned word that holds the byte. */
    method LoadPart(op: Op, a: Word, prev: Word, memory: PagedMemory) returns (v: Option<Word>)
      requires memory.Valid() && (op == LWR || op == LWL)
      ensures v == Load(op, memory.Flat(), a, prev)
    {
      hide memory.Flat, FlatOf, memory.Valid, Load32, Raw, MergeLeft, MergeRight;
      v := None;
      var ok, word := memory.ReadU32(a - a % 4);
      if ok {
        v := Some(if op == LWR then MergeRight(prev, word, a % 4) else MergeLeft(prev, word, a % 4));
      }
    }

    method LoadByte(op: Op, a: Word, ghost prev: Word, memory: PagedMemory) returns (v: Option<Word>)
      requires memory.Valid() && (op == LB || op == LBU)
      ensures v == Load(op, memory.Flat(), a, prev)
    {
      hide memory.Flat, FlatOf, memory.Valid, SignExtend8, Wrap;
      v := None;
      var ok, byte := memory.ReadU8(a);
      if ok {
        v := Some(if op == LB then Wrap(SignExtend8(byte)) else byte);
      }
    }

    method LoadHalf(op: Op, a: Word, ghost prev: Word, memory: PagedMemory) returns (v: Option<Word>)
      requires memory.Valid() && (op == LH || op == LHU)
      ensures v == Load(op, memory.Flat(), a, prev)
    {
      hide memory.Flat, FlatOf, memory.Valid, Load16, Raw, SignExtend16, Wrap;
      v := None;
      var ok, half := memory.ReadU16(a);
      if ok {
        v := Some(if op == LH then Wrap(SignExtend16(half)) else half);
      }
    }

    method LoadValue(op: Op, a: Word, prev: Word, memory: PagedMemory) returns (v: Option<Word>)
      requires memory.Valid()
      ensures v == Load(op, memory.Flat(), a, prev)
    {
      hide memory.Flat, FlatOf, memory.Valid, Load32, Load16, Raw, MergeLeft, MergeRight, SignExtend8, SignExtend16;
      hide Wrap;
      v := None;
      if op == LB || op == LBU {
        v := LoadByte(op, a, prev, memory);
      } else if op == LH || op == LHU {
        v := LoadHalf(op, a, prev, memory);
      } else if op == LWR || op == LWL {
        v := LoadPart(op, a, prev, memory);
      } else {
        var ok, word := memory.ReadU32(a);
        if ok {
          v := Some(word);
        }
      }
    }

    method StoreValue(op: Op, a: Word, v: Word, memory: PagedMemory) returns (ok: bool)
      requires memory.Valid()
      modifies memory.PageSet()
      ensures memory.Valid()
      ensures ok == Store(op, old(memory.Flat()), a, v).Some?
      ensures ok ==> memory.Flat() == Store(op, old(memory.Flat()), a, v).value
    {
      hide memory.Flat, FlatOf, memory.Valid, Store8, Store16, Store32, Raw;
      if op == SB {
        ok := memory.WriteU8(a, v);
      } else if op == SH {
        ok := memory.WriteU16(a, v);
      } else {
        ok := memory.WriteU32(a, v);
      }
    }

    lemma StateParts(memory: PagedMemory)
      requires Ready(memory)
      ensures memory.Valid()
      ensures var m := State(memory);
              && m.mem == memory.Flat() && m.brkEnd == memory.brkEnd && m.mmapEnd == memory.mmapEnd
              && m.calls == calls && m.halted == halted && m.branched == branched && m.status == status
    {}

    /** The address as LOAD_COMPUTE_ADDRESS gives it. */
    lemma AddressIs(w: Word, memory: PagedMemory)
      requires Ready(memory)
      ensures r.Length == REG_MAX && Plus(r[Rs(w)], SignExtend16(Imm16(w))) == EffectiveAddress(w, State(memory))
      ensures r[Rt(w)] == State(memory).r[Rt(w)]
    {
      hide Rs, Rt, Imm16, Plus, SignExtend16, State, Ready;
      ReadyParts(memory);
    }

    method InterpretLoad(op: Op, w: Word, memory: PagedMemory) returns (ok: bool)
      requires Ready(memory)
      modifies r
      ensures Ready(memory)
      ensures ok == ExecLoad(op, w, old(State(memory))).Some?
      ensures ok ==> State(memory) == ExecLoad(op, w, old(State(memory))).value
    {
      hide Load, Rs, Rt, Imm16, Plus, SignExtend16, Put, State, Ready, EffectiveAddress, FlatOf, memory.Flat;
      hide memory.Valid;
      AddressIs(w, memory);
      StateParts(memory);
      var v := LoadValue(op, Plus(r[Rs(w)], SignExtend16(Imm16(w))), r[Rt(w)], memory);
      ok := v.Some?;
      if ok {
        PutReg(Rt(w), v.value, memory);
      }
    }

    /** The machine after the memory alone has changed. */
    twostate lemma StateAfterWrite(memory: PagedMemory)
      requires old(Ready(memory)) && Ready(memory)
      requires r[..] == old(r[..]) && status == old(status) && tidptr == old(tidptr) && userLocal == old(userLocal)
      requires branched == old(branched) && halted == old(halted) && calls == old(calls)
      requires memory.brkEnd == old(memory.brkEnd) && memory.mmapEnd == old(memory.mmapEnd)
      ensures State(memory) == old(State(memory)).(mem := memory.Flat())
    {}

    method InterpretStore(op: Op, w: Word, memory: PagedMemory) returns (ok: bool)
      requires Ready(memory)
      modifies r, memory.PageSet()
      ensures Ready(memory)
      ensures ok == ExecStore(op, w, old(State(memory))).Some?
      ensures ok ==> State(memory) == ExecStore(op, w, old(State(memory))).value
    {
      hide Store, Rs, Rt, Imm16, Plus, SignExtend16, Put, State;
      ReadyParts(memory);
      StateParts(memory);
      ok := StoreValue(op, Plus(r[Rs(w)], SignExtend16(Imm16(w))), r[Rt(w)], memory);
      if ok {
        StateAfterWrite(memory);
        if op == SC {
          PutReg(Rt(w), 1, memory);
        }
      }
    }

    // ----- system calls -----

    /** mips_syscall_exit and mips_syscall_exit_group */
    method SyscallExit(code: Word, ghost memory: PagedMemory)
      requires Ready(memory)
      modifies this`status, this`halted
      ensures Ready(memory) && State(memory) == old(State(memory)).(status := code, halted := true)
    {
      hide FlatOf, memory.Contents;
      assert memory.Flat() == old(memory.Flat());
      status, halted := code, true;
    }

    method SetIds(tid: Word, user: Word, ghost memory: PagedMemory)
      requires Ready(memory)
      modifies this`tidptr, this`userLocal
      ensures Ready(memory) && State(memory) == old(State(memory)).(tidptr := tid, userLocal := user)
    {
      hide FlatOf, memory.Contents;
      assert memory.Flat() == old(memory.Flat());
      tidptr, userLocal := tid, user;
    }

    method GrowHeap(brk: Word, memory: PagedMemory)
      requires Ready(memory) && brk > memory.brkEnd
      modifies memory.Repr
      ensures Ready(memory) && fresh(memory.Repr - old(memory.Repr))
      ensures State(memory) == GrownHeap(old(State(memory)), brk)
    {
      hide Allocate, memory.Flat, FlatOf, memory.Contents;
      memory.AllocatePages(memory.brkEnd, brk - memory.brkEnd);
      memory.SetBrkEnd(brk);
    }

    method SyscallBrk(memory: PagedMemory)
      requires Ready(memory)
      modifies memory.Repr, r
      ensures Ready(memory) && fresh(memory.Repr - old(memory.Repr))
      ensures State(memory) == Brk(old(State(memory)))
    {
      hide GrownHeap, Put, Ready, State;
      ReadyPart(A0, memory);
      StateParts(memory);
      var brk := r[A0];
      if brk > memory.brkEnd {
        GrowHeap(brk, memory);
        StateParts(memory);
      }
      PutReg(V0, memory.brkEnd, memory);
    }

    method CheckMap(len: Word, memory: PagedMemory) returns (ok: bool)
      requires Ready(memory)
      ensures ok == CanMap(State(memory), len)
    {
      hide Ready, State, Raw, Plus, FlatOf, memory.Flat, memory.Contents;
      ReadyPart(SP, memory);
      StateParts(memory);
      var fdOk, _ := memory.ReadU32(Plus(r[SP], 16));
      var offOk, _ := memory.ReadU32(Plus(r[SP], 20));
      ok := fdOk && offOk && Plus(memory.mmapEnd, len) <= USER_TOP;
    }

    method MapHeap(len: Word, memory: PagedMemory) returns (ok: bool)
      requires Ready(memory)
      modifies memory.Repr
      ensures ok == MapZeroed(old(State(memory)), len).Some?
      ensures ok ==> Ready(memory) && fresh(memory.Repr - old(memory.Repr))
      ensures ok ==> State(memory) == MapZeroed(old(State(memory)), len).value
    {
      hide Allocate, memory.Flat, FlatOf, memory.Contents, Fill, Covers, Plus;
      memory.AllocatePages(memory.mmapEnd, len);
      ok := memory.Set(memory.mmapEnd, len, 0);
      if ok {
        memory.SetMmapEnd(Plus(memory.mmapEnd, len));
      }
    }

    method SyscallMmap2(memory: PagedMemory) returns (ok: bool)
      requires Ready(memory)
      modifies memory.Repr, r
      ensures ok == Mmap2(old(State(memory))).Some?
      ensures ok ==> Ready(memory) && fresh(memory.Repr - old(memory.Repr))
      ensures ok ==> State(memory) == Mmap2(old(State(memory))).value
    {
      hide Ready, State, MapZeroed, Put, CanMap, RoundUp;
      ReadyPart(A1, memory);
      StateParts(memory);
      var len, start := RoundUp(r[A1]), memory.mmapEnd;
      ok := CheckMap(len, memory);
      if ok {
        ok := MapHeap(len, memory);
        if ok {
          PutReg(V0, start, memory);
          PutReg(A3, 0, memory);
        }
      }
    }

    method SetCalls(all: seq<HostCall>, ghost memory: PagedMemory)
      requires Ready(memory)
      modifies this`calls
      ensures Ready(memory) && State(memory) == old(State(memory)).(calls := all)
    {
      hide FlatOf, memory.Contents;
      assert memory.Flat() == old(memory.Flat());
      calls := all;
    }

    /** Copy the buffer the host filled into the guest. */
    method CopyReply(address: Word, data: seq<Byte>, memory: PagedMemory) returns (ok: bool)
      requires Ready(memory) && |data| < M32
      modifies memory.PageSet()
      ensures Ready(memory)
      ensures ok == Covers(old(memory.Flat()), address, |data|)
      ensures ok ==> State(memory) == old(State(memory)).(mem := CopyIn(old(memory.Flat()), address, data))
    {
      hide FlatOf, memory.Flat, memory.Contents, CopyIn, Covers;
      var buffer := new Byte[|data|](i requires 0 <= i < |data| => data[i]);
      assert buffer[..|data|] == data;
      ok := memory.CopyWrite(address, |data|, buffer);
    }

    method SyscallHost(h: Host, memory: PagedMemory) returns (ok: bool)
      requires Ready(memory)
      modifies this`calls, memory.PageSet(), r
      ensures Ready(memory)
      ensures ok == HostSyscall(h, old(State(memory))).Some?
      ensures ok ==> State(memory) == HostSyscall(h, old(State(memory))).value
    {
      hide Ready, State, Put, CopyIn, Covers, FlatOf, memory.Flat, memory.Contents;
      ReadyParts(memory);
      StateParts(memory);
      SetCalls(calls + [HostCall(r[V0], r[A0], r[A1], r[A2], r[A3], memory.Flat())], memory);
      StateParts(memory);
      match h(calls)
      case Abort =>
        ok := false;
      case Done(v0, a3, address, data) =>
        ok := |data| < M32;
        if ok {
          ok := CopyReply(address, data, memory);
        }
        if ok {
          PutReg(V0, v0, memory);
          PutReg(A3, a3, memory);
        }
    }

    lemma IdParts(memory: PagedMemory)
      requires Ready(memory)
      ensures State(memory).tidptr == tidptr && State(memory).userLocal == userLocal
    {}

    /** The system calls that only set registers and fields. */
    method SyscallSimple(nr: Word, ghost memory: PagedMemory)
      requires Ready(memory) && nr in {4091, 4125, 4252, 4283}
      modifies this`tidptr, this`userLocal, r
      ensures Ready(memory)
      ensures State(memory) == SimpleSyscall(nr, old(State(memory)))
    {
      hide Ready, State, Put;
      ReadyPart(A0, memory);
      IdParts(memory);
      if nr == 4091 {
        PutReg(V0, 0, memory);
        PutReg(A0, 0, memory);
      } else if nr == 4125 {
        PutReg(V0, 0, memory);
        PutReg(A3, 0, memory);
      } else if nr == 4252 {
        SetIds(r[A0], userLocal, memory);
        PutReg(V0, 1, memory);
      } else {
        SetIds(tidptr, r[A0], memory);
        PutReg(V0, 0, memory);
      }
    }

    method InterpretSyscall(h: Host, memory: PagedMemory) returns (ok: bool)
      requires Ready(memory)
      modifies this, r, memory.Repr
      ensures ok == Syscall(h, old(State(memory))).Some?
      ensures ok ==> Ready(memory) && fresh(memory.Repr - old(memory.Repr))
      ensures ok ==> State(memory) == Syscall(h, old(State(memory))).value
    {
      hide Ready, State, HostSyscall, Brk, Mmap2, SimpleSyscall, memory.PageSet, memory.Valid;
      ReadyPart(V0, memory);
      ReadyPart(A0, memory);
      StateParts(memory);
      memory.PageSetInRepr();
      var nr := r[V0];
      ok := true;
      if nr == 4001 || nr == 4246 {
        SyscallExit(r[A0], memory);
      } else if IsHostCall(nr) {
        ok := SyscallHost(h, memory);
      } else if nr == 4045 {
        SyscallBrk(memory);
      } else if nr == 4210 {
        ok := SyscallMmap2(memory);
      } else if nr == 4091 || nr == 4125 || nr == 4252 || nr == 4283 {
        SyscallSimple(nr, memory);
      } else {
        ok := false;
      }
    }

    // ----- one instruction -----

    /** The types whose body computes a register from two operands, or traps. */
    method InterpretAlu(op: Op, w: Word, ghost h: Host, ghost memory: PagedMemory)
      requires Ready(memory) && TypeOf(op) in {ALU_REG, ALU_IMM}
      modifies r
      ensures Ready(memory)
      ensures Exec(h, op, w, old(State(memory))) == Some(State(memory))
    {
      hide Ready, State, PutSome, AluReg, AluImm, Rs, Rt, Rd, Imm16;
      ReadyParts(memory);
      var rs, rt := r[Rs(w)], r[Rt(w)];
      if TypeOf(op) == ALU_REG {
        PutOptional(Rd(w), AluReg(op, rs, rt), memory);
      } else {
        PutOptional(Rt(w), AluImm(op, rs, Imm16(w)), memory);
      }
    }

    /** The bodies that write one general register, HI or LO, type by type. */
    lemma RegisterBodies(h: Host, op: Op, w: Word, m: Machine)
      ensures TypeOf(op) == SHIFT_IMM ==> Exec(h, op, w, m) == Some(Put(m, Rd(w), Shift(op, m.r[Rt(w)], Sh(w))))
      ensures TypeOf(op) == SHIFT_REG ==>
                Exec(h, op, w, m) == Some(Put(m, Rd(w), Shift(op, m.r[Rt(w)], m.r[Rs(w)] % 32)))
      ensures TypeOf(op) == MF ==> Exec(h, op, w, m) == Some(Put(m, Rd(w), m.r[if op == MFHI then HI else LO]))
      ensures TypeOf(op) == MT ==> Exec(h, op, w, m) == Some(Put(m, if op == MTHI then HI else LO, m.r[Rs(w)]))
      ensures TypeOf(op) == LUI_IMM ==> Exec(h, op, w, m) == Some(Put(m, Rt(w), 0x1_0000 * Imm16(w)))
      ensures TypeOf(op) == READ_HW ==> Exec(h, op, w, m) == Some(Put(m, Rt(w), HardwareRegister(m, Rd(w))))
    {
      hide Put, Shift, Rs, Rt, Rd, Sh, Imm16, HardwareRegister, TypeOf;
    }

    /** The types whose body writes one general register, HI or LO. */
    method InterpretRegister(op: Op, w: Word, ghost h: Host, ghost memory: PagedMemory)
      requires Ready(memory)
      requires TypeOf(op) in {SHIFT_IMM, SHIFT_REG, MF, MT, LUI_IMM, READ_HW}
      modifies r
      ensures Ready(memory)
      ensures Exec(h, op, w, old(State(memory))) == Some(State(memory))
    {
      hide Ready, State, Put, Shift, Rs, Rt, Rd, Sh, Imm16, Exec, TypeOf;
      RegisterBodies(h, op, w, State(memory));
      ReadyParts(memory);
      IdParts(memory);
      var rs, rt := r[Rs(w)], r[Rt(w)];
      match TypeOf(op)
      case SHIFT_IMM => PutReg(Rd(w), Shift(op, rt, Sh(w)), memory);
      case SHIFT_REG => PutReg(Rd(w), Shift(op, rt, rs % 32), memory);
      case MF => PutReg(Rd(w), r[if op == MFHI then HI else LO], memory);
      case MT => PutReg(if op == MTHI then HI else LO, rs, memory);
      case LUI_IMM => PutReg(Rt(w), 0x1_0000 * Imm16(w), memory);
      case READ_HW =>
        PutReg(Rt(w), if Rd(w) == 3 then 1 else if Rd(w) == 29 then userLocal else 0, memory);
    }

    /** The body of instruction op on the word w. */
    method Interpret(h: Host, op: Op, w: Word, memory: PagedMemory) returns (ok: bool)
      requires Ready(memory)
      modifies this, r, memory.Repr
      ensures ok == Exec(h, op, w, old(State(memory))).Some?
      ensures ok ==> Ready(memory) && fresh(memory.Repr - old(memory.Repr))
      ensures ok ==> State(memory) == Exec(h, op, w, old(State(memory))).value
    {
      hide Ready, State, Put, PutSome, Syscall, ExecLoad, ExecStore, ExecBranch, ExecMultDiv, memory.PageSet;
      hide memory.Valid;
      StateParts(memory);
      memory.PageSetInRepr();
      ok := true;
      match TypeOf(op)
      case SYSTEM =>
        if op == SYSCALL {
          ok := InterpretSyscall(h, memory);
        }
      case BRK => ok := false;
      case MULT_DIV => InterpretMultDiv(op, w, memory);
      case ALU_REG => InterpretAlu(op, w, h, memory);
      case ALU_IMM => InterpretAlu(op, w, h, memory);
      case LOAD_IMM => ok := InterpretLoad(op, w, memory);
      case STORE_IMM => ok := InterpretStore(op, w, memory);
      case JUMP_REG => InterpretBranch(op, w, memory);
      case JUMP_LINK_REG => InterpretBranch(op, w, memory);
      case BRANCH_GENERIC => InterpretBranch(op, w, memory);
      case J_JAL => InterpretBranch(op, w, memory);
      case BRANCH_EQ_NE => InterpretBranch(op, w, memory);
      case _ => InterpretRegister(op, w, h, memory);
    }

    /** INCREMENT_PC */
    method IncrementPc(ghost memory: PagedMemory)
      requires Ready(memory)
      modifies r
      ensures Ready(memory) && State(memory) == Increment(old(State(memory)))
    {
      hide Ready, State, Plus;
      ReadyPart(NPC, memory);
      ReadyPart(NNPC, memory);
      var npc, nnpc := r[NPC], r[NNPC];
      PutReg(PC, npc, memory);
      PutReg(NPC, nnpc, memory);
      PutReg(NNPC, Plus(nnpc, 4), memory);
    }

    /** memory_read_u32(memory, mips->r[MIPS_R_PC], &cir) */
    method FetchWord(memory: PagedMemory) returns (ok: bool, cir: Word)
      requires Ready(memory)
      ensures Fetch(State(memory).mem, State(memory).r[PC]) == if ok then Some(cir) else None
    {
      hide Ready, State, memory.Flat, memory.Contents, FlatOf, Raw, Load32;
      ReadyPart(PC, memory);
      StateParts(memory);
      ok, cir := memory.ReadU32(r[PC]);
    }
  }
}
