/**
 * switch.c, computed-goto.c and tail-call.c: three control structures over the shared
 * bodies, and the entry tables the last two dispatch through.
 */
module Threaded {
  import opened Words
  import opened Machines
  import opened Instructions
  import opened Switch
  import opened Memory
  import opened Cpu

  // ----- the tables -----

  datatype Label = Secondaries | Branches | Do(op: Op)

  /** primary[]; a missing entry is a null or out-of-range entry. */
  const PRIMARY: map<int, Label> := map[
    0 := Secondaries, 1 := Branches,
    0x02 := Do(J), 0x03 := Do(JAL), 0x04 := Do(BEQ), 0x05 := Do(BNE), 0x06 := Do(BLEZ), 0x07 := Do(BGTZ),
    0x08 := Do(ADDI), 0x09 := Do(ADDIU), 0x0A := Do(SLTI), 0x0B := Do(SLTIU),
    0x0C := Do(ANDI), 0x0D := Do(ORI), 0x0E := Do(XORI), 0x0F := Do(LUI),
    0x20 := Do(LB), 0x21 := Do(LH), 0x22 := Do(LWL), 0x23 := Do(LW), 0x30 := Do(LL),
    0x24 := Do(LBU), 0x25 := Do(LHU), 0x26 := Do(LWR),
    0x29 := Do(SH), 0x2A := Do(SWL), 0x2B := Do(SW), 0x2E := Do(SWR), 0x28 := Do(SB), 0x38 := Do(SC),
    0x1F := Do(RDHWR)]

  /** secondary[] */
  const SECONDARY: map<int, Op> := map[
    0x00 := SLL, 0x02 := SRL, 0x03 := SRA, 0x04 := SLLV, 0x06 := SRLV, 0x07 := SRAV,
    0x08 := JR, 0x09 := JALR, 0x0C := SYSCALL, 0x0D := BREAK,
    0x10 := MFHI, 0x11 := MTHI, 0x12 := MFLO, 0x13 := MTLO,
    0x18 := MULT, 0x19 := MULTU, 0x1A := DIV, 0x1B := DIVU,
    0x20 := ADD, 0x21 := ADDU, 0x22 := SUB, 0x23 := SUBU,
    0x24 := LAND, 0x25 := LOR, 0x26 := LXOR, 0x27 := LNOR,
    0x2A := SLT, 0x2B := SLTU, 0x0F := SPECIAL]

  /** branch[] */
  const BRANCH: map<int, Op> := map[0x00 := BLTZ, 0x01 := BGEZ, 0x10 := BLTZAL, 0x11 := BGEZAL]

  function Entry<T>(table: map<int, T>, i: int): Option<T> {
    if i in table then Some(table[i]) else None
  }

  /** goto *primary[...], and from there *secondary[...] or *branch[...]. */
  function TableDecode(w: Word): Option<Op> {
    var entry: Option<Label> := Entry(PRIMARY, OpField(w));
    if entry.None? then None
    else match entry.value
      case Secondaries => Entry(SECONDARY, Fn(w))
      case Branches => Entry(BRANCH, Rt(w))
      case Do(op) => Some(op)
  }

  lemma PrimaryAgrees(code: nat)
    requires code > 1
    ensures Entry(PRIMARY, code) == match Primary(code) case None => None case Some(op) => Some(Do(op))
  {}

  lemma PrimaryRoots()
    ensures Entry(PRIMARY, 0) == Some(Secondaries) && Entry(PRIMARY, 1) == Some(Branches)
  {}

  lemma SecondaryAgrees(code: nat)
    ensures Entry(SECONDARY, code) == Secondary(code)
  {}

  lemma BranchAgrees(code: nat)
    ensures Entry(BRANCH, code) == RegImm(code)
  {}

  /** The tables and the nested switch name the same body for every word, and miss the same words. */
  lemma TablesAgree(w: Word)
    ensures TableDecode(w) == Decode(w)
  {
    hide Primary, Secondary, RegImm, Entry, Fn, Rt;
    PrimaryRoots();
    SecondaryAgrees(Fn(w));
    BranchAgrees(Rt(w));
    if OpField(w) > 1 {
      PrimaryAgrees(OpField(w));
    }
  }

  // ----- computed-goto.c -----

  /** The chain of DISPATCH: halted is tested, then the next word fetched, at the end of every body. */
  function Goto(h: Host, m: Machine, n: nat): Option<Machine>
    decreases n
  {
    if m.halted || n == 0 then Some(m) else
    match Fetch(m.mem, m.r[PC])
    case None => None
    case Some(w) =>
      match TableDecode(w)
      case None => None
      case Some(op) =>
        match Exec(h, op, w, m) case None => None case Some(x) => Goto(h, Increment(x), n - 1)
  }

  /** The computed-goto engine is the switch engine, after every number of instructions. */
  lemma {:induction false} GotoIsRun(h: Host, m: Machine, n: nat)
    ensures Goto(h, m, n) == Run(h, m, n)
    decreases n
  {
    hide Exec, Fetch, TableDecode, Decode, Increment;
    if n == 0 || m.halted || Fetch(m.mem, m.r[PC]).None? {
    } else {
      var w := Fetch(m.mem, m.r[PC]).value;
      TablesAgree(w);
      var x := ExecWord(h, w, m);
      if x.Some? {
        GotoIsRun(h, Increment(x.value), n - 1);
      }
    }
  }

  // ----- tail-call.c -----

  /** interpret_name: halted is tested only after the word has been fetched and dispatched. */
  function Handler(h: Host, op: Op, w: Word, m: Machine, n: nat): Option<Machine>
    decreases n, 0
  {
    if m.halted || n == 0 then Some(m) else
    match Exec(h, op, w, m) case None => None case Some(x) => Chain(h, Increment(x), n - 1)
  }

  /** Fetch at PC and call the handler the tables name. */
  function Chain(h: Host, m: Machine, n: nat): Option<Machine>
    decreases n, 1
  {
    match Fetch(m.mem, m.r[PC])
    case None => None
    case Some(w) => match TableDecode(w) case None => None case Some(op) => Handler(h, op, w, m, n)
  }

  /**
   * The tail-call engine after any number of instructions: it stops after the same instruction in
   * the same state as the switch engine exactly when the word at the final PC is mapped and defined,
   * since it fetches and dispatches that word before it looks at halted. Otherwise it dies there.
   */
  lemma {:induction false} ChainIsRun(h: Host, m: Machine, n: nat)
    ensures Chain(h, m, n) == (
              var s := Run(h, m, n);
              if s.Some? && Current(s.value).Some? then s else None)
    decreases n
  {
    hide Exec, Fetch, TableDecode, Decode, Increment;
    if Fetch(m.mem, m.r[PC]).None? {
    } else {
      var w := Fetch(m.mem, m.r[PC]).value;
      TablesAgree(w);
      var x := ExecWord(h, w, m);
      if n > 0 && !m.halted && x.Some? {
        ChainIsRun(h, Increment(x.value), n - 1);
      }
    }
  }

  // ----- the programs -----

  /** One turn of the switch loop. */
  method SwitchTurn(h: Host, mips: Mips, memory: PagedMemory) returns (ok: bool)
    requires mips.Ready(memory)
    modifies mips, mips.r, memory.Repr
    ensures ok == Step(h, old(mips.State(memory))).Some?
    ensures ok ==> mips.Ready(memory) && fresh(memory.Repr - old(memory.Repr))
    ensures ok ==> mips.State(memory) == Step(h, old(mips.State(memory))).value
  {
    hide Exec, Fetch, Increment, mips.Ready, mips.State;
    var fetched, cir := mips.FetchWord(memory);
    ok := fetched;
    if ok {
      var op := if OpField(cir) == 0 then Secondary(Fn(cir))
                else if OpField(cir) == 1 then RegImm(Rt(cir))
                else Primary(OpField(cir));
      assert op == Decode(cir);
      ok := op.Some?;
      if ok {
        ok := mips.Interpret(h, op.value, cir, memory);
        if ok {
          mips.IncrementPc(memory);
        }
      }
    }
  }

  /** interpreter_switch; turns bounds the run of a guest that may never exit. */
  method InterpreterSwitch(h: Host, mips: Mips, memory: PagedMemory, turns: nat) returns (ok: bool)
    requires mips.Ready(memory)
    modifies mips, mips.r, memory.Repr
    ensures ok == Run(h, old(mips.State(memory)), turns).Some?
    ensures ok ==> mips.Ready(memory) && fresh(memory.Repr - old(memory.Repr))
    ensures ok ==> mips.State(memory) == Run(h, old(mips.State(memory)), turns).value
  {
    hide Step, mips.Ready, mips.State;
    var n := turns;
    ok := true;
    mips.StateParts(memory);
    while !mips.halted && n > 0
      invariant mips.Ready(memory) && fresh(memory.Repr - old(memory.Repr))
      invariant Run(h, old(mips.State(memory)), turns) == Run(h, mips.State(memory), n)
      invariant mips.State(memory).halted == mips.halted
    {
      ok := SwitchTurn(h, mips, memory);
      if !ok {
        return;
      }
      mips.StateParts(memory);
      n := n - 1;
    }
  }

  /** interpreter_computed_goto */
  method InterpreterGoto(h: Host, mips: Mips, memory: PagedMemory, turns: nat) returns (ok: bool)
    requires mips.Ready(memory)
    modifies mips, mips.r, memory.Repr
    ensures ok == Goto(h, old(mips.State(memory)), turns).Some?
    ensures ok ==> mips.Ready(memory) && fresh(memory.Repr - old(memory.Repr))
    ensures ok ==> mips.State(memory) == Goto(h, old(mips.State(memory)), turns).value
  {
    hide Exec, Fetch, Increment, TableDecode, mips.Ready, mips.State;
    var n := turns;
    ok := true;
    mips.StateParts(memory);
    while !mips.halted && n > 0
      invariant mips.Ready(memory) && fresh(memory.Repr - old(memory.Repr))
      invariant Goto(h, old(mips.State(memory)), turns) == Goto(h, mips.State(memory), n)
      invariant mips.State(memory).halted == mips.halted
    {
      var fetched, cir := mips.FetchWord(memory);
      var op := TableDecode(cir);
      if !fetched || op.None? {
        return false;
      }
      ok := mips.Interpret(h, op.value, cir, memory);
      if !ok {
        return;
      }
      mips.IncrementPc(memory);
      mips.StateParts(memory);
      n := n - 1;
    }
  }

  /** interpret_name: the body, INCREMENT_PC, the next fetch and the tail call. */
  method CallHandler(h: Host, op: Op, cir: Word, mips: Mips, memory: PagedMemory, turns: nat) returns (ok: bool)
    requires mips.Ready(memory)
    modifies mips, mips.r, memory.Repr
    ensures ok == Handler(h, op, cir, old(mips.State(memory)), turns).Some?
    ensures ok ==> mips.Ready(memory) && fresh(memory.Repr - old(memory.Repr))
    ensures ok ==> mips.State(memory) == Handler(h, op, cir, old(mips.State(memory)), turns).value
    decreases turns, 0
  {
    hide Exec, Increment, Chain, mips.Ready, mips.State;
    mips.StateParts(memory);
    if mips.halted || turns == 0 {
      return true;
    }
    ok := mips.Interpret(h, op, cir, memory);
    if ok {
      mips.IncrementPc(memory);
      ok := InterpreterTailCall(h, mips, memory, turns - 1);
    }
  }

  /** interpreter_tail_call, and the end of every handler. */
  method InterpreterTailCall(h: Host, mips: Mips, memory: PagedMemory, turns: nat) returns (ok: bool)
    requires mips.Ready(memory)
    modifies mips, mips.r, memory.Repr
    ensures ok == Chain(h, old(mips.State(memory)), turns).Some?
    ensures ok ==> mips.Ready(memory) && fresh(memory.Repr - old(memory.Repr))
    ensures ok ==> mips.State(memory) == Chain(h, old(mips.State(memory)), turns).value
    decreases turns, 1
  {
    hide Handler, Fetch, TableDecode, mips.Ready, mips.State;
    var fetched, cir := mips.FetchWord(memory);
    var op := TableDecode(cir);
    ok := fetched && op.Some?;
    if ok {
      ok := CallHandler(h, op.value, cir, mips, memory, turns);
    }
  }
}
