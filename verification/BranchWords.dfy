/**
 * instructions.h, the words that branch and jump: outcome, next address and link, said of the
 * numbers in their fields, and where two turns of the switch engine lead.
 */
module BranchWords {
  import opened Words
  import opened Machines
  import opened Instructions
  import opened Switch
  import opened Unaligned
  import opened Blocks
  import opened DecodeBlocks
  import opened Encoding

  // ----- branches and jumps -----

  /** The conditional branches: their operations, and the rt codes of operation 1. */
  predicate Conditional(op: nat, rt: nat) {
    4 <= op < 8 || (op == 1 && (rt == 0 || rt == 1 || rt == 0x10 || rt == 0x11))
  }

  /** beq, bne, blez and bgtz; bltz and bgez, with and without a link. */
  predicate Condition(op: nat, rt: nat, a: Word, b: Word) {
    if op == 4 then a == b
    else if op == 5 then a != b
    else if op == 6 then Signed(a) <= 0
    else if op == 7 then Signed(a) > 0
    else if rt % 0x10 == 0 then Signed(a) < 0
    else Signed(a) >= 0
  }

  /** r is m after a branch: the outcome, the address to come after the slot, and perhaps a link. */
  predicate Branches(m: Machine, r: Option<Machine>, link: bool, taken: bool, next: int) {
    && 0 <= next < 0x1_0000_0000
    && r == Some(m.(branched := taken,
                    r := (if link then m.r[31 := Plus(m.r[34], 8)] else m.r)[36 := next]))
  }

  /** The operation of a conditional branch. */
  function BranchOp(op: nat, rt: nat): Op
    requires Conditional(op, rt)
  {
    if op == 4 then BEQ else if op == 5 then BNE else if op == 6 then BLEZ else if op == 7 then BGTZ
    else if rt == 0 then BLTZ else if rt == 1 then BGEZ else if rt == 0x10 then BLTZAL else BGEZAL
  }

  lemma BranchOpIs(op: nat, rt: nat, a: Word, b: Word)
    requires Conditional(op, rt)
    ensures (if op == 1 then RegImm(rt) else Primary(op)) == Some(BranchOp(op, rt)) && IsBranch(BranchOp(op, rt))
    ensures Taken(BranchOp(op, rt), a, b) == Condition(op, rt, a, b)
  {
    hide TypeOf, Primary, RegImm, Signed;
    BranchCodes();
    ZeroCodes();
  }

  lemma BranchIs(op: nat, rt: nat, w: Word, m: Machine)
    requires Conditional(op, rt)
    ensures var taken, target := Condition(op, rt, m.r[Rs(w)], m.r[Rt(w)]), BranchTarget(m.r[34], Imm16(w));
            Branches(m, Some(ExecBranch(BranchOp(op, rt), w, m)), op == 1 && rt >= 0x10, taken,
                     if taken then target else Plus(m.r[34], 8))
  {
    hide Rs, Rt, Imm16, BranchTarget, Condition, Taken, TypeOf;
    BranchOpIs(op, rt, m.r[Rs(w)], m.r[Rt(w)]);
  }

  /**
   * The eight conditional branches. When the condition on rs and rt holds the address after the
   * slot is that of the slot plus four times the signed field, else that of the word after the slot.
   */
  lemma ConditionalWord(h: Host, op: nat, rs: nat, rt: nat, imm: nat, s: int, m: Machine)
    requires rs < 32 && rt < 32 && imm < 0x1_0000 && Conditional(op, rt) && SignedHalf(imm, s)
    ensures var taken := Condition(op, rt, m.r[rs], m.r[rt]);
            Branches(m, ExecWord(h, IWord(op, rs, rt, imm), m), op == 1 && rt >= 0x10, taken,
                     Plus(m.r[34], if taken then 4 + 4 * s else 8))
  {
    hide Exec, ExecWord, IWord, Rs, Rt, Rd, Imm16, Primary, RegImm, Condition, ExecBranch, SignExtend16, SignedHalf;
    hide Taken, BranchOp, IsBranch;
    SignIs(imm, s);
    var w := IWord(op, rs, rt, imm);
    IExec(h, op, rs, rt, imm, m);
    BranchOpIs(op, rt, m.r[rs], m.r[rt]);
    BranchIsBranch(h, BranchOp(op, rt), w, m);
    BranchIs(op, rt, w, m);
  }

  lemma JExec(h: Host, o: nat, target: nat, op: Op, m: Machine)
    requires 1 < o < 64 && target < 0x400_0000 && Primary(o) == Some(op) && IsBranch(op)
    ensures var w := JWord(o, target);
            Imm26(w) == target && ExecWord(h, w, m) == Some(ExecBranch(op, w, m))
  {
    hide Exec, ExecBranch, Primary, Secondary, RegImm, JWord, OpField, Imm26, IsBranch;
    JFields(o, target);
    BranchIsBranch(h, op, JWord(o, target), m);
  }

  lemma JumpIs(w: Word, m: Machine)
    ensures var next := JumpTarget(m.r[34], Imm26(w));
            && Branches(m, Some(ExecBranch(J, w, m)), false, true, next)
            && Branches(m, Some(ExecBranch(JAL, w, m)), true, true, next)
  {
    hide Rs, Rt, Rd, Imm26, JumpTarget;
  }

  /** j and jal: the target is the field, times four, in the 256 MB region of the PC. */
  lemma JumpWords(h: Host, target: nat, m: Machine)
    requires target < 0x400_0000
    ensures var next := m.r[34] / 0x1000_0000 * 0x1000_0000 + 4 * target;
            && Branches(m, ExecWord(h, JWord(2, target), m), false, true, next)
            && Branches(m, ExecWord(h, JWord(3, target), m), true, true, next)
  {
    hide ExecWord, JWord, Imm26, ExecBranch, JumpTarget, Primary, TypeOf;
    JumpCodes();
    JExec(h, 2, target, J, m);
    JExec(h, 3, target, JAL, m);
    JumpIs(JWord(2, target), m);
    JumpIs(JWord(3, target), m);
    JumpTargetParts(m.r[34], target);
  }

  /** jr and jalr: the next address is what rs held; jalr leaves its link in rd. */
  lemma RegisterJumps(h: Host, rs: nat, rt: nat, rd: nat, sh: nat, m: Machine)
    requires Fields(rs, rt, rd, sh)
    ensures Branches(m, ExecWord(h, RWord(rs, rt, rd, sh, 8), m), false, true, m.r[rs])
    ensures ExecWord(h, RWord(rs, rt, rd, sh, 9), m) ==
            Some(m.(branched := true, r := m.r[rd := Plus(m.r[34], 8)][36 := m.r[rs]]))
  {
    hide Exec, ExecWord, RWord, Rs, Rt, Rd, Sh, Secondary, TypeOf;
    SystemCodes();
    var jr, jalr := RWord(rs, rt, rd, sh, 8), RWord(rs, rt, rd, sh, 9);
    RExec(h, rs, rt, rd, sh, 8, m);
    RExec(h, rs, rt, rd, sh, 9, m);
    BranchIsBranch(h, JR, jr, m);
    BranchIsBranch(h, JALR, jalr, m);
  }

  lemma BranchesKeep(m: Machine, r: Option<Machine>, link: bool, taken: bool, next: int)
    requires Branches(m, r, link, taken, next)
    ensures r.Some?
    ensures var x := r.value;
            x.r[PC] == m.r[PC] && x.r[NPC] == m.r[NPC] && x.r[NNPC] == next && x.halted == m.halted
  {}

  lemma BranchStepIs(h: Host, w: Word, m: Machine, link: bool, taken: bool, next: int)
    requires Straight(m) && Fetch(m.mem, m.r[PC]) == Some(w) && Branches(m, ExecWord(h, w, m), link, taken, next)
    ensures Step(h, m).Some?
    ensures var x := Step(h, m).value;
            x.r[PC] == Plus(m.r[PC], 4) && x.r[NPC] == next && x.r[NNPC] == Plus(next, 4) && x.halted == m.halted
  {
    hide Fetch, ExecWord, Branches;
    BranchesKeep(m, ExecWord(h, w, m), link, taken, next);
  }

  /** Any turn but a branch goes on to NPC. */
  lemma SlotStepIs(h: Host, m: Machine, next: Word)
    requires Step(h, m).Some? && (Current(m).Some? ==> !IsBranch(Current(m).value))
    requires m.r[NPC] == next && m.r[NNPC] == Plus(next, 4)
    ensures Straight(Step(h, m).value) && Step(h, m).value.r[PC] == next
  {
    hide Step, Fetch, Current, IsBranch;
    StepCounters(h, m);
    PlusPlus(next, 4, 4);
  }

  /**
   * Two turns of the switch engine at a conditional branch: the word after it runs, and then the
   * engine stands at the branch target or behind that word, its counters straight.
   */
  lemma ConditionalGoes(h: Host, op: nat, rs: nat, rt: nat, imm: nat, s: int, m: Machine)
    requires rs < 32 && rt < 32 && imm < 0x1_0000 && Conditional(op, rt) && SignedHalf(imm, s)
    requires Straight(m) && !m.halted && Fetch(m.mem, m.r[PC]) == Some(IWord(op, rs, rt, imm))
    ensures Run(h, m, 1).Some? && Run(h, m, 1).value.r[PC] == Plus(m.r[PC], 4)
    ensures var slot := Run(h, m, 1).value;
            Run(h, m, 2).Some? && (Current(slot).Some? ==> !IsBranch(Current(slot).value)) ==>
              var x := Run(h, m, 2).value;
              && Straight(x)
              && x.r[PC] == Plus(m.r[PC], if Condition(op, rt, m.r[rs], m.r[rt]) then 4 + 4 * s else 8)
  {
    hide ExecWord, Step, Fetch, Current, IsBranch, Condition, IWord, Branches, Straight, SignedHalf;
    var taken := Condition(op, rt, m.r[rs], m.r[rt]);
    var next := Plus(m.r[34], if taken then 4 + 4 * s else 8);
    ConditionalWord(h, op, rs, rt, imm, s, m);
    BranchStepIs(h, IWord(op, rs, rt, imm), m, op == 1 && rt >= 0x10, taken, next);
    RunOne(h, m);
    var slot := Step(h, m).value;
    RunAppend(h, m, 1, 1);
    RunOne(h, slot);
    if Step(h, slot).Some? && (Current(slot).Some? ==> !IsBranch(Current(slot).value)) {
      SlotStepIs(h, slot, next);
    }
  }

  // ----- which words are branches -----

  lemma FunctionBranches(fn: nat)
    ensures Secondary(fn).Some? && IsBranch(Secondary(fn).value) <==> fn == 8 || fn == 9
  {}

  lemma OperationBranches(op: nat)
    ensures Primary(op).Some? && IsBranch(Primary(op).value) <==> 2 <= op < 8
  {}

  lemma ZeroBranches(rt: nat)
    ensures RegImm(rt).Some? && IsBranch(RegImm(rt).value) <==> rt == 0 || rt == 1 || rt == 0x10 || rt == 0x11
  {}

  /** The scan of a block stops behind jr, jalr, the words of operations 2 to 7, and four of operation 1. */
  lemma BranchesExactly(w: Word)
    ensures var op, fn, rt := w / 0x400_0000, w % 0x40, w / 0x1_0000 % 0x20;
            BranchWord(w) <==>
              || (op == 0 && (fn == 8 || fn == 9)) || 2 <= op < 8
              || (op == 1 && (rt == 0 || rt == 1 || rt == 0x10 || rt == 0x11))
  {
    hide Primary, Secondary, RegImm, IsBranch;
    FunctionBranches(Fn(w));
    OperationBranches(OpField(w));
    ZeroBranches(Rt(w));
  }

  /** Only jr and jalr make a block indirect. */
  lemma IndirectExactly(w: Word)
    ensures IndirectWord(w) <==> w / 0x400_0000 == 0 && (w % 0x40 == 8 || w % 0x40 == 9)
  {}
}
