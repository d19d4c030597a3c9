/**
 * Guests on which the engines part: an exit in the middle of a block, an exit before an
 * unmapped word, a jump in the delay slot of a jump, and a block that overwrites itself. One
 * on which they do not, with a jump behind a branch never taken; and one whose mmap2 wraps.
 */
module Guests {
  import opened Words
  import opened Machines
  import opened Instructions
  import opened Switch
  import opened Blocks
  import opened Simulation
  import opened Halting
  import opened Threaded
  import opened Arithmetic
  import opened Unaligned
  import opened Heap

  // ----- programs as memory -----

  /** Byte k of a word, lowest first. */
  function ByteOf(w: Word, k: nat): Byte
    requires k < 4
  {
    w / Bytes8(k) % 0x100
  }

  /** The words laid out from address 0 on. */
  ghost function Program(ws: seq<Word>): Mem
    requires 4 * |ws| <= PAGE
  {
    map b: Word | 0 <= b < 4 * |ws| :: ByteOf(ws[b / 4], b % 4)
  }

  lemma ProgramByte(ws: seq<Word>, i: nat, k: nat)
    requires 4 * |ws| <= PAGE && i < |ws| && k < 4
    ensures 4 * i + k in Program(ws) && Program(ws)[4 * i + k] == ByteOf(ws[i], k)
  {
    var b: Word := 4 * i + k;
    assert b / 4 == i && b % 4 == k;
  }

  lemma BytesOfWord(w: Word)
    ensures LittleEndian(ByteOf(w, 0), ByteOf(w, 1), ByteOf(w, 2), ByteOf(w, 3)) == w
  {
    hide LittleEndian;
    WordBytes(w);
  }

  lemma ProgramWord(ws: seq<Word>, i: nat)
    requires 4 * |ws| <= PAGE && i < |ws|
    ensures Fetch(Program(ws), 4 * i) == Some(ws[i])
  {
    hide LittleEndian, ByteOf, Program;
    ProgramByte(ws, i, 0);
    ProgramByte(ws, i, 1);
    ProgramByte(ws, i, 2);
    ProgramByte(ws, i, 3);
    BytesOfWord(ws[i]);
    assert 4 * i % PAGE == 4 * i;
  }

  lemma ProgramCode(ws: seq<Word>)
    requires 4 * |ws| <= PAGE
    ensures CodeAt(Program(ws), 0, ws)
  {
    hide Fetch, Program;
    forall i | 0 <= i < |ws|
      ensures Fetch(Program(ws), Plus(0, 4 * i)) == Some(ws[i])
    {
      ProgramWord(ws, i);
    }
  }

  lemma CodeWord(mem: Mem, ws: seq<Word>, i: nat)
    requires 4 * |ws| <= PAGE && i < |ws| && CodeAt(mem, 0, ws)
    ensures Fetch(mem, 4 * i) == Some(ws[i])
  {
    hide Fetch;
    assert Fetch(mem, Plus(0, 4 * i)) == Some(ws[i]);
  }

  /** A machine about to start on the words at address 0, with v0 and at preset. */
  ghost function Guest(ws: seq<Word>, v0: Word, at: Word): Machine
    requires 4 * |ws| <= PAGE
  {
    var r: Regs := seq(REG_MAX, i =>
      if i == V0 then v0 else if i == 1 then at else if i == NPC then 4 else if i == NNPC then 8 else 0);
    Machine(r, 0, 0, 0, false, false, Program(ws), 0, 0x4000_0000, [])
  }

  lemma GuestParts(ws: seq<Word>, v0: Word, at: Word)
    requires 4 * |ws| <= PAGE
    ensures var m := Guest(ws, v0, at);
            && Straight(m) && !m.halted && m.r[PC] == m.r[0] == 0 && m.r[V0] == v0 && m.r[1] == at
            && CodeAt(m.mem, 0, ws)
  {
    hide Program, CodeAt;
    ProgramCode(ws);
  }

  // ----- the words used -----

  const EXIT: Word := 0x0000_000C
  const SET_V0: Word := 0x2402_0005
  const JUMP_0: Word := 0x0800_0000
  const JUMP_16: Word := 0x0800_0004
  const BNE_ZERO: Word := 0x1400_0000
  const STORE_AT: Word := 0xAC01_0004
  const NOP: Word := 0

  lemma Decoded()
    ensures Decode(EXIT) == Some(SYSCALL) && Decode(SET_V0) == Some(ADDIU) && Decode(NOP) == Some(SLL)
    ensures Decode(JUMP_0) == Some(J) && Decode(JUMP_16) == Some(J) && Decode(STORE_AT) == Some(SW)
    ensures Decode(BNE_ZERO) == Some(BNE)
  {}

  lemma Kinds()
    ensures PlainWord(EXIT) && PlainWord(SET_V0) && PlainWord(NOP) && PlainWord(STORE_AT)
    ensures BranchWord(JUMP_0) && BranchWord(JUMP_16) && BranchWord(BNE_ZERO)
  {
    hide Decode;
    Decoded();
  }

  lemma ExitWord(h: Host, m: Machine)
    requires m.r[V0] == 4001
    ensures ExecWord(h, EXIT, m) == Some(m.(status := m.r[A0], halted := true))
  {
    hide Decode;
    Decoded();
  }

  lemma SetWord(h: Host, m: Machine)
    requires m.r[0] == 0
    ensures ExecWord(h, SET_V0, m) == Some(Put(m, V0, 5))
  {
    hide Decode;
    Decoded();
  }

  /** A nop leaves v0, the counters and memory. */
  lemma NopWord(h: Host, m: Machine)
    ensures var x := ExecWord(h, NOP, m);
            && x.Some? && x.value.mem == m.mem && x.value.halted == m.halted && x.value.branched == m.branched
            && (forall i | 0 < i < REG_MAX :: x.value.r[i] == m.r[i])
  {
    hide Decode, Shift;
    Decoded();
    assert Rd(NOP) == 0;
  }

  /** A jump sets NNPC and the branched flag, and nothing else. */
  lemma JumpWord(h: Host, m: Machine, w: Word)
    requires (w == JUMP_0 || w == JUMP_16) && m.r[PC] < 0x1000_0000
    ensures ExecWord(h, w, m) == Some(Jump(m, if w == JUMP_0 then 0 else 16))
  {
    hide Decode, JumpTarget;
    Decoded();
    assert Imm26(JUMP_0) == 0 && Imm26(JUMP_16) == 4;
    JumpTargetParts(m.r[PC], Imm26(w));
  }

  // ----- an exit in the middle of a block -----

  const EXIT_BLOCK: seq<Word> := [EXIT, SET_V0, JUMP_0, NOP]

  /** A block of one branch, before its last word, is what decoding there gives. */
  lemma DecodesTo(code: Mem, pc: Word, ws: seq<Word>)
    requires SimpleBlock(ws) && CodeAt(code, pc, ws)
    ensures DecodesAt(code, pc) && WordsAt(code, pc) == ws
  {
    hide Decode, Fetch, CodeAt, PlainWord, BranchWord, DecodesAt, WordsAt;
    assert BlockShape(ws, false) by {
      forall i | 0 <= i < |ws| && i != |ws| - 2
        ensures !BranchWord(ws[i])
      {
        NotBoth(ws[i]);
      }
    }
    DecodesExactly(code, pc);
  }

  lemma ExitRun(h: Host, m: Machine, k: nat)
    requires !m.halted && m.r[V0] == 4001 && Fetch(m.mem, m.r[PC]) == Some(EXIT) && k > 0
    ensures Run(h, m, k) == Some(Increment(m.(status := m.r[A0], halted := true)))
  {
    hide Fetch, ExecWord;
    ExitWord(h, m);
    var s := Increment(m.(status := m.r[A0], halted := true));
    assert Step(h, m) == Some(s) && s.halted;
    TurnsHalted(h, s, k - 1);
  }

  /** The first word of several. */
  lemma RunsThrough(h: Host, ws: seq<Word>, m: Machine, x: Machine)
    requires ws != [] && ExecWord(h, ws[0], m) == Some(x)
    ensures RunWords(h, ws, m) == RunWords(h, ws[1..], x)
    ensures |ws| == 1 ==> RunWords(h, ws, m) == Some(x)
  {
    hide ExecWord;
  }

  lemma ExitRest(h: Host, p: Machine)
    requires p.r[V0] == 4001 && p.r[0] == 0 && p.r[PC] < 0x1000_0000
    ensures var r := RunWords(h, EXIT_BLOCK, p);
            r.Some? && r.value.halted && r.value.r[V0] == 5
  {
    hide ExecWord, RunWords;
    assert EXIT_BLOCK[1..] == [SET_V0, JUMP_0, NOP] && [SET_V0, JUMP_0, NOP][1..] == [JUMP_0, NOP]
           && [JUMP_0, NOP][1..] == [NOP];
    ExitWord(h, p);
    var p1 := p.(status := p.r[A0], halted := true);
    SetWord(h, p1);
    var p2 := Put(p1, V0, 5);
    JumpWord(h, p2, JUMP_0);
    var p3 := Jump(p2, 0);
    NopWord(h, p3);
    var p4 := ExecWord(h, NOP, p3).value;
    RunsThrough(h, [NOP], p3, p4);
    RunsThrough(h, [JUMP_0, NOP], p2, p3);
    RunsThrough(h, [SET_V0, JUMP_0, NOP], p1, p2);
    RunsThrough(h, EXIT_BLOCK, p, p1);
  }

  lemma PinnedParts(m: Machine, size: nat)
    requires m.r[PC] == 0 && 3 <= size < 100
    ensures var p := PinAtBranch(m, size);
            && p.r[PC] == 4 * (size - 3) && p.r[V0] == m.r[V0] && p.r[0] == m.r[0] && p.r[1] == m.r[1] && p.mem == m.mem
  {}

  lemma ExitStable(h: Host, m: Machine)
    requires !m.halted && m.r[V0] == 4001 && m.r[PC] == 0 && CodeAt(m.mem, 0, EXIT_BLOCK)
    ensures Fetch(m.mem, m.r[PC]) == Some(EXIT) && CodeStable(h, m.mem, m, 4)
  {
    hide Fetch, Run;
    assert Fetch(m.mem, Plus(0, 4 * 0)) == Some(EXIT_BLOCK[0]);
    forall k: nat | k <= 4
      ensures Intact(m.mem, Run(h, m, k))
    {
      if k == 0 {
        RunNone(h, m);
      } else {
        ExitRun(h, m, k);
      }
    }
  }

  /** One block of a guest at address 0, for both engines. */
  lemma OneBlock(h: Host, m: Machine, ws: seq<Word>)
    requires !m.halted && m.r[PC] == 0 && DecodesAt(m.mem, 0) && WordsAt(m.mem, 0) == ws && Run(h, m, |ws|).Some?
    ensures TotalTurns(h, m.mem, m, 1) == |ws|
    ensures RunBlocks(h, m.mem, m, 1) == RunBlock(h, ws, m)
    ensures EarlyFall(h, m, |ws|) && CodeStable(h, m.mem, m, |ws|) ==> WellBehaved(h, m.mem, m, 1)
  {
    hide Run, RunBlock, WordsAt, DecodesAt, EarlyFall, CodeStable;
    var s' := AfterBlock(h, m.mem, m).value;
    assert TotalTurns(h, m.mem, s', 0) == 0;
    if RunBlock(h, ws, m).Some? {
      assert RunBlocks(h, m.mem, RunBlock(h, ws, m).value, 0) == RunBlock(h, ws, m);
    }
  }

  lemma ExitGuest(h: Host)
    ensures var m := Guest(EXIT_BLOCK, 4001, 0);
            && Straight(m) && !m.halted && m.r[PC] == m.r[0] == 0 && m.r[V0] == 4001
            && DecodesAt(m.mem, 0) && WordsAt(m.mem, 0) == EXIT_BLOCK && EarlyFall(h, m, 4)
            && Fetch(m.mem, 0) == Some(EXIT) && CodeStable(h, m.mem, m, 4)
  {
    hide Fetch, Run, Program, Guest, CodeAt, WordsAt, DecodesAt, CodeStable, EarlyFall, PlainWord, BranchWord;
    GuestParts(EXIT_BLOCK, 4001, 0);
    Kinds();
    DecodesTo(Guest(EXIT_BLOCK, 4001, 0).mem, 0, EXIT_BLOCK);
    ExitStable(h, Guest(EXIT_BLOCK, 4001, 0));
    SimpleFalls(h, Guest(EXIT_BLOCK, 4001, 0).mem, EXIT_BLOCK, Guest(EXIT_BLOCK, 4001, 0));
  }

  /**
   * A well-behaved guest that exits at the first word of its block: it ends with 4001 in v0 under
   * the switch engine and with 5 under the blocked engine.
   */
  lemma ExitInsideDiffers(h: Host)
    ensures var m := Guest(EXIT_BLOCK, 4001, 0);
            && Straight(m) && WellBehaved(h, m.mem, m, 1)
            && var n, r := TotalTurns(h, m.mem, m, 1), RunBlocks(h, m.mem, m, 1);
            && Run(h, m, n).Some? && Run(h, m, n).value.halted && Run(h, m, n).value.r[V0] == 4001
            && r.Some? && r.value.halted && r.value.r[V0] == 5
  {
    hide Fetch, Run, RunWords, Guest, PinAtBranch, WordsAt, DecodesAt, WellBehaved, TotalTurns, RunBlocks, CodeStable;
    hide EarlyFall;
    var m := Guest(EXIT_BLOCK, 4001, 0);
    ExitGuest(h);
    ExitRun(h, m, 4);
    OneBlock(h, m, EXIT_BLOCK);
    PinnedParts(m, 5);
    ExitRest(h, PinAtBranch(m, 5));
  }

  // ----- an exit before a word that cannot be dispatched -----

  /** The tail-call engine dies after an exit when the word that follows is not mapped or not defined. */
  lemma ExitThenDies(h: Host, m: Machine, n: nat)
    requires !m.halted && m.r[V0] == 4001 && Fetch(m.mem, m.r[PC]) == Some(EXIT) && n > 0
    requires Fetch(m.mem, m.r[NPC]).None? || Decode(Fetch(m.mem, m.r[NPC]).value).None?
    ensures Run(h, m, n).Some? && Run(h, m, n).value.halted && Run(h, m, n).value.status == m.r[A0]
    ensures Chain(h, m, n).None?
  {
    hide Fetch, ExecWord, Decode, Chain, Run;
    ExitRun(h, m, n);
    ChainIsRun(h, m, n);
    assert Run(h, m, n).value.r[PC] == m.r[NPC];
  }

  /** The exit is the last word of the only page. */
  ghost function LastWordGuest(): Machine {
    var r: Regs := seq(REG_MAX, i =>
      if i == V0 then 4001
      else if i == PC then 0xFFC else if i == NPC then 0x1000 else if i == NNPC then 0x1004 else 0);
    var page: Mem := map b: Word | 0 <= b < PAGE && Page(b) == 0 :: if b == 0xFFC then EXIT else 0;
    Machine(r, 0, 0, 0, false, false, page, 0, 0x4000_0000, [])
  }

  lemma LastWordExits(h: Host)
    ensures var m := LastWordGuest();
            && Straight(m) && WholePages(m.mem)
            && Run(h, m, 1).Some? && Run(h, m, 1).value.halted && Chain(h, m, 1).None?
  {
    hide Run, Chain, Decode;
    var m := LastWordGuest();
    assert Raw(m.mem, 0xFFC, 4) && Load32(m.mem, 0xFFC) == EXIT;
    assert 0x1000 !in m.mem;
    ExitThenDies(h, m, 1);
  }

  // ----- an mmap2 that empties its region -----

  /** About to call mmap2 for all from 0x40000000 to the end of the address space, its stack in the only page. */
  ghost function WrapGuest(): Machine {
    var r: Regs := seq(REG_MAX, i =>
      if i == V0 then 4210 else if i == A1 then 0xC000_0000 else if i == NPC then 4 else if i == NNPC then 8 else 0);
    var page: Mem := map b: Word | 0 <= b < PAGE && Page(b) == 0 :: if b == 0 then EXIT else 0;
    Machine(r, 0, 0, 0, false, false, page, 0, MMAP_START, [])
  }

  /** The range check lets the range through, since it ends at 2^32, which is 0. */
  lemma WrapMaps(m: Machine)
    requires m.r[A1] == 0xC000_0000 && m.mmapEnd == MMAP_START
    requires Raw(m.mem, Plus(m.r[SP], 16), 4) && Raw(m.mem, Plus(m.r[SP], 20), 4)
    ensures Mmap2(m).Some? && RoundUp(m.r[A1]) == 0xC000_0000
  {
    hide Raw, Allocate, Covers, Fill;
    AllocateMaps(m.mem, MMAP_START, 0xC000_0000);
  }

  lemma WrapParts()
    ensures var m := WrapGuest();
            && HeapOk(m) && Straight(m) && WholePages(m.mem) && Fetch(m.mem, m.r[PC]) == Some(EXIT)
            && m.r[V0] == 4210 && m.r[A1] == 0xC000_0000 && m.mmapEnd == MMAP_START
            && Raw(m.mem, Plus(m.r[SP], 16), 4) && Raw(m.mem, Plus(m.r[SP], 20), 4)
  {
    var mem := WrapGuest().mem;
    assert Raw(mem, 0, 4) && Load32(mem, 0) == EXIT;
  }

  /** mmap2 returns 0x40000000, lives, and leaves the end of its region at 0. */
  lemma RegionFallsBack(h: Host)
    ensures var m := WrapGuest();
            && HeapOk(m) && Straight(m) && WholePages(m.mem) && Calls(m, 4210) && Step(h, m).Some?
            && Step(h, m).value.r[V0] == 0x4000_0000 && Step(h, m).value.mmapEnd == 0
  {
    hide Decode, Mmap2, RoundUp, Syscall, WrapGuest, Fetch, WholePages, Raw, Increment;
    Decoded();
    WrapParts();
    var m := WrapGuest();
    WrapMaps(m);
    CallIs(h, m);
    StepMmap2(h, m);
  }

  // ----- a branch in a delay slot -----

  const SLOT_BLOCK: seq<Word> := [JUMP_16, JUMP_0, NOP]
  const SLOT_CODE: seq<Word> := SLOT_BLOCK + [NOP, SET_V0]

  lemma StepWord(h: Host, m: Machine, w: Word, x: Machine)
    requires Fetch(m.mem, m.r[PC]) == Some(w) && ExecWord(h, w, m) == Some(x)
    ensures Step(h, m) == Some(Increment(x))
  {
    hide Fetch, ExecWord;
  }

  lemma ThreeTurns(h: Host, s0: Machine, s1: Machine, s2: Machine, s3: Machine)
    requires Step(h, s0) == Some(s1) && Step(h, s1) == Some(s2) && Step(h, s2) == Some(s3)
    requires !s0.halted && !s1.halted && !s2.halted
    ensures Run(h, s0, 1) == Some(s1) && Run(h, s0, 2) == Some(s2) && Run(h, s0, 3) == Some(s3)
  {
    hide Step;
    RunOne(h, s0);
    RunFirst(h, s0, 2);
    RunOne(h, s1);
    RunFirst(h, s0, 3);
    RunFirst(h, s1, 2);
    RunOne(h, s2);
  }

  /** Three turns that leave memory as it is. */
  lemma StableTurns(h: Host, m: Machine)
    requires forall k | 1 <= k <= 3 :: Run(h, m, k).Some? && Run(h, m, k).value.mem == m.mem
    ensures CodeStable(h, m.mem, m, 3)
  {
    hide Run;
    RunNone(h, m);
  }

  /** The switch engine runs the word at the first jump's target, and then the second jump's. */
  lemma SlotRun(h: Host)
    ensures var s := Run(h, Guest(SLOT_CODE, 0, 0), 3);
            s.Some? && s.value.r[V0] == 5 && s.value.r[PC] == 0 && !s.value.halted
    ensures CodeStable(h, Guest(SLOT_CODE, 0, 0).mem, Guest(SLOT_CODE, 0, 0), 3)
  {
    hide Fetch, ExecWord, Program, CodeAt;
    var m := Guest(SLOT_CODE, 0, 0);
    ProgramWord(SLOT_CODE, 0);
    ProgramWord(SLOT_CODE, 1);
    ProgramWord(SLOT_CODE, 4);
    JumpWord(h, m, JUMP_16);
    StepWord(h, m, JUMP_16, Jump(m, 16));
    var s1 := Increment(Jump(m, 16));
    JumpWord(h, s1, JUMP_0);
    StepWord(h, s1, JUMP_0, Jump(s1, 0));
    var s2 := Increment(Jump(s1, 0));
    SetWord(h, s2);
    StepWord(h, s2, SET_V0, Put(s2, V0, 5));
    ThreeTurns(h, m, s1, s2, Increment(Put(s2, V0, 5)));
    StableTurns(h, m);
  }

  /** The block runs both jumps and the word after them. */
  lemma SlotWords(h: Host, p: Machine)
    requires p.r[PC] < 0x1000_0000
    ensures var r := RunWords(h, SLOT_BLOCK, p);
            r.Some? && r.value.r[V0] == p.r[V0] && r.value.r[NNPC] == 0 && r.value.halted == p.halted
  {
    hide ExecWord, RunWords;
    assert SLOT_BLOCK[1..] == [JUMP_0, NOP] && [JUMP_0, NOP][1..] == [NOP];
    JumpWord(h, p, JUMP_16);
    var p1 := Jump(p, 16);
    JumpWord(h, p1, JUMP_0);
    var p2 := Jump(p1, 0);
    NopWord(h, p2);
    RunsThrough(h, SLOT_BLOCK, p, p1);
    RunsThrough(h, [JUMP_0, NOP], p1, p2);
    RunsThrough(h, [NOP], p2, ExecWord(h, NOP, p2).value);
  }

  lemma SlotDecodes()
    ensures var m := Guest(SLOT_CODE, 0, 0); DecodesAt(m.mem, 0) && WordsAt(m.mem, 0) == SLOT_BLOCK
  {
    hide Decode, Fetch, Program, DecodesAt, WordsAt, PlainWord, BranchWord;
    Kinds();
    ProgramCode(SLOT_CODE);
    var mem := Program(SLOT_CODE);
    assert forall i | 0 <= i < 3 :: SLOT_CODE[i] == SLOT_BLOCK[i];
    assert CodeAt(mem, 0, SLOT_BLOCK);
    assert BlockShape(SLOT_BLOCK, false) by {
      NotBoth(JUMP_16);
      NotBoth(JUMP_0);
    }
    DecodesExactly(mem, 0);
  }

  lemma SlotLeaves(h: Host)
    ensures !EarlyFall(h, Guest(SLOT_CODE, 0, 0), 3)
  {
    hide Decode, Fetch, Program, ExecBranch, CodeAt;
    var m := Guest(SLOT_CODE, 0, 0);
    Decoded();
    ProgramWord(SLOT_CODE, 0);
    JumpWord(h, m, JUMP_16);
    BranchIsBranch(h, J, JUMP_16, m);
    RunNone(h, m);
    assert !FallsThrough(Run(h, m, 0).value);
  }

  /**
   * A jump in the delay slot of a jump: after the same number of instructions, at the same PC, the engines
   * differ in v0.
   */
  lemma SlotBranchDiffers(h: Host)
    ensures var m := Guest(SLOT_CODE, 0, 0);
            && Straight(m) && DecodesAt(m.mem, m.r[PC])
            && CodeStable(h, m.mem, m, |WordsAt(m.mem, m.r[PC])|) && !EarlyFall(h, m, |WordsAt(m.mem, m.r[PC])|)
            && var s, r := Run(h, m, TotalTurns(h, m.mem, m, 1)), RunBlocks(h, m.mem, m, 1);
            && s.Some? && s.value.r[PC] == 0 && s.value.r[V0] == 5
            && r.Some? && r.value.r[PC] == 0 && r.value.r[V0] == 0
  {
    hide Decode, Run, RunWords, Guest, PinAtBranch, WordsAt, DecodesAt, PlainWord, BranchWord, TotalTurns, RunBlocks;
    hide CodeStable, EarlyFall;
    var m := Guest(SLOT_CODE, 0, 0);
    GuestParts(SLOT_CODE, 0, 0);
    SlotDecodes();
    SlotLeaves(h);
    SlotRun(h);
    OneBlock(h, m, SLOT_BLOCK);
    PinnedParts(m, 4);
    SlotWords(h, PinAtBranch(m, 4));
  }

  // ----- a branch in a delay slot that does no harm -----

  const FALL_BLOCK: seq<Word> := [BNE_ZERO, JUMP_0, NOP]

  lemma FallWord(h: Host, m: Machine)
    ensures ExecWord(h, BNE_ZERO, m) == Some(Branch(m, BNE_ZERO, false))
  {
    hide Decode;
    Decoded();
    assert Rs(BNE_ZERO) == Rt(BNE_ZERO);
  }

  /** The branch before the last falls through. */
  lemma FallFirst(h: Host, m: Machine)
    requires Fetch(m.mem, m.r[PC]) == Some(BNE_ZERO)
    ensures EarlyFall(h, m, 3)
  {
    hide Decode, Fetch, Imm16, BranchTarget, Plus;
    Decoded();
    assert Rs(BNE_ZERO) == Rt(BNE_ZERO);
    NotTakenFalls(m);
    RunNone(h, m);
  }

  lemma FallFetches(mem: Mem)
    requires CodeAt(mem, 0, FALL_BLOCK)
    ensures Fetch(mem, 0) == Some(BNE_ZERO) && Fetch(mem, 4) == Some(JUMP_0) && Fetch(mem, 8) == Some(NOP)
  {
    hide Fetch, CodeAt, Plus;
    CodeWord(mem, FALL_BLOCK, 0);
    CodeWord(mem, FALL_BLOCK, 1);
    CodeWord(mem, FALL_BLOCK, 2);
  }

  /** The three turns of the loop: the branch, the jump and the nop. */
  lemma FallTurn(h: Host, m: Machine)
    requires Straight(m) && m.r[PC] == 0 && Fetch(m.mem, 0) == Some(BNE_ZERO)
    ensures Step(h, m).Some?
    ensures var s := Step(h, m).value;
            s.r[PC] == 4 && s.r[NPC] == 8 && s.mem == m.mem && s.halted == m.halted
  {
    hide Fetch, ExecWord, BranchTarget, Imm16;
    FallWord(h, m);
    StepWord(h, m, BNE_ZERO, Branch(m, BNE_ZERO, false));
  }

  lemma JumpTurn(h: Host, m: Machine)
    requires m.r[PC] == 4 && m.r[NPC] == 8 && Fetch(m.mem, 4) == Some(JUMP_0)
    ensures Step(h, m).Some?
    ensures var s := Step(h, m).value;
            s.r[PC] == 8 && s.r[NPC] == 0 && s.r[NNPC] == 4 && s.mem == m.mem && s.halted == m.halted
  {
    hide Fetch, ExecWord;
    JumpWord(h, m, JUMP_0);
    StepWord(h, m, JUMP_0, Jump(m, 0));
  }

  lemma NopTurn(h: Host, m: Machine)
    requires m.r[PC] == 8 && m.r[NPC] == 0 && m.r[NNPC] == 4 && Fetch(m.mem, 8) == Some(NOP)
    ensures Step(h, m).Some?
    ensures var s := Step(h, m).value;
            Straight(s) && s.r[PC] == 0 && s.mem == m.mem && s.halted == m.halted
  {
    hide Fetch, ExecWord;
    NopWord(h, m);
    StepWord(h, m, NOP, ExecWord(h, NOP, m).value);
  }

  lemma FallTurns(h: Host, m: Machine)
    requires Straight(m) && m.r[PC] == 0 && !m.halted && CodeAt(m.mem, 0, FALL_BLOCK)
    ensures EarlyFall(h, m, 3) && CodeStable(h, m.mem, m, 3) && Run(h, m, 3).Some?
    ensures var s := Run(h, m, 3).value; Straight(s) && s.r[PC] == 0 && !s.halted && s.mem == m.mem
  {
    hide Fetch, Step, EarlyFall, CodeStable, Run, CodeAt, Straight, Increment, Branch;
    FallFetches(m.mem);
    FallFirst(h, m);
    FallTurn(h, m);
    var s1 := Step(h, m).value;
    JumpTurn(h, s1);
    var s2 := Step(h, s1).value;
    NopTurn(h, s2);
    ThreeTurns(h, m, s1, s2, Step(h, s2).value);
    StableTurns(h, m);
  }

  lemma FallDecodes(mem: Mem)
    requires CodeAt(mem, 0, FALL_BLOCK)
    ensures DecodesAt(mem, 0) && WordsAt(mem, 0) == FALL_BLOCK
  {
    hide Decode, CodeAt, DecodesAt, WordsAt, PlainWord, BranchWord;
    Kinds();
    assert BlockShape(FALL_BLOCK, false) by {
      NotBoth(BNE_ZERO);
      NotBoth(JUMP_0);
    }
    DecodesExactly(mem, 0);
  }

  /** A loop with a jump in the delay slot of a branch that is never taken is well-behaved for ever. */
  lemma {:induction false} SlotBranchAgrees(h: Host, m: Machine, b: nat)
    requires Straight(m) && m.r[PC] == 0 && !m.halted && CodeAt(m.mem, 0, FALL_BLOCK)
    ensures BranchWord(FALL_BLOCK[0]) && BranchWord(FALL_BLOCK[1]) && WellBehaved(h, m.mem, m, b)
    decreases b
  {
    hide Decode, CodeAt, DecodesAt, WordsAt, BranchWord, EarlyFall, CodeStable, Run, Straight;
    Kinds();
    FallTurns(h, m);
    FallDecodes(m.mem);
    if b == 0 {
    } else {
      SlotBranchAgrees(h, Run(h, m, 3).value, b - 1);
    }
  }

  // ----- a block that overwrites itself -----

  const STORE_BLOCK: seq<Word> := [STORE_AT, NOP, JUMP_0, NOP]

  lemma StoreFields(m: Machine)
    requires m.r[0] == 0
    ensures EffectiveAddress(STORE_AT, m) == 4 && Rt(STORE_AT) == 1
  {
    assert Rs(STORE_AT) == 0 && Imm16(STORE_AT) == 4;
  }

  /** Where the store of the block leads. */
  lemma StoreAtWord(h: Host, m: Machine)
    requires m.r[0] == 0 && Raw(m.mem, 4, 4)
    ensures ExecWord(h, STORE_AT, m) == Some(m.(mem := Store32(m.mem, 4, m.r[1])))
  {
    hide Decode, Store32, Raw, EffectiveAddress, Rs, Rt, Rd, Sh, Imm16;
    Decoded();
    StoreFields(m);
  }

  /** After the store the second word is the one in at, and the others are as before. */
  lemma StoredCode(mem: Mem, v: Word)
    requires CodeAt(mem, 0, STORE_BLOCK)
    ensures Raw(mem, 4, 4)
    ensures var x := Store32(mem, 4, v);
            Fetch(x, 4) == Some(v) && Fetch(x, 8) == Some(JUMP_0) && Fetch(x, 12) == Some(NOP)
  {
    hide LittleEndian, CodeAt;
    CodeWord(mem, STORE_BLOCK, 1);
    CodeWord(mem, STORE_BLOCK, 2);
    CodeWord(mem, STORE_BLOCK, 3);
    WordBytes(v);
  }

  /** Two plain words before the branch, as executed, and a store that changes the code. */
  lemma StoreShape(h: Host, m: Machine, s1: Machine)
    requires !m.halted && Fetch(m.mem, m.r[PC]) == Some(STORE_AT) && Step(h, m) == Some(s1)
    requires !s1.halted && Fetch(s1.mem, s1.r[PC]) == Some(SET_V0) && Fetch(s1.mem, 4) != Fetch(m.mem, 4)
    requires Fetch(m.mem, 4).Some?
    ensures EarlyFall(h, m, 4) && !CodeStable(h, m.mem, m, 4)
  {
    hide Fetch, Decode, Step, IsBranch, Within;
    Kinds();
    RunNone(h, m);
    RunOne(h, m);
    if Within(m.mem, s1.mem) {
      FetchWithin(m.mem, s1.mem, 4);
    }
    assert !Intact(m.mem, Run(h, m, 1));
  }

  lemma StoreRun(h: Host)
    ensures var s := Run(h, Guest(STORE_BLOCK, 0, SET_V0), 4);
            s.Some? && s.value.r[V0] == 5 && s.value.r[PC] == 0 && !s.value.halted
    ensures var m := Guest(STORE_BLOCK, 0, SET_V0); EarlyFall(h, m, 4) && !CodeStable(h, m.mem, m, 4)
  {
    hide Fetch, ExecWord, Program, CodeAt, Store32, Raw, EarlyFall, CodeStable;
    var m := Guest(STORE_BLOCK, 0, SET_V0);
    ProgramWord(STORE_BLOCK, 0);
    GuestParts(STORE_BLOCK, 0, SET_V0);
    StoredCode(m.mem, SET_V0);
    StoreAtWord(h, m);
    var x := m.(mem := Store32(m.mem, 4, SET_V0));
    StepWord(h, m, STORE_AT, x);
    var s1 := Increment(x);
    CodeWord(m.mem, STORE_BLOCK, 1);
    StoreShape(h, m, s1);
    SetWord(h, s1);
    StepWord(h, s1, SET_V0, Put(s1, V0, 5));
    var s2 := Increment(Put(s1, V0, 5));
    JumpWord(h, s2, JUMP_0);
    StepWord(h, s2, JUMP_0, Jump(s2, 0));
    var s3 := Increment(Jump(s2, 0));
    NopWord(h, s3);
    StepWord(h, s3, NOP, ExecWord(h, NOP, s3).value);
    RunFirst(h, m, 4);
    ThreeTurns(h, s1, s2, s3, Increment(ExecWord(h, NOP, s3).value));
  }

  lemma StoreWords(h: Host, p: Machine)
    requires p.r[PC] < 0x1000_0000 && p.r[0] == 0 && Raw(p.mem, 4, 4)
    ensures var r := RunWords(h, STORE_BLOCK, p);
            r.Some? && r.value.r[V0] == p.r[V0] && r.value.r[NNPC] == 0
  {
    hide ExecWord, RunWords, Store32, Raw;
    assert STORE_BLOCK[1..] == [NOP, JUMP_0, NOP] && [NOP, JUMP_0, NOP][1..] == [JUMP_0, NOP]
           && [JUMP_0, NOP][1..] == [NOP];
    StoreAtWord(h, p);
    var p1 := p.(mem := Store32(p.mem, 4, p.r[1]));
    NopWord(h, p1);
    var p2 := ExecWord(h, NOP, p1).value;
    JumpWord(h, p2, JUMP_0);
    var p3 := Jump(p2, 0);
    NopWord(h, p3);
    RunsThrough(h, STORE_BLOCK, p, p1);
    RunsThrough(h, [NOP, JUMP_0, NOP], p1, p2);
    RunsThrough(h, [JUMP_0, NOP], p2, p3);
    RunsThrough(h, [NOP], p3, ExecWord(h, NOP, p3).value);
  }

  /** A block that writes over its own second word: the switch engine runs the new word, the blocked engine the old. */
  lemma OverwrittenDiffers(h: Host)
    ensures var m := Guest(STORE_BLOCK, 0, SET_V0);
            && Straight(m) && DecodesAt(m.mem, m.r[PC])
            && EarlyFall(h, m, |WordsAt(m.mem, m.r[PC])|) && !CodeStable(h, m.mem, m, |WordsAt(m.mem, m.r[PC])|)
            && var s, r := Run(h, m, TotalTurns(h, m.mem, m, 1)), RunBlocks(h, m.mem, m, 1);
            && s.Some? && s.value.r[PC] == 0 && s.value.r[V0] == 5
            && r.Some? && r.value.r[PC] == 0 && r.value.r[V0] == 0
  {
    hide Decode, Run, RunWords, Guest, PinAtBranch, WordsAt, DecodesAt, PlainWord, BranchWord, TotalTurns, RunBlocks;
    hide CodeAt, Raw;
    hide EarlyFall, CodeStable;
    var m := Guest(STORE_BLOCK, 0, SET_V0);
    GuestParts(STORE_BLOCK, 0, SET_V0);
    Kinds();
    DecodesTo(m.mem, 0, STORE_BLOCK);
    StoredCode(m.mem, 0);
    StoreRun(h);
    OneBlock(h, m, STORE_BLOCK);
    PinnedParts(m, 5);
    StoreWords(h, PinAtBranch(m, 5));
  }
}
