/**
 * interpreter_blocked without its cache: run the block at PC with one fixed program
 * counter, then jump to NNPC. The switch engine simulates it block by block.
 */
module Simulation {
  import opened Words
  import opened Machines
  import opened Instructions
  import opened Switch
  import opened Blocks

  // ----- running a block -----

  /** The bodies of the words in order, the program counters standing still. */
  function RunWords(h: Host, ws: seq<Word>, m: Machine): Option<Machine>
    decreases |ws|
  {
    if ws == [] then Some(m) else
    match ExecWord(h, ws[0], m) case None => None case Some(m') => RunWords(h, ws[1..], m')
  }

  /** How many bodies that calls, the one that dies included. */
  function Bodies(h: Host, ws: seq<Word>, m: Machine): nat
    decreases |ws|
  {
    if ws == [] then 0 else
    match ExecWord(h, ws[0], m) case None => 1 case Some(m') => 1 + Bodies(h, ws[1..], m')
  }

  lemma {:induction false} BodiesCount(h: Host, ws: seq<Word>, m: Machine)
    ensures Bodies(h, ws, m) <= |ws| && (ws != [] ==> Bodies(h, ws, m) > 0)
    ensures RunWords(h, ws, m).Some? ==> Bodies(h, ws, m) == |ws|
    decreases |ws|
  {
    hide ExecWord;
    if ws == [] {
    } else {
      var x := ExecWord(h, ws[0], m);
      if x.Some? {
        BodiesCount(h, ws[1..], x.value);
      }
    }
  }

  /** PC += 4*(size - 3), where size counts the terminator. */
  function PinAtBranch(m: Machine, size: int): Machine {
    Put(m, PC, Plus(m.r[PC], 4 * (size - 3)))
  }

  /** PC = NNPC */
  function Leave(m: Option<Machine>): Option<Machine> {
    match m case None => None case Some(x) => Some(Put(x, PC, x.r[NNPC]))
  }

  function RunBlock(h: Host, ws: seq<Word>, m: Machine): Option<Machine> {
    Leave(RunWords(h, ws, PinAtBranch(m, |ws| + 1)))
  }

  // ----- states that differ in their program counters only -----

  /** s with the program counters of t. */
  function Pinned(s: Machine, t: Machine): Machine {
    Repin(s, t.r[PC], t.r[NPC], t.r[NNPC])
  }

  ghost predicate SameData(s: Machine, t: Machine) {
    t == Pinned(s, t)
  }

  /** What SameData means for the parts of the machine. */
  lemma SameDataParts(s: Machine, t: Machine)
    requires SameData(s, t)
    ensures forall i | 0 <= i < REG_MAX && i != PC && i != NPC && i != NNPC :: t.r[i] == s.r[i]
    ensures t.(r := s.r) == s
  {
    forall i | 0 <= i < REG_MAX && i != PC && i != NPC && i != NNPC
      ensures t.r[i] == s.r[i]
    {
      assert t.r[i] == Pinned(s, t).r[i];
    }
  }

  lemma RepinRepin(m: Machine, a: Word, b: Word, c: Word, pc: Word, npc: Word, nnpc: Word)
    ensures Repin(Repin(m, a, b, c), pc, npc, nnpc) == Repin(m, pc, npc, nnpc)
  {
    assert Repin(Repin(m, a, b, c), pc, npc, nnpc).r == Repin(m, pc, npc, nnpc).r;
  }

  lemma RepinParts(m: Machine, pc: Word, npc: Word, nnpc: Word)
    ensures var x := Repin(m, pc, npc, nnpc);
            x.r[PC] == pc && x.r[NPC] == npc && x.r[NNPC] == nnpc
    ensures SameData(m, Repin(m, pc, npc, nnpc))
  {
    RepinRepin(m, pc, npc, nnpc, pc, npc, nnpc);
  }

  lemma IncrementParts(x: Machine)
    ensures Increment(x).branched == x.branched && Increment(x).halted == x.halted && Increment(x).mem == x.mem
  {}

  /** A plain word does the same to both, death included, and moves only the counters of s. */
  lemma PlainStep(h: Host, w: Word, s: Machine, t: Machine)
    requires SameData(s, t) && Fetch(s.mem, s.r[PC]) == Some(w) && PlainWord(w)
    ensures Step(h, s).None? ==> ExecWord(h, w, t).None?
    ensures Step(h, s).Some? ==> ExecWord(h, w, t) == Some(Pinned(Step(h, s).value, t))
    ensures Step(h, s).Some? ==> Step(h, s).value.branched == s.branched
  {
    hide Exec, Fetch, Decode, IsBranch, Repin;
    var op := Decode(w).value;
    ExecBlind(h, op, w, s, t.r[PC], t.r[NPC], t.r[NNPC]);
    if Exec(h, op, w, s).Some? {
      ExecKeepsBranched(h, op, w, s);
      var x := Exec(h, op, w, s).value;
      IncrementParts(x);
      RepinRepin(x, x.r[NPC], x.r[NNPC], Plus(x.r[NNPC], 4), t.r[PC], t.r[NPC], t.r[NNPC]);
    }
  }

  /** The branch, with t standing at its address: it never dies, and t keeps PC and learns the next PC. */
  lemma BranchStep(h: Host, w: Word, s: Machine, t: Machine)
    requires SameData(s, t) && t.r[PC] == s.r[PC] && Fetch(s.mem, s.r[PC]) == Some(w) && BranchWord(w)
    ensures Step(h, s).Some?
    ensures var s' := Step(h, s).value;
            && ExecWord(h, w, t) == Some(Repin(s', t.r[PC], t.r[NPC], s'.r[NPC]))
            && s'.halted == s.halted
  {
    hide ExecBranch, Fetch, Decode, IsBranch, Repin;
    var op := Decode(w).value;
    BranchIsBranch(h, op, w, s);
    BranchIsBranch(h, op, w, t);
    BranchBlind(op, w, s, t.r[NPC], t.r[NNPC]);
    var b := ExecBranch(op, w, s);
    StepCounters(h, s);
    IncrementParts(b);
    RepinRepin(b, b.r[NPC], b.r[NNPC], Plus(b.r[NNPC], 4), t.r[PC], t.r[NPC], b.r[NNPC]);
  }

  lemma SameRegisters(w: Word, s: Machine, t: Machine)
    requires SameData(s, t)
    ensures t.r[Rs(w)] == s.r[Rs(w)] && t.r[Rt(w)] == s.r[Rt(w)]
  {
    hide Rs, Rt;
    SameDataParts(s, t);
  }

  lemma RepinOutcome(s: Machine, t: Machine, taken: bool, nnpc: Word)
    requires SameData(s, t)
    ensures Repin(t.(branched := taken), t.r[PC], t.r[NPC], nnpc) ==
            Repin(s.(branched := taken), t.r[PC], t.r[NPC], nnpc)
  {
    RepinRepin(s, t.r[PC], t.r[NPC], t.r[NNPC], t.r[PC], t.r[NPC], nnpc);
  }

  /** A branch that falls through does the same to both, wherever t stands; both stay alive, and t keeps its PC. */
  lemma FallingStep(h: Host, w: Word, s: Machine, t: Machine)
    requires SameData(s, t) && Fetch(s.mem, s.r[PC]) == Some(w) && BranchWord(w) && FallsThrough(s)
    ensures Step(h, s).Some? && Step(h, s).value.halted == s.halted
    ensures ExecWord(h, w, t).Some?
    ensures var x := ExecWord(h, w, t).value;
            SameData(Step(h, s).value, x) && x.r[PC] == t.r[PC] && x.r[NPC] == t.r[NPC]
  {
    hide ExecBranch, Fetch, Decode, IsBranch, Repin, Goal, Links, Rs, Rt, Taken;
    var op := Decode(w).value;
    BranchIsBranch(h, op, w, s);
    BranchIsBranch(h, op, w, t);
    BranchBlind(op, w, s, s.r[NPC], s.r[NNPC]);
    BranchUnlinked(op, w, s);
    BranchUnlinked(op, w, t);
    SameRegisters(w, s, t);
    var taken, bs, bt := Taken(op, s.r[Rs(w)], s.r[Rt(w)]), ExecBranch(op, w, s), ExecBranch(op, w, t);
    var z := s.(branched := taken);
    RepinOutcome(s, t, taken, bt.r[NNPC]);
    RepinRepin(z, s.r[PC], s.r[NPC], bs.r[NNPC], bs.r[NPC], bs.r[NNPC], Plus(bs.r[NNPC], 4));
    RepinRepin(z, bs.r[NPC], bs.r[NNPC], Plus(bs.r[NNPC], 4), t.r[PC], t.r[NPC], bt.r[NNPC]);
    RepinParts(z, t.r[PC], t.r[NPC], bt.r[NNPC]);
    IncrementParts(bs);
  }

  // ----- one block -----

  /** How many of n turns the loop takes before it halts. */
  function Turns(h: Host, m: Machine, n: nat): nat
    decreases n
  {
    if n == 0 || m.halted then 0 else
    match Step(h, m) case None => 0 case Some(m') => 1 + Turns(h, m', n - 1)
  }

  ghost predicate Intact(code: Mem, s: Option<Machine>) {
    s.Some? ==> Within(code, s.value.mem)
  }

  /** As long as it lives, the machine does not write over the code in the first n turns. */
  ghost predicate CodeStable(h: Host, code: Mem, s: Machine, n: nat) {
    forall k: nat | k <= n :: Intact(code, Run(h, s, k))
  }

  /** Every branch the first n turns execute before the last two falls through. */
  ghost predicate EarlyFall(h: Host, s: Machine, n: nat) {
    forall k: nat | k + 2 < n && Running(Run(h, s, k)) :: FallsThrough(Run(h, s, k).value)
  }

  /** One branch, in the last place but one: plain words, a branch and its delay slot. */
  ghost predicate SimpleBlock(ws: seq<Word>) {
    |ws| >= 2 && BranchWord(ws[|ws| - 2]) && forall i | 0 <= i < |ws| && i != |ws| - 2 :: PlainWord(ws[i])
  }

  lemma CodeFirst(code: Mem, pc: Word, ws: seq<Word>)
    requires ws != [] && CodeAt(code, pc, ws)
    ensures Fetch(code, pc) == Some(ws[0])
  {
    hide Fetch, Plus;
    PlusZero(pc);
    assert Fetch(code, Plus(pc, 4 * 0)) == Some(ws[0]);
  }

  lemma StableStep(h: Host, code: Mem, s: Machine, n: nat)
    requires n > 0 && !s.halted && CodeStable(h, code, s, n)
    ensures Within(code, s.mem)
    ensures Step(h, s).Some? ==> CodeStable(h, code, Step(h, s).value, n - 1)
  {
    hide Step, Within;
    assert Intact(code, Run(h, s, 0));
    if Step(h, s).Some? {
      var s' := Step(h, s).value;
      forall k: nat | k <= n - 1
        ensures Intact(code, Run(h, s', k))
      {
        assert Run(h, s, k + 1) == Run(h, s', k);
      }
    }
  }

  lemma FallStep(h: Host, s: Machine, n: nat)
    requires n > 2 && !s.halted && EarlyFall(h, s, n)
    ensures FallsThrough(s)
    ensures Step(h, s).Some? ==> EarlyFall(h, Step(h, s).value, n - 1)
  {
    hide Step, FallsThrough;
    assert Run(h, s, 0) == Some(s);
    if Step(h, s).Some? {
      var s' := Step(h, s).value;
      forall k: nat | k + 2 < n - 1 && Running(Run(h, s', k))
        ensures FallsThrough(Run(h, s', k).value)
      {
        assert Run(h, s, k + 1) == Run(h, s', k);
      }
    }
  }

  lemma RunFirst(h: Host, s: Machine, n: nat)
    requires n > 0 && !s.halted
    ensures Run(h, s, n) == match Step(h, s) case None => None case Some(x) => Run(h, x, n - 1)
    ensures Turns(h, s, n) == match Step(h, s) case None => 0 case Some(x) => 1 + Turns(h, x, n - 1)
  {}

  lemma StepCountersPlain(h: Host, w: Word, s: Machine)
    requires Fetch(s.mem, s.r[PC]) == Some(w) && PlainWord(w) && Step(h, s).Some?
    ensures var s' := Step(h, s).value;
            s'.r[PC] == s.r[NPC] && s'.r[NPC] == s.r[NNPC] && s'.r[NNPC] == Plus(s.r[NNPC], 4)
  {
    hide Step, Fetch, Decode, IsBranch;
    StepCounters(h, s);
  }

  /** The delay slot: the last word of the block. */
  lemma SimulateSlot(h: Host, code: Mem, w: Word, s: Machine, t: Machine)
    requires SameData(s, t) && !s.halted && CodeStable(h, code, s, 1)
    requires Fetch(code, s.r[PC]) == Some(w) && PlainWord(w)
    requires t.r[NNPC] == s.r[NPC] && s.r[NNPC] == Plus(s.r[NPC], 4)
    ensures Step(h, s).None? ==> RunWords(h, [w], t).None?
    ensures Step(h, s).Some? ==>
              var s' := Step(h, s).value;
              && RunWords(h, [w], t) == Some(Repin(s', t.r[PC], t.r[NPC], s'.r[PC]))
              && Straight(s')
  {
    hide Step, Fetch, ExecWord, PlainWord, Repin, Within;
    StableStep(h, code, s, 1);
    FetchWithin(code, s.mem, s.r[PC]);
    PlainStep(h, w, s, t);
    assert [w][1..] == [];
    if Step(h, s).Some? {
      StepCountersPlain(h, w, s);
      PlusPlus(s.r[NPC], 4, 4);
      var t' := ExecWord(h, w, t).value;
      assert RunWords(h, [], t') == Some(t');
    }
  }

  /** What n turns from s make of a block run from t. */
  ghost predicate Simulated(h: Host, ws: seq<Word>, s: Machine, t: Machine) {
    var i := Turns(h, s, |ws|);
    match Run(h, s, |ws|)
    case None => RunWords(h, ws, t).None?
    case Some(s') =>
      i <= |ws| &&
      if i == |ws| then
        RunWords(h, ws, t) == Some(Repin(s', t.r[PC], t.r[NPC], s'.r[PC])) && Straight(s')
      else
        i <= |ws| - 2 && s'.halted && s'.r[PC] == Plus(s.r[PC], 4 * i)
        && RunWords(h, ws, t) == RunWords(h, ws[i..], Pinned(s', t))
        && Bodies(h, ws, t) == i + Bodies(h, ws[i..], Pinned(s', t))
  }

  /** What they make of it when none of the turns but the last can halt. */
  ghost predicate Swept(h: Host, ws: seq<Word>, s: Machine, t: Machine) {
    match Run(h, s, |ws|)
    case None => RunWords(h, ws, t).None?
    case Some(s') =>
      && Turns(h, s, |ws|) == |ws|
      && RunWords(h, ws, t) == Some(Repin(s', t.r[PC], t.r[NPC], s'.r[PC])) && Straight(s')
  }

  lemma RunTwo(h: Host, s: Machine)
    requires !s.halted && Step(h, s).Some? && !Step(h, s).value.halted
    ensures Run(h, s, 2) == Step(h, Step(h, s).value)
    ensures Run(h, s, 2).Some? ==> Turns(h, s, 2) == 2
  {
    hide Step;
    var s1 := Step(h, s).value;
    RunFirst(h, s, 2);
    RunOne(h, s1);
    RunFirst(h, s1, 1);
  }

  /** The branch and its slot, from a straight point where t stands at the branch. */
  lemma SimulateBranch(h: Host, code: Mem, ws: seq<Word>, s: Machine, t: Machine)
    requires |ws| == 2 && BlockShape(ws, true) && CodeAt(code, s.r[PC], ws)
    requires SameData(s, t) && Straight(s) && t.r[PC] == s.r[PC]
    requires !s.halted && CodeStable(h, code, s, 2)
    ensures Swept(h, ws, s, t)
  {
    hide Step, Fetch, ExecWord, PlainWord, BranchWord, Within, Plus, Repin;
    CodeFirst(code, s.r[PC], ws);
    StableStep(h, code, s, 2);
    FetchWithin(code, s.mem, s.r[PC]);
    BranchStep(h, ws[0], s, t);
    StepCountersCurrent(h, s);
    var s1 := Step(h, s).value;
    var t1 := Repin(s1, t.r[PC], t.r[NPC], s1.r[NPC]);
    RepinParts(s1, t.r[PC], t.r[NPC], s1.r[NPC]);
    assert Fetch(code, Plus(s.r[PC], 4 * 1)) == Some(ws[1]);
    SimulateSlot(h, code, ws[1], s1, t1);
    assert ws[1..] == [ws[1]];
    RunTwo(h, s);
  }

  /** The first word of a longer block, and what the rest of the block needs. */
  lemma FirstOn(h: Host, code: Mem, ws: seq<Word>, s: Machine)
    requires |ws| > 2 && CodeAt(code, s.r[PC], ws) && Straight(s) && !s.halted
    requires CodeStable(h, code, s, |ws|) && EarlyFall(h, s, |ws|)
    ensures Fetch(s.mem, s.r[PC]) == Some(ws[0]) && FallsThrough(s)
    ensures Step(h, s).Some? ==>
              var s1 := Step(h, s).value;
              && CodeAt(code, s1.r[PC], ws[1..]) && Straight(s1) && s1.r[PC] == Plus(s.r[PC], 4)
              && CodeStable(h, code, s1, |ws[1..]|) && EarlyFall(h, s1, |ws[1..]|)
              && Plus(s.r[PC], 4 * (|ws| - 2)) == Plus(s1.r[PC], 4 * (|ws[1..]| - 2))
  {
    hide Step, Fetch, Within, Plus, CodeStable, EarlyFall, Straight, FallsThrough;
    CodeFirst(code, s.r[PC], ws);
    StableStep(h, code, s, |ws|);
    FallStep(h, s, |ws|);
    FetchWithin(code, s.mem, s.r[PC]);
    if Step(h, s).Some? {
      StepStraight(h, s);
      PlusPlus(s.r[PC], 4, 4 * (|ws| - 3));
      CodeTail(code, s.r[PC], ws);
    }
  }

  lemma SweepPrepend(h: Host, ws: seq<Word>, s: Machine, t: Machine)
    requires |ws| > 2 && !s.halted && Step(h, s).Some? && ExecWord(h, ws[0], t).Some?
    requires var t1 := ExecWord(h, ws[0], t).value;
             Swept(h, ws[1..], Step(h, s).value, t1) && t1.r[PC] == t.r[PC] && t1.r[NPC] == t.r[NPC]
    ensures Swept(h, ws, s, t)
  {
    hide Step, ExecWord, Repin, Straight, Plus;
    RunFirst(h, s, |ws|);
  }

  /** The branches that end a block, all but the last falling through, and the slot of the last. */
  lemma {:induction false} SimulateBranches(h: Host, code: Mem, ws: seq<Word>, s: Machine, t: Machine)
    requires |ws| >= 2 && BlockShape(ws, true) && CodeAt(code, s.r[PC], ws)
    requires SameData(s, t) && Straight(s) && t.r[PC] == Plus(s.r[PC], 4 * (|ws| - 2))
    requires !s.halted && CodeStable(h, code, s, |ws|) && EarlyFall(h, s, |ws|)
    ensures Swept(h, ws, s, t)
    decreases |ws|
  {
    hide Step, Fetch, ExecWord, PlainWord, BranchWord, Within, Plus, Repin, Straight, Swept, CodeStable, EarlyFall;
    hide FallsThrough, CodeAt;
    PlusZero(s.r[PC]);
    if |ws| == 2 {
      SimulateBranch(h, code, ws, s, t);
    } else {
      FirstOn(h, code, ws, s);
      FallingStep(h, ws[0], s, t);
      ShapeTail(ws, true);
      SimulateBranches(h, code, ws[1..], Step(h, s).value, ExecWord(h, ws[0], t).value);
      SweepPrepend(h, ws, s, t);
    }
  }

  lemma FallPrepend(h: Host, s: Machine, n: nat)
    requires !s.halted && (n > 2 ==> FallsThrough(s))
    requires n > 0 && (Step(h, s).Some? ==> EarlyFall(h, Step(h, s).value, n - 1))
    ensures EarlyFall(h, s, n)
  {
    hide Step, FallsThrough;
    forall k: nat | k + 2 < n && Running(Run(h, s, k))
      ensures FallsThrough(Run(h, s, k).value)
    {
      if k > 0 {
        RunFirst(h, s, k);
      }
    }
  }

  lemma PlainFalls(code: Mem, w: Word, s: Machine)
    requires Within(code, s.mem) && Fetch(code, s.r[PC]) == Some(w) && PlainWord(w)
    ensures FallsThrough(s)
  {
    hide Decode, IsBranch, Fetch, Within;
    FetchWithin(code, s.mem, s.r[PC]);
  }

  lemma HaltedFalls(h: Host, s: Machine, n: nat)
    requires s.halted
    ensures EarlyFall(h, s, n)
  {}

  /** A block with one branch, intact as it runs, executes no branch before the last two turns. */
  lemma {:induction false} SimpleFalls(h: Host, code: Mem, ws: seq<Word>, s: Machine)
    requires SimpleBlock(ws) && CodeAt(code, s.r[PC], ws) && Straight(s) && CodeStable(h, code, s, |ws|)
    ensures EarlyFall(h, s, |ws|)
    decreases |ws|
  {
    hide Step, Fetch, Within, Plus, FallsThrough, CodeStable, CodeAt, Straight, PlainWord, BranchWord;
    if s.halted {
      HaltedFalls(h, s, |ws|);
    } else if |ws| == 2 {
    } else {
      StableStep(h, code, s, |ws|);
      CodeFirst(code, s.r[PC], ws);
      PlainFalls(code, ws[0], s);
      if Step(h, s).Some? {
        StepStraight(h, s);
        CodeTail(code, s.r[PC], ws);
        SimpleFalls(h, code, ws[1..], Step(h, s).value);
      }
      FallPrepend(h, s, |ws|);
    }
  }

  /** A plain first word of a longer block. */
  lemma SimulatePlain(h: Host, code: Mem, ws: seq<Word>, s: Machine, t: Machine)
    requires |ws| > 2 && BlockShape(ws, false) && PlainWord(ws[0]) && CodeAt(code, s.r[PC], ws)
    requires SameData(s, t) && Straight(s) && t.r[PC] == Plus(s.r[PC], 4 * (|ws| - 2))
    requires !s.halted && CodeStable(h, code, s, |ws|) && EarlyFall(h, s, |ws|)
    ensures Step(h, s).None? ==> ExecWord(h, ws[0], t).None?
    ensures Step(h, s).Some? ==>
              var s1 := Step(h, s).value;
              var t1 := Pinned(s1, t);
              && ExecWord(h, ws[0], t) == Some(t1)
              && BlockShape(ws[1..], false) && CodeAt(code, s1.r[PC], ws[1..])
              && SameData(s1, t1) && Straight(s1) && s1.r[PC] == Plus(s.r[PC], 4)
              && t1.r[PC] == t.r[PC] == Plus(s1.r[PC], 4 * (|ws[1..]| - 2))
              && t1.r[NPC] == t.r[NPC] && t1.r[NNPC] == t.r[NNPC]
              && CodeStable(h, code, s1, |ws[1..]|) && EarlyFall(h, s1, |ws[1..]|)
  {
    hide Step, Fetch, ExecWord, PlainWord, BranchWord, Within, Plus, Repin, CodeStable, EarlyFall, Straight;
    hide FallsThrough;
    hide CodeAt;
    FirstOn(h, code, ws, s);
    PlainStep(h, ws[0], s, t);
    NotBoth(ws[0]);
    ShapeTail(ws, false);
    if Step(h, s).Some? {
      RepinParts(Step(h, s).value, t.r[PC], t.r[NPC], t.r[NNPC]);
    }
  }

  lemma SweptIsSimulated(h: Host, ws: seq<Word>, s: Machine, t: Machine)
    requires Swept(h, ws, s, t)
    ensures Simulated(h, ws, s, t)
  {}

  lemma SimulatePrepend(h: Host, ws: seq<Word>, s: Machine, t: Machine)
    requires |ws| > 2 && !s.halted && Step(h, s).Some? && Step(h, s).value.r[PC] == Plus(s.r[PC], 4)
    requires ExecWord(h, ws[0], t) == Some(Pinned(Step(h, s).value, t))
    requires var s1 := Step(h, s).value; !s1.halted ==> Simulated(h, ws[1..], s1, Pinned(s1, t))
    ensures Simulated(h, ws, s, t)
  {
    hide Step, ExecWord, Repin, Straight, Plus;
    var s1 := Step(h, s).value;
    var t1 := Pinned(s1, t);
    RepinParts(s1, t.r[PC], t.r[NPC], t.r[NNPC]);
    RunFirst(h, s, |ws|);
    assert RunWords(h, ws, t) == RunWords(h, ws[1..], t1) && Bodies(h, ws, t) == 1 + Bodies(h, ws[1..], t1);
    var i := Turns(h, s1, |ws| - 1);
    assert i < |ws| ==> ws[1..][i..] == ws[i + 1..];
    PlusZero(s1.r[PC]);
    PlusPlus(s.r[PC], 4, 4 * i);
  }

  /** Both die at the first word. */
  lemma SimulateDeath(h: Host, ws: seq<Word>, s: Machine, t: Machine)
    requires ws != [] && !s.halted && Step(h, s).None? && ExecWord(h, ws[0], t).None?
    ensures Simulated(h, ws, s, t)
  {
    hide Step, ExecWord;
    RunFirst(h, s, |ws|);
  }

  /**
   * One block: with t standing at the branch of the block, running all its words is what the
   * switch engine does in as many turns; if that engine halts inside the block, the words
   * left over run on its halted state; if it dies, so does the block, at the same word.
   */
  lemma {:induction false} SimulateBlock(h: Host, code: Mem, ws: seq<Word>, s: Machine, t: Machine)
    requires BlockShape(ws, false) && CodeAt(code, s.r[PC], ws)
    requires SameData(s, t) && Straight(s) && t.r[PC] == Plus(s.r[PC], 4 * (|ws| - 2))
    requires !s.halted && CodeStable(h, code, s, |ws|) && EarlyFall(h, s, |ws|)
    ensures Simulated(h, ws, s, t)
    decreases |ws|
  {
    hide Step, Fetch, ExecWord, PlainWord, BranchWord, Within, Plus, Repin, Straight, Simulated, CodeStable, EarlyFall;
    hide CodeAt;
    if BranchWord(ws[0]) {
      SimulateBranches(h, code, ws, s, t);
      SweptIsSimulated(h, ws, s, t);
    } else {
      SimulatePlain(h, code, ws, s, t);
      if Step(h, s).None? {
        SimulateDeath(h, ws, s, t);
      } else {
        var s1 := Step(h, s).value;
        var t1 := Pinned(s1, t);
        if !s1.halted {
          SimulateBlock(h, code, ws[1..], s1, t1);
        }
        SimulatePrepend(h, ws, s, t);
      }
    }
  }

  // ----- from block to block -----

  /** Both engines are about to start at the same address, the switch engine's pipeline straight. */
  ghost predicate AtSamePoint(s: Machine, t: Machine) {
    SameData(s, t) && t.r[PC] == s.r[PC] && Straight(s)
  }

  /** s standing at the branch that ends the n words from its PC on. */
  function AtBranch(s: Machine, n: int, npc: Word, nnpc: Word): Machine {
    Repin(s, Plus(s.r[PC], 4 * (n - 2)), npc, nnpc)
  }

  /** What the blocked engine makes of the words left over when the switch engine has halted in s. */
  ghost predicate Finished(h: Host, rest: seq<Word>, s: Machine, r: Option<Machine>) {
    exists npc, nnpc :: r == Leave(RunWords(h, rest, AtBranch(s, |rest|, npc, nnpc)))
  }

  lemma PinnedAtBranch(s: Machine, t: Machine, size: int)
    requires SameData(s, t) && t.r[PC] == s.r[PC]
    ensures var p := PinAtBranch(t, size);
            && SameData(s, p) && p.r[PC] == Plus(s.r[PC], 4 * (size - 3))
            && p.r[NPC] == t.r[NPC] && p.r[NNPC] == t.r[NNPC]
  {
    hide Plus;
    var p := PinAtBranch(t, size);
    assert p == Repin(t, p.r[PC], t.r[NPC], t.r[NNPC]);
    RepinRepin(s, t.r[PC], t.r[NPC], t.r[NNPC], p.r[PC], t.r[NPC], t.r[NNPC]);
  }

  lemma LeaveParts(s: Machine, pc: Word, npc: Word)
    ensures var r := Leave(Some(Repin(s, pc, npc, s.r[PC]))).value;
            SameData(s, r) && r.r[PC] == s.r[PC]
  {
    var x := Repin(s, pc, npc, s.r[PC]);
    var r := Put(x, PC, x.r[NNPC]);
    assert r == Repin(s, s.r[PC], npc, s.r[PC]);
    RepinParts(s, s.r[PC], npc, s.r[PC]);
  }

  /** Where one block leaves the two engines: dead both, at the same point, or the switch engine halted inside. */
  ghost predicate BlockRefined(h: Host, ws: seq<Word>, s: Machine, r: Option<Machine>) {
    var i := Turns(h, s, |ws|);
    match Run(h, s, |ws|)
    case None => r.None?
    case Some(s') =>
      && i <= |ws|
      && (i == |ws| ==> r.Some? && AtSamePoint(s', r.value))
      && (i < |ws| ==> i <= |ws| - 2 && s'.halted && Finished(h, ws[i..], s', r))
  }

  /** A block the switch engine leaves early calls at least one body more than that engine. */
  ghost predicate RunsOn(h: Host, ws: seq<Word>, s: Machine, t: Machine) {
    Run(h, s, |ws|).Some? && Turns(h, s, |ws|) < |ws| ==> Turns(h, s, |ws|) < Bodies(h, ws, PinAtBranch(t, |ws| + 1))
  }

  /** One block of the blocked engine against the switch engine. */
  lemma BlockRefines(h: Host, code: Mem, ws: seq<Word>, s: Machine, t: Machine)
    requires BlockShape(ws, false) && CodeAt(code, s.r[PC], ws) && AtSamePoint(s, t)
    requires !s.halted && CodeStable(h, code, s, |ws|) && EarlyFall(h, s, |ws|)
    ensures BlockRefined(h, ws, s, RunBlock(h, ws, t)) && RunsOn(h, ws, s, t)
  {
    hide Step, Fetch, ExecWord, PlainWord, BranchWord, Within, Plus, Repin, Straight, PinAtBranch, CodeAt;
    hide EarlyFall, CodeStable;
    var p := PinAtBranch(t, |ws| + 1);
    PinnedAtBranch(s, t, |ws| + 1);
    SimulateBlock(h, code, ws, s, p);
    if Run(h, s, |ws|).Some? {
      var i, s' := Turns(h, s, |ws|), Run(h, s, |ws|).value;
      if i == |ws| {
        LeaveParts(s', p.r[PC], p.r[NPC]);
      } else {
        PlusPlus(s.r[PC], 4 * i, 4 * (|ws| - i - 2));
        BodiesCount(h, ws[i..], Pinned(s', p));
        assert Pinned(s', p) == AtBranch(s', |ws[i..]|, p.r[NPC], p.r[NNPC]);
      }
    }
  }

  // ----- whole runs -----

  ghost predicate DecodesAt(code: Mem, pc: Word) {
    exists n: nat :: Scan(code, pc, false, n).Complete?
  }

  /** The words of the block at pc. */
  ghost function WordsAt(code: Mem, pc: Word): seq<Word>
    requires DecodesAt(code, pc)
  {
    var n: nat :| Scan(code, pc, false, n).Complete?;
    Scan(code, pc, false, n).words
  }

  lemma WordsAtScan(code: Mem, pc: Word, n: nat)
    requires Scan(code, pc, false, n).Complete?
    ensures DecodesAt(code, pc) && WordsAt(code, pc) == Scan(code, pc, false, n).words
  {
    var k: nat :| Scan(code, pc, false, k).Complete? && WordsAt(code, pc) == Scan(code, pc, false, k).words;
    if k <= n {
      ScanMore(code, pc, false, k, n);
    } else {
      ScanMore(code, pc, false, n, k);
    }
  }

  lemma WordsAtShape(code: Mem, pc: Word)
    requires DecodesAt(code, pc)
    ensures BlockShape(WordsAt(code, pc), false) && CodeAt(code, pc, WordsAt(code, pc))
  {
    var n: nat :| Scan(code, pc, false, n).Complete? && WordsAt(code, pc) == Scan(code, pc, false, n).words;
    ScanShape(code, pc, false, n);
    ScanAt(code, pc, false, n);
  }

  /** decode_block comes to an end exactly when a block lies at pc: plain words, a branch, and a plain word after it. */
  lemma DecodesExactly(code: Mem, pc: Word)
    ensures DecodesAt(code, pc) <==> exists ws :: BlockShape(ws, false) && CodeAt(code, pc, ws)
    ensures forall ws | BlockShape(ws, false) && CodeAt(code, pc, ws) :: DecodesAt(code, pc) && WordsAt(code, pc) == ws
  {
    hide BlockShape, CodeAt, Scan, WordsAt;
    if DecodesAt(code, pc) {
      WordsAtShape(code, pc);
    }
    forall ws | BlockShape(ws, false) && CodeAt(code, pc, ws)
      ensures DecodesAt(code, pc) && WordsAt(code, pc) == ws
    {
      ScanFinds(code, pc, ws, false);
      WordsAtScan(code, pc, |ws|);
    }
  }

  /** The switch engine after the turns of the block at PC. */
  ghost function AfterBlock(h: Host, code: Mem, s: Machine): Option<Machine>
    requires DecodesAt(code, s.r[PC])
  {
    Run(h, s, |WordsAt(code, s.r[PC])|)
  }

  /**
   * What the guest program must keep to for b blocks: at the start of each, a branch lies ahead
   * in the code image; a branch in whose delay slot another branch lies falls through; and as
   * long as the machine lives the block does not write over the code.
   */
  ghost predicate WellBehaved(h: Host, code: Mem, s: Machine, b: nat)
    decreases b
  {
    b == 0 || s.halted ||
    (&& DecodesAt(code, s.r[PC])
     && EarlyFall(h, s, |WordsAt(code, s.r[PC])|)
     && CodeStable(h, code, s, |WordsAt(code, s.r[PC])|)
     && match AfterBlock(h, code, s) case None => true case Some(s') => WellBehaved(h, code, s', b - 1))
  }

  /** The blocked engine for b blocks, each decoded anew from the code image. */
  ghost function RunBlocks(h: Host, code: Mem, m: Machine, b: nat): Option<Machine>
    decreases b
  {
    if b == 0 || m.halted then Some(m)
    else if !DecodesAt(code, m.r[PC]) then None
    else match RunBlock(h, WordsAt(code, m.r[PC]), m)
      case None => None
      case Some(m') => RunBlocks(h, code, m', b - 1)
  }

  /** The instructions in the first b blocks of the switch engine's run. */
  ghost function TotalTurns(h: Host, code: Mem, s: Machine, b: nat): nat
    decreases b
  {
    if b == 0 || s.halted || !DecodesAt(code, s.r[PC]) then 0
    else |WordsAt(code, s.r[PC])| +
         match AfterBlock(h, code, s) case None => 0 case Some(s') => TotalTurns(h, code, s', b - 1)
  }

  /** The words of the halting block that the switch engine does not reach. */
  ghost function Leftover(h: Host, code: Mem, s: Machine, b: nat): (rest: seq<Word>)
    decreases b
  {
    if b == 0 || s.halted || !DecodesAt(code, s.r[PC]) then []
    else
      var ws := WordsAt(code, s.r[PC]);
      match AfterBlock(h, code, s)
      case None => []
      case Some(s') =>
        if Turns(h, s, |ws|) < |ws| then ws[Turns(h, s, |ws|)..] else Leftover(h, code, s', b - 1)
  }

  /** r, where the blocked engine is after b blocks, against the switch engine started in s. */
  ghost predicate Refined(h: Host, code: Mem, s: Machine, b: nat, r: Option<Machine>) {
    var rest := Leftover(h, code, s, b);
    match Run(h, s, TotalTurns(h, code, s, b))
    case None => r.None?
    case Some(end) =>
      && (rest == [] ==> r.Some? && AtSamePoint(end, r.value))
      && (rest != [] ==> end.halted && Finished(h, rest, end, r))
  }

  /** A straight machine stands where it stands. */
  lemma SamePointSelf(m: Machine)
    requires Straight(m)
    ensures AtSamePoint(m, m)
  {
    assert Repin(m, m.r[PC], m.r[NPC], m.r[NNPC]).r == m.r;
  }

  lemma SamePointHalts(s: Machine, t: Machine)
    requires AtSamePoint(s, t)
    ensures t.halted == s.halted && t.r[PC] == s.r[PC]
  {}

  lemma RunNone(h: Host, s: Machine)
    ensures Run(h, s, 0) == Some(s)
  {}

  lemma WellBehavedNow(h: Host, code: Mem, s: Machine, b: nat)
    requires WellBehaved(h, code, s, b) && b > 0 && !s.halted
    ensures DecodesAt(code, s.r[PC]) && EarlyFall(h, s, |WordsAt(code, s.r[PC])|)
    ensures CodeStable(h, code, s, |WordsAt(code, s.r[PC])|)
    ensures AfterBlock(h, code, s).Some? ==> WellBehaved(h, code, AfterBlock(h, code, s).value, b - 1)
  {
    hide DecodesAt, WordsAt, EarlyFall, CodeStable, AfterBlock;
  }

  /** The first block of a run: where it leaves the two engines, and that the rest is well-behaved. */
  lemma BlockNow(h: Host, code: Mem, s: Machine, t: Machine, b: nat)
    requires AtSamePoint(s, t) && WellBehaved(h, code, s, b) && b > 0 && !s.halted
    ensures DecodesAt(code, s.r[PC])
    ensures var ws := WordsAt(code, s.r[PC]);
            && |ws| >= 2 && BlockRefined(h, ws, s, RunBlock(h, ws, t)) && RunsOn(h, ws, s, t)
            && AfterBlock(h, code, s) == Run(h, s, |ws|)
            && (Run(h, s, |ws|).Some? ==> WellBehaved(h, code, Run(h, s, |ws|).value, b - 1))
  {
    hide Run, RunBlock, BlockRefined, RunsOn, AtSamePoint, CodeStable, EarlyFall, CodeAt, WordsAt, DecodesAt;
    hide WellBehaved;
    WellBehavedNow(h, code, s, b);
    WordsAtShape(code, s.r[PC]);
    BlockRefines(h, code, WordsAt(code, s.r[PC]), s, t);
  }

  lemma PutsStayHalted(op: Op, w: Word, m: Machine)
    requires m.halted
    ensures forall i: nat, v | i < REG_MAX :: Put(m, i, v).halted
    ensures forall i: nat, v | i < 32 :: PutSome(m, i, v).halted
    ensures ExecMultDiv(op, w, m).halted && ExecBranch(op, w, m).halted
  {
    hide MultDiv, Rs, Rt, Rd, Imm16, Imm26, Taken, BranchTarget, JumpTarget, Plus;
  }

  lemma SystemStaysHalted(h: Host, op: Op, w: Word, m: Machine)
    requires m.halted
    ensures Syscall(h, m).Some? ==> Syscall(h, m).value.halted
    ensures ExecLoad(op, w, m).Some? ==> ExecLoad(op, w, m).value.halted
    ensures ExecStore(op, w, m).Some? ==> ExecStore(op, w, m).value.halted
  {
    hide Load, Store, Allocate, Fill, CopyIn, Covers, Raw, EffectiveAddress, Rt;
  }

  lemma ExecHalted(h: Host, w: Word, m: Machine)
    requires m.halted
    ensures ExecWord(h, w, m).Some? ==> ExecWord(h, w, m).value.halted
  {
    hide Decode, Put, PutSome, ExecMultDiv, Syscall, ExecLoad, ExecStore, ExecBranch, Rs, Rt, Rd, Sh, Imm16;
    hide Shift, AluReg, AluImm, HardwareRegister;
    if Decode(w).Some? {
      PutsStayHalted(Decode(w).value, w, m);
      SystemStaysHalted(h, Decode(w).value, w, m);
    }
  }

  lemma {:induction false} RunWordsHalted(h: Host, ws: seq<Word>, m: Machine)
    requires m.halted
    ensures RunWords(h, ws, m).Some? ==> RunWords(h, ws, m).value.halted
    decreases |ws|
  {
    hide ExecWord;
    if ws == [] {
    } else {
      ExecHalted(h, ws[0], m);
      var x := ExecWord(h, ws[0], m);
      if x.Some? {
        RunWordsHalted(h, ws[1..], x.value);
      }
    }
  }

  /** The words left over do not clear the halted flag, so no further block runs. */
  lemma FinishedHalts(h: Host, code: Mem, s: Machine, rest: seq<Word>, r: Option<Machine>, b: nat)
    requires s.halted && Finished(h, rest, s, r)
    ensures r.Some? ==> r.value.halted && RunBlocks(h, code, r.value, b) == r
    ensures TotalTurns(h, code, s, b) == 0 && Run(h, s, 0) == Some(s)
  {
    hide ExecWord, RunBlock;
    var npc, nnpc :| r == Leave(RunWords(h, rest, AtBranch(s, |rest|, npc, nnpc)));
    RunWordsHalted(h, rest, AtBranch(s, |rest|, npc, nnpc));
  }

  lemma RefinedNone(h: Host, code: Mem, s: Machine, t: Machine, b: nat)
    requires AtSamePoint(s, t) && (b == 0 || (s.halted && t.halted))
    ensures Refined(h, code, s, b, RunBlocks(h, code, t, b))
  {
    hide AtSamePoint, DecodesAt, WordsAt;
    RunNone(h, s);
  }

  /** A block that dies. */
  lemma RefinedDeath(h: Host, code: Mem, s: Machine, t: Machine, b: nat)
    requires b > 0 && !s.halted && !t.halted && t.r[PC] == s.r[PC] && DecodesAt(code, s.r[PC])
    requires AfterBlock(h, code, s).None? && RunBlock(h, WordsAt(code, s.r[PC]), t).None?
    ensures Refined(h, code, s, b, RunBlocks(h, code, t, b))
  {
    hide Run, RunBlock, AtSamePoint, Finished, DecodesAt, WordsAt;
  }

  lemma RefinedStep(h: Host, code: Mem, s: Machine, t: Machine, b: nat)
    requires b > 0 && !s.halted && !t.halted && t.r[PC] == s.r[PC] && DecodesAt(code, s.r[PC])
    requires var ws := WordsAt(code, s.r[PC]);
             && Turns(h, s, |ws|) == |ws| && AfterBlock(h, code, s) == Run(h, s, |ws|)
             && AfterBlock(h, code, s).Some? && RunBlock(h, ws, t).Some?
             && Refined(h, code, AfterBlock(h, code, s).value, b - 1,
                        RunBlocks(h, code, RunBlock(h, ws, t).value, b - 1))
    ensures Refined(h, code, s, b, RunBlocks(h, code, t, b))
  {
    hide Run, Turns, RunBlock, AtSamePoint, Finished, DecodesAt, WordsAt, AfterBlock;
    RunAppend(h, s, |WordsAt(code, s.r[PC])|, TotalTurns(h, code, AfterBlock(h, code, s).value, b - 1));
  }

  lemma RefinedHalt(h: Host, code: Mem, s: Machine, t: Machine, b: nat)
    requires b > 0 && !s.halted && !t.halted && t.r[PC] == s.r[PC] && DecodesAt(code, s.r[PC])
    requires var ws := WordsAt(code, s.r[PC]);
             var i := Turns(h, s, |ws|);
             && i < |ws| && AfterBlock(h, code, s) == Run(h, s, |ws|)
             && AfterBlock(h, code, s).Some? && AfterBlock(h, code, s).value.halted
             && Finished(h, ws[i..], AfterBlock(h, code, s).value, RunBlock(h, ws, t))
    ensures Refined(h, code, s, b, RunBlocks(h, code, t, b))
  {
    hide Run, Turns, RunBlock, AtSamePoint, Finished, DecodesAt, WordsAt, AfterBlock;
    var ws := WordsAt(code, s.r[PC]);
    var s' := AfterBlock(h, code, s).value;
    FinishedHalts(h, code, s', ws[Turns(h, s, |ws|)..], RunBlock(h, ws, t), b - 1);
  }

  /**
   * The whole-run theorem. However many blocks the blocked engine runs, it stands where the
   * switch engine stands after the same instructions: every register but NPC and NNPC, memory,
   * branched, status, halted and the host calls agree, and so does the next PC. When the guest
   * exits inside a block the blocked engine has also run the rest of that block, from the
   * switch engine's halted state. When the switch engine dies the blocked engine dies.
   */
  lemma {:induction false} BlocksRefineSwitch(h: Host, code: Mem, s: Machine, t: Machine, b: nat)
    requires AtSamePoint(s, t) && WellBehaved(h, code, s, b)
    ensures Refined(h, code, s, b, RunBlocks(h, code, t, b))
    decreases b
  {
    hide Run, Turns, RunBlock, AtSamePoint, Finished, WordsAt, DecodesAt, AfterBlock, RunBlocks, TotalTurns, Leftover;
    hide Refined, WellBehaved;
    hide RunsOn;
    SamePointHalts(s, t);
    if b == 0 || s.halted {
      RefinedNone(h, code, s, t, b);
    } else {
      BlockNow(h, code, s, t, b);
      var ws := WordsAt(code, s.r[PC]);
      if Run(h, s, |ws|).None? {
        RefinedDeath(h, code, s, t, b);
      } else if Turns(h, s, |ws|) == |ws| {
        BlocksRefineSwitch(h, code, AfterBlock(h, code, s).value, RunBlock(h, ws, t).value, b - 1);
        RefinedStep(h, code, s, t, b);
      } else {
        RefinedHalt(h, code, s, t, b);
      }
    }
  }
}
