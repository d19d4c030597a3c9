/**
 * blocked.c when the guest exits: the unrolled loop never looks at halted, so the words after
 * an exit in the middle of a block still run. When that happens, how much more runs, what it
 * cannot change, and that a budget of as many blocks as instructions reaches every exit.
 */
module Halting {
  import opened Words
  import opened Machines
  import opened Instructions
  import opened Switch
  import opened Blocks
  import opened Simulation

  // ----- counting turns -----

  lemma TurnsHalted(h: Host, s: Machine, b: nat)
    ensures s.halted ==> Turns(h, s, b) == 0 && Run(h, s, b) == Some(s)
  {}

  lemma {:induction false} TurnsAppend(h: Host, s: Machine, a: nat, b: nat)
    requires Run(h, s, a).Some?
    ensures Turns(h, s, a) <= a
    ensures Turns(h, s, a + b) == Turns(h, s, a) + Turns(h, Run(h, s, a).value, b)
    decreases a
  {
    hide Step;
    if a == 0 || s.halted {
      TurnsHalted(h, s, b);
    } else {
      TurnsAppend(h, Step(h, s).value, a - 1, b);
    }
  }

  lemma TurnsSome(h: Host, s: Machine, n: nat)
    requires n > 0 && !s.halted && Run(h, s, n).Some?
    ensures Turns(h, s, n) > 0
  {}

  /** A run that takes no turn stays where it is. */
  lemma TurnsNone(h: Host, s: Machine, n: nat)
    requires Turns(h, s, n) == 0 && Run(h, s, n).Some?
    ensures Run(h, s, n) == Some(s)
  {
    hide Step;
  }

  lemma {:induction false} TurnsPrefix(h: Host, s: Machine, n: nat, j: nat)
    requires j <= Turns(h, s, n) && Run(h, s, n).Some?
    ensures Run(h, s, j).Some? && Turns(h, s, j) == j
    decreases j
  {
    hide Step;
    if j == 0 {
    } else {
      RunFirst(h, s, n);
      RunFirst(h, s, j);
      TurnsPrefix(h, Step(h, s).value, n - 1, j - 1);
    }
  }

  // ----- the instruction in hand -----

  lemma FetchedIs(code: Mem, s: Machine, w: Word)
    requires Within(code, s.mem) && Fetch(code, s.r[PC]) == Some(w)
    ensures Current(s) == Decode(w)
  {
    hide Decode, Raw, Load32, Fetch, Within;
    FetchWithin(code, s.mem, s.r[PC]);
  }

  /** The delay slot that ends a block. */
  lemma SecondCurrent(h: Host, code: Mem, ws: seq<Word>, s: Machine)
    requires |ws| == 2 && CodeAt(code, s.r[PC], ws) && Straight(s)
    requires CodeStable(h, code, s, 2) && !s.halted && Step(h, s).Some?
    ensures Run(h, s, 1) == Step(h, s) && Current(Step(h, s).value) == Decode(ws[1])
  {
    hide Step, Fetch, Within, Plus, Decode, Current;
    RunOne(h, s);
    assert Intact(code, Run(h, s, 1));
    StepCountersCurrent(h, s);
    assert Fetch(code, Plus(s.r[PC], 4 * 1)) == Some(ws[1]);
    FetchedIs(code, Step(h, s).value, ws[1]);
  }

  /** j turns into a block the machine is about to execute its j-th word. */
  lemma {:induction false} BlockCurrent(h: Host, code: Mem, ws: seq<Word>, s: Machine, j: nat)
    requires |ws| >= 2 && CodeAt(code, s.r[PC], ws) && Straight(s)
    requires CodeStable(h, code, s, |ws|) && EarlyFall(h, s, |ws|)
    requires j < |ws| && Run(h, s, j).Some? && Turns(h, s, j) == j
    ensures Current(Run(h, s, j).value) == Decode(ws[j])
    decreases j
  {
    hide Step, Fetch, Within, Plus, Decode, Current, EarlyFall, CodeAt, FallsThrough;
    CodeFirst(code, s.r[PC], ws);
    assert Intact(code, Run(h, s, 0));
    RunNone(h, s);
    if j == 0 {
      FetchedIs(code, s, ws[0]);
    } else {
      RunFirst(h, s, j);
      if |ws| == 2 {
        SecondCurrent(h, code, ws, s);
      } else {
        FirstOn(h, code, ws, s);
        BlockCurrent(h, code, ws[1..], Step(h, s).value, j - 1);
      }
    }
  }

  // ----- when the two engines stop together -----

  predicate BranchAt(s: Option<Machine>) {
    s.Some? && Current(s.value).Some? && IsBranch(Current(s.value).value)
  }

  /** The last of k turns executed the delay slot of a branch. */
  predicate EndsInSlot(h: Host, s: Machine, k: nat) {
    k >= 2 && BranchAt(Run(h, s, k - 2))
  }

  /** The last turn of a run that takes one. */
  lemma LastTurn(h: Host, s: Machine, n: nat)
    requires Run(h, s, n).Some? && Turns(h, s, n) > 0
    ensures var i := Turns(h, s, n);
            && i <= n && Running(Run(h, s, i - 1)) && Turns(h, s, i - 1) == i - 1
            && Step(h, Run(h, s, i - 1).value) == Run(h, s, n)
  {
    hide Run, Turns, Step;
    TurnsAppend(h, s, n, 0);
    var i := Turns(h, s, n);
    TurnsPrefix(h, s, n, i - 1);
    var p := Run(h, s, i - 1).value;
    TurnsAppend(h, s, i - 1, n - i + 1);
    RunAppend(h, s, i - 1, n - i + 1);
    TurnsHalted(h, p, n - i + 1);
    RunFirst(h, p, n - i + 1);
    TurnsNone(h, Step(h, p).value, n - i);
  }

  /** A turn that halts the machine executes no branch. */
  lemma BranchGoesOn(h: Host, s: Machine)
    requires Current(s).Some? && IsBranch(Current(s).value) && Step(h, s).Some?
    ensures Step(h, s).value.halted == s.halted
  {
    hide ExecBranch, Fetch, Decode, IsBranch;
    var op, w := Current(s).value, Fetch(s.mem, s.r[PC]).value;
    BranchIsBranch(h, op, w, s);
    BranchBlind(op, w, s, s.r[NPC], s.r[NNPC]);
    IncrementParts(ExecBranch(op, w, s));
  }

  /** A word of a block before the last, behind a branch, is a branch. */
  lemma BranchesFollow(ws: seq<Word>, i: nat)
    requires BlockShape(ws, false)
    ensures |ws| >= 2
    ensures i + 2 < |ws| && BranchWord(ws[i]) ==> BranchWord(ws[i + 1])
    ensures BranchWord(ws[|ws| - 2]) && !BranchWord(ws[|ws| - 1])
  {
    hide PlainWord, BranchWord;
    NotBoth(ws[|ws| - 1]);
  }

  /** A block ends in a slot exactly when it runs through, and the turn after it is in none. */
  lemma BlockSlots(h: Host, code: Mem, ws: seq<Word>, s: Machine)
    requires BlockShape(ws, false) && CodeAt(code, s.r[PC], ws) && Straight(s)
    requires CodeStable(h, code, s, |ws|) && EarlyFall(h, s, |ws|) && Run(h, s, |ws|).Some?
    requires var i := Turns(h, s, |ws|); 0 < i <= |ws| && (i < |ws| ==> Run(h, s, |ws|).value.halted)
    ensures EndsInSlot(h, s, Turns(h, s, |ws|)) <==> Turns(h, s, |ws|) == |ws|
    ensures Turns(h, s, |ws|) == |ws| ==> !EndsInSlot(h, s, |ws| + 1)
  {
    hide Run, Turns, Step, Straight, CodeStable, EarlyFall, Decode, Current, IsBranch, CodeAt, BlockShape;
    var n, i := |ws|, Turns(h, s, |ws|);
    BranchesFollow(ws, 0);
    LastTurn(h, s, n);
    BlockCurrent(h, code, ws, s, i - 1);
    if i >= 2 {
      TurnsPrefix(h, s, n, i - 2);
      BlockCurrent(h, code, ws, s, i - 2);
      BranchesFollow(ws, i - 2);
      if EndsInSlot(h, s, i) && i < n {
        BranchGoesOn(h, Run(h, s, i - 1).value);
      }
    }
  }

  /** The first block of a straight run: its length, its end and the slots in it. */
  lemma FirstBlock(h: Host, code: Mem, s: Machine, b: nat)
    requires Straight(s) && WellBehaved(h, code, s, b) && b > 0 && !s.halted
    ensures DecodesAt(code, s.r[PC])
    ensures var n, s' := |WordsAt(code, s.r[PC])|, AfterBlock(h, code, s);
            && n >= 2 && Run(h, s, n) == s'
            && (s'.Some? ==>
                  && WellBehaved(h, code, s'.value, b - 1) && Turns(h, s, n) <= n
                  && (Turns(h, s, n) == n ==> Straight(s'.value) && !EndsInSlot(h, s, n + 1))
                  && (Turns(h, s, n) < n ==> Turns(h, s, n) <= n - 2 && s'.value.halted)
                  && (EndsInSlot(h, s, Turns(h, s, n)) <==> Turns(h, s, n) == n))
  {
    hide Run, Turns, Straight, DecodesAt, WordsAt, Finished, RunBlock, AfterBlock, WellBehaved, EndsInSlot, CodeStable;
    hide EarlyFall, BlockShape, CodeAt, RunsOn;
    SamePointSelf(s);
    BlockNow(h, code, s, s, b);
    WellBehavedNow(h, code, s, b);
    WordsAtShape(code, s.r[PC]);
    var ws := WordsAt(code, s.r[PC]);
    if Run(h, s, |ws|).Some? {
      TurnsSome(h, s, |ws|);
      BlockSlots(h, code, ws, s);
    }
  }

  lemma TurnsOfBlock(h: Host, code: Mem, s: Machine, b: nat)
    requires b > 0 && !s.halted && DecodesAt(code, s.r[PC]) && AfterBlock(h, code, s).Some?
    ensures var ws, s' := WordsAt(code, s.r[PC]), AfterBlock(h, code, s).value;
            var i := Turns(h, s, |ws|);
            && TotalTurns(h, code, s, b) == |ws| + TotalTurns(h, code, s', b - 1)
            && Leftover(h, code, s, b) == if i < |ws| then ws[i..] else Leftover(h, code, s', b - 1)
  {
    hide WordsAt, Turns, DecodesAt, AfterBlock;
  }

  lemma DeadTurns(h: Host, code: Mem, s: Machine, b: nat)
    requires b > 0 && !s.halted && DecodesAt(code, s.r[PC]) && AfterBlock(h, code, s).None?
    ensures TotalTurns(h, code, s, b) == |WordsAt(code, s.r[PC])|
  {
    hide WordsAt, DecodesAt, AfterBlock;
  }

  lemma NoTurns(h: Host, code: Mem, s: Machine, b: nat)
    requires b == 0 || s.halted
    ensures TotalTurns(h, code, s, b) == 0 && Leftover(h, code, s, b) == [] && Run(h, s, 0) == Some(s)
            && Turns(h, s, 0) == 0
  {}

  /** A turn in a slot of the rest of a run is a turn in a slot of the whole run. */
  lemma SlotLater(h: Host, s: Machine, n: nat, k: nat)
    requires k >= 2 && Run(h, s, n).Some?
    ensures EndsInSlot(h, s, n + k) == EndsInSlot(h, Run(h, s, n).value, k)
  {
    hide Run, BranchAt;
    RunAppend(h, s, n, k - 2);
  }

  /** The first block of a run has the turns of the whole run before those of the rest. */
  ghost predicate Splits(h: Host, code: Mem, s: Machine, b: nat, n: nat, s': Machine)
    requires b > 0
  {
    var rest := TotalTurns(h, code, s', b - 1);
    && TotalTurns(h, code, s, b) == n + rest && Run(h, s, n + rest) == Run(h, s', rest)
    && Turns(h, s, n + rest) == Turns(h, s, n) + Turns(h, s', rest)
  }

  lemma BlockSplits(h: Host, code: Mem, s: Machine, b: nat)
    requires b > 0 && !s.halted && DecodesAt(code, s.r[PC]) && AfterBlock(h, code, s).Some?
    requires AfterBlock(h, code, s) == Run(h, s, |WordsAt(code, s.r[PC])|)
    ensures Splits(h, code, s, b, |WordsAt(code, s.r[PC])|, AfterBlock(h, code, s).value)
  {
    hide Run, Turns, WordsAt, DecodesAt, AfterBlock, TotalTurns, Leftover;
    var n, s' := |WordsAt(code, s.r[PC])|, AfterBlock(h, code, s).value;
    TurnsOfBlock(h, code, s, b);
    RunAppend(h, s, n, TotalTurns(h, code, s', b - 1));
    TurnsAppend(h, s, n, TotalTurns(h, code, s', b - 1));
  }

  /** What LeftoverExactly says of a run of b blocks. */
  ghost predicate ExactlyAt(h: Host, code: Mem, s: Machine, b: nat) {
    var n := TotalTurns(h, code, s, b);
    Run(h, s, n).Some? ==>
      (Leftover(h, code, s, b) == [] <==> !Run(h, s, n).value.halted || EndsInSlot(h, s, Turns(h, s, n)))
  }

  /** A run that halts in its first block. */
  lemma ExactlyHalted(h: Host, code: Mem, s: Machine, b: nat)
    requires Straight(s) && WellBehaved(h, code, s, b) && b > 0 && !s.halted
    requires DecodesAt(code, s.r[PC]) && AfterBlock(h, code, s).Some? && AfterBlock(h, code, s).value.halted
    ensures ExactlyAt(h, code, s, b)
  {
    hide Run, Turns, Straight, WellBehaved, TotalTurns, Leftover, DecodesAt, WordsAt, AfterBlock, EndsInSlot;
    FirstBlock(h, code, s, b);
    BlockSplits(h, code, s, b);
    TurnsOfBlock(h, code, s, b);
    NoTurns(h, code, AfterBlock(h, code, s).value, b - 1);
  }

  /** A run that goes on after its first block. */
  lemma ExactlyOn(h: Host, code: Mem, s: Machine, b: nat)
    requires Straight(s) && WellBehaved(h, code, s, b) && b > 0 && !s.halted
    requires DecodesAt(code, s.r[PC]) && AfterBlock(h, code, s).Some? && !AfterBlock(h, code, s).value.halted
    requires ExactlyAt(h, code, AfterBlock(h, code, s).value, b - 1)
    ensures ExactlyAt(h, code, s, b)
  {
    hide Run, Turns, Straight, WellBehaved, TotalTurns, Leftover, DecodesAt, WordsAt, AfterBlock, BranchAt;
    FirstBlock(h, code, s, b);
    BlockSplits(h, code, s, b);
    TurnsOfBlock(h, code, s, b);
    var n, s' := |WordsAt(code, s.r[PC])|, AfterBlock(h, code, s).value;
    var rest := TotalTurns(h, code, s', b - 1);
    if Run(h, s', rest).Some? {
      var k := Turns(h, s', rest);
      if k == 0 {
        TurnsNone(h, s', rest);
      } else if k == 1 {
        assert !EndsInSlot(h, s, n + 1);
      } else {
        SlotLater(h, s, n, k);
      }
    }
  }

  /**
   * Words are left over exactly when the machine has halted and its last turn, the exit, was not
   * in the delay slot of a branch.
   */
  lemma {:induction false} LeftoverExactly(h: Host, code: Mem, s: Machine, b: nat)
    requires Straight(s) && WellBehaved(h, code, s, b) && !s.halted
    ensures ExactlyAt(h, code, s, b)
    decreases b
  {
    hide Run, Turns, Straight, WellBehaved, TotalTurns, Leftover, DecodesAt, WordsAt, AfterBlock, EndsInSlot;
    if b == 0 {
      NoTurns(h, code, s, b);
    } else {
      FirstBlock(h, code, s, b);
      if AfterBlock(h, code, s).None? {
        DeadTurns(h, code, s, b);
      } else if AfterBlock(h, code, s).value.halted {
        ExactlyHalted(h, code, s, b);
      } else {
        LeftoverExactly(h, code, AfterBlock(h, code, s).value, b - 1);
        ExactlyOn(h, code, s, b);
      }
    }
  }

  // ----- how much more the blocked engine runs -----

  /** The bodies the blocked engine calls in b blocks. */
  ghost function BlockedBodies(h: Host, code: Mem, m: Machine, b: nat): nat
    decreases b
  {
    if b == 0 || m.halted || !DecodesAt(code, m.r[PC]) then 0
    else
      var ws := WordsAt(code, m.r[PC]);
      Bodies(h, ws, PinAtBranch(m, |ws| + 1)) +
      match RunBlock(h, ws, m) case None => 0 case Some(m') => BlockedBodies(h, code, m', b - 1)
  }

  /** The bodies called, against the turns of the switch engine and the words left over. */
  ghost predicate Counted(h: Host, code: Mem, s: Machine, t: Machine, b: nat) {
    var n, rest := TotalTurns(h, code, s, b), |Leftover(h, code, s, b)|;
    var turns, bodies := Turns(h, s, n), BlockedBodies(h, code, t, b);
    Run(h, s, n).Some? ==>
      && turns <= bodies <= turns + rest && (rest > 0 ==> turns < bodies)
      && (RunBlocks(h, code, t, b).Some? ==> bodies == turns + rest)
  }

  lemma BodiesNow(h: Host, code: Mem, t: Machine, b: nat)
    requires b > 0 && !t.halted && DecodesAt(code, t.r[PC])
    ensures var ws := WordsAt(code, t.r[PC]);
            var r, first := RunBlock(h, ws, t), Bodies(h, ws, PinAtBranch(t, |ws| + 1));
            && first <= |ws| && (r.Some? ==> first == |ws|)
            && RunBlocks(h, code, t, b) == (match r case None => None case Some(x) => RunBlocks(h, code, x, b - 1))
            && BlockedBodies(h, code, t, b) ==
               first + match r case None => 0 case Some(x) => BlockedBodies(h, code, x, b - 1)
  {
    hide WordsAt, DecodesAt, RunWords, Bodies, PinAtBranch;
    BodiesCount(h, WordsAt(code, t.r[PC]), PinAtBranch(t, |WordsAt(code, t.r[PC])| + 1));
  }

  lemma NoBodies(h: Host, code: Mem, t: Machine, b: nat)
    requires b == 0 || t.halted
    ensures BlockedBodies(h, code, t, b) == 0 && RunBlocks(h, code, t, b) == Some(t)
  {}

  /** A halting block. */
  lemma CountedHalt(h: Host, code: Mem, s: Machine, t: Machine, b: nat)
    requires AtSamePoint(s, t) && WellBehaved(h, code, s, b) && b > 0 && !s.halted && !t.halted && t.r[PC] == s.r[PC]
    requires DecodesAt(code, s.r[PC]) && AfterBlock(h, code, s).Some?
    requires Turns(h, s, |WordsAt(code, s.r[PC])|) < |WordsAt(code, s.r[PC])|
    ensures Counted(h, code, s, t, b)
  {
    hide Run, Turns, AtSamePoint, WellBehaved, TotalTurns, Leftover, DecodesAt, WordsAt, AfterBlock, Bodies;
    hide PinAtBranch, RunBlock, RunBlocks, BlockedBodies, Finished;
    var ws, s' := WordsAt(code, s.r[PC]), AfterBlock(h, code, s).value;
    BlockNow(h, code, s, t, b);
    BlockSplits(h, code, s, b);
    TurnsOfBlock(h, code, s, b);
    NoTurns(h, code, s', b - 1);
    BodiesNow(h, code, t, b);
    var r := RunBlock(h, ws, t);
    if r.Some? {
      FinishedHalts(h, code, s', ws[Turns(h, s, |ws|)..], r, b - 1);
      NoBodies(h, code, r.value, b - 1);
    }
  }

  /** A block that runs through, before the rest of the run. */
  lemma CountedStep(h: Host, code: Mem, s: Machine, t: Machine, b: nat)
    requires b > 0 && !s.halted && !t.halted && t.r[PC] == s.r[PC] && DecodesAt(code, s.r[PC])
    requires var ws := WordsAt(code, s.r[PC]);
             && AfterBlock(h, code, s) == Run(h, s, |ws|) && AfterBlock(h, code, s).Some? && Turns(h, s, |ws|) == |ws|
             && RunBlock(h, ws, t).Some?
             && Counted(h, code, AfterBlock(h, code, s).value, RunBlock(h, ws, t).value, b - 1)
    ensures Counted(h, code, s, t, b)
  {
    hide Run, Turns, TotalTurns, Leftover, DecodesAt, WordsAt, AfterBlock, Bodies, PinAtBranch, RunBlock, RunBlocks;
    hide BlockedBodies;
    BlockSplits(h, code, s, b);
    TurnsOfBlock(h, code, s, b);
    BodiesNow(h, code, t, b);
  }

  lemma CountedNone(h: Host, code: Mem, s: Machine, t: Machine, b: nat)
    requires b == 0 || (s.halted && t.halted)
    ensures Counted(h, code, s, t, b)
  {
    hide Run, Turns, TotalTurns, Leftover, RunBlocks, BlockedBodies;
    NoTurns(h, code, s, b);
    NoBodies(h, code, t, b);
  }

  lemma CountedDeath(h: Host, code: Mem, s: Machine, t: Machine, b: nat)
    requires b > 0 && !s.halted && DecodesAt(code, s.r[PC])
    requires AfterBlock(h, code, s).None? && Run(h, s, |WordsAt(code, s.r[PC])|).None?
    ensures Counted(h, code, s, t, b)
  {
    hide Run, Turns, TotalTurns, Leftover, RunBlocks, BlockedBodies, DecodesAt, WordsAt, AfterBlock;
    DeadTurns(h, code, s, b);
  }

  /**
   * The blocked engine calls every body the switch engine calls, and of the words left over all, or up to the
   * one that dies.
   */
  lemma {:induction false} BodiesCounted(h: Host, code: Mem, s: Machine, t: Machine, b: nat)
    requires AtSamePoint(s, t) && WellBehaved(h, code, s, b)
    ensures Counted(h, code, s, t, b)
    decreases b
  {
    hide Run, Turns, AtSamePoint, WellBehaved, TotalTurns, Leftover, DecodesAt, WordsAt, AfterBlock, Bodies;
    hide PinAtBranch, RunBlock, RunBlocks, BlockedBodies, Finished, Counted;
    SamePointHalts(s, t);
    if b == 0 || s.halted {
      CountedNone(h, code, s, t, b);
    } else {
      BlockNow(h, code, s, t, b);
      var ws := WordsAt(code, s.r[PC]);
      if AfterBlock(h, code, s).None? {
        CountedDeath(h, code, s, t, b);
      } else if Turns(h, s, |ws|) < |ws| {
        CountedHalt(h, code, s, t, b);
      } else {
        BodiesCounted(h, code, AfterBlock(h, code, s).value, RunBlock(h, ws, t).value, b - 1);
        CountedStep(h, code, s, t, b);
      }
    }
  }

  lemma SamePointStraight(s: Machine, t: Machine)
    requires AtSamePoint(s, t)
    ensures Straight(s)
  {}

  /**
   * When the two engines stop together. They have called the same number of bodies if and only
   * if the guest still runs or its exit was in the delay slot of a branch, and then they are at
   * the same point; otherwise the blocked engine has gone on into the rest of the block.
   */
  lemma EnginesStopTogether(h: Host, code: Mem, s: Machine, t: Machine, b: nat)
    requires AtSamePoint(s, t) && WellBehaved(h, code, s, b) && !s.halted
    requires Run(h, s, TotalTurns(h, code, s, b)).Some?
    ensures var n, r := TotalTurns(h, code, s, b), RunBlocks(h, code, t, b);
            var end, turns, bodies := Run(h, s, n).value, Turns(h, s, n), BlockedBodies(h, code, t, b);
            var together := !end.halted || EndsInSlot(h, s, turns);
            && (together <==> bodies == turns)
            && (together ==> r.Some? && AtSamePoint(end, r.value))
            && (!together ==> turns < bodies && (r.Some? ==> r.value.halted))
  {
    hide Run, Turns, AtSamePoint, WellBehaved, TotalTurns, Leftover, RunBlocks, BlockedBodies, Finished, EndsInSlot;
    SamePointStraight(s, t);
    LeftoverExactly(h, code, s, b);
    BodiesCounted(h, code, s, t, b);
    BlocksRefineSwitch(h, code, s, t, b);
    var rest, r := Leftover(h, code, s, b), RunBlocks(h, code, t, b);
    if rest != [] {
      FinishedHalts(h, code, Run(h, s, TotalTurns(h, code, s, b)).value, rest, r, 0);
    }
  }

  // ----- reaching the exit -----

  /** Every block takes at least two turns, so b blocks are at least 2b turns unless the run ends. */
  lemma {:induction false} BlocksAreLong(h: Host, code: Mem, s: Machine, b: nat)
    requires Straight(s) && WellBehaved(h, code, s, b)
    ensures var n := TotalTurns(h, code, s, b);
            Run(h, s, n).Some? && !Run(h, s, n).value.halted ==> n >= 2 * b
    decreases b
  {
    hide Run, Turns, Straight, WellBehaved, TotalTurns, Leftover, DecodesAt, WordsAt, AfterBlock, EndsInSlot;
    if b == 0 || s.halted {
      NoTurns(h, code, s, b);
    } else {
      FirstBlock(h, code, s, b);
      if AfterBlock(h, code, s).None? {
        DeadTurns(h, code, s, b);
      } else {
        var s' := AfterBlock(h, code, s).value;
        BlockSplits(h, code, s, b);
        if s'.halted {
          NoTurns(h, code, s', b - 1);
        } else {
          BlocksAreLong(h, code, s', b - 1);
        }
      }
    }
  }

  predicate Over(s: Option<Machine>) {
    s.None? || s.value.halted
  }

  lemma OverStays(h: Host, s: Machine, a: nat, b: nat)
    requires Over(Run(h, s, a)) && a <= b
    ensures Over(Run(h, s, b))
  {
    hide Run;
    RunAppend(h, s, a, b - a);
    if Run(h, s, a).Some? {
      TurnsHalted(h, Run(h, s, a).value, b - a);
    }
  }

  /** A budget of as many blocks as the switch engine takes turns to its end brings the blocked engine to its end. */
  lemma BudgetSuffices(h: Host, code: Mem, s: Machine, t: Machine, b: nat)
    requires AtSamePoint(s, t) && WellBehaved(h, code, s, b) && Over(Run(h, s, b))
    ensures Over(RunBlocks(h, code, t, b))
  {
    hide Run, AtSamePoint, WellBehaved, TotalTurns, Leftover, RunBlocks, Finished;
    var n := TotalTurns(h, code, s, b);
    SamePointStraight(s, t);
    BlocksRefineSwitch(h, code, s, t, b);
    BlocksAreLong(h, code, s, b);
    if n >= b {
      OverStays(h, s, b, n);
    }
    if Run(h, s, n).Some? {
      var end, r := Run(h, s, n).value, RunBlocks(h, code, t, b);
      if Leftover(h, code, s, b) == [] {
        SamePointHalts(end, r.value);
      } else {
        FinishedHalts(h, code, end, Leftover(h, code, s, b), r, 0);
      }
    }
  }

  // ----- what the leftover words cannot change -----

  /** A word that neither touches memory nor leaves the register file. */
  predicate Quiet(w: Word) {
    Decode(w).Some? && TypeOf(Decode(w).value) !in {SYSTEM, BRK, LOAD_IMM, STORE_IMM}
  }

  /** Everything but the registers and the branched flag. */
  ghost predicate SameOutside(s: Machine, t: Machine) {
    t == s.(r := t.r, branched := t.branched)
  }

  lemma BranchOutside(op: Op, w: Word, m: Machine)
    ensures SameOutside(m, ExecBranch(op, w, m))
  {
    hide Rs, Rt, Rd, Imm16, Imm26, Taken, BranchTarget, JumpTarget, Plus;
  }

  lemma PutsOutside(op: Op, w: Word, m: Machine)
    ensures forall i: nat, v | i < REG_MAX :: SameOutside(m, Put(m, i, v))
    ensures forall i: nat, v | i < 32 :: SameOutside(m, PutSome(m, i, v))
    ensures SameOutside(m, ExecMultDiv(op, w, m))
  {
    hide MultDiv;
  }

  lemma ExecQuiet(h: Host, w: Word, m: Machine)
    requires Quiet(w)
    ensures ExecWord(h, w, m).Some? && SameOutside(m, ExecWord(h, w, m).value)
  {
    hide Decode, ExecBranch, ExecMultDiv, Put, PutSome, SameOutside, Shift, AluReg, AluImm, Rs, Rt, Rd, Sh, Imm16;
    var op := Decode(w).value;
    if IsBranch(op) {
      BranchOutside(op, w, m);
    } else {
      PutsOutside(op, w, m);
    }
  }

  lemma {:induction false} RunQuiet(h: Host, ws: seq<Word>, m: Machine)
    requires forall w | w in ws :: Quiet(w)
    ensures RunWords(h, ws, m).Some? && SameOutside(m, RunWords(h, ws, m).value)
    decreases |ws|
  {
    hide ExecWord, Quiet;
    if ws == [] {
    } else {
      ExecQuiet(h, ws[0], m);
      RunQuiet(h, ws[1..], ExecWord(h, ws[0], m).value);
    }
  }

  /**
   * When the leftover words are quiet the blocked engine exits too, with the switch engine's
   * status, memory, heap bounds and host calls.
   */
  lemma QuietLeftover(h: Host, code: Mem, s: Machine, b: nat, r: Option<Machine>)
    requires Refined(h, code, s, b, r) && Run(h, s, TotalTurns(h, code, s, b)).Some?
    requires forall w | w in Leftover(h, code, s, b) :: Quiet(w)
    ensures var end := Run(h, s, TotalTurns(h, code, s, b));
            && r.Some? && r.value.status == end.value.status && r.value.halted == end.value.halted
            && r.value.mem == end.value.mem && r.value.calls == end.value.calls
            && r.value.brkEnd == end.value.brkEnd && r.value.mmapEnd == end.value.mmapEnd
  {
    hide Run, TotalTurns, Leftover, Quiet, RunWords, Straight;
    var end, rest := Run(h, s, TotalTurns(h, code, s, b)).value, Leftover(h, code, s, b);
    if rest != [] {
      var npc, nnpc :| r == Leave(RunWords(h, rest, AtBranch(end, |rest|, npc, nnpc)));
      RunQuiet(h, rest, AtBranch(end, |rest|, npc, nnpc));
    }
  }
}
