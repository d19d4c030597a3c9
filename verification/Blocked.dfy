/**
 * blocked.c, the inner loop of interpreter_blocked: the unrolled loop that runs a block, and
 * where a block leads.
 */
module Blocked {
  import opened Words
  import opened Machines
  import opened Instructions
  import opened Switch
  import opened Memory
  import opened Cpu
  import opened Blocks
  import opened Simulation
  import opened DecodeBlocks
  import opened BlockCache

  const UNROLL_SIZE: nat := 8

  // ----- running one block -----

  lemma RunWordsTake(h: Host, ws: seq<Word>, m: Machine, i: nat)
    requires i < |ws|
    ensures RunWords(h, ws[..i + 1], m) ==
            match RunWords(h, ws[..i], m) case None => None case Some(x) => ExecWord(h, ws[i], x)
    decreases i
  {
    hide ExecWord;
    if i == 0 {
      assert ws[..1][1..] == [];
    } else {
      var x := ExecWord(h, ws[0], m);
      if x.Some? {
        RunWordsTake(h, ws[1..], x.value, i - 1);
        assert ws[..i + 1][1..] == ws[1..][..i];
        assert ws[..i][1..] == ws[1..][..i - 1];
      }
    }
  }

  lemma {:induction false} RunWordsDead(h: Host, ws: seq<Word>, m: Machine, i: nat)
    requires i <= |ws| && RunWords(h, ws[..i], m).None?
    ensures RunWords(h, ws, m).None?
    decreases i
  {
    hide ExecWord;
    if i == 0 {
    } else {
      var x := ExecWord(h, ws[0], m);
      if x.Some? {
        assert ws[..i][1..] == ws[1..][..i - 1];
        RunWordsDead(h, ws[1..], x.value, i - 1);
      }
    }
  }

  /** The bodies called when the word at i is the one that dies. */
  lemma {:induction false} BodiesDead(h: Host, ws: seq<Word>, m: Machine, i: nat)
    requires i < |ws| && RunWords(h, ws[..i], m).Some? && ExecWord(h, ws[i], RunWords(h, ws[..i], m).value).None?
    ensures Bodies(h, ws, m) == i + 1
    decreases i
  {
    hide ExecWord;
    if i == 0 {
    } else {
      assert ws[..i][1..] == ws[1..][..i - 1];
      BodiesDead(h, ws[1..], ExecWord(h, ws[0], m).value, i - 1);
    }
  }

  /** The positions from a to b, in order. */
  function Positions(a: nat, b: nat): (p: seq<nat>)
    requires a <= b
    ensures |p| == b - a && forall i | 0 <= i < |p| :: p[i] == a + i
  {
    seq(b - a, i requires 0 <= i < b - a => a + i)
  }

  /** ops->op(ops->cir, mips, memory); called records the position. */
  method CallOp(h: Host, ops: array<Slot>, i: nat, mips: Mips, memory: PagedMemory, ghost called: seq<nat>)
    returns (ok: bool, ghost called': seq<nat>)
    requires i < ops.Length && Decode(ops[i].cir) == ops[i].handler && ops[i].handler.Some?
    requires mips.Ready(memory)
    modifies mips, mips.r, memory.Repr
    ensures called' == called + [i]
    ensures ok == ExecWord(h, old(ops[i]).cir, old(mips.State(memory))).Some?
    ensures ok ==> mips.Ready(memory) && fresh(memory.Repr - old(memory.Repr))
    ensures ok ==> mips.State(memory) == ExecWord(h, old(ops[i]).cir, old(mips.State(memory))).value
  {
    hide Exec, mips.Ready, mips.State, Decode;
    called' := called + [i];
    ok := mips.Interpret(h, ops[i].handler.value, ops[i].cir, memory);
  }

  /** while(ops->op); tested records the position. */
  method MoreOps(ops: array<Slot>, i: nat, ghost tested: seq<nat>) returns (more: bool, ghost tested': seq<nat>)
    requires i < ops.Length
    ensures more == ops[i].handler.Some? && tested' == tested + [i]
  {
    more, tested' := ops[i].handler.Some?, tested + [i];
  }

  /** The cases fallen through in one pass of the unrolled loop. */
  method RunLanes(h: Host, ops: array<Slot>, at: nat, lanes: nat, mips: Mips, memory: PagedMemory,
                  ghost ws: seq<Word>, ghost start: Machine)
    returns (ok: bool, ghost called: seq<nat>)
    requires mips.Ready(memory) && ops !in memory.Repr
    requires Spells(ops, ws) && at + lanes <= |ws| && RunWords(h, ws[..at], start) == Some(mips.State(memory))
    modifies mips, mips.r, memory.Repr
    ensures !ok ==> RunWords(h, ws, start).None? && called == Positions(at, at + |called|)
    ensures !ok ==> at + |called| == Bodies(h, ws, start)
    ensures ok ==> called == Positions(at, at + lanes)
    ensures ok ==> mips.Ready(memory) && fresh(memory.Repr - old(memory.Repr))
    ensures ok ==> RunWords(h, ws[..at + lanes], start) == Some(mips.State(memory))
  {
    hide Exec, ExecWord, RunWords, Bodies, mips.Ready, mips.State, Decode;
    called := [];
    for i := at to at + lanes
      invariant mips.Ready(memory) && fresh(memory.Repr - old(memory.Repr))
      invariant ops !in memory.Repr && Spells(ops, ws) && called == Positions(at, i)
      invariant RunWords(h, ws[..i], start) == Some(mips.State(memory))
    {
      RunWordsTake(h, ws, start, i);
      ok, called := CallOp(h, ops, i, mips, memory, called);
      if !ok {
        RunWordsDead(h, ws, start, i + 1);
        BodiesDead(h, ws, start, i);
        return;
      }
    }
    ok := true;
  }

  lemma RunNoWords(h: Host, ws: seq<Word>, m: Machine)
    ensures RunWords(h, ws[..0], m) == Some(m)
  {}

  lemma PositionsAppend(a: nat, b: nat)
    requires a <= b
    ensures Positions(0, a) + Positions(a, b) == Positions(0, b)
  {}

  /**
   * The unrolled loop: enter at case n % 8, fall through to case 1, and go round while the
   * next op is not the terminator. The positions called are 0, 1, 2 and so on, each once, up
   * to n - 1 or the op that dies; the terminator is only looked for behind an op called, never
   * past position n, and ends the loop there.
   */
  method RunOps(h: Host, ops: array<Slot>, n: nat, mips: Mips, memory: PagedMemory, ghost ws: seq<Word>)
    returns (ok: bool, ghost called: seq<nat>, ghost tested: seq<nat>)
    requires mips.Ready(memory) && ops !in memory.Repr
    requires n == |ws| > 0 && Spells(ops, ws)
    modifies mips, mips.r, memory.Repr
    ensures called == Positions(0, |called|) && |called| == Bodies(h, ws, old(mips.State(memory)))
    ensures forall t | t in tested :: 0 < t <= |called| && t <= n
    ensures ok ==> |called| == n && |tested| == (n + 7) / 8
    ensures ok ==> forall j | 0 <= j < |tested| :: tested[j] == n - 8 * (|tested| - 1 - j)
    ensures ok == RunWords(h, ws, old(mips.State(memory))).Some?
    ensures ok ==> mips.Ready(memory) && fresh(memory.Repr - old(memory.Repr))
    ensures ok ==> mips.State(memory) == RunWords(h, ws, old(mips.State(memory))).value
  {
    hide Exec, ExecWord, RunWords, Bodies, Positions, mips.Ready, mips.State, Decode;
    ghost var start := mips.State(memory);
    var i := 0;
    var lanes := if n % UNROLL_SIZE == 0 then UNROLL_SIZE else n % UNROLL_SIZE;
    ghost var rounds := (n - lanes) / UNROLL_SIZE;
    RunNoWords(h, ws, start);
    called, tested := Positions(0, 0), [];
    while true
      invariant mips.Ready(memory) && fresh(memory.Repr - old(memory.Repr))
      invariant ops !in memory.Repr && Spells(ops, ws)
      invariant 0 <= i && 1 <= lanes && rounds >= 0 && n == i + lanes + UNROLL_SIZE * rounds
      invariant called == Positions(0, i) && forall t | t in tested :: 0 < t <= i
      invariant |tested| + rounds + 1 == (n + 7) / 8
      invariant forall j | 0 <= j < |tested| :: tested[j] == n - 8 * (|tested| + rounds - j)
      invariant RunWords(h, ws[..i], start) == Some(mips.State(memory))
      decreases rounds
    {
      ghost var pass;
      ok, pass := RunLanes(h, ops, i, lanes, mips, memory, ws, start);
      PositionsAppend(i, i + |pass|);
      called := called + pass;
      if !ok {
        return;
      }
      i := i + lanes;
      var more;
      more, tested := MoreOps(ops, i, tested);
      if !more {
        break;
      }
      lanes, rounds := UNROLL_SIZE, rounds - 1;
    }
    assert ws[..i] == ws;
    BodiesCount(h, ws, start);
    ok := true;
  }

  /** One turn of the inner loop: PC to the branch, the ops, and PC to NNPC. */
  method CallBlock(h: Host, b: Block, mips: Mips, memory: PagedMemory) returns (ok: bool)
    requires mips.Ready(memory) && b.ops !in memory.Repr && b.Decoded()
    modifies mips, mips.r, memory.Repr
    ensures ok == RunBlock(h, b.words, old(mips.State(memory))).Some?
    ensures ok ==> mips.Ready(memory) && fresh(memory.Repr - old(memory.Repr))
    ensures ok ==> mips.State(memory) == RunBlock(h, b.words, old(mips.State(memory))).value
  {
    hide RunWords, mips.Ready, mips.State, Plus, Decode, AnyIndirect;
    mips.ReadyPart(PC, memory);
    mips.PutReg(PC, Plus(mips.r[PC], 4 * (b.size - 3)), memory);
    ghost var called, tested;
    ok, called, tested := RunOps(h, b.ops, b.size - 1, mips, memory, b.words);
    if ok {
      mips.ReadyPart(NNPC, memory);
      mips.PutReg(PC, mips.r[NNPC], memory);
    }
  }

  // ----- where a block ends -----

  lemma PlainKeepsCounters(h: Host, w: Word, m: Machine)
    requires PlainWord(w) && ExecWord(h, w, m).Some?
    ensures var x := ExecWord(h, w, m).value;
            x.r[PC] == m.r[PC] && x.r[NNPC] == m.r[NNPC] && x.branched == m.branched
  {
    hide Exec, Decode, IsBranch;
    var op := Decode(w).value;
    ExecBlindNow(h, op, w, m);
    ExecKeepsBranched(h, op, w, m);
  }

  lemma WordKeepsPc(h: Host, w: Word, m: Machine)
    requires ExecWord(h, w, m).Some?
    ensures ExecWord(h, w, m).value.r[PC] == m.r[PC]
  {
    hide Exec, Decode, IsBranch;
    ExecBlindNow(h, Decode(w).value, w, m);
  }

  lemma BranchSetsCounters(h: Host, w: Word, m: Machine)
    requires BranchWord(w) && !IndirectWord(w)
    ensures ExecWord(h, w, m).Some?
    ensures var x := ExecWord(h, w, m).value;
            x.r[NNPC] == StaticTarget(Decode(w).value, w, m.r[PC], x.branched)
  {
    hide ExecBranch, Decode, IsBranch, StaticTarget, IsIndirect;
    BranchIsBranch(h, Decode(w).value, w, m);
    BranchGoesToTarget(Decode(w).value, w, m);
  }

  lemma BranchDecodes(w: Word)
    requires BranchWord(w)
    ensures Decode(w).Some?
  {}

  /** The outcome flag a direct block leaves tells where it leads. */
  lemma {:induction false} WordsLead(h: Host, ws: seq<Word>, branched: bool, m: Machine)
    requires BlockShape(ws, branched) && |ws| >= 2 && !IndirectWord(ws[|ws| - 2]) && RunWords(h, ws, m).Some?
    ensures var x, w := RunWords(h, ws, m).value, ws[|ws| - 2];
            x.r[NNPC] == StaticTarget(Decode(w).value, w, m.r[PC], x.branched)
    decreases |ws|
  {
    hide ExecWord, Decode, IsBranch, StaticTarget, PlainWord, BranchWord, IndirectWord;
    assert Decode(ws[|ws| - 2]).Some? by { BranchDecodes(ws[|ws| - 2]); }
    var m1 := ExecWord(h, ws[0], m).value;
    if |ws| == 2 {
      BranchSetsCounters(h, ws[0], m);
      assert ws[1..] == [ws[1]] && [ws[1]][1..] == [];
      var m2 := ExecWord(h, ws[1], m1).value;
      PlainKeepsCounters(h, ws[1], m1);
      assert RunWords(h, ws[1..], m1) == RunWords(h, [], m2) == Some(m2);
    } else {
      WordKeepsPc(h, ws[0], m);
      ShapeTail(ws, branched);
      WordsLead(h, ws[1..], branched || BranchWord(ws[0]), m1);
    }
  }

  /** The next PC of a direct block is its static target for the outcome it reports. */
  lemma BlockLeads(h: Host, ws: seq<Word>, m: Machine)
    requires BlockShape(ws, false) && !IndirectWord(ws[|ws| - 2]) && RunBlock(h, ws, m).Some?
    ensures var r := RunBlock(h, ws, m).value;
            r.r[PC] == Target(m.r[PC], ws, r.branched)
  {
    hide RunWords, Decode, IsBranch, StaticTarget, PlainWord, BranchWord, IndirectWord, Plus;
    WordsLead(h, ws, false, PinAtBranch(m, |ws| + 1));
  }
}
