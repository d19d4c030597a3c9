/**
 * blocked.c, interpreter_blocked: look the block at PC up or decode it, link it to the
 * block before, and run along the links. The engine is the switch engine, block by block.
 */
module Engine {
  import opened Words
  import opened Machines
  import opened Switch
  import opened Memory
  import opened Cpu
  import opened Blocks
  import opened Simulation
  import opened DecodeBlocks
  import opened Halting
  import opened BlockCache
  import opened Blocked

  // ----- the run as values -----

  /** s, the switch engine's machine, and t, the blocked engine's, have both halted or stand at the same point. */
  ghost predicate Tracks(h: Host, code: Mem, s: Machine, t: Machine, n: nat) {
    s.halted == t.halted && (!t.halted ==> AtSamePoint(s, t) && WellBehaved(h, code, s, n))
  }

  lemma TracksNow(h: Host, code: Mem, s: Machine, t: Machine, n: nat)
    requires Tracks(h, code, s, t, n) && n > 0 && !t.halted
    ensures DecodesAt(code, t.r[PC]) && Within(code, t.mem)
  {
    hide DecodesAt, WordsAt, BlockShape, Within, Step;
    SamePointHalts(s, t);
    SameDataParts(s, t);
    assert Intact(code, Run(h, s, 0));
    RunNone(h, s);
  }

  /** One more block keeps the two engines together. */
  lemma TracksNext(h: Host, code: Mem, s: Machine, t: Machine, n: nat)
    requires Tracks(h, code, s, t, n) && n > 0 && !t.halted
    requires DecodesAt(code, t.r[PC]) && RunBlock(h, WordsAt(code, t.r[PC]), t).Some?
    ensures DecodesAt(code, s.r[PC]) && AfterBlock(h, code, s).Some?
    ensures var r := RunBlock(h, WordsAt(code, t.r[PC]), t).value;
            && Tracks(h, code, AfterBlock(h, code, s).value, r, n - 1)
            && RunBlocks(h, code, t, n) == RunBlocks(h, code, r, n - 1)
  {
    hide DecodesAt, WordsAt, RunBlock, Finished, Run, Turns, AtSamePoint, AfterBlock, WellBehaved, RunsOn;
    SamePointHalts(s, t);
    BlockNow(h, code, s, t, n);
    var ws, s' := WordsAt(code, s.r[PC]), AfterBlock(h, code, s).value;
    var i := Turns(h, s, |ws|);
    if i == |ws| {
      SamePointHalts(s', RunBlock(h, ws, t).value);
    } else {
      FinishedHalts(h, code, s', ws[i..], RunBlock(h, ws, t), 0);
    }
  }

  lemma RunBlocksDead(h: Host, code: Mem, t: Machine, n: nat)
    requires n > 0 && !t.halted && DecodesAt(code, t.r[PC]) && RunBlock(h, WordsAt(code, t.r[PC]), t).None?
    ensures RunBlocks(h, code, t, n).None?
  {}

  // ----- the program -----

  /** The engine's own objects are not part of the guest. */
  ghost predicate Apart(cache: Cache, mips: Mips, memory: PagedMemory)
    reads cache, memory
  {
    && cache in cache.Repr && memory !in cache.Repr && mips !in cache.Repr && mips.r !in cache.Repr
    && forall o | o in cache.Repr :: o !in memory.Repr
  }

  /** Decoding from memory gives the words the code image holds. */
  lemma DecodeSame(code: Mem, mem: Mem, pc: Word, n: nat)
    requires Within(code, mem) && Scan(code, pc, false, n).Complete?
    ensures Scan(mem, pc, false, n) == Complete(WordsAt(code, pc))
  {
    hide Scan, WordsAt, Within;
    ScanWithin(code, mem, pc, false, n);
    WordsAtScan(code, pc, n);
  }

  lemma FitsDecoded(code: Mem, b: Block)
    requires DecodesAt(code, b.address) && b.words == WordsAt(code, b.address) && b.Decoded()
    ensures Fits(code, b.address, b)
  {
    WordsAtShape(code, b.address);
  }

  /** decode_block on code that decodes. */
  method DecodeNew(mips: Mips, memory: PagedMemory, ghost code: Mem, ghost t: Machine) returns (current: Block)
    requires mips.Ready(memory) && t == mips.State(memory) && !t.halted
    requires DecodesAt(code, t.r[PC]) && Within(code, t.mem)
    ensures fresh(current) && fresh(current.ops) && current.next == [null, null]
    ensures current.address == t.r[PC] && Fits(code, current.address, current)
  {
    hide mips.Ready, mips.State, Scan, WordsAt, Within, BlockShape, Fits, Block.Decoded;
    mips.ReadyPart(PC, memory);
    mips.StateParts(memory);
    ghost var n: nat :| Scan(code, t.r[PC], false, n).Complete?;
    DecodeSame(code, t.mem, t.r[PC], n);
    current := DecodeBlock(mips, memory, t.mem, n);
    FitsDecoded(code, current);
  }

  /** HASH_ADD of a block that belongs to nobody yet. */
  method AddBlock(cache: Cache, current: Block, mips: Mips, memory: PagedMemory, ghost code: Mem)
    requires cache.Valid(code) && mips.Ready(memory) && Apart(cache, mips, memory)
    requires current.address !in cache.blocks && Fits(code, current.address, current) && current.next == [null, null]
    requires current !in cache.Repr && current.ops !in cache.Repr && current !in memory.Repr
             && current.ops !in memory.Repr
    modifies cache.Repr
    ensures cache.Valid(code) && mips.Ready(memory) && Apart(cache, mips, memory)
    ensures mips.State(memory) == old(mips.State(memory))
    ensures fresh(cache.Repr - old(cache.Repr) - {current, current.ops})
    ensures cache.blocks == old(cache.blocks)[current.address := current]
    ensures forall pc | pc in old(cache.blocks) :: cache.blocks[pc].next == old(cache.blocks[pc].next)
  {
    hide cache.Valid, mips.Ready, mips.State, Fits;
    cache.Insert(current, code);
  }

  /** The block at PC, from the cache or decoded and added. */
  method FindOrDecode(cache: Cache, mips: Mips, memory: PagedMemory, ghost code: Mem, ghost t: Machine)
    returns (current: Block)
    requires cache.Valid(code) && mips.Ready(memory) && Apart(cache, mips, memory)
    requires t == mips.State(memory) && !t.halted
    requires DecodesAt(code, t.r[PC]) && Within(code, t.mem)
    modifies cache.Repr
    ensures cache.Valid(code) && mips.Ready(memory) && Apart(cache, mips, memory) && mips.State(memory) == t
    ensures fresh(cache.Repr - old(cache.Repr))
    ensures t.r[PC] in cache.blocks && current == cache.blocks[t.r[PC]]
    ensures forall pc | pc in old(cache.blocks) :: pc in cache.blocks && cache.blocks[pc] == old(cache.blocks[pc])
    ensures forall pc | pc in old(cache.blocks) :: cache.blocks[pc].next == old(cache.blocks[pc].next)
  {
    hide cache.Valid, mips.Ready, mips.State, DecodesAt, WordsAt, Within, BlockShape, Fits;
    mips.ReadyPart(PC, memory);
    var found := cache.Find(mips.r[PC], code);
    if found != null {
      return found;
    }
    current := DecodeNew(mips, memory, code, t);
    AddBlock(cache, current, mips, memory, code);
  }

  /** Where the block that has just run leads, by its links. */
  ghost predicate Led(p: Block, t: Machine) {
    !t.halted && !p.indirect && BlockShape(p.words, false) ==> t.r[PC] == Target(p.address, p.words, t.branched)
  }

  lemma LedByBlock(h: Host, code: Mem, b: Block, t: Machine)
    requires Fits(code, t.r[PC], b) && RunBlock(h, b.words, t).Some?
    ensures Led(b, RunBlock(h, b.words, t).value)
  {
    hide RunBlock, BlockShape, Target, IndirectWord, Spells, WordsAt;
    if !b.indirect {
      BlockLeads(h, b.words, t);
    }
  }

  lemma FitsParts(code: Mem, b: Block)
    requires Fits(code, b.address, b)
    ensures DecodesAt(code, b.address) && b.words == WordsAt(code, b.address) && BlockShape(b.words, false)
            && b.Decoded()
  {}

  /** Following link[branched] gives the block a look-up of PC would give. */
  lemma LinkLeads(cache: Cache, code: Mem, p: Block, link: Block, t: Machine)
    requires cache.Valid(code) && cache.Holds(p) && Led(p, t) && !t.halted
    requires |p.next| == 2 && link == p.next[if t.branched then 1 else 0]
    ensures t.r[PC] in cache.blocks && cache.blocks[t.r[PC]] == link && link.address == t.r[PC]
  {
    cache.HeldBlock(p, code);
    hide Target, BlockShape, WordsAt;
  }

  /** Run one cached block and keep the two engines together. */
  method RunCached(h: Host, cache: Cache, current: Block, mips: Mips, memory: PagedMemory,
                   ghost left: nat, ghost code: Mem, ghost s: Machine, ghost t: Machine)
    returns (ok: bool, ghost s': Machine)
    requires cache.Valid(code) && mips.Ready(memory) && Apart(cache, mips, memory) && t == mips.State(memory)
    requires Tracks(h, code, s, t, left) && left > 0 && !t.halted
    requires cache.Holds(current) && current.address == t.r[PC]
    modifies mips, mips.r, memory.Repr
    ensures !ok ==> RunBlocks(h, code, t, left).None?
    ensures ok ==> mips.Ready(memory) && fresh(memory.Repr - old(memory.Repr))
    ensures ok ==> RunBlocks(h, code, t, left) == RunBlocks(h, code, mips.State(memory), left - 1)
    ensures ok ==> Tracks(h, code, s', mips.State(memory), left - 1)
    ensures ok ==> cache.Valid(code) && Apart(cache, mips, memory) && Led(current, mips.State(memory))
  {
    hide cache.Valid, mips.Ready, mips.State, RunBlock, RunBlocks, Tracks, AfterBlock, Fits, WordsAt, Led;
    hide Spells, AnyIndirect, BlockShape, DecodesAt, cache.LinkSound, current.Decoded;
    cache.HeldBlock(current, code);
    FitsParts(code, current);
    s' := s;
    ok := CallBlock(h, current, mips, memory);
    if ok {
      TracksNext(h, code, s, t, left);
      LedByBlock(h, code, current, t);
      s' := AfterBlock(h, code, s).value;
    } else {
      RunBlocksDead(h, code, t, left);
    }
  }

  /** The inner loop has no block to go on to. */
  ghost predicate LinksEnd(p: Block, t: Machine)
    reads p
  {
    t.halted || p.indirect || (|p.next| == 2 && p.next[if t.branched then 1 else 0] == null)
  }

  /** Run current, then the blocks its links lead to: the inner loop. */
  method RunChain(h: Host, cache: Cache, first: Block, mips: Mips, memory: PagedMemory, budget: nat,
                  ghost code: Mem, ghost s0: Machine, ghost t0: Machine)
    returns (ok: bool, previous: Block, left: nat, ghost s: Machine)
    requires cache.Valid(code) && mips.Ready(memory) && Apart(cache, mips, memory) && t0 == mips.State(memory)
    requires Tracks(h, code, s0, t0, budget) && budget > 0 && !t0.halted
    requires cache.Holds(first) && first.address == t0.r[PC]
    modifies mips, mips.r, memory.Repr
    ensures !ok ==> RunBlocks(h, code, t0, budget).None?
    ensures ok ==> mips.Ready(memory) && fresh(memory.Repr - old(memory.Repr))
    ensures ok ==> left < budget && RunBlocks(h, code, t0, budget) == RunBlocks(h, code, mips.State(memory), left)
    ensures ok ==> Tracks(h, code, s, mips.State(memory), left)
    ensures ok ==> cache.Valid(code) && Apart(cache, mips, memory) && cache.Holds(previous)
    ensures ok ==> Led(previous, mips.State(memory))
    ensures ok && left > 0 ==> LinksEnd(previous, mips.State(memory))
  {
    hide cache.Valid, mips.Ready, mips.State, RunBlock, RunBlocks, Tracks, AfterBlock, Fits, WordsAt, Led;
    hide Spells, AnyIndirect, BlockShape, DecodesAt, cache.LinkSound, first.Decoded;
    var current: Block := first;
    previous := first;
    left, s := budget, s0;
    ghost var t := t0;
    while true
      invariant mips.Ready(memory) && fresh(memory.Repr - old(memory.Repr)) && t == mips.State(memory)
      invariant cache.Valid(code) && Apart(cache, mips, memory)
      invariant cache.Holds(current) && current.address == t.r[PC]
      invariant 0 < left <= budget && Tracks(h, code, s, t, left) && !t.halted
      invariant RunBlocks(h, code, t0, budget) == RunBlocks(h, code, t, left)
      decreases left
    {
      ok, s := RunCached(h, cache, current, mips, memory, left, code, s, t);
      if !ok {
        return;
      }
      t := mips.State(memory);
      cache.HeldBlock(current, code);
      left := left - 1;
      mips.StateParts(memory);
      previous := current;
      var link := previous.next[if mips.branched then 1 else 0];
      if link == null || previous.indirect || mips.halted || left == 0 {
        return;
      }
      LinkLeads(cache, code, previous, link, t);
      current := link;
    }
  }

  /** p's link for the outcome leads to c and the other is as before; an indirect block keeps both. */
  predicate LinkedTo(p: Block, before: seq<Block?>, taken: bool, c: Block)
    reads p
  {
    |before| == 2 && p.next == if p.indirect then before else before[(if taken then 1 else 0) := c]
  }

  /** The block at PC, linked from the block that led there. */
  method NextBlock(cache: Cache, previous: Block?, mips: Mips, memory: PagedMemory, ghost code: Mem, ghost t: Machine)
    returns (current: Block)
    requires cache.Valid(code) && mips.Ready(memory) && Apart(cache, mips, memory)
    requires t == mips.State(memory) && !t.halted
    requires DecodesAt(code, t.r[PC]) && Within(code, t.mem)
    requires previous != null ==> cache.Holds(previous) && Led(previous, t)
    modifies cache.Repr
    ensures cache.Valid(code) && mips.Ready(memory) && Apart(cache, mips, memory) && mips.State(memory) == t
    ensures fresh(cache.Repr - old(cache.Repr))
    ensures cache.Holds(current) && current.address == t.r[PC]
    ensures previous != null ==> LinkedTo(previous, old(previous.next), t.branched, current)
  {
    hide cache.Valid, mips.Ready, mips.State, Scan, WordsAt, DecodesAt, Within, AnyIndirect, Spells, BlockShape, Target;
    mips.StateParts(memory);
    current := FindOrDecode(cache, mips, memory, code, t);
    if previous != null {
      assert cache.blocks[previous.address] == previous && previous.next == old(previous.next);
      cache.HeldBlock(previous, code);
    }
    if previous != null && !previous.indirect {
      cache.Link(previous, mips.branched, current, code);
    }
    cache.HeldAddress(t.r[PC], code);
  }

  /** One turn of the outer loop. */
  method TurnBlocked(h: Host, cache: Cache, last: Block?, mips: Mips, memory: PagedMemory, budget: nat,
                     ghost code: Mem, ghost s0: Machine, ghost t: Machine)
    returns (ok: bool, previous: Block, left: nat, ghost s: Machine)
    requires cache.Valid(code) && mips.Ready(memory) && Apart(cache, mips, memory) && t == mips.State(memory)
    requires Tracks(h, code, s0, t, budget) && budget > 0 && !t.halted
    requires last != null ==> cache.Holds(last) && Led(last, t)
    modifies mips, mips.r, memory.Repr, cache.Repr
    ensures !ok ==> RunBlocks(h, code, t, budget).None?
    ensures ok ==> mips.Ready(memory) && fresh(memory.Repr - old(memory.Repr)) && fresh(cache.Repr - old(cache.Repr))
    ensures ok ==> left < budget && RunBlocks(h, code, t, budget) == RunBlocks(h, code, mips.State(memory), left)
    ensures ok ==> Tracks(h, code, s, mips.State(memory), left)
    ensures ok ==> cache.Valid(code) && Apart(cache, mips, memory) && cache.Holds(previous)
    ensures ok ==> Led(previous, mips.State(memory))
  {
    hide mips.Ready, mips.State, RunBlocks, Tracks, WordsAt, DecodesAt, Led, BlockShape, Within, cache.Valid;
    TracksNow(h, code, s0, t, budget);
    var current := NextBlock(cache, last, mips, memory, code, t);
    ok, previous, left, s := RunChain(h, cache, current, mips, memory, budget, code, s0, t);
  }

  lemma RunBlocksEnd(h: Host, code: Mem, t: Machine, n: nat)
    requires t.halted || n == 0
    ensures RunBlocks(h, code, t, n) == Some(t)
  {}

  /** The outer loop. */
  method RunCache(h: Host, cache: Cache, mips: Mips, memory: PagedMemory, budget: nat,
                  ghost code: Mem, ghost t0: Machine)
    returns (ok: bool)
    requires cache.Valid(code) && mips.Ready(memory) && Apart(cache, mips, memory) && t0 == mips.State(memory)
    requires Tracks(h, code, t0, t0, budget)
    modifies mips, mips.r, memory.Repr, cache.Repr
    ensures ok ==> mips.Ready(memory) && fresh(memory.Repr - old(memory.Repr)) && fresh(cache.Repr - old(cache.Repr))
    ensures RunBlocks(h, code, t0, budget) == if ok then Some(mips.State(memory)) else None
    ensures ok ==> cache.Valid(code) && Apart(cache, mips, memory)
  {
    hide mips.Ready, mips.State, RunBlocks, Tracks, Led, cache.Valid;
    ghost var s, t := t0, t0;
    var left, previous: Block? := budget, null;
    mips.StateParts(memory);
    while !mips.halted && left > 0
      invariant mips.Ready(memory) && fresh(memory.Repr - old(memory.Repr)) && t == mips.State(memory)
      invariant cache.Valid(code) && Apart(cache, mips, memory) && fresh(cache.Repr - old(cache.Repr))
      invariant previous != null ==> cache.Holds(previous) && Led(previous, t)
      invariant Tracks(h, code, s, t, left) && t.halted == mips.halted
      invariant RunBlocks(h, code, t0, budget) == RunBlocks(h, code, t, left)
    {
      ok, previous, left, s := TurnBlocked(h, cache, previous, mips, memory, left, code, s, t);
      if !ok {
        return;
      }
      t := mips.State(memory);
      mips.StateParts(memory);
    }
    RunBlocksEnd(h, code, t, left);
    ok := true;
  }

  lemma StartRun(h: Host, code: Mem, t: Machine, n: nat)
    requires Straight(t) && WellBehaved(h, code, t, n)
    ensures Tracks(h, code, t, t, n) && Refined(h, code, t, n, RunBlocks(h, code, t, n))
    ensures Over(Run(h, t, n)) ==> Over(RunBlocks(h, code, t, n))
  {
    hide Run, RunBlocks, Refined, Straight, WellBehaved, AtSamePoint, Over;
    SamePointSelf(t);
    BlocksRefineSwitch(h, code, t, t, n);
    if Over(Run(h, t, n)) {
      BudgetSuffices(h, code, t, t, n);
    }
  }

  /**
   * interpreter_blocked, for at most budget blocks, since a guest may never exit. It ends where
   * running decoded blocks one after the other ends, hence where the switch engine ends; and a
   * budget of as many blocks as that engine takes turns to its end is enough.
   */
  method InterpreterBlocked(h: Host, hash: Word -> Word, mips: Mips, memory: PagedMemory, budget: nat, ghost code: Mem)
    returns (ok: bool, ghost cache: Cache)
    requires mips.Ready(memory) && Straight(mips.State(memory))
    requires WellBehaved(h, code, mips.State(memory), budget)
    modifies mips, mips.r, memory.Repr
    ensures ok ==> mips.Ready(memory) && fresh(memory.Repr - old(memory.Repr))
    ensures RunBlocks(h, code, old(mips.State(memory)), budget) == if ok then Some(mips.State(memory)) else None
    ensures Refined(h, code, old(mips.State(memory)), budget, if ok then Some(mips.State(memory)) else None)
    ensures Over(Run(h, old(mips.State(memory)), budget)) ==> !ok || mips.halted
    ensures ok ==> cache.table.order == []
  {
    hide mips.Ready, mips.State, Run, RunBlocks, Tracks, Refined, Straight, WellBehaved;
    StartRun(h, code, mips.State(memory), budget);
    var blocks := new Cache(hash, code);
    cache := blocks;
    hide blocks.Valid;
    ok := RunCache(h, blocks, mips, memory, budget, code, mips.State(memory));
    if ok {
      mips.StateParts(memory);
      var freed := blocks.FreeBlocks(code);
    }
  }
}
