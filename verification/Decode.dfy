/**
 * blocked.c, decode_block: a decoded block is an array of words with their handlers,
 * closed by a null handler.
 */
module DecodeBlocks {
  import opened Words
  import opened Machines
  import opened Instructions
  import opened Switch
  import opened Memory
  import opened Cpu
  import opened Threaded
  import opened Blocks

  /** op_t; None is the NULL handler. */
  datatype Slot = Slot(cir: Word, handler: Option<Op>)

  /** ops spells ws with the dispatched handlers, then the null terminator. */
  ghost predicate Spells(ops: array<Slot>, ws: seq<Word>)
    reads ops
  {
    && |ws| + 1 <= ops.Length
    && (forall i | 0 <= i < |ws| :: ops[i] == Slot(ws[i], Decode(ws[i])) && Decode(ws[i]).Some?)
    && ops[|ws|].handler == None
  }

  predicate IndirectWord(w: Word) {
    Decode(w).Some? && IsIndirect(Decode(w).value)
  }

  ghost predicate AnyIndirect(ws: seq<Word>) {
    exists i | 0 <= i < |ws| :: IndirectWord(ws[i])
  }

  class Block {
    const address: Word
    /** The number of ops, the terminator included. */
    const size: nat
    const ops: array<Slot>
    const indirect: bool
    /** next[0] - continue, next[1] - jump or branch */
    var next: seq<Block?>
    ghost const words: seq<Word>

    constructor (address: Word, size: nat, ops: array<Slot>, indirect: bool, ghost words: seq<Word>)
      ensures this.address == address && this.size == size && this.ops == ops && this.indirect == indirect
      ensures this.words == words && next == [null, null]
    {
      this.address, this.size, this.ops, this.indirect := address, size, ops, indirect;
      this.words := words;
      next := [null, null];
    }

    /** The decoded form of its words. */
    ghost predicate Decoded()
      reads ops
    {
      && |words| >= 2 && size == |words| + 1 && Spells(ops, words)
      && (indirect <==> AnyIndirect(words))
    }
  }

  // ----- decode_block -----

  /** DARRAY_PUSH */
  method Push(ops: array<Slot>, size: nat, capacity: nat, slot: Slot) returns (ops': array<Slot>, capacity': nat)
    requires size <= capacity == ops.Length && capacity > 0
    modifies ops
    ensures capacity' == ops'.Length == if size == capacity then 2 * capacity else capacity
    ensures size < capacity' && (ops' == ops || fresh(ops'))
    ensures ops'[..size + 1] == old(ops[..size]) + [slot]
  {
    ops', capacity' := ops, capacity;
    if size == capacity {
      capacity' := 2 * capacity;
      ops' := new Slot[capacity'](
        i requires 0 <= i < capacity' reads ops => if i < ops.Length then ops[i] else Slot(0, None));
    }
    ops'[size] := slot;
  }

  /** The words read so far, in front of what the rest of the scan gives. */
  function PrependAll(ws: seq<Word>, s: Scanned): Scanned {
    match s case Complete(xs) => Complete(ws + xs) case _ => s
  }

  lemma PrependAllMore(ws: seq<Word>, w: Word, s: Scanned)
    ensures PrependAll(ws, Prepend(w, s)) == PrependAll(ws + [w], s)
  {
    if s.Complete? {
      assert ws + ([w] + s.words) == ws + [w] + s.words;
    }
  }

  /** The slots of the words read so far. */
  ghost function Slots(ws: seq<Word>): seq<Slot> {
    seq(|ws|, i requires 0 <= i < |ws| => Slot(ws[i], Decode(ws[i])))
  }

  lemma SlotsAppend(ws: seq<Word>, w: Word)
    ensures Slots(ws + [w]) == Slots(ws) + [Slot(w, Decode(w))]
  {
    hide Decode;
  }

  lemma AnyIndirectAppend(ws: seq<Word>, w: Word)
    ensures AnyIndirect(ws + [w]) <==> AnyIndirect(ws) || IndirectWord(w)
  {
    hide IndirectWord;
    var xs := ws + [w];
    assert xs[|ws|] == w;
    if AnyIndirect(ws) {
      var i :| 0 <= i < |ws| && IndirectWord(ws[i]);
      assert xs[i] == ws[i];
    }
  }

  /** memory_read_u32 and the dispatch; None stands for the crash of either. */
  method NextWord(memory: PagedMemory, pc: Word) returns (op: Option<Op>, cir: Word)
    requires memory.Valid()
    ensures op.Some? ==> Fetch(memory.Flat(), pc) == Some(cir) && Decode(cir) == op
    ensures op.None? ==> Fetch(memory.Flat(), pc).None? || Decode(Fetch(memory.Flat(), pc).value).None?
  {
    hide memory.Flat, memory.Valid, FlatOf, Raw, Load32, TableDecode, Decode;
    var ok, word := memory.ReadU32(pc);
    TablesAgree(word);
    op, cir := None, word;
    if ok {
      op := TableDecode(word);
    }
  }

  /** What one more word read does to the scan under way. */
  lemma ScanStep(mem: Mem, pc: Word, branched: bool, left: nat, ws: seq<Word>, cir: Word, op: Op)
    requires left > 0 && Fetch(mem, pc) == Some(cir) && Decode(cir) == Some(op)
    ensures var whole := PrependAll(ws, Scan(mem, pc, branched, left));
            if !IsBranch(op) && branched then whole == Complete(ws + [cir])
            else whole == PrependAll(ws + [cir], Scan(mem, Plus(pc, 4), branched || IsBranch(op), left - 1))
  {
    hide Fetch, Decode, IsBranch, Plus;
    if IsBranch(op) || !branched {
      PrependAllMore(ws, cir, Scan(mem, Plus(pc, 4), branched || IsBranch(op), left - 1));
    }
  }

  lemma ScanCrash(mem: Mem, pc: Word, branched: bool, left: nat, ws: seq<Word>)
    requires left > 0 && (Fetch(mem, pc).None? || Decode(Fetch(mem, pc).value).None?)
    ensures PrependAll(ws, Scan(mem, pc, branched, left)) == Fault
  {
    hide Fetch, Decode, IsBranch, Plus;
  }

  lemma ScanOut(mem: Mem, pc: Word, branched: bool)
    ensures Scan(mem, pc, branched, 0) == Unfinished
  {}

  lemma SlotsSpell(ops: array<Slot>, ws: seq<Word>)
    requires |ws| < ops.Length && ops[..|ws| + 1] == Slots(ws) + [Slot(0, None)]
    requires forall w | w in ws :: Decode(w).Some?
    ensures Spells(ops, ws)
  {
    hide Decode;
    forall i | 0 <= i < |ws|
      ensures ops[i] == Slot(ws[i], Decode(ws[i]))
    {
      assert ops[i] == ops[..|ws| + 1][i] == Slots(ws)[i];
    }
    assert ops[|ws|] == ops[..|ws| + 1][|ws|];
  }

  /** The null terminator. */
  method CloseOps(ops: array<Slot>, size: nat, ghost ws: seq<Word>) returns (capacity: nat, closed: array<Slot>)
    requires size == |ws| <= ops.Length && ops.Length > 0 && ops[..size] == Slots(ws)
    requires forall w | w in ws :: Decode(w).Some?
    modifies ops
    ensures (closed == ops || fresh(closed)) && Spells(closed, ws)
  {
    closed, capacity := Push(ops, size, ops.Length, Slot(0, None));
    SlotsSpell(closed, ws);
  }

  lemma StartDecode(ops: array<Slot>)
    ensures ops[..0] == Slots([]) && !AnyIndirect([])
  {}

  lemma PrependAllNone(s: Scanned)
    ensures PrependAll([], s) == s
  {
    if s.Complete? {
      assert [] + s.words == s.words;
    }
  }

  lemma IndirectIs(w: Word, op: Op)
    requires Decode(w) == Some(op)
    ensures IndirectWord(w) == IsIndirect(op) && (IsIndirect(op) ==> IsBranch(op))
  {}

  /** The dispatch chain of decode_block. */
  method DecodeOps(memory: PagedMemory, start: Word, ghost fuel: nat)
    returns (ok: bool, ops: array<Slot>, size: nat, indirect: bool, ghost ws: seq<Word>)
    requires memory.Valid() && !Scan(memory.Flat(), start, false, fuel).Unfinished?
    ensures ok <==> Scan(memory.Flat(), start, false, fuel).Complete?
    ensures !ok <==> Scan(memory.Flat(), start, false, fuel).Fault?
    ensures fresh(ops) && ops.Length > 0
    ensures ok ==> Scan(memory.Flat(), start, false, fuel) == Complete(ws) && size == |ws| <= ops.Length
    ensures ok ==> ops[..size] == Slots(ws) && (indirect <==> AnyIndirect(ws))
    ensures ok ==> forall w | w in ws :: Decode(w).Some?
  {
    hide Scan, Decode, Slots, AnyIndirect, memory.Flat, memory.Valid, FlatOf, IndirectWord, Fetch, Plus, IsBranch;
    hide IsIndirect;
    ghost var mem := memory.Flat();
    ghost var left := fuel;
    ghost var whole := Scan(mem, start, false, fuel);
    var pc, capacity, branched, complete := start, 32, false, false;
    ws, size, indirect := [], 0, false;
    ops := new Slot[capacity](_ => Slot(0, None));
    StartDecode(ops);
    PrependAllNone(whole);
    while !complete
      invariant fresh(ops) && ops.Length == capacity > 0 && size == |ws| <= capacity
      invariant ops[..size] == Slots(ws) && (indirect <==> AnyIndirect(ws))
      invariant forall w | w in ws :: Decode(w).Some?
      invariant whole == if complete then Complete(ws) else PrependAll(ws, Scan(mem, pc, branched, left))
      decreases !complete, left
    {
      ScanOut(mem, pc, branched);
      var op, cir := NextWord(memory, pc);
      if op.None? {
        ScanCrash(mem, pc, branched, left, ws);
        ok := false;
        return;
      }
      ScanStep(mem, pc, branched, left, ws, cir, op.value);
      SlotsAppend(ws, cir);
      AnyIndirectAppend(ws, cir);
      IndirectIs(cir, op.value);
      ops, capacity := Push(ops, size, capacity, Slot(cir, op));
      size, ws, left, pc := size + 1, ws + [cir], left - 1, Plus(pc, 4);
      if IsBranch(op.value) {
        branched := true;
        if IsIndirect(op.value) {
          indirect := true;
        }
      } else if branched {
        complete := true;
      }
    }
    ok := true;
  }

  lemma DecodedShape(mem: Mem, pc: Word, fuel: nat)
    requires Scan(mem, pc, false, fuel).Complete?
    ensures |Scan(mem, pc, false, fuel).words| >= 2
  {
    ScanShape(mem, pc, false, fuel);
  }

  /** decode_block; null stands for the crash at an unmapped or undefined word. */
  method DecodeBlock(mips: Mips, memory: PagedMemory, ghost mem: Mem, ghost fuel: nat) returns (blk: Block?)
    requires mips.Ready(memory) && !mips.halted && mem == memory.Flat()
    requires !Scan(mem, mips.r[PC], false, fuel).Unfinished?
    ensures blk == null <==> Scan(mem, mips.r[PC], false, fuel).Fault?
    ensures blk != null ==>
      && fresh(blk) && fresh(blk.ops) && blk.address == mips.r[PC] && blk.next == [null, null]
      && blk.words == Scan(mem, mips.r[PC], false, fuel).words && blk.Decoded()
  {
    mips.ReadyMemory(memory);
    hide Scan, Decode, Slots, AnyIndirect, memory.Flat, memory.Valid, FlatOf, mips.Ready, mips.State, Spells;
    var ok, ops, size, indirect, ws := DecodeOps(memory, mips.r[PC], fuel);
    if !ok {
      return null;
    }
    DecodedShape(mem, mips.r[PC], fuel);
    var _, closed := CloseOps(ops, size, ws);
    blk := new Block(mips.r[PC], size + 1, closed, indirect, ws);
  }
}
