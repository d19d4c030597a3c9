/**
 * blocked.c: the blocks the engine keeps, found by address through the hash table and
 * chained to their successors by branch outcome.
 */
module BlockCache {
  import opened Words
  import opened Machines
  import opened Instructions
  import opened Switch
  import opened Blocks
  import opened Simulation
  import opened DecodeBlocks
  import opened HashTable

  /** Where the branch of a block at address leads for each outcome. */
  ghost function Target(address: Word, ws: seq<Word>, taken: bool): Word
    requires BlockShape(ws, false)
  {
    var w := ws[|ws| - 2];
    StaticTarget(Decode(w).value, w, Plus(address, 4 * (|ws| - 2)), taken)
  }

  /** b is what decode_block makes of the code at address. */
  ghost predicate Fits(code: Mem, address: Word, b: Block)
    reads b.ops
  {
    && b.address == address && DecodesAt(code, address) && b.words == WordsAt(code, address)
    && BlockShape(b.words, false) && b.Decoded()
  }

  lemma PlainIsDirect(w: Word)
    requires PlainWord(w)
    ensures !IndirectWord(w)
  {}

  /** A block with a single branch is indirect exactly when that branch is jr or jalr. */
  lemma IndirectBranch(ws: seq<Word>)
    requires SimpleBlock(ws)
    ensures AnyIndirect(ws) <==> IndirectWord(ws[|ws| - 2])
  {
    hide PlainWord, BranchWord, IndirectWord;
    forall i | 0 <= i < |ws| && i != |ws| - 2
      ensures !IndirectWord(ws[i])
    {
      PlainIsDirect(ws[i]);
    }
  }

  class Cache {
    const table: Table<Block>
    /** The plain map the table stands for. */
    ghost var blocks: map<Word, Block>
    ghost var Repr: set<object>

    /** Everything the cache owns. */
    ghost predicate ValidRepr()
      reads this, Repr
    {
      && this in Repr && table in Repr && table.buckets in Repr
      && (forall x | x in table.order :: x in Repr)
      && (forall pc | pc in blocks :: blocks[pc] in Repr && blocks[pc].ops in Repr)
    }

    ghost predicate ValidTable()
      reads this, Repr
      requires ValidRepr()
    {
      table.Valid() && blocks == MapOf(table.order)
    }

    /** Each cached block is what decoding its address would give. */
    ghost predicate Coherent(code: Mem)
      reads this, Repr
      requires ValidRepr()
    {
      forall pc | pc in blocks :: Fits(code, pc, blocks[pc])
    }

    ghost predicate LinkSound(b: Block, taken: bool, c: Block?)
      reads this
    {
      c != null ==>
        && !b.indirect && BlockShape(b.words, false)
        && Target(b.address, b.words, taken) in blocks && c == blocks[Target(b.address, b.words, taken)]
    }

    ghost predicate BlockLinked(b: Block)
      reads this, b
    {
      |b.next| == 2 && LinkSound(b, false, b.next[0]) && LinkSound(b, true, b.next[1])
    }

    /** Every link of a direct block leads to the block a look-up of that target would find. */
    ghost predicate Linked()
      reads this, Repr
      requires ValidRepr()
    {
      forall pc | pc in blocks :: BlockLinked(blocks[pc])
    }

    ghost predicate Valid(code: Mem)
      reads this, Repr
    {
      ValidRepr() && ValidTable() && Coherent(code) && Linked()
    }

    constructor (hash: Word -> Word, ghost code: Mem)
      ensures Valid(code) && fresh(Repr) && this in Repr && blocks == map[]
    {
      table := new Table(hash);
      blocks := map[];
      new;
      Repr := {this, table, table.buckets};
    }

    ghost predicate Holds(b: Block)
      reads this
    {
      b.address in blocks && blocks[b.address] == b
    }

    lemma MapOfFindNow(pc: Word)
      requires ValidRepr() && ValidTable()
      ensures pc in blocks <==> exists x :: x in table.order && x.key == pc
      ensures forall x | x in table.order && x.key == pc :: blocks[pc] == x.elmt
    {
      hide MapOf;
      table.ValidParts();
      MapOfFind(table.order, pc);
    }

    /** HASH_FIND on the block cache: a look-up in the plain map. */
    method Find(pc: Word, ghost code: Mem) returns (b: Block?)
      requires Valid(code)
      ensures b == if pc in blocks then blocks[pc] else null
    {
      hide Coherent, Linked, table.Valid, MapOf, Fits;
      var x := table.Find(pc);
      MapOfFindNow(pc);
      b := if x == null then null else x.elmt;
    }

    /** The table part of an insertion. */
    method InsertTable(b: Block)
      requires ValidRepr() && ValidTable() && b.address !in blocks
      modifies this, table, table.buckets, table.order
      ensures ValidRepr() && ValidTable() && blocks == old(blocks)[b.address := b]
      ensures fresh(Repr - old(Repr) - {b, b.ops}) && old(Repr) + {b, b.ops} <= Repr
      ensures forall pc | pc in old(blocks) :: blocks[pc].next == old(blocks[pc].next)
    {
      hide table.Valid, MapOf;
      MapOfFindNow(b.address);
      var x := table.Add(b.address, b);
      MapOfAdd(old(table.order), x);
      blocks := blocks[b.address := b];
      Repr := Repr + {b, b.ops, x, table.buckets};
    }

    /** HASH_ADD of a newly decoded block. */
    method Insert(b: Block, ghost code: Mem)
      requires Valid(code) && b.address !in blocks && Fits(code, b.address, b)
      requires b !in Repr && b.ops !in Repr && b.next == [null, null]
      modifies Repr
      ensures Valid(code) && fresh(Repr - old(Repr) - {b, b.ops}) && old(Repr) <= Repr
      ensures blocks == old(blocks)[b.address := b]
      ensures forall pc | pc in old(blocks) :: blocks[pc].next == old(blocks[pc].next)
    {
      hide table.Valid, MapOf, Fits, BlockShape, Target;
      InsertTable(b);
      forall pc | pc in blocks
        ensures Fits(code, pc, blocks[pc]) && BlockLinked(blocks[pc])
      {
        if pc != b.address {
          assert old(Fits(code, pc, blocks[pc])) && old(BlockLinked(blocks[pc]));
        }
      }
    }

    /** previous->next[branched] = current */
    method Link(p: Block, taken: bool, c: Block, ghost code: Mem)
      requires Valid(code) && Holds(p) && !p.indirect && BlockShape(p.words, false)
      requires Target(p.address, p.words, taken) in blocks && c == blocks[Target(p.address, p.words, taken)]
      modifies p`next
      ensures Valid(code)
      ensures p.next == old(p.next)[(if taken then 1 else 0) := c]
    {
      hide table.Valid, MapOf, BlockShape, Target, Fits;
      assert BlockLinked(p);
      p.next := p.next[(if taken then 1 else 0) := c];
      assert BlockLinked(p);
      forall pc | pc in blocks
        ensures Fits(code, pc, blocks[pc]) && BlockLinked(blocks[pc])
      {
        assert old(Fits(code, pc, blocks[pc])) && old(BlockLinked(blocks[pc]));
      }
    }

    lemma HeldBlock(p: Block, code: Mem)
      requires Valid(code) && Holds(p)
      ensures p in Repr && p.ops in Repr && Fits(code, p.address, p) && |p.next| == 2
      ensures LinkSound(p, false, p.next[0]) && LinkSound(p, true, p.next[1])
    {}

    lemma HeldAddress(pc: Word, code: Mem)
      requires Valid(code) && pc in blocks
      ensures blocks[pc].address == pc && Holds(blocks[pc])
    {}

    /** HASH_ITER with HASH_DEL and free: every block once. */
    method FreeBlocks(ghost code: Mem) returns (freed: seq<Handle<Block>>)
      requires Valid(code)
      modifies Repr
      ensures table.order == [] && freed == old(table.order)
      ensures UniqueKeys(freed) && MapOf(freed) == old(blocks)
    {
      hide table.Valid, MapOf, Coherent, Linked, UniqueKeys;
      table.ValidParts();
      freed := table.DeleteAll();
    }
  }
}
