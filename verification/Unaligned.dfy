/**
 * instructions.h, lwl and lwr: the masks, and the pair of loads that fetches a word from any
 * four consecutive bytes.
 */
module Unaligned {
  import opened Words
  import opened Machines
  import opened Instructions
  import opened Memory

  lemma Bytes8Pow(k: nat)
    requires k <= 4
    ensures Bytes8(k) == Pow2(8 * k)
  {
    Pow2Values();
  }

  /** The target of a jump: the top four bits of the PC above the field. */
  lemma JumpTargetParts(pc: Word, imm26: nat)
    requires imm26 < 0x400_0000
    ensures JumpTarget(pc, imm26) == 0x1000_0000 * (pc / 0x1000_0000) + 4 * imm26
  {
    Pow2Values();
    assert Pow2(28) == 0x1000_0000 && Pow2(4) == 16 by { assert Pow2(26) == 4 * Pow2(24); }
    KeepHigh(pc, 4 * imm26, 28, 4);
  }

  /** lwr puts the upper 4 - k bytes of the word under the upper bytes rt had. */
  lemma RightMerged(prev: Word, word: Word, k: nat)
    requires k < 4
    ensures MergeRight(prev, word, k) == Bytes8(4 - k) * (prev / Bytes8(4 - k)) + word / Bytes8(k)
  {
    hide Or, And, Pow2;
    Bytes8Pow(4 - k);
    Bytes8Pow(k);
    KeepHigh(prev, word / Bytes8(k), 8 * (4 - k), 8 * k);
  }

  lemma Dropped(x: nat, y: nat, e: nat)
    requires x == y + M32 * e && y < M32
    ensures Wrap(x) == y
  {}

  /** The part of a word that a shift to the left drops. */
  lemma Lower(d: nat, e: nat, b: nat, w: Word, s: nat)
    requires (b == 0x100 && s == 0x100_0000) || (b == 0x1_0000 && s == 0x1_0000) || (b == 0x100_0000 && s == 0x100)
    requires d < b && w == d + b * e
    ensures Wrap(w * s) == d * s
  {
    if b == 0x100 {
      Dropped(w * 0x100_0000, d * 0x100_0000, e);
    } else if b == 0x1_0000 {
      Dropped(w * 0x1_0000, d * 0x1_0000, e);
    } else {
      Dropped(w * 0x100, d * 0x100, e);
    }
  }

  /** What lwl keeps of the word is a multiple of its shift. */
  lemma ShiftMultiple(word: Word, k: nat)
    requires k < 4
    ensures Wrap(word * Bytes8(3 - k)) == Bytes8(3 - k) * (word % Bytes8(k + 1))
    ensures Not(Wrap(0xFFFF_FFFF * Bytes8(3 - k))) == Bytes8(3 - k) - 1
  {
    if k == 0 {
      Lower(word % 0x100, word / 0x100, 0x100, word, 0x100_0000);
    } else if k == 1 {
      Lower(word % 0x1_0000, word / 0x1_0000, 0x1_0000, word, 0x1_0000);
    } else if k == 2 {
      Lower(word % 0x100_0000, word / 0x100_0000, 0x100_0000, word, 0x100);
    }
  }

  /** lwl puts the lower k + 1 bytes of the word over the lower bytes rt had. */
  lemma LeftMerged(prev: Word, word: Word, k: nat)
    requires k < 4
    ensures MergeLeft(prev, word, k) == prev % Bytes8(3 - k) + Wrap(word * Bytes8(3 - k))
  {
    hide Or, And, Pow2, Wrap, Not;
    Bytes8Pow(3 - k);
    ShiftMultiple(word, k);
    KeepLow(prev, word % Bytes8(k + 1), 8 * (3 - k), Wrap(word * Bytes8(3 - k)));
  }

  // ----- the four bytes -----

  /** A memory made of whole pages, as the page tables give it. */
  ghost predicate WholePages(mem: Mem) {
    forall a: Word, b: Word | a in mem && Page(b) == Page(a) :: b in mem
  }

  lemma FlatWholePages(memory: PagedMemory)
    requires memory.Valid()
    ensures WholePages(memory.Flat())
  {
    hide memory.Flat;
  }

  lemma AlignedRaw(mem: Mem, a: Word)
    requires WholePages(mem) && a in mem
    ensures Raw(mem, a - a % 4, 4)
  {
    var b := a - a % 4;
    assert Page(b) == Page(a) && b % PAGE + 4 <= PAGE;
    assert Page(b + 1) == Page(a) && Page(b + 2) == Page(a) && Page(b + 3) == Page(a);
  }

  /** The value of the four bytes from a on. */
  function FourBytes(mem: Mem, a: Word): Word
    requires Covers(mem, a, 4)
  {
    LittleEndian(mem[Plus(a, 0)], mem[Plus(a, 1)], mem[Plus(a, 2)], mem[Plus(a, 3)])
  }

  /** The word that holds the last of the four bytes. */
  lemma LastWord(a: Word)
    ensures var b := Plus(a, 3);
            && (a % 4 == 0 ==> b - b % 4 == a && b % 4 == 3)
            && (a % 4 != 0 ==> b - b % 4 == Plus(a - a % 4, 4) && b % 4 == a % 4 - 1)
  {}

  lemma Upper(c: nat, x: nat, b: nat)
    requires c < b && (b == 0x100 || b == 0x1_0000 || b == 0x100_0000)
    ensures (c + b * x) / b == x
  {
    if b == 0x100 {
      assert (c + 0x100 * x) / 0x100 == x;
    } else if b == 0x1_0000 {
      assert (c + 0x1_0000 * x) / 0x1_0000 == x;
    } else {
      assert (c + 0x100_0000 * x) / 0x100_0000 == x;
    }
  }

  lemma SplitValue(c0: Byte, c1: Byte, c2: Byte, c3: Byte, d0: Byte, d1: Byte, d2: Byte, d3: Byte, k: nat)
    requires 0 < k < 4
    ensures LittleEndian(c0, c1, c2, c3) / Bytes8(k) + Wrap(LittleEndian(d0, d1, d2, d3) * Bytes8(4 - k)) ==
            if k == 1 then LittleEndian(c1, c2, c3, d0)
            else if k == 2 then LittleEndian(c2, c3, d0, d1)
            else LittleEndian(c3, d0, d1, d2)
  {
    hide Wrap;
    var d := LittleEndian(d0, d1, d2, d3);
    if k == 1 {
      Upper(c0, c1 + 0x100 * c2 + 0x1_0000 * c3, 0x100);
      Lower(d0, d1 + 0x100 * d2 + 0x1_0000 * d3, 0x100, d, 0x100_0000);
    } else if k == 2 {
      Upper(c0 + 0x100 * c1, c2 + 0x100 * c3, 0x1_0000);
      Lower(d0 + 0x100 * d1, d2 + 0x100 * d3, 0x1_0000, d, 0x1_0000);
    } else {
      Upper(c0 + 0x100 * c1 + 0x1_0000 * c2, c3, 0x100_0000);
      Lower(d0 + 0x100 * d1 + 0x1_0000 * d2, d3, 0x100_0000, d, 0x100);
    }
  }

  lemma BytesOf(mem: Mem, a: Word)
    requires Covers(mem, a, 4) && a % 4 != 0
    requires Raw(mem, a - a % 4, 4) && Raw(mem, Plus(a - a % 4, 4), 4)
    ensures var x, y := a - a % 4, Plus(a - a % 4, 4);
            && x in mem && x + 1 in mem && x + 2 in mem && x + 3 in mem
            && y in mem && y + 1 in mem && y + 2 in mem && y + 3 in mem
            && (forall i | 0 <= i < 4 :: Plus(a, i) == if a % 4 + i < 4 then x + a % 4 + i else y + a % 4 + i - 4)
  {}

  lemma WordAt(mem: Mem, x: Word)
    requires Raw(mem, x, 4)
    ensures x in mem && x + 1 in mem && x + 2 in mem && x + 3 in mem
    ensures Load32(mem, x) == LittleEndian(mem[x], mem[x + 1], mem[x + 2], mem[x + 3])
  {}

  /** The four bytes, by the words they lie in. */
  lemma FourBytesAre(mem: Mem, a: Word)
    requires Covers(mem, a, 4) && a % 4 != 0
    requires Raw(mem, a - a % 4, 4) && Raw(mem, Plus(a - a % 4, 4), 4)
    ensures var k, x, y := a % 4, a - a % 4, Plus(a - a % 4, 4);
            && x + 1 in mem && x + 2 in mem && x + 3 in mem && y in mem && y + 1 in mem && y + 2 in mem
            && FourBytes(mem, a) ==
               if k == 1 then LittleEndian(mem[x + 1], mem[x + 2], mem[x + 3], mem[y])
               else if k == 2 then LittleEndian(mem[x + 2], mem[x + 3], mem[y], mem[y + 1])
               else LittleEndian(mem[x + 3], mem[y], mem[y + 1], mem[y + 2])
  {
    hide LittleEndian;
    var x, y := a - a % 4, Plus(a - a % 4, 4);
    BytesOf(mem, a);
    assert Plus(a, 0) == x + a % 4;
    assert Plus(a, 3) == y + a % 4 - 1;
  }

  /** The upper bytes of one word and the lower bytes of the next make the four bytes. */
  lemma FourBytesSplit(mem: Mem, a: Word)
    requires Covers(mem, a, 4) && a % 4 != 0
    requires Raw(mem, a - a % 4, 4) && Raw(mem, Plus(a - a % 4, 4), 4)
    ensures var k := a % 4;
            FourBytes(mem, a) == Load32(mem, a - k) / Bytes8(k) + Wrap(Load32(mem, Plus(a - k, 4)) * Bytes8(4 - k))
  {
    hide Load32, Bytes8, Wrap, LittleEndian, FourBytes, Raw, Covers, Plus;
    var k, x, y := a % 4, a - a % 4, Plus(a - a % 4, 4);
    WordAt(mem, x);
    WordAt(mem, y);
    FourBytesAre(mem, a);
    SplitValue(mem[x], mem[x + 1], mem[x + 2], mem[x + 3], mem[y], mem[y + 1], mem[y + 2], mem[y + 3], k);
  }

  // ----- the pair -----

  /** Whatever rt held, lwr and then lwl leave the upper bytes of one word under the lower bytes of the next. */
  lemma RightThenLeft(prev: Word, w0: Word, w1: Word, k: nat)
    requires 0 < k < 4
    ensures MergeLeft(MergeRight(prev, w0, k), w1, k - 1) == w0 / Bytes8(k) + Wrap(w1 * Bytes8(4 - k))
  {
    hide MergeLeft, MergeRight, Wrap;
    RightMerged(prev, w0, k);
    LeftMerged(MergeRight(prev, w0, k), w1, k - 1);
  }

  lemma ShiftedUp(low: nat, w: Word, k: nat)
    requires 0 < k < 4 && low < Bytes8(4 - k)
    ensures var b := Bytes8(4 - k); b * ((low + Wrap(w * b)) / b) == Wrap(w * b)
  {
    if k == 1 {
      Lower(w % 0x100, w / 0x100, 0x100, w, 0x100_0000);
      Upper(low, w % 0x100, 0x100_0000);
    } else if k == 2 {
      Lower(w % 0x1_0000, w / 0x1_0000, 0x1_0000, w, 0x1_0000);
      Upper(low, w % 0x1_0000, 0x1_0000);
    } else {
      Lower(w % 0x100_0000, w / 0x100_0000, 0x100_0000, w, 0x100);
      Upper(low, w % 0x100_0000, 0x100);
    }
  }

  /** And so do lwl and then lwr. */
  lemma LeftThenRight(prev: Word, w0: Word, w1: Word, k: nat)
    requires 0 < k < 4
    ensures MergeRight(MergeLeft(prev, w1, k - 1), w0, k) == w0 / Bytes8(k) + Wrap(w1 * Bytes8(4 - k))
  {
    hide MergeLeft, MergeRight, Wrap;
    LeftMerged(prev, w1, k - 1);
    RightMerged(MergeLeft(prev, w1, k - 1), w0, k);
    ShiftedUp(prev % Bytes8(4 - k), w1, k);
  }

  lemma MergeAligned(prev: Word, w: Word)
    ensures MergeRight(prev, w, 0) == w && MergeLeft(prev, w, 3) == w
  {
    hide MergeLeft, MergeRight;
    RightMerged(prev, w, 0);
    LeftMerged(prev, w, 3);
  }

  /** The words of the pair: the same registers, offsets three apart. */
  predicate Pair(wr: Word, wl: Word) {
    && Decode(wr) == Some(LWR) && Decode(wl) == Some(LWL)
    && Rs(wr) == Rs(wl) && Rt(wr) == Rt(wl) && Rt(wr) != Rs(wr)
    && SignExtend16(Imm16(wl)) == SignExtend16(Imm16(wr)) + 3
  }

  lemma Mapped(mem: Mem, a: Word)
    requires Covers(mem, a, 4)
    ensures a in mem && Plus(a, 3) in mem
  {
    assert Plus(a, 0) == a;
  }

  lemma AlignedBytes(mem: Mem, a: Word)
    requires Covers(mem, a, 4) && a % 4 == 0 && Raw(mem, a, 4)
    ensures FourBytes(mem, a) == Load32(mem, a)
  {}

  /** What one load of the pair computes. */
  lemma PairLoads(mem: Mem, a: Word, prev: Word)
    requires WholePages(mem) && Covers(mem, a, 4)
    ensures Load(LWR, mem, a, prev).Some? && Load(LWL, mem, Plus(a, 3), prev).Some?
    ensures Load(LWL, mem, Plus(a, 3), Load(LWR, mem, a, prev).value) == Some(FourBytes(mem, a))
    ensures Load(LWR, mem, a, Load(LWL, mem, Plus(a, 3), prev).value) == Some(FourBytes(mem, a))
  {
    hide WholePages, Raw, Load32, MergeLeft, MergeRight, Covers, Plus, FourBytes;
    Mapped(mem, a);
    AlignedRaw(mem, a);
    AlignedRaw(mem, Plus(a, 3));
    LastWord(a);
    if a % 4 == 0 {
      MergeAligned(prev, Load32(mem, a));
      MergeAligned(Load32(mem, a), Load32(mem, a));
      AlignedBytes(mem, a);
    } else {
      var w0, w1 := Load32(mem, a - a % 4), Load32(mem, Plus(a - a % 4, 4));
      RightThenLeft(prev, w0, w1, a % 4);
      LeftThenRight(prev, w0, w1, a % 4);
      FourBytesSplit(mem, a);
    }
  }

  lemma PutTwice(m: Machine, i: nat, v: Word, w: Word)
    requires i < 32
    ensures Put(Put(m, i, v), i, w) == Put(m, i, w)
  {}

  /** One load after another. */
  function TwoLoads(op1: Op, w1: Word, op2: Op, w2: Word, m: Machine): Option<Machine> {
    match ExecLoad(op1, w1, m) case None => None case Some(x) => ExecLoad(op2, w2, x)
  }

  /**
   * lwr rt, i(rs) and lwl rt, i + 3(rs), in either order, leave in rt the little-endian word at
   * the four bytes from rs + i, for every alignment and whatever rt held, and change nothing else.
   */
  lemma UnalignedPair(wr: Word, wl: Word, m: Machine)
    requires Pair(wr, wl) && WholePages(m.mem) && Covers(m.mem, EffectiveAddress(wr, m), 4)
    ensures var loaded := Some(Put(m, Rt(wr), FourBytes(m.mem, EffectiveAddress(wr, m))));
            && TwoLoads(LWR, wr, LWL, wl, m) == loaded
            && TwoLoads(LWL, wl, LWR, wr, m) == loaded
  {
    hide WholePages, Covers, Load, FourBytes, Decode, Rs, Rt, Imm16, SignExtend16;
    var a, prev, rt := EffectiveAddress(wr, m), m.r[Rt(wr)], Rt(wr);
    PlusPlus(m.r[Rs(wr)], SignExtend16(Imm16(wr)), 3);
    PairLoads(m.mem, a, prev);
    PutTwice(m, rt, Load(LWR, m.mem, a, prev).value, FourBytes(m.mem, a));
    PutTwice(m, rt, Load(LWL, m.mem, Plus(a, 3), prev).value, FourBytes(m.mem, a));
  }
}
