/**
 * instructions.h, the words that load and store: address, bytes and extension, said of the
 * numbers in their fields and the bytes of memory.
 */
module MemoryWords {
  import opened Words
  import opened Machines
  import opened Instructions
  import opened Switch
  import opened Arithmetic
  import opened Unaligned
  import opened Encoding

  // ----- loads and stores -----

  /** The n bytes from a on, at most four, are mapped and lie in one page. */
  predicate Readable(mem: Mem, a: Word, n: nat) {
    && a % 0x1000 + n <= 0x1000
    && (0 < n ==> a in mem) && (1 < n ==> a + 1 in mem) && (2 < n ==> a + 2 in mem) && (3 < n ==> a + 3 in mem)
  }

  lemma ReadableRaw(mem: Mem, a: Word, n: nat)
    requires n <= 4
    ensures Readable(mem, a, n) <==> Raw(mem, a, n)
    ensures Readable(mem, a, 1) <==> a in mem
  {}

  /** The byte at a, as a number. */
  function ByteIn(mem: Mem, a: int): Byte {
    if 0 <= a < 0x1_0000_0000 && a in mem then mem[a] else 0
  }

  /** Byte k of v, lowest first. */
  function ByteAt(v: nat, k: nat): nat {
    if k == 0 then v % 0x100 else ByteAt(v / 0x100, k - 1)
  }

  lemma BytesAt(b0: Byte, b1: Byte, b2: Byte, b3: Byte)
    ensures var v := LittleEndian(b0, b1, b2, b3);
            ByteAt(v, 0) == b0 && ByteAt(v, 1) == b1 && ByteAt(v, 2) == b2 && ByteAt(v, 3) == b3
  {
    var v := LittleEndian(b0, b1, b2, b3);
    assert v / 0x100 == b1 + 0x100 * b2 + 0x1_0000 * b3;
    assert v / 0x100 / 0x100 == b2 + 0x100 * b3;
    assert v / 0x100 / 0x100 / 0x100 == b3;
    assert ByteAt(v, 2) == ByteAt(v / 0x100 / 0x100, 0);
    assert ByteAt(v, 3) == ByteAt(v / 0x100 / 0x100, 1) == ByteAt(v / 0x100 / 0x100 / 0x100, 0);
  }

  /** The address a load or store computes. */
  function Address(m: Machine, rs: nat, s: int): Word
    requires rs < 32
  {
    Plus(m.r[rs], s)
  }

  lemma ILoad(h: Host, o: nat, rs: nat, rt: nat, imm: nat, s: int, op: Op, m: Machine)
    requires 1 < o < 64 && rs < 32 && rt < 32 && imm < 0x1_0000 && SignedHalf(imm, s)
    requires Primary(o) == Some(op) && TypeOf(op) == LOAD_IMM
    ensures var r, v := ExecWord(h, IWord(o, rs, rt, imm), m), Load(op, m.mem, Address(m, rs, s), m.r[rt]);
            if v == None then r == None else Sets(m, r, rt, v.value)
  {
    hide Exec, ExecWord, IWord, Rs, Rt, Rd, Imm16, Primary, Load, SignExtend16, SignedHalf, TypeOf;
    SignIs(imm, s);
    IExec(h, o, rs, rt, imm, m);
    MoveExec(h, op, IWord(o, rs, rt, imm), m);
  }

  /** v, read as a signed number, is the n-valued number u read as one: n is 0x100 or 0x1_0000. */
  predicate Extends(v: Word, u: int, n: int)
    requires n > 0
  {
    -n <= 2 * Signed(v) < n && (Signed(v) - u) % n == 0
  }

  lemma SignedWrap(y: int)
    requires -0x8000_0000 <= y < 0x8000_0000
    ensures Signed(Wrap(y)) == y
  {}

  lemma ExtendedIs(b: Byte, x: int)
    requires 0 <= x < 0x1_0000
    ensures Extends(Wrap(SignExtend8(b)), b, 0x100) && Extends(Wrap(SignExtend16(x)), x, 0x1_0000)
  {
    hide Wrap, Signed;
    SignedWrap(SignExtend8(b));
    SignedWrap(SignExtend16(x));
  }

  /** lb and lbu: the byte, sign-extended or not. */
  lemma ByteLoads(h: Host, rs: nat, rt: nat, imm: nat, s: int, m: Machine)
    requires rs < 32 && rt < 32 && imm < 0x1_0000 && SignedHalf(imm, s)
    ensures var a, x := Address(m, rs, s), ExecWord(h, IWord(0x20, rs, rt, imm), m);
            if Readable(m.mem, a, 1) then Changes(m, x, rt) && Extends(x.value.r[rt], ByteIn(m.mem, a), 0x100)
            else x == None
    ensures var a, x := Address(m, rs, s), ExecWord(h, IWord(0x24, rs, rt, imm), m);
            if Readable(m.mem, a, 1) then Sets(m, x, rt, ByteIn(m.mem, a)) else x == None
  {
    hide ExecWord, IWord, Primary, SignedHalf, TypeOf, Extends, SignExtend8, Wrap, Address;
    LoadCodes();
    MoreLoadCodes();
    var a := Address(m, rs, s);
    ILoad(h, 0x20, rs, rt, imm, s, LB, m);
    ILoad(h, 0x24, rs, rt, imm, s, LBU, m);
    ReadableRaw(m.mem, a, 1);
    if a in m.mem {
      ExtendedIs(m.mem[a], 0);
    }
  }

  /** The value of n bytes from a on, lowest first. */
  function NumberIn(mem: Mem, a: int, n: nat): int
    decreases n
  {
    if n == 0 then 0 else ByteIn(mem, a) + 0x100 * NumberIn(mem, a + 1, n - 1)
  }

  lemma NumberIs(mem: Mem, a: Word)
    ensures Raw(mem, a, 2) ==> Load16(mem, a) == NumberIn(mem, a, 2)
    ensures Raw(mem, a, 4) ==> Load32(mem, a) == NumberIn(mem, a, 4)
  {
    assert NumberIn(mem, a + 2, 2) == ByteIn(mem, a + 2) + 0x100 * ByteIn(mem, a + 3);
    assert NumberIn(mem, a, 2) == ByteIn(mem, a) + 0x100 * ByteIn(mem, a + 1);
    assert NumberIn(mem, a, 4) == ByteIn(mem, a) + 0x100 * (ByteIn(mem, a + 1) + 0x100 * NumberIn(mem, a + 2, 2));
  }

  /** lh and lhu: two bytes, lowest first, sign-extended or not. */
  lemma HalfLoads(h: Host, rs: nat, rt: nat, imm: nat, s: int, m: Machine)
    requires rs < 32 && rt < 32 && imm < 0x1_0000 && SignedHalf(imm, s)
    ensures var a, x := Address(m, rs, s), ExecWord(h, IWord(0x21, rs, rt, imm), m);
            if Readable(m.mem, a, 2) then Changes(m, x, rt) && Extends(x.value.r[rt], NumberIn(m.mem, a, 2), 0x1_0000)
            else x == None
    ensures var a, x := Address(m, rs, s), ExecWord(h, IWord(0x25, rs, rt, imm), m);
            if Readable(m.mem, a, 2) then Sets(m, x, rt, NumberIn(m.mem, a, 2)) else x == None
  {
    hide ExecWord, IWord, Primary, SignedHalf, TypeOf, Extends, SignExtend16, Wrap, Address, Raw, Load16, NumberIn;
    hide Readable;
    LoadCodes();
    MoreLoadCodes();
    var a := Address(m, rs, s);
    ILoad(h, 0x21, rs, rt, imm, s, LH, m);
    ILoad(h, 0x25, rs, rt, imm, s, LHU, m);
    ReadableRaw(m.mem, a, 2);
    if Raw(m.mem, a, 2) {
      NumberIs(m.mem, a);
      ExtendedIs(0, Load16(m.mem, a));
    }
  }

  /** lw and ll: four bytes, lowest first. */
  lemma WordLoads(h: Host, rs: nat, rt: nat, imm: nat, s: int, m: Machine)
    requires rs < 32 && rt < 32 && imm < 0x1_0000 && SignedHalf(imm, s)
    ensures var a, x := Address(m, rs, s), ExecWord(h, IWord(0x23, rs, rt, imm), m);
            if Readable(m.mem, a, 4) then Sets(m, x, rt, NumberIn(m.mem, a, 4)) else x == None
    ensures ExecWord(h, IWord(0x30, rs, rt, imm), m) == ExecWord(h, IWord(0x23, rs, rt, imm), m)
  {
    hide ExecWord, IWord, Primary, SignedHalf, TypeOf, Address, Raw, Load32, NumberIn, Readable;
    LoadCodes();
    MoreLoadCodes();
    var a := Address(m, rs, s);
    ILoad(h, 0x23, rs, rt, imm, s, LW, m);
    ILoad(h, 0x30, rs, rt, imm, s, LL, m);
    ReadableRaw(m.mem, a, 4);
    NumberIs(m.mem, a);
  }

  lemma IStore(h: Host, o: nat, rs: nat, rt: nat, imm: nat, s: int, op: Op, m: Machine)
    requires 1 < o < 64 && rs < 32 && rt < 32 && imm < 0x1_0000 && SignedHalf(imm, s)
    requires Primary(o) == Some(op) && TypeOf(op) == STORE_IMM
    ensures var r, x := ExecWord(h, IWord(o, rs, rt, imm), m), Store(op, m.mem, Address(m, rs, s), m.r[rt]);
            match x
            case None => r == None
            case Some(mem) => r == Some(m.(mem := mem, r := if op == SC then m.r[rt := 1] else m.r))
  {
    hide Exec, ExecWord, IWord, Rs, Rt, Rd, Imm16, Primary, Store, SignExtend16, SignedHalf, TypeOf;
    SignIs(imm, s);
    IExec(h, o, rs, rt, imm, m);
    MoveExec(h, op, IWord(o, rs, rt, imm), m);
  }

  /** later is mem with the n low bytes of v from a on, lowest first. */
  predicate Written(mem: Mem, later: Mem, a: Word, n: nat, v: Word) {
    && later.Keys == mem.Keys
    && forall b | b in mem :: later[b] == if a <= b < a + n then ByteAt(v, b - a) else mem[b]
  }

  lemma StoreWritten(mem: Mem, a: Word, v: Word)
    ensures a in mem ==> Written(mem, Store8(mem, a, v), a, 1, v)
    ensures Raw(mem, a, 2) ==> Written(mem, Store16(mem, a, v), a, 2, v)
    ensures Raw(mem, a, 4) ==> Written(mem, Store32(mem, a, v), a, 4, v)
  {
    BytesAt(v % 0x100, v / 0x100 % 0x100, v / 0x1_0000 % 0x100, v / 0x100_0000);
    WordBytes(v);
  }

  /** sb, sh, sw: the low bytes of rt, lowest first; swl and swr store whole words too. */
  lemma StoreWords(h: Host, rs: nat, rt: nat, imm: nat, s: int, m: Machine, o: nat)
    requires rs < 32 && rt < 32 && imm < 0x1_0000 && SignedHalf(imm, s)
    requires o == 0x28 || o == 0x29 || o == 0x2B || o == 0x2A || o == 0x2E
    ensures var a, x := Address(m, rs, s), ExecWord(h, IWord(o, rs, rt, imm), m);
            var n := if o == 0x28 then 1 else if o == 0x29 then 2 else 4;
            if Readable(m.mem, a, n) then
              x.Some? && x.value == m.(mem := x.value.mem) && Written(m.mem, x.value.mem, a, n, m.r[rt])
            else x == None
  {
    hide ExecWord, IWord, Primary, SignedHalf, TypeOf, Address, Raw, Store8, Store16, Store32, Written, Readable;
    StoreCodes();
    MoreStoreCodes();
    var op :=
      if o == 0x28 then SB else if o == 0x29 then SH else if o == 0x2B then SW else if o == 0x2A then SWL else SWR;
    var a := Address(m, rs, s);
    IStore(h, o, rs, rt, imm, s, op, m);
    ReadableRaw(m.mem, a, if o == 0x28 then 1 else if o == 0x29 then 2 else 4);
    StoreWritten(m.mem, a, m.r[rt]);
  }

  /** sc stores the word and always reports success in rt. */
  lemma ConditionalStore(h: Host, rs: nat, rt: nat, imm: nat, s: int, m: Machine)
    requires rs < 32 && rt < 32 && imm < 0x1_0000 && SignedHalf(imm, s)
    ensures var a, x := Address(m, rs, s), ExecWord(h, IWord(0x38, rs, rt, imm), m);
            if Readable(m.mem, a, 4) then
              x.Some? && x.value == m.(mem := x.value.mem, r := m.r[rt := 1])
              && Written(m.mem, x.value.mem, a, 4, m.r[rt])
            else x == None
  {
    hide ExecWord, IWord, Primary, SignedHalf, TypeOf, Address, Raw, Store32, Written, Readable;
    MoreStoreCodes();
    var a := Address(m, rs, s);
    IStore(h, 0x38, rs, rt, imm, s, SC, m);
    ReadableRaw(m.mem, a, 4);
    StoreWritten(m.mem, a, m.r[rt]);
  }

  // ----- the turn of the switch engine -----

  lemma FetchReads(mem: Mem, pc: Word)
    ensures Fetch(mem, pc) == if Readable(mem, pc, 4) then Some(NumberIn(mem, pc, 4)) else None
  {
    hide Raw, Load32, NumberIn, Readable;
    ReadableRaw(mem, pc, 4);
    NumberIs(mem, pc);
  }

  /** Fetch four bytes at PC, execute them, and shift the program counters. */
  lemma TurnReads(h: Host, m: Machine)
    ensures var w := NumberIn(m.mem, m.r[34], 4);
            Step(h, m) ==
            if !Readable(m.mem, m.r[34], 4) then None
            else
              match ExecWord(h, w, m)
              case None => None
              case Some(x) => Some(x.(r := x.r[34 := x.r[35]][35 := x.r[36]][36 := Plus(x.r[36], 4)]))
  {
    hide Fetch, ExecWord, NumberIn, Readable;
    FetchReads(m.mem, m.r[34]);
  }

  // ----- lwl and lwr -----

  lemma LowPart(c: nat, x: nat, b: nat)
    requires c < b && (b == 0x100 || b == 0x1_0000 || b == 0x100_0000)
    ensures (c + b * x) % b == c
  {
    Upper(c, x, b);
  }

  /** The quotients and remainders of a word by whole bytes. */
  lemma Pieces(b0: Byte, b1: Byte, b2: Byte, b3: Byte)
    ensures var v := LittleEndian(b0, b1, b2, b3);
            && v % 0x100 == b0 && v / 0x100 == b1 + 0x100 * b2 + 0x1_0000 * b3
            && v % 0x1_0000 == b0 + 0x100 * b1 && v / 0x1_0000 == b2 + 0x100 * b3
            && v % 0x100_0000 == b0 + 0x100 * b1 + 0x1_0000 * b2 && v / 0x100_0000 == b3
  {
    Upper(b0, b1 + 0x100 * b2 + 0x1_0000 * b3, 0x100);
    Upper(b0 + 0x100 * b1, b2 + 0x100 * b3, 0x1_0000);
    Upper(b0 + 0x100 * b1 + 0x1_0000 * b2, b3, 0x100_0000);
    LowPart(b0, b1 + 0x100 * b2 + 0x1_0000 * b3, 0x100);
    LowPart(b0 + 0x100 * b1, b2 + 0x100 * b3, 0x1_0000);
    LowPart(b0 + 0x100 * b1 + 0x1_0000 * b2, b3, 0x100_0000);
  }

  /** What the bodies of lwr and lwl make of the old register and the aligned word, by quotients and remainders. */
  lemma MergedAre(prev: Word, w: Word)
    ensures MergeRight(prev, w, 0) == w && MergeLeft(prev, w, 3) == w
    ensures MergeRight(prev, w, 1) == 0x100_0000 * (prev / 0x100_0000) + w / 0x100
    ensures MergeRight(prev, w, 2) == 0x1_0000 * (prev / 0x1_0000) + w / 0x1_0000
    ensures MergeRight(prev, w, 3) == 0x100 * (prev / 0x100) + w / 0x100_0000
    ensures MergeLeft(prev, w, 0) == prev % 0x100_0000 + 0x100_0000 * (w % 0x100)
    ensures MergeLeft(prev, w, 1) == prev % 0x1_0000 + 0x1_0000 * (w % 0x1_0000)
    ensures MergeLeft(prev, w, 2) == prev % 0x100 + 0x100 * (w % 0x100_0000)
  {
    hide MergeRight, MergeLeft, Wrap;
    MergeAligned(prev, w);
    RightMerged(prev, w, 1);
    RightMerged(prev, w, 2);
    RightMerged(prev, w, 3);
    LeftMerged(prev, w, 0);
    LeftMerged(prev, w, 1);
    LeftMerged(prev, w, 2);
    ShiftMultiple(w, 0);
    ShiftMultiple(w, 1);
    ShiftMultiple(w, 2);
  }

  lemma RightBytes(p0: Byte, p1: Byte, p2: Byte, p3: Byte, b0: Byte, b1: Byte, b2: Byte, b3: Byte, k: nat)
    requires k < 4
    ensures MergeRight(LittleEndian(p0, p1, p2, p3), LittleEndian(b0, b1, b2, b3), k) ==
            if k == 0 then LittleEndian(b0, b1, b2, b3)
            else if k == 1 then LittleEndian(b1, b2, b3, p3)
            else if k == 2 then LittleEndian(b2, b3, p2, p3)
            else LittleEndian(b3, p1, p2, p3)
  {
    hide MergeRight;
    Pieces(p0, p1, p2, p3);
    Pieces(b0, b1, b2, b3);
    MergedAre(LittleEndian(p0, p1, p2, p3), LittleEndian(b0, b1, b2, b3));
  }

  lemma LeftBytes(p0: Byte, p1: Byte, p2: Byte, p3: Byte, b0: Byte, b1: Byte, b2: Byte, b3: Byte, k: nat)
    requires k < 4
    ensures MergeLeft(LittleEndian(p0, p1, p2, p3), LittleEndian(b0, b1, b2, b3), k) ==
            if k == 0 then LittleEndian(p0, p1, p2, b0)
            else if k == 1 then LittleEndian(p0, p1, b0, b1)
            else if k == 2 then LittleEndian(p0, b0, b1, b2)
            else LittleEndian(b0, b1, b2, b3)
  {
    hide MergeLeft;
    Pieces(p0, p1, p2, p3);
    Pieces(b0, b1, b2, b3);
    MergedAre(LittleEndian(p0, p1, p2, p3), LittleEndian(b0, b1, b2, b3));
  }

  lemma BytesIn(mem: Mem, a: Word)
    requires Raw(mem, a, 4)
    ensures Load32(mem, a) ==
            LittleEndian(ByteIn(mem, a), ByteIn(mem, a + 1), ByteIn(mem, a + 2), ByteIn(mem, a + 3))
  {}

  /** The start of the aligned word that holds a. */
  function Aligned(a: Word): Word {
    a - a % 4
  }

  /** v is prev with its low bytes replaced by the bytes from a up to the end of the aligned word. */
  predicate RightFilled(mem: Mem, a: Word, prev: Word, v: Word) {
    forall i | 0 <= i < 4 :: ByteAt(v, i) == if i < 4 - a % 4 then ByteIn(mem, a + i) else ByteAt(prev, i)
  }

  /** v is prev with its high bytes replaced by the bytes from the start of the aligned word up to a. */
  predicate LeftFilled(mem: Mem, a: Word, prev: Word, v: Word) {
    forall i | 0 <= i < 4 :: ByteAt(v, i) == if i >= 3 - a % 4 then ByteIn(mem, a - 3 + i) else ByteAt(prev, i)
  }

  lemma LoadRightIs(mem: Mem, a: Word, prev: Word)
    requires Raw(mem, a - a % 4, 4)
    ensures Load(LWR, mem, a, prev).Some?
    ensures RightFilled(mem, a, prev, Load(LWR, mem, a, prev).value)
  {
    hide Raw, Load32, LittleEndian, MergeRight, ByteAt, ByteIn;
    var k, b := a % 4, a - a % 4;
    BytesIn(mem, b);
    WordBytes(prev);
    var p0, p1, p2, p3 := prev % 0x100, prev / 0x100 % 0x100, prev / 0x1_0000 % 0x100, prev / 0x100_0000;
    var b0, b1, b2, b3 := ByteIn(mem, b), ByteIn(mem, b + 1), ByteIn(mem, b + 2), ByteIn(mem, b + 3);
    RightBytes(p0, p1, p2, p3, b0, b1, b2, b3, k);
    BytesAt(p0, p1, p2, p3);
    BytesAt(b0, b1, b2, b3);
    BytesAt(b1, b2, b3, p3);
    BytesAt(b2, b3, p2, p3);
    BytesAt(b3, p1, p2, p3);
  }

  lemma LoadLeftIs(mem: Mem, a: Word, prev: Word)
    requires Raw(mem, a - a % 4, 4)
    ensures Load(LWL, mem, a, prev).Some?
    ensures LeftFilled(mem, a, prev, Load(LWL, mem, a, prev).value)
  {
    hide Raw, Load32, LittleEndian, MergeLeft, ByteAt, ByteIn;
    var k, b := a % 4, a - a % 4;
    BytesIn(mem, b);
    WordBytes(prev);
    var p0, p1, p2, p3 := prev % 0x100, prev / 0x100 % 0x100, prev / 0x1_0000 % 0x100, prev / 0x100_0000;
    var b0, b1, b2, b3 := ByteIn(mem, b), ByteIn(mem, b + 1), ByteIn(mem, b + 2), ByteIn(mem, b + 3);
    LeftBytes(p0, p1, p2, p3, b0, b1, b2, b3, k);
    BytesAt(p0, p1, p2, p3);
    BytesAt(b0, b1, b2, b3);
    BytesAt(p0, p1, p2, b0);
    BytesAt(p0, p1, b0, b1);
    BytesAt(p0, b0, b1, b2);
  }

  /**
   * lwr fills the low bytes of rt with the bytes from the address up to the end of its aligned
   * word; lwl fills the high bytes with those from the start of the aligned word up to the address.
   */
  lemma MergeLoads(h: Host, rs: nat, rt: nat, imm: nat, s: int, m: Machine)
    requires rs < 32 && rt < 32 && imm < 0x1_0000 && SignedHalf(imm, s)
    ensures var a, x := Address(m, rs, s), ExecWord(h, IWord(0x26, rs, rt, imm), m);
            if Readable(m.mem, Aligned(a), 4) then Changes(m, x, rt) && RightFilled(m.mem, a, m.r[rt], x.value.r[rt])
            else x == None
    ensures var a, x := Address(m, rs, s), ExecWord(h, IWord(0x22, rs, rt, imm), m);
            if Readable(m.mem, Aligned(a), 4) then Changes(m, x, rt) && LeftFilled(m.mem, a, m.r[rt], x.value.r[rt])
            else x == None
  {
    hide ExecWord, IWord, Primary, SignedHalf, TypeOf, Address, Raw, Load32, Readable, MergeLeft, MergeRight, ByteAt;
    hide RightFilled, LeftFilled;
    LoadCodes();
    MoreLoadCodes();
    var a := Address(m, rs, s);
    ILoad(h, 0x26, rs, rt, imm, s, LWR, m);
    ILoad(h, 0x22, rs, rt, imm, s, LWL, m);
    ReadableRaw(m.mem, a - a % 4, 4);
    if Raw(m.mem, a - a % 4, 4) {
      LoadRightIs(m.mem, a, m.r[rt]);
      LoadLeftIs(m.mem, a, m.r[rt]);
    }
  }
}
