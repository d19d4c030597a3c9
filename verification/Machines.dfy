/**
 * The guest machine as a value: registers, flat byte memory, heap bounds and the
 * calls made to the host (struct mips and struct memory).
 */
module Machines {
  import opened Words

  const V0 := 2
  const A0 := 4
  const A1 := 5
  const A2 := 6
  const A3 := 7
  const SP := 29
  const RA := 31
  const HI := 32
  const LO := 33
  const PC := 34
  const NPC := 35
  const NNPC := 36
  const REG_MAX := 39

  const PAGE := 0x1000
  const USER_TOP := 0x8000_0000

  /** r[MIPS_R_REG_MAX]; the program counters are registers like the others. */
  type Regs = r: seq<Word> | |r| == REG_MAX witness seq(REG_MAX, _ => 0)

  /** The mapped bytes of the guest address space. */
  type Mem = map<Word, Byte>

  /** A system call handed to the host, with the memory it may read. */
  datatype HostCall = HostCall(nr: Word, a0: Word, a1: Word, a2: Word, a3: Word, mem: Mem)

  /** What the host answers: two registers and at most one buffer to copy in, or the end of the process. */
  datatype HostReply = Done(v0: Word, a3: Word, address: Word, data: seq<Byte>) | Abort

  /** The world outside the guest, as a function of all calls made so far. */
  type Host = seq<HostCall> -> HostReply

  datatype Machine = Machine(
    r: Regs, status: Word, tidptr: Word, userLocal: Word, branched: bool, halted: bool,
    mem: Mem, brkEnd: Word, mmapEnd: Word, calls: seq<HostCall>)

  function Put(m: Machine, i: nat, v: Word): Machine
    requires i < REG_MAX
  {
    m.(r := m.r[i := v])
  }

  /** The machine with its three program counters replaced. */
  function Repin(m: Machine, pc: Word, npc: Word, nnpc: Word): Machine {
    m.(r := m.r[PC := pc][NPC := npc][NNPC := nnpc])
  }

  // ----- flat memory -----

  function Page(a: Word): nat { a / PAGE }

  /** Every byte of [a, a + n) is mapped; addresses wrap as u32 does. */
  predicate Covers(mem: Mem, a: Word, n: nat) {
    forall i | 0 <= i < n :: Plus(a, i) in mem
  }

  /** How far b lies behind a, going up and around. */
  function Offset(a: Word, b: Word): Word { Wrap(b - a) }

  function CopyIn(mem: Mem, a: Word, data: seq<Byte>): Mem {
    map b | b in mem :: if Offset(a, b) < |data| then data[Offset(a, b)] else mem[b]
  }

  function Fill(mem: Mem, a: Word, n: nat, v: Byte): Mem {
    map b | b in mem :: if Offset(a, b) < n then v else mem[b]
  }

  /** The pages memory_allocate(a, n) visits: from the page of a to the page of the last byte. */
  predicate Allocated(a: Word, n: Word, page: int) {
    Page(a) <= page <= Page(Plus(a, n - 1))
  }

  function Allocate(mem: Mem, a: Word, n: Word): Mem {
    map b: Word | 0 <= b < M32 && (b in mem || Allocated(a, n, Page(b))) :: if b in mem then mem[b] else 0
  }

  /** A u8, u16 or u32 pointer dereferences inside one mapped page. */
  predicate Raw(mem: Mem, a: Word, n: nat)
    requires n <= 4
  {
    a % PAGE + n <= PAGE
    && (n >= 1 ==> a in mem) && (n >= 2 ==> a + 1 in mem) && (n >= 3 ==> a + 2 in mem) && (n == 4 ==> a + 3 in mem)
  }

  function Load16(mem: Mem, a: Word): (v: Word)
    requires Raw(mem, a, 2)
    ensures v < 0x1_0000
  {
    LittleEndian(mem[a], mem[a + 1], 0, 0)
  }

  function Load32(mem: Mem, a: Word): Word
    requires Raw(mem, a, 4)
  {
    LittleEndian(mem[a], mem[a + 1], mem[a + 2], mem[a + 3])
  }

  function Store8(mem: Mem, a: Word, v: Word): Mem
  {
    mem[a := v % 0x100]
  }

  function Store16(mem: Mem, a: Word, v: Word): Mem
    requires Raw(mem, a, 2)
  {
    mem[a := v % 0x100][a + 1 := v / 0x100 % 0x100]
  }

  function Store32(mem: Mem, a: Word, v: Word): Mem
    requires Raw(mem, a, 4)
  {
    mem[a := v % 0x100][a + 1 := v / 0x100 % 0x100][a + 2 := v / 0x1_0000 % 0x100][a + 3 := v / 0x100_0000]
  }
}
