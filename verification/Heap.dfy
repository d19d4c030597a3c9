/**
 * memory_allocate as the guest sees it, and the brk and mmap2 allocators of syscalls.h over
 * whole runs of the machine.
 */
module Heap {
  import opened Words
  import opened Machines
  import opened Instructions
  import opened Switch
  import opened Halting
  import opened Memory

  const MMAP_START: Word := 0x4000_0000

  // ----- memory_allocate -----

  /** a + n <= 2^32: the pages added are those that meet [a, a + n); old bytes stay, new ones are zero. */
  lemma AllocateMeets(mem: Mem, a: Word, n: Word, b: Word)
    requires n > 0 && a + n <= M32
    ensures b in Allocate(mem, a, n) <==> b in mem || exists c: Word :: a <= c < a + n && Page(c) == Page(b)
    ensures b in Allocate(mem, a, n) ==> Allocate(mem, a, n)[b] == if b in mem then mem[b] else 0
  {
    if b !in mem && Allocated(a, n, Page(b)) {
      var c: Word := if b < a then a else if b >= a + n then a + n - 1 else b;
      assert a <= c < a + n && Page(c) == Page(b);
    }
  }

  lemma AllocateMaps(mem: Mem, a: Word, n: Word)
    requires a + n <= M32
    ensures Covers(Allocate(mem, a, n), a, n)
  {
    forall i | 0 <= i < n
      ensures Plus(a, i) in Allocate(mem, a, n)
    {
      assert Plus(a, i) == a + i && Plus(a, n - 1) == a + n - 1;
    }
  }

  /** The range asked for ends up mapped, whatever was mapped before, exactly when it does not wrap. */
  lemma AllocateCovers(a: Word, n: Word)
    requires n > 0
    ensures (forall mem :: Covers(Allocate(mem, a, n), a, n)) <==> a + n <= M32
  {
    if a + n <= M32 {
      forall mem
        ensures Covers(Allocate(mem, a, n), a, n)
      {
        AllocateMaps(mem, a, n);
      }
    } else {
      var none: Mem := map[];
      var i := if a >= PAGE then M32 - a else PAGE;
      assert i < n && Plus(a, i) !in Allocate(none, a, n);
      assert !Covers(Allocate(none, a, n), a, n);
    }
  }

  /** An empty request adds nothing at a page boundary, the page of a elsewhere, and everything at 0. */
  lemma AllocateEmpty(mem: Mem, a: Word, b: Word)
    ensures b in Allocate(mem, a, 0) <==> b in mem || a == 0 || (a % PAGE != 0 && Page(b) == Page(a))
  {}

  lemma AllocateKeeps(mem: Mem, a: Word, n: Word)
    ensures mem.Keys <= Allocate(mem, a, n).Keys
    ensures forall b | b in mem :: Allocate(mem, a, n)[b] == mem[b]
  {}

  // ----- what one instruction does to the heap -----

  predicate Calls(m: Machine, nr: Word) {
    Current(m) == Some(SYSCALL) && m.r[V0] == nr
  }

  /** The mapped addresses and the ends of the two heaps are as they were. */
  ghost predicate HeapKept(m: Machine, x: Machine) {
    x.brkEnd == m.brkEnd && x.mmapEnd == m.mmapEnd && x.mem.Keys == m.mem.Keys
  }

  lemma UpdateKeeps(mem: Mem, a: Word, v: Byte)
    requires a in mem
    ensures mem[a := v].Keys == mem.Keys
  {}

  lemma Store32Keeps(mem: Mem, a: Word, v: Word)
    requires Raw(mem, a, 4)
    ensures Store32(mem, a, v).Keys == mem.Keys
  {
    var m1 := mem[a := v % 0x100];
    var m2 := m1[a + 1 := v / 0x100 % 0x100];
    var m3 := m2[a + 2 := v / 0x1_0000 % 0x100];
    UpdateKeeps(mem, a, v % 0x100);
    UpdateKeeps(m1, a + 1, v / 0x100 % 0x100);
    UpdateKeeps(m2, a + 2, v / 0x1_0000 % 0x100);
    UpdateKeeps(m3, a + 3, v / 0x100_0000);
  }

  lemma Store16Keeps(mem: Mem, a: Word, v: Word)
    requires Raw(mem, a, 2)
    ensures Store16(mem, a, v).Keys == mem.Keys
  {
    UpdateKeeps(mem, a, v % 0x100);
    UpdateKeeps(mem[a := v % 0x100], a + 1, v / 0x100 % 0x100);
  }

  lemma StoreKeeps(op: Op, mem: Mem, a: Word, v: Word)
    ensures Store(op, mem, a, v).Some? ==> Store(op, mem, a, v).value.Keys == mem.Keys
  {
    hide Raw, Store16, Store32;
    if Store(op, mem, a, v).Some? {
      if op == SB {
        UpdateKeeps(mem, a, v % 0x100);
      } else if op == SH {
        Store16Keeps(mem, a, v);
      } else {
        Store32Keeps(mem, a, v);
      }
    }
  }

  lemma SystemKeeps(h: Host, m: Machine)
    requires m.r[V0] != 4045 && m.r[V0] != 4210 && Syscall(h, m).Some?
    ensures HeapKept(m, Syscall(h, m).value)
  {
    hide Covers;
  }

  lemma ExecKeeps(h: Host, op: Op, w: Word, m: Machine)
    requires Decode(w) == Some(op) && Exec(h, op, w, m).Some?
    requires op == SYSCALL ==> m.r[V0] != 4045 && m.r[V0] != 4210
    ensures HeapKept(m, Exec(h, op, w, m).value)
  {
    hide Decode, Store, Syscall, Load, EffectiveAddress, Rt;
    if Quiet(w) {
      ExecQuiet(h, w, m);
    } else if op == SYSCALL {
      SystemKeeps(h, m);
    } else if TypeOf(op) == STORE_IMM {
      StoreKeeps(op, m.mem, EffectiveAddress(w, m), m.r[Rt(w)]);
    }
  }

  /** Only brk and mmap2 move the heaps; no turn ever unmaps a byte. */
  lemma StepKeeps(h: Host, m: Machine)
    requires Step(h, m).Some? && !Calls(m, 4045) && !Calls(m, 4210)
    ensures HeapKept(m, Step(h, m).value)
  {
    hide Exec, Fetch, Decode;
    var w := Fetch(m.mem, m.r[PC]).value;
    ExecKeeps(h, Decode(w).value, w, m);
  }

  lemma StepCalls(h: Host, m: Machine)
    requires Step(h, m).Some? && Current(m) == Some(SYSCALL)
    ensures Syscall(h, m).Some? && Step(h, m).value == Increment(Syscall(h, m).value)
  {
    hide Fetch, Decode, Syscall;
  }

  lemma IncrementKeeps(m: Machine)
    ensures var x := Increment(m);
            && x.mem == m.mem && x.brkEnd == m.brkEnd && x.mmapEnd == m.mmapEnd
            && x.r[V0] == m.r[V0] && x.r[A3] == m.r[A3]
  {}

  lemma CallIs(h: Host, m: Machine)
    ensures m.r[V0] == 4045 ==> Syscall(h, m) == Some(Brk(m))
    ensures m.r[V0] == 4210 ==> Syscall(h, m) == Mmap2(m)
  {
    hide Brk, Mmap2, HostSyscall, SimpleSyscall;
  }

  lemma CoversNone(mem: Mem, a: Word)
    ensures Covers(mem, a, 0)
  {}

  /** brk grows the heap or leaves it, keeps every byte and reports the end. */
  lemma BrkGrows(m: Machine)
    ensures var x, brk := Brk(m), m.r[A0];
            && x.mmapEnd == m.mmapEnd && x.brkEnd == x.r[V0] == (if brk > m.brkEnd then brk else m.brkEnd)
            && m.mem.Keys <= x.mem.Keys && (forall b | b in m.mem :: x.mem[b] == m.mem[b])
            && Covers(x.mem, m.brkEnd, x.brkEnd - m.brkEnd)
  {
    hide Allocate, Covers;
    var brk := m.r[A0];
    if brk > m.brkEnd {
      AllocateMaps(m.mem, m.brkEnd, brk - m.brkEnd);
      AllocateKeeps(m.mem, m.brkEnd, brk - m.brkEnd);
    } else {
      CoversNone(m.mem, m.brkEnd);
    }
  }

  lemma StepBrk(h: Host, m: Machine)
    requires Step(h, m).Some? && Calls(m, 4045)
    ensures var x, brk := Step(h, m).value, m.r[A0];
            && x.mmapEnd == m.mmapEnd && x.brkEnd == x.r[V0] == (if brk > m.brkEnd then brk else m.brkEnd)
            && m.mem.Keys <= x.mem.Keys && (forall b | b in m.mem :: x.mem[b] == m.mem[b])
            && Covers(x.mem, m.brkEnd, x.brkEnd - m.brkEnd)
  {
    hide Step, Brk, Syscall, Increment, Covers;
    StepCalls(h, m);
    CallIs(h, m);
    BrkGrows(m);
    IncrementKeeps(Brk(m));
  }

  /** mmap2 rounds to a multiple of the page size: the next one, exactly when the sum does not wrap. */
  lemma RoundUpMeaning(len: Word)
    ensures RoundUp(len) % PAGE == 0
    ensures len <= RoundUp(len) < len + PAGE <==> len + 0xFFF < M32
  {}

  lemma FillMeaning(mem: Mem, a: Word, n: Word)
    ensures Covers(mem, a, n) ==> Covers(Fill(mem, a, n, 0), a, n)
    ensures Covers(mem, a, n) ==> forall b: Word | Offset(a, b) < n :: b in mem && Fill(mem, a, n, 0)[b] == 0
    ensures Fill(mem, a, n, 0).Keys == mem.Keys
    ensures forall b | b in mem && Offset(a, b) >= n :: Fill(mem, a, n, 0)[b] == mem[b]
  {
    if Covers(mem, a, n) {
      forall b: Word | Offset(a, b) < n
        ensures b in mem
      {
        assert Plus(a, Offset(a, b)) == b;
      }
    }
  }

  /** x is m after mmap2 has claimed len bytes: returned, cleared and mapped, all other bytes kept. */
  ghost predicate Claimed(m: Machine, x: Machine, len: Word) {
    && x.brkEnd == m.brkEnd && x.r[V0] == m.mmapEnd && x.r[A3] == 0
    && x.mmapEnd == Plus(m.mmapEnd, len) <= USER_TOP
    && m.mem.Keys <= x.mem.Keys && Covers(x.mem, m.mmapEnd, len)
    && (forall b | b in m.mem && Offset(m.mmapEnd, b) >= len :: x.mem[b] == m.mem[b])
    && (forall b: Word | Offset(m.mmapEnd, b) < len :: b in x.mem && x.mem[b] == 0)
  }

  lemma Mmap2Maps(m: Machine)
    requires Mmap2(m).Some?
    ensures Claimed(m, Mmap2(m).value, RoundUp(m.r[A1]))
  {
    hide Allocate, RoundUp, Covers, Raw, Fill, Offset, Plus;
    var a, len := m.mmapEnd, RoundUp(m.r[A1]);
    var mem := Allocate(m.mem, a, len);
    AllocateKeeps(m.mem, a, len);
    FillMeaning(mem, a, len);
  }

  /** mmap2 returns the old end of its region, clears and maps exactly the rounded length, and stays below USER_TOP. */
  lemma StepMmap2(h: Host, m: Machine)
    requires Step(h, m).Some? && Calls(m, 4210)
    ensures Claimed(m, Step(h, m).value, RoundUp(m.r[A1]))
  {
    hide Step, Mmap2, Syscall, Increment, Covers, RoundUp, Offset, Plus;
    StepCalls(h, m);
    CallIs(h, m);
    Mmap2Maps(m);
    IncrementKeeps(Mmap2(m).value);
  }

  /** The two stack arguments of mmap2 can be read. */
  predicate StackReadable(m: Machine) {
    Raw(m.mem, Plus(m.r[29], 16), 4) && Raw(m.mem, Plus(m.r[29], 20), 4)
  }

  /**
   * When mmap2 succeeds, for a range that ends at or below 2^32: its stack arguments can be read,
   * and the range ends at or below 0x80000000, or at 2^32, which the range check takes for 0.
   */
  lemma Mmap2Succeeds(m: Machine)
    requires m.mmapEnd + RoundUp(m.r[5]) <= 0x1_0000_0000
    ensures var end := m.mmapEnd + RoundUp(m.r[5]);
            Mmap2(m).Some? <==> StackReadable(m) && (end <= 0x8000_0000 || end == 0x1_0000_0000)
  {
    hide Raw, Allocate, Covers, Fill, RoundUp;
    AllocateMaps(m.mem, m.mmapEnd, RoundUp(m.r[5]));
  }

  /** The same for the turn of an engine that makes the call. */
  lemma Mmap2Lives(h: Host, m: Machine)
    requires Calls(m, 4210) && m.mmapEnd + RoundUp(m.r[5]) <= 0x1_0000_0000
    ensures var end := m.mmapEnd + RoundUp(m.r[5]);
            Step(h, m).Some? <==> StackReadable(m) && (end <= 0x8000_0000 || end == 0x1_0000_0000)
  {
    hide Mmap2, RoundUp, Syscall, StackReadable, Fetch, Decode, Plus, Increment;
    Mmap2Succeeds(m);
    CallIs(h, m);
  }

  /**
   * The range check adds modulo 2^32, so it also lets through a range that wraps: the region then
   * ends before it began. It does not fall back exactly when nothing wraps.
   */
  lemma MmapEndGrows(h: Host, m: Machine)
    requires Step(h, m).Some? && Calls(m, 4210)
    ensures m.mmapEnd <= Step(h, m).value.mmapEnd <==> m.mmapEnd + RoundUp(m.r[A1]) < M32
    ensures m.mmapEnd + RoundUp(m.r[A1]) < M32 ==> Step(h, m).value.mmapEnd == m.mmapEnd + RoundUp(m.r[A1])
  {
    hide Step, RoundUp, Calls, Covers, Offset;
    StepMmap2(h, m);
  }

  // ----- whole runs -----

  /** The two heaps do not meet, and the mmap region is page-aligned and below USER_TOP. */
  predicate HeapOk(m: Machine) {
    m.brkEnd <= MMAP_START <= m.mmapEnd <= USER_TOP && m.mmapEnd % PAGE == 0
  }

  /** The next instruction does not ask brk for the mmap region, nor mmap2 for a range that wraps. */
  predicate Polite(m: Machine) {
    && (Calls(m, 4045) ==> m.r[A0] <= MMAP_START)
    && (Calls(m, 4210) ==> m.mmapEnd + RoundUp(m.r[A1]) < M32)
  }

  /** A range returned by mmap2. */
  datatype Claim = Claim(start: Word, len: Word)

  function NewClaims(m: Machine): seq<Claim> {
    if Calls(m, 4210) then [Claim(m.mmapEnd, RoundUp(m.r[A1]))] else []
  }

  /** The ranges mmap2 returns during the first n turns. */
  function Claims(h: Host, m: Machine, n: nat): seq<Claim>
    decreases n
  {
    if n == 0 || m.halted then [] else
    match Step(h, m) case None => [] case Some(x) => NewClaims(m) + Claims(h, x, n - 1)
  }

  /** The claims follow one another from a to z without gap or overlap, page-aligned and mapped. */
  ghost predicate Tiled(cs: seq<Claim>, a: int, z: int, mem: Mem)
    decreases |cs|
  {
    if cs == [] then a == z
    else cs[0].start == a && a % PAGE == 0 && Covers(mem, cs[0].start, cs[0].len)
         && Tiled(cs[1..], a + cs[0].len, z, mem)
  }

  /** From m to s nothing was unmapped and the brk heap grew over mapped bytes. */
  ghost predicate Grown(m: Machine, s: Machine) {
    m.mem.Keys <= s.mem.Keys && m.brkEnd <= s.brkEnd && Covers(s.mem, m.brkEnd, s.brkEnd - m.brkEnd)
  }

  lemma CoversLater(mem: Mem, later: Mem, a: Word, n: nat)
    requires Covers(mem, a, n) && mem.Keys <= later.Keys
    ensures Covers(later, a, n)
  {}

  lemma GrownTrans(m: Machine, x: Machine, s: Machine)
    requires Grown(m, x) && Grown(x, s)
    ensures Grown(m, s)
  {
    hide Covers;
    CoversLater(x.mem, s.mem, m.brkEnd, x.brkEnd - m.brkEnd);
    assert Plus(m.brkEnd, x.brkEnd - m.brkEnd) == x.brkEnd;
    CoversAppend(s.mem, m.brkEnd, x.brkEnd - m.brkEnd, s.brkEnd - x.brkEnd);
  }

  lemma GrownKept(m: Machine, x: Machine)
    requires HeapKept(m, x)
    ensures Grown(m, x)
  {}

  /** One turn keeps the heaps in order and claims the range it hands out. */
  lemma HeapStep(h: Host, m: Machine)
    requires Step(h, m).Some? && HeapOk(m) && Polite(m)
    ensures var x := Step(h, m).value;
            HeapOk(x) && Grown(m, x) && Tiled(NewClaims(m), m.mmapEnd, x.mmapEnd, x.mem)
  {
    hide Step, RoundUp, Covers, Current, Offset, Plus;
    var x := Step(h, m).value;
    if Calls(m, 4045) {
      StepBrk(h, m);
    } else if Calls(m, 4210) {
      StepMmap2(h, m);
      MmapEndGrows(h, m);
      RoundUpMeaning(m.r[A1]);
      CoversNone(x.mem, m.brkEnd);
      assert NewClaims(m)[1..] == [];
    } else {
      StepKeeps(h, m);
      GrownKept(m, x);
    }
  }

  lemma {:induction false} TiledAppend(cs: seq<Claim>, ds: seq<Claim>, a: int, b: int, c: int, mem: Mem, later: Mem)
    requires Tiled(cs, a, b, mem) && Tiled(ds, b, c, later) && mem.Keys <= later.Keys
    ensures Tiled(cs + ds, a, c, later)
    decreases |cs|
  {
    hide Covers;
    if cs == [] {
      assert cs + ds == ds;
    } else {
      CoversLater(mem, later, cs[0].start, cs[0].len);
      TiledAppend(cs[1..], ds, a + cs[0].len, b, c, mem, later);
      assert (cs + ds)[1..] == cs[1..] + ds;
    }
  }

  predicate PoliteAt(s: Option<Machine>) {
    s.Some? && !s.value.halted ==> Polite(s.value)
  }

  ghost predicate AllPolite(h: Host, m: Machine, n: nat) {
    forall k: nat | k < n :: PoliteAt(Run(h, m, k))
  }

  lemma PoliteNext(h: Host, m: Machine, n: nat)
    requires n > 0 && !m.halted && Step(h, m).Some? && AllPolite(h, m, n)
    ensures Polite(m) && AllPolite(h, Step(h, m).value, n - 1)
  {
    hide Step, Polite;
    assert PoliteAt(Run(h, m, 0));
    var x := Step(h, m).value;
    forall k: nat | k < n - 1
      ensures PoliteAt(Run(h, x, k))
    {
      assert Run(h, m, k + 1) == Run(h, x, k);
      assert PoliteAt(Run(h, m, k + 1));
    }
  }

  lemma TiledNone(m: Machine)
    ensures Tiled([], m.mmapEnd, m.mmapEnd, m.mem)
  {}

  lemma GrownKeys(m: Machine, s: Machine)
    requires Grown(m, s)
    ensures m.mem.Keys <= s.mem.Keys
  {}

  /**
   * Over every run: the brk heap never shrinks and stays mapped below the mmap region, no byte
   * is ever unmapped, and the ranges mmap2 hands out tile the mmap region up to its end.
   */
  lemma {:induction false} HeapRun(h: Host, m: Machine, n: nat)
    requires HeapOk(m) && AllPolite(h, m, n) && Run(h, m, n).Some?
    ensures var s := Run(h, m, n).value;
            HeapOk(s) && Grown(m, s) && Tiled(Claims(h, m, n), m.mmapEnd, s.mmapEnd, s.mem)
    decreases n
  {
    hide Step, HeapOk, AllPolite, Polite, Grown, NewClaims, Tiled;
    if n == 0 || m.halted {
      GrownKept(m, m);
      TiledNone(m);
    } else {
      var x, s := Step(h, m).value, Run(h, m, n).value;
      PoliteNext(h, m, n);
      HeapStep(h, m);
      HeapRun(h, x, n - 1);
      GrownTrans(m, x, s);
      GrownKeys(x, s);
      TiledAppend(NewClaims(m), Claims(h, x, n - 1), m.mmapEnd, x.mmapEnd, s.mmapEnd, x.mem, s.mem);
    }
  }

  lemma {:induction false} TiledEnds(cs: seq<Claim>, a: int, z: int, mem: Mem)
    requires Tiled(cs, a, z, mem)
    ensures a <= z
    decreases |cs|
  {
    hide Covers;
    if cs == [] {
    } else {
      TiledEnds(cs[1..], a + cs[0].len, z, mem);
    }
  }

  /** Tiled claims increase, do not overlap, and are page-aligned and mapped. */
  lemma {:induction false} ClaimsApart(cs: seq<Claim>, a: int, z: int, mem: Mem, i: nat, j: nat)
    requires Tiled(cs, a, z, mem) && i <= j < |cs|
    ensures a <= cs[i].start && cs[j].start + cs[j].len <= z
    ensures i < j ==> cs[i].start + cs[i].len <= cs[j].start
    ensures cs[j].start % PAGE == 0 && Covers(mem, cs[j].start, cs[j].len)
    decreases |cs|
  {
    hide Covers;
    TiledEnds(cs[1..], a + cs[0].len, z, mem);
    if j == 0 {
    } else {
      ClaimsApart(cs[1..], a + cs[0].len, z, mem, if i > 0 then i - 1 else 0, j - 1);
    }
  }
}
