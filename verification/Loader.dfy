/**
 * loader.c, loader_load_segments and loader_load_pc: the program segments of the file copied
 * into guest memory, and the program counters set to the entry point.
 */
module Loader {
  import opened Words
  import opened Machines
  import opened Switch
  import opened Memory
  import opened Cpu
  import opened Heap

  const PT_LOAD: Word := 1

  /** The fields of Elf32_Phdr the loader reads. */
  datatype Phdr = Phdr(ptype: Word, offset: Word, vaddr: Word, filesz: Word, memsz: Word)

  /** The bytes fread delivers: up to n from the offset on, fewer at the end of the file. */
  function Read(file: seq<Byte>, offset: nat, n: nat): (data: seq<Byte>)
    ensures |data| <= n
  {
    if offset >= |file| then []
    else if offset + n <= |file| then file[offset..offset + n]
    else file[offset..]
  }

  /** The buffer takes the bytes asked for and the file has them. */
  predicate InFile(file: seq<Byte>, p: Phdr) {
    p.ptype == PT_LOAD ==> p.filesz <= p.memsz && |Read(file, p.offset, p.filesz)| == p.filesz
  }

  /** The file and the buffer hold a segment that has bytes in the file exactly when these lengths fit. */
  lemma InFileExactly(file: seq<Byte>, p: Phdr)
    requires p.ptype == 1 && p.filesz > 0
    ensures InFile(file, p) <==> p.filesz <= p.memsz && p.offset + p.filesz <= |file|
  {}

  function Zeros(n: nat): (z: seq<Byte>)
    ensures |z| == n
  {
    seq(n, _ => 0)
  }

  /** What a segment holds in memory: its bytes of the file, then zeros. */
  function Image(file: seq<Byte>, p: Phdr): (data: seq<Byte>)
    requires p.ptype == PT_LOAD && InFile(file, p)
    ensures |data| == p.memsz
  {
    Read(file, p.offset, p.filesz) + Zeros(p.memsz - p.filesz)
  }

  /** Memory after one program header; None stands for the abort, the crash and the overrun of the buffer. */
  ghost function Loaded(mem: Mem, file: seq<Byte>, p: Phdr): Option<Mem> {
    var grown := Allocate(mem, p.vaddr, p.memsz);
    if p.ptype != PT_LOAD then Some(mem)
    else if InFile(file, p) && Covers(grown, p.vaddr, p.memsz) then Some(CopyIn(grown, p.vaddr, Image(file, p)))
    else None
  }

  /** The heap start after one program header. */
  function Raised(top: Word, p: Phdr): (raised: Word)
    ensures raised >= top
  {
    if p.ptype == PT_LOAD && Plus(p.vaddr, p.memsz) > top then Plus(p.vaddr, p.memsz) else top
  }

  lemma ZerosAre(n: nat)
    ensures forall i | 0 <= i < n :: Zeros(n)[i] == 0
  {}

  /** The image byte by byte. */
  lemma ImageAt(file: seq<Byte>, p: Phdr, k: nat)
    requires p.ptype == PT_LOAD && InFile(file, p) && k < p.memsz
    ensures k < p.filesz ==> p.offset + k < |file| && Image(file, p)[k] == file[p.offset + k]
    ensures k >= p.filesz ==> Image(file, p)[k] == 0
  {
    ZerosAre(p.memsz - p.filesz);
  }

  /** Whatever the tail of the buffer held, clearing it leaves zeros. */
  lemma ClearedTail(mem: Mem, a: Word, data: seq<Byte>, tail: seq<Byte>)
    requires |data| + |tail| < M32
    ensures Fill(CopyIn(mem, a, data + tail), Plus(a, |data|), |tail|, 0) == CopyIn(mem, a, data + Zeros(|tail|))
  {
    hide Zeros, Plus, Offset;
    var x, y := CopyIn(mem, a, data + tail), CopyIn(mem, a, data + Zeros(|tail|));
    forall b | b in mem
      ensures Fill(x, Plus(a, |data|), |tail|, 0)[b] == y[b]
    {
      OffsetSplit(a, b, |data|);
      ZerosAre(|tail|);
    }
  }

  // ----- one segment -----

  /** malloc, fread and memory_copy_write; the tail of the buffer is what malloc left there. */
  method CopySegment(memory: PagedMemory, file: seq<Byte>, p: Phdr) returns (ok: bool, ghost tail: seq<Byte>)
    requires memory.Valid() && p.ptype == PT_LOAD
    modifies memory.PageSet()
    ensures memory.Valid()
    ensures ok <==> InFile(file, p) && Covers(old(memory.Flat()), p.vaddr, p.memsz)
    ensures ok ==> |tail| == p.memsz - p.filesz
    ensures ok ==> memory.Flat() == CopyIn(old(memory.Flat()), p.vaddr, Read(file, p.offset, p.filesz) + tail)
  {
    hide FlatOf, CopyIn, Covers, memory.Flat, memory.Valid, memory.Contents, Read;
    var buffer := new Byte[p.memsz];
    ghost var junk := buffer[..];
    var data := Read(file, p.offset, p.filesz);
    if p.filesz > p.memsz || |data| != p.filesz {
      return false, [];
    }
    tail := junk[p.filesz..];
    Memcpy(buffer, 0, data);
    assert buffer[..p.memsz] == data + tail;
    ok := memory.CopyWrite(p.vaddr, p.memsz, buffer);
  }

  lemma RestCovered(mem: Mem, later: Mem, p: Phdr)
    requires p.filesz <= p.memsz && Covers(mem, p.vaddr, p.memsz) && later.Keys == mem.Keys
    ensures Covers(later, Plus(p.vaddr, p.filesz), p.memsz - p.filesz)
  {
    hide Covers;
    CoversAppend(mem, p.vaddr, p.filesz, p.memsz - p.filesz);
    CoversKeys(later, mem, Plus(p.vaddr, p.filesz), p.memsz - p.filesz);
  }

  /** memory_copy_write and memory_set: the image of the segment. */
  method FillSegment(memory: PagedMemory, file: seq<Byte>, p: Phdr) returns (ok: bool)
    requires memory.Valid() && p.ptype == PT_LOAD
    modifies memory.PageSet()
    ensures memory.Valid()
    ensures ok <==> InFile(file, p) && Covers(old(memory.Flat()), p.vaddr, p.memsz)
    ensures ok ==> memory.Flat() == CopyIn(old(memory.Flat()), p.vaddr, Image(file, p))
  {
    hide FlatOf, CopyIn, Covers, memory.Flat, memory.Valid, memory.Contents, Read, Fill, Zeros, Plus;
    ghost var mem := memory.Flat();
    ghost var data := Read(file, p.offset, p.filesz);
    ghost var tail;
    ok, tail := CopySegment(memory, file, p);
    if ok {
      CopyInKeys(mem, p.vaddr, data + tail);
      RestCovered(mem, memory.Flat(), p);
      ClearedTail(mem, p.vaddr, data, tail);
      if p.memsz > p.filesz {
        ok := memory.Set(Plus(p.vaddr, p.filesz), p.memsz - p.filesz, 0);
      } else {
        assert data + tail == data + Zeros(0);
      }
    }
  }

  method RaiseHeap(memory: PagedMemory, p: Phdr)
    requires memory.Valid() && p.ptype == PT_LOAD
    modifies memory`brkStart, memory`brkEnd
    ensures memory.Valid() && memory.Flat() == old(memory.Flat())
    ensures memory.brkStart == Raised(old(memory.brkStart), p)
    ensures memory.brkEnd == if memory.brkStart > old(memory.brkStart) then memory.brkStart else old(memory.brkEnd)
  {
    hide memory.Flat, memory.Valid, Plus;
    var end := Plus(p.vaddr, p.memsz);
    if end > memory.brkStart {
      memory.SetBrkStart(end);
      memory.SetBrkEnd(end);
    }
  }

  /** The body of the loop of loader_load_segments. */
  method LoadSegment(memory: PagedMemory, file: seq<Byte>, p: Phdr) returns (ok: bool)
    requires memory.Valid()
    modifies memory.Repr
    ensures memory.Valid() && fresh(memory.Repr - old(memory.Repr))
    ensures ok <==> Loaded(old(memory.Flat()), file, p).Some?
    ensures ok ==> memory.Flat() == Loaded(old(memory.Flat()), file, p).value
    ensures memory.brkStart == Raised(old(memory.brkStart), p)
    ensures memory.brkEnd == if memory.brkStart > old(memory.brkStart) then memory.brkStart else old(memory.brkEnd)
    ensures memory.mmapEnd == old(memory.mmapEnd)
  {
    hide FlatOf, CopyIn, Covers, memory.Flat, memory.Valid, memory.Contents, Read, Allocate, Image, InFile, Plus;
    memory.SelfInRepr();
    if p.ptype != PT_LOAD {
      return true;
    }
    RaiseHeap(memory, p);
    memory.AllocatePages(p.vaddr, p.memsz);
    memory.PageSetInRepr();
    ok := FillSegment(memory, file, p);
  }

  /** Memory after the headers, in order. */
  ghost function LoadAll(mem: Mem, file: seq<Byte>, ps: seq<Phdr>): Option<Mem>
    decreases |ps|
  {
    if ps == [] then Some(mem) else
    match LoadAll(mem, file, ps[..|ps| - 1]) case None => None case Some(x) => Loaded(x, file, ps[|ps| - 1])
  }

  /** The heap start after the headers. */
  function Top(start: Word, ps: seq<Phdr>): (top: Word)
    ensures top >= start
    decreases |ps|
  {
    if ps == [] then start else Raised(Top(start, ps[..|ps| - 1]), ps[|ps| - 1])
  }

  lemma {:induction false} LoadAborts(mem: Mem, file: seq<Byte>, ps: seq<Phdr>, h: nat)
    requires h <= |ps| && LoadAll(mem, file, ps[..h]).None?
    ensures LoadAll(mem, file, ps).None?
    decreases |ps| - h
  {
    hide Loaded;
    if h == |ps| {
      assert ps[..h] == ps;
    } else {
      assert ps[..h + 1][..h] == ps[..h];
      LoadAborts(mem, file, ps, h + 1);
    }
  }

  /** loader_load_segments */
  method LoadSegments(memory: PagedMemory, file: seq<Byte>, phdrs: seq<Phdr>) returns (ok: bool)
    requires memory.Valid()
    modifies memory.Repr
    ensures memory.Valid() && fresh(memory.Repr - old(memory.Repr))
    ensures ok <==> LoadAll(old(memory.Flat()), file, phdrs).Some?
    ensures ok ==> memory.Flat() == LoadAll(old(memory.Flat()), file, phdrs).value
    ensures ok ==> memory.brkStart == Top(old(memory.brkStart), phdrs)
    ensures ok ==> memory.brkEnd ==
                   if memory.brkStart > old(memory.brkStart) then memory.brkStart else old(memory.brkEnd)
    ensures memory.mmapEnd == old(memory.mmapEnd)
  {
    hide FlatOf, memory.Flat, memory.Valid, memory.Contents, InFile, Loaded, Raised;
    ghost var before := memory.Flat();
    for h := 0 to |phdrs|
      invariant memory.Valid() && fresh(memory.Repr - old(memory.Repr))
      invariant memory.mmapEnd == old(memory.mmapEnd)
      invariant LoadAll(before, file, phdrs[..h]) == Some(memory.Flat())
      invariant memory.brkStart == Top(old(memory.brkStart), phdrs[..h])
      invariant memory.brkEnd == if memory.brkStart > old(memory.brkStart) then memory.brkStart else old(memory.brkEnd)
    {
      assert phdrs[..h + 1][..h] == phdrs[..h];
      ok := LoadSegment(memory, file, phdrs[h]);
      if !ok {
        LoadAborts(before, file, phdrs, h + 1);
        return;
      }
    }
    assert phdrs[..|phdrs|] == phdrs;
    ok := true;
  }

  /** loader_load_pc: the machine starts with its pipeline straight. */
  method LoadPc(mips: Mips, entry: Word, ghost memory: PagedMemory)
    requires mips.Ready(memory)
    modifies mips.r
    ensures mips.Ready(memory) && Straight(mips.State(memory)) && mips.State(memory).r[PC] == entry
  {
    hide mips.Ready, mips.State, Plus;
    mips.PutReg(PC, entry, memory);
    mips.ReadyPart(PC, memory);
    mips.PutReg(NPC, Plus(mips.r[PC], 4), memory);
    mips.ReadyPart(PC, memory);
    mips.PutReg(NNPC, Plus(mips.r[PC], 8), memory);
  }

  // ----- what has been loaded -----

  /** A loadable segment whose end is an address. */
  predicate Proper(p: Phdr) {
    p.ptype == PT_LOAD ==> p.vaddr + p.memsz < M32
  }

  function End(p: Phdr): int { p.vaddr + p.memsz }

  ghost predicate Apart(p: Phdr, q: Phdr) {
    p.ptype == PT_LOAD && q.ptype == PT_LOAD ==> End(p) <= q.vaddr || End(q) <= p.vaddr
  }

  /** A segment that does not wrap is loaded exactly when the file and the buffer hold it. */
  lemma LoadedExactly(mem: Mem, file: seq<Byte>, p: Phdr)
    requires Proper(p)
    ensures Loaded(mem, file, p).Some? <==> InFile(file, p)
  {
    hide Allocate, CopyIn, Read, Covers;
    if p.ptype == PT_LOAD {
      AllocateMaps(mem, p.vaddr, p.memsz);
    }
  }

  /** Loading segments that do not wrap succeeds exactly when the file and the buffers hold them all. */
  lemma {:induction false} LoadsExactly(mem: Mem, file: seq<Byte>, ps: seq<Phdr>)
    requires forall j | 0 <= j < |ps| :: Proper(ps[j])
    ensures LoadAll(mem, file, ps).Some? <==> forall j | 0 <= j < |ps| :: InFile(file, ps[j])
    decreases |ps|
  {
    hide Loaded, InFile, Proper;
    if ps == [] {
    } else {
      var n := |ps| - 1;
      LoadsExactly(mem, file, ps[..n]);
      assert forall j | 0 <= j < n :: ps[..n][j] == ps[j];
      if LoadAll(mem, file, ps[..n]).Some? {
        LoadedExactly(LoadAll(mem, file, ps[..n]).value, file, ps[n]);
      }
    }
  }

  lemma LoadedHolds(mem: Mem, file: seq<Byte>, p: Phdr)
    requires Loaded(mem, file, p).Some? && p.ptype == PT_LOAD
    ensures InFile(file, p) && Holds(Loaded(mem, file, p).value, p.vaddr, Image(file, p))
  {
    hide Allocate, CopyIn, Read, Covers, Holds, Image;
    WriteThenRead(Allocate(mem, p.vaddr, p.memsz), p.vaddr, Image(file, p), []);
  }

  lemma ByteKept(mem: Mem, file: seq<Byte>, p: Phdr, q: Phdr, k: nat)
    requires Loaded(mem, file, p).Some? && Proper(p) && Proper(q) && Apart(p, q) && p.ptype == q.ptype == PT_LOAD
    requires k < q.memsz && Plus(q.vaddr, k) in mem
    ensures Plus(q.vaddr, k) in Loaded(mem, file, p).value
    ensures Loaded(mem, file, p).value[Plus(q.vaddr, k)] == mem[Plus(q.vaddr, k)]
  {
    hide Allocate, CopyIn, Read, Image, Covers;
    var grown := Allocate(mem, p.vaddr, p.memsz);
    AllocateKeeps(mem, p.vaddr, p.memsz);
    CopyInElsewhere(grown, p.vaddr, Image(file, p), q.vaddr + k);
  }

  /** A segment loaded later does not disturb one it does not meet, even on a page they share. */
  lemma LoadedKeeps(mem: Mem, file: seq<Byte>, p: Phdr, q: Phdr, data: seq<Byte>)
    requires Loaded(mem, file, p).Some? && Proper(p) && Proper(q) && Apart(p, q) && q.ptype == PT_LOAD
    requires |data| == q.memsz && Holds(mem, q.vaddr, data)
    ensures Holds(Loaded(mem, file, p).value, q.vaddr, data)
  {
    if p.ptype == PT_LOAD {
      hide Loaded, Plus;
      forall k | 0 <= k < |data|
        ensures Plus(q.vaddr, k) in Loaded(mem, file, p).value
        ensures Loaded(mem, file, p).value[Plus(q.vaddr, k)] == data[k]
      {
        ByteKept(mem, file, p, q, k);
      }
    }
  }

  lemma ApartSym(p: Phdr, q: Phdr)
    ensures Apart(p, q) == Apart(q, p)
  {}

  /**
   * After the loop every loadable segment holds its bytes of the file and zeros up to its size
   * in memory, whatever segments it shares pages with.
   */
  lemma {:induction false} SegmentsHold(mem: Mem, file: seq<Byte>, ps: seq<Phdr>, i: nat)
    requires LoadAll(mem, file, ps).Some?
    requires forall j | 0 <= j < |ps| :: Proper(ps[j])
    requires forall j, k | 0 <= j < k < |ps| :: Apart(ps[j], ps[k])
    requires i < |ps| && ps[i].ptype == PT_LOAD
    ensures InFile(file, ps[i]) && Holds(LoadAll(mem, file, ps).value, ps[i].vaddr, Image(file, ps[i]))
    decreases |ps|
  {
    hide Loaded, Holds, Image, Proper, InFile, Apart;
    var n := |ps| - 1;
    var before := LoadAll(mem, file, ps[..n]).value;
    if i == n {
      LoadedHolds(before, file, ps[n]);
    } else {
      assert ps[..n][i] == ps[i];
      SegmentsHold(mem, file, ps[..n], i);
      ApartSym(ps[i], ps[n]);
      LoadedKeeps(before, file, ps[n], ps[i], Image(file, ps[i]));
    }
  }

  /** The same byte by byte: byte k of a segment is byte offset + k of the file, or zero from filesz on. */
  lemma SegmentBytes(mem: Mem, file: seq<Byte>, ps: seq<Phdr>, i: nat, k: nat)
    requires LoadAll(mem, file, ps).Some?
    requires forall j | 0 <= j < |ps| :: Proper(ps[j])
    requires forall j, l | 0 <= j < l < |ps| :: Apart(ps[j], ps[l])
    requires i < |ps| && ps[i].ptype == 1 && k < ps[i].memsz
    ensures var p, later := ps[i], LoadAll(mem, file, ps).value;
            && p.vaddr + k in later
            && (k < p.filesz ==> p.offset + k < |file| && later[p.vaddr + k] == file[p.offset + k])
            && (k >= p.filesz ==> later[p.vaddr + k] == 0)
  {
    hide LoadAll, Image, InFile, Apart;
    SegmentsHold(mem, file, ps, i);
    ImageAt(file, ps[i], k);
    assert Plus(ps[i].vaddr, k) == ps[i].vaddr + k;
  }

  /** b is a byte of segment p. */
  predicate InSegment(p: Phdr, b: Word) {
    p.ptype == 1 && p.vaddr <= b < p.vaddr + p.memsz
  }

  /** b is on a page of segment p. */
  predicate OnPages(p: Phdr, b: Word) {
    p.ptype == 1 && p.vaddr / 0x1000 <= b / 0x1000 <= (p.vaddr + p.memsz - 1) / 0x1000
  }

  lemma LoadedElsewhere(mem: Mem, file: seq<Byte>, p: Phdr, b: Word)
    requires Loaded(mem, file, p).Some? && Proper(p) && !InSegment(p, b)
    requires p.ptype == 1 ==> p.memsz > 0 || p.vaddr > 0
    ensures var later := Loaded(mem, file, p).value;
            && (b in later <==> b in mem || OnPages(p, b))
            && (b in later ==> later[b] == if b in mem then mem[b] else 0)
  {
    hide Image, Covers;
    if p.ptype == PT_LOAD {
      CopyInElsewhere(Allocate(mem, p.vaddr, p.memsz), p.vaddr, Image(file, p), b);
      assert Plus(p.vaddr, p.memsz - 1) == p.vaddr + p.memsz - 1;
    }
  }

  /**
   * Outside the segments nothing changes but that their pages are there, with zeros: headers of
   * other types leave no trace.
   */
  lemma {:induction false} SegmentsOnly(mem: Mem, file: seq<Byte>, ps: seq<Phdr>, b: Word)
    requires LoadAll(mem, file, ps).Some?
    requires forall p | p in ps :: Proper(p) && !InSegment(p, b) && (p.ptype == 1 ==> p.memsz > 0 || p.vaddr > 0)
    ensures var later := LoadAll(mem, file, ps).value;
            && (b in later <==> b in mem || exists p :: p in ps && OnPages(p, b))
            && (b in later ==> later[b] == if b in mem then mem[b] else 0)
    decreases |ps|
  {
    hide Loaded, Proper, InSegment, OnPages;
    if ps == [] {
    } else {
      var n := |ps| - 1;
      SegmentsOnly(mem, file, ps[..n], b);
      LoadedElsewhere(LoadAll(mem, file, ps[..n]).value, file, ps[n], b);
      assert forall p | p in ps :: p in ps[..n] || p == ps[n];
      assert ps[n] in ps;
    }
  }

  /** The heap starts at the greatest segment end, or where it was if that is higher. */
  lemma {:induction false} TopIsGreatest(start: Word, ps: seq<Phdr>)
    requires forall j | 0 <= j < |ps| :: Proper(ps[j])
    ensures start <= Top(start, ps)
    ensures forall p | p in ps && p.ptype == PT_LOAD :: End(p) <= Top(start, ps)
    ensures Top(start, ps) == start || exists p :: p in ps && p.ptype == PT_LOAD && Top(start, ps) == End(p)
    decreases |ps|
  {
    if ps == [] {
    } else {
      var n := |ps| - 1;
      TopIsGreatest(start, ps[..n]);
      assert forall p | p in ps :: p in ps[..n] || p == ps[n];
    }
  }
}
