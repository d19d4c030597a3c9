/**
 * memory.h and memory.c: the two-level page tables. Their meaning is the flat byte map Flat().
 */
module Memory {
  import opened Words
  import opened Machines

  const ENTRIES := 1024

  // ----- pages as values -----

  type Page4K = s: seq<Byte> | |s| == PAGE witness seq(PAGE, _ => 0)

  /** Page contents by page number. */
  type Pages = map<int, Page4K>

  /** The bytes of all pages in one flat map. */
  ghost function FlatOf(c: Pages): Mem {
    map a: Word | 0 <= a < M32 && Page(a) in c :: c[Page(a)][a % PAGE]
  }

  /** s with data written over it from offset k on. */
  ghost function Spliced(s: Page4K, k: nat, data: seq<Byte>): Page4K
    requires k + |data| <= PAGE
  {
    s[..k] + data + s[k + |data|..]
  }

  lemma OffsetInPage(a: Word, b: Word, n: nat)
    requires a % PAGE + n <= PAGE
    ensures Offset(a, b) < n <==> Page(b) == Page(a) && a % PAGE <= b % PAGE < a % PAGE + n
    ensures Offset(a, b) < n ==> b % PAGE == a % PAGE + Offset(a, b)
  {}

  lemma InPage(a: Word, k: nat, n: nat)
    requires a % PAGE + n <= PAGE && k < n
    ensures Plus(a, k) == a + k && Page(Plus(a, k)) == Page(a) && Plus(a, k) % PAGE == a % PAGE + k
  {}

  /** Writing inside one page is copying into the flat map. */
  lemma FlatSplice(c: Pages, a: Word, data: seq<Byte>)
    requires Page(a) in c && a % PAGE + |data| <= PAGE
    ensures FlatOf(c[Page(a) := Spliced(c[Page(a)], a % PAGE, data)]) == CopyIn(FlatOf(c), a, data)
  {
    hide Offset;
    var c' := c[Page(a) := Spliced(c[Page(a)], a % PAGE, data)];
    forall b: Word | Page(b) in c
      ensures FlatOf(c')[b] == CopyIn(FlatOf(c), a, data)[b]
    {
      OffsetInPage(a, b, |data|);
    }
  }

  // ----- words inside a page -----

  lemma LowBytes2(v: Word)
    ensures LowBytes(v, 2) == [v % 0x100, v / 0x100 % 0x100]
  {
    assert LowBytes(v / 0x100, 1) == [v / 0x100 % 0x100];
  }

  lemma LowBytes4(v: Word)
    ensures LowBytes(v, 4) == [v % 0x100, v / 0x100 % 0x100, v / 0x1_0000 % 0x100, v / 0x100_0000]
  {
    LowBytes2(v);
    LowBytes2(v / 0x1_0000);
    assert LowBytes(v, 4) == LowBytes(v, 2) + LowBytes(v / 0x1_0000, 2);
  }

  lemma RawOffsets(a: Word, b: Word, n: nat)
    requires a % PAGE + n <= PAGE
    ensures Offset(a, b) < n <==> a <= b < a + n
    ensures a <= b < a + n ==> Offset(a, b) == b - a
  {
    assert a + n <= M32;
    assert Offset(a, b) == if b >= a then b - a else b - a + M32;
  }

  lemma Store32IsCopy(mem: Mem, a: Word, v: Word)
    requires Raw(mem, a, 4)
    ensures CopyIn(mem, a, LowBytes(v, 4)) == Store32(mem, a, v)
  {
    hide LowBytes;
    LowBytes4(v);
    assert CopyIn(mem, a, LowBytes(v, 4)).Keys == mem.Keys == Store32(mem, a, v).Keys;
    forall b: Word | b in mem
      ensures CopyIn(mem, a, LowBytes(v, 4))[b] == Store32(mem, a, v)[b]
    {
      RawOffsets(a, b, 4);
    }
  }

  lemma Store16IsCopy(mem: Mem, a: Word, v: Word)
    requires Raw(mem, a, 2)
    ensures CopyIn(mem, a, LowBytes(v, 2)) == Store16(mem, a, v)
  {
    hide LowBytes;
    LowBytes2(v);
    assert CopyIn(mem, a, LowBytes(v, 2)).Keys == mem.Keys == Store16(mem, a, v).Keys;
    forall b: Word | b in mem
      ensures CopyIn(mem, a, LowBytes(v, 2))[b] == Store16(mem, a, v)[b]
    {
      RawOffsets(a, b, 2);
    }
  }

  lemma Store8IsCopy(mem: Mem, a: Word, v: Word)
    requires a in mem
    ensures CopyIn(mem, a, [v % 0x100]) == Store8(mem, a, v)
  {
    assert CopyIn(mem, a, [v % 0x100]).Keys == mem.Keys == Store8(mem, a, v).Keys;
  }

  // ----- adding pages -----

  ghost function ZeroPage(): Page4K {
    seq(PAGE, _ => 0)
  }

  ghost function AddPage(c: Pages, p: int): Pages {
    if p in c then c else c[p := ZeroPage()]
  }

  /** c with a zeroed page for every number in [lo, hi) it lacks. */
  ghost function AddPages(c: Pages, lo: int, hi: int): (r: Pages)
    ensures forall p :: p in r <==> p in c || lo <= p < hi
    ensures forall p | p in r :: r[p] == if p in c then c[p] else ZeroPage()
    decreases hi - lo
  {
    if hi <= lo then c else AddPage(AddPages(c, lo, hi - 1), hi - 1)
  }

  /** The flat view of added pages: old bytes kept, new bytes zero. */
  lemma FlatAddPages(c: Pages, a: Word, n: Word)
    ensures FlatOf(AddPages(c, Page(a), Page(Plus(a, n - 1)) + 1)) == Allocate(FlatOf(c), a, n)
  {
    hide Plus, AddPages, Page;
    var c' := AddPages(c, Page(a), Page(Plus(a, n - 1)) + 1);
    assert forall b: Word :: b in FlatOf(c') <==> Page(b) in c';
    assert forall b: Word :: b in FlatOf(c) <==> Page(b) in c;
    assert forall b: Word :: b in Allocate(FlatOf(c), a, n) <==> Page(b) in c';
  }

  // ----- pieces of a copy -----

  lemma OffsetSplit(a: Word, b: Word, m: nat)
    requires m < M32
    ensures Offset(Plus(a, m), b) == if Offset(a, b) >= m then Offset(a, b) - m else Offset(a, b) - m + M32
  {
    var p := if a + m < M32 then a + m else a + m - M32;
    assert Plus(a, m) == p;
    assert Offset(a, b) == if b >= a then b - a else b - a + M32;
    assert Offset(p, b) == if b >= p then b - p else b - p + M32;
  }

  lemma CopyInAppend(mem: Mem, a: Word, d: seq<Byte>, e: seq<Byte>)
    requires |d| + |e| < M32
    ensures CopyIn(CopyIn(mem, a, d), Plus(a, |d|), e) == CopyIn(mem, a, d + e)
  {
    hide Offset, Plus;
    forall b: Word | b in mem
      ensures CopyIn(CopyIn(mem, a, d), Plus(a, |d|), e)[b] == CopyIn(mem, a, d + e)[b]
    {
      OffsetSplit(a, b, |d|);
    }
  }

  lemma CoversAppend(mem: Mem, a: Word, m: nat, n: nat)
    ensures Covers(mem, a, m) && Covers(mem, Plus(a, m), n) <==> Covers(mem, a, m + n)
  {
    hide Plus;
    forall i | 0 <= i < n
      ensures Plus(Plus(a, m), i) == Plus(a, m + i)
    {
      PlusPlus(a, m, i);
    }
    if Covers(mem, a, m) && Covers(mem, Plus(a, m), n) {
      forall i | m <= i < m + n
        ensures Plus(a, i) in mem
      {
        assert Plus(Plus(a, m), i - m) in mem;
      }
    }
  }

  lemma CopyInKeys(mem: Mem, a: Word, d: seq<Byte>)
    ensures CopyIn(mem, a, d).Keys == mem.Keys
  {}

  lemma CoversKeys(mem: Mem, mem': Mem, a: Word, n: nat)
    requires mem'.Keys == mem.Keys && Covers(mem', a, n)
    ensures Covers(mem, a, n)
  {
    hide Plus;
    forall i | 0 <= i < n
      ensures Plus(a, i) in mem
    {
      assert Plus(a, i) in mem';
    }
  }

  /** A piece copied on top of what is done so far. */
  lemma PieceAppend(before: Mem, address: Word, d: seq<Byte>, e: seq<Byte>, mid: Mem)
    requires |d| + |e| < M32
    requires Covers(before, address, |d|) && mid == CopyIn(before, address, d)
    requires Covers(mid, Plus(address, |d|), |e|)
    ensures Covers(before, address, |d + e|)
    ensures CopyIn(mid, Plus(address, |d|), e) == CopyIn(before, address, d + e)
    ensures Plus(Plus(address, |d|), |e|) == Plus(address, |d| + |e|)
  {
    hide CopyIn, Plus, Covers;
    CopyInAppend(before, address, d, e);
    PlusPlus(address, |d|, |e|);
    CopyInKeys(before, address, d);
    CoversKeys(before, mid, Plus(address, |d|), |e|);
    CoversAppend(before, address, |d|, |e|);
  }

  lemma FillIsCopyIn(mem: Mem, a: Word, n: nat, v: Byte)
    ensures Fill(mem, a, n, v) == CopyIn(mem, a, seq(n, _ => v))
  {}

  /** data is what lies at a. */
  ghost predicate Holds(mem: Mem, a: Word, data: seq<Byte>) {
    Covers(mem, a, |data|) && forall k | 0 <= k < |data| :: data[k] == mem[Plus(a, k)]
  }

  lemma HoldsAppend(mem: Mem, a: Word, d: seq<Byte>, e: seq<Byte>)
    requires Holds(mem, a, d) && Holds(mem, Plus(a, |d|), e)
    ensures Holds(mem, a, d + e) && Plus(Plus(a, |d|), |e|) == Plus(a, |d| + |e|)
  {
    hide Plus;
    CoversAppend(mem, a, |d|, |e|);
    PlusPlus(a, |d|, |e|);
    forall k | |d| <= k < |d + e|
      ensures (d + e)[k] == mem[Plus(a, k)]
    {
      PlusPlus(a, |d|, k - |d|);
    }
  }

  lemma CopiedByte(mem: Mem, a: Word, data: seq<Byte>, k: nat)
    requires k < |data| < M32 && Plus(a, k) in mem
    ensures CopyIn(mem, a, data)[Plus(a, k)] == data[k]
  {
    assert Offset(a, Plus(a, k)) == k;
  }

  /** What a copy writes a copy reads back, across any number of pages. */
  lemma WriteThenRead(mem: Mem, a: Word, data: seq<Byte>, read: seq<Byte>)
    requires |data| < M32 && Covers(mem, a, |data|)
    ensures Holds(CopyIn(mem, a, data), a, data)
    ensures Holds(CopyIn(mem, a, data), a, read) && |read| == |data| ==> read == data
  {
    hide Plus, Offset, CopyIn;
    CopyInKeys(mem, a, data);
    CoversKeys(CopyIn(mem, a, data), mem, a, |data|);
    forall k | 0 <= k < |data|
      ensures CopyIn(mem, a, data)[Plus(a, k)] == data[k]
    {
      CopiedByte(mem, a, data, k);
    }
  }

  /** A copy changes the bytes of its range and no others, and maps nothing. */
  lemma CopyInElsewhere(mem: Mem, a: Word, data: seq<Byte>, b: Word)
    requires a + |data| <= M32
    ensures b in CopyIn(mem, a, data) <==> b in mem
    ensures b in mem ==> CopyIn(mem, a, data)[b] == if a <= b < a + |data| then data[b - a] else mem[b]
  {}

  /** A piece that ends at the end of the page, or before. */
  function Amount(left: Word, offset: nat): nat
    requires offset < PAGE
  {
    if left < PAGE - offset then left else PAGE - offset
  }

  lemma FlatEmpty()
    ensures FlatOf(map[]) == map[]
  {}

  method Memcpy(buffer: array<Byte>, at: nat, data: seq<Byte>)
    requires at + |data| <= buffer.Length
    modifies buffer
    ensures buffer[..at] == old(buffer[..at])
    ensures buffer[at..at + |data|] == data
    ensures buffer[at + |data|..] == old(buffer[at + |data|..])
  {
    forall k | 0 <= k < |data| {
      buffer[at + k] := data[k];
    }
  }

  class PageTable {
    const entries: array<array?<Byte>>

    /** calloc(1, sizeof(page_table_t)) */
    constructor ()
      ensures fresh(entries) && entries.Length == ENTRIES
      ensures forall e | 0 <= e < ENTRIES :: entries[e] == null
    {
      entries := new array?<Byte>[ENTRIES](_ => null);
    }
  }

  class PagedMemory {
    const tables: array<PageTable?>
    var brkStart: Word
    var brkEnd: Word
    var mmapStart: Word
    var mmapEnd: Word

    /** The mapped pages by page number. */
    ghost var pages: map<int, array<Byte>>
    ghost var Repr: set<object>

    /** page_tables[t]->page_entries[e], null when either is missing. */
    function Slot(t: int, e: int): array?<Byte>
      reads this, Repr
      requires tables in Repr && tables.Length == ENTRIES && 0 <= t < ENTRIES && 0 <= e < ENTRIES
      requires tables[t] != null ==> tables[t].entries in Repr && tables[t].entries.Length == ENTRIES
    {
      if tables[t] == null then null else tables[t].entries[e]
    }

    /** The tables hold exactly the pages, each in its own slot. */
    ghost predicate ValidTables()
      reads this, Repr
    {
      && this in Repr && tables in Repr && tables.Length == ENTRIES
      && (forall t | 0 <= t < ENTRIES && tables[t] != null ::
            tables[t] in Repr && tables[t].entries in Repr && tables[t].entries.Length == ENTRIES)
      && (forall t, u | 0 <= t < u < ENTRIES && tables[t] != null && tables[u] != null ::
            tables[t].entries != tables[u].entries)
      && (forall t, e | 0 <= t < ENTRIES && 0 <= e < ENTRIES ::
            Slot(t, e) == if ENTRIES * t + e in pages then pages[ENTRIES * t + e] else null)
    }

    /** No two page numbers share storage. */
    ghost predicate ValidPages()
      reads this, Repr
    {
      && (forall p | p in pages :: 0 <= p < ENTRIES * ENTRIES && pages[p] in Repr && pages[p].Length == PAGE)
      && (forall p, q | p in pages && q in pages && p != q :: pages[p] != pages[q])
    }

    ghost predicate Valid()
      reads this, Repr
    {
      ValidTables() && ValidPages()
    }

    ghost function PageBytes(page: array<Byte>): Page4K
      reads page
      requires page.Length == PAGE
    {
      page[..]
    }

    ghost function Contents(): Pages
      reads this, Repr
      requires ValidPages()
    {
      map p | p in pages :: PageBytes(pages[p])
    }

    lemma SlotOfPage()
      requires ValidTables()
      ensures forall a: Word :: Slot(a / 0x40_0000, a / PAGE % ENTRIES) ==
                if Page(a) in pages then pages[Page(a)] else null
    {
      forall a: Word
        ensures Slot(a / 0x40_0000, a / PAGE % ENTRIES) ==
                if Page(a) in pages then pages[Page(a)] else null
      {
        assert ENTRIES * (a / 0x40_0000) + a / PAGE % ENTRIES == Page(a);
      }
    }

    /** The bytes the guest can address. */
    function Flat(): (mem: Mem)
      reads this, Repr
      requires Valid()
      ensures mem == FlatOf(Contents())
    {
      assert forall a: Word | 0 <= a < M32 :: Slot(a / 0x40_0000, a / PAGE % ENTRIES) ==
               if Page(a) in pages then pages[Page(a)] else null by { SlotOfPage(); }
      map a: Word | 0 <= a < M32 && Slot(a / 0x40_0000, a / PAGE % ENTRIES) != null
        :: Slot(a / 0x40_0000, a / PAGE % ENTRIES)[a % PAGE]
    }

    /** memory_create */
    constructor ()
      ensures Valid() && fresh(Repr) && Flat() == map[]
      ensures brkStart == brkEnd == 0 && mmapStart == mmapEnd == 0x4000_0000
    {
      tables := new PageTable?[ENTRIES](_ => null);
      brkStart, brkEnd := 0, 0;
      mmapStart, mmapEnd := 0x4000_0000, 0x4000_0000;
      pages := map[];
      new;
      Repr := {this, tables};
      hide FlatOf;
      assert Contents() == map[];
      FlatEmpty();
    }

    /** memory_find_page: a null page stands for the crash of the dereference. */
    method FindPage(a: Word) returns (page: array?<Byte>, offset: nat)
      requires Valid()
      ensures page == if Page(a) in pages then pages[Page(a)] else null
      ensures offset == a % PAGE
    {
      SlotOfPage();
      offset := a % PAGE;
      page := null;
      var table := tables[a / 0x40_0000];
      if table != null {
        page := table.entries[a / PAGE % ENTRIES];
      }
    }

    // ----- one page -----

    /** memcpy into the page of a. */
    method PutBytes(a: Word, page: array<Byte>, data: seq<Byte>)
      requires Valid() && Page(a) in pages && page == pages[Page(a)]
      requires a % PAGE + |data| <= PAGE
      modifies page
      ensures Valid()
      ensures Flat() == CopyIn(old(Flat()), a, data)
    {
      hide FlatOf, CopyIn;
      ghost var before := Contents();
      FlatSplice(before, a, data);
      forall k | 0 <= k < |data| {
        page[a % PAGE + k] := data[k];
      }
      assert forall t, e | 0 <= t < ENTRIES && 0 <= e < ENTRIES :: Slot(t, e) == old(Slot(t, e));
      assert PageBytes(page) == Spliced(before[Page(a)], a % PAGE, data);
      forall p | p in pages && p != Page(a)
        ensures PageBytes(pages[p]) == before[p]
      {
        assert pages[p] != page;
      }
      assert Contents() == before[Page(a) := Spliced(before[Page(a)], a % PAGE, data)];
    }

    /** memcpy out of the page of a. */
    method GetBytes(a: Word, page: array<Byte>, n: nat) returns (data: seq<Byte>)
      requires Valid() && Page(a) in pages && page == pages[Page(a)]
      requires a % PAGE + n <= PAGE
      ensures |data| == n && Covers(Flat(), a, n)
      ensures forall k | 0 <= k < n :: data[k] == Flat()[Plus(a, k)]
    {
      data := page[a % PAGE..a % PAGE + n];
      forall k | 0 <= k < n
        ensures Plus(a, k) in Flat() && Flat()[Plus(a, k)] == data[k]
      {
        hide Plus;
        InPage(a, k, n);
      }
    }

    // ----- memory_read and memory_write of u8, u16 and u32 -----

    lemma RawIsPage(a: Word, n: nat)
      requires Valid() && 1 <= n <= 4
      ensures Raw(Flat(), a, n) <==> Page(a) in pages && a % PAGE + n <= PAGE
      ensures a in Flat() <==> Page(a) in pages
    {
      hide Flat;
    }

    /** A byte of the flat memory lies in its page. */
    lemma FlatByte(a: Word, i: nat)
      requires Valid() && Page(a) in pages && a % PAGE + i < PAGE
      ensures a + i in Flat() && Flat()[a + i] == pages[Page(a)][a % PAGE + i]
    {
      hide Flat;
      assert Page(a + i) == Page(a) && (a + i) % PAGE == a % PAGE + i;
    }

    method ReadU32(a: Word) returns (ok: bool, v: Word)
      requires Valid()
      ensures ok == Raw(Flat(), a, 4)
      ensures ok ==> v == Load32(Flat(), a)
    {
      hide Flat, FlatOf, Raw, LittleEndian;
      RawIsPage(a, 4);
      var page, offset := FindPage(a);
      ok, v := page != null && offset + 4 <= PAGE, 0;
      if ok {
        FlatByte(a, 0);
        FlatByte(a, 1);
        FlatByte(a, 2);
        FlatByte(a, 3);
        v := LittleEndian(page[offset], page[offset + 1], page[offset + 2], page[offset + 3]);
      }
    }

    method ReadU16(a: Word) returns (ok: bool, v: Word)
      requires Valid()
      ensures ok == Raw(Flat(), a, 2)
      ensures ok ==> v == Load16(Flat(), a)
    {
      hide Flat, FlatOf, Raw, LittleEndian;
      RawIsPage(a, 2);
      var page, offset := FindPage(a);
      ok, v := page != null && offset + 2 <= PAGE, 0;
      if ok {
        FlatByte(a, 0);
        FlatByte(a, 1);
        v := LittleEndian(page[offset], page[offset + 1], 0, 0);
      }
    }

    method ReadU8(a: Word) returns (ok: bool, v: Byte)
      requires Valid()
      ensures ok == (a in Flat())
      ensures ok ==> v == Flat()[a]
    {
      RawIsPage(a, 1);
      var page, offset := FindPage(a);
      ok, v := page != null, 0;
      if ok {
        v := page[offset];
      }
    }

    ghost function PageSet(): set<object>
      reads this
    {
      set p | p in pages :: pages[p]
    }

    method WriteU32(a: Word, v: Word) returns (ok: bool)
      requires Valid()
      modifies PageSet()
      ensures Valid()
      ensures ok == old(Raw(Flat(), a, 4))
      ensures ok ==> Flat() == Store32(old(Flat()), a, v)
    {
      hide Flat, FlatOf, Raw, LowBytes, CopyIn;
      RawIsPage(a, 4);
      var page, offset := FindPage(a);
      ok := page != null && offset + 4 <= PAGE;
      if ok {
        Store32IsCopy(Flat(), a, v);
        PutBytes(a, page, LowBytes(v, 4));
      }
    }

    method WriteU16(a: Word, v: Word) returns (ok: bool)
      requires Valid()
      modifies PageSet()
      ensures Valid()
      ensures ok == old(Raw(Flat(), a, 2))
      ensures ok ==> Flat() == Store16(old(Flat()), a, v)
    {
      hide Flat, FlatOf, Raw, LowBytes, CopyIn;
      RawIsPage(a, 2);
      var page, offset := FindPage(a);
      ok := page != null && offset + 2 <= PAGE;
      if ok {
        Store16IsCopy(Flat(), a, v);
        PutBytes(a, page, LowBytes(v, 2));
      }
    }

    method WriteU8(a: Word, v: Word) returns (ok: bool)
      requires Valid()
      modifies PageSet()
      ensures Valid()
      ensures ok == old(a in Flat())
      ensures ok ==> Flat() == Store8(old(Flat()), a, v)
    {
      hide Flat, FlatOf, CopyIn;
      RawIsPage(a, 1);
      var page, offset := FindPage(a);
      ok := page != null;
      if ok {
        Store8IsCopy(Flat(), a, v);
        PutBytes(a, page, [v % 0x100]);
      }
    }

    // ----- loops over pages -----

    lemma PageSetInRepr()
      requires Valid()
      ensures PageSet() <= Repr && this !in PageSet()
    {}

    lemma SelfInRepr()
      requires Valid()
      ensures this in Repr
    {}

    lemma FlatDomain(a: Word)
      requires Valid()
      ensures a in Flat() <==> Page(a) in pages
    {}

    lemma CoversInPage(a: Word, n: nat)
      requires Valid() && Page(a) in pages && a % PAGE + n <= PAGE
      ensures Covers(Flat(), a, n)
    {
      hide Plus;
      forall i | 0 <= i < n
        ensures Plus(a, i) in Flat()
      {
        InPage(a, i, n);
      }
    }

    /** The body of the copy loops: as much of data as the page of a takes; 0 is the crash. */
    method PutPiece(a: Word, data: seq<Byte>) returns (amount: nat)
      requires Valid() && 0 < |data| < M32
      modifies PageSet()
      ensures Valid() && amount <= |data|
      ensures amount == 0 ==> a !in old(Flat())
      ensures amount > 0 ==> Covers(old(Flat()), a, amount) && Flat() == CopyIn(old(Flat()), a, data[..amount])
    {
      hide FlatOf, CopyIn, Covers, Plus;
      FlatDomain(a);
      var page, offset := FindPage(a);
      if page == null {
        return 0;
      }
      amount := Amount(|data|, offset);
      CoversInPage(a, amount);
      PutBytes(a, page, data[..amount]);
    }

    /** A copy or fill of data at address has been carried out on before. */
    ghost predicate Copied(before: Mem, address: Word, data: seq<Byte>)
      reads this, Repr
      requires Valid()
    {
      Covers(before, address, |data|) && Flat() == CopyIn(before, address, data)
    }

    lemma StartCopy(mem: Mem, a: Word)
      ensures Plus(a, 0) == a && CopyIn(mem, a, []) == mem && Covers(mem, a, 0)
    {}

    lemma NotCovered(mem: Mem, a: Word, d: seq<Byte>, n: nat)
      requires |d| < n && Plus(a, |d|) !in CopyIn(mem, a, d)
      ensures !Covers(mem, a, n)
    {}

    method CopyWrite(address: Word, size: Word, buffer: array<Byte>) returns (ok: bool)
      requires Valid() && size <= buffer.Length && buffer !in Repr
      modifies PageSet()
      ensures Valid()
      ensures ok == Covers(old(Flat()), address, size)
      ensures ok ==> Flat() == CopyIn(old(Flat()), address, buffer[..size])
    {
      hide FlatOf, CopyIn, Covers, Plus;
      ghost var before := Flat();
      var a, done := address, 0;
      StartCopy(before, a);
      while done < size
        invariant Valid() && done <= size && a == Plus(address, done)
        invariant Copied(before, address, buffer[..done])
      {
        ghost var mid := Flat();
        var amount := PutPiece(a, buffer[done..size]);
        if amount == 0 {
          NotCovered(before, address, buffer[..done], size);
          return false;
        }
        PieceAppend(before, address, buffer[..done], buffer[done..size][..amount], mid);
        assert buffer[..done] + buffer[done..size][..amount] == buffer[..done + amount];
        a, done := Plus(a, amount), done + amount;
      }
      ok := true;
    }

    /** memory_set: memset keeps the low byte of the value. */
    method Set(address: Word, size: Word, value: Word) returns (ok: bool)
      requires Valid()
      modifies PageSet()
      ensures Valid()
      ensures ok == Covers(old(Flat()), address, size)
      ensures ok ==> Flat() == Fill(old(Flat()), address, size, value % 0x100)
    {
      hide FlatOf, CopyIn, Covers, Plus, Fill;
      ghost var before := Flat();
      var a, done := address, 0;
      StartCopy(before, a);
      var v: Byte := value % 0x100;
      assert seq(0, _ => v) == [];
      while done < size
        invariant Valid() && done <= size && a == Plus(address, done)
        invariant Copied(before, address, seq(done, _ => v))
      {
        ghost var mid := Flat();
        var amount := PutPiece(a, seq(size - done, _ => v));
        if amount == 0 {
          NotCovered(before, address, seq(done, _ => v), size);
          return false;
        }
        PieceAppend(before, address, seq(done, _ => v), seq(size - done, _ => v)[..amount], mid);
        assert seq(done, _ => v) + seq(size - done, _ => v)[..amount] == seq(done + amount, _ => v);
        a, done := Plus(a, amount), done + amount;
      }
      FillIsCopyIn(before, address, size, v);
      ok := true;
    }

    /** The body of the read loop; the empty piece is the crash. */
    method GetPiece(a: Word, left: Word) returns (data: seq<Byte>)
      requires Valid() && left > 0
      ensures |data| <= left
      ensures |data| == 0 ==> a !in Flat()
      ensures |data| > 0 ==> Covers(Flat(), a, |data|)
      ensures |data| > 0 ==> forall k | 0 <= k < |data| :: data[k] == Flat()[Plus(a, k)]
    {
      hide FlatOf, Plus;
      FlatDomain(a);
      var page, offset := FindPage(a);
      if page == null {
        return [];
      }
      data := GetBytes(a, page, Amount(left, offset));
    }

    lemma StartRead(mem: Mem, a: Word)
      ensures Plus(a, 0) == a && Holds(mem, a, [])
    {}

    lemma ReadStops(mem: Mem, a: Word, k: nat, n: nat)
      requires k < n && Plus(a, k) !in mem
      ensures !Covers(mem, a, n)
    {}

    lemma ReadEnds(mem: Mem, a: Word, d: seq<Byte>)
      requires Holds(mem, a, d)
      ensures Covers(mem, a, |d|)
    {}

    lemma HoldsPiece(mem: Mem, a: Word, d: seq<Byte>)
      requires Covers(mem, a, |d|) && forall k | 0 <= k < |d| :: d[k] == mem[Plus(a, k)]
      ensures Holds(mem, a, d)
    {}

    method CopyRead(address: Word, size: Word, buffer: array<Byte>) returns (ok: bool)
      requires Valid() && size <= buffer.Length && buffer !in Repr
      modifies buffer
      ensures Valid() && Flat() == old(Flat())
      ensures ok == Covers(Flat(), address, size)
      ensures ok ==> Holds(Flat(), address, buffer[..size])
      ensures buffer[size..] == old(buffer[size..])
    {
      hide *;
      ghost var mem := Flat();
      var a, done := address, 0;
      StartRead(mem, a);
      while done < size
        invariant Valid() && Flat() == mem && done <= size && a == Plus(address, done)
        invariant Holds(mem, address, buffer[..done])
        invariant buffer[done..] == old(buffer[done..])
      {
        var data := GetPiece(a, size - done);
        if |data| == 0 {
          ReadStops(mem, address, done, size);
          return false;
        }
        ghost var d := buffer[..done];
        HoldsPiece(mem, a, data);
        HoldsAppend(mem, address, d, data);
        Memcpy(buffer, done, data);
        assert buffer[..done + |data|] == d + data;
        a, done := Plus(a, |data|), done + |data|;
      }
      ReadEnds(mem, address, buffer[..size]);
      ok := true;
    }

    // ----- memory_allocate -----

    /** Find or allocate table t. */
    method EnsureTable(t: nat)
      requires Valid() && t < ENTRIES
      modifies this, tables
      ensures Valid() && fresh(Repr - old(Repr)) && tables[t] != null
      ensures pages == old(pages) && Contents() == old(Contents())
      ensures brkStart == old(brkStart) && brkEnd == old(brkEnd)
      ensures mmapStart == old(mmapStart) && mmapEnd == old(mmapEnd)
    {
      if tables[t] == null {
        assert forall e | 0 <= e < ENTRIES :: Slot(t, e) == null;
        var table := new PageTable();
        tables[t] := table;
        Repr := Repr + {table, table.entries};
        assert forall u, e | 0 <= u < ENTRIES && 0 <= e < ENTRIES :: Slot(u, e) == old(Slot(u, e));
      }
    }

    /** Put a new page into an empty slot. */
    method FillEntry(t: nat, e: nat, page: array<Byte>)
      requires Valid() && t < ENTRIES && e < ENTRIES && tables[t] != null && Slot(t, e) == null
      requires page !in Repr && page.Length == PAGE && PageBytes(page) == ZeroPage()
      modifies this, tables[t].entries
      ensures Valid() && Repr == old(Repr) + {page} && tables[t] == old(tables[t])
      ensures Contents() == AddPage(old(Contents()), ENTRIES * t + e)
      ensures pages == old(pages)[ENTRIES * t + e := page] && ENTRIES * t + e !in old(pages)
      ensures brkStart == old(brkStart) && brkEnd == old(brkEnd)
      ensures mmapStart == old(mmapStart) && mmapEnd == old(mmapEnd)
    {
      hide FlatOf, Flat, AddPages, ZeroPage;
      ghost var before := Contents();
      tables[t].entries[e] := page;
      pages := pages[ENTRIES * t + e := page];
      Repr := Repr + {page};
      assert forall u, f | 0 <= u < ENTRIES && 0 <= f < ENTRIES && !(u == t && f == e) ::
          Slot(u, f) == old(Slot(u, f)) && ENTRIES * u + f != ENTRIES * t + e;
      assert forall p | p in before :: PageBytes(pages[p]) == before[p];
    }

    /** calloc(1, 1 << PE_SHIFT) */
    method NewPage() returns (page: array<Byte>)
      ensures fresh(page) && page.Length == PAGE && PageBytes(page) == ZeroPage()
    {
      page := new Byte[PAGE](_ => 0);
      assert page[..] == ZeroPage();
    }

    /** Find or allocate page entry e of table t. */
    method EnsureEntry(t: nat, e: nat)
      requires Valid() && t < ENTRIES && e < ENTRIES && tables[t] != null
      modifies this, tables[t].entries
      ensures Valid() && fresh(Repr - old(Repr)) && tables[t] == old(tables[t])
      ensures Contents() == AddPage(old(Contents()), ENTRIES * t + e)
      ensures forall p | p in old(pages) :: p in pages && pages[p] == old(pages[p])
      ensures brkStart == old(brkStart) && brkEnd == old(brkEnd)
      ensures mmapStart == old(mmapStart) && mmapEnd == old(mmapEnd)
    {
      hide FlatOf, Flat, AddPages, ZeroPage;
      ghost var before := Contents();
      assert Slot(t, e) == tables[t].entries[e];
      if tables[t].entries[e] == null {
        var page := NewPage();
        FillEntry(t, e, page);
      }
    }

    /** What stays as it was while pages are added. */
    twostate predicate OnlyGrown()
      reads this, Repr
    {
      && Valid() && old(Valid()) && fresh(Repr - old(Repr))
      && (forall p | p in old(pages) :: p in pages && pages[p] == old(pages[p]))
      && brkStart == old(brkStart) && brkEnd == old(brkEnd)
      && mmapStart == old(mmapStart) && mmapEnd == old(mmapEnd)
    }

    /** The first page not yet visited when table t is next. */
    ghost function Reached(address: Word, last: Word, t: nat): int {
      if t == address / 0x40_0000 then Page(address)
      else if t <= last / 0x40_0000 then ENTRIES * t
      else Page(last) + 1
    }

    lemma ReachedSteps(address: Word, last: Word, t: nat, start: nat, end: nat)
      requires address / 0x40_0000 <= t <= last / 0x40_0000
      requires start == if t == address / 0x40_0000 then address / PAGE % ENTRIES else 0
      requires end == if t == last / 0x40_0000 then last / PAGE % ENTRIES else ENTRIES - 1
      ensures Reached(address, last, t) == ENTRIES * t + start
      ensures start <= end ==> Reached(address, last, t + 1) == ENTRIES * t + end + 1
      ensures start > end ==> Reached(address, last, t + 1) <= ENTRIES * t + start
      ensures start > end ==> Page(address) == ENTRIES * t + start
    {}

    lemma AddPagesNone(c: Pages, hi: int)
      ensures forall lo | hi <= lo :: AddPages(c, lo, hi) == c
    {}

    lemma AddPagesStep(c: Pages, lo: int, k: int)
      requires lo <= k
      ensures AddPages(c, lo, k + 1) == AddPage(AddPages(c, lo, k), k)
    {}

    /** The inner loop of memory_allocate. */
    method AllocateEntries(t: nat, start: nat, end: nat, ghost before: Pages, ghost first: int)
      requires Valid() && t < ENTRIES && end < ENTRIES && tables[t] != null
      requires first <= ENTRIES * t + start && Contents() == AddPages(before, first, ENTRIES * t + start)
      modifies Repr
      ensures OnlyGrown()
      ensures Contents() == AddPages(before, first, if start <= end then ENTRIES * t + end + 1 else ENTRIES * t + start)
    {
      hide Flat, FlatOf, AddPages, AddPage, Slot, PageBytes, Allocate, Contents;
      var e := start;
      while e <= end
        invariant OnlyGrown() && tables[t] != null
        invariant start <= e && (start <= end ==> e <= end + 1) && (start > end ==> e == start)
        invariant Contents() == AddPages(before, first, ENTRIES * t + e)
      {
        EnsureEntry(t, e);
        AddPagesStep(before, first, ENTRIES * t + e);
        e := e + 1;
      }
    }

    /** The outer loop of memory_allocate. */
    method AllocateTables(address: Word, size: Word)
      requires Valid()
      modifies Repr
      ensures OnlyGrown()
      ensures Contents() == AddPages(old(Contents()), Page(address), Page(Plus(address, size - 1)) + 1)
    {
      hide Flat, FlatOf, AddPages, AddPage, Slot, PageBytes, Allocate, Contents;
      ghost var before := Contents();
      var last := Plus(address, size - 1);
      var head, tail := address / 0x40_0000, last / 0x40_0000;
      AddPagesNone(before, Page(address));
      var t := head;
      while t <= tail
        invariant OnlyGrown() && head <= t
        invariant Contents() == AddPages(before, Page(address), Reached(address, last, t))
        decreases tail + 1 - t
      {
        var start := if t == head then address / PAGE % ENTRIES else 0;
        var end := if t == tail then last / PAGE % ENTRIES else ENTRIES - 1;
        EnsureTable(t);
        ReachedSteps(address, last, t, start, end);
        AllocateEntries(t, start, end, before, Page(address));
        t := t + 1;
      }
      AddPagesNone(before, Page(last) + 1);
    }

    /** memory_allocate: all pages from that of the first byte to that of the last. */
    method AllocatePages(address: Word, size: Word)
      requires Valid()
      modifies Repr
      ensures OnlyGrown()
      ensures Flat() == Allocate(old(Flat()), address, size)
    {
      hide FlatOf, Flat, Allocate, AddPages, Slot;
      FlatAddPages(old(Contents()), address, size);
      AllocateTables(address, size);
    }

    // ----- heap bounds -----

    method SetBrkEnd(end: Word)
      requires Valid()
      modifies this`brkEnd
      ensures Valid() && Flat() == old(Flat()) && brkEnd == end
    {
      hide FlatOf;
      brkEnd := end;
      assert forall t, e | 0 <= t < ENTRIES && 0 <= e < ENTRIES :: Slot(t, e) == old(Slot(t, e));
      assert Contents() == old(Contents());
    }

    method SetBrkStart(start: Word)
      requires Valid()
      modifies this`brkStart
      ensures Valid() && Flat() == old(Flat()) && brkStart == start
    {
      hide FlatOf;
      brkStart := start;
      assert forall t, e | 0 <= t < ENTRIES && 0 <= e < ENTRIES :: Slot(t, e) == old(Slot(t, e));
      assert Contents() == old(Contents());
    }

    method SetMmapEnd(end: Word)
      requires Valid()
      modifies this`mmapEnd
      ensures Valid() && Flat() == old(Flat()) && mmapEnd == end
    {
      hide FlatOf;
      mmapEnd := end;
      assert forall t, e | 0 <= t < ENTRIES && 0 <= e < ENTRIES :: Slot(t, e) == old(Slot(t, e));
      assert Contents() == old(Contents());
    }
  }
}
