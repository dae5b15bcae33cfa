/** The first-fit frame allocator and the four-level page tables of mm.c, as functions
    on the state of physical memory. */
module PageTables {
  import opened Bits

  const PAGE_SIZE: nat := 4096
  const LOW_MEMORY: nat := 0x40_0000
  const PAGING_PAGES: nat := (0x3F00_0000 - 0x40_0000) / 4096
  const PTRS_PER_TABLE: nat := 512
  const PAGE_MASK: nat := 0xffff_ffff_ffff_f000
  const VA_START: nat := 0xffff_0000_0000_0000
  const MM_TYPE_PAGE_TABLE: nat := 3
  const MMU_PTE_FLAGS: nat := 0x447  // type page, attribute index 1, EL0 access, access flag
  const MAX_PROCESS_PAGES: nat := 16

  type Word = w: nat | w < 0x1_0000_0000_0000_0000

  /** mem_map and the managed physical frames, each frame as 512 words of 8 bytes. */
  datatype Phys = Phys(memMap: seq<nat>, mem: seq<seq<Word>>) {
    ghost predicate Valid() {
      && |memMap| == |mem| == PAGING_PAGES
      && forall f :: 0 <= f < PAGING_PAGES ==> |mem[f]| == PTRS_PER_TABLE
    }

    predicate Marked(f: nat) {
      f < |memMap| && memMap[f] != 0
    }

    ghost function Free(): set<nat> {
      set f | 0 <= f < |memMap| && memMap[f] == 0
    }
  }

  datatype UserPage = UserPage(physAddr: Word, virtAddr: Word)

  /** struct mm_struct. */
  datatype Mm = Mm(pgd: Word, userCount: nat, userPages: seq<UserPage>, kernelCount: nat, kernelPages: seq<Word>) {
    ghost predicate Valid() {
      && |userPages| == |kernelPages| == MAX_PROCESS_PAGES
      && userCount <= MAX_PROCESS_PAGES
      && kernelCount < MAX_PROCESS_PAGES
    }

    /** The mappings recorded so far, oldest first. */
    function Log(): seq<UserPage> {
      if userCount <= |userPages| then userPages[..userCount] else userPages
    }

    /** The table frames recorded so far; slot 0 is never used. */
    function Tables(): seq<Word> {
      if kernelCount < |kernelPages| then kernelPages[1..kernelCount + 1] else kernelPages
    }
  }

  /** An outcome of C code: Fault stands for a dereference of an address that is no managed
      frame or an index past the end of a fixed array. */
  datatype Outcome<+T> = Ok(value: T) | Fault {
    predicate IsFailure() { Fault? }
    function PropagateFailure<U>(): Outcome<U>
      requires Fault?
    { Fault }
    function Extract(): T
      requires Ok?
    { value }
  }

  function FrameAddr(f: nat): Word
    requires f < PAGING_PAGES
  {
    LOW_MEMORY + f * PAGE_SIZE
  }

  predicate IsFrame(pa: nat) {
    LOW_MEMORY <= pa < LOW_MEMORY + PAGING_PAGES * PAGE_SIZE && pa % PAGE_SIZE == 0
  }

  function FrameOf(pa: nat): (f: nat)
    requires IsFrame(pa)
    ensures f < PAGING_PAGES && FrameAddr(f) == pa
  {
    (pa - LOW_MEMORY) / PAGE_SIZE
  }

  lemma FrameRoundTrip(f: nat)
    requires f < PAGING_PAGES
    ensures IsFrame(FrameAddr(f)) && FrameOf(FrameAddr(f)) == f
  {
  }

  // ----- get_free_page

  function FirstFree(memMap: seq<nat>, from: nat): (r: nat)
    requires from <= |memMap|
    ensures from <= r <= |memMap|
    ensures r < |memMap| ==> memMap[r] == 0
    ensures forall j :: from <= j < r ==> memMap[j] != 0
    decreases |memMap| - from
  {
    if from == |memMap| || memMap[from] == 0 then from else FirstFree(memMap, from + 1)
  }

  function ZeroPage(): (p: seq<Word>)
    ensures |p| == PTRS_PER_TABLE && forall i :: 0 <= i < PTRS_PER_TABLE ==> p[i] == 0
  {
    seq(PTRS_PER_TABLE, _ => 0)
  }

  /** The new state and the physical address of the page, or 0. */
  function GetFreePage(ph: Phys): (Phys, Word)
    requires ph.Valid()
  {
    var f := FirstFree(ph.memMap, 0);
    if f == |ph.memMap| then (ph, 0)
    else (Phys(ph.memMap[f := 1], ph.mem[f := ZeroPage()]), FrameAddr(f))
  }

  /** get_free_page fails iff every frame is marked; otherwise it marks the first free frame,
      zeroes it, and touches nothing else. */
  lemma GetFreePageSpec(ph: Phys)
    requires ph.Valid()
    ensures var (ph', pa) := GetFreePage(ph);
      && ph'.Valid()
      && (ph.Free() == {} <==> pa == 0)
      && (pa == 0 ==> ph' == ph)
      && (pa != 0 ==>
            && IsFrame(pa)
            && var f := FrameOf(pa);
            && !ph.Marked(f) && (forall g :: 0 <= g < f ==> ph.Marked(g))
            && ph' == Phys(ph.memMap[f := 1], ph.mem[f := ZeroPage()])
            && ph'.Free() == ph.Free() - {f} && f in ph.Free())
  {
    var f := FirstFree(ph.memMap, 0);
    if f < |ph.memMap| {
      assert f in ph.Free();
      FrameRoundTrip(f);
      var (ph', _) := GetFreePage(ph);
      assert forall g :: g in ph'.Free() <==> g in ph.Free() && g != f;
    } else {
      assert forall g :: 0 <= g < |ph.memMap| ==> ph.memMap[g] != 0;
    }
  }

  // ----- map_table, map_table_entry, map_page

  /** (va >> shift) & (PTRS_PER_TABLE - 1). */
  function TableIndex(va: Word, shift: nat): (i: nat)
    ensures i < PTRS_PER_TABLE
    ensures i == Field(va, shift, 9)
  {
    AndLow(Shr(va, shift), 9);
    Pow2Values();
    BitAnd(Shr(va, shift), PTRS_PER_TABLE - 1)
  }

  /** Bits [lo + width - 1 : lo] of x. */
  function Field(x: nat, lo: nat, width: nat): nat {
    (x / Pow2(lo)) % Pow2(width)
  }

  function Load(ph: Phys, pa: nat, index: nat): Word
    requires ph.Valid() && IsFrame(pa) && index < PTRS_PER_TABLE
  {
    ph.mem[FrameOf(pa)][index]
  }

  function Store(ph: Phys, pa: nat, index: nat, w: Word): (ph': Phys)
    requires ph.Valid() && IsFrame(pa) && index < PTRS_PER_TABLE
    ensures ph'.Valid()
  {
    var f := FrameOf(pa);
    var page: seq<Word> := ph.mem[f];
    ph.(mem := ph.mem[f := page[index := w]])
  }

  /** pa | flags. */
  function Descriptor(pa: Word, flags: Word): (d: Word)
    ensures pa % PAGE_SIZE == 0 && flags < PAGE_SIZE ==> d == pa + flags
  {
    Pow2Values();
    OrBound(pa, flags, 64);
    if pa % PAGE_SIZE == 0 && flags < PAGE_SIZE then
      OrDisjoint(pa, flags, 12);
      BitOr(pa, flags)
    else
      BitOr(pa, flags)
  }

  /** d & PAGE_MASK. */
  function MaskPage(d: Word): (pa: Word)
    ensures pa == d - d % PAGE_SIZE
  {
    Pow2Values();
    AndHigh(d, 64, 12);
    BitAnd(d, PAGE_MASK)
  }

  /** The new state, the address of the next table, and whether it is new. */
  function MapTable(ph: Phys, table: Word, shift: nat, va: Word): (Phys, Word, bool)
    requires ph.Valid() && IsFrame(table)
  {
    var index := TableIndex(va, shift);
    if Load(ph, table, index) == 0 then
      GetFreePageSpec(ph);
      var (ph1, next) := GetFreePage(ph);
      (Store(ph1, table, index, Descriptor(next, MM_TYPE_PAGE_TABLE)), next, true)
    else
      (ph, MaskPage(Load(ph, table, index)), false)
  }

  /** kernel_pages[++kernel_pages_count] = page, with room for it. */
  function WithTable(mm: Mm, page: Word): (mm': Mm)
    requires mm.Valid() && mm.kernelCount + 1 < MAX_PROCESS_PAGES
    ensures mm'.Valid() && mm'.Log() == mm.Log() && mm'.Tables() == mm.Tables() + [page]
  {
    Mm(mm.pgd, mm.userCount, mm.userPages, mm.kernelCount + 1, mm.kernelPages[mm.kernelCount + 1 := page])
  }

  function RecordTable(mm: Mm, page: Word): Outcome<Mm>
    requires mm.Valid()
  {
    if mm.kernelCount + 1 == MAX_PROCESS_PAGES then Fault else Ok(WithTable(mm, page))
  }

  /** One level of map_page: map_table, then the record of a new table. */
  function MapLevel(ph: Phys, mm: Mm, table: Word, shift: nat, va: Word): (r: Outcome<(Phys, Mm, Word)>)
    requires ph.Valid() && mm.Valid()
    ensures r.Ok? ==> r.value.0.Valid() && r.value.1.Valid()
  {
    if !IsFrame(table) then Fault
    else
      var (ph1, next, isNew) := MapTable(ph, table, shift, va);
      GetFreePageSpec(ph);
      if isNew then
        var mm1 :- RecordTable(mm, next);
        Ok((ph1, mm1, next))
      else Ok((ph1, mm, next))
  }

  /** user_pages[user_pages_count++] = {page, va}, with room for it. */
  function WithMapping(mm: Mm, page: Word, va: Word): (mm': Mm)
    requires mm.Valid() && mm.userCount < MAX_PROCESS_PAGES
    ensures mm'.Valid() && mm'.Log() == mm.Log() + [UserPage(page, va)]
    ensures mm'.Tables() == mm.Tables() && mm'.pgd == mm.pgd && mm'.kernelCount == mm.kernelCount
  {
    Mm(mm.pgd, mm.userCount + 1, mm.userPages[mm.userCount := UserPage(page, va)], mm.kernelCount, mm.kernelPages)
  }

  /** map_table_entry on the level 3 table, then the record of the mapping. */
  function SetPage(ph: Phys, mm: Mm, pte: Word, va: Word, page: Word): (r: Outcome<(Phys, Mm)>)
    requires ph.Valid() && mm.Valid()
    ensures r.Ok? ==> r.value.0.Valid() && r.value.1.Valid()
  {
    if !IsFrame(pte) || mm.userCount == MAX_PROCESS_PAGES then Fault
    else Ok((Store(ph, pte, TableIndex(va, 12), Descriptor(page, MMU_PTE_FLAGS)), WithMapping(mm, page, va)))
  }

  /** The part of map_page below the table of the given level. */
  function MapBelow(ph: Phys, mm: Mm, table: Word, va: Word, page: Word, level: nat): (r: Outcome<(Phys, Mm)>)
    requires ph.Valid() && mm.Valid() && level <= 3
    ensures r.Ok? ==> r.value.0.Valid() && r.value.1.Valid()
    decreases 3 - level
  {
    if level == 3 then SetPage(ph, mm, table, va, page)
    else
      var (ph1, mm1, next) :- MapLevel(ph, mm, table, 39 - 9 * level, va);
      MapBelow(ph1, mm1, next, va, page, level + 1)
  }

  function MapPage(ph: Phys, mm: Mm, va: Word, page: Word): (r: Outcome<(Phys, Mm)>)
    requires ph.Valid() && mm.Valid()
    ensures r.Ok? ==> r.value.0.Valid() && r.value.1.Valid()
  {
    var (ph0, mm0) :- EnsureTop(ph, mm);
    MapBelow(ph0, mm0, mm0.pgd, va, page, 0)
  }

  /** The first step of map_page: allocate the top table when pgd is 0. */
  function EnsureTop(ph: Phys, mm: Mm): (r: Outcome<(Phys, Mm)>)
    requires ph.Valid() && mm.Valid()
    ensures r.Ok? ==> r.value.0.Valid() && r.value.1.Valid()
  {
    if mm.pgd == 0 then
      GetFreePageSpec(ph);
      var (ph1, pgd) := GetFreePage(ph);
      var mm1 :- RecordTable(mm.(pgd := pgd), pgd);
      Ok((ph1, mm1))
    else Ok((ph, mm))
  }

  // ----- The hardware walk: VMSAv8-64, 4KB granule, 48-bit addresses

  datatype Translation = NotMapped | Page(pa: nat) | Block(pa: nat)

  /** Arm Architecture Reference Manual (ARM DDI 0487), D5.2 and D5.3: level 0 to 3 use
      address bits [47:39], [38:30], [29:21], [20:12]; a descriptor with low bits 11 is a
      table (levels 0 to 2) or a page (level 3), 01 is a block (levels 1 and 2), the address
      is in bits [47:12], and a page whose access flag (bit 10) is clear faults. */
  function Walk(ph: Phys, table: nat, va: Word, level: nat): Translation
    requires ph.Valid() && level <= 3
    decreases 3 - level
  {
    if !IsFrame(table) then NotMapped
    else
      var d := Load(ph, table, FieldIndex(va, 39 - 9 * level));
      var next := Field(d, 12, 36) * PAGE_SIZE;
      if d % 4 == 3 then
        if level == 3 then (if Field(d, 10, 1) == 1 then Page(next) else NotMapped)
        else Walk(ph, next, va, level + 1)
      else if d % 4 == 1 && 1 <= level <= 2 then Block(next)
      else NotMapped
  }

  function FieldIndex(va: Word, lo: nat): (i: nat)
    ensures i == Field(va, lo, 9) < PTRS_PER_TABLE
  {
    Pow2Values();
    Field(va, lo, 9)
  }

  function Translate(ph: Phys, mm: Mm, va: Word): Translation
    requires ph.Valid()
  {
    Walk(ph, mm.pgd, va, 0)
  }
}
