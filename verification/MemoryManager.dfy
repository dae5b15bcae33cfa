/** The memory manager of mm.c as it runs: mem_map and the frames are updated in place, and
    each method is the specification function of the same name on the state before. */
module MemoryManager {
  import opened PageTables
  import opened MapPageProof
  import opened TaskMemory

  /** struct mm_struct; its arrays are embedded in it. */
  class MmStruct {
    var pgd: Word
    var userPagesCount: nat
    var userPages: seq<UserPage>
    var kernelPagesCount: nat
    var kernelPages: seq<Word>

    /** A zeroed mm_struct. */
    constructor ()
      ensures View() == EmptyMm()
    {
      pgd, userPagesCount, kernelPagesCount := 0, 0, 0;
      userPages := seq(MAX_PROCESS_PAGES, _ => UserPage(0, 0));
      kernelPages := seq(MAX_PROCESS_PAGES, _ => 0);
    }

    function View(): Mm
      reads this
    {
      Mm(pgd, userPagesCount, userPages, kernelPagesCount, kernelPages)
    }

    method RecordKernelPage(page: Word)
      requires View().Valid() && RecordTable(View(), page).Ok?
      modifies this
      ensures Ok(View()) == RecordTable(old(View()), page)
    {
      kernelPagesCount := kernelPagesCount + 1;
      kernelPages := kernelPages[kernelPagesCount := page];
    }
  }

  class FrameTable {
    const memMap: array<nat>
    const mem: array<seq<Word>>

    /** mem_map starts out zero. */
    constructor ()
      ensures Valid() && fresh(memMap) && fresh(mem)
      ensures forall f: nat :: !View().Marked(f)
    {
      memMap := new nat[PAGING_PAGES](_ => 0);
      mem := new seq<Word>[PAGING_PAGES](_ => ZeroPage());
    }

    function View(): Phys
      reads memMap, mem
    {
      Phys(memMap[..], mem[..])
    }

    ghost predicate Valid()
      reads memMap, mem
    {
      View().Valid()
    }

    /** First fit over mem_map; the page found is zeroed word by word. */
    method AllocateFrame() returns (page: Word)
      requires Valid()
      modifies memMap, mem
      ensures Valid() && (View(), page) == GetFreePage(old(View()))
    {
      for i := 0 to PAGING_PAGES
        invariant memMap[..] == old(memMap[..]) && mem[..] == old(mem[..])
        invariant FirstFree(memMap[..], 0) == FirstFree(memMap[..], i)
      {
        if memMap[i] == 0 {
          memMap[i] := 1;
          ClearFrame(i);
          return LOW_MEMORY + i * PAGE_SIZE;
        }
      }
      return 0;
    }

    /** memzero over one frame. */
    method ClearFrame(f: nat)
      requires f < mem.Length && |mem[f]| == PTRS_PER_TABLE
      modifies mem
      ensures mem[..] == old(mem[..])[f := ZeroPage()]
    {
      for w := 0 to PTRS_PER_TABLE
        invariant |mem[f]| == PTRS_PER_TABLE
        invariant forall k :: 0 <= k < w ==> mem[f][k] == 0
        invariant forall g :: 0 <= g < mem.Length && g != f ==> mem[g] == old(mem[g])
      {
        mem[f] := mem[f][w := 0];
      }
      assert mem[f] == ZeroPage();
    }

    method StoreWord(pa: Word, index: nat, w: Word)
      requires Valid() && IsFrame(pa) && index < PTRS_PER_TABLE
      modifies mem
      ensures Valid() && View() == Store(old(View()), pa, index, w)
    {
      var f := FrameOf(pa);
      mem[f] := mem[f][index := w];
      assert mem[..] == old(mem[..])[f := mem[f]];
    }

    method LinkTable(table: Word, shift: nat, va: Word) returns (next: Word, newTable: bool)
      requires Valid() && IsFrame(table)
      modifies memMap, mem
      ensures Valid() && (View(), next, newTable) == MapTable(old(View()), table, shift, va)
    {
      var index := TableIndex(va, shift);
      if mem[FrameOf(table)][index] == 0 {
        newTable := true;
        GetFreePageSpec(View());
        next := AllocateFrame();
        StoreWord(table, index, Descriptor(next, MM_TYPE_PAGE_TABLE));
      } else {
        newTable := false;
        next := MaskPage(mem[FrameOf(table)][index]);
      }
    }

    /** One level of map_page: the next table, recorded when it is new. */
    method NextTable(task: MmStruct, table: Word, shift: nat, va: Word) returns (next: Word)
      requires Valid() && task.View().Valid()
      requires MapLevel(View(), task.View(), table, shift, va).Ok?
      modifies memMap, mem, task
      ensures Valid() && task.View().Valid()
      ensures Ok((View(), task.View(), next)) == MapLevel(old(View()), old(task.View()), table, shift, va)
    {
      var newTable;
      next, newTable := LinkTable(table, shift, va);
      if newTable {
        task.RecordKernelPage(next);
      }
    }

    method TopTable(task: MmStruct)
      requires Valid() && task.View().Valid() && EnsureTop(View(), task.View()).Ok?
      modifies memMap, mem, task
      ensures Valid() && task.View().Valid()
      ensures Ok((View(), task.View())) == EnsureTop(old(View()), old(task.View()))
    {
      if task.pgd == 0 {
        GetFreePageSpec(View());
        var pgd := AllocateFrame();
        task.pgd := pgd;
        task.RecordKernelPage(pgd);
      }
    }

    /** map_table_entry on the last table, and the record of the mapping. */
    method LastEntry(task: MmStruct, pte: Word, va: Word, page: Word)
      requires Valid() && task.View().Valid() && SetPage(View(), task.View(), pte, va, page).Ok?
      modifies mem, task
      ensures Valid() && task.View().Valid()
      ensures Ok((View(), task.View())) == SetPage(old(View()), old(task.View()), pte, va, page)
    {
      StoreWord(pte, TableIndex(va, 12), Descriptor(page, MMU_PTE_FLAGS));
      task.userPages := task.userPages[task.userPagesCount := UserPage(page, va)];
      task.userPagesCount := task.userPagesCount + 1;
    }

    /** map_page, for a call that does not fault. */
    method AddMapping(task: MmStruct, va: Word, page: Word)
      requires Valid() && task.View().Valid() && MapPage(View(), task.View(), va, page).Ok?
      modifies memMap, mem, task
      ensures Valid() && task.View().Valid()
      ensures Ok((View(), task.View())) == MapPage(old(View()), old(task.View()), va, page)
    {
      hide MapPage, EnsureTop, MapBelow, MapLevel, SetPage;
      MapPageStep(View(), task.View(), va, page);
      TopTable(task);
      MapBelowStep(View(), task.View(), task.pgd, va, page, 0);
      var pud := NextTable(task, task.pgd, 39, va);
      MapBelowStep(View(), task.View(), pud, va, page, 1);
      var pmd := NextTable(task, pud, 30, va);
      MapBelowStep(View(), task.View(), pmd, va, page, 2);
      var pte := NextTable(task, pmd, 21, va);
      MapBelowStep(View(), task.View(), pte, va, page, 3);
      LastEntry(task, pte, va, page);
    }

    /** allocate_kernel_page: a kernel address, or 0. */
    method KernelPage() returns (kva: Word)
      requires Valid()
      modifies memMap, mem
      ensures Valid()
      ensures forall s: System :: s.ph == old(View()) ==>
        AllocateKernelPage(s).0.ph == View() && AllocateKernelPage(s).1 == kva
    {
      GetFreePageSpec(View());
      var page := AllocateFrame();
      if page == 0 {
        return 0;
      }
      return page + VA_START;
    }

    /** allocate_user_page, for a call that does not fault. */
    method UserPageFor(task: MmStruct, va: Word) returns (kva: Word)
      requires Valid() && task.View().Valid() && AllocateUserPage(View(), task.View(), va).Ok?
      modifies memMap, mem, task
      ensures Valid() && task.View().Valid()
      ensures Ok((View(), task.View(), kva)) == AllocateUserPage(old(View()), old(task.View()), va)
    {
      hide MapPage;
      GetFreePageSpec(View());
      var page := AllocateFrame();
      if page == 0 {
        return 0;
      }
      AddMapping(task, va, page);
      return page + VA_START;
    }

    /** memcpy of a page from a user address of the running task, word by word. */
    method CopyPage(running: MmStruct, va: Word, pa: Word)
      requires Valid() && IsFrame(pa) && CopyWords(View(), running.View(), va, pa, 0).Ok?
      modifies mem
      ensures Valid() && Ok(View()) == CopyWords(old(View()), running.View(), va, pa, 0)
    {
      hide ReadVirtual;
      for k := 0 to PTRS_PER_TABLE
        invariant Valid()
        invariant CopyWords(View(), running.View(), va, pa, k) == CopyWords(old(View()), running.View(), va, pa, 0)
      {
        var w := ReadVirtual(View(), running.View(), va + 8 * k).value;
        StoreWord(pa, k, w);
      }
    }

    /** copy_virt_memory from the running task into dst, for a call that does not fault. */
    method CopyMemory(running: MmStruct, dst: MmStruct) returns (ok: bool)
      requires Valid() && running.View().Valid() && dst.View().Valid() && running != dst
      requires CopyVirtMemory(View(), running.View(), dst.View(), 0).Ok?
      modifies memMap, mem, dst
      ensures Valid() && dst.View().Valid()
      ensures Ok((View(), dst.View(), ok)) == CopyVirtMemory(old(View()), running.View(), old(dst.View()), 0)
    {
      hide AllocateUserPage, CopyWords;
      for i := 0 to running.userPagesCount
        invariant Valid() && dst.View().Valid() && running.View() == old(running.View())
        invariant CopyVirtMemory(View(), running.View(), dst.View(), i)
               == CopyVirtMemory(old(View()), running.View(), old(dst.View()), 0)
      {
        var va := running.userPages[i].virtAddr;
        var kva := UserPageFor(dst, va);
        if kva == 0 {
          return false;
        }
        CopyPage(running, va, kva - VA_START);
      }
      return true;
    }
  }
}
