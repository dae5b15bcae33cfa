/** copy_process in one piece, in place: the task table and the memory of the tasks together. */
module ForkProcess {
  import opened Common
  import opened PageTables
  import opened MemoryManager
  import opened TaskMemory
  import opened ForkIsolation
  import opened Scheduling
  import opened Scheduler

  predicate Distinct(mms: seq<MmStruct>) {
    forall i, j :: 0 <= i < j < |mms| ==> mms[i] != mms[j]
  }

  ghost function Memories(mms: seq<MmStruct>): (s: seq<Mm>)
    reads mms
    ensures |s| == |mms| && forall i :: 0 <= i < |mms| ==> s[i] == mms[i].View()
  {
    seq(|mms|, i requires 0 <= i < |mms| reads mms => mms[i].View())
  }

  ghost predicate AllValid(s: seq<Mm>) {
    forall i :: 0 <= i < |s| ==> s[i].Valid()
  }

  class Processes {
    const kernel: Kernel
    const frames: FrameTable
    var mms: seq<MmStruct> // the mm_struct embedded in each task_struct of the table
    ghost var kernelPages: seq<Word>

    /** Every task in the table has an mm_struct of its own. */
    ghost predicate Valid()
      reads this, kernel, kernel.task, frames.memMap, frames.mem, mms
    {
      kernel.Valid() && frames.Valid() && |mms| == kernel.nrTasks && Distinct(mms) && AllValid(Memories(mms))
    }

    ghost function Memory(): System
      reads this, frames.memMap, frames.mem, mms
    {
      System(frames.View(), kernelPages, Memories(mms))
    }

    /** The initial task, no memory in use. */
    constructor ()
      ensures Valid() && fresh(kernel) && fresh(kernel.task)
      ensures fresh(frames) && fresh(frames.memMap) && fresh(frames.mem)
      ensures kernel.View() == BootTable() && fresh(mms)
      ensures kernelPages == [] && Memories(mms) == [EmptyMm()] && forall f: nat :: !frames.View().Marked(f)
    {
      kernel := new Kernel();
      frames := new FrameTable();
      kernelPages := [];
      var mm := new MmStruct();
      mms := [mm];
      new;
      hide BootTable;
    }

    lemma Parts()
      requires Valid()
      ensures kernel.Valid() && frames.Valid() && kernel.cur < kernel.nrTasks == |mms| <= NR_TASKS
      ensures Distinct(mms) && AllValid(Memories(mms)) && Memory().ph.Valid() && Memory().tasks == Memories(mms)
      ensures kernel.View().Valid() && kernel.View().nrTasks == kernel.nrTasks
    {
    }

    lemma MemoryParts()
      requires Valid()
      ensures Memory() == System(frames.View(), kernelPages, Memories(mms))
    {
    }

    /** current->mm in the memory of all tasks. */
    lemma CurrentView(currentMm: MmStruct)
      requires Valid() && currentMm == mms[kernel.cur]
      ensures kernel.cur < |Memory().tasks| && currentMm.View() == Memory().tasks[kernel.cur]
    {
    }

    lemma Whole()
      requires kernel.Valid() && frames.Valid() && |mms| == kernel.nrTasks
      requires Distinct(mms) && AllValid(Memories(mms))
      ensures Valid()
    {
    }

    /** The page for the task_struct. */
    method TaskPage() returns (got: bool)
      requires Valid()
      modifies this`kernelPages, frames.memMap, frames.mem
      ensures Valid() && Memories(mms) == old(Memories(mms)) && old(Memory().ph.Valid())
      ensures Memory() == AllocateKernelPage(old(Memory())).0 && got == (AllocateKernelPage(old(Memory())).1 != 0)
    {
      hide Distinct, AllValid, Kernel.Valid, Kernel.View, Kernel.Tasks, Valid, Memories, MmStruct.View, FrameTable.View,
           FrameTable.Valid, Phys.Valid;
      Parts();
      ghost var s := Memory();
      GetFreePageSpec(s.ph);
      var page := frames.KernelPage();
      got := page != 0;
      if got {
        kernelPages := kernelPages + [page - VA_START];
      }
      Whole();
    }

    /** The page for the task_struct and the copy of the parent's memory; null when there is no
        page. currentMm is current->mm. */
    method NewMemory(kthread: bool, currentMm: MmStruct) returns (mm: MmStruct?)
      requires Valid() && currentMm == mms[kernel.cur] && kernel.nrTasks < NR_TASKS
      requires Fork(Memory(), kernel.cur, kthread).Ok?
      modifies this`kernelPages, frames.memMap, frames.mem
      ensures Valid() && Memories(mms) == old(Memories(mms))
      ensures mm == null ==>
        && Memory() == old(Memory())
        && Fork(old(Memory()), kernel.cur, kthread) == Ok((old(Memory()), -1, true))
      ensures mm != null ==>
        && fresh(mm) && mm.View().Valid()
        && Fork(old(Memory()), kernel.cur, kthread).value.1 == kernel.nrTasks
        && Fork(old(Memory()), kernel.cur, kthread).value.0
           == System(frames.View(), kernelPages, old(Memories(mms)) + [mm.View()])
    {
      hide *;
      Parts();
      ghost var s := Memory();
      AllValidAt(s.tasks, kernel.cur);
      ForkByParts(s, kernel.cur, kthread);
      var got := TaskPage();
      Parts();
      MemoryParts();
      if !got {
        return null;
      }
      mm := new MmStruct();
      if !kthread {
        CurrentView(currentMm);
        var copied := frames.CopyMemory(currentMm, mm);
      }
      assert Memories(mms) == s.tasks;
      Whole();
    }

    /** copy_process, for a call that does not fault: the memory and the task table together. */
    method CopyProcess(kthread: bool, currentMm: MmStruct) returns (pid: int)
      requires Valid() && currentMm == mms[kernel.cur] && kernel.nrTasks < NR_TASKS
      requires Fork(Memory(), kernel.cur, kthread).Ok?
      modifies this`kernelPages, kernel, kernel.task, kernel.current, frames.memMap, frames.mem, `mms
      ensures Valid() && old(kernel.View().Valid())
      ensures (Memory(), pid) ==
        (Fork(old(Memory()), old(kernel.cur), kthread).value.0, Fork(old(Memory()), old(kernel.cur), kthread).value.1)
      ensures (kernel.View(), pid) == Scheduling.CopyProcess(old(kernel.View()), pid != -1)
      ensures pid != -1 ==> old(kernel.View()).nrTasks < NR_TASKS && Forked(old(kernel.View()), kernel.View())
    {
      hide *;
      Parts();
      ghost var ms, was := Memories(mms), kernel.View();
      FailsDisabled(was);
      kernel.PreemptDisable();
      Whole();
      var mm := NewMemory(kthread, currentMm);
      Parts();
      MemoryParts();
      if mm == null {
        return -1;
      }
      pid := kernel.EndFork(was);
      MemoriesMore(mms, mm);
      OneMore(mms, ms, mm, mm.View());
      mms := mms + [mm];
      Whole();
      MemoryParts();
    }
  }

  lemma FailsDisabled(s: Table)
    requires s.Valid() && s.nrTasks < NR_TASKS
    ensures Scheduling.CopyProcess(s, false) == (Disable(s), -1)
  {
  }

  lemma MemoriesMore(mms: seq<MmStruct>, mm: MmStruct)
    ensures Memories(mms + [mm]) == Memories(mms) + [mm.View()]
  {
  }

  lemma AllValidAt(s: seq<Mm>, i: nat)
    requires AllValid(s) && i < |s|
    ensures s[i].Valid()
  {
  }

  lemma OneMore(mms: seq<MmStruct>, s: seq<Mm>, mm: MmStruct, m: Mm)
    requires Distinct(mms) && AllValid(s) && mm !in mms && m.Valid()
    ensures Distinct(mms + [mm]) && AllValid(s + [m])
  {
  }

  /** copy_process on values, step by step. */
  lemma ForkByParts(s: System, t: nat, kthread: bool)
    requires s.ph.Valid() && t < |s.tasks| < NR_TASKS && s.tasks[t].Valid() && Fork(s, t, kthread).Ok?
    ensures var (s1, kva) := AllocateKernelPage(s);
      && s1.ph.Valid() && s1.tasks == s.tasks
      && (kva == 0 ==> s1 == s && Fork(s, t, kthread) == Ok((s, -1, true)))
      && (kva != 0 ==>
            && kva >= VA_START && s1.kernel == s.kernel + [kva - VA_START]
            && Fork(s, t, kthread).value.1 == |s.tasks|
            && (kthread ==> Fork(s, t, kthread).value.0 == System(s1.ph, s1.kernel, s.tasks + [EmptyMm()]))
            && (!kthread ==>
                  var r := CopyVirtMemory(s1.ph, s.tasks[t], EmptyMm(), 0);
                  r.Ok? && Fork(s, t, kthread).value.0 == System(r.value.0, s1.kernel, s.tasks + [r.value.1])))
  {
    hide CopyVirtMemory;
    GetFreePageSpec(s.ph);
  }
}
