/** Runs of the memory system: who owns each frame, what each task sees, and what a fork and
    the steps of other tasks leave unchanged. */
module ForkIsolation {
  import opened Common
  import opened PageTables
  import opened PageTree
  import opened PageWalk
  import opened TaskMemory

  /** The page a task sees at an address, through the hardware walk. */
  function Sees(ph: Phys, mm: Mm, va: Word): Option<seq<Word>>
    requires ph.Valid()
  {
    match Translate(ph, mm, va)
    case Page(pa) => if IsFrame(pa) then Some(ph.mem[FrameOf(pa)]) else None
    case _ => None
  }

  /** What a task sees at va is the page of the last mapping of va, or nothing. */
  lemma SeesLog(ph: Phys, owners: Owners, t: nat, mm: Mm, tr: Tree, va: Word)
    requires TaskOk(ph, owners, t, mm, tr)
    ensures ph.Valid() && (LastMapping(mm.Log(), va) == None ==> Sees(ph, mm, va) == None)
    ensures LastMapping(mm.Log(), va).Some? ==> Sees(ph, mm, va) == Some(PageOfVa(ph, mm.Log(), va))
  {
    hide MmOk, OwnsExactly, OwnsTables, LastMapping, Translate;
    ValidFromMm(ph, mm, tr);
    TranslateIsLastMapping(ph, mm, tr, va);
    MappedOwned(owners, t, mm.Log(), va);
  }

  /** Steps that keep a task's frames and their contents do not change what it sees. */
  lemma SeesKept(ph: Phys, owners: Owners, ph': Phys, owners': Owners, t: nat, mm: Mm, tr: Tree, va: Word)
    requires TaskOk(ph, owners, t, mm, tr) && TaskOk(ph', owners', t, mm, tr)
    requires Keeps(ph, owners, ph', owners', PageOf(t))
    ensures ph.Valid() && ph'.Valid() && Sees(ph', mm, va) == Sees(ph, mm, va)
  {
    hide MmOk, OwnsExactly, OwnsTables, LastMapping, Sees;
    SeesLog(ph, owners, t, mm, tr, va);
    SeesLog(ph', owners', t, mm, tr, va);
    MappedOwned(owners, t, mm.Log(), va);
  }

  // ----- fork

  /** copy_process as far as memory goes: a page for the task_struct, then, unless it is a
      kernel thread, the copy of the parent's memory; -1 when there is no page. The result of
      copy_virt_memory is ignored. The last component says whether that result was 0. */
  function Fork(s: System, t: nat, kthread: bool): Outcome<(System, int, bool)>
    requires s.ph.Valid() && t < |s.tasks| && s.tasks[t].Valid()
  {
    GetFreePageSpec(s.ph);
    var (s1, kva) := AllocateKernelPage(s);
    if kva == 0 then Ok((s, -1, true))
    else
      var (ph2, mm, copied) :-
        if kthread then Ok((s1.ph, EmptyMm(), true)) else CopyVirtMemory(s1.ph, s.tasks[t], EmptyMm(), 0);
      if |s.tasks| >= NR_TASKS then Fault
      else Ok((System(ph2, s1.kernel, s.tasks + [mm]), |s.tasks|, copied))
  }

  /** A user fork with a page for its task_struct is the copy from that state. */
  lemma ForkSteps(s: System, t: nat)
    requires s.ph.Valid() && t < |s.tasks| && s.tasks[t].Valid()
    requires AllocateKernelPage(s).1 != 0
    ensures AllocateKernelPage(s).0.ph.Valid()
    ensures var s1 := AllocateKernelPage(s).0;
      Fork(s, t, false) ==
      match CopyVirtMemory(s1.ph, s.tasks[t], EmptyMm(), 0)
      case Fault => Fault
      case Ok((ph2, mm, copied)) =>
        if |s.tasks| >= NR_TASKS then Fault
        else Ok((System(ph2, s1.kernel, s.tasks + [mm]), |s.tasks|, copied))
  {
    GetFreePageSpec(s.ph);
  }

  lemma EmptyMmOk(ph: Phys, owners: Owners, c: nat)
    requires MarksOwned(ph, owners) && forall f <- owners :: owners[f].Kernel? || owners[f].task < c
    ensures TaskOk(ph, owners, c, EmptyMm(), map[])
  {
  }

  /** The state before the first turn of the copy. */
  lemma CopyStart(ph: Phys, owners: Owners, t: nat, src: Mm, trs: Tree, c: nat)
    requires MarksOwned(ph, owners) && TaskOk(ph, owners, t, src, trs) && t != c
    requires TaskOk(ph, owners, c, EmptyMm(), map[])
    ensures CopyStage(ph, owners, t, src, trs, c, ph, owners, EmptyMm(), map[], 0)
  {
    hide MmOk, OwnsExactly, OwnsTables;
    ValidFromMm(ph, src, trs);
  }

  /** A new task joins after a step taken on its behalf. */
  lemma TaskJoins(s: System, trees: seq<Tree>, owners: Owners, ph': Phys, owners': Owners, mm: Mm, tr: Tree)
    requires SystemOk(s, trees, owners) && TaskStep(s.ph, owners, ph', owners', |s.tasks|)
    requires TaskOk(ph', owners', |s.tasks|, mm, tr)
    ensures SystemOk(System(ph', s.kernel, s.tasks + [mm]), trees + [tr], owners')
  {
    hide MmOk, OwnsExactly, OwnsTables, TaskStep, TaskOk;
    var c := |s.tasks|;
    var s', trees' := System(ph', s.kernel, s.tasks + [mm]), trees + [tr];
    StepMarks(s.ph, owners, ph', owners', c);
    TasksKept(s, trees, owners, ph', owners', c);
    forall u | 0 <= u < |s'.tasks| ensures TaskOk(ph', owners', u, s'.tasks[u], trees'[u]) {
      assert u < c ==> TaskOk(ph', owners', u, s.tasks[u], trees[u]);
    }
    StepOwners(s.ph, owners, ph', owners', c);
  }

  lemma StepOwners(ph: Phys, owners: Owners, ph': Phys, owners': Owners, t: nat)
    requires TaskStep(ph, owners, ph', owners', t)
    requires forall f <- owners :: owners[f].Kernel? || owners[f].task < t + 1
    ensures forall f <- owners' :: owners'[f].Kernel? || owners'[f].task < t + 1
  {
  }

  /** A step for task t leaves the kernel pages and every other task as they were. */
  lemma TasksKept(s: System, trees: seq<Tree>, owners: Owners, ph': Phys, owners': Owners, t: nat)
    requires SystemOk(s, trees, owners) && TaskStep(s.ph, owners, ph', owners', t)
    ensures OwnsExactly(owners', Kernel, s.kernel)
    ensures forall u :: 0 <= u < |s.tasks| && u != t ==> TaskOk(ph', owners', u, s.tasks[u], trees[u])
    ensures forall u, va: Word :: 0 <= u < |s.tasks| && u != t ==>
      s.ph.Valid() && ph'.Valid() && Sees(ph', s.tasks[u], va) == Sees(s.ph, s.tasks[u], va)
  {
    hide MmOk, OwnsExactly, OwnsTables, TaskStep, Sees, TaskOk, Keeps;
    TaskStepKeeps(s.ph, owners, ph', owners', t, Kernel);
    KeepsSame(s.ph, owners, ph', owners', Kernel);
    ExactlyFrame(owners, owners', Kernel, s.kernel);
    StepMarks(s.ph, owners, ph', owners', t);
    forall u | 0 <= u < |s.tasks| && u != t
      ensures TaskOk(ph', owners', u, s.tasks[u], trees[u])
      ensures forall va: Word :: Sees(ph', s.tasks[u], va) == Sees(s.ph, s.tasks[u], va)
    {
      assert TaskOk(s.ph, owners, u, s.tasks[u], trees[u]);
      TaskStepKeeps(s.ph, owners, ph', owners', t, TableOf(u));
      TaskStepKeeps(s.ph, owners, ph', owners', t, PageOf(u));
      KeepsSame(s.ph, owners, ph', owners', PageOf(u));
      OtherTask(s.ph, owners, ph', owners', u, s.tasks[u], trees[u]);
      forall va: Word ensures Sees(ph', s.tasks[u], va) == Sees(s.ph, s.tasks[u], va) {
        SeesKept(s.ph, owners, ph', owners', u, s.tasks[u], trees[u], va);
      }
    }
  }

  /** Equal logs up to the pages: the same addresses are mapped, to copies. */
  lemma {:induction false} CopySees(ph0: Phys, src: seq<UserPage>, ph: Phys, dst: seq<UserPage>, n: nat, va: Word)
    requires n <= |src| && CopiedUpTo(ph0, src, ph, dst, |src|)
    ensures LastMapping(dst[..n], va).Some? <==> LastMapping(src[..n], va).Some?
    ensures LastMapping(dst[..n], va).Some? ==>
      exists j :: 0 <= j < n && LastMapping(dst[..n], va).value == dst[j].physAddr && SamePage(src[j].virtAddr, va)
  {
    if n > 0 {
      assert dst[..n][..n - 1] == dst[..n - 1] && src[..n][..n - 1] == src[..n - 1];
      CopySees(ph0, src, ph, dst, n - 1, va);
    }
  }

  /** In the copy every address shows the page it showed in the source. */
  lemma CopyPages(ph0: Phys, src: seq<UserPage>, ph: Phys, dst: seq<UserPage>, va: Word)
    requires CopiedUpTo(ph0, src, ph, dst, |src|)
    ensures LastMapping(dst, va).Some? <==> LastMapping(src, va).Some?
    ensures LastMapping(dst, va).Some? ==> PageOfVa(ph, dst, va) == PageOfVa(ph0, src, va)
  {
    hide LastMapping, SamePage;
    CopySees(ph0, src, ph, dst, |src|, va);
    assert dst[..|src|] == dst && src[..|src|] == src;
    if LastMapping(dst, va).Some? {
      var j :| 0 <= j < |src| && LastMapping(dst, va).value == dst[j].physAddr && SamePage(src[j].virtAddr, va);
      LastMappingSame(src, src[j].virtAddr, va);
    }
  }

  /** The memory of a fork that copied everything. */
  ghost predicate ForkCopied(s: System, t: nat, s': System)
    requires s.ph.Valid() && s'.ph.Valid() && t < |s.tasks| && |s'.tasks| == |s.tasks| + 1
  {
    var src, dst := s.tasks[t], s'.tasks[|s.tasks|];
    && (forall va: Word :: Sees(s'.ph, dst, va) == Sees(s.ph, src, va))
    && (forall va: Word, pa :: Translate(s'.ph, dst, va) == Page(pa) ==> IsFrame(pa) && FrameOf(pa) in s.ph.Free())
    && dst.kernelCount == src.kernelCount
    && dst.userCount == src.userCount
  }

  /** A frame for the task_struct, each mapping and each table of the parent, and no mapping
      above the user's addresses. */
  ghost predicate FramesForAll(s: System, t: nat)
    requires t < |s.tasks|
  {
    |s.ph.Free()| >= 1 + s.tasks[t].userCount + s.tasks[t].kernelCount && Low(s.tasks[t].Log(), s.tasks[t].userCount)
  }

  /** After the page for the task_struct the copy gets stuck, or task[] is full. */
  ghost predicate ForkFaults(s: System, t: nat)
    requires t < |s.tasks|
  {
    |s.ph.Free()| >= 1 && (CopyStuck(|s.ph.Free()| - 1, s.tasks[t].Log()) || |s.tasks| >= NR_TASKS)
  }

  /** What a fork that got a page for its task_struct did. */
  ghost predicate ForkOutcome(s: System, t: nat, r: (System, int, bool))
    requires s.ph.Valid() && t < |s.tasks|
  {
    var (s', pid, copied) := r;
    && pid == |s.tasks| && |s'.tasks| == pid + 1 && s'.tasks[..pid] == s.tasks
    && s'.ph.Valid()
    && (forall u, va: Word :: 0 <= u < |s.tasks| ==> Sees(s'.ph, s.tasks[u], va) == Sees(s.ph, s.tasks[u], va))
    && (copied <==> FramesForAll(s, t))
    && (copied ==> ForkCopied(s, t, s'))
    && AlignedLog(s'.tasks[pid])
  }

  /** A fork of a user task whose log is page-aligned. With no frame left it fails and changes
      nothing. It faults iff task[] is full or the copy gets stuck. It comes back with a complete
      copy iff task[] has room and there is a frame for the task_struct, each mapping and each
      table of the parent; then the child sees at every address what the parent saw, in frames
      that were free. In any case every task, the parent included, sees what it saw. */
  lemma ForkIsolates(s: System, trees: seq<Tree>, owners: Owners, t: nat) returns (trees': seq<Tree>, owners': Owners)
    requires SystemOk(s, trees, owners) && t < |s.tasks| && AlignedLog(s.tasks[t])
    ensures s.ph.Valid() && s.tasks[t].Valid()
    ensures s.ph.Free() == {} ==> Fork(s, t, false) == Ok((s, -1, true))
    ensures Fork(s, t, false).Fault? <==> ForkFaults(s, t)
    ensures |s.tasks| < NR_TASKS && FramesForAll(s, t) <==>
      Fork(s, t, false).Ok? && Fork(s, t, false).value.1 != -1 && Fork(s, t, false).value.2
    ensures Fork(s, t, false).Ok? ==> SystemOk(Fork(s, t, false).value.0, trees', owners')
    ensures Fork(s, t, false).Ok? && s.ph.Free() != {} ==> ForkOutcome(s, t, Fork(s, t, false).value)
    ensures Fork(s, t, false).Ok? ==> KernelKept(s, Fork(s, t, false).value.0)
  {
    hide KernelKept, TaskStep;
    hide FramesForAll, ForkFaults;
    hide SystemOk, CopyVirtMemory, CopyDone, ForkOutcome, AllocateKernelPage, Sees, TaskOk, CopyStage, Fork, GotFrame;
    var src, c := s.tasks[t], |s.tasks|;
    SystemParts(s, trees, owners, t);
    trees' := trees;
    owners' := KernelPageOk(s, trees, owners);
    var _ := KernelByPage(s, trees, owners);
    var (s1, kva) := AllocateKernelPage(s);
    if kva == 0 {
      NoPage(s, t);
      assert !ForkFaults(s, t) && !FramesForAll(s, t) by { NoFrames(s, t); }
    } else {
      ForkSteps(s, t);
      SystemParts(s1, trees, owners', t);
      TaskPageSees(s, trees, owners, s1, owners', kva);
      EmptyMmOk(s1.ph, owners', c);
      CopyStart(s1.ph, owners', t, src, trees[t], c);
      var owners2, tr := CopyLoop(s1.ph, owners', t, src, trees[t], c, s1.ph, owners', EmptyMm(), map[], 0);
      var r := CopyVirtMemory(s1.ph, src, EmptyMm(), 0);
      DoneWhen(s, s1, owners', t, trees[t], r, owners2, tr);
      if r.Ok? {
        ForkEnd(s, trees, owners, t, s1, owners', r.value.0, r.value.1, r.value.2, owners2, tr);
        var s2 := System(r.value.0, s1.kernel, s1.tasks + [r.value.1]);
        DoneIsStep(s1.ph, owners', src, trees[t], c, r, owners2, tr);
        KernelByStep(s1, trees, owners', s2, owners2, c);
        KernelTrans(s, s1, s2);
        trees', owners' := trees + [tr], owners2;
      }
    }
  }

  lemma NoFrames(s: System, t: nat)
    requires t < |s.tasks| && s.ph.Free() == {}
    ensures !ForkFaults(s, t) && !FramesForAll(s, t)
  {
    hide CopyStuck, Low;
  }

  /** When the copy is complete and when it gets stuck, by the frames before the fork. */
  lemma DoneWhen(s: System, s1: System, owners1: Owners, t: nat, trs: Tree, r: Outcome<(Phys, Mm, bool)>,
                 owners: Owners, tr: Tree)
    requires t < |s.tasks| && |s1.ph.Free()| + 1 == |s.ph.Free()| && |trs| == s.tasks[t].kernelCount
    requires CopyDone(s1.ph, owners1, s.tasks[t], trs, |s.tasks|, r, owners, tr)
    ensures FramesForAll(s, t) <==> r.Ok? && r.value.2
    ensures s.ph.Free() != {} && (ForkFaults(s, t) <==> r.Fault? || |s.tasks| >= NR_TASKS)
  {
    hide TaskOk, TaskStep, CopiedUpTo, Low, CopyStuck;
    assert s.ph.Free() != {};
  }

  /** Kernel pages stay handed out, and keep their contents. */
  ghost predicate KernelKept(s: System, s': System) {
    && |s.ph.mem| == |s'.ph.mem| == PAGING_PAGES && |s.kernel| <= |s'.kernel|
    && forall k :: 0 <= k < |s.kernel| ==>
      && s'.kernel[k] == s.kernel[k] && IsFrame(s.kernel[k])
      && s'.ph.mem[FrameOf(s.kernel[k])] == s.ph.mem[FrameOf(s.kernel[k])]
  }

  lemma KernelByOwner(s: System, trees: seq<Tree>, owners: Owners, s': System, owners': Owners)
    requires SystemOk(s, trees, owners) && s'.kernel == s.kernel && Keeps(s.ph, owners, s'.ph, owners', Kernel)
    ensures KernelKept(s, s')
  {
    hide TaskOk, MarksOwned;
  }

  lemma KernelByStep(s: System, trees: seq<Tree>, owners: Owners, s': System, owners': Owners, t: nat)
    requires SystemOk(s, trees, owners) && s'.kernel == s.kernel && TaskStep(s.ph, owners, s'.ph, owners', t)
    ensures KernelKept(s, s')
  {
    hide SystemOk, TaskStep, Keeps;
    TaskStepKeeps(s.ph, owners, s'.ph, owners', t, Kernel);
    KernelByOwner(s, trees, owners, s', owners');
  }

  /** The next kernel page leaves the earlier ones alone, and is zeroed. */
  lemma KernelByPage(s: System, trees: seq<Tree>, owners: Owners) returns (owners': Owners)
    requires SystemOk(s, trees, owners)
    ensures var (s', kva) := AllocateKernelPage(s);
      && KernelKept(s, s')
      && (kva != 0 ==>
            && kva >= VA_START && s'.kernel == s.kernel + [kva - VA_START] && IsFrame(kva - VA_START)
            && s'.ph.mem[FrameOf(kva - VA_START)] == ZeroPage())
  {
    hide TaskOk;
    owners' := KernelPageOk(s, trees, owners);
    GetFreePageSpec(s.ph);
  }

  lemma KernelTrans(a: System, b: System, c: System)
    requires KernelKept(a, b) && KernelKept(b, c)
    ensures KernelKept(a, c)
  {
  }

  lemma DoneIsStep(ph0: Phys, o0: Owners, src: Mm, trs: Tree, c: nat, r: Outcome<(Phys, Mm, bool)>,
                   owners: Owners, trd: Tree)
    requires CopyDone(ph0, o0, src, trs, c, r, owners, trd) && r.Ok?
    ensures TaskStep(ph0, o0, r.value.0, owners, c)
  {
  }

  lemma NoPage(s: System, t: nat)
    requires s.ph.Valid() && t < |s.tasks| && s.tasks[t].Valid() && AllocateKernelPage(s).1 == 0
    ensures Fork(s, t, false) == Ok((s, -1, true))
  {
  }

  lemma SystemParts(s: System, trees: seq<Tree>, owners: Owners, t: nat)
    requires SystemOk(s, trees, owners) && t < |s.tasks|
    ensures MarksOwned(s.ph, owners) && s.ph.Valid() && |trees| == |s.tasks|
    ensures TaskOk(s.ph, owners, t, s.tasks[t], trees[t]) && s.tasks[t].Valid()
    ensures forall f <- owners :: owners[f].Kernel? || owners[f].task < |s.tasks|
    ensures |trees[t]| == s.tasks[t].kernelCount
  {
    hide OwnsExactly, OwnsTables, MmOk;
    ValidFromMm(s.ph, s.tasks[t], trees[t]);
    TreeCounted(s.ph, s.tasks[t], trees[t]);
  }

  /** Handing out a kernel page changes nothing that a task sees. */
  lemma TaskPageSees(s: System, trees: seq<Tree>, owners: Owners, s1: System, owners1: Owners, kva: Word)
    requires SystemOk(s, trees, owners) && SystemOk(s1, trees, owners1) && s1.tasks == s.tasks
    requires kva >= VA_START && GotFrame(s.ph, owners, s1.ph, owners1, kva - VA_START, Kernel)
    ensures s.ph.Valid() && s1.ph.Valid()
    ensures forall u, va: Word :: 0 <= u < |s.tasks| ==> Sees(s1.ph, s.tasks[u], va) == Sees(s.ph, s.tasks[u], va)
  {
    hide TaskOk, Sees, OwnsExactly;
    forall u, va: Word | 0 <= u < |s.tasks|
      ensures Sees(s1.ph, s.tasks[u], va) == Sees(s.ph, s.tasks[u], va)
    {
      GotKeeps(s.ph, owners, s1.ph, owners1, kva - VA_START, PageOf(u));
      assert TaskOk(s.ph, owners, u, s.tasks[u], trees[u]) && TaskOk(s1.ph, owners1, u, s.tasks[u], trees[u]);
      SeesKept(s.ph, owners, s1.ph, owners1, u, s.tasks[u], trees[u], va);
    }
  }

  lemma GotKeeps(ph: Phys, owners: Owners, ph': Phys, owners': Owners, pa: nat, o: Owner)
    requires GotFrame(ph, owners, ph', owners', pa, Kernel) && o != Kernel
    ensures Keeps(ph, owners, ph', owners', o)
  {
  }

  /** The end of a fork whose copy came to ph2 and dst. */
  lemma ForkEnd(s: System, trees: seq<Tree>, owners: Owners, t: nat, s1: System, owners1: Owners,
                ph2: Phys, dst: Mm, copied: bool, owners2: Owners, tr: Tree)
    requires SystemOk(s, trees, owners) && SystemOk(s1, trees, owners1) && t < |s.tasks| && s1.tasks == s.tasks
    requires s.ph.Valid() && s1.ph.Valid() && AlignedLog(s.tasks[t]) && |trees| == |s.tasks|
    requires |trees[t]| == s.tasks[t].kernelCount
    requires forall u, va: Word :: 0 <= u < |s.tasks| ==> Sees(s1.ph, s.tasks[u], va) == Sees(s.ph, s.tasks[u], va)
    requires |s1.ph.Free()| + 1 == |s.ph.Free()| && s1.ph.Free() <= s.ph.Free()
    requires CopyDone(s1.ph, owners1, s.tasks[t], trees[t], |s.tasks|, Ok((ph2, dst, copied)), owners2, tr)
    ensures SystemOk(System(ph2, s1.kernel, s.tasks + [dst]), trees + [tr], owners2)
    ensures ForkOutcome(s, t, (System(ph2, s1.kernel, s.tasks + [dst]), |s.tasks|, copied))
  {
    hide SystemOk, Sees, TaskStep, TaskOk, ForkCopied, CopiedUpTo, MmOk, OwnsExactly, FramesForAll;
    var c := |s.tasks|;
    DoneWhen(s, s1, owners1, t, trees[t], Ok((ph2, dst, copied)), owners2, tr);
    SystemParts(s1, trees, owners1, t);
    TaskJoins(s1, trees, owners1, ph2, owners2, dst, tr);
    TasksKept(s1, trees, owners1, ph2, owners2, c);
    StepMarks(s1.ph, owners1, ph2, owners2, c);
    assert forall u, va: Word :: 0 <= u < |s.tasks| ==> Sees(ph2, s.tasks[u], va) == Sees(s1.ph, s.tasks[u], va);
    TaskParts(ph2, owners2, c, dst, tr);
    AlignedCopy(s1.ph, s.tasks[t], ph2, dst);
    if copied {
      ChildSees(s1, trees[t], owners1, t, ph2, dst, owners2, tr);
      ForkCopiedFrom(s, t, s1, System(ph2, s1.kernel, s.tasks + [dst]));
    }
  }

  lemma AlignedCopy(ph0: Phys, src: Mm, ph: Phys, dst: Mm)
    requires CopiedUpTo(ph0, src.Log(), ph, dst.Log(), |dst.Log()|) && AlignedLog(src)
    requires src.Valid() && dst.Valid()
    ensures AlignedLog(dst)
  {
    hide PageOfVa;
    forall k | 0 <= k < dst.userCount
      ensures dst.userPages[k].virtAddr % PAGE_SIZE == 0
    {
      assert dst.Log()[k].virtAddr == src.Log()[k].virtAddr == src.userPages[k].virtAddr;
    }
  }

  lemma ForkCopiedFrom(s: System, t: nat, s1: System, s': System)
    requires s.ph.Valid() && s1.ph.Valid() && s'.ph.Valid() && t < |s.tasks| && s1.tasks == s.tasks
    requires |s'.tasks| == |s.tasks| + 1 && s1.ph.Free() <= s.ph.Free()
    requires forall va: Word :: Sees(s1.ph, s.tasks[t], va) == Sees(s.ph, s.tasks[t], va)
    requires ForkCopied(s1, t, s')
    ensures ForkCopied(s, t, s')
  {
    hide Sees, Translate;
  }

  /** The child sees what the parent sees, in frames that were free. */
  lemma ChildSees(s: System, trs: Tree, owners: Owners, t: nat, ph2: Phys, dst: Mm, owners2: Owners, tr: Tree)
    requires t < |s.tasks| && MarksOwned(s.ph, owners) && TaskOk(s.ph, owners, t, s.tasks[t], trs)
    requires forall f <- owners :: owners[f].Kernel? || owners[f].task < |s.tasks|
    requires TaskOk(ph2, owners2, |s.tasks|, dst, tr) && TaskStep(s.ph, owners, ph2, owners2, |s.tasks|)
    requires CopiedUpTo(s.ph, s.tasks[t].Log(), ph2, dst.Log(), s.tasks[t].userCount)
    ensures s.ph.Valid() && ph2.Valid() && ForkCopied(s, t, System(ph2, s.kernel, s.tasks + [dst]))
  {
    hide Sees, TaskOk, TaskStep, Translate, LastMapping, MmOk, OwnsExactly, MarksOwned, CopiedUpTo;
    var src, c := s.tasks[t], |s.tasks|;
    TaskParts(ph2, owners2, c, dst, tr);
    TaskParts(s.ph, owners, t, src, trs);
    CopiedAddresses(s.ph, src.Log(), ph2, dst.Log());
    forall va: Word ensures Sees(ph2, dst, va) == Sees(s.ph, src, va) {
      ChildSeesAt(s.ph, owners, t, src, trs, ph2, owners2, c, dst, tr, va);
    }
    forall va: Word, pa | Translate(ph2, dst, va) == Page(pa) ensures IsFrame(pa) && FrameOf(pa) in s.ph.Free() {
      ChildPageFresh(s.ph, owners, ph2, owners2, c, dst, tr, va, pa);
    }
    AllCopied(s.ph, src, trs, ph2, dst, tr);
  }

  lemma CopiedAddresses(ph0: Phys, src: seq<UserPage>, ph: Phys, dst: seq<UserPage>)
    requires CopiedUpTo(ph0, src, ph, dst, |src|)
    ensures |dst| == |src| && forall j :: 0 <= j < |src| ==> dst[j].virtAddr == src[j].virtAddr
  {
  }

  lemma ChildSeesAt(ph: Phys, owners: Owners, t: nat, src: Mm, trs: Tree,
                    ph2: Phys, owners2: Owners, c: nat, dst: Mm, trd: Tree, va: Word)
    requires TaskOk(ph, owners, t, src, trs) && TaskOk(ph2, owners2, c, dst, trd)
    requires CopiedUpTo(ph, src.Log(), ph2, dst.Log(), |src.Log()|)
    ensures ph.Valid() && ph2.Valid() && Sees(ph2, dst, va) == Sees(ph, src, va)
  {
    hide Sees, TaskOk, LastMapping, CopiedUpTo;
    CopyPages(ph, src.Log(), ph2, dst.Log(), va);
    SeesLog(ph2, owners2, c, dst, trd, va);
    SeesLog(ph, owners, t, src, trs, va);
  }

  lemma TaskParts(ph: Phys, owners: Owners, t: nat, mm: Mm, tr: Tree)
    requires TaskOk(ph, owners, t, mm, tr)
    ensures MmOk(ph, mm, tr) && ph.Valid() && mm.Valid() && |mm.Log()| == mm.userCount
    ensures OwnsExactly(owners, PageOf(t), Pages(mm.Log()))
  {
    hide MmOk;
    ValidFromMm(ph, mm, tr);
  }

  /** A page of a task that owned nothing before was free before. */
  lemma ChildPageFresh(ph: Phys, owners: Owners, ph2: Phys, owners2: Owners, c: nat, dst: Mm, tr: Tree,
                       va: Word, pa: nat)
    requires MarksOwned(ph, owners) && TaskStep(ph, owners, ph2, owners2, c) && TaskOk(ph2, owners2, c, dst, tr)
    requires forall f <- owners :: owners[f].Kernel? || owners[f].task < c
    requires ph2.Valid() && Translate(ph2, dst, va) == Page(pa)
    ensures IsFrame(pa) && FrameOf(pa) in ph.Free()
  {
    hide MmOk, OwnsExactly, OwnsTables, Translate, LastMapping;
    TaskParts(ph2, owners2, c, dst, tr);
    TranslateIsLastMapping(ph2, dst, tr, va);
    MappedOwned(owners2, c, dst.Log(), va);
    var f: Frame := FrameOf(pa);
    assert f !in owners;
    assert !ph.Marked(f);
  }
}
