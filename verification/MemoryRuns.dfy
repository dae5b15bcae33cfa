/** Whole runs of the memory system: kernel pages, inode blocks, user pages, forks and writes
    by tasks, in any order. */
module MemoryRuns {
  import opened Common
  import opened PageTables
  import opened PageTree
  import opened MapPageProof
  import opened PageWalk
  import opened TaskMemory
  import opened ForkIsolation

  /** A kernel page (a block of an inode among them), a page for a page-aligned user address of
      a task, a fork of a task, or a write by a task to a word of its memory. */
  datatype Op =
    | KernelPage
    | MapUser(task: nat, va: Word)
    | ForkTask(task: nat, kthread: bool)
    | Write(task: nat, va: Word, w: Word)

  /** Pages at page-aligned addresses, whatever their upper bits; words at multiples of 8 below 2^48. */
  predicate OpOk(s: System, op: Op) {
    match op
    case KernelPage => true
    case MapUser(t, va) => t < |s.tasks| && va % PAGE_SIZE == 0
    case ForkTask(t, _) => t < |s.tasks|
    case Write(t, va, _) => t < |s.tasks| && va % 8 == 0 && va < USER_LIMIT
  }

  ghost predicate Wellformed(s: System) {
    s.ph.Valid() && forall t :: 0 <= t < |s.tasks| ==> s.tasks[t].Valid()
  }

  /** A store by a task goes where the hardware walk leads; an unmapped address traps. */
  function WriteVirtual(ph: Phys, mm: Mm, va: Word, w: Word): (ph': Phys)
    requires ph.Valid()
    ensures ph'.Valid()
  {
    match Translate(ph, mm, va)
    case Page(pa) => if IsFrame(pa) then Store(ph, pa, va % PAGE_SIZE / 8, w) else ph
    case _ => ph
  }

  ghost function Step(s: System, op: Op): (r: Outcome<System>)
    requires Wellformed(s) && OpOk(s, op)
    ensures r.Ok? ==> Wellformed(r.value)
  {
    match op
    case KernelPage =>
      GetFreePageSpec(s.ph);
      Ok(AllocateKernelPage(s).0)
    case MapUser(t, va) =>
      (match AllocateUserPage(s.ph, s.tasks[t], va)
       case Fault => Fault
       case Ok((ph, mm, _)) => Ok(System(ph, s.kernel, s.tasks[t := mm])))
    case ForkTask(t, kthread) =>
      GetFreePageSpec(s.ph);
      (match Fork(s, t, kthread)
       case Fault => Fault
       case Ok((s', _, _)) => Ok(s'))
    case Write(t, va, w) => Ok(System(WriteVirtual(s.ph, s.tasks[t], va, w), s.kernel, s.tasks))
  }

  ghost predicate Consistent(s: System) {
    && Wellformed(s)
    && (forall t :: 0 <= t < |s.tasks| ==> AlignedLog(s.tasks[t]))
    && exists trees, owners :: SystemOk(s, trees, owners)
  }

  /** Memory all free and the first task without memory. */
  ghost predicate Boot(s: System) {
    s.ph.Valid() && (forall f: Frame :: !s.ph.Marked(f)) && s.kernel == [] && s.tasks == [EmptyMm()]
  }

  lemma BootConsistent(s: System)
    requires Boot(s)
    ensures Consistent(s)
  {
    var owners: Owners := map[];
    assert MarksOwned(s.ph, owners);
    EmptyMmOk(s.ph, owners, 0);
    assert SystemOk(s, [map[]], owners);
  }

  // ----- One step

  /** What tasks other than `but` see does not change. */
  ghost predicate Undisturbed(s: System, s': System, but: int)
    requires s.ph.Valid() && s'.ph.Valid() && |s'.tasks| >= |s.tasks|
  {
    && (forall u :: 0 <= u < |s.tasks| && u != but ==> s'.tasks[u] == s.tasks[u])
    && (forall u, va: Word :: 0 <= u < |s.tasks| && u != but ==>
          Sees(s'.ph, s'.tasks[u], va) == Sees(s.ph, s.tasks[u], va))
  }

  /** The task a step changes memory for, or -1. */
  function Actor(op: Op): int {
    match op
    case KernelPage => -1
    case MapUser(t, _) => t
    case ForkTask(_, _) => -1
    case Write(t, _, _) => t
  }

  lemma KernelPageStep(s: System)
    requires Consistent(s)
    ensures Step(s, KernelPage).Ok?
    ensures var s' := Step(s, KernelPage).value; Consistent(s') && s'.tasks == s.tasks && Undisturbed(s, s', -1)
  {
    hide SystemOk, Sees;
    var trees, owners :| SystemOk(s, trees, owners);
    var owners' := KernelPageOk(s, trees, owners);
    var (s', kva) := AllocateKernelPage(s);
    GetFreePageSpec(s.ph);
    if kva != 0 {
      TaskPageSees(s, trees, owners, s', owners', kva);
    }
  }

  /** A task that took a step goes back into the system. */
  lemma TaskBack(s: System, trees: seq<Tree>, owners: Owners, t: nat, ph': Phys, mm': Mm, tr': Tree, owners': Owners)
    requires SystemOk(s, trees, owners) && t < |s.tasks| && TaskStep(s.ph, owners, ph', owners', t)
    requires TaskOk(ph', owners', t, mm', tr')
    ensures SystemOk(System(ph', s.kernel, s.tasks[t := mm']), trees[t := tr'], owners')
  {
    hide TaskOk, TaskStep, OwnsExactly, MarksOwned;
    TasksKept(s, trees, owners, ph', owners', t);
    StepMarks(s.ph, owners, ph', owners', t);
    StepOwnersOf(s.ph, owners, ph', owners', t, |s.tasks|);
  }

  lemma StepOwnersOf(ph: Phys, owners: Owners, ph': Phys, owners': Owners, t: nat, n: nat)
    requires TaskStep(ph, owners, ph', owners', t) && t < n
    requires forall f <- owners :: owners[f].Kernel? || owners[f].task < n
    ensures forall f <- owners' :: owners'[f].Kernel? || owners'[f].task < n
  {
  }

  lemma AlignedMore(mm: Mm, mm': Mm, va: Word, pa: Word)
    requires mm.Valid() && mm'.Valid() && mm'.Log() == mm.Log() + [UserPage(pa, va)]
    requires AlignedLog(mm) && va % PAGE_SIZE == 0
    ensures AlignedLog(mm')
  {
    assert |mm'.Log()| == |mm.Log()| + 1;
    forall k | 0 <= k < mm'.userCount
      ensures mm'.userPages[k].virtAddr % PAGE_SIZE == 0
    {
      assert mm'.userPages[k] == mm'.Log()[k];
      assert k < mm.userCount ==> mm'.Log()[k] == mm.Log()[k] == mm.userPages[k];
    }
  }

  /** With a frame free for the page, the frames left are fewer than the tables still missing
      on the way to va, or a slot of kernel_pages or user_pages is. */
  ghost predicate PageFaults(s: System, t: nat, va: Word)
    requires t < |s.tasks|
  {
    var mm := s.tasks[t];
    var tables := |TablesOf(mm.Log() + [UserPage(0, va)])|;
    s.ph.Free() != {}
    && (tables >= |s.ph.Free()| + mm.kernelCount || tables >= MAX_PROCESS_PAGES || mm.userCount == MAX_PROCESS_PAGES)
  }

  lemma RoomByLog(ph: Phys, mm: Mm, tr: Tree, va: Word)
    requires MmOk(ph, mm, tr)
    ensures mm.Valid()
    ensures NoRoom(ph, mm, tr, va) <==>
      || |TablesOf(mm.Log() + [UserPage(0, va)])| >= |ph.Free()| + mm.kernelCount
      || |TablesOf(mm.Log() + [UserPage(0, va)])| >= MAX_PROCESS_PAGES || mm.userCount == MAX_PROCESS_PAGES
  {
    hide MmOk, Prefixes, IndicesOf;
    TreeIsTables(ph, mm, tr);
    var log := mm.Log() + [UserPage(0, va)];
    assert log[..|log| - 1] == mm.Log();
    UnionSize(tr.Keys, Prefixes(IndicesOf(va)));
  }

  lemma FaultsByLog(s: System, trees: seq<Tree>, owners: Owners, t: nat, va: Word)
    requires SystemOk(s, trees, owners) && t < |s.tasks|
    ensures s.ph.Valid() && s.tasks[t].Valid()
    ensures AllocateUserPage(s.ph, s.tasks[t], va).Fault? <==> PageFaults(s, t, va)
  {
    hide SystemOk, AllocateUserPage, NoRoom, UserPageDone, Prefixes, TaskOk, TablesOf;
    SystemParts(s, trees, owners, t);
    TaskParts(s.ph, owners, t, s.tasks[t], trees[t]);
    var g, tr', owners' := UserPageOk(s.ph, owners, s.tasks[t], trees[t], va, t);
    RoomByLog(s.ph, s.tasks[t], trees[t], va);
  }

  /** allocate_user_page on a consistent system, at any page-aligned address: with no frame free
      it changes nothing; it faults iff frames or slots run short; else va shows a zeroed page
      and no other page moves. */
  lemma UserPageStep(s: System, t: nat, va: Word)
    requires Consistent(s) && OpOk(s, MapUser(t, va))
    ensures Step(s, MapUser(t, va)).Fault? <==> PageFaults(s, t, va)
    ensures var r := Step(s, MapUser(t, va));
      r.Ok? ==>
        && Consistent(r.value) && |r.value.tasks| == |s.tasks| && r.value.kernel == s.kernel
        && Undisturbed(s, r.value, t)
        && (s.ph.Free() == {} ==> r.value == s)
        && (s.ph.Free() != {} ==>
              forall a: Word :: Sees(r.value.ph, r.value.tasks[t], a) ==
                if SamePage(a, va) then Some(ZeroPage()) else Sees(s.ph, s.tasks[t], a))
  {
    hide SystemOk, Sees, AllocateUserPage, NoRoom, UserPageDone, Needed, Prefixes, AlignedLog, SamePage, TaskOk,
         PageFaults;
    var trees, owners :| SystemOk(s, trees, owners);
    SystemParts(s, trees, owners, t);
    var mm := s.tasks[t];
    var g, tr', owners' := UserPageOk(s.ph, owners, mm, trees[t], va, t);
    FaultsByLog(s, trees, owners, t, va);
    if s.ph.Free() == {} {
      assert s.tasks[t := mm] == s.tasks;
    } else if AllocateUserPage(s.ph, mm, va).Ok? {
      var (ph', mm', _) := AllocateUserPage(s.ph, mm, va).value;
      PageMapped(s, trees, owners, t, va, ph', mm', g, tr', owners');
    }
  }

  /** The system after a page was mapped for task t. */
  lemma PageMapped(s: System, trees: seq<Tree>, owners: Owners, t: nat, va: Word,
                   ph': Phys, mm': Mm, g: Frame, tr': Tree, owners': Owners)
    requires Consistent(s) && SystemOk(s, trees, owners) && t < |s.tasks| && va % PAGE_SIZE == 0
    requires UserPageDone(s.ph, owners, s.tasks[t], va, t, ph', mm', g, tr', owners')
    ensures var s' := System(ph', s.kernel, s.tasks[t := mm']);
      && Consistent(s') && Undisturbed(s, s', t)
      && forall a: Word :: Sees(ph', mm', a) == if SamePage(a, va) then Some(ZeroPage()) else Sees(s.ph, s.tasks[t], a)
  {
    hide SystemOk, Sees, UserPageDone, AlignedLog, SamePage, TaskOk;
    var mm := s.tasks[t];
    SystemParts(s, trees, owners, t);
    PageDoneParts(s.ph, owners, mm, va, t, ph', mm', g, tr', owners');
    TaskBack(s, trees, owners, t, ph', mm', tr', owners');
    TasksKept(s, trees, owners, ph', owners', t);
    AlignedMore(mm, mm', va, FrameAddr(g));
    forall a: Word
      ensures Sees(ph', mm', a) == if SamePage(a, va) then Some(ZeroPage()) else Sees(s.ph, mm, a)
    {
      NewPageSeen(s.ph, owners, mm, trees[t], va, t, ph', mm', g, tr', owners', a);
    }
  }

  lemma PageDoneParts(ph: Phys, owners: Owners, mm: Mm, va: Word, t: nat,
                      ph': Phys, mm': Mm, g: Frame, tr': Tree, owners': Owners)
    requires UserPageDone(ph, owners, mm, va, t, ph', mm', g, tr', owners')
    ensures TaskStep(ph, owners, ph', owners', t) && TaskOk(ph', owners', t, mm', tr')
    ensures ph'.Valid() && mm'.Valid() && mm'.Log() == mm.Log() + [UserPage(FrameAddr(g), va)]
    ensures ph'.mem[g] == ZeroPage()
  {
    hide TaskOk, TaskStep;
    TaskParts(ph', owners', t, mm', tr');
  }

  lemma LastMappingMore(log: seq<UserPage>, u: UserPage, a: Word)
    ensures LastMapping(log + [u], a) == if SamePage(u.virtAddr, a) then Some(u.physAddr) else LastMapping(log, a)
  {
    assert (log + [u])[..|log|] == log;
  }

  lemma NewPageSeen(ph: Phys, owners: Owners, mm: Mm, tr: Tree, va: Word, t: nat,
                    ph': Phys, mm': Mm, g: Frame, tr': Tree, owners': Owners, a: Word)
    requires TaskOk(ph, owners, t, mm, tr) && ph.Valid() && ph'.Valid()
    requires UserPageDone(ph, owners, mm, va, t, ph', mm', g, tr', owners')
    ensures Sees(ph', mm', a) == if SamePage(a, va) then Some(ZeroPage()) else Sees(ph, mm, a)
  {
    hide Sees, MmOk, OwnsExactly, OwnsTables, LastMapping;
    LastMappingMore(mm.Log(), UserPage(FrameAddr(g), va), a);
    SeesLog(ph, owners, t, mm, tr, a);
    SeesLog(ph', owners', t, mm', tr', a);
    FrameRoundTrip(g);
    MappedOwned(owners, t, mm.Log(), a);
  }

  /** A fork of any kind keeps the system consistent and no task sees a change. */
  lemma ForkStep(s: System, t: nat, kthread: bool)
    requires Consistent(s) && t < |s.tasks|
    ensures var r := Step(s, ForkTask(t, kthread));
      r.Ok? ==> Consistent(r.value) && |s.tasks| <= |r.value.tasks| && Undisturbed(s, r.value, -1)
  {
    hide SystemOk, Sees, Fork, ForkOutcome, AlignedLog, AllocateKernelPage;
    var trees, owners :| SystemOk(s, trees, owners);
    if kthread {
      KernelThread(s, trees, owners, t);
    } else {
      UserFork(s, trees, owners, t);
    }
  }

  lemma UserFork(s: System, trees: seq<Tree>, owners: Owners, t: nat)
    requires Consistent(s) && SystemOk(s, trees, owners) && t < |s.tasks|
    ensures var r := Step(s, ForkTask(t, false));
      r.Ok? ==> Consistent(r.value) && |s.tasks| <= |r.value.tasks| && Undisturbed(s, r.value, -1)
  {
    hide SystemOk, Sees, Fork, ForkCopied, AlignedLog;
    var trees', owners' := ForkIsolates(s, trees, owners, t);
    if Fork(s, t, false).Ok? && s.ph.Free() != {} {
      var (s', pid, _) := Fork(s, t, false).value;
      forall u | 0 <= u < |s'.tasks| ensures AlignedLog(s'.tasks[u]) && s'.tasks[u].Valid() {
        SystemParts(s', trees', owners', u);
        assert u < pid ==> s'.tasks[u] == s'.tasks[..pid][u] == s.tasks[u];
      }
      forall u, va: Word | 0 <= u < |s.tasks|
        ensures s'.tasks[u] == s.tasks[u] && Sees(s'.ph, s'.tasks[u], va) == Sees(s.ph, s.tasks[u], va)
      {
        assert s'.tasks[u] == s'.tasks[..pid][u];
      }
    }
  }

  lemma KernelThread(s: System, trees: seq<Tree>, owners: Owners, t: nat)
    requires Consistent(s) && SystemOk(s, trees, owners) && t < |s.tasks|
    ensures var r := Step(s, ForkTask(t, true));
      r.Ok? ==> Consistent(r.value) && |s.tasks| <= |r.value.tasks| && Undisturbed(s, r.value, -1)
  {
    hide SystemOk, Sees, AlignedLog, AllocateKernelPage, TaskOk, GotFrame;
    var owners' := KernelPageOk(s, trees, owners);
    var (s1, kva) := AllocateKernelPage(s);
    GetFreePageSpec(s.ph);
    SystemParts(s1, trees, owners', t);
    if kva != 0 && |s.tasks| < NR_TASKS {
      TaskPageSees(s, trees, owners, s1, owners', kva);
      EmptyMmOk(s1.ph, owners', |s.tasks|);
      TaskJoins(s1, trees, owners', s1.ph, owners', EmptyMm(), map[]) by {
        NoStep(s1.ph, owners', |s.tasks|);
      }
      assert AlignedLog(EmptyMm()) by { EmptyAligned(); }
      var s' := System(s1.ph, s1.kernel, s.tasks + [EmptyMm()]);
      assert SystemOk(s', trees + [map[]], owners');
    }
  }

  lemma EmptyAligned()
    ensures AlignedLog(EmptyMm())
  {
  }

  lemma NoStep(ph: Phys, owners: Owners, t: nat)
    requires MarksOwned(ph, owners)
    ensures TaskStep(ph, owners, ph, owners, t)
  {
  }

  // ----- Kernel pages

  /** No step takes a kernel page back or changes its contents, and a new one is zeroed. */
  lemma KernelPagesKept(s: System, op: Op)
    requires Consistent(s) && OpOk(s, op) && Step(s, op).Ok?
    ensures KernelKept(s, Step(s, op).value)
    ensures op == KernelPage && s.ph.Free() != {} ==>
      var s' := Step(s, op).value;
      && |s'.kernel| == |s.kernel| + 1 && IsFrame(s'.kernel[|s.kernel|]) && |s'.ph.mem| == PAGING_PAGES
      && s'.ph.mem[FrameOf(s'.kernel[|s.kernel|])] == ZeroPage()
  {
    hide SystemOk, Sees, AlignedLog, AllocateKernelPage, AllocateUserPage, Fork, KernelKept, TaskOk, UserPageDone,
         NoRoom, Needed, Prefixes;
    var trees, owners :| SystemOk(s, trees, owners);
    match op
    case KernelPage =>
      var _ := KernelByPage(s, trees, owners);
      var _ := KernelPageOk(s, trees, owners);
    case MapUser(t, va) =>
      SystemParts(s, trees, owners, t);
      var g, tr', owners' := UserPageOk(s.ph, owners, s.tasks[t], trees[t], va, t);
      if s.ph.Free() == {} {
        SameKernel(s, trees, owners, Step(s, op).value);
      } else {
        var (ph', mm', _) := AllocateUserPage(s.ph, s.tasks[t], va).value;
        PageDoneParts(s.ph, owners, s.tasks[t], va, t, ph', mm', g, tr', owners');
        KernelByStep(s, trees, owners, Step(s, op).value, owners', t);
      }
    case ForkTask(t, kthread) =>
      if kthread {
        var _ := KernelByPage(s, trees, owners);
        ThreadKernel(s, t);
        SameKernel(s, trees, owners, s);
      } else {
        var _, _ := ForkIsolates(s, trees, owners, t);
      }
    case Write(t, va, w) =>
      WriteKernel(s, trees, owners, t, va, w);
  }

  lemma SameKernel(s: System, trees: seq<Tree>, owners: Owners, s': System)
    requires SystemOk(s, trees, owners) && s'.ph == s.ph && s'.kernel == s.kernel
    ensures KernelKept(s, s')
  {
    hide TaskOk;
    KernelByOwner(s, trees, owners, s', owners);
  }

  lemma ThreadKernel(s: System, t: nat)
    requires Wellformed(s) && t < |s.tasks| && Step(s, ForkTask(t, true)).Ok?
    requires KernelKept(s, AllocateKernelPage(s).0)
    ensures KernelKept(s, Step(s, ForkTask(t, true)).value)
  {
    hide AllocateKernelPage;
    GetFreePageSpec(s.ph);
  }

  lemma WriteKernel(s: System, trees: seq<Tree>, owners: Owners, t: nat, va: Word, w: Word)
    requires SystemOk(s, trees, owners) && t < |s.tasks| && s.ph.Valid() && s.tasks[t].Valid() && va % 8 == 0
    ensures KernelKept(s, System(WriteVirtual(s.ph, s.tasks[t], va, w), s.kernel, s.tasks))
  {
    hide SystemOk, Translate, TaskOk, KernelKept, Keeps;
    WordIndex(va);
    SystemParts(s, trees, owners, t);
    var s' := System(WriteVirtual(s.ph, s.tasks[t], va, w), s.kernel, s.tasks);
    match Translate(s.ph, s.tasks[t], va) {
      case Page(pa) =>
        if IsFrame(pa) {
          var f: Frame := FrameOf(pa);
          PageIsOwned(s.ph, owners, t, s.tasks[t], trees[t], va, f);
          OtherFrames(s.ph, s'.ph, owners, f, PageOf(t), Kernel);
          KernelByOwner(s, trees, owners, s', owners);
        } else {
          SameKernel(s, trees, owners, s');
        }
      case _ => SameKernel(s, trees, owners, s');
    }
  }

  // ----- A write by a task

  lemma WordIndex(va: Word)
    ensures va % PAGE_SIZE / 8 < PTRS_PER_TABLE
  {
  }

  /** For task t, the word at va is now w, at every address of its page; all else is as before. */
  ghost predicate WordStored(s: System, s': System, t: nat, va: Word, w: Word)
    requires s.ph.Valid() && s'.ph.Valid() && t < |s.tasks|
  {
    match Sees(s.ph, s.tasks[t], va)
    case None => s' == s
    case Some(page) =>
      && |page| == PTRS_PER_TABLE
      && (forall a: Word :: Sees(s'.ph, s.tasks[t], a) ==
            (if SamePage(a, va) then Some(page[va % PAGE_SIZE / 8 := w]) else Sees(s.ph, s.tasks[t], a)))
  }

  /** A store changes one word of the page at va for the task that stores, and nothing else
      that any task sees. */
  lemma WriteStep(s: System, t: nat, va: Word, w: Word)
    requires Consistent(s) && OpOk(s, Write(t, va, w))
    ensures var s' := Step(s, Write(t, va, w)).value;
      && Step(s, Write(t, va, w)).Ok? && Consistent(s') && s'.tasks == s.tasks && s'.kernel == s.kernel
      && Undisturbed(s, s', t)
      && WordStored(s, s', t, va, w)
  {
    hide SystemOk, Translate, AlignedLog, TaskOk, SamePage;
    var trees, owners :| SystemOk(s, trees, owners);
    WordIndex(va);
    var mm := s.tasks[t];
    SystemParts(s, trees, owners, t);
    match Translate(s.ph, mm, va) {
      case Page(pa) =>
        if IsFrame(pa) {
          var f: Frame := FrameOf(pa);
          var ph' := Store(s.ph, pa, va % PAGE_SIZE / 8, w);
          PageIsOwned(s.ph, owners, t, mm, trees[t], va, f);
          WriteKeeps(s, trees, owners, t, f, va % PAGE_SIZE / 8, w, ph');
          SystemParts(System(ph', s.kernel, s.tasks), trees, owners, t);
          forall a: Word
            ensures Sees(ph', mm, a) ==
              if SamePage(a, va) then Some(s.ph.mem[f][va % PAGE_SIZE / 8 := w]) else Sees(s.ph, mm, a)
          {
            WriteSeen(s.ph, owners, t, mm, trees[t], va, f, ph', a);
          }
        }
      case _ =>
    }
  }

  lemma PageIsOwned(ph: Phys, owners: Owners, t: nat, mm: Mm, tr: Tree, va: Word, f: Frame)
    requires TaskOk(ph, owners, t, mm, tr) && ph.Valid() && Translate(ph, mm, va) == Page(FrameAddr(f))
    ensures Owns(owners, f, PageOf(t)) && LastMapping(mm.Log(), va) == Some(FrameAddr(f))
  {
    hide MmOk, OwnsExactly, OwnsTables, Translate, LastMapping;
    TranslateIsLastMapping(ph, mm, tr, va);
    MappedOwned(owners, t, mm.Log(), va);
    FrameRoundTrip(f);
  }

  lemma WriteKeeps(s: System, trees: seq<Tree>, owners: Owners, t: nat, f: Frame, k: nat, w: Word, ph': Phys)
    requires SystemOk(s, trees, owners) && t < |s.tasks| && Owns(owners, f, PageOf(t)) && k < PTRS_PER_TABLE
    requires s.ph.Valid() && ph'.Valid() && ph' == Phys(s.ph.memMap, s.ph.mem[f := ph'.mem[f]])
    ensures SystemOk(System(ph', s.kernel, s.tasks), trees, owners)
    ensures forall u, va: Word :: 0 <= u < |s.tasks| && u != t ==>
      Sees(ph', s.tasks[u], va) == Sees(s.ph, s.tasks[u], va)
  {
    hide TaskOk, OwnsExactly, Sees, Keeps;
    assert MarksOwned(ph', owners);
    forall u | 0 <= u < |s.tasks|
      ensures TaskOk(ph', owners, u, s.tasks[u], trees[u])
      ensures forall va: Word :: u != t ==> Sees(ph', s.tasks[u], va) == Sees(s.ph, s.tasks[u], va)
    {
      assert TaskOk(s.ph, owners, u, s.tasks[u], trees[u]);
      OtherFrames(s.ph, ph', owners, f, PageOf(t), TableOf(u));
      OtherTask(s.ph, owners, ph', owners, u, s.tasks[u], trees[u]);
      forall va: Word ensures u != t ==> Sees(ph', s.tasks[u], va) == Sees(s.ph, s.tasks[u], va) {
        if u != t {
          OtherFrames(s.ph, ph', owners, f, PageOf(t), PageOf(u));
          SeesKept(s.ph, owners, ph', owners, u, s.tasks[u], trees[u], va);
        }
      }
    }
  }

  lemma OtherFrames(ph: Phys, ph': Phys, owners: Owners, f: Frame, o: Owner, o': Owner)
    requires Owns(owners, f, o) && o != o' && ph.Valid() && ph'.Valid()
    requires ph' == Phys(ph.memMap, ph.mem[f := ph'.mem[f]])
    ensures Keeps(ph, owners, ph', owners, o')
  {
  }

  /** Two addresses on different pages are mapped to different frames. */
  lemma MappedApart(owners: Owners, t: nat, log: seq<UserPage>, a: Word, b: Word)
    requires OwnsExactly(owners, PageOf(t), Pages(log)) && !SamePage(a, b)
    requires LastMapping(log, a).Some? && LastMapping(log, b).Some?
    ensures LastMapping(log, a) != LastMapping(log, b)
  {
    hide LastMapping;
    MappedBy(log, a);
    MappedBy(log, b);
    var i :| 0 <= i < |log| && log[i].physAddr == LastMapping(log, a).value && SamePage(log[i].virtAddr, a);
    var j :| 0 <= j < |log| && log[j].physAddr == LastMapping(log, b).value && SamePage(log[j].virtAddr, b);
    assert i != j;
    assert Pages(log)[i] != Pages(log)[j];
  }

  lemma {:induction false} MappedBy(log: seq<UserPage>, va: Word)
    requires LastMapping(log, va).Some?
    ensures exists j :: 0 <= j < |log| && log[j].physAddr == LastMapping(log, va).value && SamePage(log[j].virtAddr, va)
  {
    hide SamePage;
    var last := |log| - 1;
    if !SamePage(log[last].virtAddr, va) {
      MappedBy(log[..last], va);
      var j :| 0 <= j < last && log[..last][j].physAddr == LastMapping(log[..last], va).value
        && SamePage(log[..last][j].virtAddr, va);
      assert log[j].physAddr == LastMapping(log, va).value;
    }
  }

  lemma WriteSeen(ph: Phys, owners: Owners, t: nat, mm: Mm, tr: Tree, va: Word, f: Frame, ph': Phys, a: Word)
    requires TaskOk(ph, owners, t, mm, tr) && TaskOk(ph', owners, t, mm, tr) && ph.Valid() && ph'.Valid()
    requires LastMapping(mm.Log(), va) == Some(FrameAddr(f)) && ph' == Phys(ph.memMap, ph.mem[f := ph'.mem[f]])
    ensures Sees(ph', mm, a) == if SamePage(a, va) then Some(ph'.mem[f]) else Sees(ph, mm, a)
  {
    hide Sees, MmOk, OwnsExactly, OwnsTables, LastMapping, SamePage;
    SeesLog(ph, owners, t, mm, tr, a);
    SeesLog(ph', owners, t, mm, tr, a);
    FrameRoundTrip(f);
    MappedOwned(owners, t, mm.Log(), a);
    if SamePage(a, va) {
      LastMappingSame(mm.Log(), a, va);
    } else if LastMapping(mm.Log(), a).Some? {
      MappedApart(owners, t, mm.Log(), a, va);
    }
  }

  // ----- Runs

  ghost function Run(s: System, ops: seq<Op>): (r: Outcome<System>)
    requires Wellformed(s)
    ensures r.Ok? ==> Wellformed(r.value)
    decreases |ops|
  {
    if ops == [] then Ok(s)
    else if !OpOk(s, ops[0]) then Fault
    else
      match Step(s, ops[0])
      case Fault => Fault
      case Ok(s') => Run(s', ops[1..])
  }

  lemma StepConsistent(s: System, op: Op)
    requires Consistent(s) && OpOk(s, op) && Step(s, op).Ok?
    ensures Consistent(Step(s, op).value)
    ensures |Step(s, op).value.tasks| >= |s.tasks| && Undisturbed(s, Step(s, op).value, Actor(op))
  {
    hide Consistent, Undisturbed, Step;
    match op
    case KernelPage => KernelPageStep(s);
    case MapUser(t, va) => UserPageStep(s, t, va);
    case ForkTask(t, kthread) => ForkStep(s, t, kthread);
    case Write(t, va, w) => WriteStep(s, t, va, w);
  }

  /** Every state of every run from boot is consistent. */
  lemma {:induction false} RunConsistent(s: System, ops: seq<Op>)
    requires Consistent(s) && Run(s, ops).Ok?
    ensures Consistent(Run(s, ops).value)
    decreases |ops|
  {
    hide SystemOk, Step, AlignedLog;
    if ops != [] {
      StepConsistent(s, ops[0]);
      RunConsistent(Step(s, ops[0]).value, ops[1..]);
    }
  }

  // ----- One owner for every marked frame

  /** The places where the kernel keeps the address of a frame. */
  datatype Slot = TableSlot(task: nat, k: nat) | PageSlot(task: nat, k: nat) | KernelSlot(k: nat)

  predicate ValidSlot(s: System, p: Slot) {
    match p
    case TableSlot(t, k) => t < |s.tasks| && k < |s.tasks[t].Tables()|
    case PageSlot(t, k) => t < |s.tasks| && k < |s.tasks[t].Log()|
    case KernelSlot(k) => k < |s.kernel|
  }

  function AddressAt(s: System, p: Slot): Word
    requires ValidSlot(s, p)
  {
    match p
    case TableSlot(t, k) => s.tasks[t].Tables()[k]
    case PageSlot(t, k) => s.tasks[t].Log()[k].physAddr
    case KernelSlot(k) => s.kernel[k]
  }

  function SlotOwner(p: Slot): Owner {
    match p
    case TableSlot(t, _) => TableOf(t)
    case PageSlot(t, _) => PageOf(t)
    case KernelSlot(_) => Kernel
  }

  /** In every consistent state the places that hold frame addresses and the marked frames
      correspond one to one. */
  lemma OneOwnerEach(s: System)
    requires Consistent(s)
    ensures forall p :: ValidSlot(s, p) ==> IsFrame(AddressAt(s, p)) && s.ph.Marked(FrameOf(AddressAt(s, p)))
    ensures forall p, q :: ValidSlot(s, p) && ValidSlot(s, q) && AddressAt(s, p) == AddressAt(s, q) ==> p == q
    ensures forall f: Frame :: s.ph.Marked(f) ==> exists p :: ValidSlot(s, p) && AddressAt(s, p) == FrameAddr(f)
  {
    hide SystemOk, ValidSlot, AddressAt, AlignedLog;
    var trees, owners :| SystemOk(s, trees, owners);
    forall p | ValidSlot(s, p) ensures IsFrame(AddressAt(s, p)) && s.ph.Marked(FrameOf(AddressAt(s, p))) {
      SlotOwned(s, trees, owners, p);
    }
    forall p, q | ValidSlot(s, p) && ValidSlot(s, q) && AddressAt(s, p) == AddressAt(s, q) ensures p == q {
      SlotOwned(s, trees, owners, p);
      SlotOwned(s, trees, owners, q);
      SlotUnique(s, trees, owners, p, q);
    }
    forall f: Frame | s.ph.Marked(f) ensures exists p :: ValidSlot(s, p) && AddressAt(s, p) == FrameAddr(f) {
      SlotExists(s, trees, owners, f);
    }
  }

  lemma TableListed(ph: Phys, owners: Owners, t: nat, mm: Mm, tr: Tree)
    requires TaskOk(ph, owners, t, mm, tr)
    ensures OwnsExactly(owners, TableOf(t), mm.Tables())
  {
    hide Entries, Covered, Touched;
    if mm.pgd != 0 {
      forall f: Frame | Owns(owners, f, TableOf(t)) ensures FrameAddr(f) in mm.Tables() {
        PageCount.ListingIsTree(mm.Tables(), tr);
        assert f in tr.Values;
        var p :| p in tr && tr[p] == f;
        assert FrameAddr(f) in PageCount.Owned(tr);
        assert FrameAddr(f) in PageCount.Members(mm.Tables());
      }
    }
  }

  ghost predicate MarkedFor(ph: Phys, owners: Owners, pa: Word, o: Owner) {
    IsFrame(pa) && Owns(owners, FrameOf(pa), o) && ph.Marked(FrameOf(pa))
  }

  lemma SlotOwned(s: System, trees: seq<Tree>, owners: Owners, p: Slot)
    requires SystemOk(s, trees, owners) && ValidSlot(s, p)
    ensures MarkedFor(s.ph, owners, AddressAt(s, p), SlotOwner(p))
  {
    hide TaskOk, OwnsExactly, MarkedFor, MarksOwned;
    match p
    case KernelSlot(k) => OwnedAt(s.ph, owners, Kernel, s.kernel, k);
    case TableSlot(t, k) =>
      assert TaskOk(s.ph, owners, t, s.tasks[t], trees[t]);
      TableListed(s.ph, owners, t, s.tasks[t], trees[t]);
      OwnedAt(s.ph, owners, TableOf(t), s.tasks[t].Tables(), k);
    case PageSlot(t, k) =>
      assert TaskOk(s.ph, owners, t, s.tasks[t], trees[t]);
      TaskParts(s.ph, owners, t, s.tasks[t], trees[t]);
      OwnedAt(s.ph, owners, PageOf(t), Pages(s.tasks[t].Log()), k);
  }

  lemma OwnedAt(ph: Phys, owners: Owners, o: Owner, pas: seq<Word>, k: nat)
    requires MarksOwned(ph, owners) && OwnsExactly(owners, o, pas) && k < |pas|
    ensures MarkedFor(ph, owners, pas[k], o)
  {
    assert pas[k] in pas;
  }

  lemma SlotUnique(s: System, trees: seq<Tree>, owners: Owners, p: Slot, q: Slot)
    requires SystemOk(s, trees, owners) && ValidSlot(s, p) && ValidSlot(s, q) && AddressAt(s, p) == AddressAt(s, q)
    requires SlotOwner(p) == SlotOwner(q)
    ensures p == q
  {
    hide TaskOk, MmOk;
    if !p.KernelSlot? {
      assert TaskOk(s.ph, owners, p.task, s.tasks[p.task], trees[p.task]);
      TableListed(s.ph, owners, p.task, s.tasks[p.task], trees[p.task]);
      TaskParts(s.ph, owners, p.task, s.tasks[p.task], trees[p.task]);
      assert p.PageSlot? ==> Pages(s.tasks[p.task].Log())[p.k] == AddressAt(s, p);
      assert q.PageSlot? ==> Pages(s.tasks[q.task].Log())[q.k] == AddressAt(s, q);
    }
  }

  lemma SlotExists(s: System, trees: seq<Tree>, owners: Owners, f: Frame)
    requires SystemOk(s, trees, owners) && s.ph.Marked(f)
    ensures exists p :: ValidSlot(s, p) && AddressAt(s, p) == FrameAddr(f)
  {
    hide TaskOk, MmOk;
    assert f in owners;
    match owners[f]
    case Kernel =>
      assert Owns(owners, f, Kernel);
      var k :| 0 <= k < |s.kernel| && s.kernel[k] == FrameAddr(f);
      assert ValidSlot(s, KernelSlot(k));
    case TableOf(t) =>
      assert TaskOk(s.ph, owners, t, s.tasks[t], trees[t]);
      TableListed(s.ph, owners, t, s.tasks[t], trees[t]);
      assert Owns(owners, f, TableOf(t));
      var k :| 0 <= k < |s.tasks[t].Tables()| && s.tasks[t].Tables()[k] == FrameAddr(f);
      assert ValidSlot(s, TableSlot(t, k));
    case PageOf(t) =>
      assert TaskOk(s.ph, owners, t, s.tasks[t], trees[t]);
      TaskParts(s.ph, owners, t, s.tasks[t], trees[t]);
      assert Owns(owners, f, PageOf(t));
      var k :| 0 <= k < |Pages(s.tasks[t].Log())| && Pages(s.tasks[t].Log())[k] == FrameAddr(f);
      assert ValidSlot(s, PageSlot(t, k));
  }
}
