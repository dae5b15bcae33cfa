/** The scheduler and the memory manager together: init_fs, forks, and page faults and stores of the
    current task, statement by statement, with ticks anywhere. What holds in every run, and what holds
    in every run in which no task takes a frame that another has found free. */
module KernelRuns {
  import opened Common
  import opened PageTables
  import opened TaskMemory
  import opened ForkIsolation
  import opened FrameCount
  import opened PageFaults
  import opened Interleaving
  import opened UsedFrames
  import P = Preemption
  import Scheduling

  const FS_NPAGES: nat := 128

  /** blocks counts the blocks that init_fs has asked for. */
  datatype Kernel = Kernel(m: P.Machine, b: State, blocks: nat)

  /** EndFork is the rest of copy_process: it finds a page or not, and copies the memory of a user
      task. Memory acts are those of a page fault, and stores. */
  datatype Event =
    | Move(v: P.Move)
    | EndFork(kthread: bool)
    | InitBlock
    | Memory(a: Act)

  ghost predicate Enabled(k: Kernel, e: Event) {
    && k.m.s.Valid() && |k.m.leaks| == NR_TASKS && Wellformed(k.b) && k.m.s.current < |k.b.jobs|
    && match e
       case Move(v) =>
         && P.Enabled(k.m, v) && v != P.ForkFails && v != P.ForkInserts
         && (!k.b.jobs[k.m.s.current].Idle? ==> P.ByTick([v]))
       case EndFork(kthread) => k.m.pc.Forking? && PageFaults.Enabled(k.b, k.m.s.current, Copy(kthread))
       case InitBlock => k.blocks < FS_NPAGES && PageFaults.Enabled(k.b, k.m.s.current, NewBlock)
       case Memory(a) =>
         k.m.pc.Outside? && !a.Copy? && !a.NewBlock? && PageFaults.Enabled(k.b, k.m.s.current, a)
  }

  /** A fork that faults ends nowhere. */
  ghost function Next(k: Kernel, e: Event): Kernel
    requires Enabled(k, e)
  {
    var t := k.m.s.current;
    match e
    case Move(v) => k.(m := P.Next(k.m, v))
    case EndFork(kthread) =>
      (match Fork(k.b.s, t, kthread)
       case Fault => k
       case Ok((_, pid, _)) =>
         if pid == -1 then k.(m := P.Next(k.m, P.ForkFails))
         else if k.m.s.nrTasks < NR_TASKS then
           k.(m := P.Next(k.m, P.ForkInserts), b := PageFaults.Next(k.b, t, Copy(kthread)))
         else k)
    case InitBlock => k.(b := PageFaults.Next(k.b, t, NewBlock), blocks := k.blocks + 1)
    case Memory(a) => k.(b := PageFaults.Next(k.b, t, a))
  }

  /** The current task finds or takes a frame that another task has found free and not yet marked. */
  ghost predicate Clashes(k: Kernel, e: Event)
    requires Enabled(k, e)
  {
    match e
    case Move(_) => false
    case EndFork(kthread) => Clash(k.b, k.m.s.current, Copy(kthread))
    case InitBlock => Clash(k.b, k.m.s.current, NewBlock)
    case Memory(a) => Clash(k.b, k.m.s.current, a)
  }

  // ----- What every event keeps

  /** The scheduler's invariant without leaks, one address space for each task, no kernel pages but
      the blocks and the pages of forked tasks, and no frames in use that are not on record. */
  ghost predicate Sound(k: Kernel) {
    && P.Inv(k.m) && OnRecord(k.b)
    && |k.b.jobs| == k.m.s.nrTasks
    && k.blocks <= FS_NPAGES && |k.b.s.kernel| + 1 == k.blocks + |k.b.jobs|
    && (k.m.pc.Forking? ==> k.m.s.nrTasks < NR_TASKS && k.b.jobs[k.m.s.current].Idle?)
    && forall i :: 0 <= i < |k.m.leaks| ==> k.m.leaks[i] == 0
  }

  lemma Sizes(k: Kernel)
    requires Sound(k)
    ensures k.m.s.Valid() && |k.m.leaks| == NR_TASKS && Wellformed(k.b) && k.m.s.current < |k.b.jobs| <= NR_TASKS
    ensures OnRecord(k.b) && |k.b.s.kernel| <= 1000
  {
  }

  /** There is always a free frame, hundreds of thousands of them. */
  lemma FramesEnough(k: Kernel)
    requires Sound(k)
    ensures |k.b.s.ph.Free()| >= 250_000 && k.b.s.ph.Free() != {}
  {
    hide P.Inv, OnRecord;
    Sizes(k);
    RecordLeaves(k.b);
  }

  lemma MoveFacts(m: P.Machine, v: P.Move)
    requires m.s.Valid() && |m.leaks| == NR_TASKS && P.Enabled(m, v) && v != P.ForkFails
    ensures v != P.ForkInserts ==> P.Next(m, v).s.nrTasks == m.s.nrTasks
    ensures v == P.ForkInserts ==> P.Next(m, v).s.nrTasks == m.s.nrTasks + 1 && !P.Next(m, v).pc.Forking?
    ensures P.Next(m, v).pc.Forking? ==> P.Next(m, v).s.current == m.s.current
    ensures P.Next(m, v).pc.Forking? && !m.pc.Forking? ==> m.s.nrTasks < NR_TASKS && v == P.EnterFork
    ensures P.Next(m, v).leaks == m.leaks
  {
  }

  /** Every event keeps this, clash or not; in particular every fork gets its page. */
  lemma EventKeeps(k: Kernel, e: Event)
    requires Sound(k) && Enabled(k, e)
    ensures Sound(Next(k, e))
    ensures e.EndFork? && Fork(k.b.s, k.m.s.current, e.kthread).Ok? ==>
      Fork(k.b.s, k.m.s.current, e.kthread).value.1 == k.m.s.nrTasks
  {
    hide P.Inv, P.Next, OnRecord, PageFaults.Next, Fork, Wellformed;
    Sizes(k);
    FramesEnough(k);
    match e
    case Move(v) =>
      P.MoveKeeps(k.m, v);
      MoveFacts(k.m, v);
      assert v == P.EnterFork ==> !P.ByTick([v]) by { NotByTick(); }
    case EndFork(kthread) => ForkKeeps(k, kthread);
    case InitBlock =>
      ActOnRecord(k.b, k.m.s.current, NewBlock);
      BlockCounts(k.b, k.m.s.current);
    case Memory(a) =>
      ActOnRecord(k.b, k.m.s.current, a);
  }

  lemma NotByTick()
    ensures !P.ByTick([P.EnterFork])
  {
    assert P.EnterFork in [P.EnterFork];
  }

  lemma BlockCounts(b: State, t: nat)
    requires PageFaults.Enabled(b, t, NewBlock) && b.s.ph.Free() != {}
    ensures |PageFaults.Next(b, t, NewBlock).s.kernel| == |b.s.kernel| + 1
    ensures PageFaults.Next(b, t, NewBlock).jobs == b.jobs
  {
    GetFreePageSpec(b.s.ph);
  }

  lemma ForkKeeps(k: Kernel, kthread: bool)
    requires Sound(k) && Enabled(k, EndFork(kthread)) && k.b.s.ph.Free() != {}
    ensures Sound(Next(k, EndFork(kthread)))
    ensures Fork(k.b.s, k.m.s.current, kthread).Ok? ==>
      Fork(k.b.s, k.m.s.current, kthread).value.1 == k.m.s.nrTasks
  {
    hide P.Inv, P.Next, OnRecord, Fork, Low;
    Sizes(k);
    var t := k.m.s.current;
    if Fork(k.b.s, t, kthread).Ok? {
      CountFork(k.b.s, t, kthread);
      ActOnRecord(k.b, t, Copy(kthread));
      P.MoveKeeps(k.m, P.ForkInserts);
      MoveFacts(k.m, P.ForkInserts);
    }
  }

  // ----- What events without a clash keep

  /** A consistent kernel: memory in order, wherever page faults have got to. */
  ghost predicate Orderly(k: Kernel) {
    Sound(k) && Inv(k.b)
  }

  /** The fork that is due comes back with the next task number and a complete copy. */
  ghost predicate ForkDone(k: Kernel, kthread: bool)
    requires Enabled(k, EndFork(kthread))
  {
    var t, k' := k.m.s.current, Next(k, EndFork(kthread));
    && k.b.s.ph.Valid() && k'.b.s.ph.Valid() && |k'.b.s.tasks| == |k.b.s.tasks| + 1
    && Fork(k.b.s, t, kthread) == Ok((k'.b.s, k.m.s.nrTasks as int, true))
    && k.m.s.nrTasks < NR_TASKS && k'.m == P.Next(k.m, P.ForkInserts)
    && (if kthread then k'.b.s.tasks == k.b.s.tasks + [EmptyMm()] else ForkCopied(k.b.s, t, k'.b.s))
  }

  /** An event without a clash keeps memory consistent, disturbs no task but the current one, and
      completes, if it is a fork whose parent has no mapping at 2^48 or above. Such a mapping faults. */
  lemma OrderKept(k: Kernel, e: Event)
    requires Orderly(k) && Enabled(k, e) && !Clashes(k, e)
    ensures Orderly(Next(k, e))
    ensures k.b.s.ph.Valid() && Next(k, e).b.s.ph.Valid() && |k.b.s.tasks| <= |Next(k, e).b.s.tasks|
    ensures M.Undisturbed(k.b.s, Next(k, e).b.s, k.m.s.current)
    ensures e.EndFork? ==> (ForkDone(k, e.kthread) <==> Readable(k.b, k.m.s.current, e.kthread))
  {
    hide P.Inv, P.Next, OnRecord, PageFaults.Next, Fork, Sound, Inv, ActSeen, ForkCopied, M.Undisturbed,
         PageFaults.Enabled, Clash;
    EventKeeps(k, e);
    Sizes(k);
    FramesEnough(k);
    match e
    case Move(v) => Same(k.b.s, k.m.s.current);
    case EndFork(kthread) =>
      if Readable(k.b, k.m.s.current, kthread) {
        ActKeeps(k.b, k.m.s.current, Copy(kthread));
        ForkRoom(k);
        CopyIsFork(k, kthread);
      } else {
        HighForkFaults(k.b, k.m.s.current);
        Same(k.b.s, k.m.s.current);
      }
    case InitBlock => ActKeeps(k.b, k.m.s.current, NewBlock);
    case Memory(a) => ActKeeps(k.b, k.m.s.current, a);
  }

  lemma ForkRoom(k: Kernel)
    requires Sound(k) && k.m.pc.Forking?
    ensures k.m.s.nrTasks == |k.b.jobs| < NR_TASKS
  {
  }

  lemma CopyIsFork(k: Kernel, kthread: bool)
    requires Enabled(k, EndFork(kthread)) && ActDone(k.b, k.m.s.current, Copy(kthread))
    requires k.m.s.nrTasks == |k.b.jobs| < NR_TASKS
    ensures ForkDone(k, kthread)
  {
    hide P.Next, Fork, Inv, M.Undisturbed, ActSeen, ForkCopied, PageFaults.Next;
    var b' := PageFaults.Next(k.b, k.m.s.current, Copy(kthread));
    assert Fork(k.b.s, k.m.s.current, kthread) == Ok((b'.s, |k.b.jobs| as int, true));
    assert Next(k, EndFork(kthread)).b == b';
  }

  lemma Same(s: System, t: int)
    requires s.ph.Valid()
    ensures M.Undisturbed(s, s, t)
  {
  }

  // ----- Runs from boot

  ghost predicate Possible(k: Kernel, run: seq<Event>)
    decreases |run|
  {
    run == [] || (Enabled(k, run[0]) && Possible(Next(k, run[0]), run[1..]))
  }

  ghost function After(k: Kernel, run: seq<Event>): Kernel
    requires Possible(k, run)
    decreases |run|
  {
    if run == [] then k else After(Next(k, run[0]), run[1..])
  }

  ghost predicate NoClash(k: Kernel, run: seq<Event>)
    requires Possible(k, run)
    decreases |run|
  {
    run == [] || (!Clashes(k, run[0]) && NoClash(Next(k, run[0]), run[1..]))
  }

  ghost predicate Boot(k: Kernel) {
    k.m == P.Boot() && M.Boot(k.b.s) && k.b.jobs == [Idle] && k.blocks == 0
  }

  lemma {:induction false} RunKeeps(k: Kernel, run: seq<Event>)
    requires Sound(k) && Possible(k, run)
    ensures Sound(After(k, run))
    decreases |run|
  {
    hide Sound, Next, Enabled;
    if run != [] {
      EventKeeps(k, run[0]);
      RunKeeps(Next(k, run[0]), run[1..]);
    }
  }

  lemma {:induction false} RunOrderly(k: Kernel, run: seq<Event>)
    requires Orderly(k) && Possible(k, run) && NoClash(k, run)
    ensures Orderly(After(k, run))
    decreases |run|
  {
    hide Orderly, Next, Enabled, Clashes;
    if run != [] {
      OrderKept(k, run[0]);
      RunOrderly(Next(k, run[0]), run[1..]);
    }
  }

  lemma BootOrderly(k: Kernel)
    requires Boot(k)
    ensures Orderly(k)
  {
    hide P.Inv, Inv, OnRecord;
    BootRecord(k.b);
    assert P.Inv(P.Boot());
    BootFrames(k.b);
  }

  lemma BootRecord(b: State)
    requires M.Boot(b.s) && b.jobs == [Idle]
    ensures OnRecord(b)
  {
    hide M.Consistent, EmptyMm, M.Wellformed;
    M.BootConsistent(b.s);
    assert M.Wellformed(b.s) by { WellformedAtBoot(b.s); }
    FramesConserved(b.s);
    NothingHeld(b);
  }

  lemma WellformedAtBoot(s: System)
    requires M.Consistent(s)
    ensures M.Wellformed(s)
  {
  }

  lemma NothingHeld(b: State)
    requires b.s.tasks == [EmptyMm()] && b.jobs == [Idle]
    ensures Held(b.s.tasks, 1) == 0 && Used(b, 1) == 0
  {
  }

  lemma BootFrames(b: State)
    requires M.Boot(b.s) && b.jobs == [Idle]
    ensures Inv(b)
  {
    hide JobOk, AlignedLog;
    var owners: Owners := map[];
    assert MarksOwned(b.s.ph, owners);
    EmptyMmOk(b.s.ph, owners, 0);
    M.EmptyAligned();
    TaskIsIdle(b.s.ph, owners, 0, EmptyMm(), map[]);
    assert FramesOk(b, [map[]], owners);
    assert BusyOk(b, [map[]], owners);
  }

  /** In every run of the kernel from boot, clashes included: outside the sections that disable
      preemption the current task's count is 0, inside them it is 1, and every other task's is 1;
      every counter is bounded; and hundreds of thousands of frames are free. */
  lemma HandOver(boot: Kernel, run: seq<Event>)
    requires Boot(boot) && Possible(boot, run)
    ensures var k := After(boot, run);
      && k.m.s.Valid()
      && (forall i :: 0 <= i < k.m.s.nrTasks && i != k.m.s.current ==> k.m.s.slots[i].t.preempt == 1)
      && k.m.s.Cur().preempt == (if k.m.pc.Outside? then 0 else 1)
      && Scheduling.Bounded(k.m.s)
      && |k.b.s.ph.Free()| >= 250_000
  {
    hide After, Possible, Boot, OnRecord;
    BootOrderly(boot);
    RunKeeps(boot, run);
    var k := After(boot, run);
    FramesEnough(k);
    assert forall i :: 0 <= i < k.m.s.nrTasks ==> k.m.s.slots[i].Used? && k.m.leaks[i] == 0;
  }

  /** So a fork that comes back at all never comes back with -1, and never leaks. */
  lemma ForksFindPages(boot: Kernel, run: seq<Event>, kthread: bool)
    requires Boot(boot) && Possible(boot, run) && Enabled(After(boot, run), EndFork(kthread))
    ensures var k := After(boot, run);
      Fork(k.b.s, k.m.s.current, kthread).Ok? ==>
        Fork(k.b.s, k.m.s.current, kthread).value.1 == k.m.s.nrTasks
  {
    hide After, Possible, Boot, Sound, Fork, Enabled;
    BootOrderly(boot);
    RunKeeps(boot, run);
    EventKeeps(After(boot, run), EndFork(kthread));
  }

  /** In every run from boot without a clash memory is consistent, wherever page faults have been
      preempted, and no task is stuck. */
  lemma MemoryInOrder(boot: Kernel, run: seq<Event>)
    requires Boot(boot) && Possible(boot, run) && NoClash(boot, run)
    ensures var k := After(boot, run);
      Inv(k.b) && forall t :: 0 <= t < |k.b.jobs| ==> !k.b.jobs[t].Stuck?
  {
    hide After, Possible, NoClash, Boot, Sound, FramesOk;
    BootOrderly(boot);
    RunOrderly(boot, run);
    NobodyStuck(After(boot, run).b);
  }

  lemma NobodyStuck(b: State)
    requires Inv(b)
    ensures forall t :: 0 <= t < |b.jobs| ==> !b.jobs[t].Stuck?
  {
    hide Core, PlaceOk, Missing, OnWay;
    var trees, owners :| BusyOk(b, trees, owners);
    forall t | 0 <= t < |b.jobs| ensures !b.jobs[t].Stuck? {
      assert JobOk(b.s.ph, owners, t, b.s.tasks[t], trees[t], b.jobs[t]);
    }
  }

  /** In every run from boot without a clash a fork succeeds iff it makes a kernel thread, or its
      parent has no mapping at 2^48 or above. */
  lemma EveryForkSucceeds(boot: Kernel, run: seq<Event>, kthread: bool)
    requires Boot(boot) && Possible(boot, run) && NoClash(boot, run)
    requires Enabled(After(boot, run), EndFork(kthread)) && !Clashes(After(boot, run), EndFork(kthread))
    ensures After(boot, run).m.s.current < |After(boot, run).b.s.tasks|
    ensures ForkDone(After(boot, run), kthread) <==>
      Readable(After(boot, run).b, After(boot, run).m.s.current, kthread)
  {
    hide After, Possible, NoClash, Boot, Sound, Inv, ForkDone, Enabled, Clashes;
    BootOrderly(boot);
    RunOrderly(boot, run);
    Sizes(After(boot, run));
    OrderKept(After(boot, run), EndFork(kthread));
  }

  /** What the current task does next when a page fault has it outside _schedule. */
  function NextAct(job: Job): Act {
    if job.Loop? then Test else if job.Holding? then Mark else Descend
  }

  /** In every run from boot without a clash a page fault can come in iff there are slots for its
      mapping, and one that came in goes on whenever its task runs. */
  lemma PageFaultsServed(boot: Kernel, run: seq<Event>, va: Word)
    requires Boot(boot) && Possible(boot, run) && NoClash(boot, run) && va % PAGE_SIZE == 0
    ensures var k := After(boot, run);
      && k.m.s.current < |k.b.jobs| == |k.b.s.tasks|
      && (k.m.pc.Outside? && k.b.jobs[k.m.s.current].Idle? ==>
            (Enabled(k, Memory(Abort(va))) <==> SlotsFor(k.b.s.tasks[k.m.s.current], va)))
      && (k.m.pc.Outside? && !k.b.jobs[k.m.s.current].Idle? ==>
            Enabled(k, Memory(NextAct(k.b.jobs[k.m.s.current]))))
  {
    hide After, Possible, NoClash, Boot, SlotsFor, Inv;
    BootOrderly(boot);
    RunOrderly(boot, run);
    var k := After(boot, run);
    Sizes(k);
    if !k.b.jobs[k.m.s.current].Idle? {
      CanGoOn(k.b, k.m.s.current);
    }
  }

  lemma CanGoOn(b: State, t: nat)
    requires Inv(b) && Wellformed(b) && t < |b.jobs| && !b.jobs[t].Idle?
    ensures PageFaults.Enabled(b, t, NextAct(b.jobs[t]))
  {
    hide Core, PlaceOk, Missing, OnWay;
    var trees, owners :| BusyOk(b, trees, owners);
    assert JobOk(b.s.ph, owners, t, b.s.tasks[t], trees[t], b.jobs[t]);
  }

  /** What is left when memory is exhausted some other way: the fork fails, and its task stays
      unpreemptable. */
  lemma ExhaustedForkLeaks(k: Kernel, kthread: bool)
    requires P.Inv(k.m) && Enabled(k, EndFork(kthread)) && k.b.s.ph.Free() == {}
    ensures var m' := Next(k, EndFork(kthread)).m;
      m'.pc.Outside? && m'.s == k.m.s && m'.s.Cur().preempt == k.m.leaks[k.m.s.current] + 1
  {
    hide CopyVirtMemory, Scheduling.Bounded;
    NoFrameNoFork(k.b.s, k.m.s.current, kthread);
    assert k.m.s.slots[k.m.s.current].Used?;
  }

  lemma NoFrameNoFork(s: System, t: nat, kthread: bool)
    requires s.ph.Valid() && t < |s.tasks| && s.tasks[t].Valid() && s.ph.Free() == {}
    ensures Fork(s, t, kthread) == Ok((s, -1, true))
  {
    hide CopyVirtMemory;
    GetFreePageSpec(s.ph);
  }
}
