/** How many frames can be in use at most, counted by what tasks have on record: this holds whatever
    the interleaving, and whatever became of the page tables. */
module UsedFrames {
  import opened Common
  import opened PageTables
  import opened MapPageProof
  import opened PageTree
  import opened TaskMemory
  import opened ForkIsolation
  import opened PageFaults

  // ----- Allocations, by the slots they fill

  function Slots(mm: Mm): nat {
    mm.kernelCount + mm.userCount
  }

  /** From one state to the next no more frames are taken than slots are filled, and `more`. */
  ghost predicate Counted(ph: Phys, mm: Mm, ph': Phys, mm': Mm, more: int) {
    ph.Valid() && ph'.Valid() && |ph'.Free()| + Slots(mm') + more >= |ph.Free()| + Slots(mm)
  }

  lemma CountGet(ph: Phys)
    requires ph.Valid()
    ensures var (ph', pa) := GetFreePage(ph);
      ph'.Valid() && |ph'.Free()| + (if pa == 0 then 0 else 1) == |ph.Free()|
  {
    GetFreePageSpec(ph);
  }

  lemma SameMarks(ph: Phys, ph': Phys)
    requires ph'.memMap == ph.memMap
    ensures ph'.Free() == ph.Free()
  {
  }

  lemma CountTop(ph: Phys, mm: Mm)
    requires ph.Valid() && mm.Valid() && EnsureTop(ph, mm).Ok?
    ensures Counted(ph, mm, EnsureTop(ph, mm).value.0, EnsureTop(ph, mm).value.1, 0)
  {
    CountGet(ph);
  }

  lemma CountLevel(ph: Phys, mm: Mm, table: Word, shift: nat, va: Word)
    requires ph.Valid() && mm.Valid() && MapLevel(ph, mm, table, shift, va).Ok?
    ensures var r := MapLevel(ph, mm, table, shift, va).value; Counted(ph, mm, r.0, r.1, 0)
  {
    hide TableIndex, Descriptor, MaskPage;
    CountGet(ph);
    var (ph1, next, isNew) := MapTable(ph, table, shift, va);
    if isNew {
      SameMarks(GetFreePage(ph).0, ph1);
    }
  }

  lemma CountSet(ph: Phys, mm: Mm, table: Word, va: Word, page: Word)
    requires ph.Valid() && mm.Valid() && SetPage(ph, mm, table, va, page).Ok?
    ensures var r := SetPage(ph, mm, table, va, page).value; Counted(ph, mm, r.0, r.1, -1)
  {
    hide TableIndex, Descriptor;
    SameMarks(ph, SetPage(ph, mm, table, va, page).value.0);
  }

  lemma {:induction false} CountBelow(ph: Phys, mm: Mm, table: Word, va: Word, page: Word, level: nat)
    requires ph.Valid() && mm.Valid() && level <= 3 && MapBelow(ph, mm, table, va, page, level).Ok?
    ensures var r := MapBelow(ph, mm, table, va, page, level).value; Counted(ph, mm, r.0, r.1, -1)
    decreases 3 - level
  {
    hide MapLevel, SetPage;
    MapBelowStep(ph, mm, table, va, page, level);
    if level == 3 {
      CountSet(ph, mm, table, va, page);
    } else {
      CountLevel(ph, mm, table, 39 - 9 * level, va);
      var r := MapLevel(ph, mm, table, 39 - 9 * level, va).value;
      CountBelow(r.0, r.1, r.2, va, page, level + 1);
    }
  }

  lemma CountUser(ph: Phys, mm: Mm, va: Word)
    requires ph.Valid() && mm.Valid() && AllocateUserPage(ph, mm, va).Ok?
    ensures var r := AllocateUserPage(ph, mm, va).value; Counted(ph, mm, r.0, r.1, 0)
  {
    hide EnsureTop, MapBelow;
    CountGet(ph);
    var (ph1, page) := GetFreePage(ph);
    if page != 0 {
      MapPageStep(ph1, mm, va, page);
      CountTop(ph1, mm);
      var (ph2, mm2) := EnsureTop(ph1, mm).value;
      CountBelow(ph2, mm2, mm2.pgd, va, page, 0);
    }
  }

  lemma {:induction false} CountWords(ph: Phys, mm: Mm, va: Word, pa: Word, k: nat)
    requires ph.Valid() && IsFrame(pa) && k <= PTRS_PER_TABLE && CopyWords(ph, mm, va, pa, k).Ok?
    ensures CopyWords(ph, mm, va, pa, k).value.memMap == ph.memMap
    decreases PTRS_PER_TABLE - k
  {
    hide ReadVirtual;
    if k < PTRS_PER_TABLE {
      CountWords(Store(ph, pa, k, ReadVirtual(ph, mm, va + 8 * k).value), mm, va, pa, k + 1);
    }
  }

  lemma {:induction false} CountCopy(ph: Phys, src: Mm, dst: Mm, i: nat)
    requires ph.Valid() && src.Valid() && dst.Valid() && i <= src.userCount && CopyVirtMemory(ph, src, dst, i).Ok?
    ensures var r := CopyVirtMemory(ph, src, dst, i).value; Counted(ph, dst, r.0, r.1, 0)
    decreases src.userCount - i
  {
    hide AllocateUserPage, CopyWords;
    if i < src.userCount {
      var va := src.userPages[i].virtAddr;
      CountUser(ph, dst, va);
      var r := AllocateUserPage(ph, dst, va).value;
      if r.2 != 0 {
        CountWords(r.0, src, va, r.2 - VA_START, 0);
        var ph2 := CopyWords(r.0, src, va, r.2 - VA_START, 0).value;
        SameMarks(r.0, ph2);
        CountCopy(ph2, src, r.1, i + 1);
      }
    }
  }

  /** A fork takes one frame and those its child has slots for; with a frame free it gets one. */
  lemma CountFork(s: System, t: nat, kthread: bool)
    requires M.Wellformed(s) && t < |s.tasks| && Fork(s, t, kthread).Ok?
    ensures var (s', pid, _) := Fork(s, t, kthread).value;
      && (s.ph.Free() != {} ==> pid != -1)
      && (pid != -1 ==>
            && pid == |s.tasks| && M.Wellformed(s') && |s'.tasks| == |s.tasks| + 1 && s'.tasks[..pid] == s.tasks
            && |s'.kernel| == |s.kernel| + 1
            && |s'.ph.Free()| + 1 + Slots(s'.tasks[pid]) >= |s.ph.Free()|)
  {
    hide CopyVirtMemory;
    CountGet(s.ph);
    GetFreePageSpec(s.ph);
    var (s1, kva) := AllocateKernelPage(s);
    if kva != 0 && !kthread {
      CountCopy(s1.ph, s.tasks[t], EmptyMm(), 0);
    }
  }

  // ----- All tasks

  /** A page in flight is in use; a stuck task may have lost one. */
  function Extra(job: Job): nat {
    if job.Stuck? || ((job.Mapping? || job.Loop? || job.Holding?) && job.p.page.Some?) then 1 else 0
  }

  function Used(b: State, n: nat): nat
    requires n <= |b.jobs| == |b.s.tasks|
  {
    if n == 0 then 0 else Used(b, n - 1) + Slots(b.s.tasks[n - 1]) + Extra(b.jobs[n - 1])
  }

  /** No more frames are taken than are on record. */
  ghost predicate OnRecord(b: State) {
    Wellformed(b) && |b.s.ph.Free()| + |b.s.kernel| + Used(b, |b.jobs|) >= PAGING_PAGES
  }

  lemma {:induction false} UsedBound(b: State, n: nat)
    requires Wellformed(b) && n <= |b.jobs|
    ensures Used(b, n) <= 32 * n
  {
    if n > 0 {
      UsedBound(b, n - 1);
      assert b.s.tasks[n - 1].Valid();
    }
  }

  /** With at most 64 tasks and a thousand kernel pages most frames are free. */
  lemma RecordLeaves(b: State)
    requires OnRecord(b) && |b.jobs| <= NR_TASKS && |b.s.kernel| <= 1000
    ensures |b.s.ph.Free()| >= 250_000
  {
    UsedBound(b, |b.jobs|);
  }

  lemma {:induction false} UsedUpdate(b: State, b': State, t: nat, n: nat)
    requires |b.jobs| == |b.s.tasks| <= |b'.jobs| == |b'.s.tasks| && t < |b.jobs| && n <= |b.jobs|
    requires forall u :: 0 <= u < |b.jobs| && u != t ==> b'.s.tasks[u] == b.s.tasks[u] && b'.jobs[u] == b.jobs[u]
    ensures Used(b', n) - Used(b, n) ==
      if t < n then Slots(b'.s.tasks[t]) + Extra(b'.jobs[t]) - Slots(b.s.tasks[t]) - Extra(b.jobs[t]) else 0
  {
    if n > 0 {
      UsedUpdate(b, b', t, n - 1);
    }
  }

  lemma CountPut(ph: Phys, mm: Mm, p: Place, f: Frame)
    requires ph.Valid() && mm.Valid() && Put(ph, mm, p, f).Ok?
    ensures var r := Put(ph, mm, p, f).value;
      Counted(ph, mm, r.0, r.1, Extra(r.2) - Extra(Holding(p, f)))
  {
    hide TableIndex, Descriptor;
    var ph1 := Allocated(ph, f);
    assert ph1.Free() == ph.Free() - {f};
    SameMarks(ph1, Put(ph, mm, p, f).value.0);
  }

  lemma CountWalked(ph: Phys, mm: Mm, p: Place)
    requires ph.Valid() && mm.Valid() && p.page.Some? && Walked(ph, mm, p).Ok?
    ensures var r := Walked(ph, mm, p).value;
      Counted(ph, mm, r.0, r.1, Extra(r.2) - Extra(Mapping(p)))
  {
    hide TableIndex, Descriptor, MaskPage, SetPage;
    if p.level > 3 {
      CountSet(ph, mm, p.table, p.va, FrameAddr(p.page.value));
    }
  }

  /** Every act of every task, clash or not, takes no more frames than it puts on record. */
  lemma ActOnRecord(b: State, t: nat, a: Act)
    requires OnRecord(b) && Enabled(b, t, a)
    ensures OnRecord(Next(b, t, a)) && |Next(b, t, a).jobs| >= |b.jobs|
    ensures !a.Copy? ==> |Next(b, t, a).jobs| == |b.jobs|
    ensures !a.Copy? && a != NewBlock ==> Next(b, t, a).s.kernel == b.s.kernel
  {
    hide Put, Walked, Fork, SlotsFor, Translate;
    var b', ph, mm, job := Next(b, t, a), b.s.ph, b.s.tasks[t], b.jobs[t];
    match a {
      case Mark =>
        if Put(ph, mm, job.p, job.f).Ok? {
          CountPut(ph, mm, job.p, job.f);
        }
        UsedUpdate(b, b', t, |b.jobs|);
      case Descend =>
        if Walked(ph, mm, job.p).Ok? {
          CountWalked(ph, mm, job.p);
        }
        UsedUpdate(b, b', t, |b.jobs|);
      case Write(va, w) =>
        SameMarks(ph, b'.s.ph);
        UsedUpdate(b, b', t, |b.jobs|);
      case Copy(kthread) =>
        CopyOnRecord(b, t, kthread);
      case NewBlock =>
        CountGet(ph);
        GetFreePageSpec(ph);
        UsedUpdate(b, b', t, |b.jobs|);
      case _ =>
        UsedUpdate(b, b', t, |b.jobs|);
    }
  }

  lemma CopyOnRecord(b: State, t: nat, kthread: bool)
    requires OnRecord(b) && Enabled(b, t, Copy(kthread))
    ensures OnRecord(Next(b, t, Copy(kthread))) && |Next(b, t, Copy(kthread)).jobs| >= |b.jobs|
  {
    hide Fork, Low;
    var b' := Next(b, t, Copy(kthread));
    if Fork(b.s, t, kthread).Ok? && Fork(b.s, t, kthread).value.1 != -1 {
      CountFork(b.s, t, kthread);
      forall u | 0 <= u < |b.jobs| ensures b'.s.tasks[u] == b.s.tasks[u] && b'.jobs[u] == b.jobs[u] {
        assert b'.s.tasks[u] == b'.s.tasks[..|b.jobs|][u];
      }
      UsedUpdate(b, b', t, |b.jobs|);
    } else {
      UsedUpdate(b, b', t, |b.jobs|);
    }
  }
}
