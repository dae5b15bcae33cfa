/** Page faults that can be preempted anywhere: several tasks at once in the middle of get_free_page
    and map_page, while others fork and store. Every statement that reads or marks mem_map is a step
    of its own; what a task does to its new frame and to its own tables goes with the next of them. */
module PageFaults {
  import opened Common
  import opened PageTables
  import opened PageTree
  import opened MapPageProof
  import opened PageWalk
  import opened TaskMemory
  import opened ForkIsolation
  import M = MemoryRuns

  /** Where a page fault at va is: without a page yet; or with one, on the way to the table of the
      given level, table being that of the level above. */
  datatype Place = Place(va: Word, page: Option<Frame>, level: nat, table: Word) {
    function Indices(): Indices {
      IndicesOf(va)
    }
  }

  /** What a task is doing: nothing with memory; between two steps of map_page; in get_free_page,
      before the test of mem_map[i], or behind a test that found frame f free. A stuck task got no
      frame, or followed a damaged table. */
  datatype Job = Idle | Mapping(p: Place) | Loop(p: Place, i: nat) | Holding(p: Place, f: Frame) | Stuck

  /** The tasks' memory and what each of them is doing. */
  datatype State = State(s: System, jobs: seq<Job>)

  datatype Act =
    | Abort(va: Word)           // a page fault comes in
    | Test                      // a turn of the loop of get_free_page
    | Mark                      // mem_map[i] = 1, and the frame is put where it belongs
    | Descend                   // map_page goes on without a frame
    | Write(va: Word, w: Word)
    | Copy(kthread: bool)       // copy_process, which cannot be preempted
    | NewBlock                  // a kernel page

  ghost predicate Wellformed(b: State) {
    M.Wellformed(b.s) && |b.jobs| == |b.s.tasks|
  }

  /** There are slots in kernel_pages and user_pages for a mapping of va. */
  predicate SlotsFor(mm: Mm, va: Word) {
    |TablesOf(mm.Log() + [UserPage(0, va)])| < MAX_PROCESS_PAGES && mm.userCount < MAX_PROCESS_PAGES
  }

  /** A fork that the copy of the parent's memory cannot lead astray: memcpy reads addresses below
      2^48 only. */
  predicate Readable(b: State, t: nat, kthread: bool)
    requires t < |b.s.tasks|
  {
    kthread || Low(b.s.tasks[t].Log(), b.s.tasks[t].userCount)
  }

  ghost predicate Enabled(b: State, t: nat, a: Act) {
    && Wellformed(b) && t < |b.jobs|
    && match a
       case Abort(va) => b.jobs[t].Idle? && va % PAGE_SIZE == 0 && SlotsFor(b.s.tasks[t], va)
       case Test => b.jobs[t].Loop?
       case Mark => b.jobs[t].Holding?
       case Descend => b.jobs[t].Mapping? && b.jobs[t].p.page.Some?
       case Write(va, w) => b.jobs[t].Idle? && va % 8 == 0 && va < USER_LIMIT
       case Copy(_) => b.jobs[t].Idle? && |b.jobs| < NR_TASKS
       case NewBlock => b.jobs[t].Idle?
  }

  /** The frame f is marked, zeroed and put where it belongs: it is the page; or the top table; or
      it is linked under the table above. Tables are recorded. */
  function Put(ph: Phys, mm: Mm, p: Place, f: Frame): (r: Outcome<(Phys, Mm, Job)>)
    requires ph.Valid() && mm.Valid()
    ensures r.Ok? ==> r.value.0.Valid() && r.value.1.Valid()
  {
    var ph1 := Allocated(ph, f);
    if p.page.None? then Ok((ph1, mm, Mapping(Place(p.va, Some(f), 0, 0))))
    else if p.level == 0 then
      var mm1 :- RecordTable(mm.(pgd := FrameAddr(f)), FrameAddr(f));
      Ok((ph1, mm1, Mapping(p.(level := 1, table := FrameAddr(f)))))
    else if p.level > 3 || !IsFrame(p.table) then Fault
    else
      var mm1 :- RecordTable(mm, FrameAddr(f));
      var entry := Descriptor(FrameAddr(f), MM_TYPE_PAGE_TABLE);
      Ok((Store(ph1, p.table, TableIndex(p.va, 48 - 9 * p.level), entry), mm1,
          Mapping(p.(level := p.level + 1, table := FrameAddr(f)))))
  }

  /** The next step of map_page: on to the next table if it is there, or to get_free_page; and at
      the end the page's own entry. */
  function Walked(ph: Phys, mm: Mm, p: Place): (r: Outcome<(Phys, Mm, Job)>)
    requires ph.Valid() && mm.Valid() && p.page.Some?
    ensures r.Ok? ==> r.value.0.Valid() && r.value.1.Valid()
  {
    if p.level == 0 then
      Ok((ph, mm, if mm.pgd == 0 then Loop(p, 0) else Mapping(p.(level := 1, table := mm.pgd))))
    else if p.level <= 3 then
      if !IsFrame(p.table) then Fault
      else
        var entry := Load(ph, p.table, TableIndex(p.va, 48 - 9 * p.level));
        Ok((ph, mm, if entry == 0 then Loop(p, 0) else Mapping(p.(level := p.level + 1, table := MaskPage(entry)))))
    else
      var (ph1, mm1) :- SetPage(ph, mm, p.table, p.va, FrameAddr(p.page.value));
      Ok((ph1, mm1, Idle))
  }

  /** The state after task t's memory and job changed. */
  function After(b: State, t: nat, r: Outcome<(Phys, Mm, Job)>): State
    requires t < |b.jobs| == |b.s.tasks|
  {
    match r
    case Fault => b.(jobs := b.jobs[t := Stuck])
    case Ok((ph, mm, job)) => State(System(ph, b.s.kernel, b.s.tasks[t := mm]), b.jobs[t := job])
  }

  ghost function Next(b: State, t: nat, a: Act): (b': State)
    requires Enabled(b, t, a)
  {
    var ph, mm, job := b.s.ph, b.s.tasks[t], b.jobs[t];
    match a
    case Abort(va) => b.(jobs := b.jobs[t := Loop(Place(va, None, 0, 0), 0)])
    case Test =>
      b.(jobs := b.jobs[t :=
        if job.i >= PAGING_PAGES then Stuck
        else if ph.memMap[job.i] == 0 then Holding(job.p, job.i)
        else Loop(job.p, job.i + 1)])
    case Mark => After(b, t, Put(ph, mm, job.p, job.f))
    case Descend => After(b, t, Walked(ph, mm, job.p))
    case Write(va, w) => b.(s := b.s.(ph := M.WriteVirtual(ph, mm, va, w)))
    case Copy(kthread) =>
      (match Fork(b.s, t, kthread)
       case Fault => b.(jobs := b.jobs[t := Stuck])
       case Ok((s', pid, _)) => if pid == -1 then b else State(s', b.jobs + [Idle]))
    case NewBlock => b.(s := AllocateKernelPage(b.s).0)
  }

  /** The act finds or takes a frame that another task has found free and not yet marked. */
  ghost predicate Clash(b: State, t: nat, a: Act)
    requires Enabled(b, t, a)
  {
    var b' := Next(b, t, a);
    exists u :: 0 <= u < |b.jobs| && u != t && b.jobs[u].Holding? && Wanted(b', t, b.jobs[u].f)
  }

  ghost predicate Wanted(b': State, t: nat, f: Frame) {
    b'.s.ph.Marked(f) || (t < |b'.jobs| && b'.jobs[t].Holding? && b'.jobs[t].f == f)
  }

  // ----- The invariant

  /** The page of an unfinished fault. */
  function InFlight(job: Job): seq<Word> {
    if (job.Mapping? || job.Loop? || job.Holding?) && job.p.page.Some? then [FrameAddr(job.p.page.value)] else []
  }

  /** A task's tables agree with its log, and it owns these, its pages and what is in flight. */
  ghost predicate Core(ph: Phys, owners: Owners, t: nat, mm: Mm, tr: Tree, extra: seq<Word>) {
    && ph.Valid() && mm.Valid() && AlignedLog(mm)
    && (forall k :: 0 <= k < mm.userCount ==> IsFrame(mm.userPages[k].physAddr))
    && (if mm.pgd == 0 then tr == map[] && mm.userCount == 0 && mm.kernelCount == 0
        else Growing(ph, mm, tr, Leaves(mm.Log())))
    && OwnsTables(owners, t, tr)
    && OwnsExactly(owners, PageOf(t), Pages(mm.Log()) + extra)
  }

  /** Every table is on the way to a mapping, or to `more`. */
  ghost predicate OnWay(mm: Mm, tr: Tree, more: set<Path>) {
    forall q <- tr :: Touched(Leaves(mm.Log()), q) || q in more
  }

  ghost predicate Roomy(mm: Mm, tr: Tree, ix: Indices) {
    |tr.Keys + Prefixes(ix)| < MAX_PROCESS_PAGES && mm.userCount < MAX_PROCESS_PAGES
  }

  ghost predicate PlaceOk(ph: Phys, mm: Mm, tr: Tree, p: Place) {
    && p.va % PAGE_SIZE == 0 && p.level <= 4 && Roomy(mm, tr, p.Indices())
    && match p.page
       case None => p.level == 0 && OnWay(mm, tr, {})
       case Some(f) =>
         && f < |ph.mem| && ph.mem[f] == ZeroPage()
         && OnWay(mm, tr, Prefixes(p.Indices()))
         && (p.level > 0 ==>
               && mm.pgd != 0 && PathOf(p.Indices(), p.level - 1) in tr
               && p.table == FrameAddr(tr[PathOf(p.Indices(), p.level - 1)]))
  }

  /** The table the task needs a frame for is not there. */
  ghost predicate Missing(mm: Mm, tr: Tree, p: Place) {
    p.page.Some? ==>
      && p.level <= 3 && PathOf(p.Indices(), p.level) !in tr
      && (p.level == 0 ==> mm.pgd == 0)
  }

  ghost predicate JobOk(ph: Phys, owners: Owners, t: nat, mm: Mm, tr: Tree, job: Job) {
    && Core(ph, owners, t, mm, tr, InFlight(job))
    && match job
       case Idle => OnWay(mm, tr, {})
       case Mapping(p) => p.page.Some? && PlaceOk(ph, mm, tr, p)
       case Loop(p, _) => PlaceOk(ph, mm, tr, p) && Missing(mm, tr, p)
       case Holding(p, _) => PlaceOk(ph, mm, tr, p) && Missing(mm, tr, p)
       case Stuck => false
  }

  /** The loops have seen marked frames only; the frames found free are free, and each one's own. */
  ghost predicate Seeking(ph: Phys, jobs: seq<Job>) {
    && (forall t :: 0 <= t < |jobs| && jobs[t].Loop? ==>
          jobs[t].i <= PAGING_PAGES && forall j :: 0 <= j < jobs[t].i ==> ph.Marked(j))
    && (forall t :: 0 <= t < |jobs| && jobs[t].Holding? ==> !ph.Marked(jobs[t].f))
    && (forall t, u :: 0 <= t < u < |jobs| && jobs[t].Holding? && jobs[u].Holding? ==> jobs[t].f != jobs[u].f)
  }

  /** Every marked frame has one owner, and every task is in order. */
  ghost predicate FramesOk(b: State, trees: seq<Tree>, owners: Owners) {
    && MarksOwned(b.s.ph, owners)
    && |trees| == |b.s.tasks| == |b.jobs|
    && OwnsExactly(owners, Kernel, b.s.kernel)
    && (forall f <- owners :: owners[f].Kernel? || owners[f].task < |b.s.tasks|)
    && (forall t :: 0 <= t < |b.jobs| ==> JobOk(b.s.ph, owners, t, b.s.tasks[t], trees[t], b.jobs[t]))
  }

  ghost predicate BusyOk(b: State, trees: seq<Tree>, owners: Owners) {
    FramesOk(b, trees, owners) && Seeking(b.s.ph, b.jobs)
  }

  ghost predicate Inv(b: State) {
    exists trees, owners :: BusyOk(b, trees, owners)
  }

  // ----- An idle task is a task as before

  lemma IdleIsTask(ph: Phys, owners: Owners, t: nat, mm: Mm, tr: Tree)
    requires JobOk(ph, owners, t, mm, tr, Idle)
    ensures TaskOk(ph, owners, t, mm, tr) && AlignedLog(mm)
  {
    hide Growing, Touched, OwnsExactly, AlignedLog;
    assert Pages(mm.Log()) + [] == Pages(mm.Log());
  }

  lemma TaskIsIdle(ph: Phys, owners: Owners, t: nat, mm: Mm, tr: Tree)
    requires TaskOk(ph, owners, t, mm, tr) && AlignedLog(mm)
    ensures JobOk(ph, owners, t, mm, tr, Idle)
  {
    hide Growing, Touched, OwnsExactly, AlignedLog;
    assert Pages(mm.Log()) + [] == Pages(mm.Log());
  }

  // ----- What other tasks do does not matter

  lemma GrowingFrame(ph: Phys, ph': Phys, mm: Mm, tr: Tree, leaves: seq<Leaf>)
    requires Growing(ph, mm, tr, leaves) && ph'.Valid()
    requires forall f: Frame :: f in tr.Values ==> ph'.mem[f] == ph.mem[f] && ph'.Marked(f)
    ensures Growing(ph', mm, tr, leaves)
  {
    hide Covered, Listing, Touched, Entry, Leaves;
    assert forall p <- tr :: tr[p] in tr.Values;
  }

  lemma CoreFrame(ph: Phys, owners: Owners, ph': Phys, owners': Owners, t: nat, mm: Mm, tr: Tree, extra: seq<Word>)
    requires Core(ph, owners, t, mm, tr, extra) && MarksOwned(ph', owners')
    requires Keeps(ph, owners, ph', owners', TableOf(t)) && SameFor(owners, owners', PageOf(t))
    ensures Core(ph', owners', t, mm, tr, extra)
  {
    hide Growing, Pages, AlignedLog;
    forall f: Frame | f in tr.Values ensures ph'.mem[f] == ph.mem[f] && ph'.Marked(f) {
      assert Owns(owners, f, TableOf(t));
    }
    if mm.pgd != 0 {
      GrowingFrame(ph, ph', mm, tr, Leaves(mm.Log()));
    }
    ExactlyFrame(owners, owners', PageOf(t), Pages(mm.Log()) + extra);
  }

  lemma InFlightOwned(ph: Phys, owners: Owners, t: nat, mm: Mm, tr: Tree, f: Frame)
    requires Core(ph, owners, t, mm, tr, [FrameAddr(f)])
    ensures Owns(owners, f, PageOf(t))
  {
    hide Growing, AlignedLog;
    var pas := Pages(mm.Log()) + [FrameAddr(f)];
    assert pas[|pas| - 1] == FrameAddr(f);
    FrameRoundTrip(f);
  }

  lemma JobFrame(ph: Phys, owners: Owners, ph': Phys, owners': Owners, t: nat, mm: Mm, tr: Tree, job: Job)
    requires JobOk(ph, owners, t, mm, tr, job) && MarksOwned(ph', owners')
    requires Keeps(ph, owners, ph', owners', TableOf(t)) && Keeps(ph, owners, ph', owners', PageOf(t))
    ensures JobOk(ph', owners', t, mm, tr, job)
  {
    hide Core, OnWay, Roomy;
    CoreFrame(ph, owners, ph', owners', t, mm, tr, InFlight(job));
    if (job.Mapping? || job.Loop? || job.Holding?) && job.p.page.Some? {
      InFlightOwned(ph, owners, t, mm, tr, job.p.page.value);
    }
  }

  // ----- Steps of the task itself

  /** The end of a step of task t: its own frames are in order, and all others untouched. */
  ghost predicate OwnStep(ph: Phys, owners: Owners, t: nat, r: Outcome<(Phys, Mm, Job)>, owners': Owners, tr': Tree) {
    && r.Ok?
    && TaskStep(ph, owners, r.value.0, owners', t)
    && JobOk(r.value.0, owners', t, r.value.1, tr', r.value.2)
  }

  lemma PutPage(ph: Phys, owners: Owners, t: nat, mm: Mm, tr: Tree, p: Place, f: Frame) returns (owners': Owners)
    requires JobOk(ph, owners, t, mm, tr, Holding(p, f)) && MarksOwned(ph, owners) && !ph.Marked(f) && p.page.None?
    ensures ph.Valid() && mm.Valid()
    ensures OwnStep(ph, owners, t, Put(ph, mm, p, f), owners', tr)
  {
    hide Growing, AlignedLog, OwnsExactly, Touched, Roomy, IndicesOf, Prefixes;
    owners' := owners[f := PageOf(t)];
    var ph' := Allocated(ph, f);
    assert f in ph.Free();
    FreshOwned(ph, owners, f, PageOf(t), ph', owners');
    assert Keeps(ph, owners, ph', owners', TableOf(t));
    assert Pages(mm.Log()) + [] == Pages(mm.Log());
    OwnsOneMore(owners, owners', PageOf(t), Pages(mm.Log()), f);
    assert OwnsTables(owners', t, tr);
    if mm.pgd != 0 {
      forall g: Frame | g in tr.Values ensures ph'.mem[g] == ph.mem[g] && ph'.Marked(g) {
        assert Owns(owners, g, TableOf(t));
      }
      GrowingFrame(ph, ph', mm, tr, Leaves(mm.Log()));
    }
  }

  lemma PutTop(ph: Phys, owners: Owners, t: nat, mm: Mm, tr: Tree, p: Place, f: Frame)
      returns (owners': Owners, tr': Tree)
    requires JobOk(ph, owners, t, mm, tr, Holding(p, f)) && MarksOwned(ph, owners) && !ph.Marked(f)
    requires p.page.Some? && p.level == 0
    ensures ph.Valid() && mm.Valid()
    ensures OwnStep(ph, owners, t, Put(ph, mm, p, f), owners', tr')
  {
    hide Growing, AlignedLog, OwnsExactly, Touched, IndicesOf, Prefixes, JobOk, TaskStep;
    JobParts(ph, owners, t, mm, tr, Holding(p, f));
    var g := p.page.value;
    owners', tr' := owners[f := TableOf(t)], map[Top := f];
    var ph' := Allocated(ph, f);
    assert f in ph.Free();
    FreshOwned(ph, owners, f, TableOf(t), ph', owners');
    InFlightOwned(ph, owners, t, mm, tr, g);
    TopOwners(ph, owners, t, f, ph', owners');
    FirstGrowing(ph, mm, f);
    FrameRoundTrip(f);
    var mm' := WithTop(mm, f);
    assert RecordTable(mm.(pgd := FrameAddr(f)), FrameAddr(f)) == Ok(mm');
    assert Leaves(mm'.Log()) == [];
    assert AlignedLog(mm') by { SameAligned(mm, mm'); }
    ExactlyFrame(owners, owners', PageOf(t), Pages(mm.Log()) + [FrameAddr(g)]);
    InPrefixes(p.Indices(), 0);
    assert tr'.Keys + Prefixes(p.Indices()) == tr.Keys + Prefixes(p.Indices());
    TopCore(ph', owners', t, mm', tr', f, [FrameAddr(g)]);
    assert JobOk(ph', owners', t, mm', tr', Mapping(p.(level := 1, table := FrameAddr(f)))) by {
      assert OnWay(mm', tr', Prefixes(p.Indices()));
      JobFrom(ph', owners', t, mm', tr', p.(level := 1, table := FrameAddr(f)));
    }
  }

  lemma JobParts(ph: Phys, owners: Owners, t: nat, mm: Mm, tr: Tree, job: Job)
    requires JobOk(ph, owners, t, mm, tr, job) && (job.Mapping? || job.Loop? || job.Holding?)
    ensures Core(ph, owners, t, mm, tr, InFlight(job)) && PlaceOk(ph, mm, tr, job.p)
    ensures !job.Mapping? ==> Missing(mm, tr, job.p)
  {
  }

  lemma JobFrom(ph: Phys, owners: Owners, t: nat, mm: Mm, tr: Tree, p: Place)
    requires p.page.Some? && Core(ph, owners, t, mm, tr, [FrameAddr(p.page.value)]) && PlaceOk(ph, mm, tr, p)
    ensures JobOk(ph, owners, t, mm, tr, Mapping(p))
  {
  }

  lemma SameAligned(mm: Mm, mm': Mm)
    requires AlignedLog(mm) && mm'.userCount == mm.userCount && mm'.userPages == mm.userPages
    ensures AlignedLog(mm')
  {
  }

  /** Task t gets its first table. */
  lemma TopOwners(ph: Phys, owners: Owners, t: nat, f: Frame, ph': Phys, owners': Owners)
    requires MarksOwned(ph, owners) && OwnsTables(owners, t, map[]) && f !in owners
    requires ph' == Allocated(ph, f) && owners' == owners[f := TableOf(t)] && MarksOwned(ph', owners')
    ensures TaskStep(ph, owners, ph', owners', t) && OwnsTables(owners', t, map[Top := f])
    ensures SameFor(owners, owners', PageOf(t))
  {
    var none: Tree := map[];
    assert none.Values == {};
    var tr: Tree := map[Top := f];
    assert tr[Top] == f && tr.Values == {f};
  }

  lemma TopCore(ph: Phys, owners: Owners, t: nat, mm: Mm, tr: Tree, f: Frame, extra: seq<Word>)
    requires Growing(ph, mm, tr, []) && mm.userCount == 0 && mm.pgd == FrameAddr(f) && tr == map[Top := f]
    requires AlignedLog(mm) && OwnsTables(owners, t, tr) && OwnsExactly(owners, PageOf(t), Pages(mm.Log()) + extra)
    ensures Core(ph, owners, t, mm, tr, extra)
  {
    FrameRoundTrip(f);
    assert Leaves(mm.Log()) == [];
  }

  lemma PutTable(ph: Phys, owners: Owners, t: nat, mm: Mm, tr: Tree, p: Place, f: Frame)
      returns (owners': Owners, tr': Tree)
    requires JobOk(ph, owners, t, mm, tr, Holding(p, f)) && MarksOwned(ph, owners) && !ph.Marked(f)
    requires p.page.Some? && p.level > 0
    ensures ph.Valid() && mm.Valid()
    ensures OwnStep(ph, owners, t, Put(ph, mm, p, f), owners', tr')
  {
    hide *;
    JobParts(ph, owners, t, mm, tr, Holding(p, f));
    assert PlaceOk(ph, mm, tr, p) && Missing(mm, tr, p);
    var extra := InFlight(Holding(p, f));
    CoreParts(ph, owners, t, mm, tr, extra);
    AboveThere(ph, mm, tr, p);
    TableRoom(ph, mm, tr, p);
    var ix := p.Indices();
    var above, q, i := PathOf(ix, p.level - 1), PathOf(ix, p.level), ix.At(p.level - 1);
    FreshTable(ph, mm, tr, Leaves(mm.Log()), above, i, f);
    var ph', mm' := Linked(ph, tr[above], i, f), WithTable(mm, FrameAddr(f));
    PutIsLinked(ph, mm, p, tr[above], f);
    tr' := tr[q := f];
    owners' := TableOwners(ph, owners, t, tr, ph', q, f);
    NewTable(ph, owners, t, mm, tr, p, f, ph', owners', mm', tr');
    assert Put(ph, mm, p, f) == Ok((ph', mm', Mapping(p.(level := p.level + 1, table := FrameAddr(f)))));
    StepFrom(ph, owners, t, Put(ph, mm, p, f), owners', tr');
  }

  lemma StepFrom(ph: Phys, owners: Owners, t: nat, r: Outcome<(Phys, Mm, Job)>, owners': Owners, tr': Tree)
    requires r.Ok? && TaskStep(ph, owners, r.value.0, owners', t)
    requires JobOk(r.value.0, owners', t, r.value.1, tr', r.value.2)
    ensures OwnStep(ph, owners, t, r, owners', tr')
  {
  }

  /** The table above the one that is missing. */
  lemma AboveThere(ph: Phys, mm: Mm, tr: Tree, p: Place)
    requires PlaceOk(ph, mm, tr, p) && Missing(mm, tr, p) && p.page.Some? && p.level > 0
    ensures mm.pgd != 0 && p.level <= 3
    ensures PathOf(p.Indices(), p.level - 1) in tr && p.table == FrameAddr(tr[PathOf(p.Indices(), p.level - 1)])
    ensures PathOf(p.Indices(), p.level) == Sub(PathOf(p.Indices(), p.level - 1), p.Indices().At(p.level - 1))
    ensures PathOf(p.Indices(), p.level) !in tr
  {
  }

  /** The owners after task t took frame f for the table at q. */
  lemma TableOwners(ph: Phys, owners: Owners, t: nat, tr: Tree, ph': Phys, q: Path, f: Frame) returns (owners': Owners)
    requires MarksOwned(ph, owners) && OwnsTables(owners, t, tr) && Extends(ph, ph', tr.Values, {f})
    requires q !in tr && f !in tr.Values
    ensures TaskStep(ph, owners, ph', owners', t) && OwnsTables(owners', t, tr[q := f])
    ensures SameFor(owners, owners', PageOf(t))
  {
    hide MarksOwned, OwnsTables, Extends, TaskStep, SameFor, Grown;
    var tr' := tr[q := f];
    ValuesGrow(tr, q, f);
    GrownByOne(ph, tr.Values, ph', f);
    GrownOwners(ph, owners, tr, ph', tr', t);
    owners' := WithTables(owners, tr'.Values - tr.Values, t);
  }

  /** A task with one table more is one level further down. */
  lemma NewTable(ph: Phys, owners: Owners, t: nat, mm: Mm, tr: Tree, p: Place, f: Frame,
                 ph': Phys, owners': Owners, mm': Mm, tr': Tree)
    requires Core(ph, owners, t, mm, tr, InFlight(Holding(p, f))) && PlaceOk(ph, mm, tr, p) && Missing(mm, tr, p)
    requires p.page.Some? && 0 < p.level <= 3 && mm.kernelCount + 1 < MAX_PROCESS_PAGES && mm.Valid()
    requires mm' == WithTable(mm, FrameAddr(f)) && tr' == tr[PathOf(p.Indices(), p.level) := f]
    requires Growing(ph', mm', tr', Leaves(mm.Log())) && TaskStep(ph, owners, ph', owners', t)
    requires OwnsTables(owners', t, tr') && SameFor(owners, owners', PageOf(t))
    ensures JobOk(ph', owners', t, mm', tr', Mapping(p.(level := p.level + 1, table := FrameAddr(f))))
  {
    hide Growing, AlignedLog, OwnsExactly, Touched, IndicesOf, Prefixes, JobOk, TaskStep, OwnsTables, Core;
    var g, ix := p.page.value, p.Indices();
    CoreParts(ph, owners, t, mm, tr, [FrameAddr(g)]);
    InFlightOwned(ph, owners, t, mm, tr, g);
    ExactlyFrame(owners, owners', PageOf(t), Pages(mm.Log()) + [FrameAddr(g)]);
    assert AlignedLog(mm') by { SameAligned(mm, mm'); }
    PageKept(ph, owners, ph', owners', t, g);
    InPrefixes(ix, p.level);
    assert tr'.Keys + Prefixes(ix) == tr.Keys + Prefixes(ix);
    GrowingCore(ph', owners', t, mm', tr', [FrameAddr(g)]);
    PgdSet(ph', mm', tr', Leaves(mm.Log()));
    JobFrom(ph', owners', t, mm', tr', p.(level := p.level + 1, table := FrameAddr(f)));
  }

  lemma CoreParts(ph: Phys, owners: Owners, t: nat, mm: Mm, tr: Tree, extra: seq<Word>)
    requires Core(ph, owners, t, mm, tr, extra)
    ensures ph.Valid() && mm.Valid() && AlignedLog(mm)
    ensures mm.pgd != 0 ==> Growing(ph, mm, tr, Leaves(mm.Log()))
    ensures mm.pgd == 0 ==> tr == map[] && mm.userCount == 0 && mm.kernelCount == 0
    ensures forall k :: 0 <= k < mm.userCount ==> IsFrame(mm.userPages[k].physAddr)
    ensures OwnsTables(owners, t, tr) && OwnsExactly(owners, PageOf(t), Pages(mm.Log()) + extra)
  {
  }

  lemma GrowingCore(ph: Phys, owners: Owners, t: nat, mm: Mm, tr: Tree, extra: seq<Word>)
    requires Growing(ph, mm, tr, Leaves(mm.Log())) && AlignedLog(mm)
    requires forall k :: 0 <= k < mm.userCount && k < |mm.userPages| ==> IsFrame(mm.userPages[k].physAddr)
    requires OwnsTables(owners, t, tr) && OwnsExactly(owners, PageOf(t), Pages(mm.Log()) + extra)
    ensures Core(ph, owners, t, mm, tr, extra)
  {
    FrameRoundTrip(tr[Top]);
  }

  /** A table that is missing has room in kernel_pages, and the table above is there. */
  lemma TableRoom(ph: Phys, mm: Mm, tr: Tree, p: Place)
    requires PlaceOk(ph, mm, tr, p) && Missing(mm, tr, p) && p.page.Some? && p.level > 0
    requires Growing(ph, mm, tr, Leaves(mm.Log()))
    ensures mm.Valid() && mm.kernelCount + 1 < MAX_PROCESS_PAGES
    ensures p.Indices().At(p.level - 1) < PTRS_PER_TABLE
    ensures TableIndex(p.va, 48 - 9 * p.level) == p.Indices().At(p.level - 1)
    ensures PathOf(p.Indices(), p.level - 1).Level() < 3
  {
    hide TableIndex, IndicesOf, Entries, Covered, Listing, Touched, OnWay, Prefixes, Shape;
    IndexAt(p);
    InPrefixes(p.Indices(), p.level);
    OneMoreKey(tr, Prefixes(p.Indices()), PathOf(p.Indices(), p.level));
  }

  lemma OneMoreKey(tr: Tree, more: set<Path>, q: Path)
    requires q in more && q !in tr
    ensures |tr| + 1 <= |tr.Keys + more|
  {
    assert tr.Keys + {q} <= tr.Keys + more;
    SubsetSize(tr.Keys + {q}, tr.Keys + more);
    assert |tr.Keys| == |tr|;
  }

  lemma PutIsLinked(ph: Phys, mm: Mm, p: Place, above: Frame, f: Frame)
    requires ph.Valid() && mm.Valid() && p.page.Some? && 0 < p.level <= 3 && p.table == FrameAddr(above)
    requires mm.kernelCount + 1 < MAX_PROCESS_PAGES
    ensures TableIndex(p.va, 48 - 9 * p.level) < PTRS_PER_TABLE
    ensures Put(ph, mm, p, f) ==
      Ok((Linked(ph, above, TableIndex(p.va, 48 - 9 * p.level), f), WithTable(mm, FrameAddr(f)),
          Mapping(p.(level := p.level + 1, table := FrameAddr(f)))))
  {
    FrameRoundTrip(above);
  }

  lemma GrownByOne(ph: Phys, mine: set<Frame>, ph': Phys, f: Frame)
    requires Extends(ph, ph', mine, {f}) && f !in mine
    ensures Grown(ph, mine, ph', mine + {f})
  {
    assert (mine + {f}) - mine == {f};
  }

  lemma PageKept(ph: Phys, owners: Owners, ph': Phys, owners': Owners, t: nat, g: Frame)
    requires TaskStep(ph, owners, ph', owners', t) && Owns(owners, g, PageOf(t))
    ensures |ph'.mem| == PAGING_PAGES == |ph.mem| && ph'.mem[g] == ph.mem[g]
  {
  }

  /** Any frame goes where it belongs. */
  lemma PutOk(ph: Phys, owners: Owners, t: nat, mm: Mm, tr: Tree, p: Place, f: Frame)
      returns (owners': Owners, tr': Tree)
    requires JobOk(ph, owners, t, mm, tr, Holding(p, f)) && MarksOwned(ph, owners) && !ph.Marked(f)
    ensures ph.Valid() && mm.Valid()
    ensures OwnStep(ph, owners, t, Put(ph, mm, p, f), owners', tr')
  {
    hide JobOk, OwnStep, Put, MarksOwned;
    if p.page.None? {
      tr' := tr;
      owners' := PutPage(ph, owners, t, mm, tr, p, f);
    } else if p.level == 0 {
      owners', tr' := PutTop(ph, owners, t, mm, tr, p, f);
    } else {
      owners', tr' := PutTable(ph, owners, t, mm, tr, p, f);
    }
  }

  /** map_page goes on at the top table. */
  lemma WalkTop(ph: Phys, owners: Owners, t: nat, mm: Mm, tr: Tree, p: Place)
    requires JobOk(ph, owners, t, mm, tr, Mapping(p)) && MarksOwned(ph, owners) && p.level == 0
    ensures p.page.Some? && ph.Valid() && mm.Valid()
    ensures OwnStep(ph, owners, t, Walked(ph, mm, p), owners, tr)
  {
    hide AlignedLog, OwnsExactly, Touched, IndicesOf, Prefixes, TaskStep, OwnsTables, Entries, Covered, Listing;
    M.NoStep(ph, owners, t);
  }

  /** map_page looks up the table of the next level. */
  lemma WalkLevel(ph: Phys, owners: Owners, t: nat, mm: Mm, tr: Tree, p: Place)
    requires JobOk(ph, owners, t, mm, tr, Mapping(p)) && MarksOwned(ph, owners) && 0 < p.level <= 3
    ensures p.page.Some? && ph.Valid() && mm.Valid()
    ensures OwnStep(ph, owners, t, Walked(ph, mm, p), owners, tr)
  {
    hide *;
    JobParts(ph, owners, t, mm, tr, Mapping(p));
    InMapping(ph, owners, t, mm, tr, p);
    CoreParts(ph, owners, t, mm, tr, InFlight(Mapping(p)));
    PlaceParts(ph, mm, tr, p);
    var ix := p.Indices();
    var above, q, i := PathOf(ix, p.level - 1), PathOf(ix, p.level), ix.At(p.level - 1);
    IndexAt(p);
    EntryThere(ph, mm, tr, above, i);
    WalkedStep(ph, mm, p, tr[above]);
    M.NoStep(ph, owners, t);
    if q in tr {
      MaskedTable(tr[q]);
      assert PlaceOk(ph, mm, tr, p.(level := p.level + 1, table := FrameAddr(tr[q]))) by {
        PlaceDown(ph, mm, tr, p);
      }
      JobFrom(ph, owners, t, mm, tr, p.(level := p.level + 1, table := FrameAddr(tr[q])));
    } else {
      LoopFrom(ph, owners, t, mm, tr, p);
    }
    StepFrom(ph, owners, t, Walked(ph, mm, p), owners, tr);
  }

  lemma InMapping(ph: Phys, owners: Owners, t: nat, mm: Mm, tr: Tree, p: Place)
    requires JobOk(ph, owners, t, mm, tr, Mapping(p))
    ensures p.page.Some? && InFlight(Mapping(p)) == [FrameAddr(p.page.value)]
  {
  }

  lemma PlaceParts(ph: Phys, mm: Mm, tr: Tree, p: Place)
    requires PlaceOk(ph, mm, tr, p) && p.page.Some? && p.level > 0
    ensures mm.pgd != 0 && p.level <= 4 && PathOf(p.Indices(), p.level - 1) in tr
    ensures p.table == FrameAddr(tr[PathOf(p.Indices(), p.level - 1)])
    ensures p.level <= 3 ==>
      PathOf(p.Indices(), p.level) == Sub(PathOf(p.Indices(), p.level - 1), p.Indices().At(p.level - 1))
    ensures PathOf(p.Indices(), p.level - 1).Level() == p.level - 1
  {
  }

  lemma IndexAt(p: Place)
    requires 0 < p.level <= 4
    ensures TableIndex(p.va, 48 - 9 * p.level) == p.Indices().At(p.level - 1) < PTRS_PER_TABLE
  {
    hide TableIndex, IndicesOf;
    IndicesMatch(p.va);
    assert TableIndex(p.va, 39 - 9 * (p.level - 1)) == p.Indices().At(p.level - 1);
  }

  lemma EntryThere(ph: Phys, mm: Mm, tr: Tree, above: Path, i: nat)
    requires Growing(ph, mm, tr, Leaves(mm.Log())) && above in tr && above.Level() < 3 && i < PTRS_PER_TABLE
    ensures ph.Valid() && ph.mem[tr[above]][i] ==
      if Sub(above, i) in tr then Descriptor(FrameAddr(tr[Sub(above, i)]), MM_TYPE_PAGE_TABLE) else 0
  {
    hide Covered, Listing, Leaves;
    assert ph.mem[tr[above]][i] == Entry(tr, Leaves(mm.Log()), above, i);
  }

  lemma WalkedStep(ph: Phys, mm: Mm, p: Place, above: Frame)
    requires ph.Valid() && mm.Valid() && p.page.Some? && 0 < p.level <= 3 && p.table == FrameAddr(above)
    requires TableIndex(p.va, 48 - 9 * p.level) < PTRS_PER_TABLE
    ensures var entry := ph.mem[above][TableIndex(p.va, 48 - 9 * p.level)];
      Walked(ph, mm, p) ==
        Ok((ph, mm, if entry == 0 then Loop(p, 0) else Mapping(p.(level := p.level + 1, table := MaskPage(entry)))))
  {
    FrameRoundTrip(above);
  }

  lemma MaskedTable(f: Frame)
    ensures Descriptor(FrameAddr(f), MM_TYPE_PAGE_TABLE) != 0
    ensures MaskPage(Descriptor(FrameAddr(f), MM_TYPE_PAGE_TABLE)) == FrameAddr(f)
  {
    FrameRoundTrip(f);
  }

  lemma PlaceDown(ph: Phys, mm: Mm, tr: Tree, p: Place)
    requires PlaceOk(ph, mm, tr, p) && p.page.Some? && 0 < p.level <= 3 && PathOf(p.Indices(), p.level) in tr
    ensures PlaceOk(ph, mm, tr, p.(level := p.level + 1, table := FrameAddr(tr[PathOf(p.Indices(), p.level)])))
  {
    hide OnWay, Roomy;
  }

  lemma LoopFrom(ph: Phys, owners: Owners, t: nat, mm: Mm, tr: Tree, p: Place)
    requires p.page.Some? && Core(ph, owners, t, mm, tr, [FrameAddr(p.page.value)]) && PlaceOk(ph, mm, tr, p)
    requires 0 < p.level <= 3 && PathOf(p.Indices(), p.level) !in tr
    ensures JobOk(ph, owners, t, mm, tr, Loop(p, 0))
  {
    hide Core, PlaceOk;
  }

  /** The page's own entry, and the record of the mapping. */
  lemma WalkLeaf(ph: Phys, owners: Owners, t: nat, mm: Mm, tr: Tree, p: Place)
    requires JobOk(ph, owners, t, mm, tr, Mapping(p)) && MarksOwned(ph, owners) && p.level > 3
    ensures p.page.Some? && ph.Valid() && mm.Valid()
    ensures OwnStep(ph, owners, t, Walked(ph, mm, p), owners, tr)
    ensures MappedAs(mm, p, Walked(ph, mm, p))
  {
    hide *;
    JobParts(ph, owners, t, mm, tr, Mapping(p));
    InMapping(ph, owners, t, mm, tr, p);
    CoreParts(ph, owners, t, mm, tr, InFlight(Mapping(p)));
    var ph', mm' := LastEntry(ph, mm, tr, p);
    LastStep(ph, owners, t, mm, tr, p, ph', mm');
    StepFrom(ph, owners, t, Walked(ph, mm, p), owners, tr);
    MappedFrom(mm, p, ph', mm');
  }

  lemma LastEntry(ph: Phys, mm: Mm, tr: Tree, p: Place) returns (ph': Phys, mm': Mm)
    requires PlaceOk(ph, mm, tr, p) && p.page.Some? && p.level > 3 && ph.Valid() && mm.Valid()
    requires mm.pgd != 0 ==> Growing(ph, mm, tr, Leaves(mm.Log()))
    ensures mm.userCount < MAX_PROCESS_PAGES && PathOf(p.Indices(), 3) in tr && p.Indices().i3 < PTRS_PER_TABLE
    ensures ph' == LeafStored(ph, tr[PathOf(p.Indices(), 3)], p.Indices().i3, FrameAddr(p.page.value))
    ensures mm' == WithMapping(mm, FrameAddr(p.page.value), p.va)
    ensures Growing(ph', mm', tr, Leaves(mm.Log()) + [Leaf(p.Indices(), FrameAddr(p.page.value))])
    ensures Walked(ph, mm, p) == Ok((ph', mm', Idle))
  {
    hide *;
    PlaceParts(ph, mm, tr, p);
    IndexAt(p);
    LastIndex(p);
    RoomForPage(ph, mm, tr, p);
    var ix, leaves := p.Indices(), Leaves(mm.Log());
    var last, page := tr[PathOf(ix, 3)], FrameAddr(p.page.value);
    SetPageResult(ph, mm, last, ix.i3, p.va, page);
    LeafGrows(ph, mm, tr, leaves, ix, page);
    ph', mm' := LeafStored(ph, last, ix.i3, page), WithMapping(mm, page, p.va);
    WalkedLast(ph, mm, p, ph', mm');
    RecordsKept(ph', mm, tr, leaves + [Leaf(ix, page)], page, p.va);
  }

  /** The fault is over, and its mapping, of a zeroed page, the newest. */
  ghost predicate MappedAs(mm: Mm, p: Place, r: Outcome<(Phys, Mm, Job)>) {
    && p.page.Some? && r.Ok? && r.value.2 == Idle
    && r.value.1.Log() == mm.Log() + [UserPage(FrameAddr(p.page.value), p.va)]
    && |r.value.0.mem| == PAGING_PAGES && r.value.0.mem[p.page.value] == ZeroPage()
  }

  lemma MappedFrom(mm: Mm, p: Place, ph': Phys, mm': Mm)
    requires p.page.Some? && mm'.Log() == mm.Log() + [UserPage(FrameAddr(p.page.value), p.va)]
    requires ph'.Valid() && ph'.mem[p.page.value] == ZeroPage()
    ensures MappedAs(mm, p, Ok((ph', mm', Idle)))
  {
  }

  lemma LastIndex(p: Place)
    requires p.level == 4
    ensures p.Indices().At(p.level - 1) == p.Indices().i3 && TableIndex(p.va, 12) == TableIndex(p.va, 48 - 9 * p.level)
  {
  }

  lemma RoomForPage(ph: Phys, mm: Mm, tr: Tree, p: Place)
    requires PlaceOk(ph, mm, tr, p) && p.page.Some?
    ensures mm.userCount < MAX_PROCESS_PAGES && p.va % PAGE_SIZE == 0 && OnWay(mm, tr, Prefixes(p.Indices()))
    ensures p.page.value < |ph.mem| && ph.mem[p.page.value] == ZeroPage()
  {
    hide OnWay;
  }

  lemma WalkedLast(ph: Phys, mm: Mm, p: Place, ph': Phys, mm': Mm)
    requires ph.Valid() && mm.Valid() && p.page.Some? && p.level > 3
    requires SetPage(ph, mm, p.table, p.va, FrameAddr(p.page.value)) == Ok((ph', mm'))
    ensures Walked(ph, mm, p) == Ok((ph', mm', Idle))
  {
    hide SetPage;
  }

  lemma LastStep(ph: Phys, owners: Owners, t: nat, mm: Mm, tr: Tree, p: Place, ph': Phys, mm': Mm)
    requires Core(ph, owners, t, mm, tr, InFlight(Mapping(p))) && PlaceOk(ph, mm, tr, p) && MarksOwned(ph, owners)
    requires p.page.Some? && p.level > 3 && mm.userCount < MAX_PROCESS_PAGES && PathOf(p.Indices(), 3) in tr
    requires p.Indices().i3 < PTRS_PER_TABLE && ph.Valid() && mm.Valid()
    requires ph' == LeafStored(ph, tr[PathOf(p.Indices(), 3)], p.Indices().i3, FrameAddr(p.page.value))
    requires mm' == WithMapping(mm, FrameAddr(p.page.value), p.va)
    requires Growing(ph', mm', tr, Leaves(mm.Log()) + [Leaf(p.Indices(), FrameAddr(p.page.value))])
    ensures TaskStep(ph, owners, ph', owners, t) && JobOk(ph', owners, t, mm', tr, Idle)
    ensures mm'.Log() == mm.Log() + [UserPage(FrameAddr(p.page.value), p.va)]
    ensures ph'.mem[p.page.value] == ZeroPage()
  {
    hide Growing, AlignedLog, OwnsExactly, Touched, IndicesOf, Prefixes, Core, Leaves, LeafStored;
    var g, page := p.page.value, FrameAddr(p.page.value);
    CoreParts(ph, owners, t, mm, tr, [page]);
    InFlightOwned(ph, owners, t, mm, tr, g);
    LogGrows(mm, mm', page, p.va);
    assert Owns(owners, tr[PathOf(p.Indices(), 3)], TableOf(t)) by {
      assert tr[PathOf(p.Indices(), 3)] in tr.Values;
    }
    FrameRoundTrip(g);
    M.AlignedMore(mm, mm', p.va, page);
    PagesGrow(mm.Log(), UserPage(page, p.va));
    assert Pages(mm'.Log()) + [] == Pages(mm.Log()) + [page];
    FramesStay(mm, mm', page, p.va);
    AllOnWay(mm, mm', tr, p);
    GrowingCore(ph', owners, t, mm', tr, []);
  }

  lemma AllOnWay(mm: Mm, mm': Mm, tr: Tree, p: Place)
    requires p.page.Some? && OnWay(mm, tr, Prefixes(p.Indices()))
    requires Leaves(mm'.Log()) == Leaves(mm.Log()) + [Leaf(p.Indices(), FrameAddr(p.page.value))]
    ensures OnWay(mm', tr, {})
  {
    hide Touched, Prefixes, Leaves, IndicesOf;
    var leaf := Leaf(p.Indices(), FrameAddr(p.page.value));
    forall q <- tr ensures Touched(Leaves(mm'.Log()), q) {
      if Touched(Leaves(mm.Log()), q) {
        TouchedStays(Leaves(mm.Log()), leaf, q);
      } else {
        PrefixTouched(Leaves(mm.Log()), leaf, q);
      }
    }
  }

  /** Every step of map_page keeps the task in order. */
  lemma WalkOk(ph: Phys, owners: Owners, t: nat, mm: Mm, tr: Tree, p: Place)
    requires JobOk(ph, owners, t, mm, tr, Mapping(p)) && MarksOwned(ph, owners)
    ensures p.page.Some? && ph.Valid() && mm.Valid()
    ensures OwnStep(ph, owners, t, Walked(ph, mm, p), owners, tr)
  {
    hide JobOk, OwnStep, Walked, MarksOwned;
    if p.level == 0 {
      WalkTop(ph, owners, t, mm, tr, p);
    } else if p.level <= 3 {
      WalkLevel(ph, owners, t, mm, tr, p);
    } else {
      WalkLeaf(ph, owners, t, mm, tr, p);
    }
  }
}
