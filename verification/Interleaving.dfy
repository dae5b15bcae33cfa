/** Page faults, forks and stores of several tasks interleaved statement by statement: memory stays
    consistent and every task keeps seeing its own pages, as long as no task finds or takes a frame
    that another has found free and not yet marked. */
module Interleaving {
  import opened Common
  import opened PageTables
  import opened PageTree
  import opened MapPageProof
  import opened PageWalk
  import opened TaskMemory
  import opened ForkIsolation
  import opened PageFaults

  // ----- What a task sees

  /** In the middle of a fault, too, the walk of every address finds the last recorded mapping. */
  lemma CoreTranslates(ph: Phys, owners: Owners, t: nat, mm: Mm, tr: Tree, extra: seq<Word>, va: Word)
    requires Core(ph, owners, t, mm, tr, extra)
    ensures ph.Valid() && Translate(ph, mm, va) == Result(LastMapping(mm.Log(), va))
  {
    hide Walk, IndicesOf, LastMapping, LastAt, Leaves, Growing, OwnsExactly, OwnsTables, AlignedLog;
    CoreParts(ph, owners, t, mm, tr, extra);
    var ix, leaves := IndicesOf(va), Leaves(mm.Log());
    LastMappingIsLastAt(mm.Log(), va);
    IndicesAt(va);
    if mm.pgd == 0 {
      NothingMapped(ph, mm, va);
    } else {
      assert FramesOnly(leaves);
      TopThere(ph, mm, tr, leaves, ix);
      WalkBelow(ph, mm, tr, leaves, ix, va, 0);
    }
  }

  lemma TopThere(ph: Phys, mm: Mm, tr: Tree, leaves: seq<Leaf>, ix: Indices)
    requires Growing(ph, mm, tr, leaves)
    ensures PathOf(ix, 0) in tr && mm.pgd == FrameAddr(tr[PathOf(ix, 0)])
  {
  }

  /** The task sees its own page of the last mapping, or nothing. */
  ghost predicate SeesLogged(ph: Phys, owners: Owners, t: nat, mm: Mm, va: Word) {
    && ph.Valid()
    && match LastMapping(mm.Log(), va)
       case None => Sees(ph, mm, va) == None
       case Some(pa) =>
         IsFrame(pa) && Owns(owners, FrameOf(pa), PageOf(t)) && Sees(ph, mm, va) == Some(ph.mem[FrameOf(pa)])
  }

  lemma CoreSees(ph: Phys, owners: Owners, t: nat, mm: Mm, tr: Tree, extra: seq<Word>, va: Word)
    requires Core(ph, owners, t, mm, tr, extra)
    ensures SeesLogged(ph, owners, t, mm, va)
  {
    hide Core, LastMapping, Translate;
    CoreParts(ph, owners, t, mm, tr, extra);
    CoreTranslates(ph, owners, t, mm, tr, extra, va);
    LoggedOwned(owners, t, mm.Log(), extra, va);
  }

  lemma LoggedOwned(owners: Owners, t: nat, log: seq<UserPage>, extra: seq<Word>, va: Word)
    requires OwnsExactly(owners, PageOf(t), Pages(log) + extra)
    ensures LastMapping(log, va).Some? ==>
      IsFrame(LastMapping(log, va).value) && Owns(owners, FrameOf(LastMapping(log, va).value), PageOf(t))
  {
    hide LastMapping;
    MappedIsLogged(log, va);
    if LastMapping(log, va).Some? {
      var j :| 0 <= j < |log| && log[j].physAddr == LastMapping(log, va).value;
      assert (Pages(log) + extra)[j] == LastMapping(log, va).value;
    }
  }

  /** The task's pages keep their contents. */
  ghost predicate PagesKept(ph: Phys, ph': Phys, owners: Owners, t: nat) {
    |ph.mem| == |ph'.mem| == PAGING_PAGES && forall f: Frame :: Owns(owners, f, PageOf(t)) ==> ph'.mem[f] == ph.mem[f]
  }

  /** With the same log and the same pages, a task sees what it saw. */
  lemma SameView(ph: Phys, owners: Owners, t: nat, mm: Mm, tr: Tree, job: Job,
                 ph': Phys, owners': Owners, mm': Mm, tr': Tree, job': Job, va: Word)
    requires JobOk(ph, owners, t, mm, tr, job) && JobOk(ph', owners', t, mm', tr', job')
    requires mm'.Log() == mm.Log() && PagesKept(ph, ph', owners, t)
    ensures ph.Valid() && ph'.Valid() && Sees(ph', mm', va) == Sees(ph, mm, va)
  {
    hide Core, Sees, LastMapping, PlaceOk;
    CoreSees(ph, owners, t, mm, tr, InFlight(job), va);
    CoreSees(ph', owners', t, mm', tr', InFlight(job'), va);
  }

  // ----- One task takes a step, the others stand still

  lemma StepKeepsPages(ph: Phys, owners: Owners, ph': Phys, owners': Owners, t: nat, u: nat)
    requires MarksOwned(ph, owners) && TaskStep(ph, owners, ph', owners', t)
    ensures PagesKept(ph, ph', owners, u)
    ensures u != t ==> Keeps(ph, owners, ph', owners', TableOf(u)) && Keeps(ph, owners, ph', owners', PageOf(u))
    ensures Keeps(ph, owners, ph', owners', Kernel)
    ensures MarksOwned(ph', owners') && forall f: Frame :: ph.Marked(f) ==> ph'.Marked(f)
  {
  }

  lemma Others(b: State, trees: seq<Tree>, owners: Owners, t: nat, ph': Phys, owners': Owners)
    requires FramesOk(b, trees, owners) && TaskStep(b.s.ph, owners, ph', owners', t)
    ensures OwnsExactly(owners', Kernel, b.s.kernel)
    ensures forall u :: 0 <= u < |b.jobs| && u != t ==> JobOk(ph', owners', u, b.s.tasks[u], trees[u], b.jobs[u])
    ensures b.s.ph.Valid() && ph'.Valid()
    ensures forall u, va: Word :: 0 <= u < |b.jobs| && u != t ==>
      Sees(ph', b.s.tasks[u], va) == Sees(b.s.ph, b.s.tasks[u], va)
  {
    hide JobOk, TaskStep, OwnsExactly, Keeps, Sees, PagesKept, SameFor;
    StepKeepsPages(b.s.ph, owners, ph', owners', t, t);
    KeepsSame(b.s.ph, owners, ph', owners', Kernel);
    ExactlyFrame(owners, owners', Kernel, b.s.kernel);
    forall u | 0 <= u < |b.jobs| && u != t
      ensures JobOk(ph', owners', u, b.s.tasks[u], trees[u], b.jobs[u])
      ensures forall va: Word :: Sees(ph', b.s.tasks[u], va) == Sees(b.s.ph, b.s.tasks[u], va)
    {
      StepKeepsPages(b.s.ph, owners, ph', owners', t, u);
      JobFrame(b.s.ph, owners, ph', owners', u, b.s.tasks[u], trees[u], b.jobs[u]);
      forall va: Word ensures Sees(ph', b.s.tasks[u], va) == Sees(b.s.ph, b.s.tasks[u], va) {
        SameView(b.s.ph, owners, u, b.s.tasks[u], trees[u], b.jobs[u],
                 ph', owners', b.s.tasks[u], trees[u], b.jobs[u], va);
      }
    }
  }

  /** A task goes back among the others after a step of its own. */
  lemma StepBack(b: State, trees: seq<Tree>, owners: Owners, t: nat, r: Outcome<(Phys, Mm, Job)>,
                 owners': Owners, tr': Tree)
    requires FramesOk(b, trees, owners) && t < |b.jobs| && OwnStep(b.s.ph, owners, t, r, owners', tr')
    ensures FramesOk(After(b, t, r), trees[t := tr'], owners')
    ensures b.s.ph.Valid() && r.value.0.Valid() && M.Undisturbed(b.s, After(b, t, r).s, t)
    ensures forall f: Frame :: b.s.ph.Marked(f) ==> r.value.0.Marked(f)
  {
    hide JobOk, TaskStep, OwnsExactly, Sees;
    Others(b, trees, owners, t, r.value.0, owners');
    StepKeepsPages(b.s.ph, owners, r.value.0, owners', t, t);
    M.StepOwnersOf(b.s.ph, owners, r.value.0, owners', t, |b.jobs|);
  }

  lemma OwnView(ph: Phys, owners: Owners, t: nat, mm: Mm, tr: Tree, job: Job,
                r: Outcome<(Phys, Mm, Job)>, owners': Owners, tr': Tree)
    requires JobOk(ph, owners, t, mm, tr, job) && MarksOwned(ph, owners) && OwnStep(ph, owners, t, r, owners', tr')
    requires r.value.1.Log() == mm.Log()
    ensures ph.Valid() && r.value.0.Valid()
    ensures forall va: Word :: Sees(r.value.0, r.value.1, va) == Sees(ph, mm, va)
  {
    hide JobOk, Sees, TaskStep, PagesKept;
    StepKeepsPages(ph, owners, r.value.0, owners', t, t);
    assert ph.Valid() && r.value.0.Valid();
    forall va: Word ensures Sees(r.value.0, r.value.1, va) == Sees(ph, mm, va) {
      SameView(ph, owners, t, mm, tr, job, r.value.0, owners', r.value.1, tr', r.value.2, va);
    }
  }

  // ----- The loops of get_free_page

  lemma SeekingStep(ph: Phys, jobs: seq<Job>, t: nat, ph': Phys, job': Job)
    requires Seeking(ph, jobs) && t < |jobs| && forall f: Frame :: ph.Marked(f) ==> ph'.Marked(f)
    requires forall u :: 0 <= u < |jobs| && u != t && jobs[u].Holding? ==> !ph'.Marked(jobs[u].f)
    requires job'.Loop? ==> job'.i <= PAGING_PAGES && forall j :: 0 <= j < job'.i ==> ph'.Marked(j)
    requires job'.Holding? ==> !ph'.Marked(job'.f) && forall u ::
      0 <= u < |jobs| && u != t && jobs[u].Holding? ==> jobs[u].f != job'.f
    ensures Seeking(ph', jobs[t := job'])
  {
    forall u, j | 0 <= u < |jobs| && u != t && jobs[u].Loop? && 0 <= j < jobs[u].i ensures ph'.Marked(j) {
      var f: Frame := j;
      assert ph.Marked(f);
    }
  }

  // ----- Acts that change only the task itself

  /** The outcome of an act for the task that takes it. */
  ghost function OwnOutcome(b: State, t: nat, a: Act): Outcome<(Phys, Mm, Job)>
    requires Enabled(b, t, a) && (a.Abort? || a == Test || a == Mark || a == Descend)
  {
    var ph, mm, job := b.s.ph, b.s.tasks[t], b.jobs[t];
    if a == Mark then Put(ph, mm, job.p, job.f)
    else if a == Descend then Walked(ph, mm, job.p)
    else Ok((ph, mm, Next(b, t, a).jobs[t]))
  }

  lemma NextIsAfter(b: State, t: nat, a: Act)
    requires Enabled(b, t, a) && (a.Abort? || a == Test || a == Mark || a == Descend)
    ensures Next(b, t, a) == After(b, t, OwnOutcome(b, t, a))
  {
    hide Put, Walked, SlotsFor;
    assert b.s.tasks[t := b.s.tasks[t]] == b.s.tasks;
  }

  /** A fault that comes in has room. */
  lemma AbortOk(ph: Phys, owners: Owners, t: nat, mm: Mm, tr: Tree, va: Word)
    requires JobOk(ph, owners, t, mm, tr, Idle) && va % PAGE_SIZE == 0 && SlotsFor(mm, va)
    ensures JobOk(ph, owners, t, mm, tr, Loop(Place(va, None, 0, 0), 0))
  {
    hide *;
    IdleIsTask(ph, owners, t, mm, tr);
    TaskParts(ph, owners, t, mm, tr);
    TreeIsTables(ph, mm, tr);
    LastTables(mm.Log(), va);
    HasRoom(mm, tr, va);
    FirstPlace(ph, owners, t, mm, tr, va);
  }

  lemma HasRoom(mm: Mm, tr: Tree, va: Word)
    requires SlotsFor(mm, va) && tr.Keys == TablesOf(mm.Log())
    requires TablesOf(mm.Log() + [UserPage(0, va)]) == TablesOf(mm.Log()) + Prefixes(IndicesOf(va))
    ensures Roomy(mm, tr, IndicesOf(va))
  {
  }

  lemma FirstPlace(ph: Phys, owners: Owners, t: nat, mm: Mm, tr: Tree, va: Word)
    requires JobOk(ph, owners, t, mm, tr, Idle) && va % PAGE_SIZE == 0 && Roomy(mm, tr, IndicesOf(va))
    ensures JobOk(ph, owners, t, mm, tr, Loop(Place(va, None, 0, 0), 0))
  {
    hide Core, OnWay, IndicesOf, Roomy;
  }

  lemma LastTables(log: seq<UserPage>, va: Word)
    ensures TablesOf(log + [UserPage(0, va)]) == TablesOf(log) + Prefixes(IndicesOf(va))
  {
    hide Prefixes, IndicesOf;
    var more := log + [UserPage(0, va)];
    assert more[..|more| - 1] == log;
  }

  lemma OwnActOk(b: State, trees: seq<Tree>, owners: Owners, t: nat, a: Act) returns (owners': Owners, tr': Tree)
    requires BusyOk(b, trees, owners) && Enabled(b, t, a) && b.s.ph.Free() != {}
    requires a.Abort? || a == Test || a == Mark || a == Descend
    ensures OwnStep(b.s.ph, owners, t, OwnOutcome(b, t, a), owners', tr')
  {
    hide Core, PlaceOk, Missing, OnWay, Put, Walked, SlotsFor, OwnsExactly, TaskStep;
    var ph, mm, tr, job := b.s.ph, b.s.tasks[t], trees[t], b.jobs[t];
    owners', tr' := owners, tr;
    assert JobOk(ph, owners, t, mm, tr, job);
    match a
    case Abort(va) =>
      AbortOk(ph, owners, t, mm, tr, va);
      M.NoStep(ph, owners, t);
    case Test =>
      M.NoStep(ph, owners, t);
      if job.i >= PAGING_PAGES {
        NoneFree(ph, job.i);
      }
    case Mark =>
      owners', tr' := PutOk(ph, owners, t, mm, tr, job.p, job.f);
    case Descend =>
      WalkOk(ph, owners, t, mm, tr, job.p);
  }

  lemma NoneFree(ph: Phys, i: nat)
    requires ph.Valid() && i >= PAGING_PAGES && forall j :: 0 <= j < i ==> ph.Marked(j)
    ensures ph.Free() == {}
  {
    assert forall f :: f in ph.Free() ==> ph.Marked(f);
  }

  /** What the task itself sees after an act. */
  ghost predicate ActSeen(b: State, t: nat, a: Act)
    requires Enabled(b, t, a) && Next(b, t, a).s.ph.Valid() && |Next(b, t, a).s.tasks| >= |b.s.tasks|
  {
    var b', mm, job := Next(b, t, a), b.s.tasks[t], b.jobs[t];
    var mm' := b'.s.tasks[t];
    if a.Write? then mm' == mm && M.WordStored(b.s, b'.s, t, a.va, a.w)
    else if a == Descend && b'.jobs[t].Idle? then
      forall va: Word :: Sees(b'.s.ph, mm', va) ==
        if SamePage(va, job.p.va) then Some(ZeroPage()) else Sees(b.s.ph, mm, va)
    else forall va: Word :: Sees(b'.s.ph, mm', va) == Sees(b.s.ph, mm, va)
  }

  lemma PutLog(ph: Phys, mm: Mm, p: Place, f: Frame)
    requires ph.Valid() && mm.Valid() && Put(ph, mm, p, f).Ok?
    ensures Put(ph, mm, p, f).value.1.Log() == mm.Log() && !Put(ph, mm, p, f).value.2.Idle?
  {
  }

  lemma WalkLog(ph: Phys, mm: Mm, p: Place)
    requires ph.Valid() && mm.Valid() && p.page.Some? && Walked(ph, mm, p).Ok?
    ensures !Walked(ph, mm, p).value.2.Idle? ==> Walked(ph, mm, p).value.1 == mm
    ensures Walked(ph, mm, p).value.2.Idle? <==> p.level > 3
  {
  }

  /** At the end of a fault its page shows, zeroed, and nothing else has changed. */
  lemma PageShows(ph: Phys, owners: Owners, t: nat, mm: Mm, tr: Tree, p: Place, r: Outcome<(Phys, Mm, Job)>)
    requires JobOk(ph, owners, t, mm, tr, Mapping(p)) && MarksOwned(ph, owners)
    requires OwnStep(ph, owners, t, r, owners, tr) && MappedAs(mm, p, r)
    ensures ph.Valid() && r.value.0.Valid()
    ensures forall va: Word ::
      Sees(r.value.0, r.value.1, va) == if SamePage(va, p.va) then Some(ZeroPage()) else Sees(ph, mm, va)
  {
    hide JobOk, Sees, TaskStep, LastMapping, SamePage;
    StepKeepsPages(ph, owners, r.value.0, owners, t, t);
    assert ph.Valid() && r.value.0.Valid();
    var page := FrameAddr(p.page.value);
    FrameRoundTrip(p.page.value);
    forall va: Word
      ensures Sees(r.value.0, r.value.1, va) == if SamePage(va, p.va) then Some(ZeroPage()) else Sees(ph, mm, va)
    {
      M.LastMappingMore(mm.Log(), UserPage(page, p.va), va);
      JobSees(ph, owners, t, mm, tr, Mapping(p), va);
      JobSees(r.value.0, owners, t, r.value.1, tr, Idle, va);
      SamePageBack(va, p.va);
    }
  }

  lemma SamePageBack(a: Word, b: Word)
    ensures SamePage(a, b) <==> SamePage(b, a)
  {
  }

  lemma JobSees(ph: Phys, owners: Owners, t: nat, mm: Mm, tr: Tree, job: Job, va: Word)
    requires JobOk(ph, owners, t, mm, tr, job)
    ensures SeesLogged(ph, owners, t, mm, va)
  {
    hide Core, Sees, LastMapping, PlaceOk;
    CoreSees(ph, owners, t, mm, tr, InFlight(job), va);
  }

  /** An act of one task on its own frames keeps everything in order. */
  lemma OwnAct(b: State, trees: seq<Tree>, owners: Owners, t: nat, a: Act)
      returns (trees': seq<Tree>, owners': Owners)
    requires BusyOk(b, trees, owners) && Enabled(b, t, a) && !Clash(b, t, a) && b.s.ph.Free() != {}
    requires a.Abort? || a == Test || a == Mark || a == Descend
    ensures BusyOk(Next(b, t, a), trees', owners')
    ensures b.s.ph.Valid() && Next(b, t, a).s.ph.Valid() && |Next(b, t, a).s.tasks| == |b.s.tasks|
    ensures Next(b, t, a).s.kernel == b.s.kernel
    ensures M.Undisturbed(b.s, Next(b, t, a).s, t) && ActSeen(b, t, a)
  {
    hide JobOk, Sees, TaskStep, MarksOwned, OwnsExactly, Put, Walked, SlotsFor, Next, M.Undisturbed, OwnOutcome;
    var tr';
    owners', tr' := OwnActOk(b, trees, owners, t, a);
    var r := OwnOutcome(b, t, a);
    NextIsAfter(b, t, a);
    StepBack(b, trees, owners, t, r, owners', tr');
    trees' := trees[t := tr'];
    OwnSeeking(b, trees, owners, t, a, owners', tr');
    OwnSeen(b, trees, owners, t, a, owners', tr');
  }

  lemma OwnSeeking(b: State, trees: seq<Tree>, owners: Owners, t: nat, a: Act, owners': Owners, tr': Tree)
    requires BusyOk(b, trees, owners) && Enabled(b, t, a) && !Clash(b, t, a)
    requires a.Abort? || a == Test || a == Mark || a == Descend
    requires OwnStep(b.s.ph, owners, t, OwnOutcome(b, t, a), owners', tr')
    ensures Seeking(Next(b, t, a).s.ph, Next(b, t, a).jobs)
  {
    hide JobOk, TaskStep, OwnsExactly, Put, Walked, SlotsFor;
    var ph, mm, job, r := b.s.ph, b.s.tasks[t], b.jobs[t], OwnOutcome(b, t, a);
    NextIsAfter(b, t, a);
    StepKeepsPages(ph, owners, r.value.0, owners', t, t);
    var b' := Next(b, t, a);
    forall u | 0 <= u < |b.jobs| && u != t && b.jobs[u].Holding?
      ensures !r.value.0.Marked(b.jobs[u].f) && (r.value.2.Holding? ==> b.jobs[u].f != r.value.2.f)
    {
      assert !Wanted(b', t, b.jobs[u].f);
    }
    OutcomeLoop(b, t, a);
    SeekingStep(ph, b.jobs, t, r.value.0, r.value.2);
  }

  lemma OutcomeLoop(b: State, t: nat, a: Act)
    requires Enabled(b, t, a) && (a.Abort? || a == Test || a == Mark || a == Descend)
    requires OwnOutcome(b, t, a).Ok? && Seeking(b.s.ph, b.jobs)
    ensures var r := OwnOutcome(b, t, a).value;
      && (r.2.Loop? ==> r.2.i <= PAGING_PAGES && forall j :: 0 <= j < r.2.i ==> r.0.Marked(j))
      && (r.2.Holding? ==> !r.0.Marked(r.2.f))
  {
  }

  lemma OwnSeen(b: State, trees: seq<Tree>, owners: Owners, t: nat, a: Act, owners': Owners, tr': Tree)
    requires BusyOk(b, trees, owners) && Enabled(b, t, a)
    requires a.Abort? || a == Test || a == Mark || a == Descend
    requires OwnStep(b.s.ph, owners, t, OwnOutcome(b, t, a), owners', tr')
    ensures Next(b, t, a).s.ph.Valid() && |Next(b, t, a).s.tasks| == |b.s.tasks| && ActSeen(b, t, a)
  {
    hide JobOk, TaskStep, OwnsExactly, Put, Walked, SlotsFor, MarksOwned, Seeking, Next, Sees, MappedAs;
    var ph, mm, job, r := b.s.ph, b.s.tasks[t], b.jobs[t], OwnOutcome(b, t, a);
    NextIsAfter(b, t, a);
    assert JobOk(ph, owners, t, mm, trees[t], job);
    if a == Descend && r.value.2.Idle? {
      WalkLog(ph, mm, job.p);
      WalkLeaf(ph, owners, t, mm, trees[t], job.p);
      PageShows(ph, owners, t, mm, trees[t], job.p, r);
    } else {
      if a == Mark {
        PutLog(ph, mm, job.p, job.f);
      } else if a == Descend {
        WalkLog(ph, mm, job.p);
      }
      OwnView(ph, owners, t, mm, trees[t], job, r, owners', tr');
    }
  }

  // ----- Stores, kernel pages and forks by an idle task

  /** A store changes one word of one of the task's own pages. */
  lemma WriteAct(b: State, trees: seq<Tree>, owners: Owners, t: nat, va: Word, w: Word)
    requires BusyOk(b, trees, owners) && Enabled(b, t, Write(va, w))
    ensures var b' := Next(b, t, Write(va, w));
      && BusyOk(b', trees, owners) && b.s.ph.Valid() && b'.s.ph.Valid() && b'.s.tasks == b.s.tasks
      && b'.s.kernel == b.s.kernel
      && M.Undisturbed(b.s, b'.s, t) && ActSeen(b, t, Write(va, w))
  {
    hide JobOk, Sees, Translate, OwnsExactly, TaskOk, SamePage, LastMapping;
    var ph, mm := b.s.ph, b.s.tasks[t];
    assert JobOk(ph, owners, t, mm, trees[t], b.jobs[t]);
    IdleIsTask(ph, owners, t, mm, trees[t]);
    M.WordIndex(va);
    if Translate(ph, mm, va).Page? && IsFrame(Translate(ph, mm, va).pa) {
      var f: Frame := FrameOf(Translate(ph, mm, va).pa);
      M.PageIsOwned(ph, owners, t, mm, trees[t], va, f);
      var ph' := M.WriteVirtual(ph, mm, va, w);
      WordOnly(ph, owners, t, f, ph', va % PAGE_SIZE / 8, w);
      WriteOthers(b, trees, owners, t, f, ph');
      IdleIsTask(ph', owners, t, mm, trees[t]);
      forall a: Word ensures Sees(ph', mm, a) == if SamePage(a, va) then Some(ph'.mem[f]) else Sees(ph, mm, a) {
        M.WriteSeen(ph, owners, t, mm, trees[t], va, f, ph', a);
      }
      WriteSeenWord(ph, mm, va, w, f, ph');
    } else {
      NothingSeen(ph, mm, va);
    }
  }

  lemma WordOnly(ph: Phys, owners: Owners, t: nat, f: Frame, ph': Phys, k: nat, w: Word)
    requires ph.Valid() && MarksOwned(ph, owners) && IsFrame(FrameAddr(f)) && FrameOf(FrameAddr(f)) == f
    requires k < PTRS_PER_TABLE && ph' == Store(ph, FrameAddr(f), k, w)
    ensures ph'.Valid() && ph' == Phys(ph.memMap, ph.mem[f := ph'.mem[f]]) && MarksOwned(ph', owners)
    ensures ph'.mem[f] == ph.mem[f][k := w]
  {
  }

  lemma WriteSeenWord(ph: Phys, mm: Mm, va: Word, w: Word, f: Frame, ph': Phys)
    requires ph.Valid() && Translate(ph, mm, va) == Page(FrameAddr(f)) && va % PAGE_SIZE / 8 < PTRS_PER_TABLE
    requires IsFrame(FrameAddr(f)) && FrameOf(FrameAddr(f)) == f
    requires ph' == M.WriteVirtual(ph, mm, va, w) && ph'.mem[f] == ph.mem[f][va % PAGE_SIZE / 8 := w]
    ensures Sees(ph, mm, va) == Some(ph.mem[f])
  {
    hide Translate;
  }

  lemma NothingSeen(ph: Phys, mm: Mm, va: Word)
    requires ph.Valid() && !(Translate(ph, mm, va).Page? && IsFrame(Translate(ph, mm, va).pa))
    ensures Sees(ph, mm, va) == None
  {
    hide Translate;
  }

  lemma WriteOthers(b: State, trees: seq<Tree>, owners: Owners, t: nat, f: Frame, ph': Phys)
    requires BusyOk(b, trees, owners) && t < |b.jobs| && b.jobs[t].Idle? && Owns(owners, f, PageOf(t))
    requires b.s.ph.Valid() && ph'.Valid() && ph' == Phys(b.s.ph.memMap, b.s.ph.mem[f := ph'.mem[f]])
    requires MarksOwned(ph', owners)
    ensures BusyOk(b.(s := b.s.(ph := ph')), trees, owners)
    ensures M.Undisturbed(b.s, b.s.(ph := ph'), t)
  {
    hide Core, PlaceOk, Sees, OwnsExactly, Keeps, PagesKept;
    var ph := b.s.ph;
    forall u | 0 <= u < |b.jobs|
      ensures JobOk(ph', owners, u, b.s.tasks[u], trees[u], b.jobs[u])
      ensures forall va: Word :: u != t ==> Sees(ph', b.s.tasks[u], va) == Sees(ph, b.s.tasks[u], va)
    {
      assert JobOk(ph, owners, u, b.s.tasks[u], trees[u], b.jobs[u]);
      M.OtherFrames(ph, ph', owners, f, PageOf(t), TableOf(u));
      if u == t {
        CoreFrame(ph, owners, ph', owners, t, b.s.tasks[t], trees[t], []);
      } else {
        M.OtherFrames(ph, ph', owners, f, PageOf(t), PageOf(u));
        JobFrame(ph, owners, ph', owners, u, b.s.tasks[u], trees[u], b.jobs[u]);
        KeepsPages(ph, owners, ph', owners, u);
        forall va: Word ensures Sees(ph', b.s.tasks[u], va) == Sees(ph, b.s.tasks[u], va) {
          SameView(ph, owners, u, b.s.tasks[u], trees[u], b.jobs[u],
                   ph', owners, b.s.tasks[u], trees[u], b.jobs[u], va);
        }
      }
    }
    assert forall g: nat :: ph'.Marked(g) <==> ph.Marked(g);
  }

  lemma KeepsPages(ph: Phys, owners: Owners, ph': Phys, owners': Owners, u: nat)
    requires Keeps(ph, owners, ph', owners', PageOf(u))
    ensures PagesKept(ph, ph', owners, u)
  {
  }

  /** A kernel page belongs to no task and disturbs none. */
  lemma BlockAct(b: State, trees: seq<Tree>, owners: Owners) returns (owners': Owners)
    requires FramesOk(b, trees, owners) && b.s.ph.Valid() && b.s.ph.Free() != {}
    ensures var s' := AllocateKernelPage(b.s).0;
      && FramesOk(b.(s := s'), trees, owners') && s'.ph.Valid() && s'.tasks == b.s.tasks
      && AllocateKernelPage(b.s).1 != 0 && |s'.kernel| == |b.s.kernel| + 1
      && M.Undisturbed(b.s, s', -1) && (forall f: Frame :: b.s.ph.Marked(f) ==> s'.ph.Marked(f))
      && |s'.ph.Free()| + 1 == |b.s.ph.Free()| && s'.ph.Free() <= b.s.ph.Free()
  {
    hide JobOk, Sees, OwnsExactly, Keeps, PagesKept;
    var ph := b.s.ph;
    GetFreePageSpec(ph);
    var f: Frame := FirstFree(ph.memMap, 0);
    var ph' := Allocated(ph, f);
    owners' := owners[f := Kernel];
    FreshOwned(ph, owners, f, Kernel, ph', owners');
    AllocatedExtends(ph, f, {});
    OwnsOneMore(owners, owners', Kernel, b.s.kernel, f);
    FrameRoundTrip(f);
    forall u | 0 <= u < |b.jobs|
      ensures JobOk(ph', owners', u, b.s.tasks[u], trees[u], b.jobs[u])
      ensures forall va: Word :: Sees(ph', b.s.tasks[u], va) == Sees(ph, b.s.tasks[u], va)
    {
      JobFrame(ph, owners, ph', owners', u, b.s.tasks[u], trees[u], b.jobs[u]);
      KeepsPages(ph, owners, ph', owners', u);
      forall va: Word ensures Sees(ph', b.s.tasks[u], va) == Sees(ph, b.s.tasks[u], va) {
        SameView(ph, owners, u, b.s.tasks[u], trees[u], b.jobs[u],
                 ph', owners', b.s.tasks[u], trees[u], b.jobs[u], va);
      }
    }
  }

  /** A new task joins the others after a step on its behalf. */
  lemma Joined(b: State, trees: seq<Tree>, owners: Owners, ph': Phys, owners': Owners, mm: Mm, tr: Tree)
    requires FramesOk(b, trees, owners) && TaskStep(b.s.ph, owners, ph', owners', |b.jobs|)
    requires TaskOk(ph', owners', |b.jobs|, mm, tr) && AlignedLog(mm)
    ensures var s' := System(ph', b.s.kernel, b.s.tasks + [mm]);
      && FramesOk(State(s', b.jobs + [Idle]), trees + [tr], owners')
      && b.s.ph.Valid() && ph'.Valid() && M.Undisturbed(b.s, s', -1)
    ensures forall f: Frame :: b.s.ph.Marked(f) ==> ph'.Marked(f)
  {
    hide JobOk, TaskOk, TaskStep, OwnsExactly, Sees, AlignedLog, PagesKept, Keeps;
    var c := |b.jobs|;
    Others(b, trees, owners, c, ph', owners');
    StepKeepsPages(b.s.ph, owners, ph', owners', c, c);
    M.StepOwnersOf(b.s.ph, owners, ph', owners', c, c + 1);
    TaskIsIdle(ph', owners', c, mm, tr);
    var tasks', trees', jobs' := b.s.tasks + [mm], trees + [tr], b.jobs + [Idle];
    forall u | 0 <= u < |jobs'| ensures JobOk(ph', owners', u, tasks'[u], trees'[u], jobs'[u]) {
      assert u < c ==> JobOk(ph', owners', u, b.s.tasks[u], trees[u], b.jobs[u]);
    }
  }

  lemma UndisturbedTrans(a: System, b: System, c: System)
    requires a.ph.Valid() && b.ph.Valid() && c.ph.Valid() && |a.tasks| <= |b.tasks| <= |c.tasks|
    requires M.Undisturbed(a, b, -1) && M.Undisturbed(b, c, -1)
    ensures M.Undisturbed(a, c, -1)
  {
    hide Sees;
    forall u | 0 <= u < |a.tasks|
      ensures c.tasks[u] == a.tasks[u]
      ensures forall va: Word :: Sees(c.ph, c.tasks[u], va) == Sees(a.ph, a.tasks[u], va)
    {
      OneView(a, b, u);
      OneView(b, c, u);
    }
  }

  lemma NoneDisturbed(s: System, s': System, t: int)
    requires s.ph.Valid() && s'.ph.Valid() && |s.tasks| <= |s'.tasks| && M.Undisturbed(s, s', -1)
    ensures M.Undisturbed(s, s', t)
  {
    hide Sees;
    forall u | 0 <= u < |s.tasks|
      ensures s'.tasks[u] == s.tasks[u]
      ensures forall va: Word :: Sees(s'.ph, s'.tasks[u], va) == Sees(s.ph, s.tasks[u], va)
    {
      OneView(s, s', u);
    }
  }

  /** A complete fork: the child's number, everything copied, and the others in order. */
  ghost predicate ForkComplete(b: State, t: nat, kthread: bool, trees': seq<Tree>, owners': Owners)
    requires b.s.ph.Valid() && t < |b.s.tasks| == |b.jobs| && b.s.tasks[t].Valid()
  {
    && Fork(b.s, t, kthread).Ok?
    && var (s', pid, copied) := Fork(b.s, t, kthread).value;
    && pid == |b.jobs| && copied && s'.ph.Valid() && |s'.tasks| == |b.s.tasks| + 1
    && |s'.kernel| == |b.s.kernel| + 1
    && FramesOk(State(s', b.jobs + [Idle]), trees', owners')
    && M.Undisturbed(b.s, s', -1)
    && (forall f: Frame :: b.s.ph.Marked(f) ==> s'.ph.Marked(f))
    && (if kthread then s'.tasks == b.s.tasks + [EmptyMm()] else ForkCopied(b.s, t, s'))
  }

  lemma CopyAct(b: State, trees: seq<Tree>, owners: Owners, t: nat, kthread: bool)
      returns (trees': seq<Tree>, owners': Owners)
    requires FramesOk(b, trees, owners) && Enabled(b, t, Copy(kthread)) && |b.s.ph.Free()| >= 100
    requires Readable(b, t, kthread)
    ensures ForkComplete(b, t, kthread, trees', owners')
  {
    hide JobOk, TaskOk, OwnsExactly, Sees, AllocateKernelPage, M.Undisturbed, Low, ForkCopied;
    assert b.s.ph.Free() != {};
    var owners1 := BlockAct(b, trees, owners);
    var s1, c, src := AllocateKernelPage(b.s).0, |b.jobs|, b.s.tasks[t];
    var b1 := b.(s := s1);
    assert JobOk(s1.ph, owners1, t, src, trees[t], Idle);
    IdleIsTask(s1.ph, owners1, t, src, trees[t]);
    EmptyMmOk(s1.ph, owners1, c);
    M.EmptyAligned();
    if kthread {
      M.NoStep(s1.ph, owners1, c);
      Joined(b1, trees, owners1, s1.ph, owners1, EmptyMm(), map[]);
      trees', owners' := trees + [map[]], owners1;
      ThreadFork(b.s, t);
      UndisturbedTrans(b.s, s1, System(s1.ph, s1.kernel, s1.tasks + [EmptyMm()]));
    } else {
      var ph2, dst, owners2, tr := UserCopy(s1, trees[t], owners1, t);
      Joined(b1, trees, owners1, ph2, owners2, dst, tr);
      trees', owners' := trees + [tr], owners2;
      ForkSteps(b.s, t);
      var s2 := System(ph2, s1.kernel, s1.tasks + [dst]);
      UndisturbedTrans(b.s, s1, s2);
      OneView(b.s, s1, t);
      ForkCopiedFrom(b.s, t, s1, s2);
    }
  }

  lemma ThreadFork(s: System, t: nat)
    requires s.ph.Valid() && t < |s.tasks| < NR_TASKS && s.tasks[t].Valid() && AllocateKernelPage(s).1 != 0
    ensures var s1 := AllocateKernelPage(s).0;
      Fork(s, t, true) == Ok((System(s1.ph, s1.kernel, s.tasks + [EmptyMm()]), |s.tasks|, true))
  {
    GetFreePageSpec(s.ph);
  }

  lemma OneView(s: System, s1: System, t: nat)
    requires s.ph.Valid() && s1.ph.Valid() && |s1.tasks| >= |s.tasks| && M.Undisturbed(s, s1, -1) && t < |s.tasks|
    ensures s1.tasks[t] == s.tasks[t]
    ensures forall va: Word :: Sees(s1.ph, s.tasks[t], va) == Sees(s.ph, s.tasks[t], va)
  {
    hide Sees;
  }

  /** The copy of the parent's memory, with frames enough. */
  lemma UserCopy(s: System, trs: Tree, owners: Owners, t: nat)
      returns (ph2: Phys, dst: Mm, owners2: Owners, tr: Tree)
    requires t < |s.tasks| && MarksOwned(s.ph, owners) && TaskOk(s.ph, owners, t, s.tasks[t], trs)
    requires forall f <- owners :: owners[f].Kernel? || owners[f].task < |s.tasks|
    requires TaskOk(s.ph, owners, |s.tasks|, EmptyMm(), map[])
    requires AlignedLog(s.tasks[t]) && Low(s.tasks[t].Log(), s.tasks[t].userCount) && |s.ph.Free()| >= 99
    ensures s.ph.Valid() && s.tasks[t].Valid() && CopyVirtMemory(s.ph, s.tasks[t], EmptyMm(), 0) == Ok((ph2, dst, true))
    ensures TaskStep(s.ph, owners, ph2, owners2, |s.tasks|) && TaskOk(ph2, owners2, |s.tasks|, dst, tr)
    ensures AlignedLog(dst) && ph2.Valid() && ForkCopied(s, t, System(ph2, s.kernel, s.tasks + [dst]))
  {
    hide TaskOk, OwnsExactly, Sees, Low, CopyStage, MarksOwned, TaskStep, CopyStuck, AlignedLog;
    var src, c := s.tasks[t], |s.tasks|;
    TaskParts(s.ph, owners, t, src, trs);
    TreeCounted(s.ph, src, trs);
    CopyStart(s.ph, owners, t, src, trs, c);
    owners2, tr := CopyLoop(s.ph, owners, t, src, trs, c, s.ph, owners, EmptyMm(), map[], 0);
    var r := CopyVirtMemory(s.ph, src, EmptyMm(), 0);
    ph2, dst := r.value.0, r.value.1;
    TaskParts(ph2, owners2, c, dst, tr);
    AlignedCopy(s.ph, src, ph2, dst);
    ChildSees(s, trs, owners, t, ph2, dst, owners2, tr);
  }

  lemma FramesParts(b: State, trees: seq<Tree>, owners: Owners)
    requires FramesOk(b, trees, owners)
    ensures b.s.ph.Valid() && |b.s.tasks| == |b.jobs|
  {
  }

  /** A mapping at 2^48 or above leads the copy astray. */
  lemma HighForkFaults(b: State, t: nat)
    requires Inv(b) && Enabled(b, t, Copy(false)) && |b.s.ph.Free()| >= 100 && !Readable(b, t, false)
    ensures Fork(b.s, t, false) == Fault
  {
    hide JobOk, TaskOk, OwnsExactly, Sees, AllocateKernelPage, M.Undisturbed, Low, CopyStage, CopyStuck, TaskStep;
    var trees, owners :| BusyOk(b, trees, owners);
    assert b.s.ph.Free() != {};
    var owners1 := BlockAct(b, trees, owners);
    var s1, c, src := AllocateKernelPage(b.s).0, |b.jobs|, b.s.tasks[t];
    assert JobOk(s1.ph, owners1, t, src, trees[t], Idle);
    IdleIsTask(s1.ph, owners1, t, src, trees[t]);
    EmptyMmOk(s1.ph, owners1, c);
    CopyStart(s1.ph, owners1, t, src, trees[t], c);
    var owners2, tr := CopyLoop(s1.ph, owners1, t, src, trees[t], c, s1.ph, owners1, EmptyMm(), map[], 0);
    HighSticks(s1.ph, owners1, t, src, trees[t]);
    ForkSteps(b.s, t);
  }

  lemma HighSticks(ph: Phys, owners: Owners, t: nat, src: Mm, trs: Tree)
    requires TaskOk(ph, owners, t, src, trs) && ph.Valid() && src.Valid() && |ph.Free()| >= 99
    requires !Low(src.Log(), src.userCount)
    ensures CopyStuck(|ph.Free()|, src.Log())
  {
    hide TaskOk, Demand;
    TaskParts(ph, owners, t, src, trs);
    TreeCounted(ph, src, trs);
    var log := src.Log();
    var k := FirstHigh(log, 0);
    TotalDemand(ph, src, trs, k);
    assert StuckAt(|ph.Free()|, log, k);
  }

  function FirstHigh(log: seq<UserPage>, k: nat): (r: nat)
    requires k <= |log| && !Low(log, |log|) && Low(log, k)
    ensures r < |log| && log[r].virtAddr >= USER_LIMIT && Low(log, r)
    decreases |log| - k
  {
    if log[k].virtAddr >= USER_LIMIT then k else FirstHigh(log, k + 1)
  }

  // ----- Every act

  /** What an act leads to: everything in order, no other task disturbed, and, for a fork, a
      complete copy. */
  ghost predicate ActDone(b: State, t: nat, a: Act)
    requires Enabled(b, t, a)
  {
    var b' := Next(b, t, a);
    && Inv(b') && b'.s.ph.Valid() && |b.s.tasks| <= |b'.s.tasks|
    && M.Undisturbed(b.s, b'.s, t) && ActSeen(b, t, a)
    && |b'.s.tasks| == |b'.jobs| == |b.jobs| + (if a.Copy? then 1 else 0)
    && |b'.s.kernel| == |b.s.kernel| + (if a.Copy? || a == NewBlock then 1 else 0)
    && (a.Copy? ==>
          && Fork(b.s, t, a.kthread).Ok?
          && Fork(b.s, t, a.kthread).value == (b'.s, |b.jobs|, true) && b'.jobs == b.jobs + [Idle]
          && (if a.kthread then b'.s.tasks == b.s.tasks + [EmptyMm()] else ForkCopied(b.s, t, b'.s)))
  }

  /** The frame that a task has found free stays free for it, whatever others do without a clash. */
  lemma OthersSeeking(b: State, t: nat, a: Act)
    requires Enabled(b, t, a) && !Clash(b, t, a) && Seeking(b.s.ph, b.jobs) && (a.Copy? || a == NewBlock)
    requires |Next(b, t, a).jobs| >= |b.jobs| && Next(b, t, a).jobs[..|b.jobs|] == b.jobs
    requires forall u :: |b.jobs| <= u < |Next(b, t, a).jobs| ==> Next(b, t, a).jobs[u].Idle?
    requires forall f: Frame :: b.s.ph.Marked(f) ==> Next(b, t, a).s.ph.Marked(f)
    ensures Seeking(Next(b, t, a).s.ph, Next(b, t, a).jobs)
  {
    hide Next;
    var b' := Next(b, t, a);
    assert b.jobs[t].Idle?;
    forall u | 0 <= u < |b'.jobs| ensures u < |b.jobs| ==> b'.jobs[u] == b.jobs[u] {
      assert u < |b.jobs| ==> b'.jobs[u] == b'.jobs[..|b.jobs|][u];
    }
    forall u | 0 <= u < |b.jobs| && b.jobs[u].Holding? ensures !b'.s.ph.Marked(b.jobs[u].f) {
      assert !Wanted(b', t, b.jobs[u].f);
    }
    forall u, j | 0 <= u < |b.jobs| && b.jobs[u].Loop? && 0 <= j < b.jobs[u].i ensures b'.s.ph.Marked(j) {
      var f: Frame := j;
      assert b.s.ph.Marked(f);
    }
  }

  lemma CopyDoneAct(b: State, trees: seq<Tree>, owners: Owners, t: nat, kthread: bool)
    requires BusyOk(b, trees, owners) && Enabled(b, t, Copy(kthread)) && !Clash(b, t, Copy(kthread))
    requires |b.s.ph.Free()| >= 100 && Readable(b, t, kthread)
    ensures ActDone(b, t, Copy(kthread))
  {
    hide FramesOk, Sees, Seeking, Fork, ForkCopied, Low, Clash, M.Undisturbed;
    var trees', owners' := CopyAct(b, trees, owners, t, kthread);
    var a, b' := Copy(kthread), Next(b, t, Copy(kthread));
    assert b'.jobs == b.jobs + [Idle];
    OthersSeeking(b, t, a);
    assert BusyOk(b', trees', owners');
    OneView(b.s, b'.s, t);
    NoneDisturbed(b.s, b'.s, t);
  }

  lemma BlockDoneAct(b: State, trees: seq<Tree>, owners: Owners, t: nat)
    requires BusyOk(b, trees, owners) && Enabled(b, t, NewBlock) && !Clash(b, t, NewBlock)
    requires b.s.ph.Free() != {}
    ensures ActDone(b, t, NewBlock)
  {
    hide FramesOk, Sees, Seeking, AllocateKernelPage, Clash, M.Undisturbed;
    FramesParts(b, trees, owners);
    var owners' := BlockAct(b, trees, owners);
    var b' := Next(b, t, NewBlock);
    assert b'.jobs[..|b.jobs|] == b.jobs;
    OthersSeeking(b, t, NewBlock);
    assert BusyOk(b', trees, owners');
    OneView(b.s, b'.s, t);
    NoneDisturbed(b.s, b'.s, t);
  }

  /** Every act but a clash keeps memory consistent, whatever else is going on: it disturbs no other
      task, shows its own task what it should, and completes, if it is a fork. */
  lemma ActKeeps(b: State, t: nat, a: Act)
    requires Inv(b) && Enabled(b, t, a) && !Clash(b, t, a) && |b.s.ph.Free()| >= 100
    requires a.Copy? ==> Readable(b, t, a.kthread)
    ensures ActDone(b, t, a)
  {
    hide FramesOk, Sees, Seeking, Next, Clash, M.Undisturbed, ActSeen, Enabled;
    var trees, owners :| BusyOk(b, trees, owners);
    assert b.s.ph.Free() != {};
    match a
    case Write(va, w) => WriteDone(b, trees, owners, t, va, w);
    case Copy(kthread) => CopyDoneAct(b, trees, owners, t, kthread);
    case NewBlock => BlockDoneAct(b, trees, owners, t);
    case _ => OwnDone(b, trees, owners, t, a);
  }

  lemma WriteDone(b: State, trees: seq<Tree>, owners: Owners, t: nat, va: Word, w: Word)
    requires BusyOk(b, trees, owners) && Enabled(b, t, Write(va, w))
    ensures ActDone(b, t, Write(va, w))
  {
    hide BusyOk, Sees, M.Undisturbed, ActSeen, Translate;
    WriteAct(b, trees, owners, t, va, w);
  }

  lemma OwnDone(b: State, trees: seq<Tree>, owners: Owners, t: nat, a: Act)
    requires BusyOk(b, trees, owners) && Enabled(b, t, a) && !Clash(b, t, a) && b.s.ph.Free() != {}
    requires a.Abort? || a == Test || a == Mark || a == Descend
    ensures ActDone(b, t, a)
  {
    hide BusyOk, Sees, M.Undisturbed, ActSeen, Put, Walked;
    var trees', owners' := OwnAct(b, trees, owners, t, a);
    JobsCount(b, t, a);
  }

  lemma JobsCount(b: State, t: nat, a: Act)
    requires Enabled(b, t, a) && (a.Abort? || a == Test || a == Mark || a == Descend)
    ensures |Next(b, t, a).s.tasks| == |Next(b, t, a).jobs| == |b.jobs|
  {
    hide Put, Walked;
  }

  /** A clash does not: a frame that one task is about to mark is taken, or about to be, by another. */
  lemma ClashBreaks(b: State, t: nat, a: Act)
    requires Inv(b) && Enabled(b, t, a) && Clash(b, t, a) && !a.Mark?
    ensures !Inv(Next(b, t, a))
  {
    hide FramesOk, Put, Walked, Fork, AllocateKernelPage;
    var b' := Next(b, t, a);
    var u :| 0 <= u < |b.jobs| && u != t && b.jobs[u].Holding? && Wanted(b', t, b.jobs[u].f);
    assert b'.jobs[u] == b.jobs[u];
    assert !Seeking(b'.s.ph, b'.jobs);
    forall trees, owners ensures !BusyOk(b', trees, owners) {
    }
  }
}
