/** The tasks of the kernel and the frames they share out: allocate_kernel_page,
    allocate_user_page, the copy of fork, and writes by tasks, over whole runs. */
module TaskMemory {
  import opened Common
  import opened Bits
  import opened PageTables
  import opened PageTree
  import opened MapPageProof
  import opened PageWalk
  import opened PageCount

  const USER_LIMIT: nat := 0x1_0000_0000_0000 // 2^48

  /** Physical memory, the physical addresses handed out by allocate_kernel_page, and the
      mm_struct of every task in the order of their creation. */
  datatype System = System(ph: Phys, kernel: seq<Word>, tasks: seq<Mm>)

  function EmptyMm(): (mm: Mm)
    ensures mm.Valid()
  {
    Mm(0, 0, seq(MAX_PROCESS_PAGES, _ => UserPage(0, 0)), 0, seq(MAX_PROCESS_PAGES, _ => 0))
  }

  // ----- The operations

  /** The new state and the kernel address of the page, or 0. */
  function AllocateKernelPage(s: System): (System, Word)
    requires s.ph.Valid()
  {
    GetFreePageSpec(s.ph);
    var (ph, page) := GetFreePage(s.ph);
    if page == 0 then (s, 0) else (System(ph, s.kernel + [page], s.tasks), page + VA_START)
  }

  lemma FreePageIsFrame(ph: Phys)
    requires ph.Valid()
    ensures GetFreePage(ph).0.Valid() && (GetFreePage(ph).1 != 0 ==> IsFrame(GetFreePage(ph).1))
  {
    GetFreePageSpec(ph);
  }

  function AllocateUserPage(ph: Phys, mm: Mm, va: Word): (r: Outcome<(Phys, Mm, Word)>)
    requires ph.Valid() && mm.Valid()
    ensures GoodPage(r)
  {
    FreePageIsFrame(ph);
    var (ph1, page) := GetFreePage(ph);
    if page == 0 then Ok((ph, mm, 0))
    else
      var (ph2, mm2) :- MapPage(ph1, mm, va, page);
      Ok((ph2, mm2, page + VA_START))
  }

  /** The word at a user address, read through the page tables of the running task. */
  function ReadVirtual(ph: Phys, mm: Mm, a: nat): Outcome<Word>
    requires ph.Valid()
  {
    if a >= USER_LIMIT || a % 8 != 0 then Fault
    else
      match Translate(ph, mm, a)
      case Page(pa) => if IsFrame(pa) then Ok(Load(ph, pa, a % PAGE_SIZE / 8)) else Fault
      case _ => Fault
  }

  /** memcpy of one page, from a user address to a frame, in 8-byte words from word k on. */
  function CopyWords(ph: Phys, mm: Mm, va: Word, pa: Word, k: nat): (r: Outcome<Phys>)
    requires ph.Valid() && IsFrame(pa) && k <= PTRS_PER_TABLE
    ensures r.Ok? ==> r.value.Valid()
    decreases PTRS_PER_TABLE - k
  {
    if k == PTRS_PER_TABLE then Ok(ph)
    else
      var w :- ReadVirtual(ph, mm, va + 8 * k);
      CopyWords(Store(ph, pa, k, w), mm, va, pa, k + 1)
  }

  /** A task's state and the kernel address of its new page, or 0. */
  ghost predicate GoodPage(r: Outcome<(Phys, Mm, Word)>) {
    r.Ok? ==>
      && r.value.0.Valid() && r.value.1.Valid()
      && (r.value.2 != 0 ==> r.value.2 >= VA_START && IsFrame(r.value.2 - VA_START))
  }

  /** The copy into the page that allocate_user_page came back with; false stands for -1. */
  function CopyInto(r: Outcome<(Phys, Mm, Word)>, src: Mm, va: Word): (r': Outcome<(Phys, Mm, bool)>)
    requires GoodPage(r)
    ensures r'.Ok? ==> r'.value.0.Valid() && r'.value.1.Valid()
  {
    match r
    case Fault => Fault
    case Ok((ph1, dst1, kva)) =>
      if kva == 0 then Ok((ph1, dst1, false))
      else
        match CopyWords(ph1, src, va, kva - VA_START, 0)
        case Fault => Fault
        case Ok(ph2) => Ok((ph2, dst1, true))
  }

  /** One turn of copy_virt_memory: a page of dst for va, filled from src's page. */
  function CopyEntry(ph: Phys, src: Mm, dst: Mm, va: Word): (r: Outcome<(Phys, Mm, bool)>)
    requires ph.Valid() && dst.Valid()
    ensures r.Ok? ==> r.value.0.Valid() && r.value.1.Valid()
  {
    CopyInto(AllocateUserPage(ph, dst, va), src, va)
  }

  /** The loop of copy_virt_memory from entry i on. */
  function CopyVirtMemory(ph: Phys, src: Mm, dst: Mm, i: nat): (r: Outcome<(Phys, Mm, bool)>)
    requires ph.Valid() && src.Valid() && dst.Valid() && i <= src.userCount
    ensures r.Ok? ==> r.value.0.Valid() && r.value.1.Valid()
    decreases src.userCount - i
  {
    if i == src.userCount then Ok((ph, dst, true))
    else
      var (ph1, dst1, more) :- CopyEntry(ph, src, dst, src.userPages[i].virtAddr);
      if more then CopyVirtMemory(ph1, src, dst1, i + 1) else Ok((ph1, dst1, false))
  }

  // ----- The invariant

  datatype Owner = TableOf(task: nat) | PageOf(task: nat) | Kernel

  type Owners = map<Frame, Owner>

  ghost predicate Owns(owners: Owners, f: Frame, o: Owner) {
    f in owners && owners[f] == o
  }

  ghost predicate OwnsTables(owners: Owners, t: nat, tr: Tree) {
    forall f: Frame :: f in tr.Values <==> Owns(owners, f, TableOf(t))
  }

  /** pas are distinct addresses of frames, exactly those that o owns. */
  ghost predicate OwnsExactly(owners: Owners, o: Owner, pas: seq<Word>) {
    && (forall k :: 0 <= k < |pas| ==> IsFrame(pas[k]) && Owns(owners, FrameOf(pas[k]), o))
    && (forall j, k :: 0 <= j < k < |pas| ==> pas[j] != pas[k])
    && (forall f: Frame :: Owns(owners, f, o) ==> FrameAddr(f) in pas)
  }

  function Pages(log: seq<UserPage>): (pas: seq<Word>)
    ensures |pas| == |log| && forall k :: 0 <= k < |log| ==> pas[k] == log[k].physAddr
  {
    seq(|log|, k requires 0 <= k < |log| => log[k].physAddr)
  }

  ghost predicate MarksOwned(ph: Phys, owners: Owners) {
    && ph.Valid()
    && (forall f: Frame :: ph.Marked(f) <==> f in owners)
  }

  ghost predicate TaskOk(ph: Phys, owners: Owners, t: nat, mm: Mm, tr: Tree) {
    MmOk(ph, mm, tr) && OwnsTables(owners, t, tr) && OwnsExactly(owners, PageOf(t), Pages(mm.Log()))
  }

  /** Every marked frame has one owner, and every task's tables agree with its log. */
  ghost predicate SystemOk(s: System, trees: seq<Tree>, owners: Owners) {
    && MarksOwned(s.ph, owners)
    && |trees| == |s.tasks|
    && OwnsExactly(owners, Kernel, s.kernel)
    && (forall f <- owners :: owners[f].Kernel? || owners[f].task < |s.tasks|)
    && (forall t :: 0 <= t < |s.tasks| ==> TaskOk(s.ph, owners, t, s.tasks[t], trees[t]))
  }

  // ----- Frames a task does not own do not matter to it

  /** A task only depends on its own tables and on their marks. */
  lemma MmOkFrame(ph: Phys, ph': Phys, mm: Mm, tr: Tree)
    requires MmOk(ph, mm, tr) && ph'.Valid()
    requires forall f: Frame :: f in tr.Values ==> ph'.mem[f] == ph.mem[f] && ph'.Marked(f)
    ensures MmOk(ph', mm, tr)
  {
    hide Covered, Listing, Touched, Entry, Leaves;
    if mm.pgd != 0 {
      assert forall p <- tr :: tr[p] in tr.Values;
    }
  }

  ghost predicate SameFor(owners: Owners, owners': Owners, o: Owner) {
    forall f: Frame :: Owns(owners, f, o) <==> Owns(owners', f, o)
  }

  /** From one state to another, what o owns stays owned by o and keeps its contents. */
  ghost predicate Keeps(ph: Phys, owners: Owners, ph': Phys, owners': Owners, o: Owner) {
    && |ph.mem| == |ph'.mem| == PAGING_PAGES
    && SameFor(owners, owners', o)
    && (forall f: Frame :: Owns(owners, f, o) ==> ph'.mem[f] == ph.mem[f])
  }

  lemma OtherTask(ph: Phys, owners: Owners, ph': Phys, owners': Owners, t: nat, mm: Mm, tr: Tree)
    requires TaskOk(ph, owners, t, mm, tr) && MarksOwned(ph', owners')
    requires Keeps(ph, owners, ph', owners', TableOf(t)) && SameFor(owners, owners', PageOf(t))
    ensures TaskOk(ph', owners', t, mm, tr)
  {
    hide MmOk, Pages;
    forall f: Frame | f in tr.Values ensures ph'.mem[f] == ph.mem[f] && ph'.Marked(f) {
      assert Owns(owners, f, TableOf(t));
    }
    MmOkFrame(ph, ph', mm, tr);
  }

  // ----- One allocated frame

  lemma FreshOwned(ph: Phys, owners: Owners, f: Frame, o: Owner, ph': Phys, owners': Owners)
    requires MarksOwned(ph, owners) && f in ph.Free() && ph' == Allocated(ph, f) && owners' == owners[f := o]
    ensures f !in owners && MarksOwned(ph', owners')
    ensures forall o': Owner :: o' != o ==> Keeps(ph, owners, ph', owners', o')
    ensures forall g: Frame :: g in owners ==> ph'.mem[g] == ph.mem[g]
  {
    assert !ph.Marked(f);
  }

  lemma OwnsOneMore(owners: Owners, owners': Owners, o: Owner, pas: seq<Word>, f: Frame)
    requires OwnsExactly(owners, o, pas) && f !in owners && owners' == owners[f := o]
    ensures OwnsExactly(owners', o, pas + [FrameAddr(f)])
  {
    FrameRoundTrip(f);
    var pas' := pas + [FrameAddr(f)];
    forall g: Frame | Owns(owners', g, o) ensures FrameAddr(g) in pas' {
      assert g == f || Owns(owners, g, o);
      assert pas'[|pas|] == FrameAddr(f);
    }
  }

  lemma ExactlyFrame(owners: Owners, owners': Owners, o: Owner, pas: seq<Word>)
    requires OwnsExactly(owners, o, pas) && SameFor(owners, owners', o)
    ensures OwnsExactly(owners', o, pas)
  {
  }

  /** allocate_kernel_page fails iff no frame is free, and else hands out a zeroed frame that
      nobody owned; no owned frame changes. */
  lemma KernelPageOk(s: System, trees: seq<Tree>, owners: Owners) returns (owners': Owners)
    requires SystemOk(s, trees, owners)
    ensures var (s', kva) := AllocateKernelPage(s);
      && SystemOk(s', trees, owners')
      && s'.tasks == s.tasks
      && (kva == 0 <==> s.ph.Free() == {})
      && (kva == 0 ==> s' == s && owners' == owners)
      && (kva != 0 ==> kva >= VA_START && GotFrame(s.ph, owners, s'.ph, owners', kva - VA_START, Kernel))
      && (kva != 0 ==> |s'.ph.Free()| + 1 == |s.ph.Free()| && s'.ph.Free() <= s.ph.Free())
  {
    GetFreePageSpec(s.ph);
    owners' := owners;
    if s.ph.Free() != {} {
      var f: Frame := FirstFree(s.ph.memMap, 0);
      owners' := owners[f := Kernel];
      FreshOwned(s.ph, owners, f, Kernel, Allocated(s.ph, f), owners');
      AllocatedExtends(s.ph, f, {});
      OwnsOneMore(owners, owners', Kernel, s.kernel, f);
      FrameRoundTrip(f);
      OthersOk(s, trees, owners, Allocated(s.ph, f), owners');
    }
  }

  /** pa is a frame nobody owned, now zeroed and owned by o; owned frames are unchanged. */
  ghost predicate GotFrame(ph: Phys, owners: Owners, ph': Phys, owners': Owners, pa: nat, o: Owner) {
    && |ph.mem| == |ph'.mem| == PAGING_PAGES
    && IsFrame(pa)
    && FrameOf(pa) !in owners
    && owners' == owners[FrameOf(pa) := o]
    && ph'.mem[FrameOf(pa)] == ZeroPage()
    && (forall f: Frame :: f in owners ==> ph'.mem[f] == ph.mem[f])
  }

  lemma OthersOk(s: System, trees: seq<Tree>, owners: Owners, ph': Phys, owners': Owners)
    requires SystemOk(s, trees, owners) && MarksOwned(ph', owners')
    requires forall o: Owner :: o != Kernel ==> Keeps(s.ph, owners, ph', owners', o)
    ensures forall t :: 0 <= t < |s.tasks| ==> TaskOk(ph', owners', t, s.tasks[t], trees[t])
  {
    hide TaskOk, Keeps, MarksOwned, OwnsExactly;
    forall t | 0 <= t < |s.tasks| ensures TaskOk(ph', owners', t, s.tasks[t], trees[t]) {
      assert TaskOk(s.ph, owners, t, s.tasks[t], trees[t]);
      KeepsSame(s.ph, owners, ph', owners', PageOf(t));
      OtherTask(s.ph, owners, ph', owners', t, s.tasks[t], trees[t]);
    }
  }

  lemma KeepsSame(ph: Phys, owners: Owners, ph': Phys, owners': Owners, o: Owner)
    requires Keeps(ph, owners, ph', owners', o)
    ensures SameFor(owners, owners', o)
  {
  }

  // ----- allocate_user_page

  /** The owners after map_page took the frames of `tables` for task t. */
  ghost function WithTables(owners: Owners, tables: set<Frame>, t: nat): Owners {
    map f | f in owners.Keys + tables :: if f in owners then owners[f] else TableOf(t)
  }

  /** A step that changed memory for task t only: other owners keep their frames and contents,
      the task's pages keep their contents, and nothing is given up. */
  ghost predicate TaskStep(ph: Phys, owners: Owners, ph': Phys, owners': Owners, t: nat) {
    && MarksOwned(ph', owners')
    && |ph.mem| == PAGING_PAGES
    && (forall f: Frame :: f in owners ==> f in owners' && owners'[f] == owners[f])
    && (forall f: Frame :: f in owners && owners[f] != TableOf(t) ==> ph'.mem[f] == ph.mem[f])
    && (forall f: Frame :: f in owners' && f !in owners ==> owners'[f] == TableOf(t) || owners'[f] == PageOf(t))
  }

  lemma TaskStepKeeps(ph: Phys, owners: Owners, ph': Phys, owners': Owners, t: nat, o: Owner)
    requires TaskStep(ph, owners, ph', owners', t) && o != TableOf(t) && o != PageOf(t)
    ensures Keeps(ph, owners, ph', owners', o)
  {
  }

  lemma GrownOwners(ph: Phys, owners: Owners, tr: Tree, ph': Phys, tr': Tree, t: nat)
    requires MarksOwned(ph, owners) && OwnsTables(owners, t, tr) && Grown(ph, tr.Values, ph', tr'.Values)
    ensures var owners' := WithTables(owners, tr'.Values - tr.Values, t);
      && TaskStep(ph, owners, ph', owners', t)
      && OwnsTables(owners', t, tr')
      && SameFor(owners, owners', PageOf(t))
  {
    var owners' := WithTables(owners, tr'.Values - tr.Values, t);
    forall f: Frame ensures ph'.Marked(f) <==> f in owners' {
      assert ph.Marked(f) <==> f in owners;
      assert f in ph.Free() <==> !ph.Marked(f);
      assert f in ph'.Free() <==> !ph'.Marked(f);
    }
    forall f: Frame | f in owners ensures f in owners' && owners'[f] == owners[f] {
    }
    forall f: Frame | f in tr'.Values - tr.Values ensures f !in owners {
      assert f in ph.Free();
    }
  }

  /** A task got the zeroed frame g, which nobody owned, mapped at va. */
  ghost predicate UserPageDone(ph: Phys, owners: Owners, mm: Mm, va: Word, t: nat,
                               ph': Phys, mm': Mm, g: Frame, tr': Tree, owners': Owners) {
    && g !in owners
    && Owns(owners', g, PageOf(t))
    && TaskStep(ph, owners, ph', owners', t)
    && TaskOk(ph', owners', t, mm', tr')
    && mm'.Log() == mm.Log() + [UserPage(FrameAddr(g), va)]
    && ph'.mem[g] == ZeroPage()
  }

  lemma PagesGrow(log: seq<UserPage>, u: UserPage)
    ensures Pages(log + [u]) == Pages(log) + [u.physAddr]
  {
  }

  /** The two halves of allocate_user_page: the page, then map_page. */
  lemma PageThenMap(ph: Phys, owners: Owners, mm: Mm, tr: Tree, va: Word, t: nat, g: Frame,
                    ph2: Phys, mm2: Mm, tr2: Tree) returns (owners': Owners)
    requires MarksOwned(ph, owners) && TaskOk(ph, owners, t, mm, tr) && g in ph.Free()
    requires Grown(Allocated(ph, g), tr.Values, ph2, tr2.Values) && MmOk(ph2, mm2, tr2)
    requires mm2.Log() == mm.Log() + [UserPage(FrameAddr(g), va)]
    ensures UserPageDone(ph, owners, mm, va, t, ph2, mm2, g, tr2, owners')
  {
    hide MmOk, Grown, Pages, OwnsExactly;
    var ph1, owners1 := Allocated(ph, g), owners[g := PageOf(t)];
    FreshOwned(ph, owners, g, PageOf(t), ph1, owners1);
    assert OwnsTables(owners1, t, tr) by {
      assert Keeps(ph, owners, ph1, owners1, TableOf(t));
    }
    GrownOwners(ph1, owners1, tr, ph2, tr2, t);
    owners' := WithTables(owners1, tr2.Values - tr.Values, t);
    PagesGrow(mm.Log(), UserPage(FrameAddr(g), va));
    OwnsOneMore(owners, owners1, PageOf(t), Pages(mm.Log()), g);
    ExactlyFrame(owners1, owners', PageOf(t), Pages(mm2.Log()));
    assert Owns(owners1, g, PageOf(t));
    assert ph1.mem[g] == ZeroPage();
  }

  /** After the page itself, too few frames or slots are left for the mapping of va. */
  ghost predicate NoRoom(ph: Phys, mm: Mm, tr: Tree, va: Word) {
    || |Needed(tr, IndicesOf(va))| >= |ph.Free()|
    || |tr| + |Needed(tr, IndicesOf(va))| >= MAX_PROCESS_PAGES
    || mm.userCount == MAX_PROCESS_PAGES
  }

  ghost predicate PageResult(ph: Phys, owners: Owners, mm: Mm, tr: Tree, va: Word, t: nat,
                             r: Outcome<(Phys, Mm, Word)>, g: Frame, tr': Tree, owners': Owners) {
    && (ph.Free() == {} ==> r == Ok((ph, mm, 0)))
    && (ph.Free() != {} ==>
          && (r.Fault? <==> NoRoom(ph, mm, tr, va))
          && (r.Ok? ==>
                && r.value.2 == FrameAddr(g) + VA_START
                && UserPageDone(ph, owners, mm, va, t, r.value.0, r.value.1, g, tr', owners')
                && tr'.Keys == tr.Keys + Prefixes(IndicesOf(va))
                && |r.value.0.Free()| + 1 + |Needed(tr, IndicesOf(va))| == |ph.Free()|))
  }

  /** allocate_user_page returns 0 and changes nothing iff no frame is free; with a free frame
      it faults iff the tables or slots for va are short; else it maps a fresh zeroed page. */
  lemma UserPageOk(ph: Phys, owners: Owners, mm: Mm, tr: Tree, va: Word, t: nat)
      returns (g: Frame, tr': Tree, owners': Owners)
    requires MarksOwned(ph, owners) && TaskOk(ph, owners, t, mm, tr)
    ensures ph.Valid() && mm.Valid()
    ensures PageResult(ph, owners, mm, tr, va, t, AllocateUserPage(ph, mm, va), g, tr', owners')
  {
    hide MapPage, Needed, IndicesOf, MmOk, OwnsExactly, OwnsTables, UserPageDone, Grown;
    GetFreePageSpec(ph);
    ValidFromMm(ph, mm, tr);
    g, tr', owners' := 0, tr, owners;
    if ph.Free() != {} {
      g := FirstFree(ph.memMap, 0);
      var ph1 := Allocated(ph, g);
      PageFirst(ph, owners, mm, tr, t, g);
      FrameRoundTrip(g);
      AllocatedExtends(ph, g, {});
      tr' := MapPageKeeps(ph1, mm, tr, va, FrameAddr(g));
      if MapPage(ph1, mm, va, FrameAddr(g)).Ok? {
        var (ph2, mm2) := MapPage(ph1, mm, va, FrameAddr(g)).value;
        owners' := PageThenMap(ph, owners, mm, tr, va, t, g, ph2, mm2, tr');
      }
    }
  }

  /** The tables of a task are as they were after a page was allocated. */
  lemma PageFirst(ph: Phys, owners: Owners, mm: Mm, tr: Tree, t: nat, g: Frame)
    requires MarksOwned(ph, owners) && TaskOk(ph, owners, t, mm, tr) && g in ph.Free()
    ensures MmOk(Allocated(ph, g), mm, tr)
  {
    hide MmOk, OwnsExactly;
    forall f: Frame | f in tr.Values ensures f != g && ph.Marked(f) {
      assert Owns(owners, f, TableOf(t));
    }
    MmOkFrame(ph, Allocated(ph, g), mm, tr);
  }

  // ----- The copy of one page

  lemma {:induction false} LastMappingSame(log: seq<UserPage>, a: Word, b: Word)
    requires SamePage(a, b)
    ensures LastMapping(log, a) == LastMapping(log, b)
  {
    if log != [] {
      LastMappingSame(log[..|log| - 1], a, b);
    }
  }

  lemma WordInPage(va: Word, k: nat)
    requires va % PAGE_SIZE == 0 && va < USER_LIMIT && k < PTRS_PER_TABLE
    ensures va + 8 * k < USER_LIMIT && (va + 8 * k) % 8 == 0
    ensures (va + 8 * k) % PAGE_SIZE / 8 == k
    ensures SamePage(va, va + 8 * k)
  {
    var q := va / PAGE_SIZE;
    assert va == q * PAGE_SIZE;
    DivModUnique(va + 8 * k, PAGE_SIZE, q, 8 * k);
    DivModUnique(va + 8 * k, 8, q * 512 + k, 0);
    Pow2Values();
  }

  lemma ReadWord(ph: Phys, mm: Mm, tr: Tree, va: Word, k: nat, f: Frame)
    requires MmOk(ph, mm, tr) && va % PAGE_SIZE == 0 && va < USER_LIMIT && k < PTRS_PER_TABLE
    requires LastMapping(mm.Log(), va) == Some(FrameAddr(f))
    ensures ReadVirtual(ph, mm, va + 8 * k) == Ok(ph.mem[f][k])
  {
    hide MmOk, Translate, LastMapping, SamePage;
    WordInPage(va, k);
    LastMappingSame(mm.Log(), va, va + 8 * k);
    TranslateIsLastMapping(ph, mm, tr, va + 8 * k);
    FrameRoundTrip(f);
  }

  /** The frame g with its words from k on replaced by those of frame f. */
  function Copied(ph: Phys, f: Frame, g: Frame, k: nat): (ph': Phys)
    requires ph.Valid() && k <= PTRS_PER_TABLE
    ensures ph'.Valid()
  {
    var page: seq<Word> := ph.mem[g][..k] + ph.mem[f][k..];
    Phys(ph.memMap, ph.mem[g := page])
  }

  /** memcpy of a page through the page tables copies the page the tables lead to. */
  lemma {:induction false} CopyWordsOk(ph: Phys, mm: Mm, tr: Tree, va: Word, f: Frame, g: Frame, k: nat)
    requires MmOk(ph, mm, tr) && va % PAGE_SIZE == 0 && va < USER_LIMIT && k <= PTRS_PER_TABLE
    requires LastMapping(mm.Log(), va) == Some(FrameAddr(f)) && g !in tr.Values && g != f
    requires IsFrame(FrameAddr(g))
    ensures ph.Valid() && CopyWords(ph, mm, va, FrameAddr(g), k) == Ok(Copied(ph, f, g, k))
    decreases PTRS_PER_TABLE - k
  {
    hide MmOk, LastMapping, ReadVirtual;
    assert ph.Valid() by { ValidFromMm(ph, mm, tr); }
    if k == PTRS_PER_TABLE {
      assert ph.mem[g][..k] + ph.mem[f][k..] == ph.mem[g];
      assert Copied(ph, f, g, k) == ph;
    } else {
      ReadWord(ph, mm, tr, va, k, f);
      FrameRoundTrip(g);
      var ph1 := Store(ph, FrameAddr(g), k, ph.mem[f][k]);
      StoreElsewhere(ph, mm, tr, g, k, ph.mem[f][k]);
      CopyWordsOk(ph1, mm, tr, va, f, g, k + 1);
      CopiedStep(ph, f, g, k);
    }
  }

  lemma ValidFromMm(ph: Phys, mm: Mm, tr: Tree)
    requires MmOk(ph, mm, tr)
    ensures ph.Valid() && mm.Valid()
  {
  }

  lemma StoreElsewhere(ph: Phys, mm: Mm, tr: Tree, g: Frame, k: nat, w: Word)
    requires MmOk(ph, mm, tr) && g !in tr.Values && k < PTRS_PER_TABLE && IsFrame(FrameAddr(g))
    ensures ph.Valid() && MmOk(Store(ph, FrameAddr(g), k, w), mm, tr)
  {
    hide MmOk;
    ValidFromMm(ph, mm, tr);
    FrameRoundTrip(g);
    TablesMarked(ph, mm, tr);
    MmOkFrame(ph, Store(ph, FrameAddr(g), k, w), mm, tr);
  }

  lemma TablesMarked(ph: Phys, mm: Mm, tr: Tree)
    requires MmOk(ph, mm, tr)
    ensures forall f: Frame :: f in tr.Values ==> ph.Marked(f)
  {
  }

  lemma CopiedStep(ph: Phys, f: Frame, g: Frame, k: nat)
    requires ph.Valid() && k < PTRS_PER_TABLE && f != g && IsFrame(FrameAddr(g)) && FrameOf(FrameAddr(g)) == g
    ensures Copied(Store(ph, FrameAddr(g), k, ph.mem[f][k]), f, g, k + 1) == Copied(ph, f, g, k)
  {
    var page: seq<Word> := ph.mem[g];
    var page1: seq<Word> := page[k := ph.mem[f][k]];
    assert page1[..k + 1] + ph.mem[f][k + 1..] == page[..k] + ph.mem[f][k..];
  }

  // ----- The copy of a task's memory

  ghost predicate AlignedLog(mm: Mm) {
    forall k :: 0 <= k < mm.userCount && k < |mm.userPages| ==> mm.userPages[k].virtAddr % PAGE_SIZE == 0
  }

  /** The first k mappings are at addresses that memcpy can read through the user's tables. */
  predicate Low(log: seq<UserPage>, k: nat) {
    forall j :: 0 <= j < k && j < |log| ==> log[j].virtAddr < USER_LIMIT
  }

  /** The tables on the way to the mapped addresses. */
  function TablesOf(log: seq<UserPage>): set<Path> {
    if log == [] then {} else TablesOf(log[..|log| - 1]) + Prefixes(IndicesOf(log[|log| - 1].virtAddr))
  }

  /** The frames that a copy of the first k mappings takes: one for each of them and their tables. */
  function Demand(log: seq<UserPage>, k: nat): nat
    requires k <= |log|
  {
    k + |TablesOf(log[..k])|
  }

  /** A copy that starts with `free` frames gets to mapping k, has a frame for the page, and is
      then short of frames for its tables, or asked to read above the user's addresses. */
  ghost predicate StuckAt(free: nat, log: seq<UserPage>, k: nat)
    requires k < |log|
  {
    Low(log, k) && Demand(log, k) < free && (Demand(log, k + 1) > free || log[k].virtAddr >= USER_LIMIT)
  }

  ghost predicate CopyStuck(free: nat, log: seq<UserPage>) {
    exists k :: 0 <= k < |log| && StuckAt(free, log, k)
  }

  lemma DemandNext(log: seq<UserPage>, k: nat)
    requires k < |log|
    ensures TablesOf(log[..k + 1]) == TablesOf(log[..k]) + Prefixes(IndicesOf(log[k].virtAddr))
    ensures Demand(log, k) < Demand(log, k + 1)
  {
    hide IndicesOf, Prefixes;
    assert log[..k + 1][..k] == log[..k];
    SubsetSize(TablesOf(log[..k]), TablesOf(log[..k + 1]));
  }

  lemma {:induction false} DemandGrows(log: seq<UserPage>, j: nat, k: nat)
    requires j <= k <= |log|
    ensures TablesOf(log[..j]) <= TablesOf(log[..k]) && Demand(log, j) <= Demand(log, k)
  {
    hide TablesOf, Demand, Prefixes, IndicesOf;
    if j < k {
      DemandGrows(log, j, k - 1);
      DemandNext(log, k - 1);
    }
  }

  /** A copy that runs out of frames exactly before mapping i, or gets through, is not stuck. */
  lemma NotStuck(free: nat, log: seq<UserPage>, i: nat)
    requires i <= |log| && Low(log, i) && Demand(log, i) <= free && (i == |log| || Demand(log, i) == free)
    ensures !CopyStuck(free, log)
  {
    hide Demand;
    forall k | 0 <= k < |log| ensures !StuckAt(free, log, k) {
      if k < i {
        DemandGrows(log, k + 1, i);
      } else {
        DemandGrows(log, i, k);
      }
    }
  }

  /** The tables of a task are those on the way to the addresses in its log. */
  lemma TreeIsTables(ph: Phys, mm: Mm, tr: Tree)
    requires MmOk(ph, mm, tr)
    ensures mm.Valid() && tr.Keys == TablesOf(mm.Log()) && |TablesOf(mm.Log())| == mm.kernelCount == |tr|
  {
    hide IndicesOf, MmOk, TablesOf, Prefixes, Touched;
    ValidFromMm(ph, mm, tr);
    var log := mm.Log();
    forall p | p in TablesOf(log) ensures p in tr {
      var k := TableFrom(log, p);
      PrefixesThere(ph, mm, tr, k);
    }
    forall p | p in tr ensures p in TablesOf(log) {
      TreeTouched(ph, mm, tr, p);
      LoggedTable(log, p);
    }
    TreeCounted(ph, mm, tr);
  }

  lemma TreeTouched(ph: Phys, mm: Mm, tr: Tree, p: Path)
    requires MmOk(ph, mm, tr) && p in tr
    ensures Touched(Leaves(mm.Log()), p)
  {
    hide Growing, Touched, Leaves;
  }

  lemma {:induction false} TableFrom(log: seq<UserPage>, p: Path) returns (k: nat)
    requires p in TablesOf(log)
    ensures k < |log| && p in Prefixes(IndicesOf(log[k].virtAddr))
  {
    hide IndicesOf, Prefixes;
    k := |log| - 1;
    if p !in Prefixes(IndicesOf(log[k].virtAddr)) {
      k := TableFrom(log[..k], p);
    }
  }

  lemma {:induction false} TableInto(log: seq<UserPage>, k: nat)
    requires k < |log|
    ensures Prefixes(IndicesOf(log[k].virtAddr)) <= TablesOf(log)
  {
    hide IndicesOf, Prefixes;
    if k < |log| - 1 {
      TableInto(log[..|log| - 1], k);
    }
  }

  lemma LoggedTable(log: seq<UserPage>, p: Path)
    requires Touched(Leaves(log), p)
    ensures p in TablesOf(log)
  {
    hide IndicesOf, TablesOf;
    var k :| 0 <= k < |log| && p == PathOf(Leaves(log)[k].ix, p.Level());
    TableInto(log, k);
    InPrefixes(IndicesOf(log[k].virtAddr), p.Level());
  }

  /** The contents of the page that the log maps va to; empty when there is none. */
  function PageOfVa(ph: Phys, log: seq<UserPage>, va: Word): seq<Word>
    requires ph.Valid()
  {
    match LastMapping(log, va)
    case None => []
    case Some(pa) => if IsFrame(pa) then ph.mem[FrameOf(pa)] else []
  }

  /** The first i mappings of src are copied: same addresses, and in ph the contents that
      the addresses had for src in ph0. */
  ghost predicate CopiedUpTo(ph0: Phys, src: seq<UserPage>, ph: Phys, dst: seq<UserPage>, i: nat) {
    && ph0.Valid() && ph.Valid()
    && i <= |src| && |dst| == i
    && (forall j :: 0 <= j < i ==>
          && dst[j].virtAddr == src[j].virtAddr
          && IsFrame(dst[j].physAddr)
          && ph.mem[FrameOf(dst[j].physAddr)] == PageOfVa(ph0, src, src[j].virtAddr))
  }

  lemma TaskStepTrans(ph0: Phys, o0: Owners, ph1: Phys, o1: Owners, ph2: Phys, o2: Owners, t: nat)
    requires TaskStep(ph0, o0, ph1, o1, t) && TaskStep(ph1, o1, ph2, o2, t)
    ensures TaskStep(ph0, o0, ph2, o2, t)
  {
  }

  /** Rewriting a page that nobody owned before the step leaves it a step of the task. */
  lemma PageRewritten(ph0: Phys, o0: Owners, ph: Phys, owners: Owners, t: nat, mm: Mm, tr: Tree, f: Frame, g: Frame)
    requires TaskStep(ph0, o0, ph, owners, t) && TaskOk(ph, owners, t, mm, tr)
    requires g !in o0 && Owns(owners, g, PageOf(t)) && f != g
    ensures TaskStep(ph0, o0, Copied(ph, f, g, 0), owners, t)
    ensures TaskOk(Copied(ph, f, g, 0), owners, t, mm, tr)
    ensures Copied(ph, f, g, 0).mem[g] == ph.mem[f]
    ensures forall h: Frame :: h != g ==> Copied(ph, f, g, 0).mem[h] == ph.mem[h]
    ensures Copied(ph, f, g, 0).Free() == ph.Free()
  {
    hide MmOk, OwnsExactly;
    var ph' := Copied(ph, f, g, 0);
    assert ph.mem[g][..0] + ph.mem[f][0..] == ph.mem[f];
    assert ph'.Free() == ph.Free();
    TablesMarked(ph, mm, tr);
    assert g !in tr.Values by {
      assert forall h: Frame :: h in tr.Values ==> Owns(owners, h, TableOf(t));
    }
    MmOkFrame(ph, ph', mm, tr);
  }

  lemma {:induction false} LastMappingOfEntry(log: seq<UserPage>, k: nat)
    requires k < |log|
    ensures LastMapping(log, log[k].virtAddr).Some?
    ensures exists j :: 0 <= j < |log| && LastMapping(log, log[k].virtAddr).value == log[j].physAddr
  {
    var last := |log| - 1;
    if SamePage(log[last].virtAddr, log[k].virtAddr) {
      assert LastMapping(log, log[k].virtAddr).value == log[last].physAddr;
    } else {
      LastMappingOfEntry(log[..last], k);
      var j :| 0 <= j < last && LastMapping(log[..last], log[..last][k].virtAddr).value == log[..last][j].physAddr;
      assert LastMapping(log, log[k].virtAddr).value == log[j].physAddr;
    }
  }

  /** Every prefix of a mapped address is in the tree. */
  lemma PrefixesThere(ph: Phys, mm: Mm, tr: Tree, k: nat)
    requires MmOk(ph, mm, tr) && k < mm.userCount
    ensures Prefixes(IndicesOf(mm.userPages[k].virtAddr)) <= tr.Keys
  {
    hide IndicesOf, Entries, Listing, Touched;
    var ix := IndicesOf(mm.Log()[k].virtAddr);
    assert Leaves(mm.Log())[k].ix == ix;
    AllPrefixes(tr, tr, ix);
  }

  /** Before entry i of the copy of task t into the new task c. */
  ghost predicate CopyStage(ph0: Phys, o0: Owners, t: nat, src: Mm, trs: Tree, c: nat,
                            ph: Phys, owners: Owners, dst: Mm, trd: Tree, i: nat) {
    && t != c && i <= src.userCount
    && MarksOwned(ph0, o0) && TaskOk(ph0, o0, t, src, trs)
    && TaskOk(ph, owners, c, dst, trd)
    && TaskStep(ph0, o0, ph, owners, c)
    && CopiedUpTo(ph0, src.Log(), ph, dst.Log(), i)
    && trd.Keys == TablesOf(src.Log()[..i]) && |trd| == |trd.Keys|
    && |ph.Free()| + Demand(src.Log(), i) == |ph0.Free()|
    && Low(src.Log(), i)
  }

  /** The source task, and the contents of its pages, are as they were. */
  lemma SourceKept(ph0: Phys, o0: Owners, t: nat, src: Mm, trs: Tree, c: nat, ph: Phys, owners: Owners)
    requires t != c && MarksOwned(ph0, o0) && TaskOk(ph0, o0, t, src, trs) && TaskStep(ph0, o0, ph, owners, c)
    ensures TaskOk(ph, owners, t, src, trs)
    ensures ph0.Valid() && ph.Valid()
    ensures forall va: Word :: PageOfVa(ph, src.Log(), va) == PageOfVa(ph0, src.Log(), va)
  {
    hide MmOk, LastMapping, OwnsExactly;
    TaskStepKeeps(ph0, o0, ph, owners, c, TableOf(t));
    TaskStepKeeps(ph0, o0, ph, owners, c, PageOf(t));
    KeepsSame(ph0, o0, ph, owners, PageOf(t));
    OtherTask(ph0, o0, ph, owners, t, src, trs);
    forall va: Word ensures PageOfVa(ph, src.Log(), va) == PageOfVa(ph0, src.Log(), va) {
      MappedOwned(o0, t, src.Log(), va);
    }
  }

  lemma {:induction false} MappedIsLogged(log: seq<UserPage>, va: Word)
    ensures LastMapping(log, va).Some? ==> exists j :: 0 <= j < |log| && log[j].physAddr == LastMapping(log, va).value
  {
    if log != [] {
      var last := |log| - 1;
      if !SamePage(log[last].virtAddr, va) {
        MappedIsLogged(log[..last], va);
        if LastMapping(log[..last], va).Some? {
          var j :| 0 <= j < last && log[..last][j].physAddr == LastMapping(log[..last], va).value;
          assert log[j].physAddr == LastMapping(log, va).value;
        }
      }
    }
  }

  /** What an address maps to is a page its task owns. */
  lemma MappedOwned(owners: Owners, t: nat, log: seq<UserPage>, va: Word)
    requires OwnsExactly(owners, PageOf(t), Pages(log))
    ensures LastMapping(log, va).Some? ==>
      IsFrame(LastMapping(log, va).value) && Owns(owners, FrameOf(LastMapping(log, va).value), PageOf(t))
  {
    hide LastMapping;
    MappedIsLogged(log, va);
    if LastMapping(log, va).Some? {
      var j :| 0 <= j < |log| && log[j].physAddr == LastMapping(log, va).value;
      assert Pages(log)[j] == LastMapping(log, va).value;
    }
  }

  lemma StepMarks(ph0: Phys, o0: Owners, ph: Phys, owners: Owners, t: nat)
    requires TaskStep(ph0, o0, ph, owners, t)
    ensures MarksOwned(ph, owners) && ph.Valid()
  {
  }

  /** The frame that entry i of the log reads from. */
  lemma SourceFrame(owners: Owners, t: nat, log: seq<UserPage>, i: nat) returns (f: Frame)
    requires OwnsExactly(owners, PageOf(t), Pages(log)) && i < |log|
    ensures LastMapping(log, log[i].virtAddr) == Some(FrameAddr(f)) && Owns(owners, f, PageOf(t))
    ensures IsFrame(FrameAddr(f)) && FrameOf(FrameAddr(f)) == f
  {
    hide LastMapping;
    LastMappingOfEntry(log, i);
    MappedOwned(owners, t, log, log[i].virtAddr);
    f := FrameOf(LastMapping(log, log[i].virtAddr).value);
    FrameRoundTrip(f);
  }

  /** A page of task c is neither a page nor a table of task t. */
  lemma PagesApart(owners: Owners, t: nat, trs: Tree, f: Frame, c: nat, g: Frame)
    requires t != c && OwnsTables(owners, t, trs) && Owns(owners, f, PageOf(t)) && Owns(owners, g, PageOf(c))
    ensures f != g && g !in trs.Values
  {
    assert forall h: Frame :: h in trs.Values ==> Owns(owners, h, TableOf(t));
  }

  /** The log of the copy gains one entry with the contents read from frame f. */
  lemma CopiedMore(ph0: Phys, src: seq<UserPage>, ph: Phys, owners: Owners, c: nat, dst: seq<UserPage>, i: nat,
                   ph1: Phys, owners1: Owners, dst1: seq<UserPage>, f: Frame, g: Frame, ph2: Phys)
    requires CopiedUpTo(ph0, src, ph, dst, i) && i < |src|
    requires OwnsExactly(owners, PageOf(c), Pages(dst)) && TaskStep(ph, owners, ph1, owners1, c) && g !in owners
    requires dst1 == dst + [UserPage(FrameAddr(g), src[i].virtAddr)]
    requires ph2.Valid() && ph2.mem[g] == ph1.mem[f] && forall h: Frame :: h != g ==> ph2.mem[h] == ph1.mem[h]
    requires ph1.mem[f] == PageOfVa(ph0, src, src[i].virtAddr)
    ensures CopiedUpTo(ph0, src, ph2, dst1, i + 1)
  {
    hide PageOfVa;
    FrameRoundTrip(g);
    forall j | 0 <= j < i
      ensures ph2.mem[FrameOf(dst[j].physAddr)] == PageOfVa(ph0, src, src[j].virtAddr)
    {
      assert Pages(dst)[j] == dst[j].physAddr;
      var h: Frame := FrameOf(dst[j].physAddr);
      assert Owns(owners, h, PageOf(c));
    }
  }

  lemma TreeSizes(tr: Tree, tr': Tree, ix: Indices)
    requires tr'.Keys == tr.Keys + Prefixes(ix)
    ensures |tr'| == |tr| + |Needed(tr, ix)|
  {
    UnionSize(tr.Keys, Prefixes(ix));
    assert |tr'| == |tr'.Keys| && |tr| == |tr.Keys|;
  }

  /** One turn of the loop of copy_virt_memory. */
  lemma CopyTurn(ph0: Phys, o0: Owners, t: nat, src: Mm, trs: Tree, c: nat,
                 ph: Phys, owners: Owners, dst: Mm, trd: Tree, i: nat,
                 ph1: Phys, dst1: Mm, g: Frame, trd1: Tree, owners1: Owners) returns (f: Frame)
    requires CopyStage(ph0, o0, t, src, trs, c, ph, owners, dst, trd, i) && i < src.userCount && AlignedLog(src)
    requires src.Valid() && src.userPages[i].virtAddr < USER_LIMIT
    requires UserPageDone(ph, owners, dst, src.userPages[i].virtAddr, c, ph1, dst1, g, trd1, owners1)
    requires trd1.Keys == trd.Keys + Prefixes(IndicesOf(src.userPages[i].virtAddr))
    requires |ph1.Free()| + 1 + |Needed(trd, IndicesOf(src.userPages[i].virtAddr))| == |ph.Free()|
    ensures ph1.Valid() && IsFrame(FrameAddr(g))
    ensures CopyWords(ph1, src, src.userPages[i].virtAddr, FrameAddr(g), 0) == Ok(Copied(ph1, f, g, 0))
    ensures CopyStage(ph0, o0, t, src, trs, c, Copied(ph1, f, g, 0), owners1, dst1, trd1, i + 1)
  {
    hide MmOk, LastMapping, OwnsExactly, OwnsTables, IndicesOf, Needed, Prefixes, MarksOwned, TaskStep, CopiedUpTo,
         CopyWords, PageOfVa, TablesOf;
    var va := src.userPages[i].virtAddr;
    assert src.Log()[i].virtAddr == va;
    DemandNext(src.Log(), i);
    TaskStepTrans(ph0, o0, ph, owners, ph1, owners1, c);
    StepMarks(ph0, o0, ph1, owners1, c);
    SourceKept(ph0, o0, t, src, trs, c, ph1, owners1);
    f := SourceFrame(owners1, t, src.Log(), i);
    PagesApart(owners1, t, trs, f, c, g);
    FrameRoundTrip(g);
    CopyWordsOk(ph1, src, trs, va, f, g, 0);
    NotBefore(ph0, o0, ph, owners, c, g);
    PageRewritten(ph0, o0, ph1, owners1, c, dst1, trd1, f, g);
    assert ph1.mem[f] == PageOfVa(ph0, src.Log(), va) by {
      FrameContents(ph1, src.Log(), va, f);
    }
    CopiedMore(ph0, src.Log(), ph, owners, c, dst.Log(), i, ph1, owners1, dst1.Log(), f, g, Copied(ph1, f, g, 0));
    TreeSizes(trd, trd1, IndicesOf(va));
    assert |trd1| == |trd1.Keys|;
  }

  lemma NotBefore(ph0: Phys, o0: Owners, ph: Phys, owners: Owners, c: nat, g: Frame)
    requires TaskStep(ph0, o0, ph, owners, c) && g !in owners
    ensures g !in o0
  {
  }

  lemma FrameContents(ph: Phys, log: seq<UserPage>, va: Word, f: Frame)
    requires ph.Valid() && LastMapping(log, va) == Some(FrameAddr(f))
    requires IsFrame(FrameAddr(f)) && FrameOf(FrameAddr(f)) == f
    ensures PageOfVa(ph, log, va) == ph.mem[f]
  {
  }

  /** The outcome of copying every mapping of src into a new task; when it stops early, what
      was copied is a prefix. */
  ghost predicate CopyDone(ph0: Phys, o0: Owners, src: Mm, trs: Tree, c: nat,
                           r: Outcome<(Phys, Mm, bool)>, owners: Owners, trd: Tree) {
    && (|ph0.Free()| >= src.userCount + |trs| && Low(src.Log(), src.userCount) <==> r.Ok? && r.value.2)
    && (CopyStuck(|ph0.Free()|, src.Log()) <==> r.Fault?)
    && (r.Ok? ==>
          && TaskOk(r.value.0, owners, c, r.value.1, trd)
          && TaskStep(ph0, o0, r.value.0, owners, c)
          && CopiedUpTo(ph0, src.Log(), r.value.0, r.value.1.Log(), |r.value.1.Log()|)
          && (r.value.2 ==> |r.value.1.Log()| == src.userCount))
  }

  lemma CopiedSize(ph0: Phys, src: seq<UserPage>, ph: Phys, dst: seq<UserPage>, i: nat)
    requires CopiedUpTo(ph0, src, ph, dst, i)
    ensures |dst| == i
  {
  }

  /** A tree that holds the tables of every logged address of src is as large as its tree. */
  lemma AllCopied(ph0: Phys, src: Mm, trs: Tree, ph: Phys, dst: Mm, trd: Tree)
    requires MmOk(ph0, src, trs) && MmOk(ph, dst, trd) && |dst.Log()| == |src.Log()|
    requires forall j :: 0 <= j < |src.Log()| ==> dst.Log()[j].virtAddr == src.Log()[j].virtAddr
    ensures dst.kernelCount == src.kernelCount && |trd| == |trs|
  {
    hide Field, Entries, Covered, Listing, Touched;
    if src.userCount > 0 {
      assert src.pgd != 0 && dst.pgd != 0;
      SameFields(src.Log(), dst.Log(), 39, 9);
      SameFields(src.Log(), dst.Log(), 30, 18);
      SameFields(src.Log(), dst.Log(), 21, 27);
      KernelPagesCount(ph0, src, trs);
      KernelPagesCount(ph, dst, trd);
    } else {
      EmptyLogEmptyTree(ph0, src, trs);
      EmptyLogEmptyTree(ph, dst, trd);
    }
  }

  lemma EmptyLogEmptyTree(ph: Phys, mm: Mm, tr: Tree)
    requires MmOk(ph, mm, tr) && mm.userCount == 0
    ensures mm.pgd == 0 && tr == map[] && mm.kernelCount == 0
  {
    if mm.pgd != 0 {
      NoneTouched(ph, mm, tr);
      assert false;
    }
  }

  lemma SameFields(a: seq<UserPage>, b: seq<UserPage>, lo: nat, width: nat)
    requires |a| == |b| && forall j :: 0 <= j < |a| ==> a[j].virtAddr == b[j].virtAddr
    ensures FieldsOf(a, lo, width) == FieldsOf(b, lo, width)
  {
    hide Field;
    forall n | n in FieldsOf(a, lo, width) ensures n in FieldsOf(b, lo, width) {
      var j :| 0 <= j < |a| && Field(a[j].virtAddr, lo, width) == n;
      assert b[j] in b;
    }
    forall n | n in FieldsOf(b, lo, width) ensures n in FieldsOf(a, lo, width) {
      var j :| 0 <= j < |b| && Field(b[j].virtAddr, lo, width) == n;
      assert a[j] in a;
    }
  }

  /** copy_virt_memory into a new task: it returns 0 iff there is a free frame for every
      mapping and every table of the source and all its addresses are the user's; then every
      mapping is copied. It faults iff it gets stuck between two mappings. */
  lemma {:induction false} CopyLoop(ph0: Phys, o0: Owners, t: nat, src: Mm, trs: Tree, c: nat,
                                    ph: Phys, owners: Owners, dst: Mm, trd: Tree, i: nat)
      returns (owners': Owners, trd': Tree)
    requires CopyStage(ph0, o0, t, src, trs, c, ph, owners, dst, trd, i) && AlignedLog(src)
    ensures ph.Valid() && src.Valid() && dst.Valid()
    ensures CopyDone(ph0, o0, src, trs, c, CopyVirtMemory(ph, src, dst, i), owners', trd')
    decreases src.userCount - i
  {
    hide MmOk, OwnsExactly, OwnsTables, TaskStep, CopiedUpTo, CopyEntry, UserPageDone, AlignedLog, IndicesOf, Needed,
         Prefixes, MarksOwned, Demand, Low, TablesOf, CopyStuck, StuckAt;
    ValidFromMm(ph0, src, trs);
    ValidFromMm(ph, dst, trd);
    owners', trd' := owners, trd;
    CopiedSize(ph0, src.Log(), ph, dst.Log(), i);
    if i == src.userCount {
      CopyFinished(ph0, o0, t, src, trs, c, ph, owners, dst, trd);
    } else {
      var va := src.userPages[i].virtAddr;
      StepMarks(ph0, o0, ph, owners, c);
      var g, trd1, owners1 := UserPageOk(ph, owners, dst, trd, va, c);
      var f := CopyEntryOk(ph0, o0, t, src, trs, c, ph, owners, dst, trd, i, g, trd1, owners1);
      var r := CopyEntry(ph, src, dst, va);
      if r.Ok? && r.value.2 {
        owners', trd' := CopyLoop(ph0, o0, t, src, trs, c, r.value.0, owners1, r.value.1, trd1, i + 1);
      } else {
        TotalDemand(ph0, src, trs, i);
        StopsEarly(|ph0.Free()|, src.Log(), i, r.Fault?);
      }
    }
  }

  lemma CopyFinished(ph0: Phys, o0: Owners, t: nat, src: Mm, trs: Tree, c: nat,
                     ph: Phys, owners: Owners, dst: Mm, trd: Tree)
    requires CopyStage(ph0, o0, t, src, trs, c, ph, owners, dst, trd, src.userCount)
    requires ph.Valid() && src.Valid() && dst.Valid()
    ensures CopyDone(ph0, o0, src, trs, c, Ok((ph, dst, true)), owners, trd)
  {
    hide MmOk, OwnsExactly, OwnsTables, TaskStep, MarksOwned, Demand, CopyStuck, TablesOf;
    TotalDemand(ph0, src, trs, src.userCount);
    NotStuck(|ph0.Free()|, src.Log(), src.userCount);
  }

  /** A full copy takes a frame for every mapping and every table of the source. */
  lemma TotalDemand(ph: Phys, src: Mm, trs: Tree, i: nat)
    requires MmOk(ph, src, trs) && i <= src.userCount
    ensures src.Valid() && Demand(src.Log(), src.userCount) == src.userCount + |trs|
    ensures Demand(src.Log(), i) <= src.userCount + |trs|
    ensures i < src.userCount ==> Demand(src.Log(), i + 1) <= src.userCount + |trs|
    ensures i < src.userCount ==> Demand(src.Log(), i) < src.userCount + |trs|
  {
    hide MmOk, TablesOf;
    TreeIsTables(ph, src, trs);
    var log := src.Log();
    assert log[..src.userCount] == log;
    DemandGrows(log, i, src.userCount);
    if i < src.userCount {
      DemandNext(log, i);
      DemandGrows(log, i + 1, src.userCount);
    }
  }

  /** Where the copy ends before mapping i, it did not get all frames or was led astray. */
  lemma StopsEarly(free: nat, log: seq<UserPage>, i: nat, stuck: bool)
    requires i < |log| && (if stuck then StuckAt(free, log, i) else Low(log, i) && Demand(log, i) == free)
    ensures CopyStuck(free, log) <==> stuck
    ensures !(free >= Demand(log, |log|) && Low(log, |log|))
  {
    hide Demand;
    if !stuck {
      NotStuck(free, log, i);
    }
    DemandNext(log, i);
    DemandGrows(log, i + 1, |log|);
  }

  /** One turn of the loop: on to the next stage, out of frames, or stuck. */
  lemma CopyEntryOk(ph0: Phys, o0: Owners, t: nat, src: Mm, trs: Tree, c: nat,
                    ph: Phys, owners: Owners, dst: Mm, trd: Tree, i: nat,
                    g: Frame, trd1: Tree, owners1: Owners) returns (f: Frame)
    requires ph.Valid() && src.Valid() && dst.Valid() && i < src.userCount && i < |src.Log()|
    requires CopyStage(ph0, o0, t, src, trs, c, ph, owners, dst, trd, i) && AlignedLog(src)
    requires var va := src.userPages[i].virtAddr;
      PageResult(ph, owners, dst, trd, va, c, AllocateUserPage(ph, dst, va), g, trd1, owners1)
    ensures var r := CopyEntry(ph, src, dst, src.userPages[i].virtAddr);
      if r.Ok? && r.value.2 then
        CopyStage(ph0, o0, t, src, trs, c, r.value.0, owners1, r.value.1, trd1, i + 1)
      else if r.Ok? then
        r == Ok((ph, dst, false)) && Low(src.Log(), i) && Demand(src.Log(), i) == |ph0.Free()|
      else
        StuckAt(|ph0.Free()|, src.Log(), i)
  {
    hide MmOk, OwnsExactly, OwnsTables, TaskStep, CopiedUpTo, UserPageDone, AlignedLog, IndicesOf, Needed,
         Prefixes, MarksOwned, AllocateUserPage, CopyWords, NoRoom, CopyStage, StuckAt, Demand, Low;
    var va := src.userPages[i].virtAddr;
    var r := AllocateUserPage(ph, dst, va);
    f := 0;
    if ph.Free() == {} {
      StageFrames(ph0, o0, t, src, trs, c, ph, owners, dst, trd, i);
    } else if r.Ok? && va < USER_LIMIT {
      FrameRoundTrip(g);
      f := CopyTurn(ph0, o0, t, src, trs, c, ph, owners, dst, trd, i, r.value.0, r.value.1, g, trd1, owners1);
    } else {
      if r.Ok? {
        FrameRoundTrip(g);
        HighFaults(r.value.0, src, va, r.value.2 - VA_START);
      }
      StageStuck(ph0, o0, t, src, trs, c, ph, owners, dst, trd, i);
    }
  }

  lemma HighFaults(ph: Phys, mm: Mm, va: Word, pa: Word)
    requires ph.Valid() && IsFrame(pa) && va >= USER_LIMIT
    ensures CopyWords(ph, mm, va, pa, 0) == Fault
  {
  }

  lemma StageFrames(ph0: Phys, o0: Owners, t: nat, src: Mm, trs: Tree, c: nat,
                    ph: Phys, owners: Owners, dst: Mm, trd: Tree, i: nat)
    requires CopyStage(ph0, o0, t, src, trs, c, ph, owners, dst, trd, i) && src.Valid() && ph.Free() == {}
    ensures Low(src.Log(), i) && Demand(src.Log(), i) == |ph0.Free()|
  {
    hide OwnsExactly, OwnsTables, TaskStep, MarksOwned, MmOk, TablesOf;
  }

  lemma StageStuck(ph0: Phys, o0: Owners, t: nat, src: Mm, trs: Tree, c: nat,
                   ph: Phys, owners: Owners, dst: Mm, trd: Tree, i: nat)
    requires src.Valid() && i < src.userCount && i < |src.userPages| && i < |src.Log()| && ph.Free() != {}
    requires CopyStage(ph0, o0, t, src, trs, c, ph, owners, dst, trd, i)
    requires NoRoom(ph, dst, trd, src.userPages[i].virtAddr) || src.userPages[i].virtAddr >= USER_LIMIT
    ensures StuckAt(|ph0.Free()|, src.Log(), i)
  {
    hide *;
    StageParts(ph0, o0, t, src, trs, c, ph, owners, dst, trd, i);
    assert src.Log()[i] == src.userPages[i];
    ShortIs(ph, dst, trd, src.userPages[i].virtAddr);
    StuckHere(|ph0.Free()|, src.Log(), i, |ph.Free()|, trd);
  }

  lemma ShortIs(ph: Phys, mm: Mm, tr: Tree, va: Word)
    requires NoRoom(ph, mm, tr, va) || va >= USER_LIMIT
    ensures
      || |Needed(tr, IndicesOf(va))| >= |ph.Free()| || |tr| + |Needed(tr, IndicesOf(va))| >= MAX_PROCESS_PAGES
      || mm.userCount == MAX_PROCESS_PAGES || va >= USER_LIMIT
  {
  }

  lemma StageParts(ph0: Phys, o0: Owners, t: nat, src: Mm, trs: Tree, c: nat,
                   ph: Phys, owners: Owners, dst: Mm, trd: Tree, i: nat)
    requires CopyStage(ph0, o0, t, src, trs, c, ph, owners, dst, trd, i) && i < src.userCount && src.Valid()
    requires ph.Free() != {}
    ensures |src.Log()| == src.userCount <= MAX_PROCESS_PAGES && src.Log()[i] == src.userPages[i]
    ensures trd.Keys == TablesOf(src.Log()[..i]) && |trd| == |trd.Keys| && Low(src.Log(), i)
    ensures |ph.Free()| > 0 && |ph.Free()| + Demand(src.Log(), i) == |ph0.Free()|
    ensures |TablesOf(src.Log())| < MAX_PROCESS_PAGES && dst.userCount == i
  {
    hide OwnsExactly, OwnsTables, TaskStep, MarksOwned, MmOk, TablesOf;
    TreeIsTables(ph0, src, trs);
    TreeCounted(ph0, src, trs);
    ValidFromMm(ph, dst, trd);
  }

  lemma StuckHere(free: nat, log: seq<UserPage>, i: nat, left: nat, tr: Tree)
    requires i < |log| <= MAX_PROCESS_PAGES && Low(log, i) && 0 < left && left + Demand(log, i) == free
    requires tr.Keys == TablesOf(log[..i]) && |tr| == |tr.Keys| && |TablesOf(log)| < MAX_PROCESS_PAGES
    requires
      || |Needed(tr, IndicesOf(log[i].virtAddr))| >= left
      || |tr| + |Needed(tr, IndicesOf(log[i].virtAddr))| >= MAX_PROCESS_PAGES
      || log[i].virtAddr >= USER_LIMIT
    ensures StuckAt(free, log, i)
  {
    hide IndicesOf, Prefixes, TablesOf, Low, Needed;
    TreeGrowth(tr, IndicesOf(log[i].virtAddr));
    DemandNext(log, i);
    TablesFew(log, i + 1);
  }

  lemma TablesFew(log: seq<UserPage>, i: nat)
    requires i <= |log|
    ensures |TablesOf(log[..i])| <= |TablesOf(log)|
  {
    hide TablesOf;
    DemandGrows(log, i, |log|);
    assert log[..|log|] == log;
    SubsetSize(TablesOf(log[..i]), TablesOf(log));
  }

  lemma TreeGrowth(tr: Tree, ix: Indices)
    ensures |tr.Keys + Prefixes(ix)| == |tr| + |Needed(tr, ix)|
  {
    hide Prefixes;
    UnionSize(tr.Keys, Prefixes(ix));
    assert |tr.Keys| == |tr|;
  }

  lemma TreeCounted(ph: Phys, mm: Mm, tr: Tree)
    requires MmOk(ph, mm, tr)
    ensures |tr| == mm.kernelCount < MAX_PROCESS_PAGES && |tr.Keys| == |tr|
  {
  }
}
