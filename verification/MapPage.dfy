/** map_page against the tree and the log: when it faults, what it allocates, and that it
    keeps the task invariant. */
module MapPageProof {
  import opened Common
  import opened PageTables
  import opened PageTree

  lemma LinkedExtends(ph: Phys, t: Frame, i: nat, f: Frame, mine: set<nat>)
    requires ph.Valid() && i < PTRS_PER_TABLE && !ph.Marked(f) && t in mine
    ensures Extends(ph, Linked(ph, t, i, f), mine, {f})
  {
    var ph' := Linked(ph, t, i, f);
    assert forall g :: g in ph'.Free() <==> g in ph.Free() && g != f;
  }

  /** map_table on an empty slot, with a frame left. */
  lemma MapTableFresh(ph: Phys, t: Frame, shift: nat, va: Word)
    requires ph.Valid() && ph.Free() != {} && ph.mem[t][TableIndex(va, shift)] == 0
    ensures IsFrame(FrameAddr(t))
    ensures var f := FirstFree(ph.memMap, 0);
      && f < PAGING_PAGES && f in ph.Free()
      && MapTable(ph, FrameAddr(t), shift, va) == (Linked(ph, t, TableIndex(va, shift), f), FrameAddr(f), true)
  {
    FrameRoundTrip(t);
    GetFreePageSpec(ph);
  }

  /** map_table on a slot that holds a table. */
  lemma MapTableHit(ph: Phys, t: Frame, shift: nat, va: Word, f: Frame)
    requires ph.Valid()
    requires ph.mem[t][TableIndex(va, shift)] == Descriptor(FrameAddr(f), MM_TYPE_PAGE_TABLE)
    ensures IsFrame(FrameAddr(t))
    ensures MapTable(ph, FrameAddr(t), shift, va) == (ph, FrameAddr(f), false)
  {
    FrameRoundTrip(t);
    FrameRoundTrip(f);
  }

  /** What one level of map_page does to a task whose tree holds the path of the level. */
  lemma MapLevelGrows(ph: Phys, mm: Mm, tr: Tree, leaves: seq<Leaf>, ix: Indices, va: Word, level: nat)
      returns (tr': Tree)
    requires Growing(ph, mm, tr, leaves) && level < 3 && PathOf(ix, level) in tr
    requires TableIndex(va, 39 - 9 * level) == ix.At(level)
    ensures IsFrame(FrameAddr(tr[PathOf(ix, level)]))
    ensures LevelResult(ph, mm, tr, leaves, PathOf(ix, level + 1),
                        MapLevel(ph, mm, FrameAddr(tr[PathOf(ix, level)]), 39 - 9 * level, va), tr')
  {
    var p, q, i, shift := PathOf(ix, level), PathOf(ix, level + 1), ix.At(level), 39 - 9 * level;
    var t := tr[p];
    FrameRoundTrip(t);
    assert q == Sub(p, i);
    assert ph.mem[t][i] == Entry(tr, leaves, p, i);
    tr' := tr;
    if q in tr {
      MapTableHit(ph, t, shift, va, tr[q]);
    } else if ph.Free() == {} {
      GetFreePageSpec(ph);
    } else {
      MapTableFresh(ph, t, shift, va);
      if mm.kernelCount + 1 < MAX_PROCESS_PAGES {
        var f: Frame := FirstFree(ph.memMap, 0);
        tr' := tr[q := f];
        FreshTable(ph, mm, tr, leaves, p, i, f);
      }
    }
  }

  lemma FreshTable(ph: Phys, mm: Mm, tr: Tree, leaves: seq<Leaf>, p: Path, i: nat, f: Frame)
    requires Growing(ph, mm, tr, leaves) && mm.kernelCount + 1 < MAX_PROCESS_PAGES
    requires p in tr && p.Level() < 3 && i < PTRS_PER_TABLE && !ph.Marked(f) && Sub(p, i) !in tr
    ensures Growing(Linked(ph, tr[p], i, f), WithTable(mm, FrameAddr(f)), tr[Sub(p, i) := f], leaves)
    ensures Extends(ph, Linked(ph, tr[p], i, f), tr.Values, {f})
    ensures f !in tr.Values
  {
    var ph', mm', tr' := Linked(ph, tr[p], i, f), WithTable(mm, FrameAddr(f)), tr[Sub(p, i) := f];
    assert f !in tr.Values;
    LinkedExtends(ph, tr[p], i, f, tr.Values);
    ShapeGrows(ph, tr, p, i, f);
    EntriesGrow(ph, tr, leaves, p, i, f);
    RecordGrows(mm, tr, Sub(p, i), f);
  }

  /** The four cases of a level: the table is there, kernel_pages is full, no frame is left
      (the null address comes back), or a fresh table is linked and recorded. */
  ghost predicate LevelResult(ph: Phys, mm: Mm, tr: Tree, leaves: seq<Leaf>, q: Path,
                              r: Outcome<(Phys, Mm, Word)>, tr': Tree) {
    if q in tr then r == Ok((ph, mm, FrameAddr(tr[q]))) && tr' == tr
    else if mm.kernelCount + 1 == MAX_PROCESS_PAGES then r == Fault
    else if ph.Free() == {} then r.Ok? && r.value.2 == 0
    else
      && r.Ok?
      && q in tr' && tr' == tr[q := tr'[q]] && tr'[q] !in tr.Values && r.value.2 == FrameAddr(tr'[q])
      && Growing(r.value.0, r.value.1, tr', leaves)
      && Extends(ph, r.value.0, tr.Values, {tr'[q]})
      && r.value.1.userCount == mm.userCount && r.value.1.userPages == mm.userPages
  }

  // ----- The whole of map_page

  function Prefixes(ix: Indices): set<Path> {
    {PathOf(ix, 0), PathOf(ix, 1), PathOf(ix, 2), PathOf(ix, 3)}
  }

  /** The tables map_page has to add for an address. */
  function Needed(tr: Tree, ix: Indices): set<Path> {
    Prefixes(ix) - tr.Keys
  }

  /** Too few frames or too few slots in kernel_pages for the tables needed. */
  ghost predicate Short(ph: Phys, tr: Tree, ix: Indices) {
    |Needed(tr, ix)| > |ph.Free()| || |tr| + |Needed(tr, ix)| >= MAX_PROCESS_PAGES
  }

  /** The tree only gained paths. */
  ghost predicate Above(tr0: Tree, tr: Tree) {
    forall p <- tr0 :: p in tr && tr[p] == tr0[p]
  }

  /** The owned frames grew from mine0 to mine, all of it out of the free frames. */
  ghost predicate Grown(ph0: Phys, mine0: set<nat>, ph: Phys, mine: set<nat>) {
    mine0 <= mine && Extends(ph0, ph, mine0, mine - mine0)
  }

  /** Adding some of the members of `wanted` to a set leaves room for one not yet added. */
  lemma GrowingSize<T>(before: set<T>, now: set<T>, wanted: set<T>, q: T)
    requires before <= now <= before + wanted && q in wanted && q !in now
    ensures |now| < |before| + |wanted - before|
  {
    assert now == before + (now - before);
    SubsetSize((now - before) + {q}, wanted - before);
  }

  lemma ValuesGrow(tr: Tree, q: Path, f: Frame)
    requires q !in tr
    ensures tr[q := f].Values == tr.Values + {f}
  {
    var tr' := tr[q := f];
    assert tr'[q] == f;
    forall v <- tr.Values ensures v in tr'.Values {
      var r :| r in tr && tr[r] == v;
      assert tr'[r] == v;
    }
  }

  lemma GrownStep(ph0: Phys, mine0: set<nat>, ph: Phys, mine: set<nat>, f: nat, ph': Phys)
    requires Grown(ph0, mine0, ph, mine) && f !in mine && Extends(ph, ph', mine, {f})
    ensures Grown(ph0, mine0, ph', mine + {f}) && |ph'.Free()| + 1 == |ph.Free()|
  {
    DifferenceGrows(mine0, mine, f);
    ExtendsTrans(ph0, ph, ph', mine0, mine - mine0, {f});
  }

  lemma DifferenceGrows<T>(a: set<T>, b: set<T>, f: T)
    requires a <= b && f !in b
    ensures (b + {f}) - a == (b - a) + {f} && b == a + (b - a)
  {
  }

  /** From the start of a call, the tables down to `level` are in place. */
  ghost predicate Stage(ph0: Phys, mm0: Mm, tr0: Tree, ph: Phys, mm: Mm, tr: Tree, leaves: seq<Leaf>,
                        ix: Indices, level: nat) {
    && Growing(ph, mm, tr, leaves)
    && PathOf(ix, level) in tr
    && Above(tr0, tr)
    && tr.Keys <= tr0.Keys + Prefixes(ix)
    && Grown(ph0, tr0.Values, ph, tr.Values)
    && |ph.Free()| + |tr| == |ph0.Free()| + |tr0|
    && mm.userCount == mm0.userCount && mm.userPages == mm0.userPages
  }

  lemma StageStep(ph0: Phys, mm0: Mm, tr0: Tree, ph: Phys, mm: Mm, tr: Tree, leaves: seq<Leaf>, ix: Indices,
                  level: nat, r: Outcome<(Phys, Mm, Word)>, tr': Tree)
    requires Stage(ph0, mm0, tr0, ph, mm, tr, leaves, ix, level) && level < 3
    requires LevelResult(ph, mm, tr, leaves, PathOf(ix, level + 1), r, tr')
    ensures if r.Ok? && r.value.2 != 0 then
        Stage(ph0, mm0, tr0, r.value.0, r.value.1, tr', leaves, ix, level + 1)
      else Short(ph0, tr0, ix)
  {
    var q := PathOf(ix, level + 1);
    if q !in tr {
      if r.Ok? && r.value.2 != 0 {
        StageFresh(ph0, mm0, tr0, ph, mm, tr, leaves, ix, level, r.value.0, r.value.1, tr'[q]);
      } else {
        StageShort(ph0, tr0, ph, tr, ix, level);
      }
    }
  }

  lemma InPrefixes(ix: Indices, level: nat)
    requires level <= 3
    ensures PathOf(ix, level) in Prefixes(ix)
  {
  }

  lemma StageShort(ph0: Phys, tr0: Tree, ph: Phys, tr: Tree, ix: Indices, level: nat)
    requires Above(tr0, tr) && tr.Keys <= tr0.Keys + Prefixes(ix) && level < 3 && PathOf(ix, level + 1) !in tr
    requires |ph.Free()| + |tr| == |ph0.Free()| + |tr0|
    requires |tr| + 1 == MAX_PROCESS_PAGES || |ph.Free()| == 0
    ensures Short(ph0, tr0, ix)
  {
    InPrefixes(ix, level + 1);
    GrowingSize(tr0.Keys, tr.Keys, Prefixes(ix), PathOf(ix, level + 1));
  }

  lemma StageFresh(ph0: Phys, mm0: Mm, tr0: Tree, ph: Phys, mm: Mm, tr: Tree, leaves: seq<Leaf>, ix: Indices,
                   level: nat, ph': Phys, mm': Mm, f: Frame)
    requires Stage(ph0, mm0, tr0, ph, mm, tr, leaves, ix, level) && level < 3
    requires PathOf(ix, level + 1) !in tr && f !in tr.Values
    requires Growing(ph', mm', tr[PathOf(ix, level + 1) := f], leaves) && Extends(ph, ph', tr.Values, {f})
    requires mm'.userCount == mm.userCount && mm'.userPages == mm.userPages
    ensures Stage(ph0, mm0, tr0, ph', mm', tr[PathOf(ix, level + 1) := f], leaves, ix, level + 1)
  {
    var q := PathOf(ix, level + 1);
    ValuesGrow(tr, q, f);
    GrownStep(ph0, tr0.Values, ph, tr.Values, f, ph');
    KeysGrow(tr0, tr, ix, level, f);
  }

  lemma KeysGrow(tr0: Tree, tr: Tree, ix: Indices, level: nat, f: Frame)
    requires tr.Keys <= tr0.Keys + Prefixes(ix) && level < 3 && PathOf(ix, level + 1) !in tr && Above(tr0, tr)
    ensures tr[PathOf(ix, level + 1) := f].Keys <= tr0.Keys + Prefixes(ix)
    ensures |tr[PathOf(ix, level + 1) := f]| == |tr| + 1
    ensures Above(tr0, tr[PathOf(ix, level + 1) := f])
  {
    var q := PathOf(ix, level + 1);
    InPrefixes(ix, level + 1);
    assert tr[q := f].Keys == tr.Keys + {q};
  }

  /** The state after the page descriptor is stored in slot i of table t. */
  function LeafStored(ph: Phys, t: Frame, i: nat, page: Word): (ph': Phys)
    requires ph.Valid() && i < PTRS_PER_TABLE
    ensures ph'.Valid() && ph'.Free() == ph.Free() && ph'.memMap == ph.memMap
    ensures forall g :: 0 <= g < PAGING_PAGES && g != t ==> ph'.mem[g] == ph.mem[g]
  {
    var table: seq<Word> := ph.mem[t];
    var ph' := Phys(ph.memMap, ph.mem[t := table[i := Descriptor(page, MMU_PTE_FLAGS)]]);
    assert forall g :: g in ph'.Free() <==> g in ph.Free();
    ph'
  }

  lemma EntryMapped(tr: Tree, leaves: seq<Leaf>, ix: Indices, page: Word, p: Path, i: nat)
    requires p.Level() <= 3
    ensures Entry(tr, leaves + [Leaf(ix, page)], p, i) ==
      if Sub(p, i) == PathOf(ix, 4) then Descriptor(page, MMU_PTE_FLAGS) else Entry(tr, leaves, p, i)
  {
    var leaves' := leaves + [Leaf(ix, page)];
    assert leaves'[..|leaves'| - 1] == leaves;
  }

  /** Storing the page descriptor makes the tree hold one more mapping. */
  lemma LeafGrows(ph: Phys, mm: Mm, tr: Tree, leaves: seq<Leaf>, ix: Indices, page: Word)
    requires Growing(ph, mm, tr, leaves) && PathOf(ix, 3) in tr && ix.i3 < PTRS_PER_TABLE
    ensures Growing(LeafStored(ph, tr[PathOf(ix, 3)], ix.i3, page), mm, tr, leaves + [Leaf(ix, page)])
  {
    var p := PathOf(ix, 3);
    var ph', leaves' := LeafStored(ph, tr[p], ix.i3, page), leaves + [Leaf(ix, page)];
    assert PathOf(ix, 4) == Sub(p, ix.i3);
    forall q, i | q in tr && 0 <= i < PTRS_PER_TABLE
      ensures ph'.mem[tr[q]][i] == Entry(tr, leaves', q, i)
    {
      EntryMapped(tr, leaves, ix, page, q, i);
    }
  }

  lemma TopStep(ph: Phys, mm: Mm, tr: Tree, ix: Indices) returns (tr': Tree)
    requires MmOk(ph, mm, tr)
    ensures EnsureTop(ph, mm).Ok?
    ensures var (ph1, mm1) := EnsureTop(ph, mm).value;
      if mm1.pgd != 0 then Stage(ph, mm, tr, ph1, mm1, tr', Leaves(mm.Log()), ix, 0)
      else Short(ph, tr, ix)
  {
    tr' := tr;
    if mm.pgd != 0 {
      StageStart(ph, mm, tr, Leaves(mm.Log()), ix);
    } else if ph.Free() == {} {
      TopFails(ph, mm, ix);
    } else {
      tr' := TopFresh(ph, mm, ix);
      assert Leaves(mm.Log()) == [];
    }
  }

  lemma StageStart(ph: Phys, mm: Mm, tr: Tree, leaves: seq<Leaf>, ix: Indices)
    requires Growing(ph, mm, tr, leaves)
    ensures Stage(ph, mm, tr, ph, mm, tr, leaves, ix, 0)
  {
    assert tr.Values - tr.Values == {};
  }

  lemma TopFails(ph: Phys, mm: Mm, ix: Indices)
    requires ph.Valid() && mm.Valid() && mm.pgd == 0 && mm.kernelCount == 0 && ph.Free() == {}
    ensures EnsureTop(ph, mm).Ok? && EnsureTop(ph, mm).value.1.pgd == 0
    ensures Short(ph, map[], ix)
  {
    GetFreePageSpec(ph);
    InPrefixes(ix, 0);
    GrowingSize({}, {}, Prefixes(ix), Top);
  }

  lemma TopFresh(ph: Phys, mm: Mm, ix: Indices) returns (tr': Tree)
    requires ph.Valid() && mm.Valid() && mm.pgd == 0 && mm.kernelCount == 0 && mm.userCount == 0
    requires ph.Free() != {}
    ensures EnsureTop(ph, mm).Ok?
    ensures var (ph1, mm1) := EnsureTop(ph, mm).value;
      mm1.pgd != 0 && Stage(ph, mm, map[], ph1, mm1, tr', [], ix, 0)
  {
    hide Stage, Prefixes, FrameAddr;
    var f := FreshTop(ph, mm);
    tr' := map[Top := f];
    FirstTable(ph, mm, f, ix);
  }

  lemma FreshTop(ph: Phys, mm: Mm) returns (f: Frame)
    requires ph.Valid() && mm.Valid() && mm.pgd == 0 && mm.kernelCount == 0 && ph.Free() != {}
    ensures f in ph.Free() && FrameAddr(f) != 0
    ensures EnsureTop(ph, mm) == Ok((Allocated(ph, f), WithTop(mm, f)))
  {
    GetFreePageSpec(ph);
    f := FirstFree(ph.memMap, 0);
    FrameRoundTrip(f);
  }

  /** The task after frame f became its top table. */
  function WithTop(mm: Mm, f: Frame): (mm': Mm)
    requires mm.Valid() && mm.kernelCount == 0
    ensures mm'.Valid() && mm'.Log() == mm.Log()
  {
    WithTable(Mm(FrameAddr(f), mm.userCount, mm.userPages, 0, mm.kernelPages), FrameAddr(f))
  }

  /** The state after frame f is allocated. */
  function Allocated(ph: Phys, f: Frame): (ph': Phys)
    requires ph.Valid()
    ensures ph'.Valid()
  {
    Phys(ph.memMap[f := 1], ph.mem[f := ZeroPage()])
  }

  lemma AllocatedExtends(ph: Phys, f: Frame, mine: set<nat>)
    requires ph.Valid() && f in ph.Free()
    ensures Extends(ph, Allocated(ph, f), mine, {f})
    ensures |Allocated(ph, f).Free()| + 1 == |ph.Free()|
  {
    var ph' := Allocated(ph, f);
    assert forall g :: g in ph'.Free() <==> g in ph.Free() && g != f;
    assert ph'.Free() == ph.Free() - {f};
  }

  lemma FirstGrowing(ph: Phys, mm: Mm, f: Frame)
    requires ph.Valid() && mm.Valid() && mm.kernelCount == 0
    ensures Growing(Allocated(ph, f), WithTop(mm, f), map[Top := f], [])
  {
    var mm0 := Mm(FrameAddr(f), mm.userCount, mm.userPages, 0, mm.kernelPages);
    var none: Tree := map[];
    assert Listing(mm0.Tables(), none);
    RecordGrows(mm0, none, Top, f);
    assert none[Top := f] == map[Top := f];
  }

  lemma FirstTable(ph: Phys, mm: Mm, f: Frame, ix: Indices)
    requires ph.Valid() && mm.Valid() && mm.kernelCount == 0 && mm.userCount == 0 && f in ph.Free()
    ensures Stage(ph, mm, map[], Allocated(ph, f),
                  WithTable(Mm(FrameAddr(f), mm.userCount, mm.userPages, 0, mm.kernelPages), FrameAddr(f)),
                  map[Top := f], [], ix, 0)
  {
    FirstGrowing(ph, mm, f);
    AllocatedExtends(ph, f, {});
    InPrefixes(ix, 0);
    var tr: Tree := map[Top := f];
    assert tr[Top] == f;
    assert tr.Values == {f} && {f} - {} == {f};
  }

  /** One level of the descent: on to the next stage, or out of frames or slots. */
  lemma OneLevel(ph0: Phys, mm0: Mm, tr0: Tree, ph: Phys, mm: Mm, tr: Tree, leaves: seq<Leaf>, ix: Indices,
                 va: Word, level: nat) returns (tr': Tree)
    requires Stage(ph0, mm0, tr0, ph, mm, tr, leaves, ix, level) && level < 3
    requires TableIndex(va, 39 - 9 * level) == ix.At(level)
    ensures IsFrame(FrameAddr(tr[PathOf(ix, level)]))
    ensures var r := MapLevel(ph, mm, FrameAddr(tr[PathOf(ix, level)]), 39 - 9 * level, va);
      if r.Ok? && IsFrame(r.value.2) then
        && Stage(ph0, mm0, tr0, r.value.0, r.value.1, tr', leaves, ix, level + 1)
        && r.value.2 == FrameAddr(tr'[PathOf(ix, level + 1)])
      else Short(ph0, tr0, ix)
  {
    tr' := MapLevelGrows(ph, mm, tr, leaves, ix, va, level);
    var r := MapLevel(ph, mm, FrameAddr(tr[PathOf(ix, level)]), 39 - 9 * level, va);
    StageStep(ph0, mm0, tr0, ph, mm, tr, leaves, ix, level, r, tr');
    if r.Ok? && r.value.2 != 0 {
      FrameRoundTrip(tr'[PathOf(ix, level + 1)]);
    }
  }

  /** A tree that holds the level 3 table of an address holds all its tables. */
  lemma AllPrefixes(tr0: Tree, tr: Tree, ix: Indices)
    requires Above(tr0, tr) && tr.Keys <= tr0.Keys + Prefixes(ix)
    requires PathOf(ix, 3) in tr && forall p, i :: Sub(p, i) in tr ==> p in tr
    ensures tr.Keys == tr0.Keys + Prefixes(ix)
  {
    assert PathOf(ix, 2) in tr by {
      assert PathOf(ix, 3) == Sub(PathOf(ix, 2), ix.At(2));
    }
    assert PathOf(ix, 1) in tr by {
      assert PathOf(ix, 2) == Sub(PathOf(ix, 1), ix.At(1));
    }
    assert PathOf(ix, 0) in tr by {
      assert PathOf(ix, 1) == Sub(PathOf(ix, 0), ix.At(0));
    }
  }

  lemma UnionSize<T>(a: set<T>, b: set<T>)
    ensures |a + b| == |a| + |b - a|
  {
    assert a + b == a + (b - a);
  }

  /** A completed call: the tree holds the mapping and grew by exactly the tables of va. */
  ghost predicate Mapped(ph0: Phys, mm0: Mm, tr0: Tree, ph: Phys, mm: Mm, tr: Tree, leaves: seq<Leaf>,
                         ix: Indices, va: Word, page: Word) {
    && Growing(ph, mm, tr, leaves + [Leaf(ix, page)])
    && Above(tr0, tr)
    && tr.Keys == tr0.Keys + Prefixes(ix)
    && Grown(ph0, tr0.Values, ph, tr.Values)
    && |ph.Free()| + |tr| == |ph0.Free()| + |tr0|
    && mm0.userCount < |mm0.userPages|
    && mm.userCount == mm0.userCount + 1
    && mm.userPages == mm0.userPages[mm0.userCount := UserPage(page, va)]
  }

  lemma GrownStore(ph0: Phys, mine0: set<nat>, ph: Phys, mine: set<nat>, t: Frame, i: nat, page: Word)
    requires Grown(ph0, mine0, ph, mine) && t in mine && i < PTRS_PER_TABLE
    ensures Grown(ph0, mine0, LeafStored(ph, t, i, page), mine)
  {
  }

  lemma StageEnough(ph0: Phys, tr0: Tree, ph: Phys, mm: Mm, tr: Tree, ix: Indices)
    requires tr.Keys == tr0.Keys + Prefixes(ix) && Recorded(mm, tr)
    requires |ph.Free()| + |tr| == |ph0.Free()| + |tr0|
    ensures !Short(ph0, tr0, ix)
  {
    UnionSize(tr0.Keys, Prefixes(ix));
  }

  /** The last step, once every table is in place. */
  lemma LastLevel(ph0: Phys, mm0: Mm, tr0: Tree, ph: Phys, mm: Mm, tr: Tree, leaves: seq<Leaf>, ix: Indices,
                  va: Word, page: Word)
    requires Stage(ph0, mm0, tr0, ph, mm, tr, leaves, ix, 3) && ix.i3 < PTRS_PER_TABLE
    requires mm0.userCount < MAX_PROCESS_PAGES
    ensures Mapped(ph0, mm0, tr0, LeafStored(ph, tr[PathOf(ix, 3)], ix.i3, page), WithMapping(mm, page, va), tr,
                   leaves, ix, va, page)
  {
    AllPrefixes(tr0, tr, ix);
    LeafGrows(ph, mm, tr, leaves, ix, page);
    GrownStore(ph0, tr0.Values, ph, tr.Values, tr[PathOf(ix, 3)], ix.i3, page);
    RecordsKept(LeafStored(ph, tr[PathOf(ix, 3)], ix.i3, page), mm, tr, leaves + [Leaf(ix, page)], page, va);
  }

  lemma RecordsKept(ph: Phys, mm: Mm, tr: Tree, leaves: seq<Leaf>, page: Word, va: Word)
    requires Growing(ph, mm, tr, leaves) && mm.userCount < MAX_PROCESS_PAGES
    ensures Growing(ph, WithMapping(mm, page, va), tr, leaves)
  {
  }

  lemma SetPageResult(ph: Phys, mm: Mm, t: Frame, i: nat, va: Word, page: Word)
    requires ph.Valid() && mm.Valid() && TableIndex(va, 12) == i
    ensures SetPage(ph, mm, FrameAddr(t), va, page) ==
      if mm.userCount == MAX_PROCESS_PAGES then Fault
      else Ok((LeafStored(ph, t, i, page), WithMapping(mm, page, va)))
  {
    FrameRoundTrip(t);
  }

  /** The outcome of map_page: a fault when frames, slots in kernel_pages or slots in
      user_pages are short, and else one more mapping. */
  ghost predicate Done(ph0: Phys, mm0: Mm, tr0: Tree, r: Outcome<(Phys, Mm)>, tr: Tree, leaves: seq<Leaf>,
                       ix: Indices, va: Word, page: Word) {
    if Short(ph0, tr0, ix) || mm0.userCount == MAX_PROCESS_PAGES then r == Fault
    else r.Ok? && Mapped(ph0, mm0, tr0, r.value.0, r.value.1, tr, leaves, ix, va, page)
  }

  lemma LastLevelDone(ph0: Phys, mm0: Mm, tr0: Tree, ph: Phys, mm: Mm, tr: Tree, leaves: seq<Leaf>, ix: Indices,
                      va: Word, page: Word)
    requires Stage(ph0, mm0, tr0, ph, mm, tr, leaves, ix, 3) && TableIndex(va, 12) == ix.i3
    requires mm0.userCount <= MAX_PROCESS_PAGES
    ensures Done(ph0, mm0, tr0, SetPage(ph, mm, FrameAddr(tr[PathOf(ix, 3)]), va, page), tr, leaves, ix, va, page)
  {
    SetPageResult(ph, mm, tr[PathOf(ix, 3)], ix.i3, va, page);
    if mm0.userCount < MAX_PROCESS_PAGES {
      LastLevel(ph0, mm0, tr0, ph, mm, tr, leaves, ix, va, page);
      StageEnough(ph0, tr0, ph, mm, tr, ix);
    }
  }

  lemma MapBelowStep(ph: Phys, mm: Mm, table: Word, va: Word, page: Word, level: nat)
    requires ph.Valid() && mm.Valid() && level <= 3
    ensures level == 3 ==> MapBelow(ph, mm, table, va, page, level) == SetPage(ph, mm, table, va, page)
    ensures level < 3 ==> var r := MapLevel(ph, mm, table, 39 - 9 * level, va);
      MapBelow(ph, mm, table, va, page, level) ==
      if r.Fault? || !IsFrame(r.value.2) then Fault else MapBelow(r.value.0, r.value.1, r.value.2, va, page, level + 1)
  {
  }

  lemma {:induction false} BelowSpec(ph0: Phys, mm0: Mm, tr0: Tree, ph: Phys, mm: Mm, tr: Tree, leaves: seq<Leaf>,
                                     ix: Indices, va: Word, page: Word, level: nat) returns (tr': Tree)
    requires level <= 3 && Stage(ph0, mm0, tr0, ph, mm, tr, leaves, ix, level)
    requires forall l: nat :: l <= 3 ==> TableIndex(va, 39 - 9 * l) == ix.At(l)
    requires mm0.userCount <= MAX_PROCESS_PAGES
    ensures Done(ph0, mm0, tr0, MapBelow(ph, mm, FrameAddr(tr[PathOf(ix, level)]), va, page, level), tr', leaves,
                 ix, va, page)
    decreases 3 - level
  {
    hide MapBelow, MapLevel, SetPage, Mapped, Extends, Shape, Covered;
    tr' := tr;
    MapBelowStep(ph, mm, FrameAddr(tr[PathOf(ix, level)]), va, page, level);
    assert TableIndex(va, 39 - 9 * level) == ix.At(level);
    if level == 3 {
      LastLevelDone(ph0, mm0, tr0, ph, mm, tr, leaves, ix, va, page);
    } else {
      var tr1 := OneLevel(ph0, mm0, tr0, ph, mm, tr, leaves, ix, va, level);
      var r1 := MapLevel(ph, mm, FrameAddr(tr[PathOf(ix, level)]), 39 - 9 * level, va);
      if r1.Ok? && IsFrame(r1.value.2) {
        tr' := BelowSpec(ph0, mm0, tr0, r1.value.0, r1.value.1, tr1, leaves, ix, va, page, level + 1);
      }
    }
  }

  lemma MapPageStep(ph: Phys, mm: Mm, va: Word, page: Word)
    requires ph.Valid() && mm.Valid()
    ensures MapPage(ph, mm, va, page) ==
      match EnsureTop(ph, mm)
      case Fault => Fault
      case Ok((ph0, mm0)) => if mm0.pgd == 0 then Fault else MapBelow(ph0, mm0, mm0.pgd, va, page, 0)
  {
    if EnsureTop(ph, mm).Ok? {
      var (ph0, mm0) := EnsureTop(ph, mm).value;
      MapBelowStep(ph0, mm0, mm0.pgd, va, page, 0);
    }
  }

  lemma IndicesMatch(va: Word)
    ensures forall l: nat :: l <= 3 ==> TableIndex(va, 39 - 9 * l) == IndicesOf(va).At(l)
  {
    hide TableIndex, FieldIndex, Field;
    assert TableIndex(va, 39) == FieldIndex(va, 39) && TableIndex(va, 30) == FieldIndex(va, 30);
    assert TableIndex(va, 21) == FieldIndex(va, 21) && TableIndex(va, 12) == FieldIndex(va, 12);
  }

  /** map_page on a task that meets its invariant: it faults iff frames, slots in
      kernel_pages or slots in user_pages are short, and else adds one mapping. */
  lemma MapPageResult(ph: Phys, mm: Mm, tr: Tree, ix: Indices, va: Word, page: Word) returns (tr': Tree)
    requires MmOk(ph, mm, tr)
    requires forall l: nat :: l <= 3 ==> TableIndex(va, 39 - 9 * l) == ix.At(l)
    ensures Done(ph, mm, tr, MapPage(ph, mm, va, page), tr', Leaves(mm.Log()), ix, va, page)
  {
    hide MapPage, EnsureTop, MapBelow, Mapped, Extends, Shape, Covered, Listing;
    MapPageStep(ph, mm, va, page);
    tr' := TopStep(ph, mm, tr, ix);
    var (ph0, mm0) := EnsureTop(ph, mm).value;
    if mm0.pgd != 0 {
      tr' := BelowSpec(ph, mm, tr, ph0, mm0, tr', Leaves(mm.Log()), ix, va, page, 0);
    }
  }
}
