/** The main results on one task's page tables: map_page keeps the invariant, the hardware
    walk agrees with the log of mappings, and kernel_pages_count is determined by it. */
module PageWalk {
  import opened Common
  import opened Bits
  import opened PageTables
  import opened PageTree
  import opened MapPageProof

  // ----- Address arithmetic

  /** A wide bit field is made of its high and low parts. */
  lemma FieldSplit(x: nat, lo: nat, w: nat, w': nat)
    ensures Field(x, lo, w + w') == Field(x, lo + w, w') * Pow2(w) + Field(x, lo, w)
  {
    hide Pow2;
    Pow2Add(w, w');
    Pow2Add(lo, w);
    DivDiv(x, Pow2(lo), Pow2(w));
    RemainderSplit(x / Pow2(lo), Pow2(w), Pow2(w'));
  }

  lemma RemainderSplit(y: nat, m: nat, m': nat)
    requires m >= 1 && m' >= 1
    ensures m * m' >= 1 && y % (m * m') == (y / m % m') * m + y % m
  {
    var q, r, s := y / m / m', y / m % m', y % m;
    assert y == (q * m' + r) * m + s;
    Distribute(q, m', r, m);
    RemainderBound(r, s, m, m');
    ProductNonnegative(r, m);
    DivModUnique(y, m * m', q, r * m + s);
  }

  lemma Distribute(q: int, a: int, r: int, m: int)
    ensures (q * a + r) * m == q * (m * a) + r * m
  {
  }

  lemma RemainderBound(r: nat, s: nat, m: nat, m': nat)
    requires r < m' && s < m
    ensures r * m + s < m * m'
  {
    ProductNonnegative(m' - 1 - r, m);
    assert (m' - 1 - r) * m == m * m' - m - r * m;
  }

  lemma DivDiv(x: nat, a: nat, b: nat)
    requires a >= 1 && b >= 1
    ensures a * b >= 1 && x / a / b == x / (a * b)
  {
    var q, r := x / a / b, x / a % b;
    assert x == (x / a) * a + x % a;
    assert x / a == q * b + r;
    assert (q * b + r) * a == q * (a * b) + r * a by {
      Distribute(q, b, r, a);
    }
    RemainderBound(r, x % a, a, b);
    ProductNonnegative(r, a);
    DivModUnique(x, a * b, q, r * a + x % a);
  }

  /** The index prefixes as bit fields of the address. */
  lemma PrefixFields(va: Word)
    ensures var ix := IndicesOf(va);
      && Field(va, 39, 9) == ix.i0 < 512
      && Field(va, 30, 18) == ix.i0 * 512 + ix.i1 && ix.i1 < 512
      && Field(va, 21, 27) == (ix.i0 * 512 + ix.i1) * 512 + ix.i2 && ix.i2 < 512
      && Field(va, 12, 36) == ((ix.i0 * 512 + ix.i1) * 512 + ix.i2) * 512 + ix.i3 && ix.i3 < 512
  {
    Pow2Values();
    FieldSplit(va, 30, 9, 9);
    FieldSplit(va, 21, 9, 18);
    FieldSplit(va, 12, 9, 27);
  }

  // ----- The log, and the walk against it

  /** Two addresses with the same bits 12 to 47. */
  predicate SamePage(a: Word, b: Word) {
    Field(a, 12, 36) == Field(b, 12, 36)
  }

  /** The page of the last recorded mapping of va. */
  function LastMapping(log: seq<UserPage>, va: Word): Option<Word> {
    if log == [] then None
    else if SamePage(log[|log| - 1].virtAddr, va) then Some(log[|log| - 1].physAddr)
    else LastMapping(log[..|log| - 1], va)
  }

  lemma SamePageIndices(a: Word, b: Word)
    ensures SamePage(a, b) <==> IndicesOf(a) == IndicesOf(b)
  {
    PrefixFields(a);
    PrefixFields(b);
  }

  lemma PathsEqual(a: Indices, b: Indices)
    ensures PathOf(a, 4) == PathOf(b, 4) <==> a == b
  {
    assert PathOf(a, 4) == Sub(PathOf(a, 3), a.i3) && PathOf(b, 4) == Sub(PathOf(b, 3), b.i3);
    assert PathOf(a, 3) == Sub(PathOf(a, 2), a.i2) && PathOf(b, 3) == Sub(PathOf(b, 2), b.i2);
    assert PathOf(a, 2) == Sub(PathOf(a, 1), a.i1) && PathOf(b, 2) == Sub(PathOf(b, 1), b.i1);
    assert PathOf(a, 1) == Sub(Top, a.i0) && PathOf(b, 1) == Sub(Top, b.i0);
  }

  lemma {:induction false} LastMappingIsLastAt(log: seq<UserPage>, va: Word)
    ensures LastMapping(log, va) == LastAt(Leaves(log), PathOf(IndicesOf(va), 4))
  {
    if log != [] {
      var last := log[|log| - 1];
      SamePageIndices(last.virtAddr, va);
      PathsEqual(IndicesOf(last.virtAddr), IndicesOf(va));
      assert Leaves(log)[..|log| - 1] == Leaves(log[..|log| - 1]);
      LastMappingIsLastAt(log[..|log| - 1], va);
    }
  }

  /** What the hardware reads out of a descriptor the code stored. */
  lemma DescriptorFields(f: Frame, flags: Word)
    requires flags == MM_TYPE_PAGE_TABLE || flags == MMU_PTE_FLAGS
    ensures var d := Descriptor(FrameAddr(f), flags);
      && d % 4 == 3
      && Field(d, 12, 36) * PAGE_SIZE == FrameAddr(f)
      && (flags == MMU_PTE_FLAGS ==> Field(d, 10, 1) == 1)
  {
    var d := Descriptor(FrameAddr(f), flags);
    assert d == FrameAddr(f) + flags;
    FieldValue(d, 12, 36, 0x1000, 0x10_0000_0000) by {
      Pow2Values();
    }
    FieldValue(d, 10, 1, 0x400, 2) by {
      assert Pow2(10) == 1024 && Pow2(1) == 2;
    }
    DescriptorArithmetic(f, flags);
  }

  lemma FieldValue(x: nat, lo: nat, width: nat, m: nat, n: nat)
    requires Pow2(lo) == m && Pow2(width) == n
    ensures m >= 1 && n >= 1 && Field(x, lo, width) == x / m % n
  {
  }

  lemma DescriptorArithmetic(f: Frame, flags: Word)
    requires flags == MM_TYPE_PAGE_TABLE || flags == MMU_PTE_FLAGS
    ensures var d := FrameAddr(f) + flags;
      && d % 4 == 3
      && d / 0x1000 % 0x10_0000_0000 * PAGE_SIZE == FrameAddr(f)
      && (flags == MMU_PTE_FLAGS ==> d / 0x400 % 2 == 1)
  {
    var d := FrameAddr(f) + flags;
    DivModUnique(d, 4, 0x10_0000 + f * 1024 + flags / 4, 3);
    DivModUnique(d, 0x1000, 1024 + f, flags);
    DivModUnique(1024 + f, 0x10_0000_0000, 0, 1024 + f);
    if flags == MMU_PTE_FLAGS {
      DivModUnique(d, 0x400, 4096 + f * 4 + 1, 0x47);
      DivModUnique(4096 + f * 4 + 1, 2, 2048 + f * 2, 1);
    }
  }

  // ----- Single steps of the walk

  lemma WalkEmpty(ph: Phys, t: Frame, va: Word, level: nat)
    requires ph.Valid() && level <= 3 && ph.mem[t][FieldIndex(va, 39 - 9 * level)] == 0
    ensures Walk(ph, FrameAddr(t), va, level) == NotMapped
  {
    FrameRoundTrip(t);
  }

  lemma WalkTable(ph: Phys, t: Frame, va: Word, level: nat, f: Frame)
    requires ph.Valid() && level < 3
    requires ph.mem[t][FieldIndex(va, 39 - 9 * level)] == Descriptor(FrameAddr(f), MM_TYPE_PAGE_TABLE)
    ensures Walk(ph, FrameAddr(t), va, level) == Walk(ph, FrameAddr(f), va, level + 1)
  {
    FrameRoundTrip(t);
    DescriptorFields(f, MM_TYPE_PAGE_TABLE);
  }

  lemma WalkPage(ph: Phys, t: Frame, va: Word, f: Frame)
    requires ph.Valid() && ph.mem[t][FieldIndex(va, 12)] == Descriptor(FrameAddr(f), MMU_PTE_FLAGS)
    ensures Walk(ph, FrameAddr(t), va, 3) == Page(FrameAddr(f))
  {
    FrameRoundTrip(t);
    DescriptorFields(f, MMU_PTE_FLAGS);
  }

  function Result(mapping: Option<Word>): Translation {
    match mapping
    case None => NotMapped
    case Some(pa) => Page(pa)
  }

  ghost predicate FramesOnly(leaves: seq<Leaf>) {
    forall k :: 0 <= k < |leaves| ==> IsFrame(leaves[k].pa)
  }

  lemma {:induction false} LastAtFrame(leaves: seq<Leaf>, p: Path)
    requires FramesOnly(leaves)
    ensures LastAt(leaves, p).Some? ==> IsFrame(LastAt(leaves, p).value)
  {
    if leaves != [] {
      LastAtFrame(leaves[..|leaves| - 1], p);
    }
  }

  /** Below a missing table nothing is mapped. */
  lemma {:induction false} MissingAbove(tr: Tree, leaves: seq<Leaf>, ix: Indices, level: nat)
    requires level <= 3 && PathOf(ix, level) !in tr && Covered(tr, leaves)
    requires forall p, i :: Sub(p, i) in tr ==> p in tr
    ensures LastAt(leaves, PathOf(ix, 4)) == None
    decreases 3 - level
  {
    if level == 3 {
      assert PathOf(ix, 4) == Sub(PathOf(ix, 3), ix.At(3));
      NothingBelow(tr, leaves, PathOf(ix, 3), ix.At(3));
    } else {
      assert PathOf(ix, level + 1) == Sub(PathOf(ix, level), ix.At(level));
      MissingAbove(tr, leaves, ix, level + 1);
    }
  }

  lemma {:induction false} WalkBelow(ph: Phys, mm: Mm, tr: Tree, leaves: seq<Leaf>, ix: Indices, va: Word, level: nat)
    requires Growing(ph, mm, tr, leaves) && FramesOnly(leaves) && level <= 3 && PathOf(ix, level) in tr
    requires forall l: nat :: l <= 3 ==> FieldIndex(va, 39 - 9 * l) == ix.At(l)
    ensures Walk(ph, FrameAddr(tr[PathOf(ix, level)]), va, level) == Result(LastAt(leaves, PathOf(ix, 4)))
    decreases 3 - level
  {
    hide Walk, Descriptor, FieldIndex;
    var p, i := PathOf(ix, level), ix.At(level);
    var t := tr[p];
    assert FieldIndex(va, 39 - 9 * level) == i;
    assert ph.mem[t][i] == Entry(tr, leaves, p, i);
    assert PathOf(ix, level + 1) == Sub(p, i);
    if level == 3 {
      LastAtFrame(leaves, Sub(p, i));
      match LastAt(leaves, Sub(p, i))
      case None => WalkEmpty(ph, t, va, 3);
      case Some(pa) => WalkPage(ph, t, va, FrameOf(pa));
    } else if Sub(p, i) in tr {
      WalkTable(ph, t, va, level, tr[Sub(p, i)]);
      WalkBelow(ph, mm, tr, leaves, ix, va, level + 1);
    } else {
      WalkEmpty(ph, t, va, level);
      MissingAbove(tr, leaves, ix, level + 1);
    }
  }

  // ----- Main results

  /** The four-level walk of every address finds the page of the last recorded mapping with
      the same bits 12 to 47, and nothing when there is none. */
  lemma TranslateIsLastMapping(ph: Phys, mm: Mm, tr: Tree, va: Word)
    requires MmOk(ph, mm, tr)
    ensures Translate(ph, mm, va) == Result(LastMapping(mm.Log(), va))
  {
    hide Walk, IndicesOf, LastMapping, LastAt, Leaves, Covered, Listing;
    var ix, leaves := IndicesOf(va), Leaves(mm.Log());
    LastMappingIsLastAt(mm.Log(), va);
    IndicesAt(va);
    if mm.pgd == 0 {
      NothingMapped(ph, mm, va);
    } else {
      assert FramesOnly(leaves);
      WalkBelow(ph, mm, tr, leaves, ix, va, 0);
    }
  }

  lemma IndicesAt(va: Word)
    ensures forall l: nat :: l <= 3 ==> FieldIndex(va, 39 - 9 * l) == IndicesOf(va).At(l)
  {
  }

  lemma NothingMapped(ph: Phys, mm: Mm, va: Word)
    requires ph.Valid() && mm.Valid() && mm.pgd == 0 && mm.userCount == 0
    ensures Translate(ph, mm, va) == NotMapped && LastMapping(mm.Log(), va) == None
  {
  }

  /** A log whose mappings need more frames or slots than there are. */
  ghost predicate OutOfRoom(ph: Phys, mm: Mm, tr: Tree, va: Word) {
    Short(ph, tr, IndicesOf(va)) || mm.userCount == MAX_PROCESS_PAGES
  }

  lemma TouchedStays(leaves: seq<Leaf>, leaf: Leaf, p: Path)
    requires Touched(leaves, p)
    ensures Touched(leaves + [leaf], p)
  {
    var k :| 0 <= k < |leaves| && p == PathOf(leaves[k].ix, p.Level());
    assert (leaves + [leaf])[k] == leaves[k];
  }

  lemma PrefixTouched(leaves: seq<Leaf>, leaf: Leaf, p: Path)
    requires p in Prefixes(leaf.ix)
    ensures Touched(leaves + [leaf], p)
  {
    assert (leaves + [leaf])[|leaves|] == leaf;
  }

  /** map_page either faults, exactly when frames or slots are short, or records the mapping,
      keeps the invariant, and takes from the free frames exactly the missing tables. */
  lemma MapPageKeeps(ph: Phys, mm: Mm, tr: Tree, va: Word, page: Word) returns (tr': Tree)
    requires MmOk(ph, mm, tr) && IsFrame(page)
    ensures MapPage(ph, mm, va, page).Fault? <==> OutOfRoom(ph, mm, tr, va)
    ensures !OutOfRoom(ph, mm, tr, va) ==>
      var (ph', mm') := MapPage(ph, mm, va, page).value;
      && MmOk(ph', mm', tr')
      && mm'.Log() == mm.Log() + [UserPage(page, va)]
      && Grown(ph, tr.Values, ph', tr'.Values)
      && tr'.Keys == tr.Keys + Prefixes(IndicesOf(va))
      && |ph'.Free()| == |ph.Free()| - |Needed(tr, IndicesOf(va))|
  {
    hide MmOk, MapPage, Prefixes, Grown, IndicesOf, Growing, Extends;
    ValidTask(ph, mm, tr);
    IndicesMatch(va);
    tr' := MapPageResult(ph, mm, tr, IndicesOf(va), va, page);
    if !OutOfRoom(ph, mm, tr, va) {
      var (ph', mm') := MapPage(ph, mm, va, page).value;
      MappedOk(ph, mm, tr, ph', mm', tr', va, page);
    }
  }

  lemma MappedOk(ph: Phys, mm: Mm, tr: Tree, ph': Phys, mm': Mm, tr': Tree, va: Word, page: Word)
    requires MmOk(ph, mm, tr) && IsFrame(page) && ph'.Valid() && mm'.Valid()
    requires Mapped(ph, mm, tr, ph', mm', tr', Leaves(mm.Log()), IndicesOf(va), va, page)
    ensures MmOk(ph', mm', tr') && mm'.Log() == mm.Log() + [UserPage(page, va)]
    ensures |ph'.Free()| == |ph.Free()| - |Needed(tr, IndicesOf(va))|
  {
    hide IndicesOf, Grown, Growing, Above, Touched, Leaves;
    LogGrows(mm, mm', page, va);
    UnionSize(tr.Keys, Prefixes(IndicesOf(va)));
    PgdSet(ph', mm', tr', Leaves(mm'.Log()));
    FramesStay(mm, mm', page, va);
    NoneTouched(ph, mm, tr);
    AllTouched(tr, tr', Leaves(mm.Log()), Leaf(IndicesOf(va), page));
  }

  lemma PgdSet(ph: Phys, mm: Mm, tr: Tree, leaves: seq<Leaf>)
    requires Growing(ph, mm, tr, leaves)
    ensures mm.pgd != 0
  {
    FrameRoundTrip(tr[Top]);
  }

  lemma NoneTouched(ph: Phys, mm: Mm, tr: Tree)
    requires MmOk(ph, mm, tr)
    ensures forall p <- tr :: Touched(Leaves(mm.Log()), p)
  {
  }

  lemma AllTouched(tr: Tree, tr': Tree, leaves: seq<Leaf>, leaf: Leaf)
    requires forall p <- tr :: Touched(leaves, p)
    requires tr'.Keys == tr.Keys + Prefixes(leaf.ix)
    ensures forall p <- tr' :: Touched(leaves + [leaf], p)
  {
    forall p <- tr' ensures Touched(leaves + [leaf], p) {
      if p in tr {
        TouchedStays(leaves, leaf, p);
      } else {
        PrefixTouched(leaves, leaf, p);
      }
    }
  }

  lemma FramesStay(mm: Mm, mm': Mm, page: Word, va: Word)
    requires mm.Valid() && mm.userCount < MAX_PROCESS_PAGES && IsFrame(page)
    requires forall k :: 0 <= k < mm.userCount ==> IsFrame(mm.userPages[k].physAddr)
    requires mm'.userCount == mm.userCount + 1 && mm'.userPages == mm.userPages[mm.userCount := UserPage(page, va)]
    ensures forall k :: 0 <= k < mm'.userCount ==> IsFrame(mm'.userPages[k].physAddr)
  {
  }

  lemma LogGrows(mm: Mm, mm': Mm, page: Word, va: Word)
    requires mm.Valid() && mm'.Valid() && mm.userCount < MAX_PROCESS_PAGES
    requires mm'.userCount == mm.userCount + 1
    requires mm'.userPages == mm.userPages[mm.userCount := UserPage(page, va)]
    ensures mm'.Log() == mm.Log() + [UserPage(page, va)]
    ensures Leaves(mm'.Log()) == Leaves(mm.Log()) + [Leaf(IndicesOf(va), page)]
  {
    assert mm'.Log() == mm.Log() + [UserPage(page, va)];
  }

  // ----- Runs of map_page on one task

  /** The calls map_page(task, u.virtAddr, u.physAddr) for each u in turn. */
  function MapRun(ph: Phys, mm: Mm, calls: seq<UserPage>): (r: Outcome<(Phys, Mm)>)
    requires ph.Valid() && mm.Valid()
    ensures r.Ok? ==> r.value.0.Valid() && r.value.1.Valid()
    decreases |calls|
  {
    if calls == [] then Ok((ph, mm))
    else
      match MapPage(ph, mm, calls[0].virtAddr, calls[0].physAddr)
      case Fault => Fault
      case Ok((ph1, mm1)) => MapRun(ph1, mm1, calls[1..])
  }

  lemma ValidTask(ph: Phys, mm: Mm, tr: Tree)
    requires MmOk(ph, mm, tr)
    ensures ph.Valid() && mm.Valid()
  {
  }

  lemma {:induction false} MapRunKeeps(ph: Phys, mm: Mm, tr: Tree, calls: seq<UserPage>) returns (tr': Tree)
    requires MmOk(ph, mm, tr) && forall k :: 0 <= k < |calls| ==> IsFrame(calls[k].physAddr)
    requires MapRun(ph, mm, calls).Ok?
    ensures var (ph', mm') := MapRun(ph, mm, calls).value;
      MmOk(ph', mm', tr') && mm'.Log() == mm.Log() + calls
    decreases |calls|
  {
    hide MmOk, MapPage, OutOfRoom, Grown, Needed, Prefixes, IndicesOf, IsFrame;
    ValidTask(ph, mm, tr);
    tr' := tr;
    if calls == [] {
      assert mm.Log() + calls == mm.Log();
    } else {
      var u := calls[0];
      assert IsFrame(u.physAddr);
      var tr1 := MapPageKeeps(ph, mm, tr, u.virtAddr, u.physAddr);
      var (ph1, mm1) := MapPage(ph, mm, u.virtAddr, u.physAddr).value;
      tr' := MapRunKeeps(ph1, mm1, tr1, calls[1..]);
      assert mm.Log() + [u] + calls[1..] == mm.Log() + calls;
    }
  }

  /** After any run of map_page on a task without memory, the walk of every address finds the
      page of the last call with the same bits 12 to 47, and nothing when there was none. */
  lemma MapRunTranslates(ph: Phys, mm: Mm, calls: seq<UserPage>, va: Word)
    requires ph.Valid() && mm.Valid() && mm.pgd == 0 && mm.userCount == 0 && mm.kernelCount == 0
    requires forall k :: 0 <= k < |calls| ==> IsFrame(calls[k].physAddr)
    requires MapRun(ph, mm, calls).Ok?
    ensures var (ph', mm') := MapRun(ph, mm, calls).value;
      Translate(ph', mm', va) == Result(LastMapping(calls, va))
  {
    hide LastMapping, Translate, MapRun;
    assert MmOk(ph, mm, map[]);
    var tr' := MapRunKeeps(ph, mm, map[], calls);
    var (ph', mm') := MapRun(ph, mm, calls).value;
    assert mm.Log() + calls == calls;
    TranslateIsLastMapping(ph', mm', tr', va);
  }
}
