/** Whether user code may use the pages it is given: the hardware walk with the permission and
    attribute bits of table and page descriptors. */
module UserAccess {
  import opened Bits
  import opened PageTables
  import opened PageTree
  import opened PageWalk

  /** A table descriptor that takes nothing from what the page descriptors below it allow: APTable
      (bits 62 and 61) and UXNTable (bit 60) are 0. */
  predicate TableAllows(d: Word) {
    Field(d, 60, 3) == 0
  }

  /** A page descriptor that lets EL0 read and write (AP[1], bit 6, is 1 and AP[2], bit 7, is 0) and
      execute (UXN, bit 54, is 0), of normal non-cacheable memory (attribute index, bits 4 to 2, is 1). */
  predicate PageAllows(d: Word) {
    Field(d, 6, 2) == 1 && Field(d, 54, 1) == 0 && Field(d, 2, 3) == 1
  }

  /** The walk on behalf of user code: what it may not use it does not find. */
  function UserWalk(ph: Phys, table: nat, va: Word, level: nat): Translation
    requires ph.Valid() && level <= 3
    decreases 3 - level
  {
    if !IsFrame(table) then NotMapped
    else
      var d := Load(ph, table, FieldIndex(va, 39 - 9 * level));
      var next := Field(d, 12, 36) * PAGE_SIZE;
      if d % 4 == 3 then
        if level == 3 then (if Field(d, 10, 1) == 1 && PageAllows(d) then Page(next) else NotMapped)
        else if TableAllows(d) then UserWalk(ph, next, va, level + 1)
        else NotMapped
      else NotMapped
  }

  lemma HighBitsClear(d: Word, lo: nat, width: nat, m: nat)
    requires Pow2(lo) == m && d < m
    ensures Field(d, lo, width) == 0
  {
    DivModUnique(d, m, 0, d);
    assert Pow2(width) >= 1;
    DivModUnique(0, Pow2(width), 0, 0);
  }

  lemma LargePowers()
    ensures Pow2(54) == 0x40_0000_0000_0000 && Pow2(60) == 0x1000_0000_0000_0000
  {
    Pow2Values();
    Pow2Add(48, 6);
    Pow2Add(48, 12);
  }

  /** The descriptors that map_page stores allow everything. */
  lemma StoredAllow(f: Frame)
    ensures TableAllows(Descriptor(FrameAddr(f), MM_TYPE_PAGE_TABLE))
    ensures PageAllows(Descriptor(FrameAddr(f), MMU_PTE_FLAGS))
  {
    var t, d := Descriptor(FrameAddr(f), MM_TYPE_PAGE_TABLE), Descriptor(FrameAddr(f), MMU_PTE_FLAGS);
    assert t == FrameAddr(f) + MM_TYPE_PAGE_TABLE && d == FrameAddr(f) + MMU_PTE_FLAGS;
    LargePowers();
    HighBitsClear(t, 60, 3, 0x1000_0000_0000_0000);
    HighBitsClear(d, 54, 1, 0x40_0000_0000_0000);
    LowFields(f);
  }

  lemma LowFields(f: Frame)
    ensures var d := FrameAddr(f) + MMU_PTE_FLAGS; Field(d, 6, 2) == 1 && Field(d, 2, 3) == 1
  {
    var d := FrameAddr(f) + MMU_PTE_FLAGS;
    FieldValue(d, 6, 2, 0x40, 4) by {
      assert Pow2(6) == 64 && Pow2(2) == 4;
    }
    FieldValue(d, 2, 3, 4, 8) by {
      assert Pow2(3) == 8 && Pow2(2) == 4;
    }
    DivModUnique(d, 0x40, (1024 + f) * 64 + 0x11, 7);
    DivModUnique((1024 + f) * 64 + 0x11, 4, (1024 + f) * 16 + 4, 1);
    DivModUnique(d, 4, (1024 + f) * 1024 + 0x111, 3);
    DivModUnique((1024 + f) * 1024 + 0x111, 8, (1024 + f) * 128 + 0x22, 1);
  }

  lemma {:induction false} SameBelow(ph: Phys, mm: Mm, tr: Tree, leaves: seq<Leaf>, ix: Indices, va: Word, level: nat)
    requires Growing(ph, mm, tr, leaves) && FramesOnly(leaves) && level <= 3 && PathOf(ix, level) in tr
    requires forall l: nat :: l <= 3 ==> FieldIndex(va, 39 - 9 * l) == ix.At(l)
    ensures UserWalk(ph, FrameAddr(tr[PathOf(ix, level)]), va, level)
         == Walk(ph, FrameAddr(tr[PathOf(ix, level)]), va, level)
    decreases 3 - level
  {
    hide Descriptor, FieldIndex, TableAllows, PageAllows, Field, Walk, UserWalk;
    var p, i := PathOf(ix, level), ix.At(level);
    var t := tr[p];
    assert FieldIndex(va, 39 - 9 * level) == i;
    assert ph.mem[t][i] == Entry(tr, leaves, p, i);
    assert PathOf(ix, level + 1) == Sub(p, i);
    if level == 3 {
      LastAtFrame(leaves, Sub(p, i));
      match LastAt(leaves, Sub(p, i))
      case None => NothingThere(ph, t, va, level);
      case Some(pa) => PageThere(ph, t, va, FrameOf(pa));
    } else if Sub(p, i) in tr {
      TableThere(ph, t, va, level, tr[Sub(p, i)]);
      SameBelow(ph, mm, tr, leaves, ix, va, level + 1);
    } else {
      NothingThere(ph, t, va, level);
    }
  }

  lemma NothingThere(ph: Phys, t: Frame, va: Word, level: nat)
    requires ph.Valid() && level <= 3 && ph.mem[t][FieldIndex(va, 39 - 9 * level)] == 0
    ensures UserWalk(ph, FrameAddr(t), va, level) == NotMapped == Walk(ph, FrameAddr(t), va, level)
  {
    WalkEmpty(ph, t, va, level);
    FrameRoundTrip(t);
  }

  lemma TableThere(ph: Phys, t: Frame, va: Word, level: nat, f: Frame)
    requires ph.Valid() && level < 3
    requires ph.mem[t][FieldIndex(va, 39 - 9 * level)] == Descriptor(FrameAddr(f), MM_TYPE_PAGE_TABLE)
    ensures UserWalk(ph, FrameAddr(t), va, level) == UserWalk(ph, FrameAddr(f), va, level + 1)
    ensures Walk(ph, FrameAddr(t), va, level) == Walk(ph, FrameAddr(f), va, level + 1)
  {
    hide TableAllows;
    WalkTable(ph, t, va, level, f);
    StoredAllow(f);
    FrameRoundTrip(t);
    DescriptorFields(f, MM_TYPE_PAGE_TABLE);
  }

  lemma PageThere(ph: Phys, t: Frame, va: Word, f: Frame)
    requires ph.Valid() && ph.mem[t][FieldIndex(va, 12)] == Descriptor(FrameAddr(f), MMU_PTE_FLAGS)
    ensures UserWalk(ph, FrameAddr(t), va, 3) == Page(FrameAddr(f)) == Walk(ph, FrameAddr(t), va, 3)
  {
    hide PageAllows;
    WalkPage(ph, t, va, f);
    StoredAllow(f);
    FrameRoundTrip(t);
    DescriptorFields(f, MMU_PTE_FLAGS);
  }

  /** User code may read, write and execute exactly what is mapped for its task: with permissions
      the walk finds at every address the page of the last recorded mapping, too. */
  lemma UserFindsMappings(ph: Phys, mm: Mm, tr: Tree, va: Word)
    requires MmOk(ph, mm, tr)
    ensures UserWalk(ph, mm.pgd, va, 0) == Translate(ph, mm, va) == Result(LastMapping(mm.Log(), va))
  {
    hide Walk, UserWalk, IndicesOf, LastMapping, Leaves, Covered, Listing;
    TranslateIsLastMapping(ph, mm, tr, va);
    if mm.pgd == 0 {
      NoTable(ph, va);
    } else {
      IndicesAt(va);
      assert FramesOnly(Leaves(mm.Log()));
      SameBelow(ph, mm, tr, Leaves(mm.Log()), IndicesOf(va), va, 0);
    }
  }

  lemma NoTable(ph: Phys, va: Word)
    requires ph.Valid()
    ensures UserWalk(ph, 0, va, 0) == NotMapped == Walk(ph, 0, va, 0)
  {
  }
}
