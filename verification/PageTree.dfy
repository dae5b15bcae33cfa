/** The page-table tree of one task as a map from index paths to frames, and the proof that
    map_page keeps the tree equal to the log of mappings. */
module PageTree {
  import opened Common
  import opened PageTables

  /** The table reached from the top by a list of indices. */
  datatype Path = Top | Sub(parent: Path, index: nat) {
    function Level(): nat {
      if Top? then 0 else parent.Level() + 1
    }
  }

  type Frame = f: nat | f < PAGING_PAGES

  type Tree = map<Path, Frame>

  /** The four table indices of an address. */
  datatype Indices = Indices(i0: nat, i1: nat, i2: nat, i3: nat) {
    function At(level: nat): nat {
      if level == 0 then i0 else if level == 1 then i1 else if level == 2 then i2 else i3
    }
  }

  /** The path of the first `level` indices. */
  function PathOf(ix: Indices, level: nat): (p: Path)
    ensures p.Level() == level
  {
    if level == 0 then Top else Sub(PathOf(ix, level - 1), ix.At(level - 1))
  }

  /** A mapping as the tree sees it. */
  datatype Leaf = Leaf(ix: Indices, pa: Word)

  function IndicesOf(va: Word): Indices {
    Indices(FieldIndex(va, 39), FieldIndex(va, 30), FieldIndex(va, 21), FieldIndex(va, 12))
  }

  function Leaves(log: seq<UserPage>): (leaves: seq<Leaf>)
    ensures |leaves| == |log|
    ensures forall k :: 0 <= k < |log| ==> leaves[k] == Leaf(IndicesOf(log[k].virtAddr), log[k].physAddr)
  {
    seq(|log|, k requires 0 <= k < |log| => Leaf(IndicesOf(log[k].virtAddr), log[k].physAddr))
  }

  function LastAt(leaves: seq<Leaf>, leaf: Path): Option<Word>
  {
    if leaves == [] then None
    else if PathOf(leaves[|leaves| - 1].ix, 4) == leaf then Some(leaves[|leaves| - 1].pa)
    else LastAt(leaves[..|leaves| - 1], leaf)
  }

  /** The word at index i of the table at path p. */
  function Entry(tr: Tree, leaves: seq<Leaf>, p: Path, i: nat): Word
  {
    if p.Level() == 3 then
      match LastAt(leaves, Sub(p, i))
      case None => 0
      case Some(pa) => Descriptor(pa, MMU_PTE_FLAGS)
    else if Sub(p, i) in tr then Descriptor(FrameAddr(tr[Sub(p, i)]), MM_TYPE_PAGE_TABLE)
    else 0
  }

  ghost predicate Injective(tr: Tree) {
    forall p, q :: p in tr && q in tr && tr[p] == tr[q] ==> p == q
  }

  /** Which frames hold the tables: marked, pairwise distinct, closed under parents. */
  ghost predicate Shape(ph: Phys, tr: Tree) {
    && Top in tr
    && Injective(tr)
    && (forall p <- tr :: p.Level() <= 3 && ph.Marked(tr[p]))
    && (forall p, i :: Sub(p, i) in tr ==> p in tr)
  }

  ghost predicate Entries(ph: Phys, tr: Tree, leaves: seq<Leaf>) {
    ph.Valid() &&
    forall p, i :: p in tr && 0 <= i < PTRS_PER_TABLE ==> ph.mem[tr[p]][i] == Entry(tr, leaves, p, i)
  }

  ghost predicate Covered(tr: Tree, leaves: seq<Leaf>) {
    forall k :: 0 <= k < |leaves| ==> PathOf(leaves[k].ix, 3) in tr
  }

  /** kernel_pages lists the table frames without repeats. */
  ghost predicate Recorded(mm: Mm, tr: Tree) {
    && mm.Valid()
    && mm.kernelCount == |tr|
    && Listing(mm.Tables(), tr)
  }

  /** A task with a top table, possibly in the middle of map_page. */
  ghost predicate Growing(ph: Phys, mm: Mm, tr: Tree, leaves: seq<Leaf>) {
    && Shape(ph, tr)
    && mm.pgd == FrameAddr(tr[Top])
    && Entries(ph, tr, leaves)
    && Covered(tr, leaves)
    && Recorded(mm, tr)
  }

  ghost predicate Touched(leaves: seq<Leaf>, p: Path) {
    p.Level() <= 3 && exists k :: 0 <= k < |leaves| && p == PathOf(leaves[k].ix, p.Level())
  }

  /** The invariant of a task between calls: no tree and no mapping, or a tree whose tables
      are exactly those on the way to a recorded mapping. */
  ghost predicate MmOk(ph: Phys, mm: Mm, tr: Tree) {
    && ph.Valid() && mm.Valid()
    && (forall k :: 0 <= k < mm.userCount ==> IsFrame(mm.userPages[k].physAddr))
    && if mm.pgd == 0 then tr == map[] && mm.userCount == 0 && mm.kernelCount == 0
       else Growing(ph, mm, tr, Leaves(mm.Log())) && forall p <- tr :: Touched(Leaves(mm.Log()), p)
  }

  /** From ph to ph' the frames of `taken` are taken; beyond them only frames of `mine` change. */
  ghost predicate Extends(ph: Phys, ph': Phys, mine: set<nat>, taken: set<nat>) {
    && ph.Valid() && ph'.Valid()
    && taken <= ph.Free() && ph'.Free() == ph.Free() - taken
    && (forall g :: 0 <= g < PAGING_PAGES && g !in taken ==> ph'.memMap[g] == ph.memMap[g])
    && (forall g :: 0 <= g < PAGING_PAGES && g !in taken && g !in mine ==> ph'.mem[g] == ph.mem[g])
  }

  lemma ExtendsTrans(ph: Phys, ph1: Phys, ph2: Phys, mine: set<nat>, f1: set<nat>, f2: set<nat>)
    requires Extends(ph, ph1, mine, f1) && Extends(ph1, ph2, mine + f1, f2)
    ensures Extends(ph, ph2, mine, f1 + f2) && f1 !! f2
  {
  }

  // ----- map_table

  lemma {:induction false} NothingBelow(tr: Tree, leaves: seq<Leaf>, p: Path, i: nat)
    requires p.Level() == 3 && p !in tr && Covered(tr, leaves)
    ensures LastAt(leaves, Sub(p, i)) == None
  {
    if leaves != [] {
      var last := leaves[|leaves| - 1];
      assert PathOf(last.ix, 3) in tr;
      NothingBelow(tr, leaves[..|leaves| - 1], p, i);
    }
  }

  /** Adding the path q changes the expected entry only in the slot that leads to q. */
  lemma EntryGrows(tr: Tree, leaves: seq<Leaf>, q: Path, f: Frame, p: Path, i: nat)
    requires p != q && p.Level() <= 3
    ensures Entry(tr[q := f], leaves, p, i) ==
      if p.Level() < 3 && Sub(p, i) == q then Descriptor(FrameAddr(f), MM_TYPE_PAGE_TABLE)
      else Entry(tr, leaves, p, i)
  {
  }

  lemma EntryFresh(tr: Tree, leaves: seq<Leaf>, q: Path, f: Frame, i: nat)
    requires q !in tr && q.Level() <= 3 && Covered(tr, leaves)
    requires forall p, j :: Sub(p, j) in tr ==> p in tr
    ensures Entry(tr[q := f], leaves, q, i) == 0
  {
    if q.Level() == 3 {
      NothingBelow(tr, leaves, q, i);
    } else {
      assert Sub(q, i) !in tr;
      assert Sub(q, i) != q;
    }
  }

  /** The state after a fresh zeroed table f is stored under slot i of table t. */
  function Linked(ph: Phys, t: Frame, i: nat, f: Frame): (ph': Phys)
    requires ph.Valid() && i < PTRS_PER_TABLE
    ensures ph'.Valid()
  {
    var mem: seq<seq<Word>> := ph.mem[f := ZeroPage()];
    var page: seq<Word> := mem[t];
    Phys(ph.memMap[f := 1], mem[t := page[i := Descriptor(FrameAddr(f), MM_TYPE_PAGE_TABLE)]])
  }

  lemma ShapeGrows(ph: Phys, tr: Tree, p: Path, i: nat, f: Frame)
    requires ph.Valid() && Shape(ph, tr)
    requires p in tr && p.Level() < 3 && i < PTRS_PER_TABLE && !ph.Marked(f)
    ensures Shape(Linked(ph, tr[p], i, f), tr[Sub(p, i) := f])
  {
    hide Injective, Linked;
    LinkedMarks(ph, tr[p], i, f);
    InjectiveGrows(tr, Sub(p, i), f);
  }

  lemma LinkedMarks(ph: Phys, t: Frame, i: nat, f: Frame)
    requires ph.Valid() && i < PTRS_PER_TABLE
    ensures forall g: Frame :: Linked(ph, t, i, f).Marked(g) <==> ph.Marked(g) || g == f
  {
  }

  lemma InjectiveGrows(tr: Tree, q: Path, f: Frame)
    requires Injective(tr) && forall p <- tr :: tr[p] != f
    ensures Injective(tr[q := f])
  {
  }

  lemma EntriesGrow(ph: Phys, tr: Tree, leaves: seq<Leaf>, p: Path, i: nat, f: Frame)
    requires ph.Valid() && Shape(ph, tr) && Entries(ph, tr, leaves) && Covered(tr, leaves)
    requires p in tr && p.Level() < 3 && i < PTRS_PER_TABLE && !ph.Marked(f) && Sub(p, i) !in tr
    requires Shape(Linked(ph, tr[p], i, f), tr[Sub(p, i) := f])
    ensures Entries(Linked(ph, tr[p], i, f), tr[Sub(p, i) := f], leaves)
  {
    var q := Sub(p, i);
    var ph', tr' := Linked(ph, tr[p], i, f), tr[q := f];
    forall r, j | r in tr' && 0 <= j < PTRS_PER_TABLE
      ensures ph'.mem[tr'[r]][j] == Entry(tr', leaves, r, j)
    {
      if r == q {
        assert tr[p] != f;
        EntryFresh(tr, leaves, q, f, j);
      } else {
        EntryGrows(tr, leaves, q, f, r, j);
        assert tr[r] != f;
      }
    }
  }

  /** kernel_pages keeps listing the table frames when one is added. */
  lemma RecordGrows(mm: Mm, tr: Tree, q: Path, f: Frame)
    requires mm.Valid() && Recorded(mm, tr) && q !in tr && f !in tr.Values
    requires mm.kernelCount + 1 < MAX_PROCESS_PAGES
    ensures Recorded(WithTable(mm, FrameAddr(f)), tr[q := f])
  {
    var tr' := tr[q := f];
    assert tr'.Keys == tr.Keys + {q} && |tr'| == |tr| + 1;
    ListingGrows(mm.Tables(), tr, q, f);
  }

  /** pas lists the addresses of the frames of tr without repeats. */
  ghost predicate Listing(pas: seq<Word>, tr: Tree) {
    && |pas| == |tr|
    && (forall k :: 0 <= k < |pas| ==> IsFrame(pas[k]) && FrameOf(pas[k]) in tr.Values)
    && (forall j, k :: 0 <= j < k < |pas| ==> pas[j] != pas[k])
  }

  lemma ListingGrows(pas: seq<Word>, tr: Tree, q: Path, f: Frame)
    requires Listing(pas, tr) && q !in tr && f !in tr.Values
    ensures Listing(pas + [FrameAddr(f)], tr[q := f])
  {
    var tr' := tr[q := f];
    FrameRoundTrip(f);
    assert tr'.Keys == tr.Keys + {q};
    assert tr'[q] == f;
    forall v <- tr.Values ensures v in tr'.Values {
      var r :| r in tr && tr[r] == v;
      assert tr'[r] == v;
    }
  }
}
