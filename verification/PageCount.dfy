/** kernel_pages: it lists exactly the tables the hardware can reach, and how many there are
    is determined by the mapped addresses. */
module PageCount {
  import opened Common
  import opened PageTables
  import opened PageTree
  import opened PageWalk

  // ----- Cardinalities

  ghost predicate InjectiveOn<T(!new), U>(s: set<T>, f: T -> U) {
    forall x, y :: x in s && y in s && f(x) == f(y) ==> x == y
  }

  ghost function Image<T, U>(s: set<T>, f: T -> U): set<U> {
    set x <- s :: f(x)
  }

  /** An injective image is as large as the set. */
  lemma {:induction false} ImageSize<T(!new), U>(s: set<T>, f: T -> U)
    requires InjectiveOn(s, f)
    ensures |Image(s, f)| == |s|
  {
    if s != {} {
      var x :| x in s;
      var rest := s - {x};
      ImageSize(rest, f);
      assert Image(s, f) == Image(rest, f) + {f(x)};
      assert f(x) !in Image(rest, f);
    }
  }

  lemma SameSize<T>(a: set<T>, b: set<T>)
    requires a <= b && |a| == |b|
    ensures a == b
  {
    assert b == a + (b - a);
  }

  ghost function Members<T>(s: seq<T>): set<T> {
    set x | x in s
  }

  lemma {:induction false} DistinctSize<T>(s: seq<T>)
    requires forall j, k :: 0 <= j < k < |s| ==> s[j] != s[k]
    ensures |Members(s)| == |s|
  {
    if s != [] {
      var last, init := s[|s| - 1], s[..|s| - 1];
      DistinctSize(init);
      assert Members(s) == Members(init) + {last};
      assert last !in init;
    }
  }

  // ----- kernel_pages is the set of tables

  /** The table that the hardware consults at `level` for va, starting from `table` at level `from`. */
  function TableAt(ph: Phys, table: nat, va: Word, from: nat, level: nat): Option<nat>
    requires ph.Valid() && from <= level <= 3
    decreases level - from
  {
    if !IsFrame(table) then None
    else if from == level then Some(table)
    else
      var d := Load(ph, table, FieldIndex(va, 39 - 9 * from));
      if d % 4 == 3 then TableAt(ph, Field(d, 12, 36) * PAGE_SIZE, va, from + 1, level) else None
  }

  lemma TableStep(ph: Phys, t: Frame, va: Word, from: nat, level: nat)
    requires ph.Valid() && from < level <= 3
    ensures var d := ph.mem[t][FieldIndex(va, 39 - 9 * from)];
      && (d == 0 ==> TableAt(ph, FrameAddr(t), va, from, level) == None)
      && (forall f: Frame :: d == Descriptor(FrameAddr(f), MM_TYPE_PAGE_TABLE) ==>
            TableAt(ph, FrameAddr(t), va, from, level) == TableAt(ph, FrameAddr(f), va, from + 1, level))
  {
    FrameRoundTrip(t);
    forall f: Frame
      ensures Descriptor(FrameAddr(f), MM_TYPE_PAGE_TABLE) % 4 == 3
      ensures Field(Descriptor(FrameAddr(f), MM_TYPE_PAGE_TABLE), 12, 36) * PAGE_SIZE == FrameAddr(f)
    {
      DescriptorFields(f, MM_TYPE_PAGE_TABLE);
    }
  }

  lemma {:induction false} TableAbsent(tr: Tree, ix: Indices, from: nat, level: nat)
    requires from <= level <= 3 && PathOf(ix, from) !in tr
    requires forall p, i :: Sub(p, i) in tr ==> p in tr
    ensures PathOf(ix, level) !in tr
    decreases level - from
  {
    if from < level {
      assert PathOf(ix, from + 1) == Sub(PathOf(ix, from), ix.At(from));
      TableAbsent(tr, ix, from + 1, level);
    }
  }

  lemma TreeEntry(ph: Phys, mm: Mm, tr: Tree, leaves: seq<Leaf>, p: Path, i: nat)
    requires Growing(ph, mm, tr, leaves) && p in tr && p.Level() < 3 && i < PTRS_PER_TABLE
    ensures ph.Valid()
    ensures ph.mem[tr[p]][i] ==
      if Sub(p, i) in tr then Descriptor(FrameAddr(tr[Sub(p, i)]), MM_TYPE_PAGE_TABLE) else 0
  {
    hide Descriptor, Shape, Recorded, Covered;
    assert ph.mem[tr[p]][i] == Entry(tr, leaves, p, i);
  }

  lemma NoTableBelow(ph: Phys, mm: Mm, tr: Tree, leaves: seq<Leaf>, ix: Indices, from: nat, level: nat)
    requires Growing(ph, mm, tr, leaves) && from <= level <= 3 && PathOf(ix, from) !in tr
    ensures PathOf(ix, level) !in tr
  {
    hide Entries, Recorded, Covered;
    TableAbsent(tr, ix, from, level);
  }

  lemma {:induction false} TableAtIsTree(ph: Phys, mm: Mm, tr: Tree, leaves: seq<Leaf>, ix: Indices, va: Word,
                                         from: nat, level: nat)
    requires Growing(ph, mm, tr, leaves) && from <= level <= 3 && PathOf(ix, from) in tr
    requires forall l: nat :: l <= 3 ==> FieldIndex(va, 39 - 9 * l) == ix.At(l)
    ensures ph.Valid()
    ensures TableAt(ph, FrameAddr(tr[PathOf(ix, from)]), va, from, level) ==
      if PathOf(ix, level) in tr then Some(FrameAddr(tr[PathOf(ix, level)])) else None
    decreases level - from
  {
    hide TableAt, Descriptor, FieldIndex, Growing;
    GrowingValid(ph, mm, tr, leaves);
    var p, i := PathOf(ix, from), ix.At(from);
    var t := tr[p];
    if from == level {
      TableHere(ph, t, va, from);
    } else {
      assert FieldIndex(va, 39 - 9 * from) == i;
      TreeEntry(ph, mm, tr, leaves, p, i);
      assert PathOf(ix, from + 1) == Sub(p, i);
      TableStep(ph, t, va, from, level);
      if Sub(p, i) in tr {
        TableAtIsTree(ph, mm, tr, leaves, ix, va, from + 1, level);
      } else {
        NoTableBelow(ph, mm, tr, leaves, ix, from + 1, level);
      }
    }
  }

  lemma GrowingValid(ph: Phys, mm: Mm, tr: Tree, leaves: seq<Leaf>)
    requires Growing(ph, mm, tr, leaves)
    ensures ph.Valid()
  {
  }

  lemma TableHere(ph: Phys, t: Frame, va: Word, level: nat)
    requires ph.Valid() && level <= 3
    ensures TableAt(ph, FrameAddr(t), va, level, level) == Some(FrameAddr(t))
  {
    FrameRoundTrip(t);
  }

  ghost function Owned(tr: Tree): set<Word> {
    set p <- tr.Keys :: FrameAddr(tr[p])
  }

  /** The addresses in a listing are those of the tree's frames. */
  lemma ListingIsTree(pas: seq<Word>, tr: Tree)
    requires Listing(pas, tr) && Injective(tr)
    ensures Members(pas) == Owned(tr)
  {
    DistinctSize(pas);
    TreeSize(tr);
    forall pa <- Members(pas) ensures pa in Owned(tr) {
      var k :| 0 <= k < |pas| && pas[k] == pa;
      var p :| p in tr && tr[p] == FrameOf(pa);
      assert FrameAddr(tr[p]) == pa;
    }
    SameSize(Members(pas), Owned(tr));
  }

  lemma TreeSize(tr: Tree)
    requires Injective(tr)
    ensures |Owned(tr)| == |tr|
  {
    var f: Path -> Word := p => if p in tr then FrameAddr(tr[p]) else 0;
    forall p, q | p in tr.Keys && q in tr.Keys && f(p) == f(q) ensures p == q {
      FrameRoundTrip(tr[p]);
      FrameRoundTrip(tr[q]);
    }
    ImageSize(tr.Keys, f);
    assert Owned(tr) == Image(tr.Keys, f);
    assert |tr.Keys| == |tr|;
  }

  /** Some address makes the hardware consult the table at pa. */
  ghost predicate Reached(ph: Phys, pgd: nat, pa: nat) {
    ph.Valid() && exists va: Word, level: nat :: level <= 3 && TableAt(ph, pgd, va, 0, level) == Some(pa)
  }

  /** kernel_pages[1..kernel_pages_count] lists, without repeats, exactly the tables that some
      address makes the hardware consult. */
  lemma KernelPagesAreTheTables(ph: Phys, mm: Mm, tr: Tree)
    requires MmOk(ph, mm, tr) && mm.pgd != 0
    ensures forall j, k :: 0 <= j < k < |mm.Tables()| ==> mm.Tables()[j] != mm.Tables()[k]
    ensures forall pa :: pa in mm.Tables() <==> Reached(ph, mm.pgd, pa)
  {
    hide Reached, Shape, Entries, Covered, Touched;
    forall pa ensures pa in mm.Tables() <==> Reached(ph, mm.pgd, pa) {
      if pa in mm.Tables() {
        TableIsReached(ph, mm, tr, pa);
      }
      if Reached(ph, mm.pgd, pa) {
        ReachedIsTable(ph, mm, tr, pa);
      }
    }
  }

  lemma TouchedReached(ph: Phys, mm: Mm, tr: Tree, va: Word, level: nat)
    requires Growing(ph, mm, tr, Leaves(mm.Log())) && level <= 3
    ensures TableAt(ph, mm.pgd, va, 0, level) ==
      if PathOf(IndicesOf(va), level) in tr then Some(FrameAddr(tr[PathOf(IndicesOf(va), level)])) else None
  {
    hide TableAt, IndicesOf, Entries, Covered, Listing;
    IndicesAt(va);
    TableAtIsTree(ph, mm, tr, Leaves(mm.Log()), IndicesOf(va), va, 0, level);
  }

  lemma TouchedBy(log: seq<UserPage>, p: Path) returns (va: Word)
    requires Touched(Leaves(log), p)
    ensures p == PathOf(IndicesOf(va), p.Level())
  {
    var k :| 0 <= k < |log| && p == PathOf(Leaves(log)[k].ix, p.Level());
    va := log[k].virtAddr;
  }

  lemma TableIsReached(ph: Phys, mm: Mm, tr: Tree, pa: Word)
    requires MmOk(ph, mm, tr) && mm.pgd != 0 && pa in mm.Tables()
    ensures Reached(ph, mm.pgd, pa)
  {
    hide TableAt, IndicesOf, Entries, Covered, Touched, Leaves;
    ListingIsTree(mm.Tables(), tr);
    assert pa in Members(mm.Tables());
    var p :| p in tr && FrameAddr(tr[p]) == pa;
    assert Touched(Leaves(mm.Log()), p);
    var va := TouchedBy(mm.Log(), p);
    TouchedReached(ph, mm, tr, va, p.Level());
  }

  lemma ReachedIsTable(ph: Phys, mm: Mm, tr: Tree, pa: nat)
    requires MmOk(ph, mm, tr) && mm.pgd != 0 && Reached(ph, mm.pgd, pa)
    ensures pa in mm.Tables()
  {
    hide TableAt, IndicesOf, Entries, Covered, Touched, Leaves;
    var va: Word, level: nat :| level <= 3 && TableAt(ph, mm.pgd, va, 0, level) == Some(pa);
    TouchedReached(ph, mm, tr, va, level);
    ListingIsTree(mm.Tables(), tr);
    assert pa in Owned(tr);
    assert pa in Members(mm.Tables());
  }

  // ----- How many tables there are

  /** The values of bits [lo + width - 1 : lo] over the mapped addresses. */
  ghost function FieldsOf(log: seq<UserPage>, lo: nat, width: nat): set<nat> {
    set u | u in log :: Field(u.virtAddr, lo, width)
  }

  /** A path as the number its indices spell in base 512. */
  function Number(p: Path): nat {
    if p.Top? then 0 else Number(p.parent) * 512 + p.index
  }

  lemma {:induction false} NumberInjective(p: Path, q: Path)
    requires SmallIndices(p) && SmallIndices(q) && p.Level() == q.Level() && Number(p) == Number(q)
    ensures p == q
  {
    if p.Sub? {
      NumberInjective(p.parent, q.parent);
    }
  }

  predicate SmallIndices(p: Path) {
    p.Top? || (p.index < PTRS_PER_TABLE && SmallIndices(p.parent))
  }

  lemma PathNumbers(va: Word, level: nat)
    requires 1 <= level <= 3
    ensures Number(PathOf(IndicesOf(va), level)) == Field(va, 48 - 9 * level, 9 * level)
    ensures SmallIndices(PathOf(IndicesOf(va), level))
  {
    PrefixFields(va);
    var ix := IndicesOf(va);
    assert PathOf(ix, 1) == Sub(Top, ix.i0);
    assert PathOf(ix, 2) == Sub(PathOf(ix, 1), ix.i1);
    assert PathOf(ix, 3) == Sub(PathOf(ix, 2), ix.i2);
  }

  ghost function AtLevel(tr: Tree, level: nat): set<Path> {
    set p <- tr.Keys | p.Level() == level
  }

  /** Below the top, the tables of a level are as many as the prefixes of that level. */
  lemma LevelSize(ph: Phys, mm: Mm, tr: Tree, level: nat)
    requires MmOk(ph, mm, tr) && mm.pgd != 0 && 1 <= level <= 3
    ensures |AtLevel(tr, level)| == |FieldsOf(mm.Log(), 48 - 9 * level, 9 * level)|
  {
    hide MmOk, FieldsOf, AtLevel;
    var paths := AtLevel(tr, level);
    LevelNumbers(ph, mm, tr, level);
    LevelSmall(ph, mm, tr, level);
    forall p, q | p in paths && q in paths && Number(p) == Number(q) ensures p == q {
      NumberInjective(p, q);
    }
    ImageSize(paths, Number);
  }

  lemma LevelSmall(ph: Phys, mm: Mm, tr: Tree, level: nat)
    requires MmOk(ph, mm, tr) && 1 <= level <= 3
    ensures forall p <- AtLevel(tr, level) :: SmallIndices(p) && p.Level() == level
    ensures forall p <- AtLevel(tr, level) :: Number(p) in FieldsOf(mm.Log(), 48 - 9 * level, 9 * level)
  {
    hide MmOk, IndicesOf, Field, SmallIndices;
    forall p <- AtLevel(tr, level)
      ensures SmallIndices(p) && Number(p) in FieldsOf(mm.Log(), 48 - 9 * level, 9 * level)
    {
      var va := LevelTouched(ph, mm, tr, p);
      PathNumbers(va, level);
    }
  }

  lemma LevelNumbers(ph: Phys, mm: Mm, tr: Tree, level: nat)
    requires MmOk(ph, mm, tr) && mm.pgd != 0 && 1 <= level <= 3
    ensures Image(AtLevel(tr, level), Number) == FieldsOf(mm.Log(), 48 - 9 * level, 9 * level)
  {
    hide MmOk, IndicesOf, Field, AtLevel, SmallIndices;
    var paths, numbers := AtLevel(tr, level), FieldsOf(mm.Log(), 48 - 9 * level, 9 * level);
    LevelSmall(ph, mm, tr, level);
    forall n <- numbers ensures n in Image(paths, Number) {
      var u :| u in mm.Log() && n == Field(u.virtAddr, 48 - 9 * level, 9 * level);
      PathNumbers(u.virtAddr, level);
      LevelMember(ph, mm, tr, u, level);
    }
  }

  lemma LevelTouched(ph: Phys, mm: Mm, tr: Tree, p: Path) returns (va: Word)
    requires MmOk(ph, mm, tr) && p in tr
    ensures p == PathOf(IndicesOf(va), p.Level())
    ensures exists u :: u in mm.Log() && u.virtAddr == va
  {
    hide IndicesOf, Entries, Listing, Shape, Covered;
    var leaves := Leaves(mm.Log());
    assert Touched(leaves, p);
    var k :| 0 <= k < |leaves| && p == PathOf(leaves[k].ix, p.Level());
    va := mm.Log()[k].virtAddr;
    assert mm.Log()[k] in mm.Log();
  }

  lemma LevelMember(ph: Phys, mm: Mm, tr: Tree, u: UserPage, level: nat)
    requires MmOk(ph, mm, tr) && u in mm.Log() && level <= 3
    ensures PathOf(IndicesOf(u.virtAddr), level) in AtLevel(tr, level)
  {
    hide IndicesOf, Entries, Recorded, Shape;
    var k :| 0 <= k < mm.userCount && mm.Log()[k] == u;
    var leaves := Leaves(mm.Log());
    assert PathOf(leaves[k].ix, 3) in tr;
    if PathOf(IndicesOf(u.virtAddr), level) !in tr {
      NoTableBelow(ph, mm, tr, leaves, IndicesOf(u.virtAddr), level, 3);
    }
  }

  /** For a non-empty map, kernel_pages_count is 1 plus the numbers of distinct 9-, 18- and
      27-bit prefixes, below bit 48, of the mapped addresses. */
  lemma KernelPagesCount(ph: Phys, mm: Mm, tr: Tree)
    requires MmOk(ph, mm, tr) && mm.pgd != 0
    ensures mm.kernelCount == 1 + |FieldsOf(mm.Log(), 39, 9)| + |FieldsOf(mm.Log(), 30, 18)|
                                + |FieldsOf(mm.Log(), 21, 27)|
  {
    hide IndicesOf, Entries, Listing, Field, FieldsOf, Covered, Touched;
    LevelSize(ph, mm, tr, 1);
    LevelSize(ph, mm, tr, 2);
    LevelSize(ph, mm, tr, 3);
    LevelsAdd(tr);
  }

  lemma LevelsAdd(tr: Tree)
    requires Top in tr && forall p <- tr :: p.Level() <= 3
    ensures |tr| == 1 + |AtLevel(tr, 1)| + |AtLevel(tr, 2)| + |AtLevel(tr, 3)|
  {
    var a, b, c := AtLevel(tr, 1), AtLevel(tr, 2), AtLevel(tr, 3);
    assert tr.Keys == {Top} + a + b + c;
    assert |tr.Keys| == |tr|;
    assert |{Top} + a| == 1 + |a| && |{Top} + a + b| == 1 + |a| + |b|;
  }
}
