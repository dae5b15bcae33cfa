/** Where all frames are: free, kernel pages, tables or mappings; and how many that leaves for a
    kernel with no more than 64 tasks. */
module FrameCount {
  import opened Common
  import opened PageTables
  import opened PageTree
  import opened PageCount
  import opened TaskMemory
  import opened ForkIsolation
  import opened MemoryRuns

  // ----- How many frames are in use

  /** The frames that the first n tasks have for tables and mappings. */
  function Held(tasks: seq<Mm>, n: nat): nat
    requires n <= |tasks|
  {
    if n == 0 then 0 else Held(tasks, n - 1) + tasks[n - 1].kernelCount + tasks[n - 1].userCount
  }

  ghost function OwnedBy(owners: Owners, o: Owner): set<Frame> {
    set f | f in owners && owners[f] == o
  }

  /** An owner whose frames are listed without repeats owns as many as the list is long. */
  lemma OwnedSize(owners: Owners, o: Owner, pas: seq<Word>)
    requires OwnsExactly(owners, o, pas)
    ensures |OwnedBy(owners, o)| == |pas|
  {
    var frames: set<Frame> := OwnedBy(owners, o);
    var address := (f: Frame) => FrameAddr(f);
    forall f: Frame, g: Frame | address(f) == address(g) ensures f == g {
      FrameRoundTrip(f);
      FrameRoundTrip(g);
    }
    ImageSize(frames, address);
    DistinctSize(pas);
    forall pa ensures pa in Image(frames, address) <==> pa in Members(pas) {
      if pa in Members(pas) {
        var k :| 0 <= k < |pas| && pas[k] == pa;
        assert address(FrameOf(pa)) == pa && FrameOf(pa) in frames;
      }
      if pa in Image(frames, address) {
        var f :| f in frames && address(f) == pa;
        assert Owns(owners, f, o);
      }
    }
    assert Image(frames, address) == Members(pas);
  }

  lemma TablesSize(owners: Owners, t: nat, tr: Tree)
    requires OwnsTables(owners, t, tr) && Injective(tr)
    ensures |OwnedBy(owners, TableOf(t))| == |tr|
  {
    var at := (p: Path) => if p in tr then tr[p] else 0;
    ImageSize(tr.Keys, at);
    forall f ensures f in OwnedBy(owners, TableOf(t)) <==> f in Image(tr.Keys, at) {
      assert f in OwnedBy(owners, TableOf(t)) <==> Owns(owners, f, TableOf(t));
    }
    assert OwnedBy(owners, TableOf(t)) == Image(tr.Keys, at);
    assert |tr.Keys| == |tr|;
  }

  /** The frames of the kernel pages and of the first n tasks. */
  ghost function OwnedUpTo(owners: Owners, n: nat): set<Frame> {
    set f | f in owners && (owners[f].Kernel? || owners[f].task < n)
  }

  lemma {:induction false} OwnedUpToSize(s: System, trees: seq<Tree>, owners: Owners, n: nat)
    requires SystemOk(s, trees, owners) && n <= |s.tasks|
    ensures |OwnedUpTo(owners, n)| == |s.kernel| + Held(s.tasks, n)
  {
    hide TaskOk, OwnsExactly, OwnedUpTo, OwnedBy;
    if n == 0 {
      OwnedSize(owners, Kernel, s.kernel);
      OwnedByKernel(owners);
    } else {
      var t := n - 1;
      OwnedUpToSize(s, trees, owners, t);
      assert TaskOk(s.ph, owners, t, s.tasks[t], trees[t]);
      TaskFrames(s.ph, owners, t, s.tasks[t], trees[t]);
      OwnedSplit(owners, t);
    }
  }

  lemma OwnedByKernel(owners: Owners)
    ensures OwnedUpTo(owners, 0) == OwnedBy(owners, Kernel)
  {
  }

  lemma OwnedSplit(owners: Owners, t: nat)
    ensures |OwnedUpTo(owners, t + 1)|
         == |OwnedUpTo(owners, t)| + |OwnedBy(owners, TableOf(t))| + |OwnedBy(owners, PageOf(t))|
  {
    var a, b, c := OwnedUpTo(owners, t), OwnedBy(owners, TableOf(t)), OwnedBy(owners, PageOf(t));
    assert OwnedUpTo(owners, t + 1) == a + b + c;
    assert a !! b && a + b !! c;
    assert |a + b + c| == |a| + |b| + |c|;
  }

  lemma TaskFrames(ph: Phys, owners: Owners, t: nat, mm: Mm, tr: Tree)
    requires TaskOk(ph, owners, t, mm, tr)
    ensures |OwnedBy(owners, TableOf(t))| == mm.kernelCount < MAX_PROCESS_PAGES
    ensures |OwnedBy(owners, PageOf(t))| == mm.userCount <= MAX_PROCESS_PAGES
  {
    hide MmOk, OwnsExactly, OwnsTables;
    TaskParts(ph, owners, t, mm, tr);
    TreeCounted(ph, mm, tr);
    TreeInjective(ph, mm, tr);
    TablesSize(owners, t, tr);
    OwnedSize(owners, PageOf(t), Pages(mm.Log()));
  }

  lemma TreeInjective(ph: Phys, mm: Mm, tr: Tree)
    requires MmOk(ph, mm, tr)
    ensures Injective(tr)
  {
  }

  ghost function Range(n: nat): (r: set<nat>)
    ensures |r| == n && forall f: nat :: f in r <==> f < n
  {
    if n == 0 then {} else Range(n - 1) + {n - 1}
  }

  /** Conservation of frames: in a consistent state every managed frame is free, a kernel page,
      or counted once in kernel_pages_count or user_pages_count of one task. */
  lemma FramesConserved(s: System)
    requires Consistent(s)
    ensures |s.ph.Free()| + |s.kernel| + Held(s.tasks, |s.tasks|) == PAGING_PAGES
  {
    hide SystemOk, AlignedLog, Held, TaskOk, Range;
    var trees, owners :| SystemOk(s, trees, owners);
    var n := |s.tasks|;
    OwnedUpToSize(s, trees, owners, n);
    FreeOrOwned(s, trees, owners);
    assert s.ph.Free() !! OwnedUpTo(owners, n);
    assert s.ph.Free() + OwnedUpTo(owners, n) == Range(PAGING_PAGES);
    assert |s.ph.Free() + OwnedUpTo(owners, n)| == |s.ph.Free()| + |OwnedUpTo(owners, n)|;
  }

  lemma FreeOrOwned(s: System, trees: seq<Tree>, owners: Owners)
    requires SystemOk(s, trees, owners)
    ensures forall f: nat :: f < PAGING_PAGES ==> (f in s.ph.Free() <==> f !in OwnedUpTo(owners, |s.tasks|))
    ensures forall f: nat :: f in s.ph.Free() ==> f < PAGING_PAGES
  {
    hide TaskOk, OwnsExactly;
    forall f: nat | f < PAGING_PAGES ensures f in s.ph.Free() <==> f !in OwnedUpTo(owners, |s.tasks|) {
      assert s.ph.Marked(f) <==> f in owners;
    }
  }

  lemma {:induction false} HeldBound(s: System, n: nat)
    requires Consistent(s) && n <= |s.tasks|
    ensures Held(s.tasks, n) <= 31 * n
  {
    hide SystemOk, AlignedLog;
    if n > 0 {
      HeldBound(s, n - 1);
      assert s.tasks[n - 1].Valid();
    }
  }

  /** With at most 64 tasks and a thousand kernel pages, most frames are free: no allocation fails. */
  lemma FramesLeft(s: System)
    requires Consistent(s) && |s.tasks| <= NR_TASKS && |s.kernel| <= 1000
    ensures |s.ph.Free()| >= 250_000
  {
    hide Consistent, Held;
    FramesConserved(s);
    HeldBound(s, |s.tasks|);
  }
}
