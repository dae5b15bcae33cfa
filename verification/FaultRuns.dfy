/** A page fault that nobody comes between: its statements add up to allocate_user_page. */
module FaultRuns {
  import opened Common
  import opened PageTables
  import opened PageTree
  import opened MapPageProof
  import opened TaskMemory
  import opened PageFaults

  ghost predicate Possible(b: State, t: nat, acts: seq<Act>)
    decreases |acts|
  {
    acts == [] || (Enabled(b, t, acts[0]) && Possible(Next(b, t, acts[0]), t, acts[1..]))
  }

  ghost function Alone(b: State, t: nat, acts: seq<Act>): State
    requires Possible(b, t, acts)
    decreases |acts|
  {
    if acts == [] then b else Alone(Next(b, t, acts[0]), t, acts[1..])
  }

  ghost predicate Leads(b: State, t: nat, acts: seq<Act>, b': State) {
    Possible(b, t, acts) && Alone(b, t, acts) == b'
  }

  lemma {:induction false} LeadsTrans(a: State, t: nat, r1: seq<Act>, b: State, r2: seq<Act>, c: State)
    requires Leads(a, t, r1, b) && Leads(b, t, r2, c)
    ensures Leads(a, t, r1 + r2, c)
    decreases |r1|
  {
    hide Next, Enabled;
    if r1 == [] {
      assert r1 + r2 == r2;
    } else {
      assert (r1 + r2)[1..] == r1[1..] + r2;
      LeadsTrans(Next(a, t, r1[0]), t, r1[1..], b, r2, c);
    }
  }

  lemma OneAct(b: State, t: nat, a: Act)
    requires Enabled(b, t, a)
    ensures Leads(b, t, [a], Next(b, t, a))
  {
    assert [a][1..] == [];
  }

  /** The state in which task t has this memory and this job. */
  function With(b: State, t: nat, ph: Phys, mm: Mm, job: Job): State
    requires t < |b.jobs| == |b.s.tasks|
  {
    State(System(ph, b.s.kernel, b.s.tasks[t := mm]), b.jobs[t := job])
  }

  ghost predicate Ready(b: State, t: nat, ph: Phys, mm: Mm) {
    Wellformed(b) && t < |b.jobs| && ph.Valid() && mm.Valid()
  }

  lemma WithWell(b: State, t: nat, ph: Phys, mm: Mm, job: Job)
    requires Ready(b, t, ph, mm)
    ensures Wellformed(With(b, t, ph, mm, job))
  {
  }

  lemma WithTwice(b: State, t: nat, ph: Phys, mm: Mm, job: Job, ph': Phys, mm': Mm, job': Job)
    requires t < |b.jobs| == |b.s.tasks|
    ensures With(With(b, t, ph, mm, job), t, ph', mm', job') == With(b, t, ph', mm', job')
    ensures After(With(b, t, ph, mm, job), t, Ok((ph', mm', job'))) == With(b, t, ph', mm', job')
  {
    assert b.s.tasks[t := mm][t := mm'] == b.s.tasks[t := mm'];
    assert b.jobs[t := job][t := job'] == b.jobs[t := job'];
  }

  /** The loop of get_free_page finds the first free frame. */
  lemma {:induction false} LoopAlone(b: State, t: nat, ph: Phys, mm: Mm, p: Place, i: nat) returns (acts: seq<Act>)
    requires Ready(b, t, ph, mm) && i <= FirstFree(ph.memMap, 0) < PAGING_PAGES && i <= |ph.memMap|
    requires FirstFree(ph.memMap, i) == FirstFree(ph.memMap, 0)
    ensures Leads(With(b, t, ph, mm, Loop(p, i)), t, acts, With(b, t, ph, mm, Holding(p, FirstFree(ph.memMap, 0))))
    decreases PAGING_PAGES - i
  {
    hide Leads;
    var c := With(b, t, ph, mm, Loop(p, i));
    WithWell(b, t, ph, mm, Loop(p, i));
    OneAct(c, t, Test);
    var job' := if ph.memMap[i] == 0 then Holding(p, i) else Loop(p, i + 1);
    WithTwice(b, t, ph, mm, Loop(p, i), ph, mm, job');
    TestStep(b, t, ph, mm, p, i);
    acts := [Test];
    if ph.memMap[i] != 0 {
      var rest := LoopAlone(b, t, ph, mm, p, i + 1);
      LeadsTrans(c, t, [Test], With(b, t, ph, mm, job'), rest, With(b, t, ph, mm, Holding(p, FirstFree(ph.memMap, 0))));
      acts := [Test] + rest;
    }
  }

  lemma TestStep(b: State, t: nat, ph: Phys, mm: Mm, p: Place, i: nat)
    requires Ready(b, t, ph, mm) && i < PAGING_PAGES && Enabled(With(b, t, ph, mm, Loop(p, i)), t, Test)
    ensures Next(With(b, t, ph, mm, Loop(p, i)), t, Test)
         == With(b, t, ph, mm, if ph.memMap[i] == 0 then Holding(p, i) else Loop(p, i + 1))
  {
    var job' := if ph.memMap[i] == 0 then Holding(p, i) else Loop(p, i + 1);
    assert b.jobs[t := Loop(p, i)][t := job'] == b.jobs[t := job'];
  }

  /** A whole get_free_page, and its frame put in place. */
  lemma TakeAlone(b: State, t: nat, ph: Phys, mm: Mm, p: Place) returns (acts: seq<Act>)
    requires Ready(b, t, ph, mm) && FirstFree(ph.memMap, 0) < PAGING_PAGES
    requires Put(ph, mm, p, FirstFree(ph.memMap, 0)).Ok?
    ensures var r := Put(ph, mm, p, FirstFree(ph.memMap, 0)).value;
      Leads(With(b, t, ph, mm, Loop(p, 0)), t, acts, With(b, t, r.0, r.1, r.2))
  {
    hide Leads, Put;
    var f := FirstFree(ph.memMap, 0);
    var r := Put(ph, mm, p, f).value;
    acts := LoopAlone(b, t, ph, mm, p, 0);
    var c := With(b, t, ph, mm, Holding(p, f));
    WithWell(b, t, ph, mm, Holding(p, f));
    OneAct(c, t, Mark);
    WithTwice(b, t, ph, mm, Holding(p, f), r.0, r.1, r.2);
    assert Next(c, t, Mark) == With(b, t, r.0, r.1, r.2);
    LeadsTrans(With(b, t, ph, mm, Loop(p, 0)), t, acts, c, [Mark], With(b, t, r.0, r.1, r.2));
    acts := acts + [Mark];
  }

  lemma DescendAlone(b: State, t: nat, ph: Phys, mm: Mm, p: Place)
    requires Ready(b, t, ph, mm) && p.page.Some? && Walked(ph, mm, p).Ok?
    ensures var r := Walked(ph, mm, p).value;
      Leads(With(b, t, ph, mm, Mapping(p)), t, [Descend], With(b, t, r.0, r.1, r.2))
  {
    hide Walked, Leads;
    var r := Walked(ph, mm, p).value;
    WithWell(b, t, ph, mm, Mapping(p));
    OneAct(With(b, t, ph, mm, Mapping(p)), t, Descend);
    WithTwice(b, t, ph, mm, Mapping(p), r.0, r.1, r.2);
  }

  /** The start of map_page is EnsureTop. */
  lemma TopAlone(b: State, t: nat, ph: Phys, mm: Mm, p: Place) returns (acts: seq<Act>)
    requires Ready(b, t, ph, mm) && p.page.Some? && p.level == 0
    requires EnsureTop(ph, mm).Ok? && EnsureTop(ph, mm).value.1.pgd != 0
    ensures var (ph1, mm1) := EnsureTop(ph, mm).value;
      Leads(With(b, t, ph, mm, Mapping(p)), t, acts,
            With(b, t, ph1, mm1, Mapping(p.(level := 1, table := mm1.pgd))))
  {
    hide Leads, Put;
    DescendAlone(b, t, ph, mm, p);
    acts := [Descend];
    if mm.pgd == 0 {
      TopPut(ph, mm, p);
      var (ph1, mm1) := EnsureTop(ph, mm).value;
      var rest := TakeAlone(b, t, ph, mm, p);
      LeadsTrans(With(b, t, ph, mm, Mapping(p)), t, [Descend], With(b, t, ph, mm, Loop(p, 0)), rest,
                 With(b, t, ph1, mm1, Mapping(p.(level := 1, table := mm1.pgd))));
      acts := [Descend] + rest;
    }
  }

  lemma TopPut(ph: Phys, mm: Mm, p: Place)
    requires ph.Valid() && mm.Valid() && p.page.Some? && p.level == 0 && mm.pgd == 0
    requires EnsureTop(ph, mm).Ok? && EnsureTop(ph, mm).value.1.pgd != 0
    ensures FirstFree(ph.memMap, 0) < PAGING_PAGES
    ensures var (ph1, mm1) := EnsureTop(ph, mm).value;
      Put(ph, mm, p, FirstFree(ph.memMap, 0)) == Ok((ph1, mm1, Mapping(p.(level := 1, table := mm1.pgd))))
  {
    GetFreePageSpec(ph);
  }

  /** Each level of map_page is MapLevel. */
  lemma LevelAlone(b: State, t: nat, ph: Phys, mm: Mm, p: Place) returns (acts: seq<Act>)
    requires Ready(b, t, ph, mm) && p.page.Some? && 0 < p.level <= 3
    requires var r := MapLevel(ph, mm, p.table, 48 - 9 * p.level, p.va); r.Ok? && r.value.2 != 0
    ensures var r := MapLevel(ph, mm, p.table, 48 - 9 * p.level, p.va).value;
      Leads(With(b, t, ph, mm, Mapping(p)), t, acts,
            With(b, t, r.0, r.1, Mapping(p.(level := p.level + 1, table := r.2))))
  {
    hide Leads, RecordTable, TableIndex, MaskPage;
    DescendAlone(b, t, ph, mm, p);
    acts := [Descend];
    if Load(ph, p.table, TableIndex(p.va, 48 - 9 * p.level)) == 0 {
      GetFreePageSpec(ph);
      var r := MapLevel(ph, mm, p.table, 48 - 9 * p.level, p.va).value;
      LevelPut(ph, mm, p);
      var rest := TakeAlone(b, t, ph, mm, p);
      LeadsTrans(With(b, t, ph, mm, Mapping(p)), t, [Descend], With(b, t, ph, mm, Loop(p, 0)), rest,
                 With(b, t, r.0, r.1, Mapping(p.(level := p.level + 1, table := r.2))));
      acts := [Descend] + rest;
    }
  }

  lemma LevelPut(ph: Phys, mm: Mm, p: Place)
    requires ph.Valid() && mm.Valid() && p.page.Some? && 0 < p.level <= 3
    requires var r := MapLevel(ph, mm, p.table, 48 - 9 * p.level, p.va); r.Ok? && r.value.2 != 0
    requires IsFrame(p.table) && Load(ph, p.table, TableIndex(p.va, 48 - 9 * p.level)) == 0
    ensures FirstFree(ph.memMap, 0) < PAGING_PAGES
    ensures var r := MapLevel(ph, mm, p.table, 48 - 9 * p.level, p.va).value;
      Put(ph, mm, p, FirstFree(ph.memMap, 0))
        == Ok((r.0, r.1, Mapping(p.(level := p.level + 1, table := r.2))))
  {
    hide RecordTable, TableIndex, Descriptor;
    GetFreePageSpec(ph);
  }

  lemma {:induction false} BelowAlone(b: State, t: nat, ph: Phys, mm: Mm, p: Place) returns (acts: seq<Act>)
    requires Ready(b, t, ph, mm) && p.page.Some? && 0 < p.level <= 4
    requires MapBelow(ph, mm, p.table, p.va, FrameAddr(p.page.value), p.level - 1).Ok?
    ensures var (ph', mm') := MapBelow(ph, mm, p.table, p.va, FrameAddr(p.page.value), p.level - 1).value;
      Leads(With(b, t, ph, mm, Mapping(p)), t, acts, With(b, t, ph', mm', Idle))
    decreases 4 - p.level
  {
    hide Leads, MapLevel, SetPage;
    var page := FrameAddr(p.page.value);
    MapBelowStep(ph, mm, p.table, p.va, page, p.level - 1);
    if p.level == 4 {
      DescendAlone(b, t, ph, mm, p);
      acts := [Descend];
    } else {
      var r := MapLevel(ph, mm, p.table, 48 - 9 * p.level, p.va).value;
      acts := LevelAlone(b, t, ph, mm, p);
      var q := p.(level := p.level + 1, table := r.2);
      var rest := BelowAlone(b, t, r.0, r.1, q);
      var (ph', mm') := MapBelow(ph, mm, p.table, p.va, page, p.level - 1).value;
      LeadsTrans(With(b, t, ph, mm, Mapping(p)), t, acts, With(b, t, r.0, r.1, Mapping(q)), rest,
                 With(b, t, ph', mm', Idle));
      acts := acts + rest;
    }
  }

  /** From the fault to the mapping, uninterrupted: the new memory is that of allocate_user_page. */
  lemma FaultAlone(b: State, t: nat, va: Word) returns (acts: seq<Act>)
    requires Enabled(b, t, Abort(va))
    requires var r := AllocateUserPage(b.s.ph, b.s.tasks[t], va); r.Ok? && r.value.2 != 0
    ensures var (ph', mm', _) := AllocateUserPage(b.s.ph, b.s.tasks[t], va).value;
      Leads(b, t, acts, b.(s := System(ph', b.s.kernel, b.s.tasks[t := mm'])))
  {
    hide Leads, EnsureTop, MapBelow, SlotsFor;
    var ph, mm, p := b.s.ph, b.s.tasks[t], Place(va, None, 0, 0);
    OneAct(b, t, Abort(va));
    GetFreePageSpec(ph);
    var f: Frame := FirstFree(ph.memMap, 0);
    var ph1, q := Allocated(ph, f), Place(va, Some(f), 0, 0);
    var b1 := With(b, t, ph, mm, Loop(p, 0));
    assert b.s.tasks[t := mm] == b.s.tasks;
    assert Next(b, t, Abort(va)) == b1;
    var take := TakeAlone(b, t, ph, mm, p);
    var b2 := With(b, t, ph1, mm, Mapping(q));
    LeadsTrans(b, t, [Abort(va)], b1, take, b2);
    MapPageStep(ph1, mm, va, FrameAddr(f));
    var top := TopAlone(b, t, ph1, mm, q);
    var (ph2, mm2) := EnsureTop(ph1, mm).value;
    var q2 := q.(level := 1, table := mm2.pgd);
    LeadsTrans(b, t, [Abort(va)] + take, b2, top, With(b, t, ph2, mm2, Mapping(q2)));
    var below := BelowAlone(b, t, ph2, mm2, q2);
    var (ph', mm') := MapBelow(ph2, mm2, mm2.pgd, va, FrameAddr(f), 0).value;
    LeadsTrans(b, t, [Abort(va)] + take + top, With(b, t, ph2, mm2, Mapping(q2)), below, With(b, t, ph', mm', Idle));
    acts := [Abort(va)] + take + top + below;
    assert b.jobs[t := Idle] == b.jobs;
  }
}
