/** get_free_page statement by statement, called by tasks that a tick can preempt between its test
    of mem_map and the store behind it: when every frame is handed out once only, and that it may be
    handed out twice. */
module PageRaces {
  import opened Common
  import opened PageTables
  import opened Scheduling
  import opened SchedulerFairness
  import P = Preemption
  import Operations

  /** Where a task is in get_free_page: elsewhere, before the test of mem_map[i], or after a test
      that found frame i free. */
  datatype Stage = Elsewhere | At(i: nat) | Found(i: nat)

  /** One stage for each task; handed holds the frames returned so far. */
  datatype State = State(m: P.Machine, memMap: seq<nat>, stages: seq<Stage>, handed: seq<nat>)

  datatype Act = Sched(v: P.Move) | Call | Test | Take

  ghost predicate Shaped(c: State) {
    && c.m.s.Valid() && |c.m.leaks| == |c.stages| == NR_TASKS && |c.memMap| == PAGING_PAGES
    && forall t :: 0 <= t < NR_TASKS ==>
      && (c.stages[t].At? ==> c.stages[t].i <= PAGING_PAGES)
      && (c.stages[t].Found? ==> c.stages[t].i < PAGING_PAGES)
  }

  /** The current task is in code that may call get_free_page, not in _schedule. */
  predicate Running(c: State) {
    c.m.pc.Outside? || c.m.pc.Forking?
  }

  function Current(c: State): Stage
    requires c.m.s.current < |c.stages|
  {
    c.stages[c.m.s.current]
  }

  ghost predicate Enabled(c: State, a: Act) {
    && Shaped(c)
    && match a
       case Sched(v) => P.Enabled(c.m, v) && (Current(c) != Elsewhere ==> P.ByTick([v]))
       case Call => Running(c) && Current(c).Elsewhere?
       case Test => Running(c) && Current(c).At?
       case Take => Running(c) && Current(c).Found?
  }

  ghost function Next(c: State, a: Act): State
    requires Enabled(c, a)
  {
    var t := c.m.s.current;
    match a
    case Sched(v) => c.(m := P.Next(c.m, v))
    case Call => c.(stages := c.stages[t := At(0)])
    case Test =>
      var i := c.stages[t].i;
      c.(stages := c.stages[t :=
        if i == PAGING_PAGES then Elsewhere else if c.memMap[i] == 0 then Found(i) else At(i + 1)])
    case Take =>
      var i := c.stages[t].i;
      c.(memMap := c.memMap[i := 1], stages := c.stages[t := Elsewhere], handed := c.handed + [i])
  }

  ghost predicate Possible(c: State, run: seq<Act>)
    decreases |run|
  {
    run == [] || (Enabled(c, run[0]) && Possible(Next(c, run[0]), run[1..]))
  }

  ghost function After(c: State, run: seq<Act>): State
    requires Possible(c, run)
    decreases |run|
  {
    if run == [] then c else After(Next(c, run[0]), run[1..])
  }

  // ----- When frames are handed out once only

  predicate NoRepeats(frames: seq<nat>) {
    forall j, k :: 0 <= j < k < |frames| ==> frames[j] != frames[k]
  }

  /** No frame was handed out, or is about to be, twice. */
  ghost predicate Exclusive(c: State) {
    && NoRepeats(c.handed)
    && (forall t :: 0 <= t < |c.stages| && c.stages[t].Found? ==> c.stages[t].i !in c.handed)
    && (forall t, u :: 0 <= t < u < |c.stages| && c.stages[t].Found? && c.stages[u].Found? ==>
          c.stages[t].i != c.stages[u].i)
  }

  ghost predicate HandedMarked(c: State) {
    forall i <- c.handed :: i < |c.memMap| && c.memMap[i] != 0
  }

  /** The current task finds free a frame that another task has found free and not yet marked. */
  ghost predicate Clash(c: State, a: Act)
    requires Enabled(c, a)
  {
    && a == Test && Current(c).i < PAGING_PAGES && c.memMap[Current(c).i] == 0
    && exists u :: 0 <= u < NR_TASKS && c.stages[u] == Found(Current(c).i)
  }

  ghost predicate NoClash(c: State, run: seq<Act>)
    requires Possible(c, run)
    decreases |run|
  {
    run == [] || (!Clash(c, run[0]) && NoClash(Next(c, run[0]), run[1..]))
  }

  lemma KeepsMarked(c: State, a: Act)
    requires Enabled(c, a) && HandedMarked(c)
    ensures HandedMarked(Next(c, a))
  {
  }

  lemma KeepsExclusive(c: State, a: Act)
    requires Enabled(c, a) && HandedMarked(c) && Exclusive(c) && !Clash(c, a)
    ensures Exclusive(Next(c, a))
  {
  }

  lemma ClashEnds(c: State, a: Act)
    requires Enabled(c, a) && Clash(c, a)
    ensures !Exclusive(Next(c, a))
  {
    var t := c.m.s.current;
    var u :| 0 <= u < NR_TASKS && c.stages[u] == Found(Current(c).i);
    var c' := Next(c, a);
    assert c'.stages[t] == c'.stages[u] == Found(Current(c).i);
  }

  lemma StaysBroken(c: State, a: Act)
    requires Enabled(c, a) && !Exclusive(c)
    ensures !Exclusive(Next(c, a))
  {
    var c' := Next(c, a);
    var t := c.m.s.current;
    if j, k :| 0 <= j < k < |c.handed| && c.handed[j] == c.handed[k] {
      assert c'.handed[j] == c'.handed[k];
    } else if u :| 0 <= u < |c.stages| && c.stages[u].Found? && c.stages[u].i in c.handed {
      var j :| 0 <= j < |c.handed| && c.handed[j] == c.stages[u].i;
      assert c'.handed[j] == c.stages[u].i;
      if a == Take && u == t {
        assert c'.handed[|c.handed|] == c.stages[u].i;
      } else {
        assert c'.stages[u] == c.stages[u];
      }
    } else {
      var u, w :| 0 <= u < w < |c.stages| && c.stages[u].Found? && c.stages[w].Found?
        && c.stages[u].i == c.stages[w].i;
      if a == Take && (u == t || w == t) {
        var other := if u == t then w else u;
        assert c'.handed[|c.handed|] == c.stages[other].i && c'.stages[other] == c.stages[other];
      } else {
        assert c'.stages[u] == c.stages[u] && c'.stages[w] == c.stages[w];
      }
    }
  }

  /** In every run, each frame handed out or about to be has one taker iff no task is preempted
      between finding a frame free and marking it while another task finds the same frame. */
  lemma {:induction false} ExclusiveIff(c: State, run: seq<Act>)
    requires Possible(c, run) && HandedMarked(c) && Exclusive(c)
    ensures Exclusive(After(c, run)) <==> NoClash(c, run)
    decreases |run|
  {
    hide Exclusive, Clash, Next, Enabled, HandedMarked;
    if run != [] {
      var c' := Next(c, run[0]);
      KeepsMarked(c, run[0]);
      if Clash(c, run[0]) {
        ClashEnds(c, run[0]);
        BrokenRun(c', run[1..]);
      } else {
        KeepsExclusive(c, run[0]);
        ExclusiveIff(c', run[1..]);
      }
    }
  }

  /** In every run that ends with no task about to mark a frame, no frame was handed out twice iff
      there was no clash. */
  lemma HandedOnceIff(c: State, run: seq<Act>)
    requires Possible(c, run) && HandedMarked(c) && Exclusive(c)
    requires forall t :: 0 <= t < |After(c, run).stages| ==> !After(c, run).stages[t].Found?
    ensures NoRepeats(After(c, run).handed) <==> NoClash(c, run)
  {
    hide After, Possible, NoClash, NoRepeats;
    ExclusiveIff(c, run);
  }

  lemma {:induction false} BrokenRun(c: State, run: seq<Act>)
    requires Possible(c, run) && !Exclusive(c)
    ensures !Exclusive(After(c, run))
    decreases |run|
  {
    hide Exclusive, Next, Enabled;
    if run != [] {
      StaysBroken(c, run[0]);
      BrokenRun(Next(c, run[0]), run[1..]);
    }
  }

  // ----- Without a clash a call is one step

  /** What a task has seen marked still is, and what it has found free still is. */
  ghost predicate Scanned(c: State) {
    forall t :: 0 <= t < |c.stages| ==>
      match c.stages[t]
      case Elsewhere => true
      case At(i) => i <= |c.memMap| && MarkedBelow(c.memMap, i)
      case Found(i) => i < |c.memMap| && MarkedBelow(c.memMap, i) && c.memMap[i] == 0
  }

  predicate MarkedBelow(memMap: seq<nat>, i: nat)
    requires i <= |memMap|
  {
    forall j :: 0 <= j < i ==> memMap[j] != 0
  }

  lemma KeepsScanned(c: State, a: Act)
    requires Enabled(c, a) && Scanned(c) && Exclusive(c)
    ensures Scanned(Next(c, a))
  {
    var c' := Next(c, a);
    var t := c.m.s.current;
    forall u | 0 <= u < |c'.stages| && u != t ensures c'.stages[u] == c.stages[u] {
    }
    if a == Test && Current(c).i < PAGING_PAGES {
      assert MarkedBelow(c.memMap, Current(c).i);
    }
  }

  /** The statement by which a call takes effect does what get_free_page does in one step: it marks
      the first free frame, or comes back with 0 when there is none. */
  ghost predicate AsOneStep(c: State, a: Act)
    requires Enabled(c, a)
  {
    var f := FirstFree(c.memMap, 0);
    && (a == Take ==> f < PAGING_PAGES && Next(c, a).memMap == c.memMap[f := 1] && Next(c, a).handed == c.handed + [f])
    && (a == Test && Current(c).i == PAGING_PAGES ==> f == PAGING_PAGES)
  }

  ghost predicate AllOneStep(c: State, run: seq<Act>)
    requires Possible(c, run)
    decreases |run|
  {
    run == [] || (AsOneStep(c, run[0]) && AllOneStep(Next(c, run[0]), run[1..]))
  }

  /** In every run without a clash, wherever its calls are preempted, each of them takes effect
      in one step, as the get_free_page of PageTables does. */
  lemma {:induction false} Linearizes(c: State, run: seq<Act>)
    requires Possible(c, run) && HandedMarked(c) && Exclusive(c) && Scanned(c) && NoClash(c, run)
    ensures AllOneStep(c, run)
    decreases |run|
  {
    hide Exclusive, Clash, Next, Enabled, HandedMarked, Scanned, AsOneStep;
    if run != [] {
      TakesFirst(c, run[0]);
      KeepsMarked(c, run[0]);
      KeepsExclusive(c, run[0]);
      KeepsScanned(c, run[0]);
      Linearizes(Next(c, run[0]), run[1..]);
    }
  }

  lemma TakesFirst(c: State, a: Act)
    requires Enabled(c, a) && Scanned(c)
    ensures AsOneStep(c, a)
  {
    var t, f := c.m.s.current, FirstFree(c.memMap, 0);
    if a == Take {
      var i := Current(c).i;
      assert MarkedBelow(c.memMap, i) && c.memMap[i] == 0;
      assert f == i;
    }
    if a == Test && Current(c).i == PAGING_PAGES {
      assert MarkedBelow(c.memMap, PAGING_PAGES);
    }
  }

  // ----- Calls with preemption disabled

  /** Every call of the run is made inside copy_process. */
  ghost predicate CallsGuarded(c: State, run: seq<Act>)
    requires Possible(c, run)
    decreases |run|
  {
    run == [] || ((run[0] == Call ==> c.m.pc.Forking?) && CallsGuarded(Next(c, run[0]), run[1..]))
  }

  /** Only the current task is in get_free_page, with preemption disabled. */
  ghost predicate Guarded(c: State) {
    forall t :: 0 <= t < |c.stages| && c.stages[t] != Elsewhere ==> t == c.m.s.current && c.m.pc.Forking?
  }

  /** If every call of the run is made with preemption disabled, there is no clash. */
  lemma {:induction false} GuardedNoClash(c: State, run: seq<Act>)
    requires Possible(c, run) && Guarded(c) && CallsGuarded(c, run)
    ensures NoClash(c, run)
    decreases |run|
  {
    hide Next;
    if run != [] {
      GuardedStep(c, run[0]);
      GuardedNoClash(Next(c, run[0]), run[1..]);
    }
  }

  lemma GuardedStep(c: State, a: Act)
    requires Enabled(c, a) && Guarded(c) && (a == Call ==> c.m.pc.Forking?)
    ensures !Clash(c, a) && Guarded(Next(c, a))
  {
    assert a.Sched? ==> a.v in [a.v];
  }

  /** The statements of one call, with ticks between them that do not schedule. */
  predicate OneCall(run: seq<Act>) {
    run != [] && run[0] == Call && InsideCall(run[1..])
  }

  predicate InsideCall(run: seq<Act>) {
    forall a <- run :: a in [Test, Take, Sched(P.Interrupt)]
  }

  /** A single call with preemption disabled, while other tasks are anywhere: it is safe iff no
      other task has found its frame before. */
  lemma GuardedCallSafe(c: State, run: seq<Act>)
    requires Possible(c, run) && OneCall(run) && c.m.pc.Forking? && HandedMarked(c) && Exclusive(c)
    requires c.m.s.current < |After(c, run).stages| && After(c, run).stages[c.m.s.current].Elsewhere?
    ensures |c.memMap| == PAGING_PAGES
    ensures var f := FirstFree(c.memMap, 0);
      Exclusive(After(c, run)) <==> f == PAGING_PAGES || Found(f) !in c.stages
  {
    hide HandedMarked, Exclusive, Possible, NoClash, After;
    PossibleStep(c, run);
    var c1 := Next(c, Call);
    ExclusiveIff(c, run);
    LoopClash(c1, run[1..]);
    var f := FirstFree(c.memMap, 0);
    if f < PAGING_PAGES {
      assert c1.stages == c.stages[c.m.s.current := At(0)];
      if Found(f) in c.stages {
        var u :| 0 <= u < |c.stages| && c.stages[u] == Found(f);
        assert c1.stages[u] == Found(f);
      }
    }
  }

  lemma PossibleStep(c: State, run: seq<Act>)
    requires Possible(c, run) && run != []
    ensures Enabled(c, run[0]) && Possible(Next(c, run[0]), run[1..])
    ensures After(c, run) == After(Next(c, run[0]), run[1..])
    ensures NoClash(c, run) <==> !Clash(c, run[0]) && NoClash(Next(c, run[0]), run[1..])
  {
  }

  /** The rest of a call clashes iff another task stands at the first free frame. */
  lemma {:induction false} LoopClash(c: State, run: seq<Act>)
    requires Possible(c, run) && InsideCall(run) && Enabled(c, Test) && c.m.pc.Forking?
    requires c.m.s.current < |After(c, run).stages| && After(c, run).stages[c.m.s.current].Elsewhere?
    ensures var f := FirstFree(c.memMap, Current(c).i);
      NoClash(c, run) <==> f == PAGING_PAGES || Found(f) !in c.stages
    decreases |run|
  {
    hide Possible, NoClash, After;
    var i, t := Current(c).i, c.m.s.current;
    if run == [] {
      NothingAfter(c);
      assert false;
    } else {
      PossibleStep(c, run);
      assert run[0] in run && forall a <- run[1..] :: a in run;
      var c1 := Next(c, run[0]);
      assert run[0] == Test || run[0] == Sched(P.Interrupt);
      if run[0] != Test {
        TickStays(c);
        LoopClash(c1, run[1..]);
      } else if i < PAGING_PAGES && c.memMap[i] != 0 {
        LoopClash(c1, run[1..]);
        var f := FirstFree(c.memMap, i);
        SameFinders(c.stages, t, At(i + 1), f);
      } else {
        CallEnds(c1, run[1..]);
      }
    }
  }

  lemma NothingAfter(c: State)
    ensures Possible(c, []) && After(c, []) == c
  {
  }

  lemma TickStays(c: State)
    requires Enabled(c, Sched(P.Interrupt)) && c.m.pc.Forking?
    ensures var c1 := Next(c, Sched(P.Interrupt));
      && c1.m.s.current == c.m.s.current && c1.m.pc == c.m.pc
      && c1.memMap == c.memMap && c1.stages == c.stages && c1.handed == c.handed
  {
  }

  lemma SameFinders(stages: seq<Stage>, t: nat, stage: Stage, f: nat)
    requires t < |stages| && !stages[t].Found? && !stage.Found?
    ensures Found(f) in stages[t := stage] <==> Found(f) in stages
  {
    if Found(f) in stages {
      var u :| 0 <= u < |stages| && stages[u] == Found(f);
      assert stages[t := stage][u] == Found(f);
    }
  }

  /** Behind the loop a call makes no more tests. */
  lemma {:induction false} CallEnds(c: State, run: seq<Act>)
    requires Possible(c, run) && InsideCall(run) && c.m.pc.Forking?
    requires c.m.s.current < |c.stages| && !Current(c).At?
    ensures NoClash(c, run)
    decreases |run|
  {
    hide Possible, After;
    if run != [] {
      PossibleStep(c, run);
      assert run[0] in run && forall a <- run[1..] :: a in run;
      if run[0] == Sched(P.Interrupt) {
        TickStays(c);
      }
      CallEnds(Next(c, run[0]), run[1..]);
    }
  }

  // ----- A call that is not preempted

  ghost predicate Goes(c: State, run: seq<Act>, c': State) {
    Possible(c, run) && After(c, run) == c'
  }

  lemma {:induction false} GoesTrans(a: State, r1: seq<Act>, b: State, r2: seq<Act>, c: State)
    requires Goes(a, r1, b) && Goes(b, r2, c)
    ensures Goes(a, r1 + r2, c)
    decreases |r1|
  {
    hide Next, Enabled;
    if r1 == [] {
      assert r1 + r2 == r2;
    } else {
      assert (r1 + r2)[1..] == r1[1..] + r2;
      GoesTrans(Next(a, r1[0]), r1[1..], b, r2, c);
    }
  }

  lemma OneAct(c: State, a: Act)
    requires Enabled(c, a)
    ensures Goes(c, [a], Next(c, a))
  {
    assert [a][1..] == [];
  }

  /** The loop from turn i on finds the first free frame, if there is one. */
  lemma {:induction false} LoopRuns(c: State) returns (run: seq<Act>)
    requires Enabled(c, Test)
    ensures var f := FirstFree(c.memMap, Current(c).i);
      Goes(c, run, c.(stages := c.stages[c.m.s.current := if f == PAGING_PAGES then Elsewhere else Found(f)]))
    decreases PAGING_PAGES - Current(c).i
  {
    hide Possible, After, Goes;
    var t, i := c.m.s.current, Current(c).i;
    var c1 := Next(c, Test);
    OneAct(c, Test);
    run := [Test];
    if i < PAGING_PAGES && c.memMap[i] != 0 {
      var rest := LoopRuns(c1);
      var f := FirstFree(c.memMap, i);
      var c2 := c.(stages := c.stages[t := if f == PAGING_PAGES then Elsewhere else Found(f)]);
      assert c1.stages[t := c2.stages[t]] == c2.stages;
      GoesTrans(c, [Test], c1, rest, c2);
      run := [Test] + rest;
    }
  }

  lemma FindRuns(c: State) returns (run: seq<Act>)
    requires Enabled(c, Call)
    ensures var f := FirstFree(c.memMap, 0);
      Goes(c, run, c.(stages := c.stages[c.m.s.current := if f == PAGING_PAGES then Elsewhere else Found(f)]))
  {
    hide Possible, After, Goes;
    var c1 := Next(c, Call);
    OneAct(c, Call);
    var rest := LoopRuns(c1);
    var t, f := c.m.s.current, FirstFree(c.memMap, 0);
    var c2 := c.(stages := c.stages[t := if f == PAGING_PAGES then Elsewhere else Found(f)]);
    assert c1.stages[t := c2.stages[t]] == c2.stages;
    GoesTrans(c, [Call], c1, rest, c2);
    run := [Call] + rest;
  }

  /** A call that is not preempted is the get_free_page of PageTables. */
  lemma AllocationRuns(c: State, ph: Phys) returns (run: seq<Act>)
    requires Enabled(c, Call) && ph.Valid() && ph.memMap == c.memMap
    ensures var (ph', pa) := GetFreePage(ph);
      Goes(c, run, c.(memMap := ph'.memMap, handed := c.handed + if pa == 0 then [] else [FrameOf(pa)]))
  {
    hide Possible, After, Goes;
    GetFreePageSpec(ph);
    run := FindRuns(c);
    var t, f := c.m.s.current, FirstFree(c.memMap, 0);
    assert c.stages[t := Elsewhere] == c.stages;
    if f < PAGING_PAGES {
      FrameRoundTrip(f);
      var c1 := c.(stages := c.stages[t := Found(f)]);
      OneAct(c1, Take);
      assert c1.stages[t := Elsewhere] == c.stages;
      GoesTrans(c, run, c1, [Take], Next(c1, Take));
      run := run + [Take];
    } else {
      assert c.handed + [] == c.handed;
    }
  }

  lemma NothingGoes(c: State)
    ensures Goes(c, [], c)
  {
  }

  // ----- A frame handed out twice

  lemma {:induction false} TicksLift(c: State, ticks: seq<P.Move>, m': P.Machine) returns (run: seq<Act>)
    requires Shaped(c) && P.Goes(c.m, ticks, m') && P.ByTick(ticks) && P.Inv(c.m)
    ensures Goes(c, run, c.(m := m'))
    decreases |ticks|
  {
    hide Goes, P.Next, P.Inv;
    if ticks == [] {
      run := [];
      NothingGoes(c);
      assert c.(m := m') == c;
    } else {
      var c1 := Next(c, Sched(ticks[0]));
      P.MoveKeeps(c.m, ticks[0]);
      Operations.InvSizes(c1.m);
      OneAct(c, Sched(ticks[0]));
      var rest := TicksLift(c1, ticks[1..], m');
      GoesTrans(c, [Sched(ticks[0])], c1, rest, c.(m := m'));
      run := [Sched(ticks[0])] + rest;
    }
  }

  function TimeLeft(s: Table): nat
    requires s.Valid()
  {
    if s.Cur().counter > 0 then s.Cur().counter else 0
  }

  ghost predicate Settled(m: P.Machine) {
    P.Inv(m) && m.pc.Outside? && Sane(m.s)
  }

  /** From every sane state, ticks alone bring every runnable task t onto the processor; another
      runnable task u stays so. */
  lemma {:induction false} TicksReach(m: P.Machine, t: nat, u: nat) returns (ticks: seq<P.Move>, m': P.Machine)
    requires Settled(m) && m.s.Runnable(t) && m.s.Runnable(u)
    ensures P.Goes(m, ticks, m') && P.ByTick(ticks) && Settled(m')
    ensures m'.s.current == t && m'.s.Runnable(u) && m'.s.nrTasks == m.s.nrTasks
    decreases if m.s.Runnable(t) then Wait(m.s, t) else 0, if m.s.Valid() then TimeLeft(m.s) else 0
  {
    hide P.Goes, P.Inv, Sane, Wait, Lacks, Calls, Tick;
    SettledValid(m);
    if m.s.current == t {
      ticks, m' := [], m;
      Operations.NothingGoes(m);
    } else {
      var first := Operations.TickRuns(m);
      var m1 := m.(s := Tick(m.s));
      Operations.GoesKeeps(m, [P.Interrupt] + first, m1);
      EventProgress(m.s, TickEvent, t);
      EventProgress(m.s, TickEvent, u);
      TickLeft(m.s);
      TickTasks(m.s);
      SettledValid(m1);
      if m1.s.current == t {
        ticks, m' := [P.Interrupt] + first, m1;
      } else {
        var rest;
        rest, m' := TicksReach(m1, t, u);
        P.GoesTrans(m, [P.Interrupt] + first, m1, rest, m');
        ticks := [P.Interrupt] + first + rest;
      }
    }
  }

  lemma SettledValid(m: P.Machine)
    requires Settled(m)
    ensures m.s.Valid() && P.Inv(m) && m.pc.Outside? && Sane(m.s) && |m.leaks| == NR_TASKS
  {
  }

  lemma TickTasks(s: Table)
    requires Sane(s)
    ensures s.Valid() && Tick(s).nrTasks == s.nrTasks
  {
    hide Reschedule, Tick, Sane;
    SaneValid(s);
    if Calls(s, TickEvent) {
      StepCalls(s, TickEvent);
      SpentReady(s);
      CallResult(Spent(s));
    } else {
      TickOnly(s);
    }
  }

  lemma TickLeft(s: Table)
    requires Sane(s)
    ensures Step(s, TickEvent) == Tick(s)
    ensures !Calls(s, TickEvent) ==> Tick(s).Valid() && TimeLeft(Tick(s)) < TimeLeft(s)
  {
    hide Reschedule;
  }

  /** In every sane state with two runnable tasks and a free frame: the current task starts a
      call, ticks preempt it behind its test, another task makes a call, and ticks bring the first
      one back; then both have been handed the same frame. */
  lemma SameFrameTwice(c: State, u: nat) returns (run: seq<Act>, c': State)
    requires Shaped(c) && Settled(c.m) && FirstFree(c.memMap, 0) < PAGING_PAGES
    requires u != c.m.s.current && c.m.s.Runnable(u) && c.stages[c.m.s.current] == c.stages[u] == Elsewhere
    ensures Goes(c, run, c')
    ensures var f := FirstFree(c.memMap, 0); c'.handed == c.handed + [f, f]
  {
    hide Possible, After, Goes, P.Goes, P.Inv, Sane;
    var t, f := c.m.s.current, FirstFree(c.memMap, 0);
    SettledValid(c.m);
    SaneRuns(c.m.s);
    var find := FindRuns(c);
    var c1 := c.(stages := c.stages[t := Found(f)]);
    var away, m2 := TicksReach(c1.m, u, t);
    var r2 := TicksLift(c1, away, m2);
    var c2 := c1.(m := m2);
    GoesTrans(c, find, c1, r2, c2);
    SettledValid(m2);
    SaneRuns(m2.s);
    var find2 := FindRuns(c2);
    var c3 := c2.(stages := c2.stages[u := Found(f)]);
    GoesTrans(c, find + r2, c2, find2, c3);
    var c4 := Next(c3, Take);
    OneAct(c3, Take);
    GoesTrans(c, find + r2 + find2, c3, [Take], c4);
    var back, m5 := TicksReach(c4.m, t, u);
    var r5 := TicksLift(c4, back, m5);
    var c5 := c4.(m := m5);
    GoesTrans(c, find + r2 + find2 + [Take], c4, r5, c5);
    SettledValid(m5);
    c' := Next(c5, Take);
    OneAct(c5, Take);
    run := find + r2 + find2 + [Take] + r5 + [Take];
    GoesTrans(c, find + r2 + find2 + [Take] + r5, c5, [Take], c');
  }

  /** copy_process with preemption disabled is not safe either: a page fault preempted behind its
      test, then a fork of another task, which takes the same frame for its task_struct, and the
      page fault takes it again. */
  lemma ForkFrameTwice(c: State, u: nat) returns (run: seq<Act>, c': State)
    requires Shaped(c) && Settled(c.m) && FirstFree(c.memMap, 0) < PAGING_PAGES && c.m.s.nrTasks < NR_TASKS
    requires u != c.m.s.current && c.m.s.Runnable(u) && c.stages[c.m.s.current] == c.stages[u] == Elsewhere
    ensures Goes(c, run, c') && Sched(P.EnterFork) in run
    ensures var f := FirstFree(c.memMap, 0); c'.handed == c.handed + [f, f]
  {
    hide Possible, After, Goes, P.Goes, P.Inv, Sane;
    var t, f := c.m.s.current, FirstFree(c.memMap, 0);
    SettledValid(c.m);
    SaneRuns(c.m.s);
    var find := FindRuns(c);
    var c1 := c.(stages := c.stages[t := Found(f)]);
    var away, m2 := TicksReach(c1.m, u, t);
    var r2 := TicksLift(c1, away, m2);
    var c2 := c1.(m := m2);
    GoesTrans(c, find, c1, r2, c2);
    SettledValid(m2);
    var fork, c3 := ForkTakes(c2, t);
    GoesTrans(c, find + r2, c2, fork, c3);
    var back, m4 := TicksReach(c3.m, t, u);
    var r4 := TicksLift(c3, back, m4);
    var c4 := c3.(m := m4);
    GoesTrans(c, find + r2 + fork, c3, r4, c4);
    SettledValid(m4);
    c' := Next(c4, Take);
    OneAct(c4, Take);
    run := find + r2 + fork + r4 + [Take];
    GoesTrans(c, find + r2 + fork + r4, c4, [Take], c');
  }

  /** A fork whose page is the first free frame, from entry to end. */
  lemma ForkTakes(c: State, t: nat) returns (run: seq<Act>, c': State)
    requires Shaped(c) && Settled(c.m) && FirstFree(c.memMap, 0) < PAGING_PAGES && c.m.s.nrTasks < NR_TASKS
    requires Current(c).Elsewhere? && c.m.s.Runnable(t)
    ensures Goes(c, run, c') && Sched(P.EnterFork) in run
    ensures Shaped(c') && Settled(c'.m) && c'.m.s.Runnable(t) && c'.m.s.Runnable(c.m.s.current)
    ensures var f := FirstFree(c.memMap, 0);
      c'.handed == c.handed + [f] && c'.stages == c.stages && c'.memMap == c.memMap[f := 1]
  {
    hide Possible, After, Goes, P.Inv, CopyProcess, Sane;
    var u, f := c.m.s.current, FirstFree(c.memMap, 0);
    SettledValid(c.m);
    SaneRuns(c.m.s);
    var c1 := Next(c, Sched(P.EnterFork));
    OneAct(c, Sched(P.EnterFork));
    ForkMoves(c.m);
    assert c1.stages == c.stages && c1.m.s.current == u;
    var find := FindRuns(c1);
    var c2 := c1.(stages := c1.stages[u := Found(f)]);
    GoesTrans(c, [Sched(P.EnterFork)], c1, find, c2);
    var c3 := Next(c2, Take);
    OneAct(c2, Take);
    GoesTrans(c, [Sched(P.EnterFork)] + find, c2, [Take], c3);
    assert c3.stages == c.stages;
    var c4 := Next(c3, Sched(P.ForkInserts));
    OneAct(c3, Sched(P.ForkInserts));
    GoesTrans(c, [Sched(P.EnterFork)] + find + [Take], c3, [Sched(P.ForkInserts)], c4);
    c' := Next(c4, Sched(P.EnablePreemption));
    OneAct(c4, Sched(P.EnablePreemption));
    run := [Sched(P.EnterFork)] + find + [Take] + [Sched(P.ForkInserts)] + [Sched(P.EnablePreemption)];
    GoesTrans(c, [Sched(P.EnterFork)] + find + [Take] + [Sched(P.ForkInserts)], c4, [Sched(P.EnablePreemption)], c');
    assert run[0] == Sched(P.EnterFork);
  }

  /** The scheduling moves of a fork lead from a sane state to a sane state. */
  lemma ForkMoves(m: P.Machine)
    requires Settled(m) && m.s.nrTasks < NR_TASKS && |m.leaks| == NR_TASKS && m.s.Valid()
    ensures var m1 := P.Next(m, P.EnterFork);
      && m1.s.Valid() && m1.pc.Forking? && m1.s.nrTasks < NR_TASKS && m1.s.current == m.s.current
      && var m2 := P.Next(m1, P.ForkInserts);
      && m2.s.Valid() && m2.pc.Enabling? && m2.s.current == m.s.current
      && var m3 := P.Next(m2, P.EnablePreemption);
      && Settled(m3) && m3.leaks == m.leaks && m3.s == CopyProcess(m.s, true).0
      && forall t: nat :: m.s.Runnable(t) ==> m3.s.Runnable(t)
  {
    hide P.Inv, Sane;
    SettledValid(m);
    var m1 := P.Next(m, P.EnterFork);
    P.MoveKeeps(m, P.EnterFork);
    Operations.InvSizes(m1);
    var m2 := P.Next(m1, P.ForkInserts);
    P.MoveKeeps(m1, P.ForkInserts);
    Operations.InvSizes(m2);
    P.MoveKeeps(m2, P.EnablePreemption);
    ForkAddsRunnable(m.s);
  }

  lemma ForkAddsRunnable(s: Table)
    requires Sane(s) && s.nrTasks < NR_TASKS
    ensures Sane(CopyProcess(s, true).0)
    ensures forall t: nat :: s.Runnable(t) ==> CopyProcess(s, true).0.Runnable(t)
  {
    hide CopyProcess, Bounded, HandedOver;
    ForkAdds(s);
  }

  lemma SaneRuns(s: Table)
    requires Sane(s)
    ensures s.Runnable(s.current)
  {
  }
}
