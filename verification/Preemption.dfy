/** The preempt_count protocol, with timer interrupts between any two steps. A run interleaves
    the statements of _schedule, copy_process and exit_process with ticks; every task but the
    current one is suspended just before a preempt_enable, at the end of its own _schedule or
    in schedule_tail. */
module Preemption {
  import opened Common
  import opened Scheduling

  /** Where the current task is: outside every section that disables preemption, at a turn of
      one of the two loops of _schedule, in copy_process or exit_process, or just before a
      preempt_enable. */
  datatype Pc =
    | Outside
    | Scanning(i: nat, c: int, next: nat)
    | Recharging(i: nat)
    | Enabling
    | Forking
    | Exiting

  /** leaks counts, for every task, its calls of copy_process that failed for want of a page. */
  datatype Machine = Machine(s: Table, pc: Pc, leaks: seq<nat>)

  datatype Move =
    | Interrupt     // a timer tick
    | ZeroCounter   // schedule clears the counter before it calls _schedule
    | EnterSchedule
    | ScanTurn
    | ScanEnd
    | RechargeTurn
    | EnterFork
    | ForkFails
    | ForkInserts
    | EnterExit
    | ExitMarks
    | EnablePreemption

  predicate Enabled(m: Machine, v: Move) {
    match v
    case Interrupt => true
    case ZeroCounter => m.pc.Outside?
    case EnterSchedule => m.pc.Outside?
    case ScanTurn => m.pc.Scanning? && m.pc.i < NR_TASKS
    case ScanEnd => m.pc.Scanning? && m.pc.i == NR_TASKS
    case RechargeTurn => m.pc.Recharging? && m.pc.i <= NR_TASKS
    case EnterFork => m.pc.Outside? && m.s.nrTasks < NR_TASKS
    case ForkFails => m.pc.Forking?
    case ForkInserts => m.pc.Forking? && m.s.nrTasks < NR_TASKS
    case EnterExit => m.pc.Outside?
    case ExitMarks => m.pc.Exiting?
    case EnablePreemption => m.pc.Enabling?
  }

  function SetCounter(s: Table, n: int): Table
    requires s.Valid()
  {
    s.WithCur(s.Cur().(counter := n))
  }

  /** timer_tick up to its call of _schedule, which is an EnterSchedule of its own. */
  function TickTable(s: Table): Table
    requires s.Valid()
  {
    var left := s.Cur().counter - 1;
    SetCounter(s, if left > 0 || s.Cur().preempt > 0 then left else 0)
  }

  function Next(m: Machine, v: Move): Machine
    requires m.s.Valid() && |m.leaks| == NR_TASKS && Enabled(m, v)
  {
    match v
    case Interrupt => m.(s := TickTable(m.s))
    case ZeroCounter => m.(s := SetCounter(m.s, 0))
    case EnterSchedule => m.(s := Disable(m.s), pc := Scanning(0, -1, 0))
    case ScanTurn =>
      var (c, next) := ScanSlot(m.s.slots[m.pc.i], m.pc.i, m.pc.c, m.pc.next);
      m.(pc := Scanning(m.pc.i + 1, c, next))
    case ScanEnd =>
      if m.pc.c != 0 then m.(s := Table(m.s.slots, m.pc.next, m.s.nrTasks), pc := Enabling)
      else m.(pc := Recharging(0))
    case RechargeTurn =>
      if m.pc.i == NR_TASKS then m.(pc := Scanning(0, -1, 0))
      else
        var slots := m.s.slots[m.pc.i := RechargeSlot(m.s.slots[m.pc.i])];
        m.(s := Table(slots, m.s.current, m.s.nrTasks), pc := Recharging(m.pc.i + 1))
    case EnterFork => m.(s := Disable(m.s), pc := Forking)
    case ForkFails => m.(pc := Outside, leaks := m.leaks[m.s.current := m.leaks[m.s.current] + 1])
    case ForkInserts =>
      var child := Task(TaskRunning, m.s.Cur().priority, m.s.Cur().priority, 1);
      m.(s := Table(m.s.slots[m.s.nrTasks := Used(child)], m.s.current, m.s.nrTasks + 1), pc := Enabling)
    case EnterExit => m.(s := Disable(m.s), pc := Exiting)
    case ExitMarks => m.(s := m.s.WithCur(m.s.Cur().(state := TaskZombie)), pc := Enabling)
    case EnablePreemption => m.(s := Enable(m.s), pc := Outside)
  }

  // ----- The invariant

  /** The preempt counts: leaked ones, one for a suspended task, one for an open section. */
  ghost predicate Counted(m: Machine) {
    && |m.leaks| == NR_TASKS == |m.s.slots|
    && forall i :: 0 <= i < NR_TASKS && m.s.slots[i].Used? ==>
         m.s.slots[i].t.preempt == m.leaks[i] + if i == m.s.current && m.pc.Outside? then 0 else 1
  }

  /** Slots not yet used have leaked nothing. */
  ghost predicate NoEarlyLeaks(m: Machine) {
    |m.leaks| == NR_TASKS && forall i :: m.s.nrTasks <= i < NR_TASKS ==> m.leaks[i] == 0
  }

  /** The candidate of a scan is slot 0 or a runnable task. */
  ghost predicate PcOk(m: Machine) {
    match m.pc
    case Scanning(i, c, next) => i <= NR_TASKS && (next == 0 || m.s.Runnable(next)) && next < m.s.nrTasks
    case Recharging(i) => i <= NR_TASKS
    case _ => true
  }

  ghost predicate Inv(m: Machine) {
    m.s.Valid() && Bounded(m.s) && Counted(m) && NoEarlyLeaks(m) && PcOk(m)
  }

  lemma CurrentChanges(m: Machine, t: Task, pc: Pc)
    requires Inv(m) && t.priority == m.s.Cur().priority && t.counter <= 2 * t.priority - 1
    requires t.preempt == m.leaks[m.s.current] + if pc.Outside? then 0 else 1
    requires m.pc.Scanning? ==> pc == m.pc && t.state == m.s.Cur().state
    requires pc.Scanning? ==> pc == m.pc || pc == Scanning(0, -1, 0)
    requires pc.Recharging? ==> pc == m.pc
    ensures Inv(Machine(m.s.WithCur(t), pc, m.leaks))
  {
    var m' := Machine(m.s.WithCur(t), pc, m.leaks);
    assert forall i :: 0 <= i < NR_TASKS && i != m.s.current ==> m'.s.slots[i] == m.s.slots[i];
    assert m'.s.slots[m.s.current] == Used(t);
  }

  lemma LoopKeeps(m: Machine, v: Move)
    requires Inv(m) && Enabled(m, v) && (v == ScanTurn || v == ScanEnd || v == RechargeTurn)
    ensures Inv(Next(m, v))
  {
  }

  lemma ForkKeeps(m: Machine, v: Move)
    requires Inv(m) && Enabled(m, v) && (v == ForkFails || v == ForkInserts)
    ensures Inv(Next(m, v))
  {
  }

  /** Every move keeps the invariant. */
  lemma MoveKeeps(m: Machine, v: Move)
    requires Inv(m) && Enabled(m, v)
    ensures Inv(Next(m, v))
  {
    var t := m.s.Cur();
    match v
    case Interrupt => CurrentChanges(m, TickTable(m.s).Cur(), m.pc);
    case ZeroCounter => CurrentChanges(m, t.(counter := 0), Outside);
    case EnterSchedule => CurrentChanges(m, t.(preempt := t.preempt + 1), Scanning(0, -1, 0));
    case ScanTurn => LoopKeeps(m, v);
    case ScanEnd => LoopKeeps(m, v);
    case RechargeTurn => LoopKeeps(m, v);
    case EnterFork => CurrentChanges(m, t.(preempt := t.preempt + 1), Forking);
    case ForkFails => ForkKeeps(m, v);
    case ForkInserts => ForkKeeps(m, v);
    case EnterExit => CurrentChanges(m, t.(preempt := t.preempt + 1), Exiting);
    case ExitMarks => CurrentChanges(m, t.(state := TaskZombie), Enabling);
    case EnablePreemption => CurrentChanges(m, t.(preempt := t.preempt - 1), Outside);
  }

  // ----- Runs from boot

  function Boot(): (m: Machine)
    ensures Inv(m)
  {
    Machine(BootTable(), Outside, seq(NR_TASKS, _ => 0))
  }

  /** Each move of the run is enabled where it is taken. */
  predicate Possible(m: Machine, run: seq<Move>)
    decreases |run|
  {
    run == [] || (m.s.Valid() && |m.leaks| == NR_TASKS && Enabled(m, run[0]) && Possible(Next(m, run[0]), run[1..]))
  }

  function After(m: Machine, run: seq<Move>): Machine
    requires Possible(m, run)
    decreases |run|
  {
    if run == [] then m else After(Next(m, run[0]), run[1..])
  }

  lemma {:induction false} RunKeeps(m: Machine, run: seq<Move>)
    requires Inv(m) && Possible(m, run)
    ensures Inv(After(m, run))
    decreases |run|
  {
    hide Inv, Next;
    if run != [] {
      MoveKeeps(m, run[0]);
      RunKeeps(Next(m, run[0]), run[1..]);
    }
  }

  /** In every run with ticks anywhere, outside the sections that disable preemption: a task's
      count is the number of its failed forks, plus one for a task that does not run; so the
      hand-over is intact iff no fork of a task in the table has failed. Inside a section the
      count is positive, so a tick there only takes a unit of time. */
  lemma HandOver(run: seq<Move>)
    requires Possible(Boot(), run)
    ensures var m := After(Boot(), run);
      && m.s.Valid() && |m.leaks| == NR_TASKS
      && (forall i :: 0 <= i < m.s.nrTasks && i != m.s.current ==> m.s.slots[i].t.preempt == 1 + m.leaks[i])
      && (m.pc.Outside? ==> m.s.Cur().preempt == m.leaks[m.s.current])
      && (m.pc.Outside? ==> (HandedOver(m.s) <==> forall i :: 0 <= i < m.s.nrTasks ==> m.leaks[i] == 0))
      && (!m.pc.Outside? ==> m.s.Cur().preempt > 0 && TickTable(m.s) == SetCounter(m.s, m.s.Cur().counter - 1))
  {
    hide Next, Boot, After;
    RunKeeps(Boot(), run);
    var m := After(Boot(), run);
    if m.pc.Outside? && HandedOver(m.s) {
      forall i | 0 <= i < m.s.nrTasks ensures m.leaks[i] == 0 {
        assert m.s.slots[i].Used?;
      }
    }
  }

  /** In every run, ticks included, each counter is at most 2 * priority - 1, and the task that
      a scan ends with is runnable as long as task 0 is. */
  lemma CountersAndChoice(run: seq<Move>)
    requires Possible(Boot(), run)
    ensures var m := After(Boot(), run);
      && m.s.Valid() && |m.leaks| == NR_TASKS
      && (forall i :: 0 <= i < m.s.nrTasks ==> m.s.slots[i].t.counter <= 2 * m.s.slots[i].t.priority - 1)
      && (Enabled(m, ScanEnd) && m.pc.c != 0 && m.s.Runnable(0) ==>
            var m' := Next(m, ScanEnd); m'.s.Runnable(m'.s.current))
  {
    hide Boot, After;
    RunKeeps(Boot(), run);
    var m := After(Boot(), run);
    assert forall i :: 0 <= i < m.s.nrTasks ==> m.s.slots[i].Used?;
  }

  /** What a fork that finds no page leaves behind, in whatever state it is made: its task is
      back outside with preemption disabled once more than before. */
  lemma FailedForkLeaks(m: Machine)
    requires Inv(m) && m.pc.Outside? && m.s.nrTasks < NR_TASKS
    ensures Possible(m, [EnterFork, ForkFails])
    ensures var m' := After(m, [EnterFork, ForkFails]);
      m' == Machine(Disable(m.s), Outside, m.leaks[m.s.current := m.leaks[m.s.current] + 1])
  {
    var m1 := Next(m, EnterFork);
    MoveKeeps(m, EnterFork);
    MoveKeeps(m1, ForkFails);
    var m2 := Next(m1, ForkFails);
    assert [EnterFork, ForkFails][1..] == [ForkFails] && [ForkFails][1..] == [];
    assert Possible(m2, []) && Possible(m1, [ForkFails]);
    assert After(m1, [ForkFails]) == After(m2, []);
  }

  /** Without a failed fork there are no leaks. */
  lemma {:induction false} NoLeaks(m: Machine, run: seq<Move>)
    requires Inv(m) && Possible(m, run) && ForkFails !in run && forall i :: 0 <= i < |m.leaks| ==> m.leaks[i] == 0
    ensures forall i :: 0 <= i < |After(m, run).leaks| ==> After(m, run).leaks[i] == 0
    decreases |run|
  {
    hide Inv, Next;
    if run != [] {
      MoveKeeps(m, run[0]);
      SameLeaks(m, run[0]);
      NoLeaks(Next(m, run[0]), run[1..]);
    }
  }

  lemma SameLeaks(m: Machine, v: Move)
    requires m.s.Valid() && |m.leaks| == NR_TASKS && Enabled(m, v) && v != ForkFails
    ensures Next(m, v).leaks == m.leaks
  {
  }

  /** The statements of copy_process that insert the new task, wherever ticks came before them:
      it is running, with its parent's priority and a whole time slice, and nothing else changes. */
  lemma InsertsChild(m: Machine)
    requires Inv(m) && Enabled(m, ForkInserts)
    ensures var m' := Next(m, ForkInserts); Forked(m.s, m'.s) && m'.leaks == m.leaks
  {
  }

  // ----- Without interrupts the moves add up to the operations

  ghost predicate Goes(m: Machine, run: seq<Move>, m': Machine) {
    Possible(m, run) && After(m, run) == m'
  }

  /** A run of moves from m to m', none of them a tick. */
  ghost predicate Leads(m: Machine, run: seq<Move>, m': Machine) {
    Interrupt !in run && Goes(m, run, m')
  }

  /** The moves of a tick and of the _schedule it calls. */
  predicate ByTick(run: seq<Move>) {
    forall v <- run ::
      v in [Interrupt, EnterSchedule, ScanTurn, ScanEnd, RechargeTurn, EnablePreemption]
  }

  lemma {:induction false} GoesTrans(a: Machine, r1: seq<Move>, b: Machine, r2: seq<Move>, c: Machine)
    requires Goes(a, r1, b) && Goes(b, r2, c)
    ensures Goes(a, r1 + r2, c)
    decreases |r1|
  {
    hide Next;
    if r1 == [] {
      assert r1 + r2 == r2;
    } else {
      assert (r1 + r2)[1..] == r1[1..] + r2;
      GoesTrans(Next(a, r1[0]), r1[1..], b, r2, c);
    }
  }

  lemma LeadsTrans(a: Machine, r1: seq<Move>, b: Machine, r2: seq<Move>, c: Machine)
    requires Leads(a, r1, b) && Leads(b, r2, c)
    ensures Leads(a, r1 + r2, c)
  {
    hide Goes;
    GoesTrans(a, r1, b, r2, c);
  }

  lemma OneMove(m: Machine, v: Move)
    requires m.s.Valid() && |m.leaks| == NR_TASKS && Enabled(m, v) && v != Interrupt
    ensures Leads(m, [v], Next(m, v))
  {
    assert [v][1..] == [];
  }

  lemma {:induction false} ScanRuns(m: Machine) returns (run: seq<Move>)
    requires m.s.Valid() && |m.leaks| == NR_TASKS && m.pc.Scanning? && m.pc.i <= NR_TASKS
    ensures ByTick(run)
    ensures var (c, next) := Scan(m.s.slots, m.pc.i, m.pc.c, m.pc.next);
      Leads(m, run, m.(pc := Scanning(NR_TASKS, c, next)))
    decreases NR_TASKS - m.pc.i
  {
    hide Possible, After;
    if m.pc.i == NR_TASKS {
      run := [];
      NoMoves(m);
    } else {
      OneMove(m, ScanTurn);
      var rest := ScanRuns(Next(m, ScanTurn));
      var (c, next) := Scan(m.s.slots, m.pc.i, m.pc.c, m.pc.next);
      LeadsTrans(m, [ScanTurn], Next(m, ScanTurn), rest, m.(pc := Scanning(NR_TASKS, c, next)));
      run := [ScanTurn] + rest;
    }
  }

  lemma NoMoves(m: Machine)
    ensures Leads(m, [], m)
  {
  }

  lemma {:induction false} RechargeRuns(m: Machine, was: seq<Slot>) returns (run: seq<Move>)
    requires m.s.Valid() && |m.leaks| == NR_TASKS == |was| && m.pc.Recharging? && m.pc.i <= NR_TASKS
    requires m.s.slots == Recharge(was)[..m.pc.i] + was[m.pc.i..]
    ensures ByTick(run)
    ensures Leads(m, run, Machine(Table(Recharge(was), m.s.current, m.s.nrTasks), Scanning(0, -1, 0), m.leaks))
    decreases NR_TASKS - m.pc.i
  {
    hide Possible, After;
    OneMove(m, RechargeTurn);
    run := [RechargeTurn];
    if m.pc.i < NR_TASKS {
      var m1 := Next(m, RechargeTurn);
      assert m1.s.slots == Recharge(was)[..m1.pc.i] + was[m1.pc.i..];
      var rest := RechargeRuns(m1, was);
      LeadsTrans(m, [RechargeTurn], m1, rest,
                 Machine(Table(Recharge(was), m.s.current, m.s.nrTasks), Scanning(0, -1, 0), m.leaks));
      run := [RechargeTurn] + rest;
    } else {
      assert m.s.slots == Recharge(was);
    }
  }

  /** The moves of one call of _schedule, with no tick among them, have the effect that the
      sequential _schedule has. */
  lemma ScheduleRuns(m: Machine) returns (run: seq<Move>)
    requires Inv(m) && m.pc.Outside?
    ensures ByTick(run)
    ensures Leads(m, run, m.(s := Reschedule(m.s)))
  {
    hide Possible, After, Leads, Pick, Scan, Recharge;
    var m1 := Next(m, EnterSchedule);
    OneMove(m, EnterSchedule);
    MoveKeeps(m, EnterSchedule);
    var scan := ScanRuns(m1);
    var (c, next) := Scan(m1.s.slots, 0, -1, 0);
    var m2 := m1.(pc := Scanning(NR_TASKS, c, next));
    LeadsTrans(m, [EnterSchedule], m1, scan, m2);
    PickScans(m1.s);
    if c != 0 {
      var last := SwitchRuns(m2);
      LeadsTrans(m, [EnterSchedule] + scan, m2, last, m.(s := Reschedule(m.s)));
      run := [EnterSchedule] + scan + last;
    } else {
      OneMove(m2, ScanEnd);
      var m3 := Next(m2, ScanEnd);
      LeadsTrans(m, [EnterSchedule] + scan, m2, [ScanEnd], m3);
      assert m3.s.slots == Recharge(m3.s.slots)[..0] + m3.s.slots[0..];
      var recharge := RechargeRuns(m3, m3.s.slots);
      var m4 := Machine(Table(Recharge(m3.s.slots), m3.s.current, m3.s.nrTasks), Scanning(0, -1, 0), m3.leaks);
      LeadsTrans(m, [EnterSchedule] + scan + [ScanEnd], m3, recharge, m4);
      RechargedValid(m3.s);
      var again := ScanRuns(m4);
      var (c', next') := Scan(m4.s.slots, 0, -1, 0);
      var m5 := m4.(pc := Scanning(NR_TASKS, c', next'));
      LeadsTrans(m, [EnterSchedule] + scan + [ScanEnd] + recharge, m4, again, m5);
      var last := SwitchRuns(m5);
      LeadsTrans(m, [EnterSchedule] + scan + [ScanEnd] + recharge + again, m5, last, m.(s := Reschedule(m.s)));
      run := [EnterSchedule] + scan + [ScanEnd] + recharge + again + last;
    }
  }

  lemma RechargedValid(s: Table)
    requires s.Valid()
    ensures Table(Recharge(s.slots), s.current, s.nrTasks).Valid()
  {
  }

  lemma PickScans(s: Table)
    requires s.Valid() && Bounded(s)
    ensures var (c, next) := Scan(s.slots, 0, -1, 0);
      && (c != 0 ==> Pick(s.slots) == (s.slots, next))
      && (c == 0 ==> Pick(s.slots) == (Recharge(s.slots), Scan(Recharge(s.slots), 0, -1, 0).1))
      && (c == 0 ==> Scan(Recharge(s.slots), 0, -1, 0).0 != 0)
    ensures Table(Pick(s.slots).0, Pick(s.slots).1, s.nrTasks).Valid()
  {
    TwoScans(s);
    PickNext(s);
  }

  /** The end of _schedule: switch_to and preempt_enable. */
  lemma SwitchRuns(m: Machine) returns (run: seq<Move>)
    requires m.s.Valid() && |m.leaks| == NR_TASKS && Enabled(m, ScanEnd) && m.pc.c != 0
    requires Table(m.s.slots, m.pc.next, m.s.nrTasks).Valid()
    ensures ByTick(run)
    ensures Leads(m, run, Machine(Enable(Table(m.s.slots, m.pc.next, m.s.nrTasks)), Outside, m.leaks))
  {
    hide Possible, After, Leads;
    var m1 := Next(m, ScanEnd);
    OneMove(m, ScanEnd);
    OneMove(m1, EnablePreemption);
    LeadsTrans(m, [ScanEnd], m1, [EnablePreemption], Next(m1, EnablePreemption));
    run := [ScanEnd, EnablePreemption];
    assert run == [ScanEnd] + [EnablePreemption];
  }
}
