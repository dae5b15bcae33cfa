/** The operations of the scheduler as runs of single statements, so that what holds over every
    run of statements holds of the operations too. */
module Operations {
  import opened Common
  import opened Scheduling
  import opened Preemption

  /** The moves of schedule. */
  lemma YieldRuns(m: Machine) returns (run: seq<Move>)
    requires Inv(m) && m.pc.Outside?
    ensures Leads(m, run, m.(s := Yield(m.s)))
  {
    hide Possible, After, Leads, Reschedule;
    var m1 := Next(m, ZeroCounter);
    OneMove(m, ZeroCounter);
    MoveKeeps(m, ZeroCounter);
    var rest := ScheduleRuns(m1);
    LeadsTrans(m, [ZeroCounter], m1, rest, m.(s := Yield(m.s)));
    run := [ZeroCounter] + rest;
  }

  /** The moves of timer_tick, wherever it comes: the tick itself, then, if the task's time is up
      and it may be preempted, those of _schedule. */
  lemma TickRuns(m: Machine) returns (run: seq<Move>)
    requires Inv(m)
    ensures Interrupt !in run && Goes(m, [Interrupt] + run, m.(s := Tick(m.s)))
    ensures ByTick([Interrupt] + run)
  {
    hide Possible, After, Goes, Reschedule;
    var m1 := Next(m, Interrupt);
    TickMove(m);
    MoveKeeps(m, Interrupt);
    run := [];
    var left := m.s.Cur().counter - 1;
    if left > 0 || m.s.Cur().preempt > 0 {
      assert [Interrupt] + [] == [Interrupt];
    } else {
      OutsideWhenZero(m);
      run := ScheduleRuns(m1);
      assert m1.s == SetCounter(SetCounter(m.s, left), 0);
      LeadsGoes(m1, run, m.(s := Tick(m.s)));
      GoesTrans(m, [Interrupt], m1, run, m.(s := Tick(m.s)));
    }
  }

  lemma TickMove(m: Machine)
    requires m.s.Valid() && |m.leaks| == NR_TASKS
    ensures Goes(m, [Interrupt], Next(m, Interrupt))
  {
    assert [Interrupt][1..] == [];
  }

  lemma OutsideWhenZero(m: Machine)
    requires Inv(m) && m.s.Cur().preempt <= 0
    ensures m.pc.Outside?
  {
    assert m.s.slots[m.s.current].Used?;
  }

  lemma LeadsGoes(m: Machine, run: seq<Move>, m': Machine)
    requires Leads(m, run, m')
    ensures Interrupt !in run && Goes(m, run, m')
  {
  }

  /** The moves of copy_process. */
  lemma ForkRuns(m: Machine, gotPage: bool) returns (run: seq<Move>)
    requires Inv(m) && m.pc.Outside? && m.s.nrTasks < NR_TASKS
    ensures gotPage ==>
      ForkFails !in run && Leads(m, run, m.(s := CopyProcess(m.s, true).0)) && Forked(m.s, CopyProcess(m.s, true).0)
    ensures !gotPage ==>
      Leads(m, run, Machine(CopyProcess(m.s, false).0, Outside, m.leaks[m.s.current := m.leaks[m.s.current] + 1]))
  {
    hide Possible, After, Leads;
    var m1 := Next(m, EnterFork);
    OneMove(m, EnterFork);
    MoveKeeps(m, EnterFork);
    ForkResult(m.s);
    if gotPage {
      var m2 := Next(m1, ForkInserts);
      OneMove(m1, ForkInserts);
      MoveKeeps(m1, ForkInserts);
      OneMove(m2, EnablePreemption);
      LeadsTrans(m, [EnterFork], m1, [ForkInserts], m2);
      run := [EnterFork] + [ForkInserts] + [EnablePreemption];
      LeadsTrans(m, [EnterFork] + [ForkInserts], m2, [EnablePreemption], Next(m2, EnablePreemption));
    } else {
      OneMove(m1, ForkFails);
      LeadsTrans(m, [EnterFork], m1, [ForkFails], Next(m1, ForkFails));
      run := [EnterFork] + [ForkFails];
    }
  }

  /** The moves of exit_process. */
  lemma ExitRuns(m: Machine) returns (run: seq<Move>)
    requires Inv(m) && m.pc.Outside?
    ensures Leads(m, run, m.(s := Exit(m.s)))
  {
    hide Possible, After, Leads, Yield;
    var m1 := Next(m, EnterExit);
    OneMove(m, EnterExit);
    MoveKeeps(m, EnterExit);
    var m2 := Next(m1, ExitMarks);
    OneMove(m1, ExitMarks);
    MoveKeeps(m1, ExitMarks);
    var m3 := Next(m2, EnablePreemption);
    OneMove(m2, EnablePreemption);
    MoveKeeps(m2, EnablePreemption);
    assert m3.s.slots == m.s.WithCur(m.s.Cur().(state := TaskZombie)).slots;
    LeadsTrans(m, [EnterExit], m1, [ExitMarks], m2);
    LeadsTrans(m, [EnterExit] + [ExitMarks], m2, [EnablePreemption], m3);
    var rest := YieldRuns(m3);
    LeadsTrans(m, [EnterExit] + [ExitMarks] + [EnablePreemption], m3, rest, m.(s := Exit(m.s)));
    run := [EnterExit] + [ExitMarks] + [EnablePreemption] + rest;
  }

  // ----- Runs of operations

  datatype Operation = TickOp | YieldOp | ForkOp(gotPage: bool) | ExitOp

  predicate CanPerform(s: Table, op: Operation) {
    s.Valid() && (op.ForkOp? ==> s.nrTasks < NR_TASKS)
  }

  function Perform(s: Table, op: Operation): Table
    requires CanPerform(s, op)
  {
    match op
    case TickOp => Tick(s)
    case YieldOp => Yield(s)
    case ForkOp(gotPage) => CopyProcess(s, gotPage).0
    case ExitOp => Exit(s)
  }

  predicate CanPerformAll(s: Table, ops: seq<Operation>)
    decreases |ops|
  {
    ops == [] || (CanPerform(s, ops[0]) && CanPerformAll(Perform(s, ops[0]), ops[1..]))
  }

  function PerformAll(s: Table, ops: seq<Operation>): Table
    requires CanPerformAll(s, ops)
    decreases |ops|
  {
    if ops == [] then s else PerformAll(Perform(s, ops[0]), ops[1..])
  }

  lemma OperationRuns(m: Machine, op: Operation) returns (run: seq<Move>, m': Machine)
    requires Inv(m) && m.pc.Outside? && CanPerform(m.s, op)
    ensures Goes(m, run, m') && m'.s == Perform(m.s, op) && m'.pc.Outside? && Inv(m')
    ensures op != ForkOp(false) ==> m'.leaks == m.leaks
  {
    hide Possible, After, Leads, Goes, Yield, Exit, Tick, CopyProcess, Inv;
    InvSizes(m);
    match op {
      case TickOp =>
        var rest := TickRuns(m);
        run, m' := [Interrupt] + rest, m.(s := Tick(m.s));
      case YieldOp =>
        run := YieldRuns(m);
        m' := m.(s := Yield(m.s));
        LeadsGoes(m, run, m');
      case ForkOp(gotPage) =>
        run := ForkRuns(m, gotPage);
        m' := if gotPage then m.(s := CopyProcess(m.s, true).0)
              else Machine(CopyProcess(m.s, false).0, Outside, m.leaks[m.s.current := m.leaks[m.s.current] + 1]);
        LeadsGoes(m, run, m');
      case ExitOp =>
        run := ExitRuns(m);
        m' := m.(s := Exit(m.s));
        LeadsGoes(m, run, m');
    }
    GoesKeeps(m, run, m');
  }

  lemma InvSizes(m: Machine)
    requires Inv(m)
    ensures m.s.Valid() && m.s.current < |m.leaks| == NR_TASKS
  {
  }

  lemma GoesKeeps(m: Machine, run: seq<Move>, m': Machine)
    requires Inv(m) && Goes(m, run, m')
    ensures Inv(m')
  {
    hide Inv;
    RunKeeps(m, run);
  }

  /** Every run of the operations is a run of statements, without a failed fork if none fails. */
  lemma {:induction false} OperationsAreRuns(m: Machine, ops: seq<Operation>) returns (run: seq<Move>, m': Machine)
    requires Inv(m) && m.pc.Outside? && CanPerformAll(m.s, ops)
    ensures Goes(m, run, m') && m'.s == PerformAll(m.s, ops) && m'.pc.Outside? && Inv(m')
    ensures ForkOp(false) !in ops ==> m'.leaks == m.leaks
    decreases |ops|
  {
    hide Inv, Goes, Perform;
    if ops == [] {
      run, m' := [], m;
      NothingGoes(m);
    } else {
      var first, m1 := OperationRuns(m, ops[0]);
      var rest;
      rest, m' := OperationsAreRuns(m1, ops[1..]);
      GoesTrans(m, first, m1, rest, m');
      run := first + rest;
    }
  }

  lemma NothingGoes(m: Machine)
    ensures Goes(m, [], m)
  {
  }

  /** After any ticks, yields, exits and forks from boot, none of the forks failing: the current
      task may be preempted, every other task will undo exactly one disable, and every counter is
      at most 2 * priority - 1. */
  lemma OperationsHandOver(ops: seq<Operation>)
    requires CanPerformAll(BootTable(), ops) && ForkOp(false) !in ops
    ensures var s := PerformAll(BootTable(), ops);
      && s.Valid() && Bounded(s)
      && forall i :: 0 <= i < s.nrTasks ==> s.slots[i].t.preempt == if i == s.current then 0 else 1
  {
    hide PerformAll, Goes;
    var run, m := OperationsAreRuns(Boot(), ops);
    assert forall i :: 0 <= i < m.s.nrTasks ==> m.s.slots[i].Used? && m.leaks[i] == 0;
  }
}
