/** What ticks inside _schedule do to the waiting bound: after how many recharges a task in debt is
    served, and runs after which a task waits as long as one likes. */
module Starvation {
  import opened Common
  import opened Scheduling
  import opened SchedulerFairness
  import opened Turns
  import P = Preemption
  import Operations

  // ----- Recharges

  /** How many calls of a run of ticks and yields recharge the counters. */
  ghost function Recharges(s: Table, es: seq<Event>): nat
    requires CanRun(s, es)
    decreases |es|
  {
    if es == [] then 0
    else (if Calls(s, es[0]) && Fresh(s) == {} then 1 else 0) + Recharges(Step(s, es[0]), es[1..])
  }

  /** A task that is not dispatched lacks one recharge less after each that comes; one that is
      lacked none but those that came. */
  lemma EventRecharges(s: Table, e: Event, t: nat)
    requires Sane(s) && CanHappen(s, e) && (e == TickEvent || e == YieldEvent) && s.Runnable(t)
    ensures var s' := Step(s, e);
      && Sane(s') && s'.Runnable(t)
      && var now := if Calls(s, e) && Fresh(s) == {} then 1 else 0;
      && (Calls(s, e) && s'.current == t ==> Lacks(s, t) == now)
      && (!(Calls(s, e) && s'.current == t) ==> Lacks(s', t) + now == Lacks(s, t))
      && (!Calls(s, e) ==> s'.current == s.current)
  {
    hide Reschedule, Tick, Lacks, Spent, HandedOver, Bounded;
    if Calls(s, e) {
      StepCalls(s, e);
      SpentReady(s);
      SameLacks(s, Spent(s), t);
      CallEffect(Spent(s));
      CallLacks(Spent(s), t);
    } else {
      TickStays(s, t);
    }
  }

  /** A runnable task is not dispatched before as many recharges as it lacks have come; and once
      they have come, it is before nobody waits with time left any more. */
  lemma {:induction false} ServedByRecharges(s: Table, es: seq<Event>, t: nat)
    requires Sane(s) && Plain(es) && CanRun(s, es) && s.Runnable(t)
    ensures Dispatched(s, es, t) ==> Recharges(s, es) >= Lacks(s, t)
    ensures Fresh(Run(s, es)) == {} && Recharges(s, es) >= Lacks(s, t) ==> Dispatched(s, es, t)
    decreases |es|
  {
    hide Step, Sane, CanHappen, Calls, Lacks;
    SaneValid(s);
    if es == [] {
      LacksFresh(s, t);
    } else {
      assert es[0] == TickEvent || es[0] == YieldEvent;
      EventRecharges(s, es[0], t);
      assert Plain(es[1..]);
      ServedByRecharges(Step(s, es[0]), es[1..], t);
    }
  }

  /** A task that lacks nothing waits with time left. */
  lemma LacksFresh(s: Table, t: nat)
    requires Sane(s) && s.Runnable(t)
    ensures Lacks(s, t) == 0 ==> t in Fresh(s)
  {
    LacksOne(s, t);
  }

  // ----- Debt

  /** A call of any kind takes at most one from what a task lacks. */
  lemma EventDebt(s: Table, e: Event, t: nat)
    requires Sane(s) && CanHappen(s, e) && s.Runnable(t) && t != s.current && (t != 0 || e != ExitEvent)
    ensures var s' := Step(s, e);
      && Sane(s') && s'.Runnable(t)
      && (s'.current == t ==> Calls(s, e) && Lacks(s, t) <= 1)
      && (s'.current != t ==> Lacks(s, t) <= Lacks(s', t) + if Calls(s, e) then 1 else 0)
  {
    hide Reschedule, CopyProcess, Tick, Yield, Exit, Lacks, HandedOver, Bounded, Relieved, SomeRunning;
    match e
    case ForkEvent => ForkLengthens(s, t);
    case ExitEvent => ExitDebt(s, t);
    case TickEvent => EventRecharges(s, e, t);
    case YieldEvent => EventRecharges(s, e, t);
  }

  lemma ExitDebt(s: Table, t: nat)
    requires Sane(s) && Relieved(s) && s.Runnable(t) && t != s.current && t != 0
    ensures var s' := Exit(s);
      && Sane(s') && s'.Runnable(t)
      && (s'.current == t ==> Lacks(s, t) <= 1)
      && (s'.current != t ==> Lacks(s, t) <= Lacks(s', t) + 1)
  {
    hide Reschedule, Lacks, HandedOver, Bounded, SomeRunning;
    var z := Left(s);
    LeftParts(s);
    if SomeRunning(z.slots, 0) {
      assert z.Runnable(t) && Due(z, t) == Due(s, t);
      SameLacks(s, z, t);
      CallEffect(z);
      CallLacks(z, t);
    } else {
      ExitDefault(s, t);
    }
  }

  /** A waiting task is not dispatched by fewer calls than it lacks recharges, whatever events make
      them; only the task of slot 0 may come sooner, when another exits. */
  lemma {:induction false} DebtWaits(s: Table, es: seq<Event>, t: nat)
    requires Sane(s) && CanRun(s, es) && s.Runnable(t) && t != s.current && (t != 0 || ExitEvent !in es)
    requires CallCount(s, es) < Lacks(s, t)
    ensures !Dispatched(s, es, t)
    decreases |es|
  {
    hide Step, Sane, CanHappen, Calls, Lacks;
    SaneValid(s);
    if es != [] {
      EventDebt(s, es[0], t);
      if Step(s, es[0]).current != t {
        DebtWaits(Step(s, es[0]), es[1..], t);
      }
    }
  }

  // ----- A run that leads there

  /** k ticks inside _schedule take k from the current counter. */
  lemma {:induction false} Interrupts(m: P.Machine, k: nat) returns (run: seq<P.Move>)
    requires P.Inv(m) && m.pc.Scanning?
    ensures m.s.Valid() && P.Goes(m, run, m.(s := P.SetCounter(m.s, m.s.Cur().counter - k)))
    ensures P.Inv(m.(s := P.SetCounter(m.s, m.s.Cur().counter - k)))
    decreases k
  {
    hide P.Inv, P.Goes;
    ScanningFacts(m);
    if k == 0 {
      run := [];
      Operations.NothingGoes(m);
    } else {
      var m1 := P.Next(m, P.Interrupt);
      Operations.TickMove(m);
      P.MoveKeeps(m, P.Interrupt);
      var rest := Interrupts(m1, k - 1);
      assert m1.(s := P.SetCounter(m1.s, m1.s.Cur().counter - (k - 1)))
          == m.(s := P.SetCounter(m.s, m.s.Cur().counter - k));
      P.GoesTrans(m, [P.Interrupt], m1, rest, m.(s := P.SetCounter(m.s, m.s.Cur().counter - k)));
      run := [P.Interrupt] + rest;
    }
  }

  lemma ScanningFacts(m: P.Machine)
    requires P.Inv(m) && m.pc.Scanning?
    ensures m.s.Valid() && |m.leaks| == NR_TASKS && m.s.Cur().preempt > 0
    ensures P.SetCounter(m.s, m.s.Cur().counter) == m.s
  {
    assert m.s.slots[m.s.current].Used?;
    assert m.s.WithCur(m.s.Cur()).slots == m.s.slots;
  }

  /** The initial task, which owes `debt` ticks, and its child. */
  function Pair(debt: nat, current: nat): Table
    requires current < 2
  {
    var child := Task(TaskRunning, 15, 15, if current == 0 then 1 else 0);
    Table([Used(Task(TaskRunning, -(debt as int), 15, 1)), Used(child)] + seq(NR_TASKS - 2, _ => Free), current, 2)
  }

  /** From boot: a fork, then a yield of the initial task with `debt` ticks inside _schedule. The
      child runs on, and the initial task waits with that debt. */
  lemma DebtRun(debt: nat) returns (run: seq<P.Move>)
    ensures P.Goes(P.Boot(), run, P.Machine(Pair(debt, 1), P.Outside, seq(NR_TASKS, _ => 0)))
  {
    hide P.Possible, P.After, P.Goes, P.Inv, Scan, CopyProcess;
    var m0 := P.Boot();
    var fork := Operations.ForkRuns(m0, true);
    var m1 := m0.(s := CopyProcess(m0.s, true).0);
    Operations.LeadsGoes(m0, fork, m1);
    Operations.GoesKeeps(m0, fork, m1);
    ForkedPair();
    var m2 := P.Next(m1, P.EnterSchedule);
    P.MoveKeeps(m1, P.EnterSchedule);
    P.OneMove(m1, P.EnterSchedule);
    Operations.LeadsGoes(m1, [P.EnterSchedule], m2);
    P.GoesTrans(m0, fork, m1, [P.EnterSchedule], m2);
    var ticks := Interrupts(m2, debt);
    var m3 := m2.(s := P.SetCounter(m2.s, m2.s.Cur().counter - debt));
    P.GoesTrans(m0, fork + [P.EnterSchedule], m2, ticks, m3);
    DebtPair(debt, m2.s, m3.s);
    var scan := P.ScanRuns(m3);
    var (c, next) := Scan(m3.s.slots, 0, -1, 0);
    var m4 := m3.(pc := P.Scanning(NR_TASKS, c, next));
    Operations.LeadsGoes(m3, scan, m4);
    P.GoesTrans(m0, fork + [P.EnterSchedule] + ticks, m3, scan, m4);
    var switch := P.SwitchRuns(m4);
    var m5 := P.Machine(Enable(Table(m4.s.slots, 1, 2)), P.Outside, m4.leaks);
    Operations.LeadsGoes(m4, switch, m5);
    P.GoesTrans(m0, fork + [P.EnterSchedule] + ticks + scan, m4, switch, m5);
    assert m5.s.slots == Pair(debt, 1).slots;
    run := fork + [P.EnterSchedule] + ticks + scan + switch;
  }

  lemma ForkedPair()
    ensures BootTable().nrTasks < NR_TASKS
    ensures var s := CopyProcess(BootTable(), true).0;
      s.Valid() && s.nrTasks == 2 && s.current == 0
      && s.slots[0] == Used(Task(TaskRunning, 0, 15, 0)) && s.slots[1] == Used(Task(TaskRunning, 15, 15, 1))
  {
  }

  /** The scan of the indebted pair finds the child. */
  lemma DebtPair(debt: nat, a: Table, b: Table)
    requires a == Disable(CopyProcess(BootTable(), true).0) && a.Valid() && a.Cur().counter == 0
    requires b == P.SetCounter(a, -(debt as int))
    ensures b.slots == Pair(debt, 0).slots && b.nrTasks == 2 && b.current == 0 && b.Valid()
    ensures Scan(b.slots, 0, -1, 0) == (15, 1)
  {
    hide Scan;
    ForkedPair();
    assert b.slots == Pair(debt, 0).slots;
    assert SmallCounters(b.slots);
    ScanResult(b.slots);
    assert b.slots[1].t.counter >= 0;
    assert SomeRunning(b.slots, 0);
  }

  /** No bound holds once ticks inside _schedule are allowed: for every w there is a run from boot
      after which, with two runnable tasks, one of them is not dispatched by w calls of _schedule,
      whatever ticks, yields and forks make them. */
  lemma UnboundedWait(w: nat) returns (run: seq<P.Move>, m: P.Machine)
    ensures P.Goes(P.Boot(), run, m) && m.pc.Outside? && Sane(m.s)
    ensures Runnables(m.s) == {0, 1} && m.s.current == 1
    ensures forall es :: CanRun(m.s, es) && ExitEvent !in es && CallCount(m.s, es) <= w ==> !Dispatched(m.s, es, 0)
  {
    hide P.Goes;
    ThresholdFalls(w, 15);
    var debt := 1 - Threshold(w, 15);
    run := DebtRun(debt);
    m := P.Machine(Pair(debt, 1), P.Outside, seq(NR_TASKS, _ => 0));
    assert Runnables(m.s) == {0, 1};
    LiftsIff(-debt, 15, w);
    assert Lacks(m.s, 0) > w;
    forall es | CanRun(m.s, es) && ExitEvent !in es && CallCount(m.s, es) <= w ensures !Dispatched(m.s, es, 0) {
      DebtWaits(m.s, es, 0);
    }
  }
}
