/** No starvation. With n runnable tasks, a task is dispatched within (r + 1) * n - 1 calls of
    _schedule, and r + 1 more for every task forked meanwhile, whatever mixture of ticks, yields,
    forks and exits makes them, where r is the number of recharges that its own counter needs to
    become positive: at most 1, unless it is far below zero. What others owe does not matter. */
module SchedulerFairness {
  import opened Common
  import opened Scheduling

  datatype Event = TickEvent | YieldEvent | ForkEvent | ExitEvent

  /** A task exits only when a runnable one goes on: one whose counter is not negative, or, if
      there is none, the task of slot 0. */
  predicate CanHappen(s: Table, e: Event) {
    s.Valid() && (e == ForkEvent ==> s.nrTasks < NR_TASKS) && (e == ExitEvent ==> Relieved(s))
  }

  predicate Relieved(s: Table) {
    || (s.current != 0 && s.Runnable(0))
    || exists i :: 0 <= i < |s.slots| && i != s.current && s.Runnable(i) && s.slots[i].t.counter >= 0
  }

  function Step(s: Table, e: Event): Table
    requires CanHappen(s, e)
  {
    match e
    case TickEvent => Tick(s)
    case YieldEvent => Yield(s)
    case ForkEvent => CopyProcess(s, true).0
    case ExitEvent => Exit(s)
  }

  /** Whether the event calls _schedule. */
  predicate Calls(s: Table, e: Event)
    requires s.Valid()
  {
    e.YieldEvent? || e.ExitEvent? || (e.TickEvent? && s.Cur().counter - 1 <= 0 && s.Cur().preempt <= 0)
  }

  /** What holds between events, whatever ticks inside disabled sections did to the counters. */
  ghost predicate Sane(s: Table) {
    s.Valid() && Bounded(s) && HandedOver(s) && s.Runnable(s.current)
  }

  /** A state in which _schedule picks a task by its counter. */
  ghost predicate Ready(s: Table) {
    && s.Valid() && Bounded(s) && HandedOver(s) && SomeRunning(s.slots, 0)
    && (s.Runnable(s.current) ==> s.Cur().counter == 0)
  }

  ghost function Runnables(s: Table): set<nat> {
    set i | 0 <= i < |s.slots| && s.Runnable(i)
  }

  /** The runnable tasks other than the current one with time left. */
  ghost function Fresh(s: Table): set<nat> {
    set i | 0 <= i < |s.slots| && s.Runnable(i) && i != s.current && s.slots[i].t.counter > 0
  }

  // ----- Recharges a counter needs

  /** How often a counter must be recharged to become positive. */
  function Lifts(counter: int, priority: int): nat
    decreases if counter > 0 then 0 else 1 - counter
  {
    if counter > 0 || priority <= 0 then 0 else 1 + Lifts(counter / 2 + priority, priority)
  }

  /** The least counter that k recharges make positive. */
  function Threshold(k: nat, priority: int): int {
    if k == 0 then 1 else 2 * (Threshold(k - 1, priority) - priority)
  }

  /** The number of recharges, in terms of the counter: 0 from 1 on, at most 1 from
      2 - 2 * priority on, at most 2 from 4 - 6 * priority on, and so forth. */
  lemma {:induction false} LiftsIff(counter: int, priority: int, k: nat)
    requires priority > 0
    ensures Lifts(counter, priority) <= k <==> counter >= Threshold(k, priority)
    decreases k
  {
    ThresholdFalls(k, priority);
    if k > 0 && counter <= 0 {
      LiftsIff(counter / 2 + priority, priority, k - 1);
    }
  }

  lemma {:induction false} ThresholdFalls(k: nat, priority: int)
    requires priority > 0
    ensures Threshold(k, priority) <= 1
  {
    if k > 0 {
      ThresholdFalls(k - 1, priority);
    }
  }

  /** The counter that a task will have when _schedule is called. */
  function Due(s: Table, t: nat): int
    requires t < |s.slots| && s.slots[t].Used?
  {
    if t == s.current then 0 else s.slots[t].t.counter
  }

  /** The recharges task t needs before it has time. */
  function Lacks(s: Table, t: nat): nat
    requires t < |s.slots| && s.slots[t].Used?
  {
    Lifts(Due(s, t), s.slots[t].t.priority)
  }

  /** The current task lacks one; another at most one iff its counter is at least 2 - 2 * priority. */
  lemma LacksOne(s: Table, t: nat)
    requires Bounded(s) && s.Runnable(t)
    ensures Lacks(s, t) <= 1 <==> t == s.current || s.slots[t].t.counter >= 2 - 2 * s.slots[t].t.priority
    ensures t == s.current ==> Lacks(s, t) == 1
  {
    LiftsIff(Due(s, t), s.slots[t].t.priority, 1);
    assert Threshold(0, s.slots[t].t.priority) == 1;
    LiftsIff(Due(s, t), s.slots[t].t.priority, 0);
  }

  /** An upper bound on the calls until task t is dispatched. */
  ghost function Wait(s: Table, t: nat): nat
    requires s.Runnable(t)
  {
    |Fresh(s)| + Lacks(s, t) * |Runnables(s)|
  }

  lemma WaitBound(s: Table, t: nat)
    requires Sane(s) && s.Runnable(t)
    ensures 1 <= Wait(s, t) <= (Lacks(s, t) + 1) * |Runnables(s)| - 1
  {
    var all := Runnables(s);
    assert s.current in all && s.current !in Fresh(s);
    SubsetSize(Fresh(s), all);
    SubsetSize({s.current}, all);
    if Lacks(s, t) == 0 {
      assert t in Fresh(s);
      SubsetSize({t}, Fresh(s));
    } else {
      assert Lacks(s, t) * |all| >= |all|;
    }
  }

  /** The state in which _schedule picks, after the current counter is set to 0. */
  function Spent(s: Table): Table
    requires s.Valid()
  {
    s.WithCur(s.Cur().(counter := 0))
  }

  /** Two tables that differ only in preempt counts. */
  ghost predicate SameButPreempt(a: seq<Slot>, b: seq<Slot>) {
    && |a| == |b|
    && forall i :: 0 <= i < |a| ==>
         (a[i].Used? <==> b[i].Used?) && (a[i].Used? ==> a[i].t.(preempt := 0) == b[i].t.(preempt := 0))
  }

  /** A call of _schedule: the next task is the best one, and the counters are as picked. */
  lemma CallResult(s: Table)
    requires Ready(s)
    ensures var s' := Reschedule(s);
      var slots := if SomeRunning(s.slots, 1) then s.slots else Recharge(s.slots);
      && s'.Valid() && s'.nrTasks == s.nrTasks && HandedOver(s') && Bounded(s')
      && SameButPreempt(s'.slots, slots) && IsBest(slots, s'.current) && slots[s'.current].t.counter > 0
  {
    hide Pick, IsBest, SomeRunning, Recharge, Disable, Enable, Bounded, SameButPreempt, HandedOver;
    var s1 := Disable(s);
    DisableKeeps(s);
    PickResult(s1);
    PickNext(s1);
    var (slots, next) := Pick(s1.slots);
    var s2 := Table(slots, next, s1.nrTasks);
    SamePick(s1.slots, s.slots, 1);
    SamePick(s.slots, s1.slots, 1);
    SamePick(s.slots, s1.slots, 0);
    BestRuns(slots, next);
    RechargeKeeps(s1.slots, s.slots);
    RechargeBounded(s1);
    var picked := if SomeRunning(s.slots, 1) then s.slots else Recharge(s.slots);
    SamePick(slots, picked, 0);
    SameRunnable(slots, picked, next);
    PreemptsAfter(s, s2);
    SameTrans(Enable(s2).slots, slots, picked);
    SameSlotsBounded(if SomeRunning(s.slots, 1) then s1 else Table(Recharge(s1.slots), s1.current, s1.nrTasks), s2);
    SameBounded(s2, Enable(s2));
  }

  lemma SameSlotsBounded(a: Table, b: Table)
    requires Bounded(a) && a.slots == b.slots
    ensures Bounded(b)
  {
  }

  lemma SameBounded(a: Table, b: Table)
    requires Bounded(a) && SameButPreempt(b.slots, a.slots)
    ensures Bounded(b)
  {
    forall i | 0 <= i < |b.slots| && b.slots[i].Used?
      ensures 1 <= b.slots[i].t.priority < 0x4000_0000 && b.slots[i].t.counter <= 2 * b.slots[i].t.priority - 1
    {
      assert a.slots[i].Used?;
    }
  }

  lemma DisableKeeps(s: Table)
    requires s.Valid() && Bounded(s)
    ensures SameButPreempt(Disable(s).slots, s.slots) && SameButPreempt(s.slots, Disable(s).slots)
    ensures Disable(s).Valid() && Bounded(Disable(s))
    ensures Disable(s).nrTasks == s.nrTasks && Disable(s).current == s.current
  {
  }

  lemma RechargeKeeps(a: seq<Slot>, b: seq<Slot>)
    requires SameButPreempt(a, b)
    ensures SameButPreempt(Recharge(a), Recharge(b))
  {
    assert forall i :: 0 <= i < |a| && a[i].Used? ==>
      a[i].t.counter == b[i].t.counter && a[i].t.priority == b[i].t.priority;
  }

  lemma SameTrans(a: seq<Slot>, b: seq<Slot>, c: seq<Slot>)
    requires SameButPreempt(a, b) && SameButPreempt(b, c)
    ensures SameButPreempt(a, c)
  {
  }

  lemma SameRunnable(a: seq<Slot>, b: seq<Slot>, i: nat)
    requires SameButPreempt(a, b) && i < |a| && a[i].Used?
    ensures b[i].Used? && b[i].t.state == a[i].t.state && b[i].t.counter == a[i].t.counter
  {
  }

  /** _schedule disables preemption for the task it leaves and enables it for the next one. */
  lemma PreemptsAfter(s: Table, s2: Table)
    requires s.Valid() && HandedOver(s) && s2.Valid()
    requires s2.slots == Disable(s).slots || s2.slots == Recharge(Disable(s).slots)
    ensures HandedOver(Enable(s2)) && SameButPreempt(Enable(s2).slots, s2.slots)
    ensures Enable(s2).Valid() && Enable(s2).current == s2.current && Enable(s2).nrTasks == s2.nrTasks
  {
  }

  lemma BestRuns(slots: seq<Slot>, i: nat)
    requires IsBest(slots, i)
    ensures i < |slots| && slots[i].Used? && slots[i].t.state == TaskRunning
  {
  }

  lemma SamePick(a: seq<Slot>, b: seq<Slot>, atLeast: int)
    requires SameButPreempt(a, b)
    ensures SomeRunning(a, atLeast) ==> SomeRunning(b, atLeast)
    ensures forall i: nat :: IsBest(a, i) ==> IsBest(b, i)
  {
    if SomeRunning(a, atLeast) {
      var i :| 0 <= i < |a| && a[i].Used? && a[i].t.state == TaskRunning && a[i].t.counter >= atLeast;
      assert b[i].Used? && b[i].t.counter == a[i].t.counter;
    }
    forall i: nat | IsBest(a, i) ensures IsBest(b, i) {
      assert a[i].Used?;
      forall j | 0 <= j < |b| && b[j].Used? && b[j].t.state == TaskRunning
        ensures b[j].t.counter <= b[i].t.counter && (b[j].t.counter == b[i].t.counter ==> i <= j)
      {
        assert a[j].Used?;
      }
    }
  }

  // ----- The effect of a call

  /** A call of _schedule changes no task's state or priority, recharges every counter if no
      waiting task has time left and none otherwise, and dispatches the best task that has time. */
  lemma CallEffect(s: Table)
    requires Ready(s)
    ensures var s' := Reschedule(s);
      && Sane(s') && |s'.slots| == |s.slots|
      && (forall i: nat :: s.Runnable(i) <==> s'.Runnable(i))
      && (forall i :: 0 <= i < |s.slots| && s.Runnable(i) ==>
            && s'.slots[i].t.priority == s.slots[i].t.priority
            && s'.slots[i].t.counter ==
               if Fresh(s) == {} then s.slots[i].t.counter / 2 + s.slots[i].t.priority else s.slots[i].t.counter)
      && s'.slots[s'.current].t.counter > 0 && IsBest(s'.slots, s'.current)
  {
    hide Reschedule, SameButPreempt, IsBest, SomeRunning, HandedOver, Bounded;
    var s' := Reschedule(s);
    CallResult(s);
    FreshIffSome(s);
    var slots := if SomeRunning(s.slots, 1) then s.slots else Recharge(s.slots);
    var r := Table(slots, s.current, s.nrTasks);
    SameTasks(r, s');
    SameBack(s'.slots, slots);
    SamePick(slots, s'.slots, 0);
    BestRuns(slots, s'.current);
    if !SomeRunning(s.slots, 1) {
      RechargedTasks(s, r);
    }
  }

  lemma SameBack(a: seq<Slot>, b: seq<Slot>)
    requires SameButPreempt(a, b)
    ensures SameButPreempt(b, a)
  {
  }

  lemma FreshIffSome(s: Table)
    requires Ready(s)
    ensures Fresh(s) != {} <==> SomeRunning(s.slots, 1)
  {
    if SomeRunning(s.slots, 1) {
      var i :| 0 <= i < |s.slots| && s.slots[i].Used? && s.slots[i].t.state == TaskRunning && s.slots[i].t.counter >= 1;
      assert i in Fresh(s);
    }
    if Fresh(s) != {} {
      var i :| i in Fresh(s);
      assert s.slots[i].t.counter >= 1;
    }
  }

  lemma SameTasks(s: Table, s': Table)
    requires SameButPreempt(s'.slots, s.slots)
    ensures |s'.slots| == |s.slots|
    ensures forall i: nat :: s'.Runnable(i) <==> s.Runnable(i)
    ensures forall i :: 0 <= i < |s.slots| && s.slots[i].Used? ==>
      && s'.slots[i].Used?
      && s'.slots[i].t.counter == s.slots[i].t.counter && s'.slots[i].t.priority == s.slots[i].t.priority
  {
    forall i: nat ensures s'.Runnable(i) <==> s.Runnable(i) {
    }
  }

  lemma RechargedTasks(s: Table, r: Table)
    requires r.slots == Recharge(s.slots)
    ensures |r.slots| == |s.slots| && forall i: nat :: s.Runnable(i) <==> r.Runnable(i)
  {
    forall i: nat ensures r.Runnable(i) <==> s.Runnable(i) {
    }
  }

  /** What a call means for task t: if it is not dispatched it lacks one recharge less or as many
      as before; if it is, it lacked none, or one that came. */
  lemma CallLacks(s: Table, t: nat)
    requires Ready(s) && s.Runnable(t)
    ensures var s' := Reschedule(s);
      && s'.Valid() && s'.Runnable(t)
      && var recharges := if Fresh(s) == {} then 1 else 0;
      && (s'.current != t ==> Lacks(s', t) + recharges == Lacks(s, t))
      && (s'.current == t ==> Lacks(s, t) == recharges)
  {
    hide Reschedule, SomeRunning, HandedOver;
    CallEffect(s);
    var s' := Reschedule(s);
    assert Due(s, t) == s.slots[t].t.counter;
    assert s.slots[t].t.priority >= 1;
    if Fresh(s) == {} {
      assert t !in Fresh(s);
      assert s.slots[t].t.counter <= 0;
      assert Lifts(Due(s, t), s.slots[t].t.priority) == 1 + Lifts(s'.slots[t].t.counter, s.slots[t].t.priority);
    } else if s'.current == t {
      assert s'.slots[t].t.counter > 0;
    }
  }

  /** After a call every runnable task that was not dispatched waits one call less. */
  lemma CallShortens(s: Table, t: nat)
    requires Ready(s) && s.Runnable(t)
    ensures var s' := Reschedule(s);
      && Sane(s') && s'.Runnable(t)
      && (s'.current == t || (Lacks(s', t) <= Lacks(s, t) && Wait(s', t) < Wait(s, t)))
  {
    hide Reschedule, SomeRunning, HandedOver, Bounded, Lacks, IsBest;
    CallEffect(s);
    CallLacks(s, t);
    var s' := Reschedule(s);
    var n := |Runnables(s)|;
    assert Runnables(s') == Runnables(s);
    if s'.current != t {
      if Fresh(s) == {} {
        assert s'.current in Runnables(s) && s'.current !in Fresh(s');
        SubsetSize(Fresh(s'), Runnables(s));
        assert Lacks(s, t) * n == Lacks(s', t) * n + n;
      } else {
        FreshLess(s, s');
      }
    }
  }

  lemma FreshLess(s: Table, s': Table)
    requires Ready(s) && s' == Reschedule(s) && Fresh(s) != {}
    ensures s'.current in Fresh(s) && Fresh(s') == Fresh(s) - {s'.current} && |Fresh(s')| < |Fresh(s)|
  {
    hide Reschedule, SomeRunning, HandedOver, Bounded, IsBest;
    CallEffect(s);
    assert s.slots[s'.current].t.counter > 0;
    assert s'.current in Fresh(s);
    forall i: nat ensures i in Fresh(s') <==> i in Fresh(s) && i != s'.current {
      if i < |s.slots| && s.Runnable(i) && i == s.current {
        assert s.Cur().counter == 0;
      }
    }
  }

  // ----- Events

  /** Ticks and yields that call _schedule call it with the current counter at 0. */
  lemma StepCalls(s: Table, e: Event)
    requires s.Valid() && (e == TickEvent || e == YieldEvent) && Calls(s, e)
    ensures Step(s, e) == Reschedule(Spent(s))
  {
    hide Reschedule;
    if e.TickEvent? {
      var s1 := s.WithCur(s.Cur().(counter := s.Cur().counter - 1));
      assert s1.WithCur(s1.Cur().(counter := 0)).slots == Spent(s).slots;
    }
  }

  lemma SpentReady(s: Table)
    requires Sane(s)
    ensures Ready(Spent(s)) && Spent(s).current == s.current && |Spent(s).slots| == |s.slots|
    ensures Fresh(Spent(s)) == Fresh(s) && Runnables(Spent(s)) == Runnables(s)
    ensures forall i: nat :: s.Runnable(i) <==> Spent(s).Runnable(i)
    ensures forall i :: 0 <= i < |s.slots| && s.Runnable(i) ==>
      && Spent(s).slots[i].t.priority == s.slots[i].t.priority
      && Due(Spent(s), i) == Due(s, i) == Spent(s).slots[i].t.counter
  {
    assert Spent(s).slots[s.current].t.counter >= 0;
    forall i: nat ensures s.Runnable(i) <==> Spent(s).Runnable(i) {
    }
  }

  /** A tick that does not end the current task's time. */
  lemma TickOnly(s: Table)
    requires Sane(s) && !Calls(s, TickEvent)
    ensures var s' := Tick(s);
      && s' == s.WithCur(s.Cur().(counter := s.Cur().counter - 1))
      && Sane(s') && Runnables(s') == Runnables(s) && Fresh(s') == Fresh(s) && s'.current == s.current
      && |s'.slots| == |s.slots|
      && (forall i: nat :: s.Runnable(i) <==> s'.Runnable(i))
      && (forall i :: 0 <= i < |s.slots| && s.Runnable(i) ==>
            s'.slots[i].t.priority == s.slots[i].t.priority && Due(s', i) == Due(s, i))
  {
    hide Reschedule;
    forall i: nat ensures s.Runnable(i) <==> Tick(s).Runnable(i) {
    }
  }

  /** A fork adds one fresh task. */
  lemma ForkAdds(s: Table)
    requires Sane(s) && s.nrTasks < NR_TASKS
    ensures var s' := CopyProcess(s, true).0;
      && Sane(s') && s'.current == s.current
      && Runnables(s') == Runnables(s) + {s.nrTasks} && Fresh(s') == Fresh(s) + {s.nrTasks}
      && (forall i :: 0 <= i < |s.slots| && s.Runnable(i) ==>
            && i < |s'.slots| && s'.Runnable(i)
            && s'.slots[i].t.priority == s.slots[i].t.priority && Due(s', i) == Due(s, i))
  {
    var s' := CopyProcess(s, true).0;
    assert forall i :: 0 <= i < NR_TASKS && i != s.nrTasks && i != s.current ==> s'.slots[i] == s.slots[i];
  }

  /** The state in which exit_process picks. */
  function Left(s: Table): Table
    requires s.Valid()
  {
    Spent(s.WithCur(s.Cur().(state := TaskZombie)))
  }

  lemma LeftParts(s: Table)
    requires Sane(s)
    ensures var z := Left(s);
      && Exit(s) == Reschedule(z) && z.Valid() && Bounded(z) && HandedOver(z)
      && z.current == s.current && !z.Runnable(z.current)
      && Runnables(z) == Runnables(s) - {s.current} && Fresh(z) == Fresh(s)
      && (forall i :: 0 <= i < |s.slots| && i != s.current ==> i < |z.slots| && z.slots[i] == s.slots[i])
  {
    hide Reschedule;
  }

  /** With no counter that is not negative, the task of slot 0 goes on, whatever its counter. */
  lemma DefaultPick(z: Table)
    requires z.Valid() && Bounded(z) && HandedOver(z) && !SomeRunning(z.slots, 0)
    ensures var s' := Reschedule(z);
      && s'.current == 0 && s'.Valid() && (s'.Runnable(0) <==> z.Runnable(0))
      && HandedOver(s') && Bounded(s') && SameButPreempt(s'.slots, z.slots)
  {
    hide Pick, SomeRunning, Bounded, HandedOver, SameButPreempt, Disable, Enable;
    var z1 := Disable(z);
    DisableKeeps(z);
    SamePick(z1.slots, z.slots, 0);
    SamePick(z1.slots, z.slots, 1);
    SomeLess(z.slots);
    PickResult(z1);
    var s2 := Table(z1.slots, 0, z1.nrTasks);
    assert s2.Valid();
    PreemptsAfter(z, s2);
    SameTrans(Enable(s2).slots, s2.slots, z.slots);
    SameBounded(z, Enable(s2));
    SameTasks(z, Enable(s2));
  }

  lemma SomeLess(slots: seq<Slot>)
    ensures SomeRunning(slots, 1) ==> SomeRunning(slots, 0)
  {
    if i :| 0 <= i < |slots| && slots[i].Used? && slots[i].t.state == TaskRunning && slots[i].t.counter >= 1 {
      assert slots[i].t.counter >= 0;
    }
  }

  /** With no time left anywhere but in debt, an exit dispatches the task of slot 0. */
  lemma ExitDefault(s: Table, t: nat)
    requires Sane(s) && Relieved(s) && s.Runnable(t) && t != s.current && !SomeRunning(Left(s).slots, 0)
    ensures var s' := Exit(s);
      && Sane(s') && s'.Runnable(t) && s'.current == 0
      && (t != 0 ==> Lacks(s', t) == Lacks(s, t) && Wait(s', t) < Wait(s, t))
  {
    hide Reschedule, Lacks, HandedOver, Bounded, SameButPreempt;
    var z := Left(s);
    LeftParts(s);
    RelievedByFirst(s);
    DefaultPick(z);
    var s' := Exit(s);
    SameTasks(z, s');
    assert z.Runnable(t) && s'.Runnable(0);
    assert Runnables(s') == Runnables(s) - {s.current};
    if t != 0 {
      NobodyFresh(z, s');
      assert Fresh(s) == {} && Fresh(s') == {};
      assert Due(s', t) == Due(s, t) == s.slots[t].t.counter <= 0;
      SameLacks(s, s', t);
      var n := |Runnables(s)|;
      assert s.current in Runnables(s);
      assert Lacks(s, t) >= 1 by { InDebt(s, t); }
      assert |Runnables(s')| == n - 1;
      assert Lacks(s, t) * (n - 1) == Lacks(s, t) * n - Lacks(s, t);
    }
  }

  lemma RelievedByFirst(s: Table)
    requires Sane(s) && Relieved(s) && !SomeRunning(Left(s).slots, 0)
    ensures s.current != 0 && s.Runnable(0)
  {
    hide Bounded, HandedOver;
    LeftParts(s);
    if i :| 0 <= i < |s.slots| && i != s.current && s.Runnable(i) && s.slots[i].t.counter >= 0 {
      assert Left(s).slots[i].t.counter >= 0;
    }
  }

  lemma NobodyFresh(z: Table, s': Table)
    requires !SomeRunning(z.slots, 0) && SameButPreempt(s'.slots, z.slots)
    ensures Fresh(z) == {} && Fresh(s') == {}
    ensures forall i :: 0 <= i < |z.slots| && z.Runnable(i) ==> z.slots[i].t.counter < 0
  {
    hide SameButPreempt;
    SameTasks(z, s');
    assert forall i :: 0 <= i < |z.slots| && z.Runnable(i) ==> z.slots[i].t.counter < 0;
  }

  lemma SameLacks(s: Table, s': Table, t: nat)
    requires t < |s.slots| && t < |s'.slots| && s.slots[t].Used? && s'.slots[t].Used?
    requires Due(s', t) == Due(s, t) && s'.slots[t].t.priority == s.slots[t].t.priority
    ensures Lacks(s', t) == Lacks(s, t)
  {
  }

  lemma InDebt(s: Table, t: nat)
    requires Bounded(s) && s.Runnable(t) && Due(s, t) <= 0
    ensures Lacks(s, t) >= 1
  {
  }

  /** An exit lets another task go on. */
  lemma ExitShortens(s: Table, t: nat)
    requires Sane(s) && Relieved(s) && s.Runnable(t) && t != s.current
    ensures var s' := Exit(s);
      && Sane(s') && s'.Runnable(t)
      && (s'.current == t || (Lacks(s', t) <= Lacks(s, t) && Wait(s', t) < Wait(s, t)))
  {
    hide Reschedule, Lacks, HandedOver, Bounded, SomeRunning;
    var z := Left(s);
    LeftParts(s);
    if SomeRunning(z.slots, 0) {
      assert z.Runnable(t) && Due(z, t) == Due(s, t);
      SameLacks(s, z, t);
      CallShortens(z, t);
      SubsetSize(Runnables(z), Runnables(s));
      MulMono(Lacks(s, t), |Runnables(z)|, |Runnables(s)|);
    } else {
      ExitDefault(s, t);
    }
  }

  lemma MulMono(a: nat, b: nat, c: nat)
    requires b <= c
    ensures a * b <= a * c
  {
  }

  /** An event that calls _schedule dispatches a given task or shortens its wait; another keeps
      the current task, and only a fork lengthens the wait. */
  lemma EventProgress(s: Table, e: Event, t: nat)
    requires Sane(s) && CanHappen(s, e) && s.Runnable(t) && (e == ExitEvent ==> t != s.current)
    ensures var s' := Step(s, e);
      && Sane(s') && s'.Runnable(t)
      && (Calls(s, e) ==> s'.current == t || (Lacks(s', t) <= Lacks(s, t) && Wait(s', t) < Wait(s, t)))
      && (!Calls(s, e) ==>
            && s'.current == s.current && Lacks(s', t) == Lacks(s, t)
            && Wait(s', t) <= Wait(s, t) + if e == ForkEvent then 1 + Lacks(s, t) else 0)
  {
    hide Reschedule, CopyProcess, Exit, Tick, Yield, Lacks, Wait, Relieved, Left, Spent, Sane;
    SaneValid(s);
    match e
    case ForkEvent =>
      ForkLengthens(s, t);
    case ExitEvent =>
      ExitShortens(s, t);
    case YieldEvent =>
      SpentShortens(s, e, t);
    case TickEvent =>
      if Calls(s, e) {
        SpentShortens(s, e, t);
      } else {
        TickStays(s, t);
      }
  }

  lemma ForkLengthens(s: Table, t: nat)
    requires Sane(s) && s.nrTasks < NR_TASKS && s.Runnable(t)
    ensures var s' := CopyProcess(s, true).0;
      && Sane(s') && s'.Runnable(t) && s'.current == s.current
      && Lacks(s', t) == Lacks(s, t) && Wait(s', t) <= Wait(s, t) + 1 + Lacks(s, t)
  {
    hide CopyProcess, Lacks, Bounded, HandedOver;
    ForkAdds(s);
    var s' := CopyProcess(s, true).0;
    var n := {s.nrTasks};
    SameLacks(s, s', t);
    assert |Fresh(s) + n| <= |Fresh(s)| + 1 && |Runnables(s) + n| <= |Runnables(s)| + 1;
    MulMono(Lacks(s, t), |Runnables(s')|, |Runnables(s)| + 1);
  }

  lemma TickStays(s: Table, t: nat)
    requires Sane(s) && !Calls(s, TickEvent) && s.Runnable(t)
    ensures var s' := Tick(s);
      && Sane(s') && s'.Runnable(t) && s'.current == s.current
      && Lacks(s', t) == Lacks(s, t) && Wait(s', t) == Wait(s, t)
  {
    hide Tick, Lacks, Bounded, HandedOver;
    TickOnly(s);
    SameLacks(s, Tick(s), t);
  }

  lemma SpentShortens(s: Table, e: Event, t: nat)
    requires Sane(s) && CanHappen(s, e) && (e == TickEvent || e == YieldEvent) && Calls(s, e) && s.Runnable(t)
    ensures var s' := Step(s, e);
      && Sane(s') && s'.Runnable(t)
      && (s'.current == t || (Lacks(s', t) <= Lacks(s, t) && Wait(s', t) < Wait(s, t)))
  {
    hide Reschedule, Lacks, Spent, Bounded, HandedOver, Step, Calls;
    StepCalls(s, e);
    SpentReady(s);
    SameLacks(s, Spent(s), t);
    CallShortens(Spent(s), t);
  }

  // ----- Where sane states come from

  /** The kernel starts in one. */
  lemma BootSane()
    ensures Sane(BootTable()) && Runnables(BootTable()) == {0} && NonNegative(BootTable())
  {
  }

  /** Every fork leads to another, and makes no counter negative. */
  lemma ForkKeepsSane(s: Table)
    requires Sane(s) && s.nrTasks < NR_TASKS
    ensures Sane(CopyProcess(s, true).0) && (NonNegative(s) ==> NonNegative(CopyProcess(s, true).0))
  {
    ForkAdds(s);
  }

  /** An exit does iff some task is there to go on: one whose counter is not negative, or that of
      slot 0; and it makes no counter negative. */
  lemma ExitKeepsSane(s: Table)
    requires Sane(s)
    ensures Sane(Exit(s)) <==> Relieved(s)
    ensures NonNegative(s) && Relieved(s) ==> NonNegative(Exit(s))
  {
    hide Reschedule, Bounded, HandedOver, SomeRunning, IsBest;
    var z := Left(s);
    LeftParts(s);
    if SomeRunning(z.slots, 0) {
      CallEffect(z);
      SomeoneLeft(s);
    } else {
      DefaultPick(z);
      if Relieved(s) {
        RelievedByFirst(s);
        assert z.slots[0] == s.slots[0];
      }
    }
    if NonNegative(s) && Relieved(s) {
      StaysNonNegative(s);
    }
  }

  lemma SomeoneLeft(s: Table)
    requires Sane(s) && SomeRunning(Left(s).slots, 0)
    ensures Relieved(s)
  {
    hide Bounded, HandedOver;
    LeftParts(s);
    var z := Left(s);
    var i :| 0 <= i < |z.slots| && z.slots[i].Used? && z.slots[i].t.state == TaskRunning && z.slots[i].t.counter >= 0;
    assert z.Runnable(i);
  }

  lemma StaysNonNegative(s: Table)
    requires Sane(s) && NonNegative(s) && Relieved(s)
    ensures NonNegative(Exit(s))
  {
    hide Reschedule, HandedOver;
    var z := Left(s);
    LeftParts(s);
    assert NonNegative(z);
    var i: nat :| i < |s.slots| && i != s.current && s.Runnable(i);
    assert z.slots[i].t.counter >= 0;
    CallResult(z);
    var s' := Reschedule(z);
    forall i | 0 <= i < |s'.slots| && s'.slots[i].Used? ensures s'.slots[i].t.counter >= 0 {
      assert z.slots[i].Used?;
    }
  }

  // ----- Runs

  predicate CanRun(s: Table, es: seq<Event>)
    decreases |es|
  {
    es == [] || (CanHappen(s, es[0]) && CanRun(Step(s, es[0]), es[1..]))
  }

  function Run(s: Table, es: seq<Event>): Table
    requires CanRun(s, es)
    decreases |es|
  {
    if es == [] then s else Run(Step(s, es[0]), es[1..])
  }

  /** How many of the events call _schedule. */
  function CallCount(s: Table, es: seq<Event>): nat
    requires CanRun(s, es)
    decreases |es|
  {
    if es == [] then 0 else (if Calls(s, es[0]) then 1 else 0) + CallCount(Step(s, es[0]), es[1..])
  }

  function Forks(es: seq<Event>): nat {
    if es == [] then 0 else (if es[0] == ForkEvent then 1 else 0) + Forks(es[1..])
  }

  /** Some event of the run dispatches t: it calls _schedule and leaves t current. */
  predicate Dispatched(s: Table, es: seq<Event>, t: nat)
    requires CanRun(s, es)
    decreases |es|
  {
    es != []
    && ((Calls(s, es[0]) && Step(s, es[0]).current == t) || Dispatched(Step(s, es[0]), es[1..], t))
  }

  /** The first event that calls _schedule is an exit, so it is the current task that exits. */
  predicate ExitsFirst(s: Table, es: seq<Event>)
    requires CanRun(s, es)
    decreases |es|
  {
    es != [] && if Calls(s, es[0]) then es[0] == ExitEvent else ExitsFirst(Step(s, es[0]), es[1..])
  }

  lemma {:induction false} WaitRunsOut(s: Table, es: seq<Event>, t: nat)
    requires Sane(s) && CanRun(s, es) && s.Runnable(t) && (t == s.current ==> !ExitsFirst(s, es))
    ensures Dispatched(s, es, t) || CallCount(s, es) + 1 <= Wait(s, t) + (1 + Lacks(s, t)) * Forks(es)
    decreases |es|
  {
    hide Wait, Lacks, Calls, Step, Sane, CanHappen;
    if es == [] {
      WaitBound(s, t);
    } else {
      SaneValid(s);
      ExitCalls(s);
      EventProgress(s, es[0], t);
      SaneValid(Step(s, es[0]));
      if !Dispatched(s, es, t) {
        WaitRunsOut(Step(s, es[0]), es[1..], t);
        ForkShare(es, Lacks(Step(s, es[0]), t), Lacks(s, t));
      }
    }
  }

  lemma ForkShare(es: seq<Event>, less: nat, lacks: nat)
    requires es != [] && less <= lacks
    ensures (1 + less) * Forks(es[1..]) + (if es[0] == ForkEvent then 1 + lacks else 0) <= (1 + lacks) * Forks(es)
  {
    var n, m := Forks(es[1..]), Forks(es);
    assert m == n + if es[0] == ForkEvent then 1 else 0;
    hide Forks;
    Products(1 + less, 1 + lacks, n);
  }

  lemma Products(a: nat, b: nat, n: nat)
    requires a <= b
    ensures a * n <= b * n && b * n + b == b * (n + 1)
  {
    MulMono(n, a, b);
  }

  lemma ExitCalls(s: Table)
    requires s.Valid()
    ensures Calls(s, ExitEvent)
  {
  }

  lemma SaneValid(s: Table)
    requires Sane(s)
    ensures s.Valid() && s.Runnable(s.current)
  {
  }

  /** With n runnable tasks, f of them waiting with time left, and r recharges that task t lacks:
      in every run of ticks, yields, forks and exits that calls _schedule f + r * n times, and
      r + 1 times more for each fork, t is dispatched, unless it exits before. What other tasks
      owe makes no difference. */
  lemma NoStarvation(s: Table, es: seq<Event>, t: nat)
    requires Sane(s) && CanRun(s, es) && s.Runnable(t) && (t == s.current ==> !ExitsFirst(s, es))
    requires CallCount(s, es) >= |Fresh(s)| + Lacks(s, t) * |Runnables(s)| + (1 + Lacks(s, t)) * Forks(es)
    ensures Dispatched(s, es, t)
  {
    WaitRunsOut(s, es, t);
  }

  /** For the current task, and for every task whose own counter is at least 2 - 2 * priority,
      2n - 1 calls are enough, and 2 more for each fork. */
  lemma WithinTwoRounds(s: Table, es: seq<Event>, t: nat)
    requires Sane(s) && CanRun(s, es) && s.Runnable(t) && (t == s.current ==> !ExitsFirst(s, es))
    requires t == s.current || s.slots[t].t.counter >= 2 - 2 * s.slots[t].t.priority
    requires CallCount(s, es) >= 2 * |Runnables(s)| - 1 + 2 * Forks(es)
    ensures Dispatched(s, es, t)
  {
    hide Lacks;
    LacksOne(s, t);
    WaitBound(s, t);
    MulMono(|Runnables(s)|, Lacks(s, t) + 1, 2);
    MulMono(Forks(es), 1 + Lacks(s, t), 2);
    NoStarvation(s, es, t);
  }
}
