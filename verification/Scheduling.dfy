/** The epoch scheduler of sched.c on the values of the task table. */
module Scheduling {
  import opened Common

  datatype State = TaskRunning | TaskZombie

  /** The fields of task_struct that scheduling uses. */
  datatype Task = Task(state: State, counter: int, priority: int, preempt: int)

  datatype Slot = Free | Used(t: Task)

  /** task[], the index of current in it, and nr_tasks. */
  datatype Table = Table(slots: seq<Slot>, current: nat, nrTasks: nat) {
    /** The first nr_tasks slots are in use, current among them. */
    predicate Valid() {
      && |slots| == NR_TASKS && current < nrTasks <= NR_TASKS
      && forall i :: 0 <= i < NR_TASKS ==> (slots[i].Used? <==> i < nrTasks)
    }

    predicate Runnable(i: nat) {
      i < |slots| && slots[i].Used? && slots[i].t.state == TaskRunning
    }

    function Cur(): Task
      requires Valid()
    {
      slots[current].t
    }

    function WithCur(t: Task): Table
      requires Valid()
    {
      Table(slots[current := Used(t)], current, nrTasks)
    }
  }

  /** Priorities are at least 1, and small enough for counters to fit a 32-bit int. */
  predicate GoodPriorities(s: Table) {
    forall i :: 0 <= i < |s.slots| && s.slots[i].Used? ==> 1 <= s.slots[i].t.priority < 0x4000_0000
  }

  /** What every tick, recharge and fork keeps. */
  predicate Bounded(s: Table) {
    GoodPriorities(s) &&
    forall i :: 0 <= i < |s.slots| && s.slots[i].Used? ==> s.slots[i].t.counter <= 2 * s.slots[i].t.priority - 1
  }

  predicate NonNegative(s: Table) {
    forall i :: 0 <= i < |s.slots| && s.slots[i].Used? ==> s.slots[i].t.counter >= 0
  }

  /** The current task may be preempted; every other task will undo exactly one disable. */
  predicate HandedOver(s: Table) {
    forall i :: 0 <= i < |s.slots| && s.slots[i].Used? ==> s.slots[i].t.preempt == if i == s.current then 0 else 1
  }

  /** init_task in slot 0. */
  function BootTable(): (s: Table)
    ensures s.Valid() && Bounded(s) && NonNegative(s)
  {
    Table([Used(Task(TaskRunning, 0, 15, 0))] + seq(NR_TASKS - 1, _ => Free), 0, 1)
  }

  // ----- _schedule

  /** A long stored into an int. */
  function ToInt(n: int): int {
    (n + 0x8000_0000) % 0x1_0000_0000 - 0x8000_0000
  }

  /** One turn of the scan: the new c and next. */
  function ScanSlot(slot: Slot, i: nat, c: int, next: nat): (int, nat) {
    if slot.Used? && slot.t.state == TaskRunning && slot.t.counter > c then (ToInt(slot.t.counter), i) else (c, next)
  }

  /** The scan from slot i on. */
  function Scan(slots: seq<Slot>, i: nat, c: int, next: nat): (int, nat)
    requires i <= |slots|
    decreases |slots| - i
  {
    if i == |slots| then (c, next)
    else
      var (c', next') := ScanSlot(slots[i], i, c, next);
      Scan(slots, i + 1, c', next')
  }

  /** counter = (counter >> 1) + priority, with an arithmetic shift. */
  function RechargeSlot(slot: Slot): Slot {
    if slot.Used? then Used(slot.t.(counter := slot.t.counter / 2 + slot.t.priority)) else slot
  }

  function Recharge(slots: seq<Slot>): (r: seq<Slot>)
    ensures |r| == |slots| && forall i :: 0 <= i < |slots| ==> r[i] == RechargeSlot(slots[i])
  {
    seq(|slots|, i requires 0 <= i < |slots| => RechargeSlot(slots[i]))
  }

  /** Scan, and when the best counter is 0 recharge and scan again. */
  function Pick(slots: seq<Slot>): (seq<Slot>, nat) {
    var (c, next) := Scan(slots, 0, -1, 0);
    if c != 0 then (slots, next) else (Recharge(slots), Scan(Recharge(slots), 0, -1, 0).1)
  }

  /** i is the lowest-numbered runnable slot of maximal counter. */
  predicate IsBest(slots: seq<Slot>, i: nat) {
    && i < |slots| && slots[i].Used? && slots[i].t.state == TaskRunning
    && (forall j :: 0 <= j < |slots| && slots[j].Used? && slots[j].t.state == TaskRunning ==>
          slots[j].t.counter <= slots[i].t.counter && (slots[j].t.counter == slots[i].t.counter ==> i <= j))
  }

  predicate SomeRunning(slots: seq<Slot>, atLeast: int) {
    exists i :: 0 <= i < |slots| && slots[i].Used? && slots[i].t.state == TaskRunning && slots[i].t.counter >= atLeast
  }

  predicate SmallCounters(slots: seq<Slot>) {
    forall i :: 0 <= i < |slots| && slots[i].Used? ==> slots[i].t.counter < 0x8000_0000
  }

  /** c and next after the scan of the first i slots. */
  ghost predicate ScannedTo(slots: seq<Slot>, i: nat, c: int, next: nat) {
    && i <= |slots| && -1 <= c
    && (c == -1 ==> next == 0)
    && (c >= 0 ==> next < i && slots[next].Used? && slots[next].t.state == TaskRunning && slots[next].t.counter == c)
    && (forall j :: 0 <= j < i && slots[j].Used? && slots[j].t.state == TaskRunning ==>
          slots[j].t.counter <= c && (slots[j].t.counter == c ==> next <= j))
  }

  lemma {:induction false} ScanFinds(slots: seq<Slot>, i: nat, c: int, next: nat)
    requires SmallCounters(slots) && ScannedTo(slots, i, c, next)
    ensures var (c', next') := Scan(slots, i, c, next); ScannedTo(slots, |slots|, c', next')
    decreases |slots| - i
  {
    if i < |slots| {
      var (c', next') := ScanSlot(slots[i], i, c, next);
      ScanFinds(slots, i + 1, c', next');
    }
  }

  /** A scan finds the lowest-numbered runnable slot of maximal counter, if some runnable
      counter is not negative; otherwise it comes back with -1 and slot 0. */
  lemma ScanResult(slots: seq<Slot>)
    requires SmallCounters(slots)
    ensures var (c, next) := Scan(slots, 0, -1, 0);
      if SomeRunning(slots, 0) then IsBest(slots, next) && c == slots[next].t.counter >= 0
      else c == -1 && next == 0
  {
    ScanFinds(slots, 0, -1, 0);
    var (c, next) := Scan(slots, 0, -1, 0);
    if c >= 0 {
      assert slots[next].Used? && slots[next].t.counter >= 0;
    }
  }

  lemma BoundedIsSmall(s: Table)
    requires Bounded(s)
    ensures SmallCounters(s.slots)
  {
  }

  /** Recharging keeps the bound, and lifts every counter that is not negative above 0. */
  lemma RechargeBounded(s: Table)
    requires Bounded(s)
    ensures Bounded(Table(Recharge(s.slots), s.current, s.nrTasks))
    ensures SmallCounters(Recharge(s.slots))
    ensures forall i :: 0 <= i < |s.slots| && s.slots[i].Used? && s.slots[i].t.counter >= 0 ==>
      Recharge(s.slots)[i].t.counter >= s.slots[i].t.priority >= 1
  {
    BoundedIsSmall(Table(Recharge(s.slots), s.current, s.nrTasks));
  }

  /** The pick of _schedule, in terms of the counters alone: with a positive runnable counter
      nothing is recharged; when the best is 0 everything is recharged once and the best is then
      positive, so two scans are enough; when all runnable counters are negative it is slot 0. */
  lemma PickResult(s: Table)
    requires Bounded(s)
    ensures var (slots, next) := Pick(s.slots);
      if SomeRunning(s.slots, 1) then slots == s.slots && IsBest(slots, next) && slots[next].t.counter > 0
      else if SomeRunning(s.slots, 0) then
        slots == Recharge(s.slots) && IsBest(slots, next) && slots[next].t.counter > 0
        && Scan(slots, 0, -1, 0).0 != 0
      else slots == s.slots && next == 0
  {
    BoundedIsSmall(s);
    ScanResult(s.slots);
    RechargeBounded(s);
    var r := Recharge(s.slots);
    ScanResult(r);
    if SomeRunning(s.slots, 0) {
      var i :| 0 <= i < |s.slots| && s.slots[i].Used? && s.slots[i].t.state == TaskRunning && s.slots[i].t.counter >= 0;
      assert r[i].Used? && r[i].t.state == TaskRunning && r[i].t.counter >= 1;
      assert SomeRunning(r, 0);
    }
  }

  /** After a recharge the scan does not come back with 0. */
  lemma TwoScans(s: Table)
    requires Bounded(s)
    ensures Scan(s.slots, 0, -1, 0).0 == 0 ==> Scan(Recharge(s.slots), 0, -1, 0).0 != 0
  {
    BoundedIsSmall(s);
    ScanResult(s.slots);
    if Scan(s.slots, 0, -1, 0).0 == 0 {
      PickResult(s);
    }
  }

  /** No zombie is picked while task 0 is running. */
  lemma PickRuns(s: Table)
    requires Bounded(s) && |s.slots| > 0 && s.Runnable(0)
    ensures var (slots, next) := Pick(s.slots);
      next < |slots| && slots[next].Used? && slots[next].t.state == TaskRunning
  {
    PickResult(s);
  }

  // ----- The operations, without interrupts in between

  function Disable(s: Table): Table
    requires s.Valid()
  {
    s.WithCur(s.Cur().(preempt := s.Cur().preempt + 1))
  }

  function Enable(s: Table): Table
    requires s.Valid()
  {
    s.WithCur(s.Cur().(preempt := s.Cur().preempt - 1))
  }

  /** switch_to, after which the task switched to carries on with preempt_enable: at the end of
      its own _schedule, or in schedule_tail. */
  function Reschedule(s: Table): Table
    requires s.Valid()
  {
    var s1 := Disable(s);
    var (slots, next) := Pick(s1.slots);
    var s2 := Table(slots, next, s1.nrTasks);
    if s2.Valid() then Enable(s2) else s2
  }

  function Yield(s: Table): Table
    requires s.Valid()
  {
    Reschedule(s.WithCur(s.Cur().(counter := 0)))
  }

  function Tick(s: Table): Table
    requires s.Valid()
  {
    var s1 := s.WithCur(s.Cur().(counter := s.Cur().counter - 1));
    if s1.Cur().counter > 0 || s1.Cur().preempt > 0 then s1
    else Reschedule(s1.WithCur(s1.Cur().(counter := 0)))
  }

  function Exit(s: Table): Table
    requires s.Valid()
  {
    Yield(s.WithCur(s.Cur().(state := TaskZombie)))
  }

  /** copy_process: page says whether allocate_kernel_page found a frame. On failure it returns
      without preempt_enable. */
  function CopyProcess(s: Table, page: bool): (Table, int)
    requires s.Valid() && s.nrTasks < NR_TASKS
  {
    var s1 := Disable(s);
    if !page then (s1, -1)
    else
      var child := Task(TaskRunning, s1.Cur().priority, s1.Cur().priority, 1);
      (Enable(Table(s1.slots[s1.nrTasks := Used(child)], s1.current, s1.nrTasks + 1)), s.nrTasks as int)
  }

  /** A new task is in the next slot: running, with the parent's priority and a whole time slice,
      and one disable that it will undo itself. Nothing else has changed, the parent included. */
  ghost predicate Forked(s: Table, s': Table)
    requires s.Valid() && s.nrTasks < NR_TASKS
  {
    && |s'.slots| == |s.slots| && s'.current == s.current && s'.nrTasks == s.nrTasks + 1
    && s'.slots[s.nrTasks].Used?
    && s'.slots[s.nrTasks].t.state == TaskRunning
    && s'.slots[s.nrTasks].t.counter == s'.slots[s.nrTasks].t.priority == s.slots[s.current].t.priority
    && s'.slots[s.nrTasks].t.preempt == 1
    && forall i :: 0 <= i < |s.slots| && i != s.nrTasks ==> s'.slots[i] == s.slots[i]
  }

  /** copy_process with a page returns the next task number and adds that task; without a page it
      returns -1, and leaves preemption disabled once more and all else as it was. */
  lemma ForkResult(s: Table)
    requires s.Valid() && s.nrTasks < NR_TASKS
    ensures CopyProcess(s, true).0.Valid() && Forked(s, CopyProcess(s, true).0)
    ensures CopyProcess(s, true).1 == s.nrTasks
    ensures var (s', pid) := CopyProcess(s, false);
      && pid == -1 && |s'.slots| == |s.slots| && s'.current == s.current && s'.nrTasks == s.nrTasks
      && s'.slots[s.current] == Used(s.slots[s.current].t.(preempt := s.slots[s.current].t.preempt + 1))
      && forall i :: 0 <= i < |s.slots| && i != s.current ==> s'.slots[i] == s.slots[i]
  {
    var s' := CopyProcess(s, true).0;
    assert s'.slots[s.current].t == s.slots[s.current].t;
  }

  /** exit_process marks its own task and no other, and leaves the choice to _schedule. */
  lemma ExitResult(s: Table)
    requires s.Valid()
    ensures var z := s.WithCur(s.Cur().(state := TaskZombie, counter := 0));
      && Exit(s) == Reschedule(z) && z.Valid() && z.slots[s.current].t.state == TaskZombie
      && z.slots[s.current].t.preempt == s.slots[s.current].t.preempt
      && forall i :: 0 <= i < |s.slots| && i != s.current ==> z.slots[i] == s.slots[i]
  {
    hide Reschedule;
    var y := s.WithCur(s.Cur().(state := TaskZombie));
    assert y.WithCur(y.Cur().(counter := 0)).slots == s.WithCur(s.Cur().(state := TaskZombie, counter := 0)).slots;
  }

  lemma PickNext(s: Table)
    requires s.Valid() && Bounded(s)
    ensures var (slots, next) := Pick(s.slots); Table(slots, next, s.nrTasks).Valid()
  {
    PickResult(s);
  }
}
