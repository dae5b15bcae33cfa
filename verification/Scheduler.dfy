/** The scheduler of sched.c and the part of copy_process that inserts a task, on task objects
    updated in place; each method is the function of Scheduling with the same meaning. */
module Scheduler {
  import opened Common
  import opened Scheduling

  /** A cleared counter is within its bound, whatever it was. */
  lemma CounterCleared(was: Table, n: int)
    requires was.Valid() && Bounded(was)
    ensures var s1 := was.WithCur(was.Cur().(counter := n));
      && s1.Valid() && s1.WithCur(s1.Cur().(counter := 0)) == was.WithCur(was.Cur().(counter := 0))
      && Bounded(was.WithCur(was.Cur().(counter := 0)))
  {
  }

  lemma ZombieMarked(was: Table)
    requires was.Valid()
    ensures var marked := was.WithCur(was.Cur().(state := TaskZombie));
      && Disable(was).Valid() && Disable(was).WithCur(Disable(was).Cur().(state := TaskZombie)).Valid()
      && Enable(Disable(was).WithCur(Disable(was).Cur().(state := TaskZombie))) == marked
      && (Bounded(was) ==> Bounded(marked))
  {
  }

  class TaskStruct {
    var state: State
    var counter: int
    var priority: int
    var preemptCount: int

    constructor (priority: int, counter: int, preemptCount: int)
      ensures View() == Task(TaskRunning, counter, priority, preemptCount)
    {
      this.state, this.priority, this.counter, this.preemptCount := TaskRunning, priority, counter, preemptCount;
    }

    function View(): Task
      reads this
    {
      Task(state, counter, priority, preemptCount)
    }
  }

  class Kernel {
    const task: array<TaskStruct?>
    var current: TaskStruct
    var nrTasks: nat
    ghost var cur: nat  // the index of current in task

    /** init_task alone: priority 15, counter 0. */
    constructor ()
      ensures Valid() && fresh(task) && fresh(Tasks())
      ensures View() == BootTable()
    {
      var init := new TaskStruct(15, 0, 0);
      current, nrTasks, cur := init, 1, 0;
      task := new TaskStruct?[NR_TASKS](i => if i == 0 then init else null);
    }

    ghost function Tasks(): set<TaskStruct>
      reads task
    {
      set i | 0 <= i < task.Length && task[i] != null :: task[i]
    }

    /** Slots below nr_tasks hold distinct tasks, the rest are null, and current is one of them. */
    ghost predicate Valid()
      reads this, task
    {
      && task.Length == NR_TASKS && cur < nrTasks <= NR_TASKS && task[cur] == current
      && (forall i :: 0 <= i < NR_TASKS ==> (task[i] != null <==> i < nrTasks))
      && (forall i, j :: 0 <= i < j < nrTasks ==> task[i] != task[j])
    }

    function Slot(i: nat): Slot
      requires i < task.Length
      reads this, task, task[i]
    {
      if task[i] == null then Free else Used(task[i].View())
    }

    ghost function Slots(): (slots: seq<Slot>)
      reads this, task, task[..]
      ensures |slots| == task.Length && forall i :: 0 <= i < task.Length ==> slots[i] == Slot(i)
    {
      seq(task.Length, i requires 0 <= i < task.Length reads this, task, task[..] => Slot(i))
    }

    ghost function View(): Table
      reads this, task, task[..]
    {
      Table(Slots(), cur, nrTasks)
    }

    method PreemptDisable()
      requires Valid()
      modifies current`preemptCount
      ensures Valid() && View().Valid() && old(View().Valid()) && View() == Disable(old(View()))
    {
      current.preemptCount := current.preemptCount + 1;
      assert View().slots == old(View()).slots[cur := Used(current.View())];
    }

    method PreemptEnable()
      requires Valid()
      modifies current`preemptCount
      ensures Valid() && View().Valid() && old(View().Valid()) && View() == Enable(old(View()))
    {
      current.preemptCount := current.preemptCount - 1;
      assert View().slots == old(View()).slots[cur := Used(current.View())];
    }

    /** The first inner loop of _schedule. */
    method ScanTasks() returns (next: nat, c: int)
      requires Valid()
      ensures (c, next) == Scan(View().slots, 0, -1, 0)
    {
      c, next := -1, 0;
      for i := 0 to NR_TASKS
        invariant Scan(View().slots, i, c, next) == Scan(View().slots, 0, -1, 0)
      {
        var p := task[i];
        assert View().slots[i] == Slot(i);
        if p != null && p.state == TaskRunning && p.counter > c {
          c, next := ToInt(p.counter), i;
        }
      }
    }

    /** The second inner loop of _schedule. */
    method RechargeTasks()
      requires Valid()
      modifies Tasks()
      ensures Valid() && View() == Table(Recharge(old(View()).slots), old(View()).current, old(View()).nrTasks)
    {
      ghost var was := View().slots;
      for i := 0 to NR_TASKS
        invariant Valid()
        invariant forall j :: 0 <= j < i ==> Slot(j) == RechargeSlot(was[j])
        invariant forall j :: i <= j < NR_TASKS ==> Slot(j) == was[j]
      {
        var p := task[i];
        if p != null {
          assert Slot(i) == was[i] && i < nrTasks;
          p.counter := p.counter / 2 + p.priority;
        }
      }
      assert View().slots == Recharge(was);
    }

    /** The loop of _schedule: at most two scans, and a recharge between them. */
    method PickTask() returns (next: nat)
      requires Valid() && Bounded(View())
      modifies Tasks()
      ensures Valid() && (View().slots, next) == Pick(old(View()).slots) && next < nrTasks
      ensures View().current == old(View()).current && View().nrTasks == old(View()).nrTasks
    {
      hide Bounded, Scan;
      ghost var was := View();
      ghost var recharged := false;
      PickNext(was);
      TwoScans(was);
      var c;
      next, c := ScanTasks();
      while c == 0
        invariant Valid() && (c, next) == Scan(View().slots, 0, -1, 0)
        invariant View() == (if recharged then Table(Recharge(was.slots), was.current, was.nrTasks) else was)
        invariant recharged ==> Scan(was.slots, 0, -1, 0).0 == 0
        invariant recharged ==> c != 0
        decreases !recharged
      {
        RechargeTasks();
        recharged := true;
        next, c := ScanTasks();
      }
    }

    /** switch_to: from here on the next task runs. */
    method SwitchTo(next: TaskStruct, ghost index: nat)
      requires Valid() && index < nrTasks && task[index] == next
      modifies `current, `cur
      ensures Valid() && View() == Table(old(View()).slots, index, old(View()).nrTasks)
    {
      if current == next {
        assert index == cur;
        return;
      }
      current := next;
      cur := index;
      assert View().slots == old(View()).slots;
    }

    method RunSchedule()
      requires Valid() && Bounded(View())
      modifies `current, `cur, Tasks()
      ensures Valid() && old(View().Valid()) && View() == Reschedule(old(View()))
    {
      PreemptDisable();
      ghost var s1 := View();
      PickNext(s1);
      var next := PickTask();
      SwitchTo(task[next], next);
      assert View() == Table(Pick(s1.slots).0, next, s1.nrTasks);
      PreemptEnable();
    }

    method Schedule()
      requires Valid() && Bounded(View())
      modifies `current, `cur, Tasks()
      ensures Valid() && old(View().Valid()) && View() == Yield(old(View()))
    {
      hide Bounded, Reschedule;
      CounterCleared(View(), 0);
      SetCounter(0);
      RunSchedule();
    }

    method TimerTick()
      requires Valid() && Bounded(View())
      modifies `current, `cur, Tasks()
      ensures Valid() && old(View().Valid()) && View() == Tick(old(View()))
    {
      hide Bounded, Reschedule;
      ghost var was := View();
      SetCounter(current.counter - 1);
      ghost var s1 := View();
      if current.counter > 0 || current.preemptCount > 0 {
        return;
      }
      SetCounter(0);
      CounterCleared(was, s1.Cur().counter);
      RunSchedule();
    }

    /** current->counter = n. */
    method SetCounter(n: int)
      requires Valid()
      modifies current`counter
      ensures Valid() && old(View().Valid()) && View().Valid()
      ensures View() == old(View()).WithCur(old(View()).Cur().(counter := n))
    {
      ghost var was := View();
      current.counter := n;
      assert View().slots == was.slots[cur := Used(current.View())];
    }

    method ExitProcess()
      requires Valid() && Bounded(View())
      modifies `current, `cur, Tasks()
      ensures Valid() && old(View().Valid()) && View() == Exit(old(View()))
    {
      hide Bounded;
      ghost var was := View();
      PreemptDisable();
      MarkZombie();
      PreemptEnable();
      ZombieMarked(was);
      Schedule();
    }

    /** The loop of exit_process. */
    method MarkZombie()
      requires Valid()
      modifies current`state
      ensures Valid() && old(View().Valid())
      ensures View() == old(View()).WithCur(old(View()).Cur().(state := TaskZombie))
    {
      ghost var was := View();
      var i := 0;
      while i < NR_TASKS
        invariant 0 <= i <= cur && Valid() && View() == was && cur < NR_TASKS
        decreases NR_TASKS - i
      {
        if task[i] == current {
          task[i].state := TaskZombie;
          break;
        }
        i := i + 1;
      }
      assert i == cur;
      assert View().slots == was.slots[cur := Used(current.View())];
    }

    /** copy_process: gotPage says whether there was a page for the task_struct. */
    method Fork(gotPage: bool) returns (pid: int)
      requires Valid() && nrTasks < NR_TASKS
      modifies this, task, current
      ensures Valid() && old(View().Valid()) && (View(), pid) == CopyProcess(old(View()), gotPage)
      ensures gotPage ==> fresh(task[pid]) && Tasks() == old(Tasks()) + {task[pid]} && Forked(old(View()), View())
    {
      ghost var s := View();
      PreemptDisable();
      if !gotPage {
        return -1;
      }
      pid := EndFork(s);
    }

    /** The end of copy_process that began in state s: the new task goes into the table, and
        preemption is enabled again. */
    method EndFork(ghost s: Table) returns (pid: int)
      requires Valid() && nrTasks < NR_TASKS && s.Valid() && View() == Disable(s)
      modifies `nrTasks, task, current`preemptCount
      ensures Valid() && (View(), pid) == CopyProcess(s, true)
      ensures pid == old(nrTasks) && nrTasks == pid + 1 && cur == old(cur) && current == old(current)
      ensures fresh(task[pid]) && Tasks() == old(Tasks()) + {task[pid]} && Forked(s, View())
    {
      ForkResult(s);
      var p := new TaskStruct(current.priority, current.priority, 1);
      pid := InsertTask(p);
      assert View().slots == Disable(s).slots[pid := Used(p.View())];
      PreemptEnable();
    }

    /** pid = nr_tasks++; task[pid] = p. */
    method InsertTask(p: TaskStruct) returns (pid: int)
      requires Valid() && nrTasks < NR_TASKS && p !in Tasks()
      modifies `nrTasks, task
      ensures Valid() && pid == old(nrTasks) && nrTasks == pid + 1 && cur == old(cur) && current == old(current)
      ensures task[..] == old(task[..])[pid := p] && Tasks() == old(Tasks()) + {p}
    {
      pid := nrTasks;
      nrTasks := nrTasks + 1;
      task[pid] := p;
      forall t <- old(Tasks()) ensures t in Tasks() {
        var i :| 0 <= i < NR_TASKS && old(task[i]) == t;
        assert task[i] == t;
      }
      assert task[pid] == p;
    }
  }
}
