/** The exact number of calls of _schedule until a task is dispatched: a sum over the runnable
    tasks, of their counters and priorities alone. */
module Turns {
  import opened Scheduling
  import opened SchedulerFairness

  /** Ticks and yields only. */
  predicate Plain(es: seq<Event>) {
    forall k :: 0 <= k < |es| ==> es[k] == TickEvent || es[k] == YieldEvent
  }

  /** A counter after k recharges. */
  function Recharged(counter: int, priority: int, k: nat): int
    decreases k
  {
    if k == 0 then counter else Recharged(counter / 2 + priority, priority, k - 1)
  }

  /** Task i with counter a is dispatched before task j with counter b. */
  predicate Beats(a: int, i: nat, b: int, j: nat) {
    a > b || (a == b && i < j)
  }

  /** How often task u, with counter cu and priority pu, is dispatched before task t. Once in
      every epoch in which it has time and t has not; and in the epoch in which t has time, if it
      has some too and comes first. In an epoch after its first it starts from 0, so its counter
      is its priority. */
  function AheadOf(cu: int, pu: int, u: nat, ct: int, pt: int, t: nat): nat {
    var l, e := Lifts(ct, pt), Lifts(cu, pu);
    var v := if e < l then pu else Recharged(cu, pu, l);
    (if e < l then l - e else 0) + if e <= l && Beats(v, u, Recharged(ct, pt, l), t) then 1 else 0
  }

  function Ahead(s: Table, t: nat, u: nat): nat
    requires s.Runnable(t) && s.Runnable(u)
  {
    AheadOf(Due(s, u), s.slots[u].t.priority, u, Due(s, t), s.slots[t].t.priority, t)
  }

  function SumAhead(s: Table, t: nat, n: nat): nat
    requires s.Runnable(t) && n <= |s.slots|
  {
    if n == 0 then 0
    else SumAhead(s, t, n - 1) + if n - 1 != t && s.Runnable(n - 1) then Ahead(s, t, n - 1) else 0
  }

  /** The number of calls after which t is dispatched. */
  function Turns(s: Table, t: nat): nat
    requires s.Runnable(t)
  {
    1 + SumAhead(s, t, |s.slots|)
  }

  // ----- One task

  lemma AllRecharged(cu: int, pu: int, u: nat, ct: int, pt: int, t: nat)
    requires pu > 0 && pt > 0 && cu <= 0 && ct <= 0
    ensures AheadOf(cu / 2 + pu, pu, u, ct / 2 + pt, pt, t) == AheadOf(cu, pu, u, ct, pt, t)
  {
  }

  lemma OtherDispatched(cu: int, pu: int, u: nat, ct: int, pt: int, t: nat)
    requires pu > 0 && cu > 0 && (ct > 0 ==> Beats(cu, u, ct, t))
    ensures AheadOf(cu, pu, u, ct, pt, t) == 1 + AheadOf(0, pu, u, ct, pt, t)
  {
    assert Lifts(0, pu) == 1 && Lifts(cu, pu) == 0;
    assert Recharged(0, pu, 1) == Recharged(pu, pu, 0) == pu;
  }

  lemma SelfDispatched(cu: int, pu: int, u: nat, ct: int, pt: int, t: nat)
    requires pu > 0 && ct > 0 && (cu <= 0 || !Beats(cu, u, ct, t))
    ensures AheadOf(cu, pu, u, ct, pt, t) == 0
  {
  }

  lemma AheadBound(cu: int, pu: int, u: nat, ct: int, pt: int, t: nat)
    ensures AheadOf(cu, pu, u, ct, pt, t) <= Lifts(ct, pt) + 1
  {
  }

  // ----- One call

  /** A call dispatches t, and then nobody was ahead of it, or takes one turn of the task that it
      dispatches. */
  lemma CallAhead(z: Table, t: nat, u: nat)
    requires Ready(z) && z.Runnable(t) && z.Runnable(u) && u != t
    ensures var s' := Reschedule(z);
      && s'.Valid() && s'.Runnable(t) && s'.Runnable(u)
      && (s'.current == t ==> Ahead(z, t, u) == 0)
      && (s'.current != t ==> Ahead(z, t, u) == Ahead(s', t, u) + if u == s'.current then 1 else 0)
  {
    hide Reschedule, HandedOver, SomeRunning, AheadOf;
    CallEffect(z);
    var s' := Reschedule(z);
    Dues(z, t);
    Dues(z, u);
    var pu, pt := z.slots[u].t.priority, z.slots[t].t.priority;
    var cu, ct := s'.slots[u].t.counter, s'.slots[t].t.counter;
    assert Ahead(z, t, u) == AheadOf(cu, pu, u, ct, pt, t) by {
      if Fresh(z) == {} {
        AllRecharged(Due(z, u), pu, u, Due(z, t), pt, t);
      }
    }
    if s'.current == t {
      SelfDispatched(cu, pu, u, ct, pt, t);
    } else if s'.current == u {
      OtherDispatched(cu, pu, u, ct, pt, t);
    }
  }

  lemma Dues(z: Table, i: nat)
    requires Ready(z) && z.Runnable(i)
    ensures Due(z, i) == z.slots[i].t.counter && z.slots[i].t.priority > 0
    ensures Fresh(z) == {} ==> Due(z, i) <= 0
  {
    assert i !in Fresh(z) ==> i == z.current || z.slots[i].t.counter <= 0;
  }

  lemma {:induction false} CallSum(z: Table, t: nat, n: nat)
    requires Ready(z) && z.Runnable(t) && n <= |z.slots|
    ensures var s' := Reschedule(z);
      && s'.Runnable(t) && |s'.slots| == |z.slots|
      && (s'.current == t ==> SumAhead(z, t, n) == 0)
      && (s'.current != t ==> SumAhead(z, t, n) == SumAhead(s', t, n) + if s'.current < n then 1 else 0)
  {
    hide Reschedule, HandedOver, SomeRunning, Ahead, IsBest, Bounded;
    CallEffect(z);
    if n > 0 {
      CallSum(z, t, n - 1);
      if n - 1 != t && z.Runnable(n - 1) {
        CallAhead(z, t, n - 1);
      }
    }
  }

  lemma {:induction false} SameSum(s: Table, s': Table, t: nat, n: nat)
    requires s.Runnable(t) && s'.Runnable(t) && |s.slots| == |s'.slots| && n <= |s.slots|
    requires forall i: nat :: s.Runnable(i) <==> s'.Runnable(i)
    requires forall i :: 0 <= i < |s.slots| && s.Runnable(i) ==>
      s'.slots[i].Used? && s'.slots[i].t.priority == s.slots[i].t.priority && Due(s', i) == Due(s, i)
    ensures SumAhead(s', t, n) == SumAhead(s, t, n)
  {
    if n > 0 {
      SameSum(s, s', t, n - 1);
    }
  }

  /** A tick or yield that calls _schedule dispatches t iff it is t's turn, and otherwise takes one
      turn; a tick that does not call it takes none. */
  lemma EventTurns(s: Table, e: Event, t: nat)
    requires Sane(s) && (e == TickEvent || e == YieldEvent) && s.Runnable(t)
    ensures CanHappen(s, e)
    ensures var s' := Step(s, e);
      && Sane(s') && s'.Runnable(t)
      && (Calls(s, e) ==> (s'.current == t <==> Turns(s, t) == 1))
      && (Calls(s, e) && s'.current != t ==> Turns(s, t) == Turns(s', t) + 1)
      && (!Calls(s, e) ==> Turns(s, t) == Turns(s', t))
  {
    hide Reschedule, Tick, HandedOver, Bounded, Ahead, Spent, Relieved;
    if Calls(s, e) {
      StepCalls(s, e);
      SpentReady(s);
      SameSum(s, Spent(s), t, |s.slots|);
      CallEffect(Spent(s));
      CallSum(Spent(s), t, |s.slots|);
    } else {
      TickOnly(s);
      SameSum(s, Tick(s), t, |s.slots|);
    }
  }

  // ----- Runs

  /** In every run of ticks and yields, whatever their order, t is dispatched iff the run calls
      _schedule at least Turns times. */
  lemma {:induction false} DispatchedIff(s: Table, es: seq<Event>, t: nat)
    requires Sane(s) && Plain(es) && CanRun(s, es) && s.Runnable(t)
    ensures Dispatched(s, es, t) <==> CallCount(s, es) >= Turns(s, t)
    decreases |es|
  {
    hide Sane, Turns, Step, Calls, CanHappen;
    TurnsPositive(s, t);
    if es != [] {
      assert es[0] == TickEvent || es[0] == YieldEvent;
      EventTurns(s, es[0], t);
      assert Plain(es[1..]);
      DispatchedIff(Step(s, es[0]), es[1..], t);
    }
  }

  lemma TurnsPositive(s: Table, t: nat)
    requires s.Runnable(t)
    ensures Turns(s, t) >= 1
  {
  }

  /** So k calls are always enough iff k is at least Turns: the exact condition for any bound. */
  lemma BoundIff(s: Table, t: nat, k: nat)
    requires Sane(s) && s.Runnable(t)
    ensures (forall es :: Plain(es) && CanRun(s, es) && CallCount(s, es) >= k ==> Dispatched(s, es, t))
      <==> k >= Turns(s, t)
  {
    hide Sane, Turns;
    forall es | Plain(es) && CanRun(s, es) && CallCount(s, es) >= k && k >= Turns(s, t) ensures Dispatched(s, es, t) {
      DispatchedIff(s, es, t);
    }
    var es := Yields(s, t, k);
    DispatchedIff(s, es, t);
  }

  lemma {:induction false} Yields(s: Table, t: nat, k: nat) returns (es: seq<Event>)
    requires Sane(s) && s.Runnable(t)
    ensures Plain(es) && CanRun(s, es) && CallCount(s, es) == k
    decreases k
  {
    hide Sane, Turns, Step, CanHappen;
    es := [];
    if k > 0 {
      EventTurns(s, YieldEvent, t);
      var rest := Yields(Step(s, YieldEvent), t, k - 1);
      es := [YieldEvent] + rest;
      assert es[0] == YieldEvent && es[1..] == rest;
      YieldCalls(s);
    }
  }

  lemma YieldCalls(s: Table)
    requires Sane(s)
    ensures s.Valid() && Calls(s, YieldEvent)
  {
  }

  /** With n runnable tasks and r recharges lacking, Turns is at most (r + 1) * (n - 1) + 1; so it
      is at most 2n - 1 for a task that lacks at most one. */
  lemma TurnsBound(s: Table, t: nat)
    requires Sane(s) && s.Runnable(t)
    ensures Turns(s, t) <= (Lacks(s, t) + 1) * (|Runnables(s)| - 1) + 1
    ensures Lacks(s, t) <= 1 ==> Turns(s, t) <= 2 * |Runnables(s)| - 1
  {
    hide Lacks, SumAhead, Sane;
    SumBound(s, t, |s.slots|);
    OthersAll(s, t);
    var r, m := Lacks(s, t) + 1, |Runnables(s)| - 1;
    ProductIs(r, m);
    if r <= 2 {
      MulMono(m, r, 2);
    }
  }

  lemma OthersAll(s: Table, t: nat)
    requires s.Runnable(t)
    ensures |Others(s, t, |s.slots|)| == |Runnables(s)| - 1 >= 0
  {
    assert t in Runnables(s);
    assert Others(s, t, |s.slots|) == Runnables(s) - {t};
  }

  /** The runnable tasks but t among the first n. */
  ghost function Others(s: Table, t: nat, n: nat): (others: set<nat>)
    ensures forall i: nat :: i in others <==> i < n && i != t && s.Runnable(i)
    decreases n
  {
    if n == 0 then {} else Others(s, t, n - 1) + if n - 1 != t && s.Runnable(n - 1) then {n - 1} else {}
  }

  lemma {:induction false} SumBound(s: Table, t: nat, n: nat)
    requires s.Runnable(t) && n <= |s.slots|
    ensures SumAhead(s, t, n) <= Product(Lacks(s, t) + 1, |Others(s, t, n)|)
  {
    hide Ahead, Lacks, SumAhead, Others;
    SumStep(s, t, n);
    if n > 0 {
      SumBound(s, t, n - 1);
    }
  }

  lemma SumStep(s: Table, t: nat, n: nat)
    requires s.Runnable(t) && n <= |s.slots|
    ensures n == 0 ==> SumAhead(s, t, n) == 0 && Others(s, t, n) == {}
    ensures n > 0 ==>
      var one := n - 1 != t && s.Runnable(n - 1);
      && SumAhead(s, t, n) <= SumAhead(s, t, n - 1) + (if one then Lacks(s, t) + 1 else 0)
      && |Others(s, t, n)| == |Others(s, t, n - 1)| + if one then 1 else 0
  {
    hide Ahead, Lacks;
    if n > 0 && n - 1 != t && s.Runnable(n - 1) {
      AheadLimit(s, t, n - 1);
    }
  }

  lemma AheadLimit(s: Table, t: nat, u: nat)
    requires s.Runnable(t) && s.Runnable(u)
    ensures Ahead(s, t, u) <= Lacks(s, t) + 1
  {
    hide AheadOf;
    AheadBound(Due(s, u), s.slots[u].t.priority, u, Due(s, t), s.slots[t].t.priority, t);
  }

  /** a * n, as a sum. */
  function Product(a: nat, n: nat): nat {
    if n == 0 then 0 else Product(a, n - 1) + a
  }

  lemma {:induction false} ProductIs(a: nat, n: nat)
    ensures Product(a, n) == a * n
  {
    if n > 0 {
      ProductIs(a, n - 1);
    }
  }
}
