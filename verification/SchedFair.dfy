/**
 Fairness of kernel/sched.c on one CPU: a fixed set of equally weighted tasks in one priority band, under
 timer ticks and voluntary yields.
 */
module SchedFair {
  import opened Sched

  datatype Event = TimerTick | Yield

  function Apply(s: System, e: Event): (s': System)
    requires Shaped(s)
    ensures Shaped(s')
  {
    match e case TimerTick => Tick(s, 0) case Yield => Schedule(s, 0)
  }

  function RunEvents(s: System, es: seq<Event>): (s': System)
    requires Shaped(s)
    ensures Shaped(s')
    decreases |es|
  {
    if es == [] then s else RunEvents(Apply(s, es[0]), es[1..])
  }

  /** Only CPU 0 runs tasks; all tasks share band `b` and gain `d` of vruntime per tick. */
  ghost predicate Solo(s: System, b: nat, d: nat)
  {
    && Shaped(s) && Inv(s) && b < BANDS && d > 0
    && (forall p | p in s.tasks :: Band(s.tasks[p]) == b && Delta(s.tasks[p], TICK_NS) == d)
    && (forall c: nat | 0 < c < CPUS :: s.current[c].None?)
    && (forall c: nat | c < BANDS && c != b :: s.queues[c] == [])
  }

  /** All vruntimes lie in a window of four ticks' worth. */
  predicate Within(s: System, m: nat, d: nat)
  {
    forall p | p in s.tasks :: m <= s.tasks[p].vruntime <= m + 4 * d
  }

  /** The current task started its slice at the bottom of the window and has `k` ticks of it left. */
  predicate SliceOk(s: System, m: nat, d: nat, k: nat)
    requires Shaped(s)
  {
    s.current[0].Some? ==>
      && s.current[0].value in s.tasks && 1 <= k <= 4
      && s.tasks[s.current[0].value].slice == k * TICK_NS
      && s.tasks[s.current[0].value].vruntime == m + Used(k, d)
  }

  /** The vruntime gained in a slice of four ticks with `k` of them left. */
  function Used(k: nat, d: nat): nat
  {
    if k >= 4 then 0 else if k == 3 then d else if k == 2 then 2 * d else if k == 1 then 3 * d else 4 * d
  }

  ghost predicate Fair(s: System, b: nat, d: nat, m: nat, k: nat)
  {
    Solo(s, b, d) && Within(s, m, d) && SliceOk(s, m, d, k)
  }

  /** The parts of a task that scheduling does not touch. */
  predicate SameWork(t: Task, u: Task)
  {
    t.vruntime == u.vruntime && t.priority == u.priority && t.weight == u.weight
  }

  ghost predicate SameTasks(s: System, s': System)
  {
    s'.tasks.Keys == s.tasks.Keys && forall p | p in s.tasks :: SameWork(s.tasks[p], s'.tasks[p])
  }

  lemma VacateSame(s: System, cpu: nat)
    requires Inv(s) && cpu < CPUS
    ensures SameTasks(s, Vacated(s, cpu))
    ensures Vacated(s, cpu).current == s.current[cpu := None]
    ensures s.current[cpu].None? ==> Vacated(s, cpu).queues == s.queues
    ensures s.current[cpu].Some? ==>
              var p := s.current[cpu].value;
              p in s.tasks && var b := Band(s.tasks[p]); Vacated(s, cpu).queues == s.queues[b := s.queues[b] + [p]]
  {
    hide QueuesOk;
  }

  lemma VacateSolo(s: System, b: nat, d: nat)
    requires Solo(s, b, d)
    ensures Solo(Vacated(s, 0), b, d) && Vacated(s, 0).current[0].None?
  {
    hide Vacated, QueuesOk, CpusOk, Delta;
    var v := Vacated(s, 0);
    VacateSame(s, 0);
    VacateKeeps(s, 0);
    forall p | p in v.tasks ensures Band(v.tasks[p]) == b && Delta(v.tasks[p], TICK_NS) == d {
      assert SameWork(s.tasks[p], v.tasks[p]);
      SameDelta(s.tasks[p], v.tasks[p]);
    }
  }

  lemma SameDelta(t: Task, u: Task)
    requires SameWork(t, u)
    ensures Delta(t, TICK_NS) == Delta(u, TICK_NS) && Band(t) == Band(u)
  {
  }

  /** With no CPU running anything, every task is ready on the one queue in use. */
  lemma AllQueued(v: System, b: nat, d: nat)
    requires Solo(v, b, d) && v.current[0].None?
    ensures forall p | p in v.tasks :: v.tasks[p].state == Ready && p in v.queues[b]
  {
    hide Delta;
    forall p | p in v.tasks ensures v.tasks[p].state == Ready && p in v.queues[b] {
      assert !OnSomeCpu(v, p);
      assert Queued(v, p);
      var c: nat :| c < BANDS && p in v.queues[c];
      assert c == b;
    }
  }

  lemma SwitchSolo(s: System, b: nat, d: nat, p: nat)
    requires Solo(s, b, d) && s.current[0].None? && p in s.tasks && s.tasks[p].state == Ready
    ensures Solo(Switch(s, 0, p), b, d) && SameTasks(s, Switch(s, 0, p))
  {
    hide Inv, Delta, Without;
    SwitchKeeps(s, 0, p);
    NothingToRemove(p);
    var s' := Switch(s, 0, p);
    forall q | q in s'.tasks ensures Band(s'.tasks[q]) == b && Delta(s'.tasks[q], TICK_NS) == d {
      SameDelta(s.tasks[q], s'.tasks[q]);
    }
  }

  lemma NothingToRemove(p: nat)
    ensures Without([], p) == []
  {
  }

  /** Whoever calls it and when, `schedule` starts a slice at the bottom of a window that has not moved back. */
  lemma ScheduleFair(s: System, b: nat, d: nat, m: nat) returns (m': nat)
    requires Solo(s, b, d) && Within(s, m, d)
    ensures m <= m' && Fair(Schedule(s, 0), b, d, m', 4) && SameTasks(s, Schedule(s, 0))
    ensures s.tasks != map[] ==> Schedule(s, 0).current[0].Some?
  {
    hide Schedule, Vacated, Switch, Inv, PickNext;
    var v := Vacated(s, 0);
    assert Inv(s);
    VacateSolo(s, b, d);
    AllQueued(v, b, d);
    VacateSame(s, 0);
    ScheduleCases(s, 0);
    if PickNext(v).None? {
      m' := m;
      NoTasks(v, b, d);
    } else {
      var p := PickNext(v).value;
      LeastPicked(v, b, d);
      SwitchSolo(v, b, d, p);
      SwitchSlice(v, p);
      m' := v.tasks[p].vruntime;
      assert SameWork(s.tasks[p], v.tasks[p]);
      var s' := Schedule(s, 0);
      forall q | q in s'.tasks ensures m' <= s'.tasks[q].vruntime <= m' + 4 * d && SameWork(s.tasks[q], s'.tasks[q]) {
        assert SameWork(s.tasks[q], v.tasks[q]) && SameWork(v.tasks[q], s'.tasks[q]);
      }
      assert SameWork(v.tasks[p], s'.tasks[p]);
    }
  }

  lemma SwitchSlice(s: System, p: nat)
    requires Shaped(s) && p in s.tasks
    ensures var s' := Switch(s, 0, p); s'.current[0] == Some(p) && p in s'.tasks && s'.tasks[p].slice == 4 * TICK_NS
  {
  }

  lemma NoTasks(v: System, b: nat, d: nat)
    requires Solo(v, b, d) && PickNext(v).None? && forall p | p in v.tasks :: v.tasks[p].state == Ready
    ensures v.tasks == map[]
  {
    forall p | p in v.tasks ensures PickNext(v).Some? { ReadyIsPicked(v, p); }
    assert v.tasks.Keys == {};
  }

  /** With every task queued in one band, the task picked has the least vruntime of all. */
  lemma LeastPicked(v: System, b: nat, d: nat)
    requires Solo(v, b, d) && PickNext(v).Some?
    requires forall p | p in v.tasks :: v.tasks[p].state == Ready && p in v.queues[b]
    ensures PickNext(v).value in v.tasks
    ensures forall q | q in v.tasks :: v.tasks[PickNext(v).value].vruntime <= v.tasks[q].vruntime
  {
    hide Inv;
    var band, k := PickBelowMeaning(v, BANDS);
    assert band == b;
    forall q | q in v.tasks ensures v.tasks[PickNext(v).value].vruntime <= v.tasks[q].vruntime {
      var j: nat :| j < |v.queues[b]| && v.queues[b][j] == q;
    }
  }

  /** Charging the current task for one tick. */
  lemma ChargeFair(s: System, b: nat, d: nat, m: nat, k: nat) returns (s1: System)
    requires Fair(s, b, d, m, k) && s.current[0].Some?
    ensures s1 == s.(tasks := s.tasks[s.current[0].value := Charge(s.tasks[s.current[0].value])])
    ensures Solo(s1, b, d) && Within(s1, m, d)
    ensures s.tasks[s.current[0].value].slice > TICK_NS <==> k > 1
    ensures k > 1 ==> SliceOk(s1, m, d, k - 1)
  {
    hide Inv, Delta;
    var p := s.current[0].value;
    var t := s.tasks[p];
    s1 := s.(tasks := s.tasks[p := Charge(t)]);
    RetaskKeeps(s, p, Charge(t));
    assert Band(Charge(t)) == b && Delta(Charge(t), TICK_NS) == d by { SameWeight(t, Charge(t)); }
    assert k == 1 || k == 2 || k == 3 || k == 4;
  }

  lemma SameWeight(t: Task, u: Task)
    requires t.weight == u.weight
    ensures Delta(t, TICK_NS) == Delta(u, TICK_NS)
  {
  }

  lemma EventFair(s: System, b: nat, d: nat, m: nat, k: nat, e: Event) returns (m': nat, k': nat)
    requires Fair(s, b, d, m, k)
    ensures m <= m' && Fair(Apply(s, e), b, d, m', k')
  {
    hide Schedule, Solo, Within;
    assert Shaped(s) by { SoloShaped(s, b, d); }
    if e.Yield? || s.current[0].None? {
      m' := ScheduleFair(s, b, d, m);
      k' := 4;
    } else {
      var s1 := ChargeFair(s, b, d, m, k);
      if k > 1 {
        m', k' := m, k - 1;
      } else {
        m' := ScheduleFair(s1, b, d, m);
        k' := 4;
      }
    }
  }

  lemma SoloShaped(s: System, b: nat, d: nat)
    requires Solo(s, b, d)
    ensures Shaped(s)
  {
  }

  lemma {:induction false} RunFair(s: System, b: nat, d: nat, m: nat, k: nat, es: seq<Event>) returns (m': nat, k': nat)
    requires Fair(s, b, d, m, k) && Shaped(s)
    ensures m <= m' && Fair(RunEvents(s, es), b, d, m', k')
    decreases |es|
  {
    hide Fair, Apply;
    if es == [] {
      m', k' := m, k;
    } else {
      var m1, k1 := EventFair(s, b, d, m, k, es[0]);
      m', k' := RunFair(Apply(s, es[0]), b, d, m1, k1, es[1..]);
    }
  }

  /** In every run of ticks and yields the vruntimes of any two tasks differ by at most four ticks' worth. */
  lemma SpreadBound(s: System, b: nat, d: nat, m: nat, es: seq<Event>, p: nat, q: nat)
    requires Solo(s, b, d) && s.current[0].None? && Within(s, m, d) && p in s.tasks && q in s.tasks
    ensures var s' := RunEvents(s, es);
            p in s'.tasks && q in s'.tasks && s'.tasks[p].vruntime <= s'.tasks[q].vruntime + 4 * d
  {
    var m', k' := RunFair(s, b, d, m, 4, es);
    KeysKept(s, b, d, m, 4, es);
  }

  lemma EventKeys(s: System, b: nat, d: nat, m: nat, k: nat, e: Event)
    requires Fair(s, b, d, m, k)
    ensures Apply(s, e).tasks.Keys == s.tasks.Keys
  {
    hide Schedule, Solo, Within;
    assert Shaped(s) by { SoloShaped(s, b, d); }
    if e.Yield? || s.current[0].None? {
      var _ := ScheduleFair(s, b, d, m);
    } else {
      var s1 := ChargeFair(s, b, d, m, k);
      assert s1.tasks.Keys == s.tasks.Keys;
      if k <= 1 { var _ := ScheduleFair(s1, b, d, m); }
    }
  }

  lemma {:induction false} KeysKept(s: System, b: nat, d: nat, m: nat, k: nat, es: seq<Event>)
    requires Fair(s, b, d, m, k) && Shaped(s)
    ensures RunEvents(s, es).tasks.Keys == s.tasks.Keys
    decreases |es|
  {
    hide Fair, Apply;
    if es != [] {
      var m1, k1 := EventFair(s, b, d, m, k, es[0]);
      EventKeys(s, b, d, m, k, es[0]);
      KeysKept(Apply(s, es[0]), b, d, m1, k1, es[1..]);
    }
  }
}
