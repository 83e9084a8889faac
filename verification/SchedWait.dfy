/** How long a queued task waits in kernel/sched.c, on one CPU with equally weighted tasks in one band. */
module SchedWait {
  import opened Sched
  import opened SchedFair

  // ---------------------------------------------------------------- ticks while a task waits

  /** Ticks of the run that were charged to a task. */
  function Charged(s: System, es: seq<Event>): nat
    requires Shaped(s)
    decreases |es|
  {
    if es == [] then 0
    else (if es[0].TimerTick? && s.current[0].Some? then 1 else 0) + Charged(Apply(s, es[0]), es[1..])
  }

  /** Task `w` is ready, not running, throughout the run. */
  ghost predicate Waits(s: System, es: seq<Event>, w: nat)
    requires Shaped(s)
    decreases |es|
  {
    && w in s.tasks && s.tasks[w].state == Ready
    && (es == [] || Waits(Apply(s, es[0]), es[1..], w))
  }

  function Total(tasks: map<nat, Task>, ids: seq<nat>): nat
    requires forall i | 0 <= i < |ids| :: ids[i] in tasks
  {
    if ids == [] then 0 else tasks[ids[0]].vruntime + Total(tasks, ids[1..])
  }

  lemma {:induction false} TotalSame(tasks: map<nat, Task>, tasks': map<nat, Task>, ids: seq<nat>)
    requires forall i | 0 <= i < |ids| ::
               ids[i] in tasks && ids[i] in tasks' && tasks'[ids[i]].vruntime == tasks[ids[i]].vruntime
    ensures Total(tasks', ids) == Total(tasks, ids)
  {
    if ids != [] { TotalSame(tasks, tasks', ids[1..]); }
  }

  lemma {:induction false} TotalCharge(tasks: map<nat, Task>, tasks': map<nat, Task>, ids: seq<nat>, p: nat, d: nat)
    requires Distinct(ids) && p in ids
    requires forall i | 0 <= i < |ids| :: ids[i] in tasks && ids[i] in tasks'
    requires forall i | 0 <= i < |ids| ::
             tasks'[ids[i]].vruntime == tasks[ids[i]].vruntime + if ids[i] == p then d else 0
    ensures Total(tasks', ids) == Total(tasks, ids) + d
  {
    var rest := ids[1..];
    if ids[0] == p {
      forall i | 0 <= i < |rest| ensures rest[i] != p { assert rest[i] == ids[i + 1]; }
      TotalSame(tasks, tasks', rest);
    } else {
      assert p in rest by {
        var k :| 0 <= k < |ids| && ids[k] == p;
        assert rest[k - 1] == p;
      }
      TotalCharge(tasks, tasks', rest, p, d);
    }
  }

  lemma {:induction false} TotalBound(tasks: map<nat, Task>, tasks': map<nat, Task>, ids: seq<nat>, w: nat, d: nat)
    requires forall i | 0 <= i < |ids| :: ids[i] in tasks && ids[i] in tasks'
    requires forall i | 0 <= i < |ids| ::
               tasks'[ids[i]].vruntime <= tasks[ids[i]].vruntime + if ids[i] == w then 0 else 8 * d
    ensures Total(tasks', ids) <= Total(tasks, ids) + Times(|ids|, 8 * d)
    ensures w in ids ==> Total(tasks', ids) <= Total(tasks, ids) + Times(|ids| - 1, 8 * d)
  {
    if ids != [] {
      TotalBound(tasks, tasks', ids[1..], w, d);
      if w in ids && ids[0] != w {
        assert w in ids[1..];
      }
    }
  }

  /** `n` times `c`, by addition. */
  function Times(n: int, c: nat): nat { if n <= 0 then 0 else c + Times(n - 1, c) }

  lemma {:induction false} TimesIs(n: nat, c: nat)
    ensures Times(n, c) == c * n
  {
    if n > 0 {
      TimesIs(n - 1, c);
      OneMore(c, n - 1);
    }
  }

  lemma OneMore(c: nat, n: nat)
    ensures c + c * n == c * (n + 1)
  {
  }

  /** `ids` lists every task once. */
  ghost predicate Lists(s: System, ids: seq<nat>)
  {
    Distinct(ids) && forall p :: p in s.tasks <==> p in ids
  }

  lemma ScheduleTotal(s: System, b: nat, d: nat, m: nat, ids: seq<nat>, w: nat)
    requires Solo(s, b, d) && Within(s, m, d) && Lists(s, ids) && w in s.tasks
    ensures var s' := Schedule(s, 0);
            Lists(s', ids) && s'.tasks[w].vruntime == s.tasks[w].vruntime && Total(s'.tasks, ids) == Total(s.tasks, ids)
  {
    var _ := ScheduleFair(s, b, d, m);
    hide Schedule, Solo, Within, Total, Fair;
    var s' := Schedule(s, 0);
    assert SameWork(s.tasks[w], s'.tasks[w]);
    assert forall i | 0 <= i < |ids| :: ids[i] in ids;
    forall i | 0 <= i < |ids| ensures s'.tasks[ids[i]].vruntime == s.tasks[ids[i]].vruntime {
      assert SameWork(s.tasks[ids[i]], s'.tasks[ids[i]]);
    }
    TotalSame(s.tasks, s'.tasks, ids);
  }

  lemma ChargeTotal(s: System, b: nat, d: nat, m: nat, k: nat, ids: seq<nat>, w: nat)
    requires Fair(s, b, d, m, k) && s.current[0].Some? && Lists(s, ids) && w in s.tasks && s.tasks[w].state == Ready
    ensures s.current[0].value in s.tasks
    ensures var p := s.current[0].value;
            var s1 := s.(tasks := s.tasks[p := Charge(s.tasks[p])]);
            && Lists(s1, ids) && s1.tasks[w].vruntime == s.tasks[w].vruntime
            && Total(s1.tasks, ids) == Total(s.tasks, ids) + d
  {
    assert s.current[0].value in s.tasks && s.tasks[s.current[0].value].state == Running;
    ChargeDelta(s, b, d);
    hide Fair, Total, Charge;
    var p := s.current[0].value;
    var s1 := s.(tasks := s.tasks[p := Charge(s.tasks[p])]);
    assert forall i | 0 <= i < |ids| :: ids[i] in ids;
    TotalCharge(s.tasks, s1.tasks, ids, p, d);
  }

  /** One event adds one tick's vruntime to the total, or nothing, and leaves a waiting task's alone. */
  lemma EventTotal(s: System, b: nat, d: nat, m: nat, k: nat, e: Event, ids: seq<nat>, w: nat)
    requires Fair(s, b, d, m, k) && Shaped(s) && Lists(s, ids) && w in s.tasks && s.tasks[w].state == Ready
    ensures var s' := Apply(s, e);
            && Lists(s', ids) && s'.tasks[w].vruntime == s.tasks[w].vruntime
            && Total(s'.tasks, ids) == Total(s.tasks, ids) + if e.TimerTick? && s.current[0].Some? then d else 0
  {
    hide Schedule, Solo, Within, Total, Lists, Charge;
    if e.Yield? || s.current[0].None? {
      ScheduleTotal(s, b, d, m, ids, w);
    } else {
      var s1 := ChargeFair(s, b, d, m, k);
      ChargeTotal(s, b, d, m, k, ids, w);
      if k <= 1 { ScheduleTotal(s1, b, d, m, ids, w); }
    }
  }

  lemma ChargeDelta(s: System, b: nat, d: nat)
    requires Solo(s, b, d) && s.current[0].Some?
    ensures s.current[0].value in s.tasks
    ensures Charge(s.tasks[s.current[0].value]).vruntime == s.tasks[s.current[0].value].vruntime + d
  {
  }

  lemma {:induction false} RunTotal(s: System, b: nat, d: nat, m: nat, k: nat, es: seq<Event>, ids: seq<nat>, w: nat)
    requires Fair(s, b, d, m, k) && Shaped(s) && Lists(s, ids) && Waits(s, es, w)
    ensures var s' := RunEvents(s, es);
            && Lists(s', ids) && w in s'.tasks && s'.tasks[w].vruntime == s.tasks[w].vruntime
            && Total(s'.tasks, ids) == Total(s.tasks, ids) + d * Charged(s, es)
    decreases |es|
  {
    hide Fair, Apply, Total, Lists;
    if es != [] {
      EventTotal(s, b, d, m, k, es[0], ids, w);
      var m1, k1 := EventFair(s, b, d, m, k, es[0]);
      RunTotal(Apply(s, es[0]), b, d, m1, k1, es[1..], ids, w);
      Distribute(d, if es[0].TimerTick? && s.current[0].Some? then 1 else 0, Charged(Apply(s, es[0]), es[1..]));
    }
  }

  lemma Distribute(d: nat, a: nat, c: nat)
    ensures d * (a + c) == d * a + d * c
  {
  }

  /** While a task waits, whatever mixture of ticks and yields occurs, at most eight ticks per other task pass. */
  lemma WaitBound(s: System, b: nat, d: nat, m: nat, k: nat, es: seq<Event>, ids: seq<nat>, w: nat)
    requires Fair(s, b, d, m, k) && Shaped(s) && Lists(s, ids) && Waits(s, es, w)
    ensures Charged(s, es) <= 8 * (|ids| - 1)
  {
    hide Waits, Charged, RunEvents, Total, Solo;
    var s', n := RunEvents(s, es), |ids|;
    RunTotal(s, b, d, m, k, es, ids, w);
    var m', k' := RunFair(s, b, d, m, k, es);
    WaiterListed(s, es, ids, w);
    forall i | 0 <= i < n
      ensures ids[i] in s.tasks && ids[i] in s'.tasks
      ensures s'.tasks[ids[i]].vruntime <= s.tasks[ids[i]].vruntime + if ids[i] == w then 0 else 8 * d
    {
      assert ids[i] in ids;
    }
    TotalBound(s.tasks, s'.tasks, ids, w, d);
    TimesIs(n - 1, 8 * d);
    Regroup(d, n - 1);
    PositiveDelta(s, b, d);
    Cancel(d, Charged(s, es), 8 * (n - 1));
  }

  lemma WaiterListed(s: System, es: seq<Event>, ids: seq<nat>, w: nat)
    requires Shaped(s) && Lists(s, ids) && Waits(s, es, w)
    ensures w in ids && w in s.tasks
  {
  }

  lemma PositiveDelta(s: System, b: nat, d: nat)
    requires Solo(s, b, d)
    ensures d > 0
  {
  }

  lemma Regroup(d: nat, n: nat)
    ensures 8 * d * n == d * (8 * n)
  {
  }

  lemma {:induction false} Cancel(d: nat, a: nat, c: nat)
    requires d > 0 && d * a <= d * c
    ensures a <= c
  {
    if a > 0 {
      assert d * a == d * (a - 1) + d;
      assert c == 0 ==> d * c == 0;
      assert d * (a - 1) >= 0;
      assert d * c == d * (c - 1) + d;
      Cancel(d, a - 1, c - 1);
    }
  }

  // ---------------------------------------------------------------- without yields: round robin

  /** The queue is in order of vruntime, earlier arrivals first among equals. */
  ghost predicate Ordered(s: System, b: nat)
    requires Shaped(s) && b < BANDS
  {
    forall i, j | 0 <= i < j < |s.queues[b]| && s.queues[b][i] in s.tasks && s.queues[b][j] in s.tasks ::
      s.tasks[s.queues[b][i]].vruntime <= s.tasks[s.queues[b][j]].vruntime
  }

  ghost predicate Turn(s: System, b: nat, d: nat, m: nat, k: nat)
  {
    Fair(s, b, d, m, k) && s.current[0].Some? && Ordered(s, b)
  }

  /** In an ordered queue of ready tasks the scan picks the head. */
  lemma HeadPicked(v: System, b: nat, d: nat)
    requires Solo(v, b, d) && v.current[0].None? && Ordered(v, b) && v.queues[b] != []
    ensures PickNext(v) == Some(v.queues[b][0])
  {
    AllQueued(v, b, d);
    assert v.queues[b][0] in v.queues[b];
    ReadyIsPicked(v, v.queues[b][0]);
    var band, k := PickBelowMeaning(v, BANDS);
    hide Inv;
    assert band == b;
    assert v.queues[b][0] in v.tasks;
  }

  /** The current task went to the tail of the queue and the task then at the head took its place. */
  ghost predicate Rotated(s: System, s': System, b: nat)
    requires Shaped(s) && Shaped(s') && b < BANDS && s.current[0].Some?
  {
    var r := s.queues[b] + [s.current[0].value];
    s'.current[0] == Some(r[0]) && s'.queues[b] == r[1..]
  }

  /** The end of a slice. */
  lemma Rotate(s: System, b: nat, d: nat, m: nat) returns (m': nat)
    requires Solo(s, b, d) && Within(s, m, d) && s.current[0].Some? && Ordered(s, b)
    requires s.current[0].value in s.tasks && s.tasks[s.current[0].value].vruntime == m + 4 * d
    ensures Turn(Schedule(s, 0), b, d, m', 4) && Rotated(s, Schedule(s, 0), b)
  {
    hide Schedule, Vacated, PickNext, Inv, Delta, Within, Fair, Ordered, Switch;
    var v, s', q, c := Vacated(s, 0), Schedule(s, 0), s.queues[b], s.current[0].value;
    m' := ScheduleFair(s, b, d, m);
    VacateSame(s, 0);
    VacateSolo(s, b, d);
    assert v.queues[b] == q + [c];
    VacateOrdered(s, v, b, d, m);
    HeadPicked(v, b, d);
    ScheduleCases(s, 0);
    assert s' == Switch(v, 0, (q + [c])[0]);
    SwitchTail(v, b);
    RotateOrdered(s, v, s', b);
  }

  lemma SwitchTail(v: System, b: nat)
    requires Shaped(v) && b < BANDS && v.queues[b] != [] && v.queues[b][0] in v.tasks
    ensures var s' := Switch(v, 0, v.queues[b][0]);
            s'.queues[b] == v.queues[b][1..] && s'.current[0] == Some(v.queues[b][0])
  {
  }

  lemma VacateOrdered(s: System, v: System, b: nat, d: nat, m: nat)
    requires Shaped(s) && Shaped(v) && b < BANDS && Ordered(s, b) && Within(s, m, d) && SameTasks(s, v)
    requires s.current[0].Some? && s.current[0].value in s.tasks && s.tasks[s.current[0].value].vruntime == m + 4 * d
    requires v.queues[b] == s.queues[b] + [s.current[0].value]
    ensures Ordered(v, b)
  {
    var q, r := s.queues[b], v.queues[b];
    forall i, j | 0 <= i < j < |r| && r[i] in v.tasks && r[j] in v.tasks
      ensures v.tasks[r[i]].vruntime <= v.tasks[r[j]].vruntime
    {
      assert r[i] == q[i] && SameWork(s.tasks[r[i]], v.tasks[r[i]]) && SameWork(s.tasks[r[j]], v.tasks[r[j]]);
      if j < |q| { assert r[j] == q[j]; }
    }
  }

  lemma RotateOrdered(s: System, v: System, s': System, b: nat)
    requires Shaped(v) && Shaped(s') && b < BANDS && Ordered(v, b) && v.queues[b] != []
             && s'.queues[b] == v.queues[b][1..]
    requires SameTasks(s, v) && SameTasks(s, s')
    ensures Ordered(s', b)
  {
    var r, r' := v.queues[b], s'.queues[b];
    forall i, j | 0 <= i < j < |r'| && r'[i] in s'.tasks && r'[j] in s'.tasks
      ensures s'.tasks[r'[i]].vruntime <= s'.tasks[r'[j]].vruntime
    {
      assert r'[i] == r[i + 1] && r'[j] == r[j + 1];
      assert SameWork(s.tasks[r'[i]], v.tasks[r'[i]]) && SameWork(s.tasks[r'[j]], v.tasks[r'[j]]);
      assert SameWork(s.tasks[r'[i]], s'.tasks[r'[i]]) && SameWork(s.tasks[r'[j]], s'.tasks[r'[j]]);
    }
  }

  function Ticks(n: nat): (es: seq<Event>)
    ensures |es| == n && forall i | 0 <= i < n :: es[i] == TimerTick
  {
    if n == 0 then [] else [TimerTick] + Ticks(n - 1)
  }

  /** Charging the current task does not disturb the order of the queue, which it is not on. */
  lemma ChargeOrdered(s: System, s1: System, b: nat, d: nat)
    requires Solo(s, b, d) && Ordered(s, b) && s.current[0].Some? && s.current[0].value in s.tasks
    requires s1 == s.(tasks := s.tasks[s.current[0].value := Charge(s.tasks[s.current[0].value])])
    ensures Ordered(s1, b)
  {
    hide Charge, Delta;
    var p := s.current[0].value;
    assert s.tasks[p].state == Running;
    forall i | 0 <= i < |s.queues[b]| ensures s.queues[b][i] != p { assert s.queues[b][i] in s.queues[b]; }
  }

  /** A tick inside the slice leaves current task and queue in place. */
  lemma TickWithin(s: System, b: nat, d: nat, m: nat, k: nat)
    requires Turn(s, b, d, m, k) && k > 1
    ensures var s' := Tick(s, 0); Turn(s', b, d, m, k - 1) && s'.current == s.current && s'.queues == s.queues
  {
    hide Schedule, Ordered, Solo, Within, Charge;
    var s1 := ChargeFair(s, b, d, m, k);
    ChargeOrdered(s, s1, b, d);
    SoloShaped(s, b, d);
    assert Tick(s, 0) == s1;
  }

  /** The last tick of a slice rotates the queue. */
  lemma TickLast(s: System, b: nat, d: nat, m: nat) returns (m': nat)
    requires Turn(s, b, d, m, 1)
    ensures Turn(Tick(s, 0), b, d, m', 4) && Rotated(s, Tick(s, 0), b)
  {
    hide Schedule, Ordered, Solo, Within, Charge;
    var s1 := ChargeFair(s, b, d, m, 1);
    ChargeOrdered(s, s1, b, d);
    ChargeDelta(s, b, d);
    m' := Rotate(s1, b, d, m);
  }

  lemma CurrentSome(s: System, b: nat, d: nat, m: nat, k: nat)
    requires Turn(s, b, d, m, k)
    ensures s.current[0].Some?
  {
  }

  // ---------------------------------------------------------------- the whole cycle

  /** Entry `j` of the queue repeated for ever. */
  function Cycle(q: seq<nat>, j: nat): nat
    requires q != []
  {
    if j < |q| then q[j] else Cycle(q, j - |q|)
  }

  lemma CyclePeriod(q: seq<nat>, j: nat)
    requires q != []
    ensures Cycle(q, j + |q|) == Cycle(q, j)
  {
  }

  /** Every entry occurs in every round. */
  lemma {:induction false} NextTurn(q: seq<nat>, j: nat, i: nat) returns (e: nat)
    requires i < |q|
    ensures e < |q| && Cycle(q, j + e) == q[i]
  {
    if j >= |q| {
      e := NextTurn(q, j - |q|, i);
      CyclePeriod(q, j - |q| + e);
    } else if i >= j {
      e := i - j;
    } else {
      e := |q| + i - j;
      CyclePeriod(q, i);
    }
  }

  /** Entry `j` of the cycle runs, and the queue holds the entries that follow, one round of them. */
  ghost predicate Line(s: System, b: nat, q: seq<nat>, j: nat)
    requires Shaped(s) && b < BANDS
  {
    && q != [] && s.current[0] == Some(Cycle(q, j)) && |s.queues[b]| == |q| - 1
    && forall i: nat | i < |q| - 1 :: s.queues[b][i] == Cycle(q, j + 1 + i)
  }

  lemma RotatedLine(s: System, s': System, b: nat, q: seq<nat>, j: nat)
    requires Shaped(s) && Shaped(s') && b < BANDS && Line(s, b, q, j) && Rotated(s, s', b)
    ensures Line(s', b, q, j + 1)
  {
    hide Cycle;
    var n, r := |q|, s.queues[b] + [s.current[0].value];
    CyclePeriod(q, j);
    forall i: nat | i < n
      ensures r[i] == Cycle(q, j + 1 + i)
    {
      if i == n - 1 {
        assert j + 1 + i == j + n;
      } else {
        assert r[i] == s.queues[b][i];
      }
    }
    forall i: nat | i < n - 1
      ensures s'.queues[b][i] == Cycle(q, j + 1 + 1 + i)
    {
      assert s'.queues[b][i] == r[i + 1];
    }
    assert s'.current[0] == Some(r[0]) && r[0] == Cycle(q, j + 1 + 0);
  }

  /** After `t` ticks of the cycle, entry `t / 4` runs and has `4 - t % 4` ticks left. */
  ghost predicate Clock(s: System, b: nat, d: nat, m: nat, q: seq<nat>, t: nat)
  {
    Turn(s, b, d, m, 4 - t % 4) && Line(s, b, q, t / 4)
  }

  lemma TickClock(s: System, b: nat, d: nat, m: nat, q: seq<nat>, t: nat) returns (m': nat)
    requires Clock(s, b, d, m, q, t)
    ensures Clock(Tick(s, 0), b, d, m', q, t + 1)
  {
    hide Turn, Line, Tick;
    TurnShaped(s, b, d, m, 4 - t % 4);
    NextTick(t);
    m' := TickLine(s, b, d, m, 4 - t % 4, q, t / 4);
    assert t % 4 == 3 ==> 4 - (t + 1) % 4 == 4;
  }

  lemma TickLine(s: System, b: nat, d: nat, m: nat, k: nat, q: seq<nat>, j: nat) returns (m': nat)
    requires Turn(s, b, d, m, k) && 1 <= k && Shaped(s) && b < BANDS && Line(s, b, q, j)
    ensures Turn(Tick(s, 0), b, d, m', if k > 1 then k - 1 else 4)
    ensures Line(Tick(s, 0), b, q, if k > 1 then j else j + 1)
  {
    hide Turn, Line, Tick, Rotated;
    CurrentSome(s, b, d, m, k);
    if k > 1 {
      m' := m;
      TickWithin(s, b, d, m, k);
      SameLine(s, Tick(s, 0), b, q, j);
    } else {
      m' := TickLast(s, b, d, m);
      RotatedLine(s, Tick(s, 0), b, q, j);
    }
  }

  lemma NextTick(t: nat)
    ensures t % 4 < 3 ==> (t + 1) / 4 == t / 4 && (t + 1) % 4 == t % 4 + 1
    ensures t % 4 == 3 ==> (t + 1) / 4 == t / 4 + 1 && (t + 1) % 4 == 0
  {
  }

  lemma TurnShaped(s: System, b: nat, d: nat, m: nat, k: nat)
    requires Turn(s, b, d, m, k)
    ensures Shaped(s) && b < BANDS
  {
  }

  lemma SameLine(s: System, s': System, b: nat, q: seq<nat>, j: nat)
    requires Shaped(s) && Shaped(s') && b < BANDS && Line(s, b, q, j) && s'.current == s.current
             && s'.queues == s.queues
    ensures Line(s', b, q, j)
  {
  }

  lemma {:induction false} TicksClock(s: System, b: nat, d: nat, m: nat, q: seq<nat>, t: nat, n: nat) returns (m': nat)
    requires Clock(s, b, d, m, q, t) && Shaped(s)
    ensures Clock(RunEvents(s, Ticks(n)), b, d, m', q, t + n)
    decreases n
  {
    hide Clock, Tick;
    m' := m;
    if n > 0 {
      assert Ticks(n)[1..] == Ticks(n - 1) && Apply(s, TimerTick) == Tick(s, 0);
      var m1 := TickClock(s, b, d, m, q, t);
      m' := TicksClock(Tick(s, 0), b, d, m1, q, t + 1, n - 1);
    }
  }

  // ---------------------------------------------------------------- from a level start

  /** Nothing runs yet and every task has the same vruntime. */
  ghost predicate Level(s: System, b: nat, d: nat, v: nat)
  {
    Solo(s, b, d) && s.current[0].None? && s.tasks != map[] && forall p | p in s.tasks :: s.tasks[p].vruntime == v
  }

  /** The first tick gives the head of the queue a whole slice. */
  lemma LevelStart(s: System, b: nat, d: nat, v: nat) returns (m: nat)
    requires Level(s, b, d, v)
    ensures s.queues[b] != [] && Clock(Tick(s, 0), b, d, m, s.queues[b], 0)
  {
    hide Schedule, Inv, PickNext, Delta, Fair, Switch, Vacated;
    var q, s' := s.queues[b], Schedule(s, 0);
    assert Inv(s);
    m := ScheduleFair(s, b, d, v);
    AllQueued(s, b, d);
    LevelOrdered(s, b, d, v);
    HeadPicked(s, b, d);
    ScheduleCases(s, 0);
    IdleVacated(s);
    SwitchTail(s, b);
    TailOrdered(s, s', b, d, v);
    FirstLine(s', b, q);
  }

  lemma FirstLine(s: System, b: nat, q: seq<nat>)
    requires Shaped(s) && b < BANDS && q != [] && s.current[0] == Some(q[0]) && s.queues[b] == q[1..]
    ensures Line(s, b, q, 0)
  {
  }

  lemma IdleVacated(s: System)
    requires Shaped(s) && s.current[0].None?
    ensures Vacated(s, 0) == s
  {
  }

  lemma LevelOrdered(s: System, b: nat, d: nat, v: nat)
    requires Level(s, b, d, v)
    ensures Shaped(s) && b < BANDS && Ordered(s, b) && s.queues[b] != []
  {
    AllQueued(s, b, d);
  }

  lemma TailOrdered(s: System, s': System, b: nat, d: nat, v: nat)
    requires Level(s, b, d, v) && Shaped(s') && SameTasks(s, s')
    ensures Ordered(s', b)
  {
    assert forall p | p in s'.tasks :: SameWork(s.tasks[p], s'.tasks[p]);
  }

  /** Round robin, for every number of ticks: with `n` equal tasks queued at a level start, the timer alone runs
      them in queue order, four ticks each, over and over. */
  lemma RoundRobin(s: System, b: nat, d: nat, v: nat, t: nat) returns (m: nat)
    requires Level(s, b, d, v) && Shaped(s)
    ensures var q, s' := s.queues[b], RunEvents(s, Ticks(1 + t));
            && q != [] && Turn(s', b, d, m, 4 - t % 4)
            && s'.current[0] == Some(Cycle(q, t / 4))
  {
    hide Level, Turn, Tick, Clock, Cycle, RunEvents, Ordered;
    LevelOrdered(s, b, d, v);
    var m0 := LevelStart(s, b, d, v);
    FirstTick(s, t);
    m := TicksClock(Tick(s, 0), b, d, m0, s.queues[b], 0, t);
    ClockRuns(RunEvents(Tick(s, 0), Ticks(t)), b, d, m, s.queues[b], t);
  }

  lemma FirstTick(s: System, t: nat)
    requires Shaped(s)
    ensures RunEvents(s, Ticks(1 + t)) == RunEvents(Tick(s, 0), Ticks(t))
  {
    hide Tick;
    assert Ticks(1 + t)[1..] == Ticks(t) && Apply(s, TimerTick) == Tick(s, 0);
  }

  lemma ClockRuns(s: System, b: nat, d: nat, m: nat, q: seq<nat>, t: nat)
    requires Clock(s, b, d, m, q, t) && Shaped(s) && q != []
    ensures Turn(s, b, d, m, 4 - t % 4) && s.current[0] == Some(Cycle(q, t / 4))
  {
  }

  /** No task waits longer than one slice of each other task: from any tick `t` on, each of the `n` tasks is the
      running one at some tick within the next `4 * (n - 1)`. */
  lemma SliceWait(s: System, b: nat, d: nat, v: nat, i: nat, t: nat) returns (u: nat)
    requires Level(s, b, d, v) && Shaped(s) && b < BANDS && i < |s.queues[b]|
    ensures t <= u <= t + 4 * (|s.queues[b]| - 1)
    ensures RunEvents(s, Ticks(1 + u)).current[0] == Some(s.queues[b][i])
  {
    hide Level, Turn, Ticks, RunEvents, Cycle;
    var n, j := |s.queues[b]|, t / 4;
    var e := NextTurn(s.queues[b], j, i);
    u := if e == 0 then t else 4 * (j + e);
    assert u / 4 == j + e;
    var _ := RoundRobin(s, b, d, v, u);
  }

  // ---------------------------------------------------------------- from boot

  /** The system after `n` tasks of one priority have been created and nothing has run. */
  function Booted(priority: nat, n: nat): (s: System)
    ensures Shaped(s)
  {
    if n == 0 then Init() else Create(Booted(priority, n - 1), priority)
  }

  function Pids(n: nat): (q: seq<nat>)
    ensures |q| == n && forall i | 0 <= i < n :: q[i] == i + 1
  {
    if n == 0 then [] else Pids(n - 1) + [n]
  }

  function NewTask(priority: nat): Task
  {
    var prio := if priority < 15 then priority else 15;
    Task(Ready, prio, 0, WEIGHTS[prio], 0, 0, 0)
  }

  lemma {:induction false} BootedIs(priority: nat, n: nat)
    ensures var s, b := Booted(priority, n), Band(NewTask(priority));
            && Inv(s) && s.nextPid == n + 1 && s.queues[b] == Pids(n)
            && (forall c: nat | c < BANDS && c != b :: s.queues[c] == [])
            && (forall c: nat | c < CPUS :: s.current[c].None?)
            && (forall p :: p in s.tasks <==> 1 <= p <= n)
            && (forall p | p in s.tasks :: s.tasks[p] == NewTask(priority))
  {
    hide Inv, Create, WEIGHTS;
    if n == 0 {
      InitInv();
    } else {
      var s := Booted(priority, n - 1);
      BootedIs(priority, n - 1);
      CreateKeeps(s, priority);
      CreateIs(s, priority);
    }
  }

  /** With every floor at zero, creation adds exactly a new task at the tail of its band. */
  lemma CreateIs(s: System, priority: nat)
    requires Inv(s) && Shaped(s)
    ensures var t, p := NewTask(priority), s.nextPid;
            Create(s, priority) == s.(tasks := s.tasks[p := t], queues := s.queues[Band(t) := s.queues[Band(t)] + [p]],
                                      nextPid := p + 1)
  {
    var t, p := NewTask(priority), s.nextPid;
    assert s.tasks[p := t][p := t] == s.tasks[p := t];
  }

  lemma NewTaskDelta(priority: nat)
    ensures Delta(NewTask(priority), TICK_NS) > 0
  {
  }

  lemma BootedLevel(priority: nat, n: nat)
    requires n > 0
    ensures Level(Booted(priority, n), Band(NewTask(priority)), Delta(NewTask(priority), TICK_NS), 0)
  {
    hide Inv, Delta, Booted;
    BootedIs(priority, n);
    NewTaskDelta(priority);
    assert 1 in Booted(priority, n).tasks;
  }

  /** From boot: `n` tasks created with one priority run in order of creation, four ticks each, for ever. */
  lemma BootedRoundRobin(priority: nat, n: nat, t: nat)
    requires n > 0
    ensures RunEvents(Booted(priority, n), Ticks(1 + t)).current[0] == Some(Cycle(Pids(n), t / 4))
  {
    hide Level, Turn, RunEvents, Cycle, Inv, Delta, Booted;
    BootedLevel(priority, n);
    BootedIs(priority, n);
    var _ := RoundRobin(Booted(priority, n), Band(NewTask(priority)), Delta(NewTask(priority), TICK_NS), 0, t);
  }
}
