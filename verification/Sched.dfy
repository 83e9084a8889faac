/**
 The scheduler of kernel/sched.c on values: sixteen run queues in arrival order, the task current on each
 CPU, and the operations that run under the scheduler lock.  Pids stand for task pointers.
 */
module Sched {

  const BANDS: nat := 16
  const CPUS: nat := 256
  const TICK_NS: nat := 1_000_000
  const SLICE_NS: nat := 4_000_000
  const NICE_0_WEIGHT: nat := 56483

  const WEIGHTS: seq<nat> := [88761, 71755, 56483, 46273, 36291, 29154, 23254, 18705, 14949, 11916,
                              9548, 7620, 6100, 4904, 3906, 3121]

  datatype TaskState = Running | Ready | Blocked | Zombie | Stopped

  datatype Task = Task(state: TaskState, priority: nat, vruntime: nat, weight: nat, slice: nat, cpuTime: nat,
                       onCpu: nat)

  datatype Option<T> = None | Some(value: T)

  datatype System = System(tasks: map<nat, Task>, queues: seq<seq<nat>>, floors: seq<nat>, current: seq<Option<nat>>,
                           nextPid: nat)

  predicate Shaped(s: System)
  {
    |s.queues| == BANDS && |s.floors| == BANDS && |s.current| == CPUS
  }

  function Band(t: Task): (b: nat)
    ensures b < BANDS
  {
    if t.priority < 15 then t.priority else 15
  }

  /** `calc_vruntime_delta`: real time scaled by the weight of nice 0 over the task's weight. */
  function Delta(t: Task, ns: nat): nat
  {
    ns * NICE_0_WEIGHT / (if t.weight == 0 then NICE_0_WEIGHT else t.weight)
  }

  // ---------------------------------------------------------------- the operations

  function Enqueue(s: System, p: nat): (s': System)
    requires Shaped(s) && p in s.tasks
    ensures Shaped(s')
  {
    var t := s.tasks[p];
    var b := Band(t);
    var t' := if t.vruntime == 0 then t.(vruntime := s.floors[b]) else t;
    s.(tasks := s.tasks[p := t'], queues := s.queues[b := s.queues[b] + [p]])
  }

  function Without(q: seq<nat>, p: nat): seq<nat>
  {
    if q == [] then [] else if q[0] == p then q[1..] else [q[0]] + Without(q[1..], p)
  }

  function WithoutAll(queues: seq<seq<nat>>, p: nat): (r: seq<seq<nat>>)
    ensures |r| == |queues| && forall b | 0 <= b < |queues| :: r[b] == Without(queues[b], p)
  {
    if queues == [] then [] else [Without(queues[0], p)] + WithoutAll(queues[1..], p)
  }

  /** Unlinking a task's queue node, wherever it is linked. */
  function Dequeue(s: System, p: nat): (s': System)
    requires Shaped(s)
    ensures Shaped(s')
  {
    s.(queues := WithoutAll(s.queues, p))
  }

  /** The scan of one band, front to back: a later task replaces the best one only if its vruntime is smaller. */
  function BestOf(tasks: map<nat, Task>, q: seq<nat>): (best: Option<nat>)
    ensures best.Some? ==> best.value in tasks
  {
    if q == [] then None
    else
      var last, best := q[|q| - 1], BestOf(tasks, q[..|q| - 1]);
      if last !in tasks || tasks[last].state != Ready then best
      else if best.None? || tasks[last].vruntime < tasks[best.value].vruntime then Some(last)
      else best
  }

  /** The bands from `b - 1` down to 0. */
  function PickBelow(s: System, b: nat): Option<nat>
    requires Shaped(s) && b <= BANDS
  {
    if b == 0 then None
    else
      var best := BestOf(s.tasks, s.queues[b - 1]);
      if best.Some? then best else PickBelow(s, b - 1)
  }

  function PickNext(s: System): Option<nat>
    requires Shaped(s)
  {
    PickBelow(s, BANDS)
  }

  function SetState(s: System, p: nat, st: TaskState): System
    requires p in s.tasks
  {
    s.(tasks := s.tasks[p := s.tasks[p].(state := st)])
  }

  /** A running previous task goes back to its queue. */
  function PutBack(s: System, cpu: nat): (s': System)
    requires Shaped(s) && cpu < CPUS
    ensures Shaped(s')
  {
    var prev := s.current[cpu];
    if prev.Some? && prev.value in s.tasks && s.tasks[prev.value].state == Running
    then Enqueue(SetState(s, prev.value, Ready), prev.value)
    else s
  }

  function Switch(s: System, cpu: nat, p: nat): (s': System)
    requires Shaped(s) && cpu < CPUS && p in s.tasks
    ensures Shaped(s')
  {
    var s1 := Dequeue(s, p);
    s1.(tasks := s1.tasks[p := s1.tasks[p].(state := Running, onCpu := cpu, slice := SLICE_NS)],
        current := s1.current[cpu := Some(p)])
  }

  function Schedule(s: System, cpu: nat): (s': System)
    requires Shaped(s) && cpu < CPUS
    ensures Shaped(s')
  {
    var prev, s1 := s.current[cpu], PutBack(s, cpu);
    match PickNext(s1)
    case None => if prev.Some? && prev.value in s1.tasks then SetState(s1, prev.value, Running) else s1
    case Some(p) => if p in s1.tasks then Switch(s1, cpu, p) else s1
  }

  function Charge(t: Task): Task
  {
    t.(cpuTime := t.cpuTime + TICK_NS, vruntime := t.vruntime + Delta(t, TICK_NS),
       slice := if t.slice > TICK_NS then t.slice - TICK_NS else 0)
  }

  function Tick(s: System, cpu: nat): (s': System)
    requires Shaped(s) && cpu < CPUS
    ensures Shaped(s')
  {
    var cur := s.current[cpu];
    if cur.None? || cur.value !in s.tasks then Schedule(s, cpu)
    else
      var t := s.tasks[cur.value];
      var s1 := s.(tasks := s.tasks[cur.value := Charge(t)]);
      if t.slice > TICK_NS then s1 else Schedule(s1, cpu)
  }

  /** The queueing part of `task_create`. */
  function Create(s: System, priority: nat): (s': System)
    requires Shaped(s)
    ensures Shaped(s')
  {
    var prio := if priority < 15 then priority else 15;
    var t := Task(Ready, prio, 0, WEIGHTS[prio], 0, 0, 0);
    Enqueue(s.(tasks := s.tasks[s.nextPid := t], nextPid := s.nextPid + 1), s.nextPid)
  }

  /** `nk_work_budget` raises the priority of the calling task. */
  function Boost(s: System, cpu: nat): (s': System)
    requires Shaped(s) && cpu < CPUS
    ensures Shaped(s')
  {
    var cur := s.current[cpu];
    if cur.None? || cur.value !in s.tasks then s
    else
      var t := s.tasks[cur.value];
      s.(tasks := s.tasks[cur.value := t.(priority := if t.priority + 2 < 15 then t.priority + 2 else 15)])
  }

  datatype Op = DoCreate(priority: nat) | DoSchedule(cpu: nat) | DoTick(cpu: nat) | DoBoost(cpu: nat)

  predicate OpOk(op: Op) { op.DoCreate? || op.cpu < CPUS }

  function Step(s: System, op: Op): (s': System)
    requires Shaped(s) && OpOk(op)
    ensures Shaped(s')
  {
    match op
    case DoCreate(priority) => Create(s, priority)
    case DoSchedule(cpu) => Schedule(s, cpu)
    case DoTick(cpu) => Tick(s, cpu)
    case DoBoost(cpu) => Boost(s, cpu)
  }

  // ---------------------------------------------------------------- the run-queue partition

  ghost predicate Distinct(q: seq<nat>)
  {
    forall i, j | 0 <= i < j < |q| :: q[i] != q[j]
  }

  ghost predicate Queued(s: System, p: nat)
    requires Shaped(s)
  {
    exists b: nat :: b < BANDS && p in s.queues[b]
  }

  ghost predicate OnSomeCpu(s: System, p: nat)
    requires Shaped(s)
  {
    exists c: nat :: c < CPUS && s.current[c] == Some(p)
  }

  /** Queues hold ready tasks, no task twice; every ready task is on one. */
  ghost predicate QueuesOk(s: System)
    requires Shaped(s)
  {
    && (forall b: nat, p | b < BANDS && p in s.queues[b] :: p in s.tasks && s.tasks[p].state == Ready)
    && (forall b: nat | b < BANDS :: Distinct(s.queues[b]))
    && (forall b: nat, c: nat, p | b < BANDS && c < BANDS && p in s.queues[b] && p in s.queues[c] :: b == c)
    && (forall p | p in s.tasks && s.tasks[p].state == Ready :: Queued(s, p))
  }

  /** Current tasks run, each on one CPU; every running task is current somewhere; no other state occurs. */
  ghost predicate CpusOk(s: System)
    requires Shaped(s)
  {
    && (forall c: nat | c < CPUS && s.current[c].Some? ::
          s.current[c].value in s.tasks && s.tasks[s.current[c].value].state == Running)
    && (forall c: nat, d: nat | c < CPUS && d < CPUS && s.current[c].Some? && s.current[c] == s.current[d] :: c == d)
    && (forall p | p in s.tasks && s.tasks[p].state == Running :: OnSomeCpu(s, p))
    && (forall p | p in s.tasks :: s.tasks[p].state == Ready || s.tasks[p].state == Running)
  }

  ghost predicate Inv(s: System)
  {
    && Shaped(s) && QueuesOk(s) && CpusOk(s)
    && (forall p | p in s.tasks :: p < s.nextPid)
    && (forall b: nat | b < BANDS :: s.floors[b] == 0)
  }

  // ---------------------------------------------------------------- which task is chosen

  /** Position `k` of the queue: ready, no ready task with smaller vruntime, and none as small before it. */
  ghost predicate Chosen(tasks: map<nat, Task>, q: seq<nat>, k: nat)
  {
    && k < |q| && q[k] in tasks && tasks[q[k]].state == Ready
    && forall j: nat | j < |q| && q[j] in tasks && tasks[q[j]].state == Ready ::
         if j < k then tasks[q[k]].vruntime < tasks[q[j]].vruntime else tasks[q[k]].vruntime <= tasks[q[j]].vruntime
  }

  ghost predicate NoneReady(tasks: map<nat, Task>, q: seq<nat>)
  {
    forall p | p in q && p in tasks :: tasks[p].state != Ready
  }

  lemma {:induction false} BestOfMeaning(tasks: map<nat, Task>, q: seq<nat>) returns (k: nat)
    ensures BestOf(tasks, q).None? ==> NoneReady(tasks, q)
    ensures BestOf(tasks, q).Some? ==> Chosen(tasks, q, k) && BestOf(tasks, q) == Some(q[k])
  {
    k := 0;
    if q != [] {
      var n := |q| - 1;
      var rest, last := q[..n], q[n];
      assert q == rest + [last];
      var j := BestOfMeaning(tasks, rest);
      var best := BestOf(tasks, rest);
      if last in tasks && tasks[last].state == Ready
         && (best.None? || tasks[last].vruntime < tasks[best.value].vruntime) {
        k := n;
        forall i: nat | i < n && q[i] in tasks && tasks[q[i]].state == Ready
          ensures tasks[last].vruntime < tasks[q[i]].vruntime
        {
          assert q[i] == rest[i] && rest[i] in rest;
        }
      } else {
        k := j;
        forall i: nat | i < n ensures q[i] == rest[i] {}
      }
    }
  }

  lemma {:induction false} PickBelowMeaning(s: System, b: nat) returns (band: nat, k: nat)
    requires Shaped(s) && b <= BANDS
    ensures PickBelow(s, b).None? ==> forall c: nat | c < b :: NoneReady(s.tasks, s.queues[c])
    ensures PickBelow(s, b).Some? ==>
              && band < b && Chosen(s.tasks, s.queues[band], k) && PickBelow(s, b) == Some(s.queues[band][k])
              && forall c: nat | band < c < b :: NoneReady(s.tasks, s.queues[c])
  {
    hide Chosen, NoneReady;
    band, k := 0, 0;
    if b > 0 {
      k := BestOfMeaning(s.tasks, s.queues[b - 1]);
      if BestOf(s.tasks, s.queues[b - 1]).Some? {
        band := b - 1;
      } else {
        band, k := PickBelowMeaning(s, b - 1);
      }
    }
  }

  // ---------------------------------------------------------------- every operation keeps the partition

  lemma {:induction false} WithoutFacts(q: seq<nat>, p: nat)
    requires Distinct(q)
    ensures Distinct(Without(q, p)) && forall x :: x in Without(q, p) <==> x in q && x != p
  {
    if q != [] {
      var rest := q[1..];
      assert forall x :: x in q <==> x == q[0] || x in rest;
      WithoutFacts(rest, p);
      if q[0] != p {
        var r := Without(q, p);
        assert r[1..] == Without(rest, p) && forall x :: x in r <==> x == q[0] || x in r[1..];
        forall i, j | 0 <= i < j < |r| ensures r[i] != r[j] {
          assert r[j] == r[1..][j - 1] && r[j] in r[1..];
          if i > 0 { assert r[i] == r[1..][i - 1]; }
        }
      }
    }
  }

  lemma AppendDistinct(q: seq<nat>, p: nat)
    requires Distinct(q) && p !in q
    ensures Distinct(q + [p])
  {
    var r := q + [p];
    forall i, j | 0 <= i < j < |r| ensures r[i] != r[j] { assert r[i] == q[i]; }
  }

  /** A ready task that is not queued goes to the tail of its band; the rest of the state is as it was. */
  lemma EnqueueQueues(s: System, s0: System, p: nat)
    requires Shaped(s) && Shaped(s0) && QueuesOk(s0) && s.queues == s0.queues
    requires p in s.tasks && s.tasks[p].state == Ready && !Queued(s0, p)
    requires forall q | q in s0.tasks && q != p :: q in s.tasks && s.tasks[q] == s0.tasks[q]
    requires forall q | q in s.tasks && q != p :: q in s0.tasks
    ensures QueuesOk(Enqueue(s, p))
  {
    var s', b := Enqueue(s, p), Band(s.tasks[p]);
    AppendDistinct(s.queues[b], p);
    forall c: nat, q | c < BANDS && q in s'.queues[c]
      ensures q in s'.tasks && s'.tasks[q].state == Ready && (q == p ==> c == b) && (q != p ==> q in s0.queues[c])
    {
      assert q in s0.queues[c] || (c == b && q == p);
    }
    forall q | q in s'.tasks && s'.tasks[q].state == Ready ensures Queued(s', q) {
      if q == p {
        assert p in s'.queues[b];
      } else {
        assert Queued(s0, q);
        var c: nat :| c < BANDS && q in s0.queues[c];
        assert q in s'.queues[c];
      }
    }
  }

  /** CPUs do not notice a change among tasks that neither were nor become running. */
  lemma SameCpus(s: System, s': System)
    requires Shaped(s) && Shaped(s') && CpusOk(s) && s'.current == s.current
    requires forall q | q in s.tasks && s.tasks[q].state == Running :: q in s'.tasks && s'.tasks[q].state == Running
    requires forall q | q in s'.tasks ::
               s'.tasks[q].state == Ready || (q in s.tasks && s'.tasks[q].state == s.tasks[q].state == Running)
    ensures CpusOk(s')
  {
    forall q | q in s'.tasks && s'.tasks[q].state == Running ensures OnSomeCpu(s', q) {
      assert OnSomeCpu(s, q);
      var c: nat :| c < CPUS && s.current[c] == Some(q);
      assert s'.current[c] == Some(q);
    }
  }

  lemma CreateKeeps(s: System, priority: nat)
    requires Inv(s)
    ensures Inv(Create(s, priority))
  {
    hide QueuesOk, CpusOk, Queued;
    var s', p := Create(s, priority), s.nextPid;
    var prio := if priority < 15 then priority else 15;
    var s1 := s.(tasks := s.tasks[p := Task(Ready, prio, 0, WEIGHTS[prio], 0, 0, 0)], nextPid := p + 1);
    UnknownNotQueued(s, p);
    EnqueueQueues(s1, s, p);
    CreateCpus(s, s1, p);
  }

  lemma UnknownNotQueued(s: System, p: nat)
    requires Shaped(s) && QueuesOk(s) && p !in s.tasks
    ensures !Queued(s, p)
  {
  }

  lemma CreateCpus(s: System, s1: System, p: nat)
    requires Shaped(s) && Shaped(s1) && CpusOk(s) && p in s1.tasks && p !in s.tasks && s1.tasks[p].state == Ready
    requires s1.tasks == s.tasks[p := s1.tasks[p]] && s1.current == s.current
    ensures CpusOk(Enqueue(s1, p))
  {
    assert forall q | q in s.tasks :: s.tasks[q].state == Ready || s.tasks[q].state == Running;
    hide CpusOk;
    SameCpus(s, Enqueue(s1, p));
  }

  /** The state in which the CPU has given its task back. */
  function Vacated(s: System, cpu: nat): (s': System)
    requires Shaped(s) && cpu < CPUS
    ensures Shaped(s')
  {
    PutBack(s, cpu).(current := s.current[cpu := None])
  }

  lemma VacateCpus(s: System, cpu: nat)
    requires Inv(s) && cpu < CPUS
    ensures CpusOk(Vacated(s, cpu))
  {
    hide QueuesOk;
    var s' := Vacated(s, cpu);
    forall q | q in s'.tasks && s'.tasks[q].state == Running ensures OnSomeCpu(s', q) {
      assert OnSomeCpu(s, q);
      var c: nat :| c < CPUS && s.current[c] == Some(q);
      assert s'.current[c] == Some(q);
    }
  }

  lemma VacateKeeps(s: System, cpu: nat)
    requires Inv(s) && cpu < CPUS
    ensures Inv(Vacated(s, cpu))
  {
    VacateCpus(s, cpu);
    var s' := Vacated(s, cpu);
    if s.current[cpu].Some? {
      var p := s.current[cpu].value;
      assert !Queued(s, p);
      EnqueueQueues(SetState(s, p, Ready), s, p);
      assert s'.queues == Enqueue(SetState(s, p, Ready), p).queues;
      SameQueues(Enqueue(SetState(s, p, Ready), p), s');
    } else {
      SameQueues(s, s');
    }
  }

  lemma SameQueues(s: System, s': System)
    requires Shaped(s) && Shaped(s') && QueuesOk(s) && s'.queues == s.queues && s'.tasks == s.tasks
    ensures QueuesOk(s')
  {
    forall p | p in s'.tasks && s'.tasks[p].state == Ready ensures Queued(s', p) { assert Queued(s, p); }
  }

  /** The running tasks stay on their CPUs when one CPU's current task changes from nothing to `p`. */
  lemma SwitchCpus(s: System, cpu: nat, p: nat)
    requires Shaped(s) && CpusOk(s) && cpu < CPUS && s.current[cpu].None? && p in s.tasks && s.tasks[p].state == Ready
    ensures CpusOk(Switch(s, cpu, p))
  {
    var s' := Switch(s, cpu, p);
    forall q | q in s'.tasks && s'.tasks[q].state == Running ensures OnSomeCpu(s', q) {
      if q == p {
        assert s'.current[cpu] == Some(p);
      } else {
        assert OnSomeCpu(s, q);
        var c: nat :| c < CPUS && s.current[c] == Some(q);
        assert s'.current[c] == Some(q);
      }
    }
  }

  lemma SwitchKeeps(s: System, cpu: nat, p: nat)
    requires Inv(s) && cpu < CPUS && s.current[cpu].None? && p in s.tasks && s.tasks[p].state == Ready
    ensures Inv(Switch(s, cpu, p))
  {
    hide QueuesOk, CpusOk;
    SwitchQueues(s, cpu, p);
    SwitchCpus(s, cpu, p);
  }

  lemma SwitchQueues(s: System, cpu: nat, p: nat)
    requires Shaped(s) && QueuesOk(s) && cpu < CPUS && p in s.tasks
    ensures QueuesOk(Switch(s, cpu, p))
  {
    var s' := Switch(s, cpu, p);
    forall b: nat | b < BANDS
      ensures Distinct(s'.queues[b]) && forall x :: x in s'.queues[b] <==> x in s.queues[b] && x != p
    {
      WithoutFacts(s.queues[b], p);
    }
    forall q | q in s'.tasks && s'.tasks[q].state == Ready ensures Queued(s', q) {
      assert Queued(s, q);
      var b: nat :| b < BANDS && q in s.queues[b];
      assert q in s'.queues[b];
    }
  }

  /** While some task is ready, one is picked. */
  lemma ReadyIsPicked(s: System, p: nat)
    requires Inv(s) && p in s.tasks && s.tasks[p].state == Ready
    ensures PickNext(s).Some?
  {
    assert Queued(s, p);
    var b: nat :| b < BANDS && p in s.queues[b];
    var _, _ := PickBelowMeaning(s, BANDS);
  }

  /** `schedule` in a partitioned state: vacate, then switch to the chosen task if there is one. */
  lemma ScheduleCases(s: System, cpu: nat)
    requires Inv(s) && cpu < CPUS
    ensures var v := Vacated(s, cpu);
            && (PickNext(v).None? ==> Schedule(s, cpu) == s && s.current[cpu].None?)
            && (PickNext(v).Some? ==> PickNext(v).value in v.tasks && v.tasks[PickNext(v).value].state == Ready
                                      && Schedule(s, cpu) == Switch(v, cpu, PickNext(v).value))
  {
    var v, s1 := Vacated(s, cpu), PutBack(s, cpu);
    VacateKeeps(s, cpu);
    SamePick(v, s1, BANDS);
    var band, k := PickBelowMeaning(v, BANDS);
    if s.current[cpu].Some? { ReadyIsPicked(v, s.current[cpu].value); }
    if PickNext(v).Some? {
      assert s1.current[cpu := Some(PickNext(v).value)] == v.current[cpu := Some(PickNext(v).value)];
    }
  }

  lemma {:induction false} SamePick(s: System, s': System, b: nat)
    requires Shaped(s) && Shaped(s') && s.tasks == s'.tasks && s.queues == s'.queues && b <= BANDS
    ensures PickBelow(s, b) == PickBelow(s', b)
  {
    if b > 0 { SamePick(s, s', b - 1); }
  }

  lemma ScheduleKeeps(s: System, cpu: nat)
    requires Inv(s) && cpu < CPUS
    ensures Inv(Schedule(s, cpu))
  {
    hide Schedule, Vacated, Switch, PickNext;
    ScheduleCases(s, cpu);
    VacateKeeps(s, cpu);
    var v := Vacated(s, cpu);
    assert v.current[cpu].None? by { VacatedEmpty(s, cpu); }
    if PickNext(v).Some? { SwitchKeeps(v, cpu, PickNext(v).value); }
  }

  lemma VacatedEmpty(s: System, cpu: nat)
    requires Shaped(s) && cpu < CPUS
    ensures Vacated(s, cpu).current[cpu].None?
  {
  }

  /** Changing a current task's accounting or priority leaves the partition alone. */
  lemma RetaskKeeps(s: System, p: nat, t: Task)
    requires Inv(s) && p in s.tasks && t.state == s.tasks[p].state
    ensures Inv(s.(tasks := s.tasks[p := t]))
  {
    var s' := s.(tasks := s.tasks[p := t]);
    assert forall q | q in s.tasks :: s.tasks[q].state == Ready || s.tasks[q].state == Running;
    RetaskQueues(s, s');
    hide QueuesOk, CpusOk;
    SameCpus(s, s');
  }

  lemma RetaskQueues(s: System, s': System)
    requires Shaped(s) && Shaped(s') && QueuesOk(s) && s'.queues == s.queues && s'.tasks.Keys == s.tasks.Keys
    requires forall q | q in s.tasks :: s'.tasks[q].state == s.tasks[q].state
    ensures QueuesOk(s')
  {
    forall q | q in s'.tasks && s'.tasks[q].state == Ready ensures Queued(s', q) {
      assert Queued(s, q);
      var b: nat :| b < BANDS && q in s.queues[b];
      assert q in s'.queues[b];
    }
  }

  lemma StepKeeps(s: System, op: Op)
    requires Inv(s) && OpOk(op)
    ensures Inv(Step(s, op))
  {
    match op
    case DoCreate(priority) => CreateKeeps(s, priority);
    case DoSchedule(cpu) => ScheduleKeeps(s, cpu);
    case DoTick(cpu) => TickKeeps(s, cpu);
    case DoBoost(cpu) => BoostKeeps(s, cpu);
  }

  lemma TickKeeps(s: System, cpu: nat)
    requires Inv(s) && cpu < CPUS
    ensures Inv(Tick(s, cpu))
  {
    hide Schedule, Delta;
    if s.current[cpu].None? {
      ScheduleKeeps(s, cpu);
    } else {
      var p := s.current[cpu].value;
      RetaskKeeps(s, p, Charge(s.tasks[p]));
      ScheduleKeeps(s.(tasks := s.tasks[p := Charge(s.tasks[p])]), cpu);
    }
  }

  lemma BoostKeeps(s: System, cpu: nat)
    requires Inv(s) && cpu < CPUS
    ensures Inv(Boost(s, cpu))
  {
    if s.current[cpu].Some? {
      var p := s.current[cpu].value;
      var t := s.tasks[p];
      RetaskKeeps(s, p, t.(priority := if t.priority + 2 < 15 then t.priority + 2 else 15));
    }
  }

  // ---------------------------------------------------------------- runs

  function Repeat<T>(x: T, n: nat): (r: seq<T>)
    ensures |r| == n && forall i | 0 <= i < n :: r[i] == x
  {
    if n == 0 then [] else [x] + Repeat(x, n - 1)
  }

  /** `sched_init`. */
  function Init(): (s: System)
    ensures Shaped(s)
  {
    System(map[], Repeat([], BANDS), Repeat(0, BANDS), Repeat(None, CPUS), 1)
  }

  lemma InitInv()
    ensures Inv(Init())
  {
    hide Repeat;
  }

  predicate OpsOk(ops: seq<Op>)
  {
    forall i | 0 <= i < |ops| :: OpOk(ops[i])
  }

  function Run(s: System, ops: seq<Op>): (s': System)
    requires Shaped(s) && OpsOk(ops)
    ensures Shaped(s')
  {
    if ops == [] then s else Step(Run(s, ops[..|ops| - 1]), ops[|ops| - 1])
  }

  lemma {:induction false} RunKeeps(s: System, ops: seq<Op>)
    requires Inv(s) && Shaped(s) && OpsOk(ops)
    ensures Inv(Run(s, ops))
  {
    hide Inv, Step;
    if ops != [] {
      RunKeeps(s, ops[..|ops| - 1]);
      StepKeeps(Run(s, ops[..|ops| - 1]), ops[|ops| - 1]);
    }
  }

  /** In every run of create, schedule, tick and priority boosts on all CPUs, ready tasks are on exactly one
      queue, running tasks on none and current on exactly one CPU. */
  lemma PartitionTheorem(ops: seq<Op>)
    requires OpsOk(ops)
    ensures Inv(Run(Init(), ops))
  {
    hide Inv, Init;
    InitInv();
    RunKeeps(Init(), ops);
  }

  /** In every run, the task `schedule` switches to was ready in the highest band with a ready task, had the
      least vruntime there, and came first among equals. */
  lemma ChoiceTheorem(ops: seq<Op>, cpu: nat) returns (band: nat, k: nat)
    requires OpsOk(ops) && cpu < CPUS
    ensures var s := Run(Init(), ops);
            var v, s' := Vacated(s, cpu), Schedule(s, cpu);
            if s'.current[cpu].None? then forall p | p in s'.tasks :: s'.tasks[p].state != Ready
            else
              && band < BANDS && Chosen(v.tasks, v.queues[band], k)
              && s'.current[cpu] == Some(v.queues[band][k])
              && forall b: nat | band < b < BANDS :: v.queues[b] == []
  {
    hide Inv, Run, Init, Schedule, Vacated, Chosen;
    PartitionTheorem(ops);
    band, k := ChoiceFrom(Run(Init(), ops), cpu);
  }

  lemma ChoiceFrom(s: System, cpu: nat) returns (band: nat, k: nat)
    requires Inv(s) && cpu < CPUS
    ensures var v, s' := Vacated(s, cpu), Schedule(s, cpu);
            if s'.current[cpu].None? then forall p | p in s'.tasks :: s'.tasks[p].state != Ready
            else
              && band < BANDS && Chosen(v.tasks, v.queues[band], k)
              && s'.current[cpu] == Some(v.queues[band][k])
              && forall b: nat | band < b < BANDS :: v.queues[b] == []
  {
    hide Schedule, Vacated, Chosen, CpusOk;
    var v := Vacated(s, cpu);
    ScheduleCases(s, cpu);
    VacateKeeps(s, cpu);
    band, k := PickBelowMeaning(v, BANDS);
    forall b: nat | b < BANDS && v.queues[b] != [] ensures !NoneReady(v.tasks, v.queues[b]) {
      assert v.queues[b][0] in v.queues[b];
    }
    forall p | p in v.tasks && v.tasks[p].state == Ready ensures PickNext(v).Some? {
      ReadyIsPicked(v, p);
    }
    if PickNext(v).None? { VacatedIdle(s, cpu); }
  }

  lemma VacatedIdle(s: System, cpu: nat)
    requires Shaped(s) && cpu < CPUS && s.current[cpu].None?
    ensures Vacated(s, cpu).tasks == s.tasks
  {
  }

  /** The per-band floor is never raised, so a task enters its queue with vruntime zero, below every task that
      has run, whatever the others have accumulated. */
  lemma NewTaskStartsAtZero(ops: seq<Op>, priority: nat)
    requires OpsOk(ops)
    ensures var s := Run(Init(), ops);
            var s' := Create(s, priority);
            s.nextPid in s'.tasks && s'.tasks[s.nextPid].vruntime == 0
  {
    PartitionTheorem(ops);
  }
}
