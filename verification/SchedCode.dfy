/** The code of kernel/sched.c as it runs: list links, task fields and current pointers changed in place. */
module SchedCode {
  import opened RunLists
  import opened Sched

  class Scheduler {
    const rq: RunQueues
    var tasks: map<nat, Task>
    var floors: seq<nat>
    var current: seq<Option<nat>>
    var nextPid: nat

    /** The state as a value. */
    ghost function State(): System
      reads this, rq
    {
      System(tasks, rq.lists, floors, current, nextPid)
    }

    ghost predicate Linked()
      reads this, rq
    {
      Shaped(State()) && rq.Valid()
    }

    ghost predicate Valid()
      reads this, rq
    {
      Inv(State()) && rq.Valid()
    }

    constructor ()
      ensures Valid() && State() == Init() && fresh(rq)
    {
      rq := new RunQueues();
      tasks, floors, current, nextPid := map[], Repeat(0, BANDS), Repeat(None, CPUS), 1;
      new;
      hide Inv, Circles;
      assert rq.Valid();
      assert State() == Init();
      InitInv();
    }

    method Enqueue(p: nat)
      requires Linked() && p in tasks && !Queued(State(), p)
      modifies this, rq
      ensures Linked() && State() == Sched.Enqueue(old(State()), p)
    {
      var t := tasks[p];
      var b := if t.priority < 15 then t.priority else 15;
      if t.vruntime == 0 {
        tasks := tasks[p := t.(vruntime := floors[b])];
      }
      rq.AddTail(b, p);
      assert t.vruntime != 0 ==> tasks[p := t] == tasks;
    }

    method Dequeue(p: nat)
      requires Linked() && Queued(State(), p)
      modifies this, rq
      ensures Linked() && State() == Sched.Dequeue(old(State()), p)
    {
      rq.Delete(p);
    }

    /** One band: `list_for_each` from the head round to the head. */
    method ScanBand(b: nat) returns (best: Option<nat>)
      requires Linked() && b < BANDS
      ensures best == BestOf(tasks, rq.lists[b])
    {
      ghost var i, q := 0, rq.lists[b];
      CircleNext(rq.next, rq.prev, b, q, 0);
      best := None;
      var pos := rq.next[Head(b)];
      while pos != Head(b)
        invariant i <= |q| && pos == At(b, q, i + 1) && best == BestOf(tasks, q[..i])
        decreases |q| - i
      {
        var p := pos.pid;
        CircleNext(rq.next, rq.prev, b, q, i + 1);
        assert q[..i + 1][..i] == q[..i] && q[..i + 1][i] == p;
        if p in tasks && tasks[p].state == Ready && (best.None? || tasks[p].vruntime < tasks[best.value].vruntime) {
          best := Some(p);
        }
        pos := rq.next[pos];
        i := i + 1;
      }
      assert q[..i] == q;
    }

    /** `pick_next`: bands from highest to lowest. */
    method PickNext() returns (next: Option<nat>)
      requires Linked()
      ensures next == Sched.PickNext(State())
    {
      var b := BANDS;
      while b > 0
        invariant 0 <= b <= BANDS
        invariant Sched.PickNext(State()) == PickBelow(State(), b)
      {
        b := b - 1;
        var best := ScanBand(b);
        if best.Some? { return best; }
      }
      return None;
    }

    method Schedule(cpu: nat)
      requires Valid() && cpu < CPUS
      modifies this, rq
      ensures Valid() && State() == Sched.Schedule(old(State()), cpu)
    {
      hide Inv, Sched.Enqueue, Sched.PickNext;
      ScheduleKeeps(State(), cpu);
      ghost var s0 := State();
      assert Shaped(State()) by { InvShaped(State()); }
      var prev := current[cpu];
      if prev.Some? && prev.value in tasks && tasks[prev.value].state == Running {
        RunningOff(State(), prev.value);
        tasks := tasks[prev.value := tasks[prev.value].(state := Ready)];
        Enqueue(prev.value);
      }
      ghost var s1 := State();
      assert s1 == PutBack(s0, cpu);
      var next := PickNext();
      if next.None? {
        if prev.Some? && prev.value in tasks {
          tasks := tasks[prev.value := tasks[prev.value].(state := Running)];
        }
        return;
      }
      var p := next.value;
      if p in tasks {
        PickedOn(s1);
        Dequeue(p);
        tasks := tasks[p := tasks[p].(state := Running, onCpu := cpu, slice := SLICE_NS)];
        current := current[cpu := Some(p)];
        assert State() == Switch(s1, cpu, p);
      }
    }

    method Tick(cpu: nat)
      requires Valid() && cpu < CPUS
      modifies this, rq
      ensures Valid() && State() == Sched.Tick(old(State()), cpu)
    {
      hide Inv, Sched.Schedule, Delta;
      TickKeeps(State(), cpu);
      InvShaped(State());
      var cur := current[cpu];
      CurrentRuns(State(), cpu);
      if cur.None? {
        Schedule(cpu);
        return;
      }
      var p := cur.value;
      var t := tasks[p];
      RetaskKeeps(State(), p, Charge(t));
      tasks := tasks[p := t.(cpuTime := t.cpuTime + TICK_NS, vruntime := t.vruntime + Delta(t, TICK_NS),
                             slice := if t.slice > TICK_NS then t.slice - TICK_NS else 0)];
      if !(t.slice > TICK_NS) { Schedule(cpu); }
    }

    method Create(priority: nat) returns (pid: nat)
      requires Valid()
      modifies this, rq
      ensures Valid() && State() == Sched.Create(old(State()), priority) && pid == old(nextPid) && pid !in old(tasks)
    {
      hide Inv, Sched.Enqueue;
      CreateKeeps(State(), priority);
      InvShaped(State());
      pid := nextPid;
      FreshPid(State());
      FreshOff(State(), pid);
      nextPid := nextPid + 1;
      var prio := if priority < 15 then priority else 15;
      tasks := tasks[pid := Task(Ready, prio, 0, WEIGHTS[prio], 0, 0, 0)];
      Enqueue(pid);
    }
  }

  lemma InvShaped(s: System)
    requires Inv(s)
    ensures Shaped(s)
  {
  }

  lemma CurrentRuns(s: System, cpu: nat)
    requires Inv(s) && cpu < CPUS
    ensures s.current[cpu].Some? ==> s.current[cpu].value in s.tasks
  {
  }

  lemma FreshPid(s: System)
    requires Inv(s)
    ensures s.nextPid !in s.tasks
  {
  }

  lemma RunningOff(s: System, p: nat)
    requires Inv(s) && p in s.tasks && s.tasks[p].state == Running
    ensures !Queued(s, p)
  {
  }

  lemma FreshOff(s: System, p: nat)
    requires Inv(s) && p !in s.tasks
    ensures !Queued(s, p)
  {
  }

  lemma PickedOn(s: System)
    requires Shaped(s)
    ensures Sched.PickNext(s).Some? ==> Queued(s, Sched.PickNext(s).value)
  {
    var _, _ := PickBelowMeaning(s, BANDS);
  }
}
