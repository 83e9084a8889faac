/** The system-call gate of kernel/syscall.c on one processor: scrubbing, the pledge mask and the in-progress flag. */
module Pledge {

  const USER_ADDR_MAX: bv64 := 0x0000_8000_0000_0000
  const NR_EXIT: bv64 := 2
  const NR_PLEDGE: bv64 := 53

  /** `scrub_arg`. */
  function Scrub(arg: bv64): bv64 { if arg >= USER_ADDR_MAX && arg != 0 then 0 else arg }

  /** `mask & (1ULL << nr)`. */
  function Allowed(mask: bv64, nr: bv64): bool
    requires nr < 64
  {
    mask & ((1 as bv64) << nr) != 0
  }

  /** The entries of the call table that are not empty. */
  function HasHandler(nr: bv64): bool
  {
    nr <= 2 || nr == 8 || nr == 17 || nr == 20 || (40 <= nr <= 53) || nr == 55 || (57 <= nr <= 59) || (61 <= nr <= 63)
  }

  datatype Where = User | Handler(nr: bv64) | Gone

  datatype Task = Task(pledged: bool, mask: bv64, at: Where)

  /** A handler that ran: for which task and which call. */
  datatype Entry = Entry(task: nat, nr: bv64)

  datatype Cpu = Cpu(flag: bool, tasks: seq<Task>, current: nat, served: seq<Entry>)

  datatype Event =
    | Call(nr: bv64, a1: bv64)     // the current task makes a system call
    | Finish                       // its handler comes to its end
    | SwitchTo(task: nat)          // the scheduler resumes a task

  datatype Reply = Accepted | NoSys | Killed

  /** What `nekros_syscall_dispatch` decides before any handler runs. */
  function Decide(flag: bool, t: Task, nr: bv64): Reply
  {
    if nr >= 64 || flag then NoSys
    else if t.pledged && !Allowed(t.mask, nr) then Killed
    else if !HasHandler(nr) then NoSys
    else Accepted
  }

  function Enter(t: Task, nr: bv64, a1: bv64): Task
  {
    if nr == NR_PLEDGE then Task(true, Scrub(a1), Handler(nr)) else t.(at := Handler(nr))
  }

  predicate Alive(t: Task) { t.at != Gone }

  /** Somebody else is there for the scheduler to pick. */
  predicate OtherAlive(c: Cpu) { exists j | 0 <= j < |c.tasks| :: j != c.current && Alive(c.tasks[j]) }

  /** A handler that comes to its end clears the flag.  `task_exit` does not come back when the scheduler finds another
      task; when it finds none it makes the exiting task current again and returns, to the handler or to the gate. */
  function Step(c: Cpu, e: Event): (d: Cpu)
    requires c.current < |c.tasks|
    ensures |d.tasks| == |c.tasks| && d.current < |d.tasks|
  {
    var i := c.current;
    var t := c.tasks[i];
    match e
    case Call(nr, a1) =>
      if t.at != User then c
      else
        (match Decide(c.flag, t, nr)
         case NoSys => c
         case Killed => if OtherAlive(c) then c.(tasks := c.tasks[i := t.(at := Gone)]) else c
         case Accepted =>
           Cpu(true, c.tasks[i := Enter(t, nr, a1)], i, c.served + [Entry(i, nr)]))
    case Finish =>
      if !t.at.Handler? then c
      else if t.at.nr == NR_EXIT && OtherAlive(c) then c.(tasks := c.tasks[i := t.(at := Gone)])
      else c.(flag := false, tasks := c.tasks[i := t.(at := User)])
    case SwitchTo(j) =>
      if j < |c.tasks| && c.tasks[j].at != Gone then c.(current := j) else c
  }

  function Run(c: Cpu, events: seq<Event>): (d: Cpu)
    requires c.current < |c.tasks|
    ensures |d.tasks| == |c.tasks| && d.current < |d.tasks|
  {
    if events == [] then c else Step(Run(c, events[..|events| - 1]), events[|events| - 1])
  }

  // ---------------------------------------------------------------- the mask

  /** Scrubbed masks have no bit from 47 up: whatever was asked for, calls 47 to 63 are out, the pledge itself
      among them. */
  lemma NoHighCalls(mask: bv64, nr: bv64)
    requires mask < USER_ADDR_MAX && 47 <= nr < 64
    ensures !Allowed(mask, nr)
  {
  }

  /** The mask asked for is the mask in force exactly when it is below 2^47; otherwise nothing at all is allowed. */
  lemma HonouredIff(mask: bv64, nr: bv64)
    requires nr < 64
    ensures Scrub(mask) == mask <==> mask < USER_ADDR_MAX
    ensures mask >= USER_ADDR_MAX ==> !Allowed(Scrub(mask), nr)
  {
  }

  ghost predicate Scrubbed(c: Cpu) { forall t <- c.tasks :: t.pledged ==> t.mask < USER_ADDR_MAX }

  lemma ScrubBelow(a: bv64)
    ensures Scrub(a) < USER_ADDR_MAX
  {
  }

  lemma StepScrubbed(c: Cpu, e: Event)
    requires c.current < |c.tasks| && Scrubbed(c)
    ensures Scrubbed(Step(c, e))
  {
    hide Allowed, HasHandler, Scrub;
    if e.Call? {
      ScrubBelow(e.a1);
    }
  }

  /** Between two states, a pledged task kept its mask, and every handler that ran for it was one the mask allows. */
  ghost predicate Held(c: Cpu, d: Cpu, i: nat)
    requires i < |c.tasks| == |d.tasks|
  {
    && d.tasks[i].pledged && d.tasks[i].mask == c.tasks[i].mask && c.served <= d.served
    && forall k | |c.served| <= k < |d.served| && d.served[k].task == i :: Permitted(c.tasks[i].mask, d.served[k].nr)
  }

  predicate Permitted(mask: bv64, nr: bv64) { nr < 47 && Allowed(mask, nr) }

  lemma HeldThen(c: Cpu, d: Cpu, e: Cpu, i: nat)
    requires i < |c.tasks| == |d.tasks| == |e.tasks| && Held(c, d, i) && Held(d, e, i)
    ensures Held(c, e, i)
  {
    hide Permitted;
  }

  /** One step leaves a pledged task's mask alone and enters a handler for it only if the mask allows it. */
  lemma StepPledged(c: Cpu, e: Event, i: nat)
    requires c.current < |c.tasks| && Scrubbed(c) && i < |c.tasks| && c.tasks[i].pledged
    ensures Held(c, Step(c, e), i)
  {
    hide Allowed, Step, Held;
    assert c.tasks[i] in c.tasks;
    if e.Call? {
      if 47 <= e.nr < 64 {
        NoHighCalls(c.tasks[i].mask, e.nr);
      }
      CallPledged(c, e.nr, e.a1, i);
    } else {
      QuietPledged(c, e, i);
    }
  }

  lemma QuietPledged(c: Cpu, e: Event, i: nat)
    requires c.current < |c.tasks| && i < |c.tasks| && c.tasks[i].pledged && !e.Call?
    ensures Held(c, Step(c, e), i)
  {
    hide Permitted, OtherAlive;
  }

  lemma CallPledged(c: Cpu, nr: bv64, a1: bv64, i: nat)
    requires c.current < |c.tasks| && i < |c.tasks| && c.tasks[i].pledged
    requires 47 <= nr < 64 ==> !Allowed(c.tasks[i].mask, nr)
    ensures Held(c, Step(c, Call(nr, a1)), i)
  {
    hide Allowed, HasHandler, Scrub, OtherAlive;
    var t := c.tasks[c.current];
    if t.at == User && Decide(c.flag, t, nr) == Accepted {
      assert i == c.current ==> Permitted(t.mask, nr) && nr != NR_PLEDGE;
    }
  }

  lemma {:induction false} RunScrubbed(c: Cpu, events: seq<Event>)
    requires c.current < |c.tasks| && Scrubbed(c)
    ensures Scrubbed(Run(c, events))
  {
    hide Step, Scrubbed;
    if events != [] {
      RunScrubbed(c, events[..|events| - 1]);
      StepScrubbed(Run(c, events[..|events| - 1]), events[|events| - 1]);
    }
  }

  /** Irreversible: from the first pledge on, through every run, the mask never changes and only handlers it
      allows run. */
  lemma {:induction false} PledgeTheorem(c: Cpu, events: seq<Event>, i: nat)
    requires c.current < |c.tasks| && Scrubbed(c) && i < |c.tasks| && c.tasks[i].pledged
    ensures Held(c, Run(c, events), i)
  {
    hide Step, Permitted, Scrubbed;
    if events != [] {
      var front, e := events[..|events| - 1], events[|events| - 1];
      PledgeTheorem(c, front, i);
      RunScrubbed(c, front);
      StepPledged(Run(c, front), e, i);
      HeldThen(c, Run(c, front), Run(c, events), i);
    }
  }

  // ---------------------------------------------------------------- the in-progress flag

  predicate InHandler(t: Task) { t.at.Handler? && t.at.nr != NR_EXIT }

  predicate InExit(t: Task) { t.at.Handler? && t.at.nr == NR_EXIT }

  /** Some handler other than exit is still to come to its end. */
  predicate Pending(c: Cpu) { exists j | 0 <= j < |c.tasks| :: InHandler(c.tasks[j]) }

  predicate Exiting(c: Cpu) { exists j | 0 <= j < |c.tasks| :: InExit(c.tasks[j]) }

  predicate SomeUser(c: Cpu) { exists j | 0 <= j < |c.tasks| :: c.tasks[j].at == User }

  /** Nothing is left that clears the flag: no handler but exit, and no exit that will find itself alone. */
  predicate Blocked(c: Cpu) { !Pending(c) && (Exiting(c) ==> SomeUser(c)) }

  /** From here on no handler ever runs on this processor again. */
  ghost predicate Stuck(c: Cpu)
    requires c.current < |c.tasks|
  {
    forall events :: Run(c, events).flag
  }

  lemma BlockedStep(c: Cpu, e: Event)
    requires c.current < |c.tasks| && c.flag && Blocked(c)
    ensures Step(c, e).flag && Blocked(Step(c, e)) && Step(c, e).served == c.served
  {
    hide Allowed, HasHandler, Scrub;
    var d := Step(c, e);
    var t := c.tasks[c.current];
    assert !InHandler(t);
    if e.Finish? && InExit(t) {
      var j :| 0 <= j < |c.tasks| && c.tasks[j].at == User;
      assert Alive(c.tasks[j]);
      assert d.tasks[j].at == User;
      forall k | 0 <= k < |d.tasks|
        ensures !InHandler(d.tasks[k])
      {
        assert !InHandler(c.tasks[k]);
      }
    } else {
      assert d.tasks == c.tasks;
    }
  }

  lemma {:induction false} BlockedRun(c: Cpu, events: seq<Event>)
    requires c.current < |c.tasks| && c.flag && Blocked(c)
    ensures Run(c, events).flag && Blocked(Run(c, events)) && Run(c, events).served == c.served
  {
    hide Step, Blocked;
    if events != [] {
      BlockedRun(c, events[..|events| - 1]);
      BlockedStep(Run(c, events[..|events| - 1]), events[|events| - 1]);
    }
  }

  lemma {:induction false} RunConcat(c: Cpu, xs: seq<Event>, ys: seq<Event>)
    requires c.current < |c.tasks|
    ensures Run(c, xs + ys) == Run(Run(c, xs), ys)
  {
    hide Step;
    if ys == [] {
      assert xs + ys == xs;
    } else {
      RunConcat(c, xs, ys[..|ys| - 1]);
      assert (xs + ys)[..|xs + ys| - 1] == xs + ys[..|ys| - 1];
    }
  }

  lemma RunTwo(c: Cpu, e: Event, f: Event)
    requires c.current < |c.tasks|
    ensures Run(c, [e, f]) == Step(Step(c, e), f)
  {
    hide Step;
    assert [e, f][..1] == [e] && [e][..0] == [];
    assert Run(c, []) == c;
    assert Run(c, [e]) == Step(c, e);
  }

  function Count(tasks: seq<Task>): nat
  {
    if tasks == [] then 0 else Count(tasks[..|tasks| - 1]) + (if Alive(tasks[|tasks| - 1]) then 1 else 0)
  }

  lemma {:induction false} CountDrops(tasks: seq<Task>, i: nat)
    requires i < |tasks| && Alive(tasks[i])
    ensures Count(tasks[i := tasks[i].(at := Gone)]) < Count(tasks)
  {
    var n, gone := |tasks| - 1, tasks[i].(at := Gone);
    if i < n {
      CountDrops(tasks[..n], i);
      assert tasks[i := gone][..n] == tasks[..n][i := gone];
    } else {
      assert tasks[i := gone][..n] == tasks[..n];
    }
  }

  /** Exits with nobody else around end one after the other until the last one finds itself alone and clears
      the flag. */
  lemma {:induction false} Drain(c: Cpu) returns (events: seq<Event>)
    requires c.current < |c.tasks| && !Pending(c) && Exiting(c) && !SomeUser(c)
    ensures !Run(c, events).flag
    decreases Count(c.tasks)
  {
    var j :| 0 <= j < |c.tasks| && InExit(c.tasks[j]);
    var d := Step(c, SwitchTo(j));
    var e := Step(d, Finish);
    RunTwo(c, SwitchTo(j), Finish);
    events := [SwitchTo(j), Finish];
    if OtherAlive(d) {
      var k :| 0 <= k < |d.tasks| && k != d.current && Alive(d.tasks[k]);
      assert !InHandler(c.tasks[k]) && c.tasks[k].at != User;
      assert InExit(e.tasks[k]);
      forall m | 0 <= m < |e.tasks|
        ensures !InHandler(e.tasks[m]) && e.tasks[m].at != User
      {
        assert !InHandler(c.tasks[m]) && c.tasks[m].at != User;
      }
      CountDrops(c.tasks, j);
      var rest := Drain(e);
      RunConcat(c, events, rest);
      events := events + rest;
    }
  }

  /** A set flag is never cleared again if and only if no handler but exit is unfinished and no exit will find
      itself alone. */
  lemma StuckIff(c: Cpu)
    requires c.current < |c.tasks| && c.flag
    ensures Stuck(c) <==> Blocked(c)
  {
    if Pending(c) {
      var j :| 0 <= j < |c.tasks| && InHandler(c.tasks[j]);
      RunTwo(c, SwitchTo(j), Finish);
      assert !Run(c, [SwitchTo(j), Finish]).flag;
    } else if Exiting(c) && !SomeUser(c) {
      var events := Drain(c);
      assert !Run(c, events).flag;
    } else {
      forall events
        ensures Run(c, events).flag
      {
        BlockedRun(c, events);
      }
    }
  }

  /** Some other task is in user mode. */
  predicate OtherUser(c: Cpu) { exists j | 0 <= j < |c.tasks| :: j != c.current && c.tasks[j].at == User }

  /** A task that exits through the gate, the flag being clear: alone, it comes back to user mode with the flag
      clear; with another task there it is gone and the flag stays set, and its processor then refuses every
      later call if and only if some other task is in user mode and no other handler is unfinished. */
  lemma ExitIff(c: Cpu, a1: bv64)
    requires c.current < |c.tasks| && c.tasks[c.current].at == User
    requires Decide(c.flag, c.tasks[c.current], NR_EXIT) == Accepted
    ensures var d := Step(Step(c, Call(NR_EXIT, a1)), Finish);
            && (!OtherAlive(c) ==> d.tasks == c.tasks && !d.flag)
            && (OtherAlive(c) ==>
                  d.tasks[c.current].at == Gone && d.flag && (Stuck(d) <==> OtherUser(c) && !Pending(c)))
  {
    hide Allowed, HasHandler, Scrub;
    var i := c.current;
    var b := Step(c, Call(NR_EXIT, a1));
    var d := Step(b, Finish);
    assert b.tasks == c.tasks[i := c.tasks[i].(at := Handler(NR_EXIT))];
    SameOthers(c, b);
    if OtherAlive(c) {
      assert d.tasks == c.tasks[i := c.tasks[i].(at := Gone)];
      StuckIff(d);
      SameOthers(c, d);
      GoneBlocked(c, d);
    } else {
      assert d.tasks == c.tasks[i := c.tasks[i]];
    }
  }

  lemma SameOthers(c: Cpu, d: Cpu)
    requires |c.tasks| == |d.tasks| && c.current == d.current
    requires forall j | 0 <= j < |c.tasks| && j != c.current :: c.tasks[j] == d.tasks[j]
    ensures OtherAlive(c) == OtherAlive(d) && OtherUser(c) == OtherUser(d)
  {
  }

  lemma GoneBlocked(c: Cpu, d: Cpu)
    requires c.current < |c.tasks| == |d.tasks| && c.current == d.current && c.tasks[c.current].at == User
    requires d.tasks == c.tasks[c.current := c.tasks[c.current].(at := Gone)] && OtherAlive(c)
    ensures Blocked(d) <==> OtherUser(c) && !Pending(c)
  {
    if Pending(c) {
      var j :| 0 <= j < |c.tasks| && InHandler(c.tasks[j]);
      assert InHandler(d.tasks[j]);
    } else {
      forall j | 0 <= j < |d.tasks|
        ensures !InHandler(d.tasks[j])
      {
        assert !InHandler(c.tasks[j]);
      }
      if OtherUser(c) {
        var j :| 0 <= j < |c.tasks| && j != c.current && c.tasks[j].at == User;
        assert d.tasks[j].at == User;
      } else {
        var j :| 0 <= j < |c.tasks| && j != c.current && Alive(c.tasks[j]);
        assert !InHandler(c.tasks[j]) && InExit(d.tasks[j]);
        assert forall k | 0 <= k < |d.tasks| :: d.tasks[k].at != User;
      }
    }
  }

  /** The only task there is, calling exit, goes on running and may call again. */
  lemma LoneExitReturns(t: Task, a1: bv64)
    requires t.at == User && !t.pledged
    ensures var c := Cpu(false, [t], 0, []);
            Step(Step(c, Call(NR_EXIT, a1)), Finish) == Cpu(false, [t], 0, [Entry(0, NR_EXIT)])
  {
    var c := Cpu(false, [t], 0, []);
    ExitIff(c, a1);
    assert !OtherAlive(c);
  }

  /** A call the mask forbids ends the task if and only if there is another one to run; otherwise the task goes on. */
  lemma KillIff(c: Cpu, nr: bv64, a1: bv64)
    requires c.current < |c.tasks| && c.tasks[c.current].at == User && Decide(c.flag, c.tasks[c.current], nr) == Killed
    ensures var d := Step(c, Call(nr, a1)); d.served == c.served && (d.tasks[c.current].at == Gone <==> OtherAlive(c))
  {
  }
}
