/**
 The ticket spinlock of include/nekros/types.h as interleaved steps.  A step is one atomic access of
 one thread; `owner` and `next` are 16-bit counters that wrap.  What the code decides, it decides on the
 wrapped values; the history beside it numbers tickets without wrapping.
 */
module TicketLock {

  const WRAP: nat := 65536

  /** The 16-bit value of an unbounded counter. */
  function U16(n: nat): nat { n % WRAP }

  /** Where a thread stands in `spin_lock`, `spin_unlock` or `spin_trylock`, with its 16-bit locals. */
  datatype Pc = Idle | Spinning(ticket: nat) | Holding | TryLoaded(t: nat) | TryReady(t: nat)

  datatype State = State(owner: nat, next: nat, pc: map<nat, Pc>)

  datatype Step =
    | FetchTicket(tid: nat)    // spin_lock: ticket = next++
    | SpinLoad(tid: nat)       // spin_lock: one load of owner
    | Release(tid: nat)        // spin_unlock: owner++
    | TryLoadNext(tid: nat)    // spin_trylock: t = next
    | TryLoadOwner(tid: nat)   // spin_trylock: o = owner, fail unless t == o
    | TryCas(tid: nat)         // spin_trylock: compare-exchange next from t to t + 1

  predicate Enabled(s: State, step: Step)
  {
    && step.tid in s.pc
    && match step
       case FetchTicket(i) => s.pc[i].Idle?
       case SpinLoad(i) => s.pc[i].Spinning?
       case Release(i) => s.pc[i].Holding?
       case TryLoadNext(i) => s.pc[i].Idle?
       case TryLoadOwner(i) => s.pc[i].TryLoaded?
       case TryCas(i) => s.pc[i].TryReady?
  }

  function Apply(s: State, step: Step): State
    requires Enabled(s, step)
  {
    match step
    case FetchTicket(i) => s.(next := U16(s.next + 1), pc := s.pc[i := Spinning(s.next)])
    case SpinLoad(i) => if s.owner == s.pc[i].ticket then s.(pc := s.pc[i := Holding]) else s
    case Release(i) => s.(owner := U16(s.owner + 1), pc := s.pc[i := Idle])
    case TryLoadNext(i) => s.(pc := s.pc[i := TryLoaded(s.next)])
    case TryLoadOwner(i) => s.(pc := s.pc[i := if s.pc[i].t == s.owner then TryReady(s.pc[i].t) else Idle])
    case TryCas(i) =>
      if s.next == s.pc[i].t then s.(next := U16(s.pc[i].t + 1), pc := s.pc[i := Holding])
      else s.(pc := s.pc[i := Idle])
  }

  function Init(threads: set<nat>): State
  {
    State(0, 0, map i | i in threads :: Idle)
  }

  // ---------------------------------------------------------------- history

  /** Tickets issued and served so far, the number of each outstanding ticket, how many tickets had been
      issued when a trylock loaded `next`, and the numbers of the tickets granted, in order. */
  datatype History = History(issued: nat, served: nat, turn: map<nat, nat>, seen: map<nat, nat>, grants: seq<nat>)

  const FRESH: History := History(0, 0, map[], map[], [])

  function Record(s: State, h: History, step: Step): History
    requires Enabled(s, step)
  {
    match step
    case FetchTicket(i) => h.(issued := h.issued + 1, turn := h.turn[i := h.issued])
    case SpinLoad(i) =>
      if s.owner == s.pc[i].ticket && i in h.turn then h.(grants := h.grants + [h.turn[i]]) else h
    case Release(i) => h.(served := h.served + 1, turn := h.turn - {i})
    case TryLoadNext(i) => h.(seen := h.seen[i := h.issued])
    case TryLoadOwner(i) => h
    case TryCas(i) =>
      if s.next == s.pc[i].t
      then h.(issued := h.issued + 1, turn := h.turn[i := h.issued], grants := h.grants + [h.issued])
      else h
  }

  /** The trylock's compare-exchange comes before the ticket counter wraps around since its load. */
  predicate Timely(h: History, step: Step)
  {
    step.TryCas? && step.tid in h.seen ==> h.issued < h.seen[step.tid] + WRAP
  }

  // ---------------------------------------------------------------- counting

  ghost predicate Injective(m: map<nat, nat>)
  {
    forall i, j | i in m && j in m && i != j :: m[i] != m[j]
  }

  ghost predicate Ranges(m: map<nat, nat>, lo: nat, hi: nat)
  {
    forall i | i in m :: lo <= m[i] < hi
  }

  lemma {:induction false} InjectiveBound(m: map<nat, nat>, lo: nat, hi: nat)
    requires lo <= hi && Injective(m) && Ranges(m, lo, hi)
    ensures |m| <= hi - lo
    decreases hi - lo
  {
    if lo < hi {
      if i :| i in m && m[i] == hi - 1 {
        var m' := m - {i};
        assert m'.Keys == m.Keys - {i};
        InjectiveBound(m', lo, hi - 1);
      } else {
        InjectiveBound(m, lo, hi - 1);
      }
    } else {
      assert m.Keys == {};
    }
  }

  /** As many distinct numbers as there are places: the first place is taken. */
  lemma FirstTaken(m: map<nat, nat>, lo: nat, hi: nat) returns (i: nat)
    requires lo < hi && Injective(m) && Ranges(m, lo, hi) && |m| == hi - lo
    ensures i in m && m[i] == lo
  {
    if forall j | j in m :: m[j] != lo {
      InjectiveBound(m, lo + 1, hi);
      assert false;
    }
    i :| i in m && m[i] == lo;
  }

  lemma SubsetSize(a: set<nat>, b: set<nat>)
    requires a <= b
    ensures |a| <= |b| && (a != b ==> |a| < |b|)
  {
    if a != b {
      assert |b - a| + |a| == |b|;
      var x :| x in b - a;
      assert |b - a| > 0;
    } else {
    }
  }

  // ---------------------------------------------------------------- the invariant

  ghost predicate ThreadOk(s: State, h: History, i: nat)
    requires i in s.pc
  {
    match s.pc[i]
    case Idle => i !in h.turn
    case Spinning(ticket) => i in h.turn && ticket == U16(h.turn[i])
    case Holding => i in h.turn && h.turn[i] == h.served
    case TryLoaded(t) => i !in h.turn && i in h.seen && h.seen[i] <= h.issued && t == U16(h.seen[i])
    case TryReady(t) =>
      && i !in h.turn && i in h.seen && h.seen[i] <= h.issued && t == U16(h.seen[i])
      && (h.seen[i] <= h.served || h.seen[i] + WRAP <= h.issued)
  }

  ghost predicate ThreadsOk(s: State, h: History)
  {
    forall i | i in s.pc :: ThreadOk(s, h, i)
  }

  ghost predicate Held(s: State) { exists i :: i in s.pc && s.pc[i].Holding? }

  /** The wrapped counters are the true ones, and there are few enough threads. */
  ghost predicate Counters(s: State, h: History)
  {
    |s.pc.Keys| <= WRAP && s.owner == U16(h.served) && s.next == U16(h.issued) && h.served <= h.issued
  }

  /** The outstanding tickets are the numbers from `served` up to `issued`, one thread each. */
  ghost predicate Turns(s: State, h: History)
  {
    && h.turn.Keys <= s.pc.Keys
    && Injective(h.turn) && Ranges(h.turn, h.served, h.issued) && |h.turn| == h.issued - h.served
  }

  /** Tickets were granted in the order of their numbers. */
  ghost predicate Granted(s: State, h: History)
  {
    && |h.grants| == h.served + (if Held(s) then 1 else 0)
    && (forall k | 0 <= k < |h.grants| :: h.grants[k] == k)
  }

  ghost predicate Inv(s: State, h: History)
  {
    Counters(s, h) && Turns(s, h) && ThreadsOk(s, h) && Granted(s, h)
  }

  lemma SameResidue(a: nat, b: nat)
    requires a <= b < a + WRAP && U16(a) == U16(b)
    ensures a == b
  {
  }

  lemma WrapNext(a: nat)
    ensures U16(U16(a) + 1) == U16(a + 1)
  {
  }

  lemma AddTurn(m: map<nat, nat>, i: nat, lo: nat, hi: nat)
    requires i !in m && Injective(m) && Ranges(m, lo, hi) && lo <= hi
    ensures Injective(m[i := hi]) && Ranges(m[i := hi], lo, hi + 1) && |m[i := hi]| == |m| + 1
  {
    assert m[i := hi].Keys == m.Keys + {i};
  }

  lemma DropTurn(m: map<nat, nat>, i: nat, lo: nat, hi: nat)
    requires i in m && m[i] == lo && Injective(m) && Ranges(m, lo, hi)
    ensures Injective(m - {i}) && Ranges(m - {i}, lo + 1, hi) && |m - {i}| == |m| - 1
  {
    assert (m - {i}).Keys == m.Keys - {i};
  }

  /** At most one thread holds the lock, and it holds the ticket being served. */
  lemma OneHolder(s: State, h: History, i: nat, j: nat)
    requires Inv(s, h) && i in s.pc && j in s.pc && s.pc[i].Holding? && s.pc[j].Holding?
    ensures i == j
  {
    assert ThreadOk(s, h, i) && ThreadOk(s, h, j);
  }

  /** Outstanding tickets are bounded by the threads that can hold one. */
  lemma Outstanding(s: State, h: History, i: nat)
    requires Inv(s, h) && i in s.pc
    ensures h.issued - h.served <= WRAP
    ensures i !in h.turn ==> h.issued - h.served < WRAP
  {
    SubsetSize(h.turn.Keys, s.pc.Keys);
  }

  lemma FetchTurns(s: State, h: History, i: nat)
    requires Counters(s, h) && Turns(s, h) && Enabled(s, FetchTicket(i)) && i !in h.turn
    ensures var s', h' := Apply(s, FetchTicket(i)), Record(s, h, FetchTicket(i)); Counters(s', h') && Turns(s', h')
  {
    hide Injective, Ranges, U16;
    WrapNext(h.issued);
    AddTurn(h.turn, i, h.served, h.issued);
    assert Apply(s, FetchTicket(i)).pc.Keys == s.pc.Keys;
  }

  lemma FetchKeeps(s: State, h: History, i: nat)
    requires Inv(s, h) && Enabled(s, FetchTicket(i))
    ensures Inv(Apply(s, FetchTicket(i)), Record(s, h, FetchTicket(i)))
  {
    var s', h' := Apply(s, FetchTicket(i)), Record(s, h, FetchTicket(i));
    assert ThreadOk(s, h, i);
    FetchTurns(s, h, i);
    FetchThreads(s, h, i);
    hide Turns, ThreadOk, Counters, Held;
    SameHeld(s, s', i);
  }

  lemma FetchThreads(s: State, h: History, i: nat)
    requires Counters(s, h) && ThreadsOk(s, h) && Enabled(s, FetchTicket(i))
    ensures ThreadsOk(Apply(s, FetchTicket(i)), Record(s, h, FetchTicket(i)))
  {
    hide U16;
    var s', h' := Apply(s, FetchTicket(i)), Record(s, h, FetchTicket(i));
    forall j | j in s'.pc ensures ThreadOk(s', h', j) { assert ThreadOk(s, h, j); }
  }

  lemma SameHeld(s: State, s': State, i: nat)
    requires i in s.pc && i in s'.pc && s'.pc == s.pc[i := s'.pc[i]] && s.pc[i].Holding? == s'.pc[i].Holding?
    ensures Held(s) == Held(s')
  {
    if j :| j in s.pc && s.pc[j].Holding? { assert s'.pc[j].Holding?; }
    if j :| j in s'.pc && s'.pc[j].Holding? { assert s.pc[j].Holding?; }
  }

  /** Ticket number `served` goes to `i`, which either spun for it or takes the next one on the spot. */
  ghost predicate Grants(s: State, h: History, s': State, h': History, i: nat)
  {
    && i in s.pc && !s.pc[i].Holding? && s'.pc == s.pc[i := Holding] && s'.owner == s.owner
    && h'.served == h.served && h'.seen == h.seen && h'.grants == h.grants + [h.served]
    && i in h'.turn && h'.turn[i] == h.served
    && if i in h.turn then h'.turn == h.turn && h'.issued == h.issued && s'.next == s.next
       else h'.turn == h.turn[i := h.issued] && h'.issued == h.issued + 1 && s'.next == U16(s.next + 1)
  }

  lemma GrantTurns(s: State, h: History, s': State, h': History, i: nat)
    requires Counters(s, h) && Turns(s, h) && Grants(s, h, s', h', i)
    ensures Counters(s', h') && Turns(s', h')
  {
    hide Injective, Ranges, U16;
    WrapNext(h.issued);
    if i !in h.turn { AddTurn(h.turn, i, h.served, h.issued); }
    assert s'.pc.Keys == s.pc.Keys;
  }

  /** When the ticket being served belongs to `i`, nobody else holds the lock. */
  lemma NoneHeld(s: State, h: History, i: nat)
    requires Inv(s, h) && i in s.pc && !s.pc[i].Holding?
    requires if i in h.turn then h.turn[i] == h.served else h.issued == h.served
    ensures !Held(s)
  {
    forall j | j in s.pc ensures !s.pc[j].Holding? { assert ThreadOk(s, h, j); }
  }

  lemma GrantKeeps(s: State, h: History, s': State, h': History, i: nat)
    requires Inv(s, h) && Grants(s, h, s', h', i)
    ensures Inv(s', h')
  {
    NoneHeld(s, h, i);
    GrantTurns(s, h, s', h', i);
    hide Turns, Counters;
    assert ThreadsOk(s', h') by {
      forall j | j in s'.pc ensures ThreadOk(s', h', j) { assert ThreadOk(s, h, j); }
    }
    assert s'.pc[i].Holding?;
  }

  lemma SpinKeeps(s: State, h: History, i: nat)
    requires Inv(s, h) && Enabled(s, SpinLoad(i))
    ensures Inv(Apply(s, SpinLoad(i)), Record(s, h, SpinLoad(i)))
  {
    if s.owner == s.pc[i].ticket {
      assert ThreadOk(s, h, i);
      Outstanding(s, h, i);
      SameResidue(h.served, h.turn[i]);
      GrantKeeps(s, h, Apply(s, SpinLoad(i)), Record(s, h, SpinLoad(i)), i);
    }
  }

  lemma ReleaseTurns(s: State, h: History, i: nat)
    requires Counters(s, h) && Turns(s, h) && Enabled(s, Release(i)) && i in h.turn && h.turn[i] == h.served
    ensures var s', h' := Apply(s, Release(i)), Record(s, h, Release(i)); Counters(s', h') && Turns(s', h')
  {
    assert h.served < h.issued;
    hide Injective, Ranges, U16;
    WrapNext(h.served);
    DropTurn(h.turn, i, h.served, h.issued);
    assert Apply(s, Release(i)).pc.Keys == s.pc.Keys;
  }

  lemma ReleaseKeeps(s: State, h: History, i: nat)
    requires Inv(s, h) && Enabled(s, Release(i))
    ensures Inv(Apply(s, Release(i)), Record(s, h, Release(i)))
  {
    var s', h' := Apply(s, Release(i)), Record(s, h, Release(i));
    assert ThreadOk(s, h, i) && Held(s);
    ReleaseTurns(s, h, i);
    ReleaseThreads(s, h, i);
    hide Turns, ThreadsOk, Counters, Held;
  }

  lemma ReleaseThreads(s: State, h: History, i: nat)
    requires Inv(s, h) && Enabled(s, Release(i))
    ensures ThreadsOk(Apply(s, Release(i)), Record(s, h, Release(i))) && !Held(Apply(s, Release(i)))
  {
    hide Injective, Ranges, Granted, U16;
    var s', h' := Apply(s, Release(i)), Record(s, h, Release(i));
    forall j | j in s'.pc ensures ThreadOk(s', h', j) && !s'.pc[j].Holding? {
      assert ThreadOk(s, h, j);
      if s.pc[j].Holding? { OneHolder(s, h, i, j); }
    }
  }

  lemma TryNextKeeps(s: State, h: History, i: nat)
    requires Inv(s, h) && Enabled(s, TryLoadNext(i))
    ensures Inv(Apply(s, TryLoadNext(i)), Record(s, h, TryLoadNext(i)))
  {
    var s', h' := Apply(s, TryLoadNext(i)), Record(s, h, TryLoadNext(i));
    assert s'.pc.Keys == s.pc.Keys;
    forall j | j in s'.pc ensures ThreadOk(s', h', j) { assert ThreadOk(s, h, j); }
    SameHeld(s, s', i);
  }

  lemma TryOwnerKeeps(s: State, h: History, i: nat)
    requires Inv(s, h) && Enabled(s, TryLoadOwner(i))
    ensures Inv(Apply(s, TryLoadOwner(i)), Record(s, h, TryLoadOwner(i)))
  {
    var s', h' := Apply(s, TryLoadOwner(i)), Record(s, h, TryLoadOwner(i));
    assert ThreadOk(s, h, i);
    Outstanding(s, h, i);
    if s.pc[i].t == s.owner && h.served <= h.seen[i] { SameResidue(h.served, h.seen[i]); }
    assert s'.pc.Keys == s.pc.Keys;
    forall j | j in s'.pc ensures ThreadOk(s', h', j) { assert ThreadOk(s, h, j); }
    SameHeld(s, s', i);
  }

  lemma TryCasKeeps(s: State, h: History, i: nat)
    requires Inv(s, h) && Enabled(s, TryCas(i)) && Timely(h, TryCas(i))
    ensures Inv(Apply(s, TryCas(i)), Record(s, h, TryCas(i)))
  {
    if s.next == s.pc[i].t {
      var s', h' := Apply(s, TryCas(i)), Record(s, h, TryCas(i));
      assert ThreadOk(s, h, i);
      SameResidue(h.seen[i], h.issued);
      GrantKeeps(s, h, s', h', i);
    } else {
      TryCasFails(s, h, i);
    }
  }

  /** Another ticket went out since the load: the exchange changes nothing. */
  lemma TryCasFails(s: State, h: History, i: nat)
    requires Inv(s, h) && Enabled(s, TryCas(i)) && s.next != s.pc[i].t
    ensures Inv(Apply(s, TryCas(i)), Record(s, h, TryCas(i)))
  {
    var s', h' := Apply(s, TryCas(i)), Record(s, h, TryCas(i));
    assert ThreadOk(s, h, i);
    assert s'.pc.Keys == s.pc.Keys;
    forall j | j in s'.pc ensures ThreadOk(s', h', j) { assert ThreadOk(s, h, j); }
    SameHeld(s, s', i);
  }

  lemma StepKeeps(s: State, h: History, step: Step)
    requires Inv(s, h) && Enabled(s, step) && Timely(h, step)
    ensures Inv(Apply(s, step), Record(s, h, step))
  {
    hide Inv, Apply, Record;
    match step
    case FetchTicket(i) => FetchKeeps(s, h, i);
    case SpinLoad(i) => SpinKeeps(s, h, i);
    case Release(i) => ReleaseKeeps(s, h, i);
    case TryLoadNext(i) => TryNextKeeps(s, h, i);
    case TryLoadOwner(i) => TryOwnerKeeps(s, h, i);
    case TryCas(i) => TryCasKeeps(s, h, i);
  }

  // ---------------------------------------------------------------- runs

  ghost predicate IsRun(s: State, h: History, steps: seq<Step>)
    decreases |steps|
  {
    steps == [] ||
    (Enabled(s, steps[0]) && IsRun(Apply(s, steps[0]), Record(s, h, steps[0]), steps[1..]))
  }

  /** Every trylock in the run exchanges before the ticket counter wraps around. */
  ghost predicate IsTimely(s: State, h: History, steps: seq<Step>)
    requires IsRun(s, h, steps)
    decreases |steps|
  {
    steps == [] ||
    (Timely(h, steps[0]) && IsTimely(Apply(s, steps[0]), Record(s, h, steps[0]), steps[1..]))
  }

  function Final(s: State, h: History, steps: seq<Step>): (State, History)
    decreases |steps|
  {
    if steps == [] || !Enabled(s, steps[0]) then (s, h)
    else Final(Apply(s, steps[0]), Record(s, h, steps[0]), steps[1..])
  }

  ghost predicate Exclusive(s: State)
  {
    forall i, j | i in s.pc && j in s.pc && s.pc[i].Holding? && s.pc[j].Holding? :: i == j
  }

  lemma {:induction false} RunKeeps(s: State, h: History, steps: seq<Step>)
    requires Inv(s, h) && IsRun(s, h, steps) && IsTimely(s, h, steps)
    ensures Inv(Final(s, h, steps).0, Final(s, h, steps).1)
    decreases |steps|
  {
    hide Inv;
    if steps != [] {
      StepKeeps(s, h, steps[0]);
      RunKeeps(Apply(s, steps[0]), Record(s, h, steps[0]), steps[1..]);
    }
  }

  lemma InitInv(threads: set<nat>)
    requires |threads| <= WRAP
    ensures Inv(Init(threads), FRESH)
  {
    assert Init(threads).pc.Keys == threads;
  }

  /** Mutual exclusion and first-come-first-served, in every interleaving by at most 65536 threads. */
  lemma LockTheorem(threads: set<nat>, steps: seq<Step>)
    requires |threads| <= WRAP
    requires IsRun(Init(threads), FRESH, steps) && IsTimely(Init(threads), FRESH, steps)
    ensures var (s, h) := Final(Init(threads), FRESH, steps);
            && Exclusive(s)
            && (forall k | 0 <= k < |h.grants| :: h.grants[k] == k)
            && (forall i | i in s.pc && s.pc[i].Holding? :: i in h.turn && h.turn[i] == h.served == |h.grants| - 1)
  {
    InitInv(threads);
    RunKeeps(Init(threads), FRESH, steps);
    var (s, h) := Final(Init(threads), FRESH, steps);
    forall i, j | i in s.pc && j in s.pc && s.pc[i].Holding? && s.pc[j].Holding? ensures i == j {
      OneHolder(s, h, i, j);
    }
    forall i | i in s.pc && s.pc[i].Holding? ensures i in h.turn && h.turn[i] == h.served == |h.grants| - 1 {
      assert ThreadOk(s, h, i) && Held(s);
    }
  }

  /** Nobody waits for nothing: while tickets are outstanding and the lock is free, some spinning thread's
      next load succeeds. */
  lemma NoLostGrant(threads: set<nat>, steps: seq<Step>) returns (i: nat)
    requires |threads| <= WRAP
    requires IsRun(Init(threads), FRESH, steps) && IsTimely(Init(threads), FRESH, steps)
    requires var (s, h) := Final(Init(threads), FRESH, steps);
             !Held(s) && exists j :: j in s.pc && s.pc[j].Spinning?
    ensures var (s, h) := Final(Init(threads), FRESH, steps);
            Enabled(s, SpinLoad(i)) && Apply(s, SpinLoad(i)).pc[i].Holding?
  {
    InitInv(threads);
    RunKeeps(Init(threads), FRESH, steps);
    var (s, h) := Final(Init(threads), FRESH, steps);
    var j :| j in s.pc && s.pc[j].Spinning?;
    assert ThreadOk(s, h, j);
    i := FirstTaken(h.turn, h.served, h.issued);
    assert ThreadOk(s, h, i);
  }

  // ---------------------------------------------------------------- the bounds are exact

  lemma {:induction false} RunConcat(s: State, h: History, xs: seq<Step>, ys: seq<Step>)
    requires IsRun(s, h, xs) && IsRun(Final(s, h, xs).0, Final(s, h, xs).1, ys)
    ensures IsRun(s, h, xs + ys)
    ensures Final(s, h, xs + ys) == Final(Final(s, h, xs).0, Final(s, h, xs).1, ys)
    decreases |xs|
  {
    hide Apply, Record;
    if xs == [] {
      assert xs + ys == ys;
    } else {
      RunConcat(Apply(s, xs[0]), Record(s, h, xs[0]), xs[1..], ys);
      assert (xs + ys)[1..] == xs[1..] + ys;
    }
  }

  lemma RunTwo(s: State, h: History, a: Step, b: Step)
    requires Enabled(s, a) && Enabled(Apply(s, a), b)
    ensures IsRun(s, h, [a, b])
    ensures Final(s, h, [a, b]) == (Apply(Apply(s, a), b), Record(Apply(s, a), Record(s, h, a), b))
  {
    hide Apply, Record, IsRun, Final;
    RunOne(s, h, a);
    RunOne(Apply(s, a), Record(s, h, a), b);
    RunConcat(s, h, [a], [b]);
    assert [a] + [b] == [a, b];
  }

  lemma RunOne(s: State, h: History, a: Step)
    requires Enabled(s, a)
    ensures IsRun(s, h, [a]) && Final(s, h, [a]) == (Apply(s, a), Record(s, h, a))
  {
    assert [a][1..] == [];
  }

  predicate LockOnly(steps: seq<Step>)
  {
    forall k | 0 <= k < |steps| :: steps[k].FetchTicket? || steps[k].SpinLoad? || steps[k].Release?
  }

  /** Idle threads draw tickets one after another; the last one's ticket is the last number issued. */
  lemma {:induction false} DrawAll(s: State, h: History, pool: set<nat>) returns (steps: seq<Step>, last: nat)
    requires pool != {} && forall i | i in pool :: i in s.pc && s.pc[i].Idle?
    requires s.next == U16(h.issued)
    ensures IsRun(s, h, steps) && LockOnly(steps) && last in pool
    ensures var s' := Final(s, h, steps).0;
            && s'.owner == s.owner && s'.pc.Keys == s.pc.Keys
            && (forall i | i in s.pc && i !in pool :: s'.pc[i] == s.pc[i])
            && s'.pc[last] == Spinning(U16(h.issued + |pool| - 1))
    decreases |pool|
  {
    hide U16, IsRun, Final;
    var i :| i in pool;
    var s1, h1 := Apply(s, FetchTicket(i)), Record(s, h, FetchTicket(i));
    RunOne(s, h, FetchTicket(i));
    if pool == {i} {
      steps, last := [FetchTicket(i)], i;
    } else {
      WrapNext(h.issued);
      assert pool - {i} != {};
      var rest;
      rest, last := DrawAll(s1, h1, pool - {i});
      steps := [FetchTicket(i)] + rest;
      RunConcat(s, h, [FetchTicket(i)], rest);
    }
  }

  lemma {:induction false} SubsetOfSize(a: set<nat>, n: nat) returns (b: set<nat>)
    requires n <= |a|
    ensures b <= a && |b| == n
  {
    if n == 0 {
      b := {};
    } else {
      var x :| x in a;
      var c := SubsetOfSize(a - {x}, n - 1);
      b := c + {x};
    }
  }

  /** With one thread more than there are ticket values, two threads can hold the lock at once. */
  lemma TooManyThreads(threads: set<nat>) returns (steps: seq<Step>)
    requires |threads| > WRAP
    ensures IsRun(Init(threads), FRESH, steps) && LockOnly(steps)
    ensures !Exclusive(Final(Init(threads), FRESH, steps).0)
  {
    hide IsRun, Final;
    var s0 := Init(threads);
    var a :| a in threads;
    RunTwo(s0, FRESH, FetchTicket(a), SpinLoad(a));
    var xs := [FetchTicket(a), SpinLoad(a)];
    var (s1, h1) := Final(s0, FRESH, xs);
    var pool := SubsetOfSize(threads - {a}, WRAP);
    var ys, b := DrawAll(s1, h1, pool);
    var (s2, h2) := Final(s1, h1, ys);
    assert s2.pc[b] == Spinning(0) && s2.owner == 0 && s2.pc[a].Holding?;
    RunOne(s2, h2, SpinLoad(b));
    RunConcat(s1, h1, ys, [SpinLoad(b)]);
    RunConcat(s0, FRESH, xs, ys + [SpinLoad(b)]);
    steps := xs + (ys + [SpinLoad(b)]);
    var s3 := Final(s0, FRESH, steps).0;
    assert s3.pc[a].Holding? && s3.pc[b].Holding? && a != b;
  }

  /** `spin_lock` and `spin_unlock` exclude in every interleaving if and only if at most 65536 threads use them. */
  lemma LockSafeIff(threads: set<nat>)
    ensures |threads| <= WRAP <==>
            forall steps | IsRun(Init(threads), FRESH, steps) && LockOnly(steps) ::
              Exclusive(Final(Init(threads), FRESH, steps).0)
  {
    if |threads| <= WRAP {
      forall steps | IsRun(Init(threads), FRESH, steps) && LockOnly(steps)
        ensures Exclusive(Final(Init(threads), FRESH, steps).0)
      {
        LockOnlyTimely(Init(threads), FRESH, steps);
        LockTheorem(threads, steps);
      }
    } else {
      var steps := TooManyThreads(threads);
    }
  }

  lemma {:induction false} LockOnlyTimely(s: State, h: History, steps: seq<Step>)
    requires IsRun(s, h, steps) && LockOnly(steps)
    ensures IsTimely(s, h, steps)
    decreases |steps|
  {
    hide Apply, Record;
    if steps != [] {
      LockOnlyTimely(Apply(s, steps[0]), Record(s, h, steps[0]), steps[1..]);
    }
  }

  /** One thread locking and unlocking an idle lock `n` times. */
  lemma {:induction false} Cycle(s: State, h: History, b: nat, n: nat) returns (steps: seq<Step>)
    requires b in s.pc && s.pc[b].Idle? && s.owner == s.next == U16(h.issued)
    ensures IsRun(s, h, steps)
    ensures var (s', h') := Final(s, h, steps);
            s'.pc == s.pc && s'.owner == s'.next == U16(h.issued + n) && h'.issued == h.issued + n && h'.seen == h.seen
    decreases n
  {
    hide U16, IsRun, Final;
    if n == 0 {
      steps := [];
      RunNone(s, h);
    } else {
      RunTwo(s, h, FetchTicket(b), SpinLoad(b));
      var xs := [FetchTicket(b), SpinLoad(b)];
      var (s1, h1) := Final(s, h, xs);
      RunOne(s1, h1, Release(b));
      RunConcat(s, h, xs, [Release(b)]);
      WrapNext(h.issued);
      var s2, h2 := Apply(s1, Release(b)), Record(s1, h1, Release(b));
      assert s2.pc == s.pc;
      var rest := Cycle(s2, h2, b, n - 1);
      RunConcat(s, h, xs + [Release(b)], rest);
      steps := xs + [Release(b)] + rest;
    }
  }

  lemma RunNone(s: State, h: History)
    ensures IsRun(s, h, []) && Final(s, h, []) == (s, h)
  {
  }

  /** A trylock delayed while 65536 tickets are issued can take a lock that is held, even with two threads. */
  lemma LateTrylock(a: nat, b: nat) returns (steps: seq<Step>)
    requires a != b
    ensures IsRun(Init({a, b}), FRESH, steps) && !Exclusive(Final(Init({a, b}), FRESH, steps).0)
  {
    hide IsRun, Final;
    var s0 := Init({a, b});
    var xs := [TryLoadNext(a), TryLoadOwner(a)];
    RunTwo(s0, FRESH, TryLoadNext(a), TryLoadOwner(a));
    var (s1, h1) := Final(s0, FRESH, xs);
    var ys := Cycle(s1, h1, b, WRAP - 1);
    var (s2, h2) := Final(s1, h1, ys);
    var zs := [FetchTicket(b), SpinLoad(b)];
    RunTwo(s2, h2, FetchTicket(b), SpinLoad(b));
    var (s3, h3) := Final(s2, h2, zs);
    assert s3.next == 0 && s3.pc[b].Holding? && s3.pc[a] == TryReady(0);
    RunOne(s3, h3, TryCas(a));
    RunConcat(s2, h2, zs, [TryCas(a)]);
    RunConcat(s1, h1, ys, zs + [TryCas(a)]);
    RunConcat(s0, FRESH, xs, ys + (zs + [TryCas(a)]));
    steps := xs + (ys + (zs + [TryCas(a)]));
    var s4 := Final(s0, FRESH, steps).0;
    assert s4.pc[a].Holding? && s4.pc[b].Holding?;
  }
}
