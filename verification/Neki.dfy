/** The self-tuning weights of drivers/neri/neki/neki_loop.c, in 48.16 fixed point on 64-bit words. */
module Neki {

  const TWO64: nat := 0x1_0000_0000_0000_0000
  const ONE: nat := 0x1_0000
  const WINDOW: nat := 64

  // ---------------------------------------------------------------- one step of the moving average

  function Distance(a: nat, b: nat): nat { if a > b then a - b else b - a }

  /** Three sixty-fourths of the distance, the product in 64 bits. */
  function Delta(distance: nat): nat { distance * 3 % TWO64 / 64 }

  lemma InWord(x: nat)
    requires x < TWO64
    ensures x % TWO64 == x
  {
  }

  lemma WordBelow(x: nat)
    ensures x % TWO64 <= x
  {
  }

  /** The delta is never more than three sixty-fourths of the distance, whether or not the product wraps. */
  lemma DeltaFacts(distance: nat)
    ensures 64 * Delta(distance) <= 3 * distance && (distance > 0 ==> Delta(distance) < distance)
    ensures Delta(distance) == 0 <==> distance * 3 % TWO64 < 64
    ensures distance * 3 < TWO64 ==> (Delta(distance) == 0 <==> distance <= 21)
  {
    WordBelow(distance * 3);
    if distance * 3 < TWO64 {
      InWord(distance * 3);
    }
  }

  /** `ema_step`. */
  function EmaStep(prev: nat, signal: nat): nat
  {
    var delta := Delta(Distance(signal, prev));
    if signal > prev then (prev + delta) % TWO64
    else if prev > delta then prev - delta
    else 1
  }

  /** From any positive value a step never passes its target, and rests exactly when three times the distance,
      as a 64-bit word, is below 64; without overflow that is within 21. */
  lemma EmaStays(prev: nat, signal: nat)
    requires 0 < prev < TWO64 && signal < TWO64
    ensures signal > prev ==> prev <= EmaStep(prev, signal) < signal
    ensures signal <= prev ==> signal <= EmaStep(prev, signal) <= prev && 0 < EmaStep(prev, signal)
    ensures Distance(signal, EmaStep(prev, signal)) == Distance(signal, prev) - Delta(Distance(signal, prev))
    ensures EmaStep(prev, signal) == prev <==> Distance(signal, prev) * 3 % TWO64 < 64
    ensures Distance(signal, prev) * 3 < TWO64 ==> (EmaStep(prev, signal) == prev <==> Distance(signal, prev) <= 21)
  {
    hide Delta;
    DeltaFacts(Distance(signal, prev));
    if signal > prev {
      InWord(prev + Delta(Distance(signal, prev)));
    }
  }

  function Iterate(prev: nat, signal: nat, steps: nat): nat
  {
    if steps == 0 then prev else EmaStep(Iterate(prev, signal, steps - 1), signal)
  }

  /** Held at one signal, the average stays on its side and never moves away. */
  lemma {:induction false} EmaBetween(prev: nat, signal: nat, steps: nat)
    requires 0 < prev < TWO64 && signal < TWO64
    ensures var r := Iterate(prev, signal, steps);
            && 0 < r < TWO64 && Distance(signal, r) <= Distance(signal, prev)
            && (signal > prev ==> prev <= r < signal) && (signal <= prev ==> signal <= r <= prev)
  {
    if steps > 0 {
      EmaBetween(prev, signal, steps - 1);
      hide EmaStep;
      EmaStays(Iterate(prev, signal, steps - 1), signal);
    }
  }

  /** Without overflow every step that does not end within 21 gains at least one. */
  lemma {:induction false} EmaApproaches(prev: nat, signal: nat, steps: nat)
    requires 0 < prev < TWO64 && signal < TWO64 && Distance(signal, prev) * 3 < TWO64
    ensures var r := Iterate(prev, signal, steps);
            Distance(signal, r) <= 21 || Distance(signal, r) + steps <= Distance(signal, prev)
  {
    if steps > 0 {
      EmaApproaches(prev, signal, steps - 1);
      EmaBetween(prev, signal, steps - 1);
      hide EmaStep, Delta;
      EmaStays(Iterate(prev, signal, steps - 1), signal);
    }
  }

  /** With overflow, three times the distance never falls below a whole word again. */
  lemma {:induction false} EmaHeld(prev: nat, signal: nat, steps: nat)
    requires 0 < prev < TWO64 && signal < TWO64 && Distance(signal, prev) * 3 >= TWO64
    ensures Distance(signal, Iterate(prev, signal, steps)) * 3 >= TWO64
  {
    if steps > 0 {
      var r := Iterate(prev, signal, steps - 1);
      EmaHeld(prev, signal, steps - 1);
      EmaBetween(prev, signal, steps - 1);
      OverDelta(Distance(signal, r));
      hide EmaStep, Delta;
      EmaStays(r, signal);
    }
  }

  lemma OverDelta(distance: nat)
    requires distance < TWO64 <= distance * 3
    ensures (distance - Delta(distance)) * 3 >= TWO64
  {
    var x := distance * 3;
    var w := x % TWO64;
    assert x == TWO64 + w || x == 2 * TWO64 + w;
  }

  /** The average comes within 21 of a signal it is held at if and only if three times the first distance fits
      64 bits. */
  lemma EmaConvergesIff(prev: nat, signal: nat)
    requires 0 < prev < TWO64 && signal < TWO64
    ensures (exists steps: nat :: Distance(signal, Iterate(prev, signal, steps)) <= 21)
            <==> Distance(signal, prev) * 3 < TWO64
  {
    hide Iterate;
    if Distance(signal, prev) * 3 < TWO64 {
      EmaApproaches(prev, signal, Distance(signal, prev));
    } else {
      forall steps: nat
        ensures Distance(signal, Iterate(prev, signal, steps)) > 21
      {
        EmaHeld(prev, signal, steps);
      }
    }
  }

  // ---------------------------------------------------------------- analysing a window

  datatype Sample = Sample(cpuDemand: nat, cpuGranted: nat, ramDemand: nat, ramGranted: nat, gpuDemand: nat,
                           gpuGranted: nat)

  datatype Weights = Weights(alpha: nat, beta: nat, gamma: nat)

  datatype Policy = Policy(cpuBias: nat, gpuBurst: nat, ramPrefetch: nat, reclaim: nat)

  datatype Dimension = Cpu | Ram | Gpu

  function Demand(s: Sample, d: Dimension): nat
  {
    match d case Cpu => s.cpuDemand case Ram => s.ramDemand case Gpu => s.gpuDemand
  }

  function Granted(s: Sample, d: Dimension): nat
  {
    match d case Cpu => s.cpuGranted case Ram => s.ramGranted case Gpu => s.gpuGranted
  }

  function Waste(s: Sample, d: Dimension): nat
  {
    if Demand(s, d) > Granted(s, d) then Demand(s, d) - Granted(s, d) else 0
  }

  function DemandSum(w: seq<Sample>, d: Dimension): nat
  {
    if w == [] then 0 else DemandSum(w[..|w| - 1], d) + Demand(w[|w| - 1], d)
  }

  function WasteSum(w: seq<Sample>, d: Dimension): nat
  {
    if w == [] then 0 else WasteSum(w[..|w| - 1], d) + Waste(w[|w| - 1], d)
  }

  datatype Signal = Signal(value: nat) | DivideError

  /** `demand ? MIN(Q16(2), Q16(waste) / (demand / 64)) : Q16(1)` on 64-bit sums. */
  function SignalOf(demand: nat, waste: nat): Signal
  {
    if demand == 0 then Signal(ONE)
    else if demand / 64 == 0 then DivideError
    else
      var ratio := waste * 0x1_0000 % TWO64 / (demand / 64);
      Signal(if 2 * ONE < ratio then 2 * ONE else ratio)
  }

  function WindowSignal(w: seq<Sample>, d: Dimension): Signal
  {
    SignalOf(DemandSum(w, d) % TWO64, WasteSum(w, d) % TWO64)
  }

  lemma SignalRange(demand: nat, waste: nat)
    ensures SignalOf(demand, waste).DivideError? <==> 0 < demand < 64
    ensures SignalOf(demand, waste).Signal? ==> SignalOf(demand, waste).value <= 2 * ONE
    ensures SignalOf(demand, 0).Signal? ==> SignalOf(demand, 0).value == if demand == 0 then ONE else 0
  {
    if demand >= 64 {
      ZeroOver(demand / 64);
    }
  }

  lemma ZeroOver(q: nat)
    requires q > 0
    ensures 0 * 0x1_0000 % TWO64 / q == 0
  {
  }

  function Clamp(x: nat): nat
  {
    var capped := if 4 * ONE < x then 4 * ONE else x;
    if ONE / 4 > capped then ONE / 4 else capped
  }

  /** High waste lowers the processor weight's target below one. */
  function AlphaTarget(signal: nat): nat
    requires signal <= 2 * ONE
  {
    if signal > ONE then ONE - (signal - ONE) else ONE
  }

  datatype Analysis = Analysis(weights: Weights, policy: Policy) | Fault

  /** `neki_analyse` on the samples in use. */
  function Analyse(w: seq<Sample>, prev: Weights): Analysis
    requires w != []
  {
    var c, r, g := WindowSignal(w, Cpu), WindowSignal(w, Ram), WindowSignal(w, Gpu);
    if c.DivideError? || r.DivideError? || g.DivideError? then Fault
    else
      SignalRange(DemandSum(w, Cpu) % TWO64, WasteSum(w, Cpu) % TWO64);
      var alpha := Clamp(EmaStep(prev.alpha, AlphaTarget(c.value)));
      var beta := Clamp(EmaStep(prev.beta, r.value));
      var gamma := Clamp(EmaStep(prev.gamma, g.value));
      Analysis(Weights(alpha, beta, gamma), PolicyOf(alpha, beta, DemandSum(w, Gpu) % TWO64, |w|))
  }

  function PolicyOf(alpha: nat, beta: nat, gpuDemand: nat, n: nat): Policy
    requires n > 0
  {
    var bias := 50 + alpha / ONE * 10;
    var floor := if 10 > bias then 10 else bias;
    Policy(if 90 < floor then 90 else floor,
           if gpuDemand == 0 then 0 else gpuDemand / n % 0x1_0000_0000,
           4 + beta / ONE,
           if 255 < 64 + beta / ONE * 16 then 255 else 64 + beta / ONE * 16)
  }

  predicate InRange(w: Weights)
  {
    ONE / 4 <= w.alpha <= ONE && ONE / 4 <= w.beta <= 2 * ONE && ONE / 4 <= w.gamma <= 2 * ONE
  }

  /** A sum the code divides by after dropping its low six bits. */
  predicate SmallSum(w: seq<Sample>, d: Dimension) { 0 < DemandSum(w, d) % TWO64 < 64 }

  /** For any samples at all, analysis keeps alpha in [1/4, 1] and beta and gamma in [1/4, 2], and fails
      exactly on a small sum. */
  lemma AnalyseKeeps(w: seq<Sample>, prev: Weights)
    requires w != [] && InRange(prev)
    ensures Analyse(w, prev).Fault? <==> SmallSum(w, Cpu) || SmallSum(w, Ram) || SmallSum(w, Gpu)
    ensures Analyse(w, prev).Analysis? ==> InRange(Analyse(w, prev).weights)
  {
    hide EmaStep, DemandSum, WasteSum, SignalOf;
    SignalRange(DemandSum(w, Cpu) % TWO64, WasteSum(w, Cpu) % TWO64);
    SignalRange(DemandSum(w, Ram) % TWO64, WasteSum(w, Ram) % TWO64);
    SignalRange(DemandSum(w, Gpu) % TWO64, WasteSum(w, Gpu) % TWO64);
    var c, r, g := WindowSignal(w, Cpu), WindowSignal(w, Ram), WindowSignal(w, Gpu);
    if c.Signal? && r.Signal? && g.Signal? {
      EmaStays(prev.alpha, AlphaTarget(c.value));
      EmaStays(prev.beta, r.value);
      EmaStays(prev.gamma, g.value);
    }
  }

  // ---------------------------------------------------------------- ticks

  datatype Reading = Reading(cpu: nat, ram: nat, gpu: nat)

  /** `neki_tick` records the allocation as demand and as grant. */
  function SampleOf(r: Reading): Sample { Sample(r.cpu, r.cpu, r.ram, r.ram, r.gpu, r.gpu) }

  datatype State = State(window: seq<Sample>, index: nat, filled: nat, weights: Weights, policy: Policy)

  datatype Outcome = Running(state: State) | Crashed

  const EMPTY: Sample := Sample(0, 0, 0, 0, 0, 0)

  function Blank(n: nat): (w: seq<Sample>)
    ensures |w| == n
  {
    if n == 0 then [] else Blank(n - 1) + [EMPTY]
  }

  function Initial(): State { State(Blank(WINDOW), 0, 0, Weights(ONE, ONE, ONE), Policy(50, 0, 4, 64)) }

  predicate Shaped(s: State) { |s.window| == WINDOW && s.filled <= WINDOW }

  /** Recording one epoch. */
  function Record(s: State, r: Reading): (t: State)
    requires Shaped(s)
    ensures Shaped(t) && t.filled > 0
  {
    s.(window := s.window[s.index % WINDOW := SampleOf(r)],
       index := (s.index + 1) % 0x1_0000_0000,
       filled := if s.filled + 1 < WINDOW then s.filled + 1 else WINDOW)
  }

  /** `neki_tick`. */
  function Tick(s: State, r: Reading): Outcome
    requires Shaped(s)
  {
    var t := Record(s, r);
    if t.filled < 8 then Running(t)
    else
      match Analyse(t.window[..t.filled], t.weights)
      case Fault => Crashed
      case Analysis(weights, policy) => Running(t.(weights := weights, policy := policy))
  }

  /** What ticks alone can make of the weights. */
  predicate Tame(w: Weights) { w.alpha == ONE && ONE / 4 <= w.beta <= ONE && ONE / 4 <= w.gamma <= ONE }

  predicate NoWaste(w: seq<Sample>)
  {
    forall s <- w :: s.cpuDemand == s.cpuGranted && s.ramDemand == s.ramGranted && s.gpuDemand == s.gpuGranted
  }

  lemma {:induction false} NothingWasted(w: seq<Sample>, d: Dimension)
    requires NoWaste(w)
    ensures WasteSum(w, d) == 0
  {
    if w != [] {
      NothingWasted(w[..|w| - 1], d);
      assert w[|w| - 1] in w;
    }
  }

  /** On samples without waste the processor weight cannot move and the other two stay at or below one. */
  lemma AnalyseTame(w: seq<Sample>, prev: Weights)
    requires w != [] && NoWaste(w) && Tame(prev)
    ensures Analyse(w, prev).Analysis? ==>
              Tame(Analyse(w, prev).weights) && Analyse(w, prev).policy.cpuBias == 60
              && 4 <= Analyse(w, prev).policy.ramPrefetch <= 5
  {
    hide EmaStep, DemandSum, WasteSum, SignalOf;
    NothingWasted(w, Cpu);
    NothingWasted(w, Ram);
    NothingWasted(w, Gpu);
    SignalRange(DemandSum(w, Cpu) % TWO64, 0);
    SignalRange(DemandSum(w, Ram) % TWO64, 0);
    SignalRange(DemandSum(w, Gpu) % TWO64, 0);
    var c, r, g := WindowSignal(w, Cpu), WindowSignal(w, Ram), WindowSignal(w, Gpu);
    if c.Signal? && r.Signal? && g.Signal? {
      EmaStays(prev.alpha, ONE);
      EmaStays(prev.beta, r.value);
      EmaStays(prev.gamma, g.value);
    }
  }

  // ---------------------------------------------------------------- the window slides over the readings

  function First(n: nat): nat { if n < WINDOW then 0 else n - WINDOW }

  ghost predicate Positioned(s: State, n: nat)
  {
    Shaped(s) && s.index == n % 0x1_0000_0000 && s.filled == (if n < WINDOW then n else WINDOW)
  }

  /** Each of the last 64 readings is in the place of its number. */
  ghost predicate Entries(window: seq<Sample>, readings: seq<Reading>)
    requires |window| == WINDOW
  {
    forall m | First(|readings|) <= m < |readings| :: window[m % WINDOW] == SampleOf(readings[m])
  }

  ghost predicate Sums(window: seq<Sample>, readings: seq<Reading>)
  {
    forall d :: DemandSum(window, d) == ReadingSum(readings[First(|readings|)..], d)
  }

  /** The window holds the last readings, at most 64 of them, and its sums are theirs. */
  ghost predicate Follows(s: State, readings: seq<Reading>)
  {
    && Positioned(s, |readings|) && Entries(s.window, readings)
    && Sums(s.window[..s.filled], readings) && NoWaste(s.window[..s.filled])
  }

  function ReadingSum(rs: seq<Reading>, d: Dimension): nat
  {
    if rs == [] then 0 else ReadingSum(rs[..|rs| - 1], d) + Demand(SampleOf(rs[|rs| - 1]), d)
  }

  lemma {:induction false} SumUpdate(w: seq<Sample>, j: nat, x: Sample, d: Dimension)
    requires j < |w|
    ensures DemandSum(w[j := x], d) + Demand(w[j], d) == DemandSum(w, d) + Demand(x, d)
  {
    var n := |w| - 1;
    if j < n {
      SumUpdate(w[..n], j, x, d);
      assert w[j := x][..n] == w[..n][j := x];
    } else {
      assert w[j := x][..n] == w[..n];
    }
  }

  lemma {:induction false} SumDropFirst(rs: seq<Reading>, d: Dimension)
    requires rs != []
    ensures ReadingSum(rs, d) == Demand(SampleOf(rs[0]), d) + ReadingSum(rs[1..], d)
  {
    var n := |rs| - 1;
    if n > 0 {
      SumDropFirst(rs[..n], d);
      assert rs[..n][1..] == rs[1..][..n - 1];
    }
  }

  lemma IndexWraps(n: nat)
    ensures n % 0x1_0000_0000 % WINDOW == n % WINDOW
    ensures (n % 0x1_0000_0000 + 1) % 0x1_0000_0000 == (n + 1) % 0x1_0000_0000
  {
    IndexPlace(n);
    IndexNext(n);
  }

  lemma IndexPlace(n: nat)
    ensures n % 0x1_0000_0000 % WINDOW == n % WINDOW
  {
    var q, r := n / 0x1_0000_0000, n % 0x1_0000_0000;
    assert n == 64 * (0x400_0000 * q) + r;
    WholeWindows(0x400_0000 * q, r);
  }

  lemma WholeWindows(k: nat, r: nat)
    ensures (64 * k + r) % 64 == r % 64
  {
  }

  lemma IndexNext(n: nat)
    ensures (n % 0x1_0000_0000 + 1) % 0x1_0000_0000 == (n + 1) % 0x1_0000_0000
  {
  }

  lemma PlacesApart(m: nat, n: nat)
    requires m < n < m + WINDOW
    ensures m % WINDOW != n % WINDOW
  {
  }

  /** While the window fills, the new sample joins the sum. */
  lemma GrowSum(s: State, readings: seq<Reading>, r: Reading)
    requires Positioned(s, |readings|) && |readings| < WINDOW && Sums(s.window[..s.filled], readings)
    ensures var t := Record(s, r); Sums(t.window[..t.filled], readings + [r])
  {
    hide DemandSum, ReadingSum, Demand, SampleOf;
    var t, all := Record(s, r), readings + [r];
    IndexPlace(|readings|);
    assert t.window[..t.filled] == s.window[..s.filled] + [SampleOf(r)];
    assert readings[0..] == readings && all[0..] == all;
    forall d
      ensures DemandSum(t.window[..t.filled], d) == ReadingSum(all[First(|all|)..], d)
    {
      AppendSum(s.window[..s.filled], SampleOf(r), readings, r, d);
    }
  }

  /** When it is full, the new sample replaces the oldest. */
  lemma SlideSum(s: State, readings: seq<Reading>, r: Reading)
    requires Positioned(s, |readings|) && |readings| >= WINDOW && Entries(s.window, readings)
    requires Sums(s.window[..s.filled], readings)
    ensures var t := Record(s, r); Sums(t.window[..t.filled], readings + [r])
  {
    hide SampleOf, Sums, Entries;
    var n, t := |readings|, Record(s, r);
    IndexPlace(n);
    assert s.window[..WINDOW] == s.window && t.window[..WINDOW] == t.window;
    OldestEntry(s.window, readings);
    SlidDown(s.window, n % WINDOW, readings, r);
  }

  lemma OldestEntry(w: seq<Sample>, readings: seq<Reading>)
    requires |w| == WINDOW <= |readings| && Entries(w, readings)
    ensures w[|readings| % WINDOW] == SampleOf(readings[|readings| - WINDOW])
  {
    hide SampleOf;
    OneLap(|readings|);
  }

  lemma OneLap(n: nat)
    requires n >= WINDOW
    ensures (n - WINDOW) % WINDOW == n % WINDOW
  {
  }

  lemma SlidDown(w: seq<Sample>, j: nat, readings: seq<Reading>, r: Reading)
    requires |w| == WINDOW <= |readings| && j < WINDOW && Sums(w, readings)
    requires w[j] == SampleOf(readings[|readings| - WINDOW])
    ensures Sums(w[j := SampleOf(r)], readings + [r])
  {
    hide DemandSum, ReadingSum, Demand, SampleOf;
    var n, all := |readings|, readings + [r];
    forall d
      ensures DemandSum(w[j := SampleOf(r)], d) == ReadingSum(all[First(|all|)..], d)
    {
      assert DemandSum(w, d) == ReadingSum(readings[First(n)..], d);
      SumUpdate(w, j, SampleOf(r), d);
      SlideReadings(readings, r, d);
    }
  }

  lemma SlideReadings(readings: seq<Reading>, r: Reading, d: Dimension)
    requires |readings| >= WINDOW
    ensures var n := |readings|;
            ReadingSum((readings + [r])[n + 1 - WINDOW..], d) + Demand(SampleOf(readings[n - WINDOW]), d)
            == ReadingSum(readings[n - WINDOW..], d) + Demand(SampleOf(r), d)
  {
    hide DemandSum, ReadingSum, Demand, SampleOf;
    var n := |readings|;
    var last := readings[n - WINDOW..];
    AppendSum([], EMPTY, last, r, d);
    assert last[0] == readings[n - WINDOW];
    assert (last + [r])[1..] == (readings + [r])[n + 1 - WINDOW..];
    SumDropFirst(last + [r], d);
  }

  lemma AppendSum(w: seq<Sample>, x: Sample, rs: seq<Reading>, r: Reading, d: Dimension)
    ensures DemandSum(w + [x], d) == DemandSum(w, d) + Demand(x, d)
    ensures ReadingSum(rs + [r], d) == ReadingSum(rs, d) + Demand(SampleOf(r), d)
  {
    assert (w + [x])[..|w|] == w && (rs + [r])[..|rs|] == rs;
  }

  lemma RecordEntries(s: State, readings: seq<Reading>, r: Reading)
    requires Positioned(s, |readings|) && Entries(s.window, readings)
    ensures Entries(Record(s, r).window, readings + [r])
  {
    hide SampleOf;
    var n, t, all := |readings|, Record(s, r), readings + [r];
    IndexPlace(n);
    forall m | First(n + 1) <= m < n + 1
      ensures t.window[m % WINDOW] == SampleOf(all[m])
    {
      if m < n {
        PlacesApart(m, n);
      }
    }
  }

  lemma RecordFollows(s: State, readings: seq<Reading>, r: Reading)
    requires Follows(s, readings)
    ensures Follows(Record(s, r), readings + [r])
  {
    hide Entries, Sums, NoWaste, SampleOf;
    IndexWraps(|readings|);
    RecordEntries(s, readings, r);
    if |readings| < WINDOW {
      GrowSum(s, readings, r);
    } else {
      SlideSum(s, readings, r);
    }
    RecordNoWaste(s, r);
  }

  lemma RecordNoWaste(s: State, r: Reading)
    requires Shaped(s) && NoWaste(s.window[..s.filled]) && (s.filled < WINDOW ==> s.index % WINDOW == s.filled)
    ensures NoWaste(Record(s, r).window[..Record(s, r).filled])
  {
    var t := Record(s, r);
    forall x | x in t.window[..t.filled]
      ensures x == SampleOf(r) || x in s.window[..s.filled]
    {
      var j :| 0 <= j < t.filled && t.window[j] == x;
      if j != s.index % WINDOW {
        assert s.window[..s.filled][j] == x;
      }
    }
  }

  // ---------------------------------------------------------------- runs of ticks

  function Run(readings: seq<Reading>): (o: Outcome)
    ensures o.Running? ==> Shaped(o.state)
  {
    if readings == [] then Running(Initial())
    else
      var o := Run(readings[..|readings| - 1]);
      if o.Crashed? then Crashed else Tick(o.state, readings[|readings| - 1])
  }

  /** The sum the analysis after these readings divides by, as the 64-bit word it is. */
  function LastSum(readings: seq<Reading>, d: Dimension): nat
  {
    ReadingSum(readings[First(|readings|)..], d) % TWO64
  }

  /** The analysis after these readings divides by zero. */
  predicate Divides(readings: seq<Reading>)
  {
    && |readings| >= 8
    && (0 < LastSum(readings, Cpu) < 64 || 0 < LastSum(readings, Ram) < 64 || 0 < LastSum(readings, Gpu) < 64)
  }

  lemma TickIs(s: State, readings: seq<Reading>, r: Reading)
    requires Follows(s, readings) && Tame(s.weights)
    ensures Tick(s, r).Crashed? <==> Divides(readings + [r])
    ensures Tick(s, r).Running? ==> Follows(Tick(s, r).state, readings + [r]) && Tame(Tick(s, r).state.weights)
    ensures Tick(s, r).Running? && |readings| >= 7 ==> Tick(s, r).state.policy.cpuBias == 60
  {
    hide Analyse, DemandSum, ReadingSum;
    RecordFollows(s, readings, r);
    var t := Record(s, r);
    if t.filled >= 8 {
      AnalyseKeeps(t.window[..t.filled], t.weights);
      AnalyseTame(t.window[..t.filled], t.weights);
    }
  }

  lemma InitialFollows()
    ensures Follows(Initial(), [])
  {
    assert Initial().window[..0] == [];
  }

  /** In every run of ticks that has not crashed, alpha is exactly one, beta and gamma lie in [1/4, 1],
      the processor bias is 60 from the eighth tick on, and the window holds the last 64 readings. */
  lemma {:induction false} TickTheorem(readings: seq<Reading>)
    requires Run(readings).Running?
    ensures var s := Run(readings).state;
            Follows(s, readings) && Tame(s.weights) && (|readings| >= 8 ==> s.policy.cpuBias == 60)
  {
    hide Tick, Follows, Divides;
    if readings == [] {
      InitialFollows();
    } else {
      var front, r := readings[..|readings| - 1], readings[|readings| - 1];
      TickTheorem(front);
      TickIs(Run(front).state, front, r);
      assert front + [r] == readings;
    }
  }

  /** A run crashes at a tick exactly when at least eight readings are in and the last 64 of some dimension sum
      to 1..63. */
  lemma CrashIff(readings: seq<Reading>, r: Reading)
    requires Run(readings).Running?
    ensures Run(readings + [r]).Crashed? <==> Divides(readings + [r])
  {
    hide Tick, Follows, Divides;
    TickTheorem(readings);
    TickIs(Run(readings).state, readings, r);
    assert (readings + [r])[..|readings|] == readings;
  }

  lemma {:induction false} EarlyRuns(readings: seq<Reading>)
    requires |readings| < 8
    ensures Run(readings).Running?
  {
    hide Tick, Divides;
    if readings != [] {
      var front, r := readings[..|readings| - 1], readings[|readings| - 1];
      EarlyRuns(front);
      CrashIff(front, r);
      TooFew(readings);
      assert front + [r] == readings;
    }
  }

  lemma TooFew(readings: seq<Reading>)
    requires |readings| < 8
    ensures !Divides(readings)
  {
  }

  function Steady(r: Reading, n: nat): (rs: seq<Reading>)
    ensures |rs| == n
  {
    if n == 0 then [] else Steady(r, n - 1) + [r]
  }

  lemma {:induction false} SteadySum(r: Reading, n: nat)
    requires n <= 8
    ensures ReadingSum(Steady(r, n), Ram) == n * r.ram
  {
    NoSum(Ram);
    hide ReadingSum, DemandSum;
    if n > 0 {
      SteadySum(r, n - 1);
      AppendSum([], EMPTY, Steady(r, n - 1), r, Ram);
      OneMore(n - 1, r.ram);
    }
  }

  lemma NoSum(d: Dimension)
    ensures ReadingSum([], d) == 0
  {
  }

  lemma OneMore(n: nat, x: nat)
    ensures n * x + x == (n + 1) * x
  {
  }

  /** Eight epochs with one to seven pages allocated end in a division by zero, whatever the processor time. */
  lemma FewPagesCrash(cpu: nat, pages: nat)
    requires 1 <= pages <= 7
    ensures Run(Steady(Reading(cpu, pages, 0), 8)).Crashed?
  {
    hide Run, ReadingSum;
    var r := Reading(cpu, pages, 0);
    EarlyRuns(Steady(r, 7));
    CrashIff(Steady(r, 7), r);
    SteadySum(r, 8);
    assert Steady(r, 8)[0..] == Steady(r, 8);
    assert LastSum(Steady(r, 8), Ram) == 8 * pages;
  }
}
