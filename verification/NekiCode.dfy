/** `neki_analyse` and `neki_tick` of neki_loop.c with their window updated in place and their sums in 64-bit words. */
module NekiCode {
  import opened Neki

  lemma NoSums(d: Dimension)
    ensures DemandSum([], d) == 0 && WasteSum([], d) == 0
  {
  }

  lemma AppendSums(w: seq<Sample>, s: Sample, d: Dimension)
    ensures DemandSum(w + [s], d) == DemandSum(w, d) + Demand(s, d)
    ensures WasteSum(w + [s], d) == WasteSum(w, d) + Waste(s, d)
  {
    assert (w + [s])[..|w|] == w;
  }

  lemma WordAdd(total: nat, x: nat)
    ensures (total % TWO64 + x) % TWO64 == (total + x) % TWO64
  {
  }

  class NekiLoop {
    const window: array<Sample>
    var index: nat                 // 32-bit, free running
    var filled: nat
    var weights: Weights
    var policy: Policy

    ghost predicate Valid()
      reads this, window
    {
      window.Length == WINDOW && Shaped(View())
    }

    ghost function View(): State
      reads this, window
    {
      State(window[..], index, filled, weights, policy)
    }

    constructor ()
      ensures Valid() && View() == Initial() && fresh(window)
    {
      window := new Sample[WINDOW](i => EMPTY);
      index, filled, weights, policy := 0, 0, Weights(ONE, ONE, ONE), Policy(50, 0, 4, 64);
      new;
      BlankIs(WINDOW);
      assert window[..] == Blank(WINDOW);
    }

    /** One pair of the running sums. */
    method SumUp(n: nat, d: Dimension) returns (demand: nat, waste: nat)
      requires Valid() && n <= WINDOW
      ensures demand == DemandSum(window[..n], d) % TWO64 && waste == WasteSum(window[..n], d) % TWO64
    {
      hide Demand, Waste, DemandSum, WasteSum;
      NoSums(d);
      demand, waste := 0, 0;
      assert window[..0] == [];
      var i := 0;
      while i < n
        invariant 0 <= i <= n
        invariant demand == DemandSum(window[..i], d) % TWO64 && waste == WasteSum(window[..i], d) % TWO64
      {
        var s := window[i];
        assert window[..i + 1] == window[..i] + [s];
        AppendSums(window[..i], s, d);
        WordAdd(DemandSum(window[..i], d), Demand(s, d));
        WordAdd(WasteSum(window[..i], d), Waste(s, d));
        demand := (demand + Demand(s, d)) % TWO64;
        waste := (waste + Waste(s, d)) % TWO64;
        i := i + 1;
      }
    }

    /** `neki_analyse`: the new weights and policy, or the divide error that ends the kernel. */
    method AnalyseWindow() returns (ok: bool)
      requires Valid() && filled > 0
      modifies `weights, `policy
      ensures Valid()
      ensures match Analyse(window[..filled], old(weights))
              case Fault => !ok && weights == old(weights) && policy == old(policy)
              case Analysis(w, p) => ok && weights == w && policy == p
    {
      hide SignalOf, EmaStep, Clamp, DemandSum, WasteSum;
      var cpuDemand, cpuWaste := SumUp(filled, Cpu);
      var ramDemand, ramWaste := SumUp(filled, Ram);
      var gpuDemand, gpuWaste := SumUp(filled, Gpu);
      SignalRange(cpuDemand, cpuWaste);
      var c, r, g := SignalOf(cpuDemand, cpuWaste), SignalOf(ramDemand, ramWaste), SignalOf(gpuDemand, gpuWaste);
      if c.DivideError? || r.DivideError? || g.DivideError? {
        return false;
      }
      var alpha := Clamp(EmaStep(weights.alpha, AlphaTarget(c.value)));
      var beta := Clamp(EmaStep(weights.beta, r.value));
      var gamma := Clamp(EmaStep(weights.gamma, g.value));
      weights := Weights(alpha, beta, gamma);
      policy := PolicyOf(alpha, beta, gpuDemand, filled);
      ok := true;
    }

    /** `neki_tick`. */
    method OnTick(r: Reading) returns (ok: bool)
      requires Valid()
      modifies this, window
      ensures Valid() && ok == Tick(old(View()), r).Running?
      ensures ok ==> View() == Tick(old(View()), r).state
    {
      hide Analyse;
      ghost var before := View();
      window[index % WINDOW] := SampleOf(r);
      index := (index + 1) % 0x1_0000_0000;
      filled := if filled + 1 < WINDOW then filled + 1 else WINDOW;
      assert View() == Record(before, r);
      ok := true;
      if filled >= 8 {
        ok := AnalyseWindow();
      }
    }
  }

  lemma {:induction false} BlankIs(n: nat)
    ensures forall i | 0 <= i < n :: Blank(n)[i] == EMPTY
  {
    if n > 0 {
      BlankIs(n - 1);
    }
  }
}
