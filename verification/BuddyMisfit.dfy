/**
 The exact condition on a region.  `buddy_of` works relative to the node base while carving aligns
 absolute addresses.  The two agree on every run if and only if the region fits: its base is a multiple of
 the largest block, or it ends before a block larger than the base's own alignment is carved.
 */
module BuddyMisfit {
  import opened Pow2
  import opened BuddySpec
  import opened Buddy
  import opened BuddyNodes
  import opened BuddyCarve
  import opened BuddyRuns

  /** One node from which nothing has been freed.  Seen from address zero its blocks are aligned whatever
      its base; the pages below the base count as live. */
  ghost predicate Untouched(s: State, t: Tiling, start: nat, end: nat)
  {
    && |s.nodes| == 1 && s.nodes[0].base == start && s.nodes[0].limit == end && start < end
    && NodeInv(0, end, s.nodes[0].free, t, {}) && NoHeld(t) && s.clear == {}
    && forall p: nat, o: nat | LiveAt(t, p, o) && start <= p :: p in s.live && s.live[p] == o
  }

  ghost predicate OnlyAllocs(ops: seq<Op>)
  {
    forall op | op in ops :: op.Alloc?
  }

  /** What exhausting order `o` does to a block: blocks of at least that order end up live at that order. */
  ghost predicate Exhausted(t: Tiling, t': Tiling, o: nat)
  {
    forall p | p in t ::
      p in t' && t'[p] == if t[p].kind == Free && t[p].ord >= o then Block(o, Live) else t[p]
  }

  lemma AllocOnce(s: State, t: Tiling, start: nat, end: nat, o: nat, avail: nat) returns (s': State, t': Tiling)
    requires Untouched(s, t, start, end) && WellFormed(s) && o <= MAX_ORDER && |s.nodes[0].free| == MAX_ORDER + 1
    requires FirstAvail(s.nodes[0].free, o) == Some(avail) && s.nodes[0].free[avail] != []
    ensures AllocPages(s, o).Ok? && AllocPages(s, o).s == s' && WellFormed(s') && s'.covered == s.covered
    ensures Untouched(s', t', start, end)
    ensures ListPages(s'.nodes[0].free) < ListPages(s.nodes[0].free)
    ensures var p := s.nodes[0].free[avail][0];
            p in t && t[p] == Block(avail, Free) && p in t' && t'[p] == Block(o, Live) && KeptBut(t, t', p)
  {
    hide Pow, Aligned, PagesFrom, NodeInv, AllocLists, PagesOf;
    var free := s.nodes[0].free;
    var p := free[avail][0];
    assert p in t && t[p] == Block(avail, Free) by { HeadFree(end, free, t, avail); }
    t' := AllocNodeKeeps(0, end, free, t, {}, avail, o);
    AllocPagesCount(free, avail, o);
    s' := AllocPages(s, o).s;
    assert {} - PagesOf(p, o) == {};
    forall q: nat, k: nat | LiveAt(t', q, k) && start <= q ensures q in s'.live && s'.live[q] == k {
      if q != p { assert LiveAt(t, q, k); }
    }
  }

  lemma HeadFree(end: nat, free: FreeLists, t: Tiling, avail: nat)
    requires NodeInv(0, end, free, t, {}) && avail <= MAX_ORDER && free[avail] != []
    ensures free[avail][0] in t && t[free[avail][0]] == Block(avail, Free)
  {
    assert free[avail][0] in free[avail];
  }

  /** Allocating at order `o` until nothing is left turns every free block of at least that order into live ones. */
  lemma {:induction false} Exhaust(s: State, t: Tiling, start: nat, end: nat, o: nat)
    returns (ops: seq<Op>, s': State, t': Tiling)
    requires Untouched(s, t, start, end) && WellFormed(s) && o <= MAX_ORDER
    ensures OnlyAllocs(ops) && Run(s, ops) == Ok(s', 0) && WellFormed(s') && s'.covered == s.covered
    ensures Untouched(s', t', start, end) && Exhausted(t, t', o)
    decreases ListPages(s.nodes[0].free)
  {
    hide Pow, Aligned, PagesFrom, NodeInv, AllocFrom;
    match FirstAvail(s.nodes[0].free, o)
    case None =>
      ops, s', t' := [], s, t;
      NoneLeft(end, s.nodes[0].free, t, o);
    case Some(avail) =>
      var s1, t1 := AllocOnce(s, t, start, end, o, avail);
      var rest;
      rest, s', t' := Exhaust(s1, t1, start, end, o);
      ops := [Alloc(o)] + rest;
      assert ops[1..] == rest;
  }

  lemma NoneLeft(end: nat, free: FreeLists, t: Tiling, o: nat)
    requires NodeInv(0, end, free, t, {}) && FirstAvail(free, o).None?
    ensures forall p | p in t && t[p].kind == Free :: t[p].ord < o
  {
    hide Aligned, Pow;
    forall p | p in t && t[p].kind == Free ensures t[p].ord < o {
      assert p in free[t[p].ord];
    }
  }

  // ---------------------------------------------------------------- the run that breaks a misfit

  /** Single live pages below the node. */
  function Below(start: nat): (t: Tiling)
    ensures forall p: nat :: p in t <==> p < start
    ensures forall p | p in t :: t[p] == Block(0, Live)
  {
    if start == 0 then map[] else Below(start - 1)[start - 1 := Block(0, Live)]
  }

  lemma BelowCarved(start: nat)
    ensures Carved(Below(start), EMPTY_LISTS, 0, start)
  {
    var t := Below(start);
    forall x: nat | 0 <= x < start ensures Owned(t, x) { assert Covers(t, x, x); }
  }

  /** A misfit is carved with its first block at the order of the base, and a larger block right after it. */
  lemma MisfitBlocks(start: nat, end: nat)
    requires start < end && !RegionFits(start, end)
    ensures var k, t := Order(start, MAX_ORDER), CarveTiling(Below(start), start, end);
            var a := start + Pow(k);
            && k < MAX_ORDER && Pow(k + 1) == 2 * Pow(k) && a + Pow(k + 1) <= end
            && start in t && t[start] == Block(k, Free)
            && a in t && t[a].kind == Free && t[a].ord > k
  {
    var k := Order(start, MAX_ORDER);
    var a := start + Pow(k);
    hide Aligned, Carved, Pow, Fit, CarveTiling, Carve;
    NextAligned(start, k, start);
    FitExact(start, end, k, MAX_ORDER);
    FitAtLeast(a, end, k + 1, MAX_ORDER);
    BelowCarved(start);
    var t1, free1, j := Below(start)[start := Block(k, Free)], Push(EMPTY_LISTS, k, start), Fit(a, end, MAX_ORDER);
    CarveStep(Below(start), EMPTY_LISTS, 0, start, k);
    CarveStep(t1, free1, 0, a, j);
    CarveShape(t1[a := Block(j, Free)], Push(free1, j, a), 0, a + Pow(j), end);
    CarveTilingStep(Below(start), start, end);
    CarveTilingStep(t1, a, end);
  }

  lemma CarveTilingStep(t: Tiling, pa: nat, end: nat)
    requires pa < end
    ensures var o := Fit(pa, end, MAX_ORDER);
            CarveTiling(t, pa, end) == CarveTiling(t[pa := Block(o, Free)], pa + Pow(o), end)
  {
  }

  lemma NothingClear(t: Tiling, p: nat, o: nat)
    ensures !FreeClear(t, {}, p, o)
  {
    var none: set<nat> := {};
    assert p !in none && p < p + Pow(o);
  }

  lemma CarvedUntouched(covered: nat, start: nat, end: nat)
    requires start < end
    ensures Untouched(WithNode(Init(covered), start, end), CarveTiling(Below(start), start, end), start, end)
  {
    hide Aligned, Pow, CarveTiling, Carve, FreeClear;
    var t := CarveTiling(Below(start), start, end);
    BelowCarved(start);
    CarveShape(Below(start), EMPTY_LISTS, 0, start, end);
    forall p: nat, o: nat ensures !FreeClear(t, {}, p, o) { NothingClear(t, p, o); }
    assert NodeInv(0, end, Carve(EMPTY_LISTS, start, end), t, {});
    hide NodeInv, Carved;
    assert forall p: nat, o: nat | LiveAt(t, p, o) :: p in Below(start);
  }

  lemma {:induction false} FitAtLeast(pa: nat, end: nat, k: nat, o: nat)
    requires pa < end && k <= o && Aligned(pa, k) && pa + Pow(k) <= end
    ensures Fit(pa, end, o) >= k
  {
    if k < o { FitAtLeast(pa, end, k, o - 1); }
  }

  lemma FitExact(pa: nat, end: nat, k: nat, o: nat)
    requires pa < end && k < o && Aligned(pa, k) && !Aligned(pa, k + 1) && pa + Pow(k) <= end
    ensures Fit(pa, end, o) == k
  {
    FitAtLeast(pa, end, k, o);
    var r := Fit(pa, end, o);
    if r > k { AlignedDown(pa, r, k + 1); }
  }

  lemma {:induction false} XorNextPow(k: nat)
    ensures Xor(Pow(k), Pow(k + 1)) == Pow(k) + Pow(k + 1)
  {
    if k == 0 {
      assert Xor(1, 2) == 1 + 2 * Xor(0, 1);
    } else {
      XorNextPow(k - 1);
      XorDouble(Pow(k - 1), Pow(k));
    }
  }

  lemma {:induction false} ZeroXor(b: nat)
    ensures Xor(0, b) == b
  {
    if b > 0 { ZeroXor(b / 2); }
  }

  /** The first free: the larger block returns to its list without merging. */
  lemma FirstFree(s: State, t: Tiling, start: nat, end: nat, k: nat) returns (s': State)
    requires Untouched(s, t, start, end) && WellFormed(s) && k < MAX_ORDER && end <= s.covered && 0 < start
    requires start + Pow(k) + Pow(k + 1) <= end && Pow(k + 1) == 2 * Pow(k)
    requires var a := start + Pow(k); LiveAt(t, a, k + 1)
    ensures var a := start + Pow(k);
            && FreePages(s, a, k + 1) == Ok(s', 0) && WellFormed(s') && |s'.nodes| == 1 && s'.covered == s.covered
            && s'.nodes[0] == s.nodes[0].(free := Push(s.nodes[0].free, k + 1, a),
                                          freePages := s.nodes[0].freePages + Pow(k + 1))
            && s'.clear == Covered(PagesOf(a, k + 1), s.covered) && s'.live == s.live - {a}
  {
    hide Aligned, Pow, Xor, NodeInv;
    var a := start + Pow(k);
    XorNextPow(k);
    assert BuddyOf(a, k + 1, start) == a + Pow(k + 1);
    var clear := s.clear + Covered(PagesOf(a, k + 1), s.covered);
    assert clear == Covered(PagesOf(a, k + 1), s.covered);
    assert a + Pow(k + 1) !in clear;
    assert !AllClear(clear, a + Pow(k + 1), k + 1);
    assert NodeOf(s.nodes, a) == Some(0);
    s' := FreePages(s, a, k + 1).s;
  }

  /** The second free: the base block finds its buddy's bits clear, but the buddy is on another list. */
  lemma SecondFree(s: State, start: nat, end: nat, k: nat)
    requires WellFormed(s) && |s.nodes| == 1 && s.nodes[0].base == start && s.nodes[0].limit == end
    requires k < MAX_ORDER && end <= s.covered && 0 < start && start + Pow(k) + Pow(k) <= end
    requires var a := start + Pow(k); a !in s.nodes[0].free[k] && Covered(PagesOf(a, k + 1), s.covered) <= s.clear
    requires Pow(k + 1) == 2 * Pow(k)
    ensures FreePages(s, start, k) == Corrupt
  {
    hide Aligned, Pow, Xor;
    var a := start + Pow(k);
    ZeroXor(Pow(k));
    assert BuddyOf(start, k, start) == a;
    assert NodeOf(s.nodes, start) == Some(0);
    var clear := s.clear + Covered(PagesOf(start, k), s.covered);
    forall x | a <= x < a + Pow(k) ensures x in clear {
      assert InBlock(a, k + 1, x) && x in PagesOf(a, k + 1);
    }
  }

  lemma {:induction false} RunConcat(s: State, xs: seq<Op>, ys: seq<Op>)
    requires WellFormed(s) && Run(s, xs).Ok? && WellFormed(Run(s, xs).s)
    ensures Run(s, xs + ys) == if ys == [] then Run(s, xs) else Run(Run(s, xs).s, ys)
    decreases |xs|
  {
    hide Step;
    if xs == [] {
      assert xs + ys == ys;
    } else {
      RunConcat(Step(s, xs[0]).s, xs[1..], ys);
      assert (xs + ys)[1..] == xs[1..] + ys;
    }
  }

  lemma {:induction false} LegalConcat(s: State, xs: seq<Op>, ys: seq<Op>)
    requires WellFormed(s) && Run(s, xs).Ok? && WellFormed(Run(s, xs).s)
    requires LegalRun(s, xs) && LegalRun(Run(s, xs).s, ys)
    ensures LegalRun(s, xs + ys)
    decreases |xs|
  {
    hide Step, Legal;
    if xs == [] {
      assert xs + ys == ys;
    } else {
      LegalConcat(Step(s, xs[0]).s, xs[1..], ys);
      assert (xs + ys)[1..] == xs[1..] + ys;
    }
  }

  lemma {:induction false} AllocsLegal(s: State, ops: seq<Op>)
    requires WellFormed(s) && OnlyAllocs(ops)
    ensures LegalRun(s, ops)
    decreases |ops|
  {
    hide Step;
    if ops != [] {
      assert ops[0] in ops;
      var r := Step(s, ops[0]);
      if r.Ok? && WellFormed(r.s) { AllocsLegal(r.s, ops[1..]); }
    }
  }

  /** The run uses the region only: allocations and matching frees. */
  ghost predicate RegionRun(s: State, ops: seq<Op>)
    requires WellFormed(s)
  {
    LegalRun(s, ops) && forall op | op in ops :: !op.Add?
  }

  lemma MisfitBreaks(covered: nat, start: nat, end: nat) returns (ops: seq<Op>)
    requires 0 < start < end <= covered && !RegionFits(start, end)
    ensures var s := WithNode(Init(covered), start, end); WellFormed(s) && RegionRun(s, ops) && Run(s, ops) == Corrupt
  {
    hide Aligned, Xor, Pow, NodeInv, Carve, CarveTiling, Fit, RegionFits, AllocFrom, FreePages, LegalRun, Run;
    var k, s0, t0 := Order(start, MAX_ORDER), WithNode(Init(covered), start, end),
        CarveTiling(Below(start), start, end);
    var a := start + Pow(k);
    MisfitBlocks(start, end);
    CarvedUntouched(covered, start, end);
    var xs, s1, t1 := Exhaust(s0, t0, start, end, k + 1);
    var ys, s2, t2 := Exhaust(s1, t1, start, end, k);
    assert LiveAt(t2, a, k + 1) && LiveAt(t2, start, k);
    NotListed(end, s2.nodes[0].free, t2, a, k);
    var s3 := FirstFree(s2, t2, start, end, k);
    SecondFree(s3, start, end, k);
    var zs := [Release(a, k + 1), Release(start, k)];
    FinalRun(s2, s3, zs);
    AllocsLegal(s0, xs);
    AllocsLegal(s1, ys);
    LegalConcat(s1, ys, zs);
    RunConcat(s1, ys, zs);
    LegalConcat(s0, xs, ys + zs);
    RunConcat(s0, xs, ys + zs);
    ops := xs + (ys + zs);
  }

  lemma NotListed(end: nat, free: FreeLists, t: Tiling, a: nat, k: nat)
    requires NodeInv(0, end, free, t, {}) && k <= MAX_ORDER && a in t && t[a].kind == Live
    ensures a !in free[k]
  {
  }

  lemma FinalRun(s: State, s': State, zs: seq<Op>)
    requires WellFormed(s) && WellFormed(s') && |zs| == 2 && zs[0].Release? && zs[1].Release?
    requires FreePages(s, zs[0].pfn, zs[0].ord) == Ok(s', 0) && FreePages(s', zs[1].pfn, zs[1].ord) == Corrupt
    requires Matching(s, zs[0].pfn, zs[0].ord) && Matching(s', zs[1].pfn, zs[1].ord)
    ensures LegalRun(s, zs) && Run(s, zs) == Corrupt
  {
    assert zs[1..][0] == zs[1] && zs[1..][1..] == [];
  }

  /** Nothing covers what lies past the end of the only node. */
  lemma LoneExposed(nd: Node)
    ensures Exposed([nd])
  {
    hide Pow, Aligned;
    forall i: nat, q: nat, o: nat | i < |[nd]| && Overruns(q, o, [nd][i].base, [nd][i].limit)
      ensures Uncovered([nd], [nd][i].limit, q + Pow(o))
    {
      assert !InSome([nd], nd.limit);
    }
  }

  /** A single region behind a bitmap that covers it is safe in every run if and only if it fits. */
  lemma RegionSafeIff(covered: nat, start: nat, end: nat)
    requires FIRST_PAGE <= start < end <= covered
    ensures var s := WithNode(Init(covered), start, end);
            && WellFormed(s)
            && (RegionFits(start, end) <==> forall ops | RegionRun(s, ops) :: Run(s, ops).Ok?)
  {
    var s := WithNode(Init(covered), start, end);
    if RegionFits(start, end) {
      FitsSafe(covered, start, end);
    } else {
      var ops := MisfitBreaks(covered, start, end);
      assert RegionRun(s, ops) && !Run(s, ops).Ok?;
    }
  }

  lemma FitsSafe(covered: nat, start: nat, end: nat)
    requires FIRST_PAGE <= start < end <= covered && RegionFits(start, end)
    ensures var s := WithNode(Init(covered), start, end);
            WellFormed(s) && forall ops | RegionRun(s, ops) :: Run(s, ops).Ok?
  {
    hide RegionFits, Exposed, Run, LegalRun;
    var s := WithNode(Init(covered), start, end);
    InitInv(covered);
    var ts := NewNodeKeeps(Init(covered), [], start, end);
    hide Inv, WithNode;
    LoneNode(covered, start, end);
    forall ops | RegionRun(s, ops)
      ensures Run(s, ops).Ok?
    {
      var _ := RunKeeps(s, ts, ops);
    }
  }

  lemma LoneNode(covered: nat, start: nat, end: nat)
    requires start < end
    ensures Exposed(WithNode(Init(covered), start, end).nodes)
  {
    hide Exposed;
    var s := WithNode(Init(covered), start, end);
    LoneExposed(s.nodes[0]);
    assert s.nodes == [s.nodes[0]];
  }
}
