/**
 The exact condition on several nodes.  The coalescing test of `pmm_free_pages` asks only where a buddy
 starts, so a buddy that runs past the end of its node is judged by bits that belong to other nodes.  Given
 regions that fit, the allocator is safe in every run if and only if no such buddy is covered by nodes to its
 end.
 */
module BuddyTouching {
  import opened Pow2
  import opened BuddySpec
  import opened Buddy
  import opened BuddyNodes
  import opened BuddyCarve
  import opened BuddyRuns
  import opened BuddyMisfit

  // ---------------------------------------------------------------- taking every page

  /** Nothing has been freed yet, and every live block is a single page. */
  ghost predicate Pages(s: State)
  {
    s.clear == {} && forall p | p in s.live :: s.live[p] == 0
  }

  function TotalListed(nodes: seq<Node>): nat
  {
    if nodes == [] then 0 else TotalListed(nodes[..|nodes| - 1]) + ListPages(nodes[|nodes| - 1].free)
  }

  lemma {:induction false} TotalUpdate(nodes: seq<Node>, i: nat, nd: Node)
    requires i < |nodes| && ListPages(nd.free) < ListPages(nodes[i].free)
    ensures TotalListed(nodes[i := nd]) < TotalListed(nodes)
  {
    hide PagesFrom;
    var n := |nodes| - 1;
    if i < n {
      TotalUpdate(nodes[..n], i, nd);
      assert nodes[i := nd][..n] == nodes[..n][i := nd];
    } else {
      assert nodes[i := nd][..n] == nodes[..n];
    }
  }

  /** Allocating one page: some node gives one, or none has any left. */
  lemma {:induction false} TakePage(s: State, k: nat)
    requires WellFormed(s) && Pages(s)
    ensures var r := AllocFrom(s, k, 0);
            && r.Ok? && Pages(r.s) && r.s.covered == s.covered
            && (TotalListed(r.s.nodes) < TotalListed(s.nodes)
                || (r.s == s && forall i | k <= i < |s.nodes| :: FirstAvail(s.nodes[i].free, 0).None?))
    decreases |s.nodes| - k
  {
    hide PagesFrom, AllocLists;
    if k < |s.nodes| {
      match FirstAvail(s.nodes[k].free, 0)
      case None => TakePage(s, k + 1);
      case Some(avail) =>
        AllocPagesCount(s.nodes[k].free, avail, 0);
        TotalUpdate(s.nodes, k, AllocFrom(s, k, 0).s.nodes[k]);
    }
  }

  /** Allocating single pages until nothing is left. */
  lemma {:induction false} TakeAll(s: State, ts: seq<Tiling>) returns (ops: seq<Op>, s': State, ts': seq<Tiling>)
    requires Inv(s, ts) && WellFormed(s) && Pages(s)
    ensures OnlyAllocs(ops) && Run(s, ops) == Ok(s', 0) && Inv(s', ts') && WellFormed(s') && Pages(s')
    ensures s'.covered == s.covered && SameSpans(s.nodes, s'.nodes)
    ensures forall i | 0 <= i < |s'.nodes| :: FirstAvail(s'.nodes[i].free, 0).None?
    decreases TotalListed(s.nodes)
  {
    hide Inv, AllocFrom, TotalListed;
    TakePage(s, 0);
    var r := AllocFrom(s, 0, 0);
    if TotalListed(r.s.nodes) < TotalListed(s.nodes) {
      var ts1 := AllocKeeps(s, ts, 0, 0);
      InvWellFormed(r.s, ts1);
      var rest;
      rest, s', ts' := TakeAll(r.s, ts1);
      ops := [Alloc(0)] + rest;
      assert ops[1..] == rest;
    } else {
      ops, s', ts' := [], s, ts;
    }
  }

  /** Then every page of every node is live on its own. */
  lemma AllLive(s: State, ts: seq<Tiling>, x: nat)
    requires Inv(s, ts) && WellFormed(s) && Pages(s) && InSome(s.nodes, x)
    requires forall i | 0 <= i < |s.nodes| :: FirstAvail(s.nodes[i].free, 0).None?
    ensures x in s.live && s.live[x] == 0
  {
    hide Inv, FirstAvail;
    var i :| 0 <= i < |s.nodes| && Inside(s.nodes[i], x);
    var p, o := OwnerOf(s, ts, i, x);
    assert o == 0;
  }

  lemma OwnerOf(s: State, ts: seq<Tiling>, i: nat, x: nat) returns (p: nat, o: nat)
    requires Inv(s, ts) && WellFormed(s) && i < |s.nodes| && Inside(s.nodes[i], x)
    requires FirstAvail(s.nodes[i].free, 0).None?
    ensures p in s.live && s.live[p] == o && InBlock(p, o, x)
  {
    hide Aligned, Pow, PagesFrom, Surplus, NodeInv, FirstAvail, NodesApart;
    var nd, t := s.nodes[i], ts[i];
    assert NodeGood(s, i, t);
    p := LiveOwner(nd.base, nd.limit, nd.free, t, s.clear, x);
    o := t[p].ord;
    assert LiveAt(t, p, o);
  }

  lemma LiveOwner(base: nat, limit: nat, free: FreeLists, t: Tiling, clear: set<nat>, x: nat) returns (p: nat)
    requires NodeInv(base, limit, free, t, clear) && |free| == MAX_ORDER + 1 && FirstAvail(free, 0).None? && NoHeld(t)
    requires base <= x < limit
    ensures Covers(t, p, x) && t[p].kind == Live
  {
    hide Aligned, Pow;
    assert Owned(t, x);
    p :| Covers(t, p, x);
    NoFree(base, limit, free, t, clear, p);
  }

  lemma NoFree(base: nat, limit: nat, free: FreeLists, t: Tiling, clear: set<nat>, p: nat)
    requires NodeInv(base, limit, free, t, clear) && FirstAvail(free, 0).None? && p in t
    ensures t[p].kind != Free
  {
    hide Aligned, Pow;
    assert forall o | 0 <= o <= MAX_ORDER :: p !in free[o];
  }

  // ---------------------------------------------------------------- giving a stretch of pages back

  /** Pages `a` up to `b`, freed from the top down. */
  function Frees(a: nat, b: nat): seq<Op>
    requires a <= b
    decreases b - a
  {
    if a == b then [] else Frees(a + 1, b) + [Release(a, 0)]
  }

  predicate Returned(s: State, a: nat, b: nat) { forall x | a <= x < b :: x in s.clear }

  predicate StillLive(s: State, a: nat, b: nat) { forall x | a <= x < b :: x in s.live && s.live[x] == 0 }

  lemma FreeOne(s: State, ts: seq<Tiling>, a: nat, b: nat) returns (ts': seq<Tiling>)
    requires Inv(s, ts) && WellFormed(s) && a < s.covered && InSome(s.nodes, a) && a > 0
    requires a in s.live && s.live[a] == 0 && FreePages(s, a, 0).Ok? && Returned(s, a + 1, b)
    ensures var t := FreePages(s, a, 0).s;
            && Inv(t, ts') && WellFormed(t) && t.covered == s.covered && SameSpans(s.nodes, t.nodes)
            && Returned(t, a, b) && t.live == s.live - {a}
  {
    hide Inv, Coalesce;
    ts' := FreeKeeps(s, ts, a, 0);
    InvWellFormed(FreePages(s, a, 0).s, ts');
    assert InBlock(a, 0, a) && a in PagesOf(a, 0);
    SomeNode(s.nodes, a);
  }

  lemma SomeNode(nodes: seq<Node>, a: nat)
    requires InSome(nodes, a)
    ensures NodeOf(nodes, a).Some?
  {
    var i :| 0 <= i < |nodes| && Inside(nodes[i], a);
  }

  /** Either some free on the way already fails, or all pages from `a` to `b` are back and nothing else changed
      hands. */
  lemma {:induction false} FreeStretch(s: State, ts: seq<Tiling>, a: nat, b: nat) returns (ts': seq<Tiling>)
    requires Inv(s, ts) && WellFormed(s) && 0 < a <= b <= s.covered && StillLive(s, a, b)
    requires forall x | a <= x < b :: InSome(s.nodes, x)
    ensures LegalRun(s, Frees(a, b))
    ensures var r := Run(s, Frees(a, b));
            r.Ok? ==> && Inv(r.s, ts') && WellFormed(r.s) && r.s.covered == s.covered && SameSpans(s.nodes, r.s.nodes)
                      && Returned(r.s, a, b)
                      && forall x | x < a && x in s.live :: x in r.s.live && r.s.live[x] == s.live[x]
    decreases b - a
  {
    hide Inv, FreePages;
    if a == b {
      ts' := ts;
    } else {
      var ts1 := FreeStretch(s, ts, a + 1, b);
      var front, last := Frees(a + 1, b), [Release(a, 0)];
      var r := Run(s, front);
      ts' := ts1;
      if r.Ok? {
        SameSome(s.nodes, r.s.nodes, a);
        assert Legal(r.s, Release(a, 0)) && last[1..] == [];
        assert LegalRun(r.s, last);
        RunConcat(s, front, last);
        LegalConcat(s, front, last);
        if FreePages(r.s, a, 0).Ok? {
          ts' := FreeOne(r.s, ts1, a, b);
        }
      } else {
        FailConcat(s, front, last);
      }
    }
  }

  lemma SameSome(nodes: seq<Node>, nodes': seq<Node>, x: nat)
    requires SameSpans(nodes, nodes') && InSome(nodes, x)
    ensures InSome(nodes', x)
  {
    var i :| 0 <= i < |nodes| && Inside(nodes[i], x);
    assert Inside(nodes'[i], x);
  }

  /** A run that has failed stays failed, and whatever follows is legal. */
  lemma {:induction false} FailConcat(s: State, xs: seq<Op>, ys: seq<Op>)
    requires WellFormed(s) && Run(s, xs).Corrupt? && LegalRun(s, xs)
    ensures Run(s, xs + ys).Corrupt? && LegalRun(s, xs + ys)
    decreases |xs|
  {
    hide Step, Legal;
    var r := Step(s, xs[0]);
    assert (xs + ys)[0] == xs[0] && (xs + ys)[1..] == xs[1..] + ys;
    if r.Ok? && WellFormed(r.s) {
      FailConcat(r.s, xs[1..], ys);
    }
  }

  // ---------------------------------------------------------------- the merge that runs over the end

  /** The lower half climbs order by order and at the last step unlinks the overrunning buddy, which is on no list. */
  lemma {:induction false} Climb(free: FreeLists, clear: set<nat>, base: nat, limit: nat, p: nat, j: nat, o: nat)
    requires |free| == MAX_ORDER + 1 && base <= p && j <= o < MAX_ORDER && Aligned(p - base, o + 1)
    requires p + Pow(o) < limit && p + Pow(o) !in free[o]
    requires forall x | p <= x < p + Pow(o) + Pow(o) :: x in clear
    ensures Coalesce(free, clear, base, limit, p, j).Unlisted?
    decreases o - j
  {
    hide Pow, Aligned, Xor;
    var q := p + Pow(j);
    AlignedDown(p - base, o + 1, j + 1);
    LowerHalf(p, base, j);
    PowMonotone(j, o);
    if j < o && q in free[j] {
      Climb(Remove(free, j, q), clear, base, limit, p, j + 1, o);
    }
  }

  lemma LowerHalf(p: nat, base: nat, j: nat)
    requires base <= p && Aligned(p - base, j + 1)
    ensures BuddyOf(p, j, base) == p + Pow(j) && Pow(j) > 0
  {
    HalvesAreBuddies(p - base, j);
  }

  /** The last free of the stretch: its merge fails. */
  lemma LastFree(s: State, ts: seq<Tiling>, i: nat, q: nat, o: nat)
    requires Inv(s, ts) && WellFormed(s) && i < |s.nodes| && Overruns(q, o, s.nodes[i].base, s.nodes[i].limit)
    requires Pow(o) <= q && q + Pow(o) <= s.covered && 0 < q - Pow(o)
    requires s.nodes[i].base <= q - Pow(o) && Aligned(q - Pow(o) - s.nodes[i].base, o + 1)
    requires Returned(s, q - Pow(o) + 1, q + Pow(o))
    ensures FreePages(s, q - Pow(o), 0) == Corrupt
  {
    hide Pow, Aligned, Xor, Coalesce, NodeInv, PagesFrom, Surplus;
    var nd, p := s.nodes[i], q - Pow(o);
    var clear := s.clear + Covered(PagesOf(p, 0), s.covered);
    assert InSome(s.nodes, p) by {
      assert Inside(nd, p);
    }
    SomeNode(s.nodes, p);
    OneNode(s.nodes, i, NodeOf(s.nodes, p).value, p);
    FirstPage(p);
    assert NodeGood(s, i, ts[i]);
    NotWhole(nd.base, nd.limit, nd.free, ts[i], s.clear, q, o);
    Climb(nd.free, clear, nd.base, nd.limit, p, 0, o);
  }

  lemma FirstPage(p: nat)
    ensures p in PagesOf(p, 0)
  {
    assert InBlock(p, 0, p);
  }

  /** A region that runs past the end is no block of the node. */
  lemma NotWhole(base: nat, limit: nat, free: FreeLists, t: Tiling, clear: set<nat>, q: nat, o: nat)
    requires NodeInv(base, limit, free, t, clear) && o <= MAX_ORDER && limit < q + Pow(o)
    ensures |free| == MAX_ORDER + 1 && q !in free[o]
  {
    hide Aligned, Pow;
    assert q in t ==> q + Pow(t[q].ord) <= limit;
  }

  /** The lower buddy of an overrunning region lies in the node. */
  lemma LowerInside(base: nat, limit: nat, q: nat, o: nat)
    requires Overruns(q, o, base, limit)
    ensures base + Pow(o) <= q && Aligned(q - Pow(o) - base, o + 1) && 0 < Pow(o)
  {
    hide Aligned, Pow, Xor;
    BuddyFacts(q - base, o);
    PowPositive(o);
  }

  // ---------------------------------------------------------------- the iff

  ghost predicate Backed(s: State) { forall i | 0 <= i < |s.nodes| :: s.nodes[i].limit <= s.covered }

  lemma StretchInside(s: State, i: nat, q: nat, o: nat, x: nat)
    requires Backed(s) && i < |s.nodes| && s.nodes[i].base <= x < q + Pow(o)
    requires !Uncovered(s.nodes, s.nodes[i].limit, q + Pow(o))
    ensures InSome(s.nodes, x) && x < s.covered
  {
    hide Pow;
    assert x < s.nodes[i].limit ==> Inside(s.nodes[i], x);
    assert InSome(s.nodes, x);
    var j :| 0 <= j < |s.nodes| && Inside(s.nodes[j], x);
  }

  lemma UncoveredSame(nodes: seq<Node>, nodes': seq<Node>, a: nat, b: nat)
    requires SameSpans(nodes, nodes') && !Uncovered(nodes, a, b)
    ensures !Uncovered(nodes', a, b)
  {
    forall x: nat | a <= x < b
      ensures InSome(nodes', x)
    {
      assert InSome(nodes, x);
      SameSome(nodes, nodes', x);
    }
  }

  /** A buddy region covered by nodes to its end: take every page, return the region's, and the last merge fails. */
  lemma CoveredBreaks(s: State, ts: seq<Tiling>, i: nat, q: nat, o: nat) returns (ops: seq<Op>)
    requires Inv(s, ts) && WellFormed(s) && Pages(s) && Backed(s) && i < |s.nodes|
    requires Overruns(q, o, s.nodes[i].base, s.nodes[i].limit) && !Uncovered(s.nodes, s.nodes[i].limit, q + Pow(o))
    ensures RegionRun(s, ops) && Run(s, ops) == Corrupt
  {
    hide Pow, Aligned, Inv, AllocFrom, FreePages, Run, LegalRun, Uncovered, Frees, FirstAvail;
    LowerInside(s.nodes[i].base, s.nodes[i].limit, q, o);
    FirstAbove(s, ts, i);
    var xs, s1, ts1 := TakeAll(s, ts);
    AllocsLegal(s, xs);
    UncoveredSame(s.nodes, s1.nodes, s.nodes[i].limit, q + Pow(o));
    var p := q - Pow(o);
    forall x | p <= x < q + Pow(o)
      ensures InSome(s1.nodes, x) && x < s1.covered && x in s1.live && s1.live[x] == 0
    {
      StretchInside(s1, i, q, o, x);
      AllLive(s1, ts1, x);
    }
    StretchInside(s1, i, q, o, q + Pow(o) - 1);
    ops := BreakFrom(s1, ts1, i, q, o);
    RunConcat(s, xs, ops);
    LegalConcat(s, xs, ops);
    ops := xs + ops;
  }

  lemma FirstAbove(s: State, ts: seq<Tiling>, i: nat)
    requires Inv(s, ts) && i < |s.nodes|
    ensures 0 < s.nodes[i].base
  {
    assert NodeGood(s, i, ts[i]);
  }

  lemma BreakFrom(s: State, ts: seq<Tiling>, i: nat, q: nat, o: nat) returns (ops: seq<Op>)
    requires Inv(s, ts) && WellFormed(s) && i < |s.nodes| && Overruns(q, o, s.nodes[i].base, s.nodes[i].limit)
    requires s.nodes[i].base + Pow(o) <= q && 0 < s.nodes[i].base && q + Pow(o) <= s.covered && 0 < Pow(o)
    requires Aligned(q - Pow(o) - s.nodes[i].base, o + 1)
    requires StillLive(s, q - Pow(o), q + Pow(o)) && forall x | q - Pow(o) <= x < q + Pow(o) :: InSome(s.nodes, x)
    ensures RegionRun(s, ops) && Run(s, ops) == Corrupt && ops != []
  {
    hide Pow, Aligned, Inv, FreePages;
    var p, b := q - Pow(o), q + Pow(o);
    var ts' := FreeStretch(s, ts, p + 1, b);
    var front, last := Frees(p + 1, b), [Release(p, 0)];
    FreesRelease(p + 1, b);
    var r := Run(s, front);
    if r.Ok? {
      LastFree(r.s, ts', i, q, o);
      assert Legal(r.s, Release(p, 0)) && last[1..] == [];
      assert LegalRun(r.s, last) && Run(r.s, last) == Corrupt;
      RunConcat(s, front, last);
      LegalConcat(s, front, last);
    } else {
      FailConcat(s, front, last);
    }
    ops := front + last;
  }

  lemma {:induction false} FreesRelease(a: nat, b: nat)
    requires a <= b
    ensures forall op <- Frees(a, b) :: op.Release?
    decreases b - a
  {
    if a < b {
      FreesRelease(a + 1, b);
    }
  }

  /** Before anything is freed: every run is safe if and only if no overrunning buddy region is covered to its end. */
  lemma ExposedIff(s: State, ts: seq<Tiling>)
    requires Inv(s, ts) && WellFormed(s) && Pages(s) && Backed(s)
    ensures Exposed(s.nodes) <==> forall ops | RegionRun(s, ops) :: Run(s, ops).Ok?
  {
    hide Inv, Run, LegalRun, Overruns, Uncovered;
    if Exposed(s.nodes) {
      forall ops | RegionRun(s, ops)
        ensures Run(s, ops).Ok?
      {
        var _ := RunKeeps(s, ts, ops);
      }
    } else {
      var i: nat, q: nat, o: nat :| i < |s.nodes| && Overruns(q, o, s.nodes[i].base, s.nodes[i].limit)
                                    && !Uncovered(s.nodes, s.nodes[i].limit, q + Pow(o));
      var ops := CoveredBreaks(s, ts, i, q, o);
      assert RegionRun(s, ops) && !Run(s, ops).Ok?;
    }
  }

  // ---------------------------------------------------------------- an allocator that has taken in its regions

  datatype Region = Region(start: nat, end: nat)

  predicate Usable(rs: seq<Region>, covered: nat)
  {
    && |rs| <= MAX_NODES
    && (forall r <- rs :: FIRST_PAGE <= r.start < r.end <= covered && RegionFits(r.start, r.end))
    && (forall i, j | 0 <= i < j < |rs| :: Apart(rs[i].start, rs[i].end, rs[j].start, rs[j].end))
  }

  function TakenIn(covered: nat, rs: seq<Region>): (s: State)
    requires forall r <- rs :: r.start < r.end
    ensures |s.nodes| == |rs|
    ensures forall i | 0 <= i < |rs| :: s.nodes[i].base == rs[i].start && s.nodes[i].limit == rs[i].end
    ensures s.clear == {} && s.live == map[] && s.covered == covered
  {
    if rs == [] then Init(covered)
    else
      var r := rs[|rs| - 1];
      assert r in rs;
      WithNode(TakenIn(covered, rs[..|rs| - 1]), r.start, r.end)
  }

  lemma {:induction false} TakenInInv(covered: nat, rs: seq<Region>) returns (ts: seq<Tiling>)
    requires Usable(rs, covered)
    ensures Inv(TakenIn(covered, rs), ts)
  {
    hide Inv, RegionFits;
    if rs == [] {
      InitInv(covered);
      ts := [];
    } else {
      var front, r := rs[..|rs| - 1], rs[|rs| - 1];
      assert r in rs;
      var ts0 := TakenInInv(covered, front);
      ts := NewNodeKeeps(TakenIn(covered, front), ts0, r.start, r.end);
    }
  }

  /** An allocator over up to eight regions that fit and do not meet is safe in every run if and only if no buddy region
      that runs past the end of one of them is covered by others to its end. */
  lemma RegionsSafeIff(covered: nat, rs: seq<Region>)
    requires Usable(rs, covered)
    ensures var s := TakenIn(covered, rs);
            && WellFormed(s)
            && (Exposed(s.nodes) <==> forall ops | RegionRun(s, ops) :: Run(s, ops).Ok?)
  {
    hide Inv, Exposed, RegionRun;
    var ts := TakenInInv(covered, rs);
    var s := TakenIn(covered, rs);
    InvWellFormed(s, ts);
    assert Backed(s) by {
      forall i | 0 <= i < |s.nodes|
        ensures s.nodes[i].limit <= covered
      {
        assert rs[i] in rs;
      }
    }
    ExposedIff(s, ts);
  }
}
