/** Every run of add-region, alloc and matching free keeps every node exactly tiled. */
module BuddyRuns {
  import opened Pow2
  import opened BuddySpec
  import opened Buddy
  import opened BuddyNodes
  import opened BuddyCarve

  // ---------------------------------------------------------------- the invariant of the whole allocator

  /** The pages by which past merging frees made a node's counter too large. */
  function Surplus(frees: seq<FreeEvent>, i: nat): (r: int)
  {
    if frees == [] then 0
    else
      var e := frees[|frees| - 1];
      Surplus(frees[..|frees| - 1], i) + (if e.node == i then Pow(e.merged) - Pow(e.freed) else 0)
  }

  ghost predicate NodeGood(s: State, i: nat, t: Tiling)
    requires i < |s.nodes|
  {
    var nd := s.nodes[i];
    && FIRST_PAGE <= nd.base
    && NodeInv(nd.base, nd.limit, nd.free, t, s.clear) && NoHeld(t)
    && nd.freePages == ListPages(nd.free) + Surplus(s.frees, i)
  }

  ghost predicate NodesApart(nodes: seq<Node>)
  {
    && (forall i | 0 <= i < |nodes| :: nodes[i].base < nodes[i].limit)
    && (forall i, j | 0 <= i < |nodes| && 0 <= j < |nodes| && i != j ::
          Apart(nodes[i].base, nodes[i].limit, nodes[j].base, nodes[j].limit))
  }

  /** The callers' record agrees with the tilings. */
  ghost predicate LiveAgrees(s: State, ts: seq<Tiling>)
    requires |ts| == |s.nodes|
  {
    && (forall i: nat, p: nat, o: nat | i < |ts| && LiveAt(ts[i], p, o) :: p in s.live && s.live[p] == o)
    && (forall p | p in s.live :: InSome(s.nodes, p))
    && (forall i: nat, p | i < |ts| && p in s.live && Inside(s.nodes[i], p) :: LiveAt(ts[i], p, s.live[p]))
  }

  ghost predicate Inv(s: State, ts: seq<Tiling>)
  {
    && |ts| == |s.nodes| <= MAX_NODES
    && NodesApart(s.nodes)
    && (forall i | 0 <= i < |ts| :: NodeGood(s, i, ts[i]))
    && (forall x | x in s.clear :: InSome(s.nodes, x))
    && (forall e | e in s.frees :: e.node < |s.nodes| && e.freed <= e.merged)
    && LiveAgrees(s, ts)
  }

  // ---------------------------------------------------------------- one node changes, the others stay

  /** A node's invariant reads the bits of its own pages. */
  lemma ClearFrame(base: nat, limit: nat, free: FreeLists, t: Tiling, clear: set<nat>, clear': set<nat>)
    requires NodeInv(base, limit, free, t, clear)
    requires forall x: nat | base <= x < limit :: x in clear <==> x in clear'
    ensures NodeInv(base, limit, free, t, clear')
  {
    hide Pow, Aligned, Xor;
    assert forall p: nat, x: nat | Covers(t, p, x) :: x in clear <==> x in clear';
    forall p: nat, o: nat | FreeClear(t, clear', p, o) ensures FreeClear(t, clear, p, o) {
      forall x | p <= x < p + Pow(o) ensures x in clear { assert x in clear'; }
    }
  }

  ghost predicate SameSpans(nodes: seq<Node>, nodes': seq<Node>)
  {
    && |nodes| == |nodes'|
    && forall i | 0 <= i < |nodes| :: nodes'[i].base == nodes[i].base && nodes'[i].limit == nodes[i].limit
  }

  /** The change one operation makes: node `i` and the bits of its pages. */
  ghost predicate ChangesNode(s: State, s': State, i: nat)
  {
    && i < |s.nodes| == |s'.nodes|
    && s'.nodes == s.nodes[i := s'.nodes[i]]
    && s'.nodes[i].base == s.nodes[i].base && s'.nodes[i].limit == s.nodes[i].limit
    && (forall x: nat | !Inside(s.nodes[i], x) :: x in s.clear <==> x in s'.clear)
    && (forall j: nat | j != i :: Surplus(s.frees, j) == Surplus(s'.frees, j))
    && (forall e | e in s'.frees && e !in s.frees :: e.node == i && e.freed <= e.merged)
  }

  lemma OtherNodeKeeps(s: State, s': State, ts: seq<Tiling>, i: nat, j: nat)
    requires Inv(s, ts) && ChangesNode(s, s', i) && j < |ts| && j != i
    ensures NodeGood(s', j, ts[j])
  {
    var nd := s.nodes[j];
    assert s'.nodes[j] == nd;
    assert Apart(nd.base, nd.limit, s.nodes[i].base, s.nodes[i].limit);
    assert NodeGood(s, j, ts[j]);
    ClearFrame(nd.base, nd.limit, nd.free, ts[j], s.clear, s'.clear);
  }

  lemma ChangeKeeps(s: State, s': State, ts: seq<Tiling>, i: nat, t': Tiling)
    requires Inv(s, ts) && ChangesNode(s, s', i) && NodeGood(s', i, t')
    requires LiveAgrees(s', ts[i := t'])
    ensures Inv(s', ts[i := t'])
  {
    var ts' := ts[i := t'];
    forall j | 0 <= j < |ts'| ensures NodeGood(s', j, ts'[j]) {
      if j != i { OtherNodeKeeps(s, s', ts, i, j); }
    }
    forall x | x in s'.clear ensures InSome(s'.nodes, x) {
      if Inside(s.nodes[i], x) {
        assert Inside(s'.nodes[i], x);
      } else {
        assert InSome(s.nodes, x);
        var k :| 0 <= k < |s.nodes| && Inside(s.nodes[k], x);
        assert Inside(s'.nodes[k], x);
      }
    }
    SameRanges(s.nodes, s'.nodes);
  }

  lemma SameRanges(nodes: seq<Node>, nodes': seq<Node>)
    requires NodesApart(nodes) && |nodes| == |nodes'|
    requires forall i | 0 <= i < |nodes| :: nodes'[i].base == nodes[i].base && nodes'[i].limit == nodes[i].limit
    ensures NodesApart(nodes')
  {
    forall i, j | 0 <= i < |nodes| && 0 <= j < |nodes| && i != j
      ensures Apart(nodes'[i].base, nodes'[i].limit, nodes'[j].base, nodes'[j].limit)
    {
      assert Apart(nodes[i].base, nodes[i].limit, nodes[j].base, nodes[j].limit);
    }
  }

  /** Where the ranges are the same, so are the pages they cover and leave uncovered. */
  lemma SameExposed(nodes: seq<Node>, nodes': seq<Node>)
    requires Exposed(nodes) && |nodes| == |nodes'|
    requires forall i | 0 <= i < |nodes| :: nodes'[i].base == nodes[i].base && nodes'[i].limit == nodes[i].limit
    ensures Exposed(nodes')
  {
    hide Pow, Aligned;
    forall i: nat, q: nat, o: nat | i < |nodes'| && Overruns(q, o, nodes'[i].base, nodes'[i].limit)
      ensures Uncovered(nodes', nodes'[i].limit, q + Pow(o))
    {
      assert Uncovered(nodes, nodes[i].limit, q + Pow(o));
      var x: nat :| nodes[i].limit <= x < q + Pow(o) && !InSome(nodes, x);
      assert forall j | 0 <= j < |nodes| :: Inside(nodes'[j], x) == Inside(nodes[j], x);
      assert !InSome(nodes', x);
    }
  }

  /** Pages that belong to no node are never cleared. */
  lemma ExposedMarked(s: State, ts: seq<Tiling>, i: nat)
    requires Inv(s, ts) && Exposed(s.nodes) && i < |s.nodes|
    ensures EndMarked(s.clear, s.nodes[i].base, s.nodes[i].limit)
  {
    hide Pow, Aligned, NodeGood, LiveAgrees, NodesApart;
    var nd := s.nodes[i];
    forall q: nat, o: nat | Overruns(q, o, nd.base, nd.limit)
      ensures !PastClear(s.clear, nd.limit, q, o)
    {
      assert Uncovered(s.nodes, nd.limit, q + Pow(o));
    }
  }

  lemma OneNode(nodes: seq<Node>, i: nat, j: nat, x: nat)
    requires NodesApart(nodes) && i < |nodes| && j < |nodes| && Inside(nodes[i], x) && Inside(nodes[j], x)
    ensures i == j
  {
  }

  // ---------------------------------------------------------------- alloc

  lemma {:induction false} AllocKeeps(s: State, ts: seq<Tiling>, k: nat, o: nat) returns (ts': seq<Tiling>)
    requires Inv(s, ts) && WellFormed(s) && o <= MAX_ORDER
    ensures var r := AllocFrom(s, k, o); r.Ok? && Inv(r.s, ts') && SameSpans(s.nodes, r.s.nodes)
    ensures var r := AllocFrom(s, k, o);
            r.Ok? && r.pfn != 0 ==> r.pfn !in s.live && r.s.live == s.live[r.pfn := o]
    decreases |s.nodes| - k
  {
    hide NodeInv, Pow, Aligned, AllocLists, PagesFrom, Surplus, LiveAgrees;
    if k >= |s.nodes| {
      ts' := ts;
    } else {
      assert NodeGood(s, k, ts[k]);
      match FirstAvail(s.nodes[k].free, o)
      case None => ts' := AllocKeeps(s, ts, k + 1, o);
      case Some(avail) => ts' := AllocAtKeeps(s, ts, k, avail, o);
    }
  }

  lemma AllocAtKeeps(s: State, ts: seq<Tiling>, i: nat, avail: nat, o: nat) returns (ts': seq<Tiling>)
    requires Inv(s, ts) && WellFormed(s) && i < |s.nodes| && o <= avail <= MAX_ORDER
    requires s.nodes[i].free[avail] != [] && FirstAvail(s.nodes[i].free, o) == Some(avail)
    ensures var r := AllocFrom(s, i, o);
            r.Ok? && Inv(r.s, ts') && r.pfn == s.nodes[i].free[avail][0] && r.pfn !in s.live
  {
    hide Pow, Aligned, PagesFrom, NodeInv, AllocLists, PagesOf;
    var nd, t := s.nodes[i], ts[i];
    var p := nd.free[avail][0];
    assert NodeGood(s, i, t);
    var t' := AllocNodeKeeps(nd.base, nd.limit, nd.free, t, s.clear, avail, o);
    AllocPagesCount(nd.free, avail, o);
    ts' := ts[i := t'];
    var s' := AllocFrom(s, i, o).s;
    BlockInside(nd, p, o);
    assert NodeGood(s', i, t');
    assert Inside(nd, p);
    LiveAddAgrees(s, s', ts, i, t', p, o);
    ChangeKeeps(s, s', ts, i, t');
  }

  lemma BlockInside(nd: Node, p: nat, o: nat)
    requires nd.base <= p && p + Pow(o) <= nd.limit
    ensures Inside(nd, p) && forall x | x in PagesOf(p, o) :: Inside(nd, x)
  {
  }

  lemma LiveAddAgrees(s: State, s': State, ts: seq<Tiling>, i: nat, t': Tiling, p: nat, o: nat)
    requires Inv(s, ts) && ChangesNode(s, s', i) && s'.live == s.live[p := o]
    requires LiveAdded(ts[i], t', p, o) && Inside(s.nodes[i], p)
    ensures LiveAgrees(s', ts[i := t']) && p !in s.live
  {
    hide NodeInv, Pow, PagesFrom, Surplus;
    var ts' := ts[i := t'];
    assert p in s.live ==> LiveAt(ts[i], p, s.live[p]);
    forall j: nat, q: nat, k: nat | j < |ts'| && LiveAt(ts'[j], q, k) ensures q in s'.live && s'.live[q] == k {
      if j == i {
        if q != p { assert LiveAt(ts[i], q, k); }
      } else {
        assert LiveAt(ts[j], q, k);
      }
    }
    forall q | q in s'.live ensures InSome(s'.nodes, q) {
      SomeSame(s, s', i, q);
    }
    forall j: nat, q | j < |ts'| && q in s'.live && Inside(s'.nodes[j], q) ensures LiveAt(ts'[j], q, s'.live[q]) {
      if q == p { OneNode(s.nodes, i, j, p); }
    }
  }

  lemma SomeSame(s: State, s': State, i: nat, q: nat)
    requires ChangesNode(s, s', i)
    ensures InSome(s.nodes, q) <==> InSome(s'.nodes, q)
    ensures Inside(s.nodes[i], q) ==> InSome(s'.nodes, q)
  {
    forall j | 0 <= j < |s.nodes| ensures Inside(s.nodes[j], q) <==> Inside(s'.nodes[j], q) {}
    if Inside(s.nodes[i], q) { assert Inside(s'.nodes[i], q); }
  }

  // ---------------------------------------------------------------- free

  lemma SurplusAdd(frees: seq<FreeEvent>, e: FreeEvent, j: nat)
    ensures Surplus(frees + [e], j) == Surplus(frees, j) + if e.node == j then Pow(e.merged) - Pow(e.freed) else 0
  {
    assert (frees + [e])[..|frees|] == frees;
  }

  /** A matching free never misses a list, as long as buddy regions are exposed. */
  lemma FreeMerges(s: State, ts: seq<Tiling>, p: nat, ord: int)
    requires Inv(s, ts) && WellFormed(s) && Matching(s, p, ord) && Exposed(s.nodes)
    ensures FreePages(s, p, ord).Ok?
  {
    hide Pow, Aligned, PagesFrom, NodeInv, PagesOf, Surplus, Exposed, EndMarked;
    if p != 0 && 0 <= ord <= MAX_ORDER && NodeOf(s.nodes, p).Some? {
      var i := NodeOf(s.nodes, p).value;
      var nd := s.nodes[i];
      assert NodeGood(s, i, ts[i]);
      assert Inside(nd, p) && LiveAt(ts[i], p, ord);
      ExposedMarked(s, ts, i);
      FreeNodeMerges(nd.base, nd.limit, nd.free, ts[i], s.clear, s.covered, p, ord);
    }
  }

  /** A matching free that misses no list keeps the invariant. */
  lemma FreeKeeps(s: State, ts: seq<Tiling>, p: nat, ord: int) returns (ts': seq<Tiling>)
    requires Inv(s, ts) && WellFormed(s) && Matching(s, p, ord) && FreePages(s, p, ord).Ok?
    ensures var r := FreePages(s, p, ord); Inv(r.s, ts') && SameSpans(s.nodes, r.s.nodes)
  {
    if p == 0 || ord < 0 || ord > MAX_ORDER || NodeOf(s.nodes, p).None? {
      ts' := ts;
    } else {
      ts' := FreeAtKeeps(s, ts, NodeOf(s.nodes, p).value, p, ord);
    }
  }

  lemma FreeAtKeeps(s: State, ts: seq<Tiling>, i: nat, p: nat, o: nat) returns (ts': seq<Tiling>)
    requires Inv(s, ts) && WellFormed(s) && NodeOf(s.nodes, p) == Some(i) && p != 0 && o <= MAX_ORDER
    requires p in s.live && s.live[p] == o && FreePages(s, p, o).Ok?
    ensures var r := FreePages(s, p, o); Inv(r.s, ts') && SameSpans(s.nodes, r.s.nodes)
  {
    hide Pow, Aligned, PagesFrom, NodeInv, PagesOf, Surplus;
    var nd, t := s.nodes[i], ts[i];
    assert NodeGood(s, i, t);
    assert Inside(nd, p) && LiveAt(t, p, o);
    var clear := s.clear + Covered(PagesOf(p, o), s.covered);
    var t' := FreeNodeKeeps(nd.base, nd.limit, nd.free, t, s.clear, s.covered, p, o);
    var r := Coalesce(nd.free, clear, nd.base, nd.limit, p, o);
    CoalescePages(nd.free, clear, nd.base, nd.limit, p, o);
    PushPages(r.free, r.ord, r.pfn);
    BlockInside(nd, p, o);
    ts' := ts[i := t'];
    var s' := FreePages(s, p, o).s;
    var e := FreeEvent(i, o, r.ord);
    forall j: nat ensures Surplus(s'.frees, j) == Surplus(s.frees, j) + if j == i then Pow(r.ord) - Pow(o) else 0 {
      SurplusAdd(s.frees, e, j);
    }
    assert NodeGood(s', i, t');
    LiveDropAgrees(s, s', ts, i, t', p);
    ChangeKeeps(s, s', ts, i, t');
  }

  lemma LiveDropAgrees(s: State, s': State, ts: seq<Tiling>, i: nat, t': Tiling, p: nat)
    requires Inv(s, ts) && ChangesNode(s, s', i) && s'.live == s.live - {p} && Inside(s.nodes[i], p)
    requires forall k: nat :: !LiveAt(t', p, k)
    requires forall q: nat, k: nat | q != p :: LiveAt(ts[i], q, k) <==> LiveAt(t', q, k)
    ensures LiveAgrees(s', ts[i := t'])
  {
    var ts' := ts[i := t'];
    forall j: nat, q: nat, k: nat | j < |ts'| && LiveAt(ts'[j], q, k) ensures q in s'.live && s'.live[q] == k {
      if j == i {
        assert LiveAt(ts[i], q, k);
      } else {
        assert LiveAt(ts[j], q, k);
        LiveInside(s, ts, j, q, k);
        if q == p { OneNode(s.nodes, i, j, p); }
      }
    }
    forall q | q in s'.live ensures InSome(s'.nodes, q) {
      SomeSame(s, s', i, q);
    }
  }

  lemma LiveInside(s: State, ts: seq<Tiling>, j: nat, q: nat, k: nat)
    requires Inv(s, ts) && j < |ts| && LiveAt(ts[j], q, k)
    ensures Inside(s.nodes[j], q)
  {
    hide Pow, Aligned;
    assert NodeGood(s, j, ts[j]);
  }

  // ---------------------------------------------------------------- add

  lemma AddKeeps(s: State, ts: seq<Tiling>, base: nat, length: nat) returns (ts': seq<Tiling>)
    requires Inv(s, ts) && WellFormed(s) && LegalAdd(s, base, length)
    requires Exposed(s.nodes)
    ensures var r := AddRegion(s, base, length); r.Ok? && Inv(r.s, ts') && Exposed(r.s.nodes)
  {
    hide Pow, Aligned, PagesFrom, Overruns;
    var start, end := RegionStart(base), RegionEnd(base, length);
    if end <= start {
      ts' := ts;
    } else {
      if |s.nodes| < MAX_NODES || NodeOf(s.nodes, start).Some? {
        forall i | 0 <= i < |s.nodes| ensures !Inside(s.nodes[i], start) {
          assert Apart(s.nodes[i].base, s.nodes[i].limit, start, end);
        }
        ts' := NewNodeKeeps(s, ts, start, end);
        SameExposed(s.nodes + [Node(start, end, EMPTY_LISTS, 0)], AddRegion(s, base, length).s.nodes);
      } else {
        ts' := ts;
      }
    }
  }

  function WithNode(s: State, start: nat, end: nat): State
    requires start < end
  {
    var nd := Node(start, end, Carve(EMPTY_LISTS, start, end), end - start);
    s.(nodes := s.nodes + [nd], freeRam := nd.freePages)
  }

  lemma EmptyCarved(start: nat)
    ensures Carved(map[], EMPTY_LISTS, start, start)
  {
  }

  /** A region that fits is carved into blocks aligned relative to its own start. */
  lemma CarveTiled(start: nat, end: nat)
    requires start < end && RegionFits(start, end)
    ensures var t := CarveTiling(map[], start, end);
            && Tiled(t, start, end) && Listed(Carve(EMPTY_LISTS, start, end), t)
            && forall p | p in t :: t[p].kind == Free
  {
    hide Pow, Aligned, CarveTiling, Carve;
    EmptyCarved(start);
    CarveShape(map[], EMPTY_LISTS, start, start, end);
    var t := CarveTiling(map[], start, end);
    forall p | p in t ensures Aligned(p - start, t[p].ord) {
      FitsAligned(start, end, p, t[p].ord);
    }
  }

  lemma {:induction false} SurplusNone(frees: seq<FreeEvent>, i: nat)
    requires forall e | e in frees :: e.node != i
    ensures Surplus(frees, i) == 0
  {
    if frees != [] {
      assert frees[|frees| - 1] in frees;
      SurplusNone(frees[..|frees| - 1], i);
    }
  }

  lemma NewNodeInv(s: State, start: nat, end: nat)
    requires start < end && RegionFits(start, end)
    requires forall x | x in s.clear :: InSome(s.nodes, x)
    requires forall i | 0 <= i < |s.nodes| :: s.nodes[i].base <= s.nodes[i].limit
                                             && Apart(s.nodes[i].base, s.nodes[i].limit, start, end)
    ensures NodeInv(start, end, Carve(EMPTY_LISTS, start, end), CarveTiling(map[], start, end), s.clear)
    ensures NoHeld(CarveTiling(map[], start, end))
  {
    hide Aligned, CarveTiling, Carve;
    CarveTiled(start, end);
    var t := CarveTiling(map[], start, end);
    forall x: nat | start <= x < end ensures x !in s.clear {
      assert !InSome(s.nodes, x);
    }
    forall p: nat, o: nat ensures !FreeClear(t, s.clear, p, o) {
      assert p in t ==> p !in s.clear;
    }
  }

  lemma NewNodeKeeps(s: State, ts: seq<Tiling>, start: nat, end: nat) returns (ts': seq<Tiling>)
    requires Inv(s, ts) && |s.nodes| < MAX_NODES && FIRST_PAGE <= start < end && RegionFits(start, end)
    requires forall i | 0 <= i < |s.nodes| :: s.nodes[i].base <= s.nodes[i].limit
                                             && Apart(s.nodes[i].base, s.nodes[i].limit, start, end)
    ensures Inv(WithNode(s, start, end), ts')
  {
    hide Pow, Aligned, CarveTiling, Carve, NodeInv, PagesFrom, Surplus;
    var t, n, s' := CarveTiling(map[], start, end), |s.nodes|, WithNode(s, start, end);
    ts' := ts + [t];
    NewNodeInv(s, start, end);
    CarvePages(EMPTY_LISTS, start, end);
    EmptyPages();
    SurplusNone(s.frees, n);
    assert NodeGood(s', n, t);
    forall j | 0 <= j < |ts'| ensures NodeGood(s', j, ts'[j]) {
      if j < n { assert NodeGood(s, j, ts[j]); }
    }
    forall x | InSome(s.nodes, x) ensures InSome(s'.nodes, x) {
      var i :| 0 <= i < |s.nodes| && Inside(s.nodes[i], x);
      assert Inside(s'.nodes[i], x);
    }
    NewNodeLive(s, s', ts, t, start, end);
  }

  lemma EmptyPages()
    ensures ListPages(EMPTY_LISTS) == 0
  {
    EmptyPagesFrom(0);
  }

  lemma {:induction false} EmptyPagesFrom(o: nat)
    ensures PagesFrom(EMPTY_LISTS, o) == 0
    decreases |EMPTY_LISTS| - o
  {
    if o < |EMPTY_LISTS| { EmptyPagesFrom(o + 1); }
  }

  lemma NewNodeLive(s: State, s': State, ts: seq<Tiling>, t: Tiling, start: nat, end: nat)
    requires |ts| == |s.nodes| && LiveAgrees(s, ts) && s'.live == s.live
    requires start < end && s'.nodes == s.nodes + [Node(start, end, Carve(EMPTY_LISTS, start, end), end - start)]
    requires forall i | 0 <= i < |s.nodes| :: s.nodes[i].base <= s.nodes[i].limit
                                             && Apart(s.nodes[i].base, s.nodes[i].limit, start, end)
    requires t == CarveTiling(map[], start, end) && RegionFits(start, end)
    requires forall x | InSome(s.nodes, x) :: InSome(s'.nodes, x)
    ensures LiveAgrees(s', ts + [t])
  {
    hide Pow, Aligned, CarveTiling, Carve;
    CarveTiled(start, end);
    var ts' := ts + [t];
    forall i: nat, p: nat, o: nat | i < |ts'| && LiveAt(ts'[i], p, o) ensures p in s'.live && s'.live[p] == o {
      assert i < |ts| && LiveAt(ts[i], p, o);
    }
    forall i: nat, p | i < |ts'| && p in s'.live && Inside(s'.nodes[i], p) ensures LiveAt(ts'[i], p, s'.live[p]) {
      assert InSome(s.nodes, p);
      var k :| 0 <= k < |s.nodes| && Inside(s.nodes[k], p);
      assert i < |ts|;
    }
  }

  // ---------------------------------------------------------------- runs

  function Run(s: State, ops: seq<Op>): Outcome
    requires WellFormed(s)
    decreases |ops|
  {
    if ops == [] then Ok(s, 0)
    else
      var r := Step(s, ops[0]);
      if r.Corrupt? then Corrupt else if !WellFormed(r.s) then Corrupt else Run(r.s, ops[1..])
  }

  /** Every operation is legal in the state it finds. */
  ghost predicate LegalRun(s: State, ops: seq<Op>)
    requires WellFormed(s)
    decreases |ops|
  {
    ops == [] ||
    (Legal(s, ops[0]) &&
     var r := Step(s, ops[0]);
     r.Ok? && WellFormed(r.s) ==> LegalRun(r.s, ops[1..]))
  }

  lemma InvWellFormed(s: State, ts: seq<Tiling>)
    requires Inv(s, ts)
    ensures WellFormed(s)
  {
    forall i | 0 <= i < |s.nodes| ensures |s.nodes[i].free| == MAX_ORDER + 1 && s.nodes[i].base < s.nodes[i].limit {
      assert NodeGood(s, i, ts[i]);
    }
  }

  lemma StepKeeps(s: State, ts: seq<Tiling>, op: Op) returns (ts': seq<Tiling>)
    requires Inv(s, ts) && WellFormed(s) && Legal(s, op) && Exposed(s.nodes)
    ensures var r := Step(s, op); r.Ok? && Inv(r.s, ts') && Exposed(r.s.nodes)
  {
    hide Inv, Exposed;
    match op
    case Add(base, length) => ts' := AddKeeps(s, ts, base, length);
    case Alloc(ord) =>
      if ord < 0 || ord > MAX_ORDER {
        ts' := ts;
      } else {
        ts' := AllocKeeps(s, ts, 0, ord);
        SameExposed(s.nodes, Step(s, op).s.nodes);
      }
    case Release(p, ord) =>
      FreeMerges(s, ts, p, ord);
      ts' := FreeKeeps(s, ts, p, ord);
      SameExposed(s.nodes, Step(s, op).s.nodes);
  }

  lemma {:induction false} RunKeeps(s: State, ts: seq<Tiling>, ops: seq<Op>) returns (ts': seq<Tiling>)
    requires Inv(s, ts) && WellFormed(s) && LegalRun(s, ops) && Exposed(s.nodes)
    ensures var r := Run(s, ops); r.Ok? && Inv(r.s, ts') && Exposed(r.s.nodes)
    decreases |ops|
  {
    hide Inv, Exposed;
    if ops == [] {
      ts' := ts;
    } else {
      var ts1 := StepKeeps(s, ts, ops[0]);
      InvWellFormed(Step(s, ops[0]).s, ts1);
      ts' := RunKeeps(Step(s, ops[0]).s, ts1, ops[1..]);
    }
  }

  /** A block of the node: on the free list of its order, or live with a caller. */
  predicate BlockOf(s: State, i: nat, p: nat, o: nat, isFree: bool)
    requires WellFormed(s)
  {
    if isFree then i < |s.nodes| && o <= MAX_ORDER && p in s.nodes[i].free[o]
    else p in s.live && s.live[p] == o
  }

  /** Exactly one block, free or live, holds the page. */
  ghost predicate OwnedOnce(s: State, i: nat, x: nat)
    requires WellFormed(s)
  {
    && (exists p: nat, o: nat, f: bool :: BlockOf(s, i, p, o, f) && InBlock(p, o, x))
    && (forall p: nat, o: nat, f: bool, q: nat, k: nat, g: bool |
          BlockOf(s, i, p, o, f) && InBlock(p, o, x) && BlockOf(s, i, q, k, g) && InBlock(q, k, x) ::
          p == q && o == k && f == g)
  }

  lemma BlockTile(s: State, ts: seq<Tiling>, i: nat, p: nat, o: nat, f: bool, x: nat)
    requires Inv(s, ts) && WellFormed(s) && i < |s.nodes| && Inside(s.nodes[i], x)
    requires BlockOf(s, i, p, o, f) && InBlock(p, o, x)
    ensures Covers(ts[i], p, x) && ts[i][p] == Block(o, if f then Free else Live)
  {
    hide Pow, Aligned;
    assert NodeGood(s, i, ts[i]);
    if !f {
      assert InSome(s.nodes, p);
      var j: nat :| 0 <= j < |s.nodes| && Inside(s.nodes[j], p);
      assert LiveAt(ts[j], p, o);
      assert NodeGood(s, j, ts[j]);
      assert Inside(s.nodes[j], x);
      OneNode(s.nodes, i, j, x);
    }
  }

  lemma OnceFromInv(s: State, ts: seq<Tiling>, i: nat, x: nat)
    requires Inv(s, ts) && WellFormed(s) && i < |s.nodes| && Inside(s.nodes[i], x)
    ensures OwnedOnce(s, i, x)
  {
    hide Pow, Aligned;
    var t := ts[i];
    assert NodeGood(s, i, t);
    assert Owned(t, x);
    var p: nat :| Covers(t, p, x);
    assert t[p].kind == Live ==> LiveAt(t, p, t[p].ord);
    assert BlockOf(s, i, p, t[p].ord, t[p].kind == Free) && InBlock(p, t[p].ord, x);
    forall p: nat, o: nat, f: bool, q: nat, k: nat, g: bool |
      BlockOf(s, i, p, o, f) && InBlock(p, o, x) && BlockOf(s, i, q, k, g) && InBlock(q, k, x)
      ensures p == q && o == k && f == g
    {
      BlockTile(s, ts, i, p, o, f, x);
      BlockTile(s, ts, i, q, k, g, x);
    }
  }

  /** In every run of add-region, alloc and matching free from an initialised allocator, no coalescing
      step unlinks a block that is not on its list, and afterwards every page of every node belongs to
      exactly one block: on a free list, or live with a caller. */
  lemma RunTiles(covered: nat, ops: seq<Op>)
    requires LegalRun(Init(covered), ops)
    ensures var r := Run(Init(covered), ops);
            && r.Ok? && WellFormed(r.s)
            && forall i: nat, x: nat | i < |r.s.nodes| && Inside(r.s.nodes[i], x) :: OwnedOnce(r.s, i, x)
  {
    var ts := RunKeeps(Init(covered), [], ops);
    var s := Run(Init(covered), ops).s;
    InvWellFormed(s, ts);
    forall i: nat, x: nat | i < |s.nodes| && Inside(s.nodes[i], x) ensures OwnedOnce(s, i, x) {
      OnceFromInv(s, ts, i, x);
    }
  }

  lemma LiveDisjoint(s: State, ts: seq<Tiling>, p: nat, q: nat, x: nat)
    requires Inv(s, ts) && WellFormed(s) && p in s.live && q in s.live
    requires InBlock(p, s.live[p], x) && InBlock(q, s.live[q], x)
    ensures p == q
  {
    hide Pow, Aligned;
    assert InSome(s.nodes, p);
    var i: nat :| 0 <= i < |s.nodes| && Inside(s.nodes[i], p);
    assert LiveAt(ts[i], p, s.live[p]);
    assert NodeGood(s, i, ts[i]);
    BlockTile(s, ts, i, p, s.live[p], false, x);
    BlockTile(s, ts, i, q, s.live[q], false, x);
  }

  /** In every run, an allocation that succeeds returns pages that no live block holds. */
  lemma AllocationsDisjoint(covered: nat, ops: seq<Op>, o: nat)
    requires LegalRun(Init(covered), ops) && o <= MAX_ORDER
    ensures var r := Run(Init(covered), ops);
            && r.Ok? && WellFormed(r.s) && AllocPages(r.s, o).Ok?
            && var p := AllocPages(r.s, o).pfn;
               p != 0 ==> forall q, x: nat | q in r.s.live && InBlock(p, o, x) :: !InBlock(q, r.s.live[q], x)
  {
    hide Pow, Aligned, Inv, Run, AllocFrom;
    InitInv(covered);
    var ts := RunKeeps(Init(covered), [], ops);
    var s := Run(Init(covered), ops).s;
    InvWellFormed(s, ts);
    var ts' := AllocKeeps(s, ts, 0, o);
    var a := AllocFrom(s, 0, o);
    InvWellFormed(a.s, ts');
    if a.pfn != 0 {
      forall q, x: nat | q in s.live && InBlock(a.pfn, o, x) ensures !InBlock(q, s.live[q], x) {
        if InBlock(q, s.live[q], x) { LiveDisjoint(a.s, ts', a.pfn, q, x); }
      }
    }
  }

  lemma InitInv(covered: nat)
    ensures WellFormed(Init(covered)) && Inv(Init(covered), [])
  {
  }

  // ---------------------------------------------------------------- the free-page counter

  lemma {:induction false} SurplusSign(frees: seq<FreeEvent>, i: nat)
    requires forall e | e in frees :: e.freed <= e.merged
    ensures Surplus(frees, i) >= 0
    ensures Surplus(frees, i) == 0 <==> forall e | e in frees && e.node == i :: e.merged == e.freed
  {
    if frees != [] {
      var n := |frees| - 1;
      var e, rest := frees[n], frees[..n];
      assert frees == rest + [e];
      SurplusSign(rest, i);
      PowMonotone(e.freed, e.merged);
      if e.freed < e.merged { PowMonotone(e.freed + 1, e.merged); }
    }
  }

  /** In every run a node's counter is the number of pages on its free lists plus what past merges
      over-credited: it never under-reports, and it is exact precisely while no free of the node merged. */
  lemma CounterTheorem(covered: nat, ops: seq<Op>, i: nat)
    requires LegalRun(Init(covered), ops)
    ensures var r := Run(Init(covered), ops);
            && r.Ok?
            && (i < |r.s.nodes| ==>
                  var nd := r.s.nodes[i];
                  && nd.freePages == ListPages(nd.free) + Surplus(r.s.frees, i)
                  && nd.freePages >= ListPages(nd.free)
                  && (nd.freePages == ListPages(nd.free)
                      <==> forall e | e in r.s.frees && e.node == i :: e.merged == e.freed))
  {
    InitInv(covered);
    var ts := RunKeeps(Init(covered), [], ops);
    var s := Run(Init(covered), ops).s;
    if i < |s.nodes| {
      assert NodeGood(s, i, ts[i]);
      SurplusSign(s.frees, i);
    }
  }

  function CounterSum(nodes: seq<Node>): int
  {
    if nodes == [] then 0 else CounterSum(nodes[..|nodes| - 1]) + nodes[|nodes| - 1].freePages
  }

  lemma {:induction false} CounterSumZero(nodes: seq<Node>)
    requires forall i: nat | i < |nodes| :: nodes[i].freePages >= 0
    ensures CounterSum(nodes) >= 0
    ensures CounterSum(nodes) == 0 <==> forall i: nat | i < |nodes| :: nodes[i].freePages == 0
  {
    if nodes != [] {
      var n := |nodes| - 1;
      CounterSumZero(nodes[..n]);
      assert forall i: nat | i < n :: nodes[..n][i] == nodes[i];
    }
  }

  lemma SumAfterAdd(s: State, start: nat, end: nat)
    requires start < end
    ensures var s' := WithNode(s, start, end); s'.freeRam == CounterSum(s'.nodes) <==> CounterSum(s.nodes) == 0
  {
    var s' := WithNode(s, start, end);
    assert s'.nodes[..|s.nodes|] == s.nodes;
  }

  /** The global statistic counts only the node added last: in every run, right after a region is added it equals
      the sum of all counters exactly when every earlier node's counter is zero. */
  lemma StatisticAfterAdd(covered: nat, ops: seq<Op>, start: nat, end: nat)
    requires LegalRun(Init(covered), ops) && start < end
    ensures var r := Run(Init(covered), ops);
            && r.Ok?
            && var s' := WithNode(r.s, start, end);
               s'.freeRam == CounterSum(s'.nodes) <==> forall i: nat | i < |r.s.nodes| :: r.s.nodes[i].freePages == 0
  {
    hide Run, LegalRun, ListPages, Surplus, WithNode, CounterSum;
    CounterTheorem(covered, ops, 0);
    var s := Run(Init(covered), ops).s;
    forall i: nat | i < |s.nodes|
      ensures s.nodes[i].freePages >= 0
    {
      CounterTheorem(covered, ops, i);
    }
    CounterSumZero(s.nodes);
    SumAfterAdd(s, start, end);
  }
}
